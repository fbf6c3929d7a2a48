/** The string operations the board uses, restricted to ASCII: JavaScript's
    `toLowerCase`, `toUpperCase` and `trim` are Unicode-aware, here only the
    letters A-Z / a-z change case and only the ASCII white-space characters
    are trimmed. `Contains` is `String.prototype.includes`, `Split` is
    `String.prototype.split` with a one-character separator and
    `ReplaceFirst` is `String.prototype.replace` with a one-character
    string pattern. */
module Text {

  function LowerChar(c: char): char
  {
    if 'A' <= c <= 'Z' then (c as int + 32) as char else c
  }

  function UpperChar(c: char): char
  {
    if 'a' <= c <= 'z' then (c as int - 32) as char else c
  }

  /** `s.toLowerCase()`. */
  function ToLower(s: string): string
  {
    seq(|s|, i requires 0 <= i < |s| => LowerChar(s[i]))
  }

  /** `s.toUpperCase()`. */
  function ToUpper(s: string): string
  {
    seq(|s|, i requires 0 <= i < |s| => UpperChar(s[i]))
  }

  /** `s` has no upper-case ASCII letter. */
  predicate IsLower(s: string)
  {
    forall i :: 0 <= i < |s| ==> !('A' <= s[i] <= 'Z')
  }

  /** Lower-casing yields a lower-case string of the same length that differs
      from its input only on upper-case letters, and lower-casing it again
      changes nothing. */
  lemma ToLowerFacts(s: string)
    ensures |ToLower(s)| == |s|
    ensures IsLower(ToLower(s))
    ensures IsLower(s) ==> ToLower(s) == s
    ensures ToLower(ToLower(s)) == ToLower(s)
  {
  }

  lemma ToUpperLength(s: string)
    ensures |ToUpper(s)| == |s|
  {
  }

  lemma ToUpperAppend(a: string, b: string)
    ensures ToUpper(a + b) == ToUpper(a) + ToUpper(b)
  {
  }

  lemma ToUpperPrefix(s: string, n: nat)
    requires n <= |s|
    ensures ToUpper(s)[..n] == ToUpper(s[..n])
  {
  }

  /** The characters `String.prototype.trim` removes, restricted to ASCII:
      space, tab, line feed, vertical tab, form feed, carriage return. */
  predicate IsSpace(c: char)
  {
    c == ' ' || c == '\t' || c == '\n' || c == '\r' || c == '\U{B}' || c == '\U{C}'
  }

  function TrimStart(s: string): string
  {
    if s != [] && IsSpace(s[0]) then TrimStart(s[1..]) else s
  }

  function TrimEnd(s: string): string
  {
    if s != [] && IsSpace(s[|s| - 1]) then TrimEnd(s[..|s| - 1]) else s
  }

  /** `s.trim()`. */
  function Trim(s: string): string
  {
    TrimEnd(TrimStart(s))
  }

  /** Every character of `s` is white space. */
  predicate IsBlank(s: string)
  {
    forall i :: 0 <= i < |s| ==> IsSpace(s[i])
  }

  lemma {:induction false} TrimStartFacts(s: string)
    ensures exists k :: 0 <= k <= |s| && TrimStart(s) == s[k..] && IsBlank(s[..k])
    ensures TrimStart(s) == [] || !IsSpace(TrimStart(s)[0])
    decreases |s|
  {
    if s != [] && IsSpace(s[0]) {
      var rest := s[1..];
      TrimStartFacts(rest);
      var k :| 0 <= k <= |rest| && TrimStart(rest) == rest[k..] && IsBlank(rest[..k]);
      assert TrimStart(s) == TrimStart(rest);
      assert rest[k..] == s[k + 1..];
      var pre := s[..k + 1];
      forall n | 0 <= n < |pre| ensures IsSpace(pre[n]) {
        if n > 0 {
          assert pre[n] == rest[..k][n - 1];
        }
      }
    } else {
      assert TrimStart(s) == s[0..];
      assert IsBlank(s[..0]);
    }
  }

  lemma {:induction false} TrimEndFacts(s: string)
    ensures exists k :: 0 <= k <= |s| && TrimEnd(s) == s[..k] && IsBlank(s[k..])
    ensures TrimEnd(s) == [] || !IsSpace(TrimEnd(s)[|TrimEnd(s)| - 1])
    decreases |s|
  {
    var n := |s|;
    if s != [] && IsSpace(s[n - 1]) {
      var u := s[..n - 1];
      TrimEndFacts(u);
      var k :| 0 <= k <= |u| && TrimEnd(u) == u[..k] && IsBlank(u[k..]);
      assert TrimEnd(s) == TrimEnd(u);
      assert s[..k] == u[..k];
      forall m | k <= m < n ensures IsSpace(s[m]) {
        if m < n - 1 {
          assert s[m] == u[k..][m - k];
        }
      }
      assert IsBlank(s[k..]) by {
        forall m | 0 <= m < |s[k..]| ensures IsSpace(s[k..][m]) {
          assert s[k..][m] == s[k + m];
        }
      }
    } else {
      assert TrimEnd(s) == s[..n];
      assert IsBlank(s[n..]);
    }
  }

  /** `trim` removes a blank prefix and a blank suffix and leaves a string
      that neither starts nor ends with white space. */
  lemma TrimFacts(s: string)
    ensures exists i, j :: 0 <= i <= j <= |s| && Trim(s) == s[i..j] && IsBlank(s[..i]) && IsBlank(s[j..])
    ensures Trim(s) == [] || (!IsSpace(Trim(s)[0]) && !IsSpace(Trim(s)[|Trim(s)| - 1]))
  {
    TrimStartFacts(s);
    var i :| 0 <= i <= |s| && TrimStart(s) == s[i..] && IsBlank(s[..i]);
    TrimPieces(s, i);
    TrimEndFacts(TrimStart(s));
  }

  /** Trimming the end of the blank-stripped suffix `s[i..]` leaves a slice
      of `s` followed by white space. */
  lemma TrimPieces(s: string, i: nat)
    requires i <= |s| && TrimStart(s) == s[i..]
    ensures exists j :: i <= j <= |s| && Trim(s) == s[i..j] && IsBlank(s[j..])
    ensures Trim(s) == [] || Trim(s)[0] == TrimStart(s)[0]
  {
    var t := s[i..];
    TrimEndFacts(t);
    var m :| 0 <= m <= |t| && TrimEnd(t) == t[..m] && IsBlank(t[m..]);
    assert t[..m] == s[i..i + m];
    assert t[m..] == s[i + m..];
  }

  /** A query is blank after trimming exactly when it is all white space. */
  lemma {:induction false} TrimEmptyIffBlank(s: string)
    ensures Trim(s) == [] <==> IsBlank(s)
  {
    TrimFacts(s);
    var i, j :| 0 <= i <= j <= |s| && Trim(s) == s[i..j] && IsBlank(s[..i]) && IsBlank(s[j..]);
    if Trim(s) == [] {
      assert i == j;
      forall k | 0 <= k < |s| ensures IsSpace(s[k]) {
        if k < i { assert s[k] == s[..i][k]; } else { assert s[k] == s[j..][k - j]; }
      }
    } else {
      assert s[i] == Trim(s)[0];
      assert !IsSpace(s[i]);
    }
  }

  // ---------------------------------------------------------------------
  // Substring search

  /** `s.includes(q)`: `q` occurs in `s` as a contiguous block. */
  function Contains(s: string, q: string): bool
  {
    q <= s || (s != [] && Contains(s[1..], q))
  }

  /** `q` occurs in `s` starting at index `i`. */
  predicate OccursAt(s: string, q: string, i: int)
  {
    0 <= i && i + |q| <= |s| && s[i..i + |q|] == q
  }

  /** `Contains` finds exactly the positions where `q` starts. */
  lemma {:induction false} ContainsIffOccurs(s: string, q: string)
    ensures Contains(s, q) <==> exists i :: OccursAt(s, q, i)
    decreases |s|
  {
    if q <= s {
      assert OccursAt(s, q, 0);
    } else if s != [] {
      ContainsIffOccurs(s[1..], q);
      if Contains(s[1..], q) {
        var i :| OccursAt(s[1..], q, i);
        OccursShift(s, q, i + 1);
      }
      assert OccursAt(s, q, 0) ==> q <= s;
      forall i | OccursAt(s, q, i) && i != 0 ensures Contains(s[1..], q) {
        OccursShift(s, q, i);
      }
    } else {
      assert forall i :: !OccursAt(s, q, i);
    }
  }

  /** An occurrence past the start is one in the tail, one position earlier. */
  lemma OccursShift(s: string, q: string, i: int)
    requires s != [] && i > 0
    ensures OccursAt(s, q, i) <==> OccursAt(s[1..], q, i - 1)
  {
    if 0 <= i - 1 && i - 1 + |q| <= |s[1..]| {
      assert s[1..][i - 1..i - 1 + |q|] == s[i..i + |q|];
    }
  }


  /** Every string includes the empty string. */
  lemma ContainsEmpty(s: string)
    ensures Contains(s, "")
  {
  }

  // ---------------------------------------------------------------------
  // Splitting on a separator character

  /** The index of the first `c` in `s`, or `|s|` when there is none. */
  function IndexOf(s: string, c: char): (i: nat)
    ensures i <= |s|
    ensures i < |s| ==> s[i] == c
    ensures forall j :: 0 <= j < i ==> s[j] != c
  {
    if s == [] then 0
    else if s[0] == c then 0
    else 1 + IndexOf(s[1..], c)
  }

  /** `s.split(c)`: the pieces between occurrences of `c`, empty pieces
      included, so `"".split(c) == [""]`. */
  function Split(s: string, c: char): seq<string>
    decreases |s|
  {
    var i := IndexOf(s, c);
    if i == |s| then [s] else [s[..i]] + Split(s[i + 1..], c)
  }

  /** `pieces.join(c)`. */
  function Join(pieces: seq<string>, c: char): string
  {
    if pieces == [] then ""
    else if |pieces| == 1 then pieces[0]
    else pieces[0] + [c] + Join(pieces[1..], c)
  }

  /** Splitting never returns an empty list and no piece holds the
      separator. */
  lemma {:induction false} SplitPieces(s: string, c: char)
    ensures |Split(s, c)| >= 1
    ensures forall k :: 0 <= k < |Split(s, c)| ==> c !in Split(s, c)[k]
    decreases |s|
  {
    var i := IndexOf(s, c);
    if i < |s| {
      var rest := s[i + 1..];
      SplitPieces(rest, c);
      var p := Split(s, c);
      assert p == [s[..i]] + Split(rest, c);
      assert c !in s[..i];
      forall k | 1 <= k < |p| ensures c !in p[k] {
        assert p[k] == Split(rest, c)[k - 1];
      }
    }
  }

  /** Joining the pieces with the separator gives back `s`. */
  lemma {:induction false} SplitJoin(s: string, c: char)
    ensures Join(Split(s, c), c) == s
    decreases |s|
  {
    var i := IndexOf(s, c);
    if i < |s| {
      var rest := s[i + 1..];
      SplitJoin(rest, c);
      SplitPieces(rest, c);
      var q := Split(rest, c);
      Around(s, i);
      calc {
        Join(Split(s, c), c);
        Join([s[..i]] + q, c);
        { JoinCons(s[..i], q, c); }
        s[..i] + [c] + Join(q, c);
        s[..i] + [c] + rest;
      }
    }
  }

  /** A string is the part before position `i`, the character there and the
      part after. */
  lemma Around(s: string, i: nat)
    requires i < |s|
    ensures s == s[..i] + [s[i]] + s[i + 1..]
  {
    assert s[..i] + [s[i]] == s[..i + 1];
    assert s[..i + 1] + s[i + 1..] == s;
  }

  lemma JoinCons(x: string, q: seq<string>, c: char)
    requires |q| >= 1
    ensures Join([x] + q, c) == x + [c] + Join(q, c)
  {
    assert ([x] + q)[1..] == q;
  }

  // ---------------------------------------------------------------------
  // Replacing the first occurrence of a character

  /** `s.replace(from, to)` for one-character strings: only the first
      occurrence of `from` is replaced. */
  function ReplaceFirst(s: string, from: char, to: char): string
  {
    if s == [] then []
    else if s[0] == from then [to] + s[1..]
    else [s[0]] + ReplaceFirst(s[1..], from, to)
  }

  /** Exactly the character at `IndexOf(s, from)` changes, and only when
      there is one. */
  lemma {:induction false} ReplaceFirstFacts(s: string, from: char, to: char)
    ensures |ReplaceFirst(s, from, to)| == |s|
    ensures forall j :: 0 <= j < |s| && j != IndexOf(s, from) ==> ReplaceFirst(s, from, to)[j] == s[j]
    ensures IndexOf(s, from) < |s| ==> ReplaceFirst(s, from, to)[IndexOf(s, from)] == to
    decreases |s|
  {
    if s != [] && s[0] != from {
      ReplaceFirstFacts(s[1..], from, to);
    }
  }
}
