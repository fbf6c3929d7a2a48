/** The two string helpers of src/utils/misc.ts the task cards use:
    `truncate` for long descriptions and `getInitials` for avatars. */
module Misc {
  import opened Seqs
  import opened Text

  /** `s.slice(0, end)` for an integer `end`: a negative end counts from the
      back, an end past the string stops at its length. */
  function SliceTo(s: string, end: int): (r: string)
    ensures 0 <= end <= |s| ==> r == s[..end]
    ensures end > |s| ==> r == s
    ensures end < 0 ==> r == s[..if |s| + end < 0 then 0 else |s| + end]
  {
    var e := if end < 0 then (if |s| + end < 0 then 0 else |s| + end) else if end > |s| then |s| else end;
    s[..e]
  }

  /** `truncate`: a text no longer than `maxLength` is kept; a longer one is
      cut to `maxLength` characters, trimmed and given an ellipsis. */
  function Truncate(text: string, maxLength: int): string
  {
    if |text| <= maxLength then text else Trim(SliceTo(text, maxLength)) + "..."
  }

  /** A text that fits is returned unchanged; one that does not is replaced
      by a trimmed piece of its first `maxLength` characters followed by
      "...": a piece found in the text with only white space cut off around
      it, and which itself neither starts nor ends with white space. */
  lemma TruncateSpec(text: string, maxLength: int)
    ensures |text| <= maxLength ==> Truncate(text, maxLength) == text
    ensures 0 <= maxLength < |text| ==>
      var r := Truncate(text, maxLength);
      |r| >= 3 && r[|r| - 3..] == "..."
      && exists i, j ::
           0 <= i <= j <= maxLength && r[..|r| - 3] == text[i..j] && IsBlank(text[..i]) && IsBlank(text[j..maxLength])
    ensures 0 <= maxLength < |text| ==>
      var r := Truncate(text, maxLength);
      |r| == 3 || (!IsSpace(r[0]) && !IsSpace(r[|r| - 4]))
  {
    if 0 <= maxLength < |text| {
      var cut := text[..maxLength];
      WithEllipsis(Trim(cut));
      TrimFacts(cut);
      var i, j :| 0 <= i <= j <= |cut| && Trim(cut) == cut[i..j] && IsBlank(cut[..i]) && IsBlank(cut[j..]);
      assert cut[i..j] == text[i..j] && cut[..i] == text[..i] && cut[j..] == text[j..maxLength];
    }
  }

  lemma WithEllipsis(s: string)
    ensures var r := s + "..."; |r| == |s| + 3 && r[..|s|] == s && r[|s|..] == "..."
  {
  }

  /** For a non-negative limit the result is at most three characters, the
      ellipsis, longer than the limit. */
  lemma TruncateLength(text: string, maxLength: int)
    requires maxLength >= 0
    ensures |Truncate(text, maxLength)| <= maxLength + 3
  {
    if |text| > maxLength {
      TrimFacts(text[..maxLength]);
    }
  }

  /** A negative limit counts from the back of the text, as `slice` does:
      everything but the last `-maxLength` characters is kept, trimmed, and
      given the ellipsis. */
  lemma TruncateNegative(text: string, maxLength: int)
    requires maxLength < 0
    ensures Truncate(text, maxLength)
      == Trim(text[..if |text| + maxLength < 0 then 0 else |text| + maxLength]) + "..."
  {
  }

  /** `n[0]` for each piece, joined with no separator: an empty piece gives
      `undefined`, which `join` writes as nothing. */
  function FirstChars(pieces: seq<string>): string
  {
    if pieces == [] then ""
    else (if pieces[0] == [] then "" else [pieces[0][0]]) + FirstChars(pieces[1..])
  }

  /** `s.slice(0, 2)`. */
  function TakeTwo(s: string): string
  {
    if |s| <= 2 then s else s[..2]
  }

  /** `getInitials`. */
  function GetInitials(name: string): string
  {
    TakeTwo(ToUpper(FirstChars(Split(name, ' '))))
  }

  predicate NonEmpty(w: string)
  {
    w != []
  }

  /** The words of a name: the pieces between spaces that are not empty. */
  function Words(name: string): seq<string>
  {
    Filter(NonEmpty, Split(name, ' '))
  }

  /** The first characters are those of the non-empty pieces, in order. */
  lemma {:induction false} FirstCharsOfNonEmpty(pieces: seq<string>)
    ensures |FirstChars(pieces)| == |Filter(NonEmpty, pieces)|
    ensures forall k :: 0 <= k < |Filter(NonEmpty, pieces)| ==>
      Filter(NonEmpty, pieces)[k] != [] && FirstChars(pieces)[k] == Filter(NonEmpty, pieces)[k][0]
    decreases |pieces|
  {
    if pieces != [] {
      FirstCharsOfNonEmpty(pieces[1..]);
      assert pieces == [pieces[0]] + pieces[1..];
      FilterCons(NonEmpty, pieces[0], pieces[1..]);
    }
  }

  /** The initials are the upper-cased first letters of the first two words
      of the name; a name with fewer words has fewer initials, and a name
      of spaces only has none. */
  lemma GetInitialsSpec(name: string)
    ensures var r := GetInitials(name); var words := Words(name);
      |r| == (if |words| < 2 then |words| else 2)
      && forall k :: 0 <= k < |r| ==> |words[k]| > 0 && r[k] == UpperChar(words[k][0])
    ensures (forall k :: 0 <= k < |name| ==> name[k] == ' ') ==> GetInitials(name) == ""
  {
    FirstCharsOfNonEmpty(Split(name, ' '));
    if forall k :: 0 <= k < |name| ==> name[k] == ' ' {
      NoWordsInSpaces(name);
    }
  }

  /** A string of spaces splits into empty pieces only. */
  lemma {:induction false} NoWordsInSpaces(name: string)
    requires forall k :: 0 <= k < |name| ==> name[k] == ' '
    ensures Words(name) == []
    decreases |name|
  {
    var i := IndexOf(name, ' ');
    if i < |name| {
      assert i == 0 by {
        if i > 0 {
          assert name[0] == ' ';
        }
      }
      NoWordsInSpaces(name[1..]);
      assert Split(name, ' ') == [""] + Split(name[1..], ' ');
      FilterCons(NonEmpty, "", Split(name[1..], ' '));
    } else {
      assert name == [];
    }
  }
}
