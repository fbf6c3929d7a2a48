/** The custom tag store (src/store/useTagsStore.ts). Tag names are stored
    lower-cased and looked up case-insensitively. What local storage holds
    is a parameter (already parsed); writing it back is not modelled. */
module TagsStore {
  import opened Types
  import opened Seqs
  import opened Text

  datatype CustomTag = CustomTag(id: string, name: string, color: string, createdAt: string)

  /** DEFAULT_TAGS, built once with fresh ids and the time of loading. */
  function DefaultTags(ids: seq<string>, now: string): seq<CustomTag>
    requires |ids| == 11
  {
    [CustomTag(ids[0], "frontend", "#3b82f6", now),
     CustomTag(ids[1], "backend", "#8b5cf6", now),
     CustomTag(ids[2], "bug", "#ef4444", now),
     CustomTag(ids[3], "feature", "#10b981", now),
     CustomTag(ids[4], "design", "#ec4899", now),
     CustomTag(ids[5], "testing", "#f59e0b", now),
     CustomTag(ids[6], "devops", "#06b6d4", now),
     CustomTag(ids[7], "database", "#6366f1", now),
     CustomTag(ids[8], "api", "#14b8a6", now),
     CustomTag(ids[9], "ui/ux", "#f97316", now),
     CustomTag(ids[10], "document", "#64748b", now)]
  }

  /** `loadFromStorage`: the stored list when there is one, else the
      defaults. */
  function Loaded(stored: Option<seq<CustomTag>>, defaults: seq<CustomTag>): seq<CustomTag>
  {
    if stored.Some? then stored.value else defaults
  }

  /** The `tags.map` of `updateTag`. */
  function UpdatedTags(tags: seq<CustomTag>, id: string, name: string, color: string): seq<CustomTag>
  {
    seq(|tags|, i requires 0 <= i < |tags| =>
      if tags[i].id == id then tags[i].(name := ToLower(name), color := color) else tags[i])
  }

  function TagWithout(id: string): CustomTag -> bool
  {
    (t: CustomTag) => t.id != id
  }

  function TagWithId(id: string): CustomTag -> bool
  {
    (t: CustomTag) => t.id == id
  }

  /** The `tags.filter` of `deleteTag`. */
  function RemovedTags(tags: seq<CustomTag>, id: string): seq<CustomTag>
  {
    Filter(TagWithout(id), tags)
  }

  /** The predicate of `getTagByName`: equal names up to case. */
  function NameMatches(name: string): CustomTag -> bool
  {
    (t: CustomTag) => ToLower(t.name) == ToLower(name)
  }

  /** `tags.find(...)` by name, up to case. */
  function TagByName(tags: seq<CustomTag>, name: string): Option<CustomTag>
  {
    var i := FirstWhere(NameMatches(name), tags);
    if i < 0 then None else Some(tags[i])
  }

  class TagStore {
    var tags: seq<CustomTag>
    const defaults: seq<CustomTag>

    /** The store as created: the stored tags, or DEFAULT_TAGS. */
    constructor(stored: Option<seq<CustomTag>>, defaultIds: seq<string>, now: string)
      requires |defaultIds| == 11
      ensures defaults == DefaultTags(defaultIds, now)
      ensures tags == Loaded(stored, defaults)
    {
      defaults := DefaultTags(defaultIds, now);
      tags := Loaded(stored, DefaultTags(defaultIds, now));
    }

    method LoadTags(stored: Option<seq<CustomTag>>)
      modifies this
      ensures tags == Loaded(stored, defaults)
    {
      tags := if stored.Some? then stored.value else defaults;
    }

    method AddTag(name: string, color: string, id: string, now: string)
      modifies this
      ensures tags == old(tags) + [CustomTag(id, ToLower(name), color, now)]
    {
      var newTag := CustomTag(id, ToLower(name), color, now);
      tags := tags + [newTag];
    }

    method UpdateTag(id: string, name: string, color: string)
      modifies this
      ensures tags == UpdatedTags(old(tags), id, name, color)
    {
      var current := tags;
      tags := seq(|current|, i requires 0 <= i < |current| =>
        if current[i].id == id then current[i].(name := ToLower(name), color := color) else current[i]);
    }

    method DeleteTag(id: string)
      modifies this
      ensures tags == RemovedTags(old(tags), id)
    {
      tags := Filter(TagWithout(id), tags);
    }

    /** `getTagByName`: the first tag whose name equals `name` up to case. */
    function GetTagByName(name: string): (r: Option<CustomTag>)
      reads this
      ensures r.None? <==> forall t :: t in tags ==> ToLower(t.name) != ToLower(name)
      ensures r.Some? ==> r.value in tags && ToLower(r.value.name) == ToLower(name)
    {
      TagByNameSpec(tags, name);
      TagByName(tags, name)
    }
  }

  // ---------------------------------------------------------------------
  // Properties

  /** DEFAULT_TAGS names exactly ALL_TAGS, in order, with the fresh ids. */
  lemma DefaultTagsSpec(ids: seq<string>, now: string)
    requires |ids| == 11
    ensures |DefaultTags(ids, now)| == |AllTags|
    ensures forall i :: 0 <= i < |AllTags| ==>
      DefaultTags(ids, now)[i].name == AllTags[i] && DefaultTags(ids, now)[i].id == ids[i]
      && DefaultTags(ids, now)[i].createdAt == now
  {
  }

  /** Each default tag has its TAG_COLORS color. */
  lemma DefaultTagColors(ids: seq<string>, now: string)
    requires |ids| == 11
    ensures forall t :: t in DefaultTags(ids, now) ==> TagColor(t.name) == Some(t.color)
  {
    var d := DefaultTags(ids, now);
    forall t | t in d ensures TagColor(t.name) == Some(t.color) {
      var i :| 0 <= i < |d| && d[i] == t;
      TagColorAt(ids, now, i);
    }
  }

  lemma TagColorAt(ids: seq<string>, now: string, i: nat)
    requires |ids| == 11 && i < 11
    ensures TagColor(DefaultTags(ids, now)[i].name) == Some(DefaultTags(ids, now)[i].color)
  {
    if i == 0 {} else if i == 1 {} else if i == 2 {} else if i == 3 {} else if i == 4 {}
    else if i == 5 {} else if i == 6 {} else if i == 7 {} else if i == 8 {} else if i == 9 {} else {}
  }

  /** The lookup finds the first tag with a matching name, and nothing
      exactly when no name matches. */
  lemma TagByNameSpec(tags: seq<CustomTag>, name: string)
    ensures TagByName(tags, name).None? <==> forall t :: t in tags ==> ToLower(t.name) != ToLower(name)
    ensures TagByName(tags, name).Some? ==>
      exists i :: 0 <= i < |tags| && tags[i] == TagByName(tags, name).value
        && ToLower(tags[i].name) == ToLower(name)
        && forall j :: 0 <= j < i ==> ToLower(tags[j].name) != ToLower(name)
  {
    var i := FirstWhere(NameMatches(name), tags);
    if i >= 0 {
      assert tags[i] in tags;
    } else {
      forall t | t in tags ensures ToLower(t.name) != ToLower(name) {
        var k :| 0 <= k < |tags| && tags[k] == t;
        assert !NameMatches(name)(tags[k]);
      }
    }
  }

  /** A tag just added is found again by its name, in any case: the lookup
      returns it, or an older tag of the same name. Its stored name is
      lower case. */
  lemma AddThenLookUp(tags: seq<CustomTag>, name: string, color: string, id: string, now: string, query: string)
    requires ToLower(query) == ToLower(name)
    ensures var added := tags + [CustomTag(id, ToLower(name), color, now)];
      IsLower(added[|tags|].name)
      && TagByName(added, query).Some?
      && ToLower(TagByName(added, query).value.name) == ToLower(name)
      && (TagByName(tags, query).None? ==> TagByName(added, query) == Some(added[|tags|]))
  {
    var added := tags + [CustomTag(id, ToLower(name), color, now)];
    ToLowerFacts(name);
    assert NameMatches(query)(added[|tags|]);
    TagByNameSpec(tags, query);
    if TagByName(tags, query).None? {
      forall j | 0 <= j < |tags| ensures !NameMatches(query)(added[j]) {
        assert added[j] == tags[j];
        assert tags[j] in tags;
      }
    }
  }

  /** `updateTag` gives the tags with the id the lower-cased name and the
      color, keeping their id and creation time; other tags and the length
      stay as they were, and an unknown id changes nothing. */
  lemma UpdatedTagsSpec(tags: seq<CustomTag>, id: string, name: string, color: string)
    ensures |UpdatedTags(tags, id, name, color)| == |tags|
    ensures forall i :: 0 <= i < |tags| ==>
      var r := UpdatedTags(tags, id, name, color)[i];
      if tags[i].id == id then
        r.name == ToLower(name) && IsLower(r.name) && r.color == color
        && r.id == tags[i].id && r.createdAt == tags[i].createdAt
      else r == tags[i]
    ensures (forall t :: t in tags ==> t.id != id) ==> UpdatedTags(tags, id, name, color) == tags
  {
    ToLowerFacts(name);
    if forall t :: t in tags ==> t.id != id {
      forall i | 0 <= i < |tags| ensures UpdatedTags(tags, id, name, color)[i] == tags[i] {
        assert tags[i] in tags;
      }
    }
  }

  /** `deleteTag` removes exactly the tags with the id and keeps the others
      in order. */
  lemma RemovedTagsSpec(tags: seq<CustomTag>, id: string)
    ensures SubsequenceOf(RemovedTags(tags, id), tags)
    ensures forall t :: t in RemovedTags(tags, id) <==> t in tags && t.id != id
    ensures |RemovedTags(tags, id)| == |tags| - CountWhere(TagWithId(id), tags)
  {
    FilterIsSubsequence(TagWithout(id), tags);
    FilterComplement(TagWithId(id), TagWithout(id), tags);
  }
}
