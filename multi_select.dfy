/**
  * `apps/admin-app/src/components/ui/multi-select.tsx`: the tag picker of the
  * knowledge resources. Choosing a tag in the menu toggles it in the
  * selection; clicking a badge removes that tag. Tags are identified by
  * `tagId`; the new selection is handed to `onChange` and nothing is changed
  * in place.
  */
module MultiSelect {

  /** The `TTag` record of `knowledge.types.ts`, without its unused `createdAt`. */
  datatype Tag = Tag(tagId: string, name: string)

  /** The menu entries, `DEFAULT_TAGS`. */
  const DefaultTags: seq<Tag> := [
    Tag("1", "Investing"), Tag("2", "Savings"), Tag("3", "Credit"), Tag("4", "Taxes"),
    Tag("5", "Insurance"), Tag("6", "Retirement"), Tag("7", "Real Estate")]

  /** `selected.some((s) => s.tagId === id)`; this is also when the check mark is shown. */
  predicate Has(selected: seq<Tag>, id: string) {
    exists i :: 0 <= i < |selected| && selected[i].tagId == id
  }

  /** `selected.filter((s) => s.tagId !== id)`. */
  function Without(selected: seq<Tag>, id: string): (r: seq<Tag>)
    ensures |r| <= |selected|
  {
    if selected == [] then []
    else if selected[0].tagId == id then Without(selected[1..], id)
    else [selected[0]] + Without(selected[1..], id)
  }

  /** `onSelect`: remove every entry with the tag's id, or append the tag. */
  function Toggle(selected: seq<Tag>, tag: Tag): seq<Tag> {
    if Has(selected, tag.tagId) then Without(selected, tag.tagId) else selected + [tag]
  }

  /** A badge's `onClick`. */
  function RemoveBadge(selected: seq<Tag>, tag: Tag): seq<Tag> {
    Without(selected, tag.tagId)
  }

  /** No two entries share an id. */
  predicate DistinctIds(selected: seq<Tag>) {
    forall i, j :: 0 <= i < j < |selected| ==> selected[i].tagId != selected[j].tagId
  }

  /** The filter drops exactly the entries with the id: the others stay, and nothing new appears. */
  lemma {:induction false} WithoutMembers(selected: seq<Tag>, id: string)
    ensures forall t :: t in Without(selected, id) <==> t in selected && t.tagId != id
  {
    if selected != [] {
      WithoutMembers(selected[1..], id);
      assert selected == [selected[0]] + selected[1..];
    }
  }

  /** After the filter the id is absent, and another id is present exactly when it was before. */
  lemma WithoutHas(selected: seq<Tag>, id: string, other: string)
    ensures !Has(Without(selected, id), id)
    ensures other != id ==> (Has(Without(selected, id), other) <==> Has(selected, other))
  {
    WithoutMembers(selected, id);
    var r := Without(selected, id);
    forall i | 0 <= i < |r| ensures r[i].tagId != id {
      assert r[i] in r;
    }
    if other != id && Has(selected, other) {
      var i :| 0 <= i < |selected| && selected[i].tagId == other;
      assert selected[i] in selected;
      assert selected[i] in r;
      var k :| 0 <= k < |r| && r[k] == selected[i];
    }
    if other != id && Has(r, other) {
      var i :| 0 <= i < |r| && r[i].tagId == other;
      assert r[i] in r;
      var k :| 0 <= k < |selected| && selected[k] == r[i];
    }
  }

  /** Filtering out an id that is absent changes nothing. */
  lemma {:induction false} WithoutAbsent(selected: seq<Tag>, id: string)
    requires !Has(selected, id)
    ensures Without(selected, id) == selected
  {
    if selected != [] {
      assert selected[0].tagId != id;
      WithoutAbsent(selected[1..], id);
    }
  }

  /** The filter distributes over concatenation. */
  lemma {:induction false} WithoutAppend(a: seq<Tag>, b: seq<Tag>, id: string)
    ensures Without(a + b, id) == Without(a, id) + Without(b, id)
  {
    if a != [] {
      assert (a + b)[1..] == a[1..] + b;
      WithoutAppend(a[1..], b, id);
    } else {
      assert a + b == b;
    }
  }

  /** An absent tag is appended at the end. */
  lemma ToggleAbsentAppends(selected: seq<Tag>, tag: Tag)
    requires !Has(selected, tag.tagId)
    ensures Toggle(selected, tag) == selected + [tag]
  {
  }

  /** A present tag is removed, every copy of it. */
  lemma TogglePresentRemovesAll(selected: seq<Tag>, tag: Tag)
    requires Has(selected, tag.tagId)
    ensures Toggle(selected, tag) == Without(selected, tag.tagId)
    ensures forall t :: t in Toggle(selected, tag) ==> t.tagId != tag.tagId
  {
    WithoutMembers(selected, tag.tagId);
  }

  /**
    * A toggle flips whether the id is selected, so it flips the check mark,
    * and leaves every other entry, in order, as it was.
    */
  lemma ToggleFlipsOnlyThatTag(selected: seq<Tag>, tag: Tag)
    ensures Has(Toggle(selected, tag), tag.tagId) <==> !Has(selected, tag.tagId)
    ensures Without(Toggle(selected, tag), tag.tagId) == Without(selected, tag.tagId)
  {
    var id := tag.tagId;
    if Has(selected, id) {
      WithoutHas(selected, id, id);
      WithoutMembers(selected, id);
      WithoutAbsent(Without(selected, id), id);
    } else {
      var r := selected + [tag];
      assert r[|selected|].tagId == id;
      WithoutAppend(selected, [tag], id);
      assert Without([tag], id) == [];
    }
  }

  /** Toggling an absent tag twice gives back the original selection. */
  lemma ToggleTwiceRestores(selected: seq<Tag>, tag: Tag)
    requires !Has(selected, tag.tagId)
    ensures Toggle(Toggle(selected, tag), tag) == selected
  {
    var r := selected + [tag];
    assert r[|selected|].tagId == tag.tagId;
    WithoutAppend(selected, [tag], tag.tagId);
    WithoutAbsent(selected, tag.tagId);
    assert Without([tag], tag.tagId) == [];
  }

  /** The filter keeps a selection free of duplicate ids. */
  lemma {:induction false} WithoutKeepsDistinct(selected: seq<Tag>, id: string)
    requires DistinctIds(selected)
    ensures DistinctIds(Without(selected, id))
  {
    if selected != [] {
      WithoutKeepsDistinct(selected[1..], id);
      WithoutMembers(selected[1..], id);
      var rest := Without(selected[1..], id);
      if selected[0].tagId != id {
        forall j | 0 <= j < |rest| ensures rest[j].tagId != selected[0].tagId {
          assert rest[j] in rest;
          var k :| 0 <= k < |selected[1..]| && selected[1..][k] == rest[j];
          assert selected[k + 1] == rest[j];
        }
      }
    }
  }

  /** Toggles and badge removals keep a selection free of duplicate ids. */
  lemma EditsKeepDistinct(selected: seq<Tag>, tag: Tag)
    requires DistinctIds(selected)
    ensures DistinctIds(Toggle(selected, tag))
    ensures DistinctIds(RemoveBadge(selected, tag))
  {
    WithoutKeepsDistinct(selected, tag.tagId);
    if !Has(selected, tag.tagId) {
      var r := selected + [tag];
      forall i, j | 0 <= i < j < |r| ensures r[i].tagId != r[j].tagId {
        if j == |selected| {
          assert r[i] == selected[i];
        }
      }
    }
  }

  /** A badge click removes that id and only that id. */
  lemma BadgeRemovesOnlyItsTag(selected: seq<Tag>, tag: Tag, other: string)
    ensures !Has(RemoveBadge(selected, tag), tag.tagId)
    ensures other != tag.tagId ==> (Has(RemoveBadge(selected, tag), other) <==> Has(selected, other))
    ensures forall t :: t in RemoveBadge(selected, tag) <==> t in selected && t.tagId != tag.tagId
  {
    WithoutHas(selected, tag.tagId, other);
    WithoutMembers(selected, tag.tagId);
  }

  /** The menu's tags have distinct ids. */
  lemma DefaultTagsDistinct()
    ensures DistinctIds(DefaultTags)
  {
  }
}
