/** The relapse selection slice (`selection.ts`): a list of selected ids, edited in place. */
module Selection {
  import opened Seqs

  /** `selected.filter(i => i !== id)`: every occurrence of `id` removed, the rest in order. */
  function Without(selected: seq<string>, id: string): (r: seq<string>)
    ensures id !in r
    ensures forall x :: x != id ==> (x in r <==> x in selected)
    ensures IsSubsequence(r, selected)
    ensures forall x :: multiset(r)[x] == if x == id then 0 else multiset(selected)[x]
  {
    var keep := (i: string) => i != id;
    FilterIsSubsequence(selected, keep);
    FilterCount(selected, keep);
    Filter(selected, keep)
  }

  /** Removing an id that is not selected changes nothing. */
  lemma WithoutAbsent(selected: seq<string>, id: string)
    requires id !in selected
    ensures Without(selected, id) == selected
  {
    FilterKeepsAll(selected, (i: string) => i != id);
  }

  /** Selecting an id that was not selected and then deselecting it restores the list. */
  lemma AddThenRemoveRestores(selected: seq<string>, id: string)
    requires id !in selected
    ensures Without(selected + [id], id) == selected
  {
    AppendThenFilterOut(selected, id, (i: string) => i != id);
  }

  /** Removal is idempotent. */
  lemma WithoutIdempotent(selected: seq<string>, id: string)
    ensures Without(Without(selected, id), id) == Without(selected, id)
  {
    WithoutAbsent(Without(selected, id), id);
  }

  /** The slice's state and actions. */
  class SelectionSlice {
    var selected: seq<string>

    /** The slice starts with nothing selected. */
    constructor ()
      ensures selected == []
    {
      selected := [];
    }

    /** Replaces the whole list. */
    method SetSelected(ids: seq<string>)
      modifies this
      ensures selected == ids
    {
      selected := ids;
    }

    /** Appends `id`, without checking whether it is already selected. */
    method AddSelected(id: string)
      modifies this
      ensures selected == old(selected) + [id]
      ensures |selected| == |old(selected)| + 1
    {
      selected := selected + [id];
    }

    /** Removes every occurrence of `id`; every other id keeps all its copies and their order. */
    method RemoveSelected(id: string)
      modifies this
      ensures selected == Without(old(selected), id)
      ensures id !in selected && IsSubsequence(selected, old(selected))
      ensures forall x :: x != id ==> multiset(selected)[x] == multiset(old(selected))[x]
      ensures id !in old(selected) ==> selected == old(selected)
    {
      if id !in selected {
        WithoutAbsent(selected, id);
      }
      selected := Without(selected, id);
    }

    /** Empties the list. */
    method ClearSelected()
      modifies this
      ensures selected == []
    {
      selected := [];
    }
  }
}
