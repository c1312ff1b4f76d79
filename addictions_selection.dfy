/**
 * The tracked-item selection slice (`addictionsSelection.ts`). It has the same four actions as the relapse
 * selection slice and shares its removal function and lemmas.
 */
module AddictionsSelection {
  import opened Seqs
  import opened Selection

  /** The slice's state and actions. */
  class AddictionsSelectionSlice {
    var selected: seq<string>

    /** The slice starts with nothing selected. */
    constructor ()
      ensures selected == []
    {
      selected := [];
    }

    /** Replaces the whole list. */
    method SetSelected(ids: seq<string>)
      modifies this
      ensures selected == ids
    {
      selected := ids;
    }

    /** Appends `id`, without checking whether it is already selected. */
    method AddSelected(id: string)
      modifies this
      ensures selected == old(selected) + [id]
      ensures |selected| == |old(selected)| + 1
    {
      selected := selected + [id];
    }

    /** Removes every occurrence of `id`; every other id keeps all its copies and their order. */
    method RemoveSelected(id: string)
      modifies this
      ensures selected == Without(old(selected), id)
      ensures id !in selected && IsSubsequence(selected, old(selected))
      ensures forall x :: x != id ==> multiset(selected)[x] == multiset(old(selected))[x]
      ensures id !in old(selected) ==> selected == old(selected)
    {
      if id !in selected {
        WithoutAbsent(selected, id);
      }
      selected := Without(selected, id);
    }

    /** Empties the list. */
    method ClearSelected()
      modifies this
      ensures selected == []
    {
      selected := [];
    }
  }
}
