/** The list of selected product ids and the two ways the wizard updates it: the toggle
    of a product card in the selection grid and the delete button of the review table. */
module Selection {
  import opened Seqs

  /** `prev.filter(id => id !== productId)`: drops every copy of `id`. */
  function Remove(selected: seq<int>, id: int): (r: seq<int>)
    ensures id !in r
    ensures forall x :: x in r <==> x in selected && x != id
    ensures forall x :: x != id ==> multiset(r)[x] == multiset(selected)[x]
    ensures IsSubsequence(r, selected)
  {
    FilterIsSubsequence(selected, x => x != id);
    FilterMultiplicity(selected, x => x != id);
    Filter(selected, x => x != id)
  }

  /** `prev.includes(id) ? <drop every copy> : [...prev, id]`. */
  function Toggle(selected: seq<int>, id: int): (r: seq<int>)
    ensures id !in selected ==> r == selected + [id]
    ensures id in selected ==> id !in r && IsSubsequence(r, selected)
    ensures id in selected ==> forall x :: x != id ==> multiset(r)[x] == multiset(selected)[x]
    ensures id in r <==> id !in selected
  {
    if id in selected then Remove(selected, id) else selected + [id]
  }

  /** Removing an id that is not selected changes nothing. */
  lemma RemoveAbsent(selected: seq<int>, id: int)
    requires id !in selected
    ensures Remove(selected, id) == selected
  {
    FilterKeepsAll(selected, x => x != id);
  }

  /** Removing the same id twice is removing it once. */
  lemma RemoveIdempotent(selected: seq<int>, id: int)
    ensures Remove(Remove(selected, id), id) == Remove(selected, id)
  {
    RemoveAbsent(Remove(selected, id), id);
  }

  /** Removal keeps a duplicate-free list duplicate-free. */
  lemma RemoveKeepsNoDup(selected: seq<int>, id: int)
    requires NoDup(selected)
    ensures NoDup(Remove(selected, id))
  {
    SubsequenceNoDup(Remove(selected, id), selected);
  }

  /** Toggling keeps a duplicate-free list duplicate-free. */
  lemma ToggleKeepsNoDup(selected: seq<int>, id: int)
    requires NoDup(selected)
    ensures NoDup(Toggle(selected, id))
  {
    if id in selected {
      RemoveKeepsNoDup(selected, id);
    }
  }

  /** Toggling an unselected id twice restores the list exactly. */
  lemma ToggleTwiceRestores(selected: seq<int>, id: int)
    requires id !in selected
    ensures Toggle(Toggle(selected, id), id) == selected
  {
    FilterConcat(selected, [id], x => x != id);
    RemoveAbsent(selected, id);
    assert Filter([id], x => x != id) == [];
  }

  /** Toggling twice always restores the set of selected ids. */
  lemma ToggleTwiceRestoresSet(selected: seq<int>, id: int)
    ensures ToSet(Toggle(Toggle(selected, id), id)) == ToSet(selected)
  {
    if id !in selected {
      ToggleTwiceRestores(selected, id);
    }
  }

  /** The ids selected stay within a given set of known ids. */
  lemma ToggleStaysWithin(selected: seq<int>, id: int, known: set<int>)
    requires forall x :: x in selected ==> x in known
    requires id in known
    ensures forall x :: x in Toggle(selected, id) ==> x in known
  {
  }

  /** Selecting 1, then 2, then deleting 1 leaves exactly 2 selected. */
  lemma ToggleToggleRemoveScenario()
    ensures Remove(Toggle(Toggle([], 1), 2), 1) == [2]
  {
    assert Toggle([], 1) == [1];
    assert Toggle([1], 2) == [1, 2];
    assert [1, 2] == [1] + [2];
    FilterConcat([1], [2], x => x != 1);
    assert Filter([1], x => x != 1) == [];
    assert Filter([2], x => x != 1) == [2];
  }
}
