/** The technician multi-select of `src/components/Selection/multiselect.tsx`:
    the list of selected ids and its toggle/remove transitions, the search
    filter, the derivation of the selected technicians and the initial
    all-selected state. */
module TechSelection {

  import opened Types
  import opened Seqs
  import opened Text

  /** The initial selection: every technician's id, in catalog order. */
  function InitialSelection(techs: seq<Technician>): (ids: seq<string>)
    ensures |ids| == |techs|
    ensures forall i :: 0 <= i < |techs| ==> ids[i] == techs[i].id
  {
    seq(|techs|, i requires 0 <= i < |techs| => techs[i].id)
  }

  /** `removeSelected`: drops every occurrence of `id`. */
  function RemoveSelected(ids: seq<string>, id: string): (r: seq<string>)
    ensures id !in r
    ensures forall x :: x != id ==> (x in r <==> x in ids)
  {
    Filter(ids, (x: string) => x != id)
  }

  /** `toggleSelection`: a selected id is removed (every occurrence), an
      unselected one is appended at the end. */
  function Toggle(ids: seq<string>, id: string): (r: seq<string>)
    ensures id in r <==> id !in ids
    ensures forall x :: x != id ==> (x in r <==> x in ids)
  {
    if id in ids then RemoveSelected(ids, id) else ids + [id]
  }

  /** The search task: technicians whose lower-cased name contains the
      lower-cased term, in catalog order. */
  function Search(techs: seq<Technician>, term: string): (r: seq<Technician>)
    ensures forall i :: 0 <= i < |r| ==> r[i] in techs && Contains(Lower(r[i].name), Lower(term))
    ensures forall i :: 0 <= i < |techs| && Contains(Lower(techs[i].name), Lower(term)) ==> techs[i] in r
  {
    var needle := Lower(term);
    Filter(techs, (t: Technician) => Contains(Lower(t.name), needle))
  }

  /** The selected-technicians task: the catalog restricted to the selected
      ids, in catalog order rather than selection order. */
  function SelectedTechnicians(techs: seq<Technician>, ids: seq<string>): (r: seq<Technician>)
    ensures forall i :: 0 <= i < |r| ==> r[i] in techs && r[i].id in ids
    ensures forall i :: 0 <= i < |techs| && techs[i].id in ids ==> techs[i] in r
  {
    Filter(techs, (t: Technician) => t.id in ids)
  }

  /** Removing keeps the other ids in their order. */
  lemma RemoveSelectedIsSubsequence(ids: seq<string>, id: string)
    ensures IsSubsequence(RemoveSelected(ids, id), ids)
    ensures |RemoveSelected(ids, id)| == |ids| - Occurrences(ids, id)
  {
    var p := (x: string) => x != id;
    FilterIsSubsequence(ids, p);
    FilterLengthOccurrences(ids, id);
  }

  lemma {:induction false} FilterLengthOccurrences(ids: seq<string>, id: string)
    ensures |Filter(ids, (x: string) => x != id)| == |ids| - Occurrences(ids, id)
  {
    if ids != [] {
      FilterLengthOccurrences(ids[1..], id);
    }
  }

  lemma RemoveSelectedIdempotent(ids: seq<string>, id: string)
    ensures RemoveSelected(RemoveSelected(ids, id), id) == RemoveSelected(ids, id)
  {
    FilterIdempotent(ids, (x: string) => x != id);
  }

  /** Removing an id that is not selected changes nothing. */
  lemma RemoveAbsent(ids: seq<string>, id: string)
    requires id !in ids
    ensures RemoveSelected(ids, id) == ids
  {
    FilterKeepsAll(ids, (x: string) => x != id);
  }

  /** Toggling an unselected id twice restores the selection. */
  lemma ToggleTwiceAbsent(ids: seq<string>, id: string)
    requires id !in ids
    ensures Toggle(Toggle(ids, id), id) == ids
  {
    var p := (x: string) => x != id;
    FilterAppend(ids, [id], p);
    RemoveAbsent(ids, id);
  }

  /** Toggling a selected id twice moves it to the end (and collapses its
      duplicates). */
  lemma ToggleTwicePresent(ids: seq<string>, id: string)
    requires id in ids
    ensures Toggle(Toggle(ids, id), id) == RemoveSelected(ids, id) + [id]
  {
  }

  /** Toggle keeps a duplicate-free selection duplicate-free. */
  lemma ToggleKeepsNoDuplicates(ids: seq<string>, id: string)
    requires NoDuplicates(ids)
    ensures NoDuplicates(Toggle(ids, id))
  {
    if id in ids {
      FilterIsSubsequence(ids, (x: string) => x != id);
      SubsequenceNoDuplicates(RemoveSelected(ids, id), ids);
    }
  }

  /** An empty search term keeps every technician. */
  lemma SearchEmptyKeepsAll(techs: seq<Technician>)
    ensures Search(techs, "") == techs
  {
    var needle := Lower("");
    forall i | 0 <= i < |techs|
      ensures Contains(Lower(techs[i].name), needle)
    {
      EmptyContained(Lower(techs[i].name));
    }
    FilterKeepsAll(techs, (t: Technician) => Contains(Lower(t.name), needle));
  }

  /** The search ignores the case of the term. */
  lemma SearchCaseInsensitive(techs: seq<Technician>, term: string)
    ensures Search(techs, Lower(term)) == Search(techs, term)
  {
    LowerIdempotent(term);
  }

  /** Typing more characters can only narrow the result. */
  lemma SearchNarrows(techs: seq<Technician>, term: string, more: string)
    ensures forall i :: 0 <= i < |Search(techs, term + more)| ==> Search(techs, term + more)[i] in Search(techs, term)
  {
    var r := Search(techs, term + more);
    forall i | 0 <= i < |r|
      ensures r[i] in Search(techs, term)
    {
      LowerAppend(term, more);
      ContainsPrefixOfNeedle(Lower(r[i].name), Lower(term), Lower(more));
      var j :| 0 <= j < |techs| && techs[j] == r[i];
    }
  }

  lemma SearchIsSubsequence(techs: seq<Technician>, term: string)
    ensures IsSubsequence(Search(techs, term), techs)
  {
    var needle := Lower(term);
    FilterIsSubsequence(techs, (t: Technician) => Contains(Lower(t.name), needle));
  }

  /** The search visits the technicians one at a time. */
  lemma SearchSnoc(techs: seq<Technician>, t: Technician, term: string)
    ensures Search(techs + [t], term) ==
      Search(techs, term) + (if Contains(Lower(t.name), Lower(term)) then [t] else [])
  {
    var needle := Lower(term);
    FilterAppend(techs, [t], (u: Technician) => Contains(Lower(u.name), needle));
  }

  lemma SelectedTechniciansSnoc(techs: seq<Technician>, t: Technician, ids: seq<string>)
    ensures SelectedTechnicians(techs + [t], ids) ==
      SelectedTechnicians(techs, ids) + (if t.id in ids then [t] else [])
  {
    FilterAppend(techs, [t], (u: Technician) => u.id in ids);
  }

  /** The selected technicians depend only on the set of selected ids, not on
      the order in which they were picked. */
  lemma SelectedTechniciansOrderIndependent(techs: seq<Technician>, ids1: seq<string>, ids2: seq<string>)
    requires forall x :: x in ids1 <==> x in ids2
    ensures SelectedTechnicians(techs, ids1) == SelectedTechnicians(techs, ids2)
  {
    FilterCongruent(techs, (t: Technician) => t.id in ids1, (t: Technician) => t.id in ids2);
  }

  lemma SelectedTechniciansIsSubsequence(techs: seq<Technician>, ids: seq<string>)
    ensures IsSubsequence(SelectedTechnicians(techs, ids), techs)
  {
    FilterIsSubsequence(techs, (t: Technician) => t.id in ids);
  }

  /** With the initial selection every technician is selected. */
  lemma InitiallyAllSelected(techs: seq<Technician>)
    ensures SelectedTechnicians(techs, InitialSelection(techs)) == techs
  {
    var ids := InitialSelection(techs);
    forall i | 0 <= i < |techs|
      ensures techs[i].id in ids
    {
      assert ids[i] == techs[i].id;
    }
    FilterKeepsAll(techs, (t: Technician) => t.id in ids);
  }

  /** After removing an id no technician with that id stays selected. */
  lemma RemovedTechnicianNotSelected(techs: seq<Technician>, ids: seq<string>, id: string)
    ensures forall t :: t in SelectedTechnicians(techs, RemoveSelected(ids, id)) ==> t.id != id
  {
  }
}
