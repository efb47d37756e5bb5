/** The older multi-select of `src/components/multiselect.tsx`. Its handlers
    are written statement by statement (an `if`/`else` toggle, per-element
    filters); each is modelled here as a loop and proved to compute exactly
    what the newer component's transition computes. */
module LegacySelection {

  import opened Types
  import opened Seqs
  import opened Text
  import TechSelection

  /** The mount task: select every technician. */
  method InitialIds(techs: seq<Technician>) returns (ids: seq<string>)
    ensures ids == TechSelection.InitialSelection(techs)
  {
    ids := [];
    var i := 0;
    while i < |techs|
      invariant 0 <= i <= |techs|
      invariant ids == TechSelection.InitialSelection(techs[..i])
    {
      ids := ids + [techs[i].id];
      i := i + 1;
    }
    assert techs[..i] == techs;
  }

  /** `removeSelected`: keep the ids different from `id`. */
  method RemoveSelected(ids: seq<string>, id: string) returns (r: seq<string>)
    ensures r == TechSelection.RemoveSelected(ids, id)
  {
    r := [];
    var i := 0;
    while i < |ids|
      invariant 0 <= i <= |ids|
      invariant r == TechSelection.RemoveSelected(ids[..i], id)
    {
      assert ids[..i + 1] == ids[..i] + [ids[i]];
      FilterAppend(ids[..i], [ids[i]], (x: string) => x != id);
      if ids[i] != id {
        r := r + [ids[i]];
      }
      i := i + 1;
    }
    assert ids[..i] == ids;
  }

  /** `toggleSelect`. */
  method ToggleSelect(ids: seq<string>, id: string) returns (r: seq<string>)
    ensures r == TechSelection.Toggle(ids, id)
  {
    if id in ids {
      r := RemoveSelected(ids, id);
    } else {
      r := ids + [id];
    }
  }

  /** The search task, lower-casing the term for every technician. */
  method FilterTechs(techs: seq<Technician>, search: string) returns (r: seq<Technician>)
    ensures r == TechSelection.Search(techs, search)
  {
    r := [];
    var i := 0;
    while i < |techs|
      invariant 0 <= i <= |techs|
      invariant r == TechSelection.Search(techs[..i], search)
    {
      assert techs[..i + 1] == techs[..i] + [techs[i]];
      TechSelection.SearchSnoc(techs[..i], techs[i], search);
      if Contains(Lower(techs[i].name), Lower(search)) {
        r := r + [techs[i]];
      }
      i := i + 1;
    }
    assert techs[..i] == techs;
  }

  /** The sync task: the technicians whose id is selected. */
  method SyncSelected(techs: seq<Technician>, ids: seq<string>) returns (r: seq<Technician>)
    ensures r == TechSelection.SelectedTechnicians(techs, ids)
  {
    r := [];
    var i := 0;
    while i < |techs|
      invariant 0 <= i <= |techs|
      invariant r == TechSelection.SelectedTechnicians(techs[..i], ids)
    {
      assert techs[..i + 1] == techs[..i] + [techs[i]];
      TechSelection.SelectedTechniciansSnoc(techs[..i], techs[i], ids);
      if techs[i].id in ids {
        r := r + [techs[i]];
      }
      i := i + 1;
    }
    assert techs[..i] == techs;
  }
}
