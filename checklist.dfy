/** The "select all" reconciliation between a multi-select checklist and its
    companion one-option "All" checklist. The source has two copies of the
    same callback, one for years and one for months; they differ only in the
    universe of options and in the sentinel string of the "All" checklist, so
    one reducer with those two as parameters covers both. */
module Checklist {
  import opened Universe

  /** Which of the two controls fired. The source reads this from Dash's
      callback context; every trigger other than the multi-select checklist
      takes the second branch, so that branch is `AllToggle`. */
  datatype Trigger = MultiSelect | AllToggle

  /** The values of the two checklists: the picked options and the "All" list. */
  datatype Checklists = Checklists(selected: seq<int>, allFlag: seq<string>)

  /** The sentinel options of the two "All" checklists. */
  const AllYears: string := "All Years"
  const AllMonths: string := "All Months"

  /** A value the one-option "All" checklist can hold: unticked or ticked. */
  predicate FlagValid(allFlag: seq<string>, sentinel: string)
  {
    allFlag == [] || allFlag == [sentinel]
  }

  /** The two controls agree: the "All" box is ticked exactly when the picked
      options, as a set, are the whole universe. */
  predicate Reconciled(c: Checklists, universe: seq<int>, sentinel: string)
  {
    && FlagValid(c.allFlag, sentinel)
    && (c.allFlag == [sentinel] <==> Elements(c.selected) == Elements(universe))
  }

  /** `sync_checklists`. After a multi-select edit the picks stand and the "All"
      box is recomputed; after an "All" edit the box stands and the picks become
      all of the universe (box ticked, i.e. non-empty) or none (box unticked). */
  function Sync(trigger: Trigger, selected: seq<int>, allFlag: seq<string>,
                universe: seq<int>, sentinel: string): (r: Checklists)
    ensures trigger == MultiSelect ==> r.selected == selected && Reconciled(r, universe, sentinel)
    ensures trigger == AllToggle ==> r.allFlag == allFlag
    ensures trigger == AllToggle && allFlag != [] ==> r.selected == universe
    ensures trigger == AllToggle && allFlag == [] ==> r.selected == []
  {
    match trigger
    case MultiSelect =>
      Checklists(selected, if Elements(selected) == Elements(universe) then [sentinel] else [])
    case AllToggle =>
      Checklists(if |allFlag| > 0 then universe else [], allFlag)
  }

  /** The year copy of the callback: its "All" box only ever holds "All Years". */
  function SyncYears(trigger: Trigger, selected: seq<int>, allFlag: seq<string>,
                     yearOptions: seq<int>): (r: Checklists)
    requires FlagValid(allFlag, AllYears)
    ensures FlagValid(r.allFlag, AllYears)
    ensures trigger == MultiSelect ==> r.selected == selected && Reconciled(r, yearOptions, AllYears)
    ensures trigger == AllToggle ==> r.allFlag == allFlag
    ensures trigger == AllToggle ==> r.selected == (if allFlag == [AllYears] then yearOptions else [])
  {
    Sync(trigger, selected, allFlag, yearOptions, AllYears)
  }

  /** The month copy of the callback: its "All" box only ever holds "All Months". */
  function SyncMonths(trigger: Trigger, selected: seq<int>, allFlag: seq<string>,
                      monthOptions: seq<int>): (r: Checklists)
    requires FlagValid(allFlag, AllMonths)
    ensures FlagValid(r.allFlag, AllMonths)
    ensures trigger == MultiSelect ==> r.selected == selected && Reconciled(r, monthOptions, AllMonths)
    ensures trigger == AllToggle ==> r.allFlag == allFlag
    ensures trigger == AllToggle ==> r.selected == (if allFlag == [AllMonths] then monthOptions else [])
  {
    Sync(trigger, selected, allFlag, monthOptions, AllMonths)
  }

  /** The box is decided by set equality: reordering or repeating picks never
      changes it. */
  lemma FlagIgnoresOrderAndRepeats(s1: seq<int>, s2: seq<int>, allFlag: seq<string>,
                                   universe: seq<int>, sentinel: string)
    requires Elements(s1) == Elements(s2)
    ensures Sync(MultiSelect, s1, allFlag, universe, sentinel).allFlag
         == Sync(MultiSelect, s2, allFlag, universe, sentinel).allFlag
  {
  }

  /** Ticking every option by hand gives the same box and the same set of picks
      as ticking "All". */
  lemma ManualSelectAllIsToggleAll(selected: seq<int>, allFlag: seq<string>,
                                   universe: seq<int>, sentinel: string)
    requires Elements(selected) == Elements(universe)
    ensures var m := Sync(MultiSelect, selected, allFlag, universe, sentinel);
            var t := Sync(AllToggle, selected, [sentinel], universe, sentinel);
            m.allFlag == t.allFlag && Elements(m.selected) == Elements(t.selected)
  {
  }

  /** Reconciling the reducer's own output with the same trigger changes nothing. */
  lemma SyncIdempotent(trigger: Trigger, selected: seq<int>, allFlag: seq<string>,
                       universe: seq<int>, sentinel: string)
    ensures var r := Sync(trigger, selected, allFlag, universe, sentinel);
            Sync(trigger, r.selected, r.allFlag, universe, sentinel) == r
  {
  }

  /** The states a multi-select reconciliation leaves alone are exactly the
      reconciled ones. */
  lemma MultiSelectFixedPoints(c: Checklists, universe: seq<int>, sentinel: string)
    ensures Sync(MultiSelect, c.selected, c.allFlag, universe, sentinel) == c
        <==> Reconciled(c, universe, sentinel)
  {
  }

  /** An "All" edit leaves the controls reconciled unless the box was unticked
      over an empty universe: then the empty picks equal the whole universe
      while the box stays unticked. */
  lemma {:induction false} AllToggleReconciles(allFlag: seq<string>, selected: seq<int>,
                                               universe: seq<int>, sentinel: string)
    requires FlagValid(allFlag, sentinel)
    ensures Reconciled(Sync(AllToggle, selected, allFlag, universe, sentinel), universe, sentinel)
        <==> (allFlag == [sentinel] || universe != [])
  {
    ElementsEmpty(universe);
    assert Elements([]) == {};
  }

  /** A multi-select reconciliation run on the output of an "All" edit keeps the
      box as the user left it (in particular a ticked "All" stays ticked),
      unless the box was unticked over an empty universe. */
  lemma {:induction false} ToggleThenMultiSelectIsStable(allFlag: seq<string>, selected: seq<int>,
                                                          universe: seq<int>, sentinel: string)
    requires FlagValid(allFlag, sentinel)
    requires allFlag == [sentinel] || universe != []
    ensures var t := Sync(AllToggle, selected, allFlag, universe, sentinel);
            Sync(MultiSelect, t.selected, t.allFlag, universe, sentinel) == t
  {
    var t := Sync(AllToggle, selected, allFlag, universe, sentinel);
    AllToggleReconciles(allFlag, selected, universe, sentinel);
    MultiSelectFixedPoints(t, universe, sentinel);
  }

  /** Start-up state: both checklists are empty, and the initial callback
      (which is not the multi-select) keeps the picks empty. */
  lemma InitialState(universe: seq<int>, sentinel: string)
    ensures Sync(AllToggle, [], [], universe, sentinel) == Checklists([], [])
  {
  }

  /** Years 2020-2022: ticking all three by hand ticks "All Years"; then
      unticking 2021 unticks it and leaves 2020 and 2022 picked. */
  lemma SelectAllThenDeselectScenario()
    ensures Sync(MultiSelect, [2020, 2021, 2022], [], [2020, 2021, 2022], AllYears)
         == Checklists([2020, 2021, 2022], [AllYears])
    ensures Sync(MultiSelect, [2020, 2022], [AllYears], [2020, 2021, 2022], AllYears)
         == Checklists([2020, 2022], [])
  {
    assert 2021 in Elements([2020, 2021, 2022]);
    assert 2021 !in Elements([2020, 2022]);
  }
}
