/**
 * The completion table of RouteLoader: every asynchronous loader (elevations, road information,
 * weather) reports once, with or without an error, and the report that leaves no module pending
 * publishes the table and notifies the listener.
 */
module Loader {
  import opened Js

  /** What a loader passes as errorStatus: an HTTP status, or an Error object. */
  datatype ErrorValue = Code(n: int) | Failure

  /** A value of the table: still undefined, a boolean, or the error a module failed with. */
  datatype Slot = Unset | Flag(b: bool) | Failed(e: ErrorValue)

  /** JavaScript truthiness of a slot; an undefined slot and a zero status are falsy. */
  predicate Truthy(s: Slot) {
    s == Flag(true) || (s.Failed? && (s.e.Failure? || s.e.n != 0))
  }

  const LoadingCallback: string := "loadingCallback"
  const Modules: seq<string> := ["elevations", "routeInfo", "weather"]

  /** The table initializeLoading installs (and the constructor's loadedModules). */
  const InitialTable: map<string, Slot> := map[
    "loadingCallback" := Flag(false),
    "map" := Flag(true),
    "elevations" := Unset,
    "routeInfo" := Unset,
    "weather" := Unset]

  /** What a report stores: true without an error, the error otherwise. */
  function SlotOf(errorStatus: Option<ErrorValue>): Slot {
    if errorStatus.None? then Flag(true) else Failed(errorStatus.value)
  }

  /**
   * A report never leaves its module undefined, and what it stores is truthy unless the error is the
   * status 0.
   */
  lemma StoredSlot(errorStatus: Option<ErrorValue>)
    ensures SlotOf(errorStatus) != Unset
    ensures Truthy(SlotOf(errorStatus)) <==> errorStatus != Some(Code(0))
  {
  }

  /** Some module other than the callback flag is still undefined. */
  ghost predicate Pending(m: map<string, Slot>) {
    exists k :: k in m && k != LoadingCallback && m[k] == Unset
  }

  /** A call either throws (the table was already deleted) or returns whether loading is over. */
  datatype Outcome = Threw | Returned(finished: bool)

  /** The loader's fields that finishLoadingModule reads and writes; `loaded` is None once deleted. */
  datatype LoaderState = LoaderState(loaded: Option<map<string, Slot>>, loadedModules: map<string, Slot>,
                                     listening: bool, notified: nat)

  /** finishLoadingModule as a function of the state before the call. */
  ghost function Report(st: LoaderState, name: string, errorStatus: Option<ErrorValue>): (LoaderState, Outcome) {
    if st.loaded.None? then (st, Threw)
    else
      var m := st.loaded.value[name := SlotOf(errorStatus)];
      if LoadingCallback in m && Truthy(m[LoadingCallback]) then (st.(loaded := Some(m)), Returned(true))
      else if Pending(m) then (st.(loaded := Some(m)), Returned(false))
      else
        (st.(loaded := None, loadedModules := m[LoadingCallback := Flag(true)],
             notified := st.notified + if st.listening then 1 else 0),
         Returned(true))
  }

  /**
   * A report of a module other than the flag, on a table whose flag is still false, finishes the
   * loading exactly when no other module is left undefined; finishing publishes the table with the
   * flag set and notifies the listener once, and an unfinished report changes only the table.
   */
  lemma ReportFinishesIffNothingPending(st: LoaderState, name: string, errorStatus: Option<ErrorValue>)
    requires st.loaded.Some? && name != LoadingCallback
    requires LoadingCallback in st.loaded.value && !Truthy(st.loaded.value[LoadingCallback])
    ensures var m := st.loaded.value[name := SlotOf(errorStatus)];
      var (after, outcome) := Report(st, name, errorStatus);
      outcome == Returned(forall k :: k in m && k != LoadingCallback ==> m[k] != Unset) &&
      (outcome.finished ==> after.loaded.None? && after.loadedModules == m[LoadingCallback := Flag(true)] &&
                            after.notified == st.notified + (if st.listening then 1 else 0)) &&
      (!outcome.finished ==> after == st.(loaded := Some(m)))
  {
  }

  /** The three modules, each once, in some order. */
  ghost predicate IsOrder(order: seq<string>) {
    |order| == 3 &&
    (forall j :: 0 <= j < 3 ==> order[j] in Modules) &&
    order[0] != order[1] && order[0] != order[2] && order[1] != order[2]
  }

  /**
   * After initializeLoading, the three loaders reporting once each in any order: the first two
   * reports return false, the third returns true, publishes a table holding the flag set, the map
   * entry and each module's own result whatever the order, and notifies the listener once; a
   * fourth report throws.
   */
  lemma {:induction false} AnyOrderFinishesOnce(st: LoaderState, order: seq<string>, errs: seq<Option<ErrorValue>>)
    requires st.loaded == Some(InitialTable) && IsOrder(order) && |errs| == 3
    ensures var (s1, o1) := Report(st, order[0], errs[0]);
      var (s2, o2) := Report(s1, order[1], errs[1]);
      var (s3, o3) := Report(s2, order[2], errs[2]);
      o1 == Returned(false) && o2 == Returned(false) && o3 == Returned(true) &&
      s3.loaded.None? && s3.notified == st.notified + (if st.listening then 1 else 0) &&
      s3.loadedModules.Keys == InitialTable.Keys &&
      s3.loadedModules[LoadingCallback] == Flag(true) && s3.loadedModules["map"] == Flag(true) &&
      (forall j :: 0 <= j < 3 ==> s3.loadedModules[order[j]] == SlotOf(errs[j])) &&
      Report(s3, order[0], errs[0]).1 == Threw
  {
    var m1 := InitialTable[order[0] := SlotOf(errs[0])];
    var m2 := m1[order[1] := SlotOf(errs[1])];
    var m3 := m2[order[2] := SlotOf(errs[2])];
    assert m1[order[1]] == Unset;
    assert m2[order[2]] == Unset;
    ReportFinishesIffNothingPending(st, order[0], errs[0]);
    var s1 := st.(loaded := Some(m1));
    assert Report(st, order[0], errs[0]) == (s1, Returned(false));
    ReportFinishesIffNothingPending(s1, order[1], errs[1]);
    var s2 := s1.(loaded := Some(m2));
    assert Report(s1, order[1], errs[1]) == (s2, Returned(false));
    ReportFinishesIffNothingPending(s2, order[2], errs[2]);
    AllReported(order, errs);
    PublishedTable(order, errs);
    var s3 := s2.(loaded := None, loadedModules := m3[LoadingCallback := Flag(true)],
                  notified := st.notified + if st.listening then 1 else 0);
    assert Report(s2, order[2], errs[2]) == (s3, Returned(true));
  }

  /** Once each of the three modules has stored its result no entry other than the flag is undefined. */
  lemma AllReported(order: seq<string>, errs: seq<Option<ErrorValue>>)
    requires IsOrder(order) && |errs| == 3
    ensures var m3 := InitialTable[order[0] := SlotOf(errs[0])][order[1] := SlotOf(errs[1])][order[2] := SlotOf(errs[2])];
      m3.Keys == InitialTable.Keys && forall k :: k in m3 && k != LoadingCallback ==> m3[k] != Unset
  {
    var m3 := InitialTable[order[0] := SlotOf(errs[0])][order[1] := SlotOf(errs[1])][order[2] := SlotOf(errs[2])];
    forall k | k in m3 && k != LoadingCallback ensures m3[k] != Unset {
      assert k == "map" || k in Modules;
      assert Modules[0] in order && Modules[1] in order && Modules[2] in order;
    }
  }

  /** The table published after the three reports holds the flag set, the map entry and each module's own result. */
  lemma PublishedTable(order: seq<string>, errs: seq<Option<ErrorValue>>)
    requires IsOrder(order) && |errs| == 3
    ensures var t := InitialTable[order[0] := SlotOf(errs[0])][order[1] := SlotOf(errs[1])][order[2] := SlotOf(errs[2])][LoadingCallback := Flag(true)];
      t.Keys == InitialTable.Keys && t[LoadingCallback] == Flag(true) && t["map"] == Flag(true) &&
      forall j :: 0 <= j < 3 ==> t[order[j]] == SlotOf(errs[j])
  {
    assert "map" !in order && LoadingCallback !in order;
  }

  class RouteLoader {
    /** The table the loaders report into; None while it does not exist (before loading and after it is deleted). */
    var loaded: Option<map<string, Slot>>
    /** The table of the last finished loading. */
    var loadedModules: map<string, Slot>
    /** Whether onLoadingFinished is set. */
    var listening: bool
    /** How often onLoadingFinished has been called. */
    var notified: nat

    function State(): LoaderState
      reads this
    {
      LoaderState(loaded, loadedModules, listening, notified)
    }

    constructor (listening: bool)
      ensures State() == LoaderState(None, InitialTable, listening, 0)
    {
      loaded := None;
      loadedModules := InitialTable;
      this.listening := listening;
      notified := 0;
    }

    /** initializeLoading: a fresh table with every module undefined. */
    method InitializeLoading()
      modifies this
      ensures State() == old(State()).(loaded := Some(InitialTable))
    {
      loaded := Some(InitialTable);
    }

    /**
     * finishLoadingModule: stores the module's result, returns true at once if the flag is set,
     * returns false while a module is undefined, and otherwise sets the flag, publishes and deletes
     * the table and notifies the listener.
     */
    method FinishLoadingModule(name: string, errorStatus: Option<ErrorValue>) returns (outcome: Outcome)
      modifies this
      ensures (State(), outcome) == Report(old(State()), name, errorStatus)
    {
      if loaded.None? {
        return Threw;
      }
      var m := loaded.value[name := SlotOf(errorStatus)];
      loaded := Some(m);
      if LoadingCallback in m && Truthy(m[LoadingCallback]) {
        return Returned(true);
      }
      var keys := m.Keys;
      while keys != {}
        invariant keys <= m.Keys
        invariant forall k :: k in m && k !in keys && k != LoadingCallback ==> m[k] != Unset
        invariant State() == old(State()).(loaded := Some(m))
        decreases |keys|
      {
        var key :| key in keys;
        if key != LoadingCallback && m[key] == Unset {
          return Returned(false);
        }
        keys := keys - {key};
      }
      loadedModules := m[LoadingCallback := Flag(true)];
      loaded := None;
      if listening {
        notified := notified + 1;
      }
      outcome := Returned(true);
    }
  }
}
