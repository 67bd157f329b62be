/*
 * The application registry (`Piranha.App`): four catalogs and a flag that
 * make its population run at most once.
 *
 * The outside world enters as inputs: the page types the storage API
 * returns, the extension modules, and for each module whether its `Init()`
 * hook completes (`initSucceeds[k]`). A hook that throws is reported as the
 * outcome `ModuleInitFailed(k)`; the exception propagates out of
 * `Initialize` in the source, leaving every effect made so far in place.
 * A `null` modules array is `None`: the `foreach` over it throws a null
 * reference exception after the fields and page types have been changed.
 */
module Piranha {
  import opened Extend

  /** The registry's state, as a value. */
  datatype AppState = AppState(
    isInitialized: bool,
    fields: seq<FieldType>,
    modules: seq<Module>,
    blockTypes: seq<BlockType>,
    pageTypes: seq<PageType>)

  datatype Option<T> = None | Some(value: T)

  /** How a call to `Initialize` ends: normally, by the exception a module's
      `Init()` threw (index into the supplied modules), or by the null
      reference exception of a loop over a `null` modules array. */
  datatype InitOutcome = Completed | ModuleInitFailed(index: nat) | NullModules

  /** The observable steps of the population sequence, in the order made. */
  datatype Event =
    | RegisterField(field: FieldType)
    | GetPageTypes
    | InitModule(hooked: Module)
    | AddModule(added: Module)
    | MarkInitialized

  /** The built-in field types, in registration order. */
  const BuiltInFields: seq<FieldType> := [HtmlField, StringField, TextField]

  /** The steps before the module loop: three registrations, then the
      page-type fetch. */
  const PreludeEvents: seq<Event> :=
    [RegisterField(HtmlField), RegisterField(StringField), RegisterField(TextField), GetPageTypes]

  /** The events of a module loop in which every listed module completes:
      each module is initialized and then added. */
  function ModuleEvents(mods: seq<Module>): seq<Event>
  {
    if mods == [] then [] else [InitModule(mods[0]), AddModule(mods[0])] + ModuleEvents(mods[1..])
  }

  /** What the module loop leaves behind. */
  datatype ModuleRun = ModuleRun(modules: seq<Module>, outcome: InitOutcome, events: seq<Event>)

  function Shifted(o: InitOutcome): InitOutcome
  {
    match o
    case ModuleInitFailed(k) => ModuleInitFailed(k + 1)
    case _ => o
  }

  /** The module loop, one module at a time: call `Init()`, and only if it
      completes append the module to `acc`; the first failure ends the loop. */
  function RunModules(acc: seq<Module>, mods: seq<Module>, initSucceeds: seq<bool>): ModuleRun
    requires |initSucceeds| == |mods|
    decreases |mods|
  {
    if mods == [] then ModuleRun(acc, Completed, [])
    else if !initSucceeds[0] then ModuleRun(acc, ModuleInitFailed(0), [InitModule(mods[0])])
    else
      var rest := RunModules(acc + [mods[0]], mods[1..], initSucceeds[1..]);
      ModuleRun(rest.modules, Shifted(rest.outcome), [InitModule(mods[0]), AddModule(mods[0])] + rest.events)
  }

  /** The result of one call to `Initialize`. */
  datatype InitResult = InitResult(state: AppState, outcome: InitOutcome, events: seq<Event>)

  /** One call to `Initialize` on state `s`, run without interference: if the
      flag is set nothing happens; otherwise register the built-in fields,
      adopt the API's page types, run the module loop (which throws at once
      on a `null` array), and set the flag only when the loop completed. */
  function Initialization(s: AppState, apiPageTypes: seq<PageType>, modules: Option<seq<Module>>, initSucceeds: seq<bool>): InitResult
    requires modules.Some? ==> |initSucceeds| == |modules.value|
  {
    if s.isInitialized then InitResult(s, Completed, [])
    else
      var prepared := s.(fields := s.fields + BuiltInFields, pageTypes := apiPageTypes);
      match modules
      case None => InitResult(prepared, NullModules, PreludeEvents)
      case Some(mods) =>
        var run := RunModules(s.modules, mods, initSucceeds);
        var done := run.outcome == Completed;
        InitResult(
          prepared.(isInitialized := done, modules := run.modules),
          run.outcome,
          PreludeEvents + run.events + (if done then [MarkInitialized] else []))
  }

  // ---------------------------------------------------------------------
  // The module loop

  lemma {:induction false} ModuleEventsAppend(a: seq<Module>, b: seq<Module>)
    ensures ModuleEvents(a + b) == ModuleEvents(a) + ModuleEvents(b)
  {
    if a == [] {
      assert a + b == b;
    } else {
      assert (a + b)[1..] == a[1..] + b;
      ModuleEventsAppend(a[1..], b);
    }
  }

  /** In the events of a completed loop, module j's `Init()` is event 2j and
      its `Add` is event 2j+1: every module is added right after its hook. */
  lemma {:induction false} ModuleEventsAt(mods: seq<Module>, j: nat)
    requires j < |mods|
    ensures |ModuleEvents(mods)| == 2 * |mods|
    ensures ModuleEvents(mods)[2 * j] == InitModule(mods[j])
    ensures ModuleEvents(mods)[2 * j + 1] == AddModule(mods[j])
  {
    if j > 0 {
      ModuleEventsAt(mods[1..], j - 1);
    } else if |mods| > 1 {
      ModuleEventsAt(mods[1..], 0);
    }
  }

  /** When every hook completes, the loop appends all modules in the order
      supplied. */
  lemma {:induction false} RunModulesAllSucceed(acc: seq<Module>, mods: seq<Module>, initSucceeds: seq<bool>)
    requires |initSucceeds| == |mods|
    decreases |mods|
    requires forall j :: 0 <= j < |initSucceeds| ==> initSucceeds[j]
    ensures RunModules(acc, mods, initSucceeds) == ModuleRun(acc + mods, Completed, ModuleEvents(mods))
  {
    if mods != [] {
      RunModulesAllSucceed(acc + [mods[0]], mods[1..], initSucceeds[1..]);
      assert acc + [mods[0]] + mods[1..] == acc + mods;
    }
  }

  /** When hook k is the first to fail, the loop has appended exactly the
      modules before k, called hook k, and not added module k. */
  lemma {:induction false} RunModulesFailsAt(acc: seq<Module>, mods: seq<Module>, initSucceeds: seq<bool>, k: nat)
    requires |initSucceeds| == |mods|
    decreases |mods|
    requires k < |mods| && !initSucceeds[k]
    requires forall j :: 0 <= j < k ==> initSucceeds[j]
    ensures RunModules(acc, mods, initSucceeds)
         == ModuleRun(acc + mods[..k], ModuleInitFailed(k), ModuleEvents(mods[..k]) + [InitModule(mods[k])])
  {
    if k > 0 {
      RunModulesFailsAt(acc + [mods[0]], mods[1..], initSucceeds[1..], k - 1);
      assert acc + [mods[0]] + mods[1..][..k - 1] == acc + mods[..k];
      assert mods[..k] == [mods[0]] + mods[1..][..k - 1];
    } else {
      assert mods[..k] == [];
    }
  }

  /** The loop completes exactly when every hook completes. */
  lemma {:induction false} RunModulesCompletesIff(acc: seq<Module>, mods: seq<Module>, initSucceeds: seq<bool>)
    requires |initSucceeds| == |mods|
    decreases |mods|
    ensures RunModules(acc, mods, initSucceeds).outcome == Completed
        <==> forall j :: 0 <= j < |initSucceeds| ==> initSucceeds[j]
  {
    if mods != [] {
      RunModulesCompletesIff(acc + [mods[0]], mods[1..], initSucceeds[1..]);
      if forall j :: 0 <= j < |initSucceeds| - 1 ==> initSucceeds[1..][j] {
        assert forall j :: 1 <= j < |initSucceeds| ==> initSucceeds[j] by {
          forall j | 1 <= j < |initSucceeds| ensures initSucceeds[j] {
            assert initSucceeds[j] == initSucceeds[1..][j - 1];
          }
        }
      } else {
        var j :| 0 <= j < |initSucceeds| - 1 && !initSucceeds[1..][j];
        assert !initSucceeds[j + 1];
      }
    }
  }

  // ---------------------------------------------------------------------
  // Properties of one call

  /** Once the flag is set, a call changes nothing and makes no call out. */
  lemma InitializationIsNoOpOnceInitialized(s: AppState, apiPageTypes: seq<PageType>, modules: Option<seq<Module>>, initSucceeds: seq<bool>)
    requires modules.Some? ==> |initSucceeds| == |modules.value|
    requires s.isInitialized
    ensures Initialization(s, apiPageTypes, modules, initSucceeds) == InitResult(s, Completed, [])
  {
  }

  /** A first call whose hooks all complete: the three built-in fields are
      registered in order and before anything else, the page types are
      replaced wholesale by the API's list, the modules are appended in the
      order supplied, the block types are untouched, and the flag is set
      last. */
  lemma InitializationSucceeds(s: AppState, apiPageTypes: seq<PageType>, mods: seq<Module>, initSucceeds: seq<bool>)
    requires |initSucceeds| == |mods|
    requires !s.isInitialized
    requires forall j :: 0 <= j < |initSucceeds| ==> initSucceeds[j]
    ensures var r := Initialization(s, apiPageTypes, Some(mods), initSucceeds);
      && r.outcome == Completed
      && r.state == AppState(true, s.fields + [HtmlField, StringField, TextField],
                             s.modules + mods, s.blockTypes, apiPageTypes)
      && r.events == PreludeEvents + ModuleEvents(mods) + [MarkInitialized]
  {
    RunModulesAllSucceed(s.modules, mods, initSucceeds);
  }

  /** A first call in which hook k is the first to fail: the flag stays
      clear, the fields and page types already changed stay changed, the
      modules gain only those before k, and module k's hook was called but
      the module was not added. */
  lemma InitializationFailsAt(s: AppState, apiPageTypes: seq<PageType>, mods: seq<Module>, initSucceeds: seq<bool>, k: nat)
    requires |initSucceeds| == |mods|
    requires !s.isInitialized
    requires k < |mods| && !initSucceeds[k]
    requires forall j :: 0 <= j < k ==> initSucceeds[j]
    ensures var r := Initialization(s, apiPageTypes, Some(mods), initSucceeds);
      && r.outcome == ModuleInitFailed(k)
      && r.state == AppState(false, s.fields + [HtmlField, StringField, TextField],
                             s.modules + mods[..k], s.blockTypes, apiPageTypes)
      && r.events == PreludeEvents + ModuleEvents(mods[..k]) + [InitModule(mods[k])]
  {
    RunModulesFailsAt(s.modules, mods, initSucceeds, k);
  }

  /** The flag is set after a call exactly when it was set before or every
      supplied module's hook completed, and it is set only as the last step. */
  lemma InitializedIffAllHooksComplete(s: AppState, apiPageTypes: seq<PageType>, mods: seq<Module>, initSucceeds: seq<bool>)
    requires |initSucceeds| == |mods|
    ensures var r := Initialization(s, apiPageTypes, Some(mods), initSucceeds);
      && (r.state.isInitialized <==> s.isInitialized || forall j :: 0 <= j < |initSucceeds| ==> initSucceeds[j])
      && (r.outcome == Completed <==> r.state.isInitialized)
      && (!s.isInitialized && r.state.isInitialized ==> r.events[|r.events| - 1] == MarkInitialized)
      && (MarkInitialized in r.events ==> r.state.isInitialized)
  {
    RunModulesCompletesIff(s.modules, mods, initSucceeds);
    var r := Initialization(s, apiPageTypes, Some(mods), initSucceeds);
    if !s.isInitialized && !r.state.isInitialized {
      RunModulesNeverMarks(s.modules, mods, initSucceeds);
      assert r.events == PreludeEvents + RunModules(s.modules, mods, initSucceeds).events;
    }
  }

  lemma {:induction false} RunModulesNeverMarks(acc: seq<Module>, mods: seq<Module>, initSucceeds: seq<bool>)
    requires |initSucceeds| == |mods|
    decreases |mods|
    ensures MarkInitialized !in RunModules(acc, mods, initSucceeds).events
  {
    if mods != [] && initSucceeds[0] {
      RunModulesNeverMarks(acc + [mods[0]], mods[1..], initSucceeds[1..]);
    }
  }

  /** `Initialize` never touches the block types. */
  lemma InitializationKeepsBlockTypes(s: AppState, apiPageTypes: seq<PageType>, modules: Option<seq<Module>>, initSucceeds: seq<bool>)
    requires modules.Some? ==> |initSucceeds| == |modules.value|
    ensures Initialization(s, apiPageTypes, modules, initSucceeds).state.blockTypes == s.blockTypes
  {
  }

  /** A first call given a `null` modules array: the fields are registered
      and the page types replaced, then the loop throws before any module is
      touched, and the flag stays clear. */
  lemma InitializationWithNullModules(s: AppState, apiPageTypes: seq<PageType>, initSucceeds: seq<bool>)
    requires !s.isInitialized
    ensures var r := Initialization(s, apiPageTypes, None, initSucceeds);
      && r.outcome == NullModules
      && r.state == AppState(false, s.fields + [HtmlField, StringField, TextField],
                             s.modules, s.blockTypes, apiPageTypes)
      && r.events == PreludeEvents
  {
  }

  /** The fragile retry after a failed first call: since the flag was never
      set, the next call runs the whole population sequence again, so the
      built-in fields are registered a second time and the modules that
      were added before the failure are added again. */
  lemma RetryAfterFailure(s: AppState, apiPageTypes: seq<PageType>, mods: seq<Module>,
                          firstTry: seq<bool>, k: nat, retryPageTypes: seq<PageType>, retry: seq<bool>)
    requires |firstTry| == |mods| && |retry| == |mods|
    requires !s.isInitialized
    requires k < |mods| && !firstTry[k]
    requires forall j :: 0 <= j < k ==> firstTry[j]
    requires forall j :: 0 <= j < |retry| ==> retry[j]
    ensures var r := Initialization(Initialization(s, apiPageTypes, Some(mods), firstTry).state, retryPageTypes, Some(mods), retry);
      && r.state.isInitialized
      && r.state.fields == s.fields + BuiltInFields + BuiltInFields
      && r.state.modules == s.modules + mods[..k] + mods
      && r.state.pageTypes == retryPageTypes
  {
    InitializationFailsAt(s, apiPageTypes, mods, firstTry, k);
    var s1 := Initialization(s, apiPageTypes, Some(mods), firstTry).state;
    InitializationSucceeds(s1, retryPageTypes, mods, retry);
  }

  // ---------------------------------------------------------------------
  // The registry object

  class App {
    var isInitialized: bool
    var fields: seq<FieldType>
    var modules: seq<Module>
    var blockTypes: seq<BlockType>
    var pageTypes: seq<PageType>

    function State(): AppState
      reads this
    {
      AppState(isInitialized, fields, modules, blockTypes, pageTypes)
    }

    /** A fresh registry: not initialized, every catalog empty. */
    constructor ()
      ensures State() == AppState(false, [], [], [], [])
    {
      isInitialized := false;
      fields := [];
      modules := [];
      blockTypes := [];
      pageTypes := [];
    }

    /** Runs the population sequence if the flag is clear; returns how the
        call ended and the steps it made. */
    method Initialize(apiPageTypes: seq<PageType>, moduleArray: Option<seq<Module>>, initSucceeds: seq<bool>)
      returns (outcome: InitOutcome, events: seq<Event>)
      requires moduleArray.Some? ==> |initSucceeds| == |moduleArray.value|
      modifies this
      ensures var r := Initialization(old(State()), apiPageTypes, moduleArray, initSucceeds);
        State() == r.state && outcome == r.outcome && events == r.events
    {
      outcome, events := Completed, [];
      if !isInitialized {
        fields := fields + [HtmlField];
        fields := fields + [StringField];
        fields := fields + [TextField];
        events := events + [RegisterField(HtmlField), RegisterField(StringField), RegisterField(TextField)];

        pageTypes := apiPageTypes;
        events := events + [GetPageTypes];

        if moduleArray.None? {
          outcome := NullModules;
          return;
        }
        var mods := moduleArray.value;
        var i := 0;
        while i < |mods|
          invariant 0 <= i <= |mods|
          invariant forall j :: 0 <= j < i ==> initSucceeds[j]
          invariant modules == old(modules) + mods[..i]
          invariant events == PreludeEvents + ModuleEvents(mods[..i])
          invariant !isInitialized && fields == old(fields) + BuiltInFields
          invariant pageTypes == apiPageTypes && blockTypes == old(blockTypes)
        {
          events := events + [InitModule(mods[i])];
          if !initSucceeds[i] {
            outcome := ModuleInitFailed(i);
            RunModulesFailsAt(old(modules), mods, initSucceeds, i);
            return;
          }
          modules := modules + [mods[i]];
          events := events + [AddModule(mods[i])];
          assert mods[..i + 1] == mods[..i] + [mods[i]];
          ModuleEventsAppend(mods[..i], [mods[i]]);
          i := i + 1;
        }
        isInitialized := true;
        events := events + [MarkInitialized];
        assert mods[..i] == mods;
        RunModulesAllSucceed(old(modules), mods, initSucceeds);
      }
    }
  }
}
