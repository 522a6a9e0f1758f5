/**
  The search-engine registry: an ordered list of engines, the first of
  which is the default, and a set of disabled engines. Every change is
  written through to a shared preference store, and a registry built over
  the same store loads the same state.
 */
module Registry {
  import opened EngineOrder
  import opened Preferences

  /** Preference key of the persisted engine order (a string list). */
  const OrderedEngineNames: string := "search.orderedEngineNames"
  /** Preference key of the persisted disabled engines (a string set). */
  const DisabledEngineNames: string := "search.disabledEngineNames"

  /** Short names the shipped catalog is expected to include. */
  const ExpectedEngineNames: seq<string> :=
    ["Amazon.com", "Bing", "DuckDuckGo", "Google", "Twitter", "Wikipedia", "Yahoo"]

  datatype Error =
    | UnknownEngine(name: string)      // the short name is not in the catalog
    | InvalidOrder(names: seq<string>) // a new order repeats a name or names an unknown engine

  datatype Outcome = Pass | Fail(error: Error)

  /** What the catalog supplies: distinct short names, the configured default among them. */
  predicate CatalogOk(catalog: seq<string>, defaultName: string)
  {
    Distinct(catalog) && defaultName in catalog
  }

  /**
    A list the registry accepts as a new order: no repeated name and no
    unknown one. Engines it leaves out keep their relative order behind it.
   */
  predicate IsReorder(names: seq<string>, catalog: seq<string>)
  {
    Distinct(names) && forall x :: x in names ==> x in catalog
  }

  /**
    The order a registry starts with. Without a persisted order it is the
    catalog with the default engine moved first. Otherwise it is the
    persisted list, without unknown and repeated names, followed by the
    catalog engines the list does not mention, in catalog order.
   */
  function LoadOrder(values: map<string, PrefValue>, catalog: seq<string>, defaultName: string): (r: seq<string>)
    requires CatalogOk(catalog, defaultName)
    ensures IsOrderOf(r, catalog) && |r| == |catalog| > 0
    ensures StringListAt(values, OrderedEngineNames).None? ==>
              r[0] == defaultName && Drop(r, {defaultName}) == Drop(catalog, {defaultName})
    ensures StringListAt(values, OrderedEngineNames).Some? ==>
              var names := StringListAt(values, OrderedEngineNames).value;
              IsReorder(names, catalog) ==> |names| <= |r| && r[..|names|] == names
    ensures StringListAt(values, OrderedEngineNames).Some? ==>
              var names := StringListAt(values, OrderedEngineNames).value;
              var known := Dedup(Keep(names, Elems(catalog)));
              && |known| <= |r| && r[..|known|] == known
              && Keep(r, Elems(names)) == known
              && Drop(r, Elems(names)) == Drop(catalog, Elems(names))
  {
    match StringListAt(values, OrderedEngineNames)
    case None =>
      MoveToFront(catalog, defaultName)
    case Some(names) =>
      var known := Dedup(Keep(names, Elems(catalog)));
      assert IsReorder(names, catalog) ==> known == names;
      var r := Complete(known, catalog);
      OrderLength(r, catalog);
      PersistedOrderKept(names, catalog, known, r);
      r
  }

  /**
    In the completion of the known, deduplicated persisted list, the names
    the list mentions come first in that list's order, and the others follow
    in catalog order.
   */
  lemma PersistedOrderKept(names: seq<string>, catalog: seq<string>, known: seq<string>, r: seq<string>)
    requires known == Dedup(Keep(names, Elems(catalog)))
    requires r == Complete(known, catalog)
    ensures Keep(r, Elems(names)) == known
    ensures Drop(r, Elems(names)) == Drop(catalog, Elems(names))
  {
    var rest := Drop(catalog, Elems(known));
    assert r == known + rest;
    KeepConcat(known, rest, Elems(names));
    KeepNone(rest, Elems(names));
    DropConcat(known, rest, Elems(names));
    DropAll(known, Elems(names));
    DropDrop(catalog, Elems(known), Elems(names));
    DropAgreeing(catalog, Elems(known) + Elems(names), Elems(names));
  }

  /**
    The disabled engines a registry starts with: the persisted disabled
    names that are in the catalog, except the default engine `first`,
    which is always enabled.
   */
  function LoadDisabled(values: map<string, PrefValue>, catalog: seq<string>, first: string): (r: set<string>)
    ensures forall x :: x in r ==> x in catalog && x != first
    ensures StringSetAt(values, DisabledEngineNames).None? ==> r == {}
    ensures StringSetAt(values, DisabledEngineNames).Some? ==>
              forall x :: x in r <==> x in StringSetAt(values, DisabledEngineNames).value && x in catalog && x != first
  {
    match StringSetAt(values, DisabledEngineNames)
    case None => {}
    case Some(names) => set x | x in names && x in catalog && x != first
  }

  /** `values` with both persisted keys overwritten by `order` and `disabled`. */
  function Saved(values: map<string, PrefValue>, order: seq<string>, disabled: set<string>): map<string, PrefValue>
  {
    values[DisabledEngineNames := StringSet(disabled)][OrderedEngineNames := StringList(order)]
  }

  /** A registry built over `values` would hold exactly `order` and `disabled`. */
  predicate Restores(values: map<string, PrefValue>, catalog: seq<string>, defaultName: string,
                     order: seq<string>, disabled: set<string>)
    requires CatalogOk(catalog, defaultName)
  {
    var loaded := LoadOrder(values, catalog, defaultName);
    loaded == order && LoadDisabled(values, catalog, loaded[0]) == disabled
  }

  /** Persistence round trip: what a registry saves is what the next registry over the store loads. */
  lemma SaveThenLoad(values: map<string, PrefValue>, catalog: seq<string>, defaultName: string,
                     order: seq<string>, disabled: set<string>)
    requires CatalogOk(catalog, defaultName)
    requires IsOrderOf(order, catalog)
    requires |order| > 0 && order[0] !in disabled
    requires forall x :: x in disabled ==> x in catalog
    ensures Restores(Saved(values, order, disabled), catalog, defaultName, order, disabled)
  {
    var saved := Saved(values, order, disabled);
    assert StringListAt(saved, OrderedEngineNames) == Some(order);
    assert StringSetAt(saved, DisabledEngineNames) == Some(disabled);
    assert Keep(order, Elems(catalog)) == order;
    assert Dedup(order) == order;
  }

  /** The loaded order depends only on what the order key holds. */
  lemma LoadOrderReadsOrderKey(v1: map<string, PrefValue>, v2: map<string, PrefValue>,
                               catalog: seq<string>, defaultName: string)
    requires CatalogOk(catalog, defaultName)
    requires StringListAt(v1, OrderedEngineNames) == StringListAt(v2, OrderedEngineNames)
    ensures LoadOrder(v1, catalog, defaultName) == LoadOrder(v2, catalog, defaultName)
  {
  }

  /** Saving only the disabled set leaves the loaded order as it was and loads the new set. */
  lemma SaveDisabledThenLoad(values: map<string, PrefValue>, catalog: seq<string>, defaultName: string,
                             disabled: set<string>)
    requires CatalogOk(catalog, defaultName)
    requires LoadOrder(values, catalog, defaultName)[0] !in disabled
    requires forall x :: x in disabled ==> x in catalog
    ensures Restores(values[DisabledEngineNames := StringSet(disabled)], catalog, defaultName,
                     LoadOrder(values, catalog, defaultName), disabled)
  {
    var saved := values[DisabledEngineNames := StringSet(disabled)];
    assert OrderedEngineNames != DisabledEngineNames by {
      assert |OrderedEngineNames| == 25 && |DisabledEngineNames| == 26;
    }
    assert StringListAt(saved, OrderedEngineNames) == StringListAt(values, OrderedEngineNames);
    var order := LoadOrder(values, catalog, defaultName);
    LoadOrderReadsOrderKey(saved, values, catalog, defaultName);
    assert StringSetAt(saved, DisabledEngineNames) == Some(disabled);
    assert LoadDisabled(saved, catalog, order[0]) == disabled;
  }

  /**
    The shipped catalog includes the expected engines, so every order of it
    holds each of them and is at least as long as the expected list.
   */
  lemma IncludesExpectedEngines(order: seq<string>, catalog: seq<string>)
    requires IsOrderOf(order, catalog)
    requires forall x :: x in ExpectedEngineNames ==> x in catalog
    ensures |order| >= |ExpectedEngineNames|
    ensures forall x :: x in ExpectedEngineNames ==> multiset(order)[x] > 0
  {
    assert Distinct(ExpectedEngineNames);
    DistinctSubsetLength(ExpectedEngineNames, order);
  }

  class SearchEngines {
    const prefs: Prefs
    const catalog: seq<string>
    /** The configured startup default engine. */
    const defaultName: string
    var orderedEngines: seq<string>
    var disabled: set<string>

    /**
      The registry invariant: the order is a permutation of the catalog,
      its first engine (the default) is enabled, and the store holds
      exactly this state.
     */
    ghost predicate Valid()
      reads this, prefs
    {
      && CatalogOk(catalog, defaultName)
      && IsOrderOf(orderedEngines, catalog)
      && |orderedEngines| == |catalog| > 0
      && orderedEngines[0] !in disabled
      && (forall x :: x in disabled ==> x in catalog)
      && Restores(prefs.values, catalog, defaultName, orderedEngines, disabled)
    }

    /** A registry over `prefs`, loading the state persisted there, if any. */
    constructor (prefs: Prefs, catalog: seq<string>, defaultName: string)
      requires CatalogOk(catalog, defaultName)
      ensures Valid()
      ensures this.prefs == prefs && this.catalog == catalog && this.defaultName == defaultName
      ensures orderedEngines == LoadOrder(prefs.values, catalog, defaultName)
      ensures disabled == LoadDisabled(prefs.values, catalog, orderedEngines[0])
    {
      this.prefs := prefs;
      this.catalog := catalog;
      this.defaultName := defaultName;
      var order := LoadOrder(prefs.values, catalog, defaultName);
      orderedEngines := order;
      disabled := LoadDisabled(prefs.values, catalog, order[0]);
    }

    /** The default engine is the first of the order, a catalog engine, and enabled. */
    function DefaultEngine(): (e: string)
      reads this, prefs
      requires Valid()
      ensures e == orderedEngines[0]
      ensures e in catalog && IsEngineEnabled(e)
    {
      orderedEngines[0]
    }

    function IsEngineDefault(e: string): (b: bool)
      reads this, prefs
      requires Valid()
      ensures b <==> e == DefaultEngine()
      ensures b ==> e in catalog && IsEngineEnabled(e)
    {
      e == orderedEngines[0]
    }

    /** Only catalog engines can be enabled; a catalog engine is enabled unless disabled. */
    function IsEngineEnabled(e: string): (b: bool)
      reads this
      ensures b <==> e in catalog && e !in disabled
    {
      e in catalog && e !in disabled
    }

    /** The enabled engines in their current order, each exactly once. */
    function EnabledEngines(): (r: seq<string>)
      reads this, prefs
      requires Valid()
      ensures Distinct(r)
      ensures forall e :: multiset(r)[e] == if IsEngineEnabled(e) then 1 else 0
      ensures r == Drop(orderedEngines, disabled)
    {
      KeepIsDropOfRest(orderedEngines, Elems(catalog), disabled);
      EnabledOccurrences(orderedEngines, catalog, disabled);
      Keep(orderedEngines, Elems(catalog) - disabled)
    }

    /** Makes `e` the default: it is enabled and moved first, the others keep their order. */
    method SetDefaultEngine(e: string) returns (r: Outcome)
      requires Valid()
      modifies this, prefs
      ensures Valid()
      ensures r == if e in catalog then Pass else Fail(UnknownEngine(e))
      ensures r.Pass? ==>
                && orderedEngines == MoveToFront(old(orderedEngines), e)
                && disabled == old(disabled) - {e}
                && prefs.values == Saved(old(prefs.values), orderedEngines, disabled)
      ensures r.Fail? ==>
                orderedEngines == old(orderedEngines) && disabled == old(disabled) && prefs.values == old(prefs.values)
    {
      if e !in catalog {
        return Fail(UnknownEngine(e));
      }
      // The default engine is always enabled, and always first.
      disabled := disabled - {e};
      prefs.SetStringSet(DisabledEngineNames, disabled);
      orderedEngines := MoveToFront(orderedEngines, e);
      prefs.SetStringList(OrderedEngineNames, orderedEngines);
      SaveThenLoad(old(prefs.values), catalog, defaultName, orderedEngines, disabled);
      r := Pass;
    }

    /**
      Reorders the engines: `names` come first, the engines it leaves out
      follow in their current order. The new first engine becomes the
      default and is enabled.
     */
    method SetOrderedEngines(names: seq<string>) returns (r: Outcome)
      requires Valid()
      modifies this, prefs
      ensures Valid()
      ensures r == if IsReorder(names, catalog) then Pass else Fail(InvalidOrder(names))
      ensures r.Pass? ==>
                && orderedEngines == Complete(names, old(orderedEngines))
                && disabled == old(disabled) - {orderedEngines[0]}
                && prefs.values == Saved(old(prefs.values), orderedEngines, disabled)
      ensures r.Fail? ==>
                orderedEngines == old(orderedEngines) && disabled == old(disabled) && prefs.values == old(prefs.values)
    {
      if !IsReorder(names, catalog) {
        return Fail(InvalidOrder(names));
      }
      var order := Complete(names, orderedEngines);
      orderedEngines := order;
      disabled := disabled - {order[0]};
      prefs.SetStringSet(DisabledEngineNames, disabled);
      prefs.SetStringList(OrderedEngineNames, orderedEngines);
      SaveThenLoad(old(prefs.values), catalog, defaultName, orderedEngines, disabled);
      r := Pass;
    }

    method EnableEngine(e: string) returns (r: Outcome)
      requires Valid()
      modifies this, prefs
      ensures Valid()
      ensures r == if e in catalog then Pass else Fail(UnknownEngine(e))
      ensures orderedEngines == old(orderedEngines)
      ensures r.Pass? ==>
                disabled == old(disabled) - {e}
                && prefs.values == old(prefs.values)[DisabledEngineNames := StringSet(disabled)]
      ensures r.Fail? ==> disabled == old(disabled) && prefs.values == old(prefs.values)
    {
      if e !in catalog {
        return Fail(UnknownEngine(e));
      }
      disabled := disabled - {e};
      prefs.SetStringSet(DisabledEngineNames, disabled);
      SaveDisabledThenLoad(old(prefs.values), catalog, defaultName, disabled);
      r := Pass;
    }

    /** Disables `e`, except that the default engine cannot be disabled: for it this does nothing. */
    method DisableEngine(e: string) returns (r: Outcome)
      requires Valid()
      modifies this, prefs
      ensures Valid()
      ensures r == if e in catalog then Pass else Fail(UnknownEngine(e))
      ensures orderedEngines == old(orderedEngines)
      ensures r.Pass? && e != orderedEngines[0] ==>
                disabled == old(disabled) + {e}
                && prefs.values == old(prefs.values)[DisabledEngineNames := StringSet(disabled)]
      ensures r.Fail? || e == orderedEngines[0] ==>
                disabled == old(disabled) && prefs.values == old(prefs.values)
    {
      if e !in catalog {
        return Fail(UnknownEngine(e));
      }
      r := Pass;
      if e == orderedEngines[0] {
        return;
      }
      disabled := disabled + {e};
      prefs.SetStringSet(DisabledEngineNames, disabled);
      SaveDisabledThenLoad(old(prefs.values), catalog, defaultName, disabled);
    }
  }

  /**
    In the order with the disabled engines dropped, every enabled catalog
    engine occurs once and nothing else occurs.
   */
  lemma EnabledOccurrences(order: seq<string>, catalog: seq<string>, disabled: set<string>)
    requires IsOrderOf(order, catalog)
    ensures Distinct(Drop(order, disabled))
    ensures forall e :: multiset(Drop(order, disabled))[e] == if e in catalog && e !in disabled then 1 else 0
  {
    var r := Drop(order, disabled);
    forall e
      ensures multiset(r)[e] == if e in catalog && e !in disabled then 1 else 0
    {
      DistinctOccurrences(r, e);
    }
  }

  /** Keeping the names of a universe that are not in `xs` drops exactly `xs`. */
  lemma {:induction false} KeepIsDropOfRest(s: seq<string>, universe: set<string>, xs: set<string>)
    requires forall x :: x in s ==> x in universe
    ensures Keep(s, universe - xs) == Drop(s, xs)
  {
    if s != [] {
      KeepIsDropOfRest(s[1..], universe, xs);
    }
  }
}
