/**
  Clients of the registry that replay the registry's unit tests step by
  step: each asserts what the corresponding test checks, from the
  registry's contracts alone, for every catalog rather than the shipped one.
 */
module RegistryScenarios {
  import opened EngineOrder
  import opened Preferences
  import opened Registry

  /** A first run puts the configured default first and makes it the default. */
  method DefaultEngineOnStartup(catalog: seq<string>, defaultName: string) returns (engines: SearchEngines)
    requires CatalogOk(catalog, defaultName)
    ensures engines.Valid()
    ensures engines.DefaultEngine() == defaultName && engines.orderedEngines[0] == defaultName
  {
    var prefs := new Prefs();
    engines := new SearchEngines(prefs, catalog, defaultName);
  }

  /**
    Setting the default on one registry moves it first, and a second
    registry over the same store sees the same default.
   */
  method DefaultEngineIsPersisted(catalog: seq<string>, defaultName: string) returns (engines2: SearchEngines)
    requires CatalogOk(catalog, defaultName) && |catalog| >= 2
    ensures engines2.Valid() && engines2.catalog == catalog
    ensures engines2.IsEngineDefault(MoveToFront(catalog, defaultName)[1])
  {
    var prefs := new Prefs();
    var engines := new SearchEngines(prefs, catalog, defaultName);
    var engineSet := engines.orderedEngines;
    OrderLength(engineSet, catalog);
    assert engineSet[0] != engineSet[1];
    MakeDefault(engines, engineSet[0], engineSet[1]);
    MakeDefault(engines, engineSet[1], engineSet[0]);

    engines2 := new SearchEngines(prefs, catalog, defaultName);
    assert engines2.IsEngineDefault(engineSet[1]);
    assert engines.orderedEngines[0] == engineSet[1];
  }

  /** Setting `a` as the default makes it the default and first, and `b` not the default. */
  method MakeDefault(engines: SearchEngines, a: string, b: string)
    requires engines.Valid() && a in engines.catalog && a != b
    modifies engines, engines.prefs
    ensures engines.Valid()
    ensures engines.IsEngineDefault(a) && !engines.IsEngineDefault(b)
    ensures engines.orderedEngines[0] == a
  {
    var r := engines.SetDefaultEngine(a);
    assert engines.IsEngineDefault(a);
    assert !engines.IsEngineDefault(b);
    assert engines.orderedEngines[0] == a;
  }

  /** A new order is what the registry reports, and what a second registry over the store loads. */
  method OrderIsPersisted(catalog: seq<string>, defaultName: string) returns (engines2: SearchEngines)
    requires CatalogOk(catalog, defaultName) && |catalog| >= 3
    ensures engines2.Valid() && engines2.catalog == catalog
    ensures var engineSet := MoveToFront(catalog, defaultName);
            engines2.orderedEngines[..3] == [engineSet[2], engineSet[1], engineSet[0]]
  {
    var prefs := new Prefs();
    var engines := new SearchEngines(prefs, catalog, defaultName);
    var engineSet := engines.orderedEngines;
    OrderLength(engineSet, catalog);

    var reordered := [engineSet[2], engineSet[1], engineSet[0]];
    ThreeAreDistinct(engineSet[2], engineSet[1], engineSet[0]);
    var r := engines.SetOrderedEngines(reordered);
    assert engines.orderedEngines[..3] == reordered;

    engines2 := new SearchEngines(prefs, catalog, defaultName);
    assert engines2.orderedEngines[..3] == reordered;
  }

  /**
    The default cannot be disabled; enabling and disabling another engine
    works and shows in the enabled list; making an engine first enables
    it; and a second registry over the store sees the same enabled set.
   */
  method EnabledEnginesArePersisted(catalog: seq<string>, defaultName: string) returns (engines2: SearchEngines)
    requires CatalogOk(catalog, defaultName) && |catalog| >= 3
    ensures engines2.Valid() && engines2.catalog == catalog
    ensures var engineSet := MoveToFront(catalog, defaultName);
            && engines2.IsEngineEnabled(engineSet[2])
            && !engines2.IsEngineEnabled(engineSet[1])
            && engines2.IsEngineEnabled(engineSet[0])
  {
    var prefs := new Prefs();
    var engines := new SearchEngines(prefs, catalog, defaultName);
    var engineSet := engines.orderedEngines;
    OrderLength(engineSet, catalog);
    EnableAndDisable(engines, engineSet[0], engineSet[1]);
    ReorderEnablesFirst(engines, engineSet[0], engineSet[1], engineSet[2]);
    engines2 := EnabledStateSurvives(engines, engineSet[0], engineSet[1], engineSet[2]);
  }

  /** Three pairwise different names form a list without repeats. */
  lemma ThreeAreDistinct(a: string, b: string, c: string)
    requires a != b && b != c && a != c
    ensures Distinct([a, b, c])
  {
  }

  /** Distinct catalog engines `a`, `b`, `c` of a valid registry. */
  ghost predicate ThreeEngines(engines: SearchEngines, a: string, b: string, c: string)
    reads engines, engines.prefs
  {
    engines.Valid() && a in engines.catalog && b in engines.catalog && c in engines.catalog
    && a != b && b != c && a != c
  }

  /** The default `b` stays enabled when disabled; `a` is enabled and disabled at will. */
  method EnableAndDisable(engines: SearchEngines, a: string, b: string)
    requires engines.Valid() && a in engines.catalog && b in engines.catalog && a != b
    modifies engines, engines.prefs
    ensures engines.Valid()
    ensures engines.IsEngineDefault(a) && engines.IsEngineEnabled(b)
  {
    // The default engine cannot be disabled.
    var r := engines.SetDefaultEngine(b);
    r := engines.DisableEngine(b);
    assert engines.IsEngineEnabled(b);

    // Enabling and disabling a non-default engine.
    r := engines.EnableEngine(a);
    assert engines.IsEngineEnabled(a);
    assert multiset(engines.EnabledEngines())[a] == 1;
    r := engines.DisableEngine(a);
    assert !engines.IsEngineEnabled(a);
    assert multiset(engines.EnabledEngines())[a] == 0;

    // Setting the default enables it; the engine it replaces stays enabled.
    r := engines.SetDefaultEngine(a);
    assert engines.IsEngineEnabled(a) && engines.IsEngineEnabled(b);
  }

  /** Putting `c` first makes it the default and enables it. */
  method ReorderEnablesFirst(engines: SearchEngines, a: string, b: string, c: string)
    requires ThreeEngines(engines, a, b, c)
    modifies engines, engines.prefs
    ensures ThreeEngines(engines, a, b, c)
    ensures engines.IsEngineDefault(c)
  {
    var reordered := [c, b, a];
    ThreeAreDistinct(c, b, a);
    var r := engines.SetOrderedEngines(reordered);
    assert engines.orderedEngines[..3] == reordered;
    assert engines.IsEngineDefault(c);
    assert engines.IsEngineEnabled(c);
  }

  /** With `c` the default, enabling `c` and `a` and disabling `b` is what a second registry loads. */
  method EnabledStateSurvives(engines: SearchEngines, a: string, b: string, c: string) returns (engines2: SearchEngines)
    requires ThreeEngines(engines, a, b, c) && engines.IsEngineDefault(c)
    modifies engines, engines.prefs
    ensures engines2.Valid() && engines2.catalog == engines.catalog
    ensures engines2.IsEngineEnabled(c) && !engines2.IsEngineEnabled(b) && engines2.IsEngineEnabled(a)
  {
    var r := engines.EnableEngine(c);
    r := engines.DisableEngine(b);
    r := engines.EnableEngine(a);
    engines2 := new SearchEngines(engines.prefs, engines.catalog, engines.defaultName);
    assert engines2.IsEngineEnabled(c);
    assert !engines2.IsEngineEnabled(b);
    assert engines2.IsEngineEnabled(a);
  }
}
