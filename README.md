# Search-engine registry

A model of the `SearchEngines` registry of Firefox for iOS: the list of
search engines the browser offers, in the order the user chose, the first of
which is the default engine, together with the set of engines the user
disabled. Every change is written through to the profile preferences, and a
second registry built over the same preferences loads the same order, the
same default and the same enabled engines.

The registry's own implementation file is not part of this model; its
behaviour is taken from what `ClientTests/SearchEnginesTests.swift` asserts of
it. Where the tests leave the behaviour open, this model makes its own
choices, listed below: the default is derived as the first engine rather than
stored, the disabled set (not the enabled set) is persisted, and loading
follows the rules listed below.

- `engine_order.dfy` (module `EngineOrder`): orders of engines as sequences of
  short names, and functions that rearrange them (`MoveToFront`, `Complete`,
  `Drop`, `Keep`, `Dedup`), with lemmas relating an order to its catalog.
- `preferences.dfy` (module `Preferences`): the preference store, a class
  `Prefs` over a string-keyed map of string lists and string sets, standing in
  for the tests' `MockProfilePrefs`.
- `registry.dfy` (module `Registry`): the class `SearchEngines` with its
  object invariant `Valid()`, the functions that load an order and a disabled
  set from the store, and the persistence round-trip lemmas.
- `scenarios.dfy` (module `RegistryScenarios`): clients that replay the tests
  of the test file from `testDefaultEngineOnStartup` on, step by step,
  asserting what each test asserts, for every catalog with enough engines
  instead of the shipped one. The first test, `testIncludesExpectedEngines`,
  is the lemma `Registry.IncludesExpectedEngines`, stated for every catalog
  that includes the expected names.

An engine is represented by its `shortName`, the registry's only identity key.
The catalog of shipped engines and the configured default
(`DefaultSearchEngineName`) are parameters of the constructor; the constructor
requires the catalog's names to be distinct and to include the default.

`Valid()` says: the order is a permutation of the catalog; its first engine,
the default, is not disabled; only catalog engines are disabled; and loading
the store gives exactly this order and this disabled set. Every mutating
method keeps `Valid()`, which is what makes a second registry over the same
store agree with the first.

Choices this model makes, and where the tests fix them:

- Assigning a new order does not demand a full permutation. The test at
  `ClientTests/SearchEnginesTests.swift:58` assigns three engines to a catalog
  of at least seven and reads them back first. A new order is rejected
  (`InvalidOrder`) only if it repeats a name or names an unknown engine; the
  engines it leaves out follow it in their current relative order. A full
  permutation is kept exactly (`EngineOrder.Complete`).
- The new first engine of an assigned order is enabled, as the test at
  `:93-96` expects of a changed default.
- Disabling the default engine is a no-op, not an error (`:75-78`).
- Operations naming an engine outside the catalog fail with `UnknownEngine`
  and change nothing; `IsEngineEnabled` is false for such a name.
- The loaded order drops unknown and repeated names from the persisted list
  and appends the catalog engines it does not mention in catalog order;
  without a persisted list it is the catalog with the default moved first.
  The loaded disabled set keeps only catalog names and never the loaded
  default.

## Model

| member | source | states |
|---|---|---|
| `Registry.SearchEngines.constructor` | ClientTests/SearchEnginesTests.swift:21-27 | a new registry over a store holds exactly the order and disabled set loaded from it, and satisfies the registry invariant |
| `Registry.LoadOrder` | ClientTests/SearchEnginesTests.swift:21-26 | the loaded order is a permutation of the catalog; with nothing persisted the configured default is first and the other engines keep catalog order; with a persisted list, the list without unknown names and with each name at its first occurrence is the head of the order, and the catalog engines it does not mention follow in catalog order; a persisted valid list is kept as the prefix of the order |
| `Registry.LoadDisabled` | ClientTests/SearchEnginesTests.swift:103-106 | with a persisted set, an engine is disabled exactly when it is in that set, in the catalog and not the default; the set is empty when nothing was persisted |
| `Registry.SaveThenLoad` | ClientTests/SearchEnginesTests.swift:46-50 | persistence round trip: a valid order and disabled set written to the store are exactly what loading the store gives back |
| `Registry.SaveDisabledThenLoad` | ClientTests/SearchEnginesTests.swift:98-106 | writing only the disabled set keeps the loaded order and loads the new disabled set |
| `Registry.IncludesExpectedEngines` | ClientTests/SearchEnginesTests.swift:11-18 | when the catalog includes the seven expected names, every order of it is at least seven long and contains each expected name |
| `Registry.SearchEngines.DefaultEngine` | ClientTests/SearchEnginesTests.swift:25-26 | the default engine is the first of the order, is a catalog engine and is enabled |
| `Registry.SearchEngines.IsEngineDefault` | ClientTests/SearchEnginesTests.swift:35-36 | an engine is default exactly when it is the default engine, and a default engine is enabled |
| `Registry.SearchEngines.IsEngineEnabled` | ClientTests/SearchEnginesTests.swift:78-86 | an engine is enabled exactly when it is in the catalog and not disabled |
| `Registry.SearchEngines.EnabledEngines` | ClientTests/SearchEnginesTests.swift:83-87 | the enabled list holds each enabled engine exactly once and no other, in the current order (the order with the disabled engines dropped) |
| `Registry.SearchEngines.SetDefaultEngine` | ClientTests/SearchEnginesTests.swift:34-44 | a catalog engine is moved first with the others keeping their order, is enabled, and both are written to the store; an unknown engine fails with nothing changed; the invariant is kept |
| `Registry.SearchEngines.SetOrderedEngines` | ClientTests/SearchEnginesTests.swift:58-61 | a list of distinct catalog engines becomes the head of the order, the rest following in their current order; the new first engine is enabled; both are written to the store; any other list fails with nothing changed |
| `Registry.SearchEngines.EnableEngine` | ClientTests/SearchEnginesTests.swift:81-82 | a catalog engine leaves the disabled set, which is written to the store; the order is unchanged; an unknown engine fails with nothing changed |
| `Registry.SearchEngines.DisableEngine` | ClientTests/SearchEnginesTests.swift:75-78 | a non-default catalog engine joins the disabled set, which is written to the store; for the default engine nothing changes; an unknown engine fails with nothing changed |
| `Registry.EnabledOccurrences` | ClientTests/SearchEnginesTests.swift:83-87 | in an order of the catalog with the disabled engines dropped, each enabled catalog engine occurs exactly once and no other name occurs |
| `EngineOrder.MoveToFront` | ClientTests/SearchEnginesTests.swift:37-44 | the engine is first, the other engines keep their relative order, and the result is a permutation of the input |
| `EngineOrder.Complete` | ClientTests/SearchEnginesTests.swift:58-67 | the given list is the head of the result; a list of distinct known names completes to a permutation of the universe; a list that already is one is returned unchanged; the names the list leaves out follow it in their universe order |
| `EngineOrder.Dedup` | ClientTests/SearchEnginesTests.swift:63-67 | the result has the same names as the input, none twice, and is the input itself when the input has no repeats (the order of first occurrences is stated by `EngineOrder.DedupSnoc`) |
| `EngineOrder.DropConcat` | ClientTests/SearchEnginesTests.swift:58-67 | dropping names from a concatenation drops them from each part |
| `EngineOrder.DropAll` | ClientTests/SearchEnginesTests.swift:58-67 | dropping all the names of a list leaves nothing |
| `EngineOrder.KeepNone` | ClientTests/SearchEnginesTests.swift:63-67 | keeping none of the names of a list leaves nothing |
| `EngineOrder.KeepConcat` | ClientTests/SearchEnginesTests.swift:63-67 | keeping names of a concatenation keeps them from each part |
| `EngineOrder.DropAgreeing` | ClientTests/SearchEnginesTests.swift:63-67 | two sets that agree on the names of a list drop the same names from it |
| `EngineOrder.DropDrop` | ClientTests/SearchEnginesTests.swift:63-67 | dropping one set and then another drops their union |
| `EngineOrder.DedupSnoc` | ClientTests/SearchEnginesTests.swift:63-67 | appending a name adds it to the deduplicated list exactly when it is new, so names keep the order of their first occurrence |
| `Registry.PersistedOrderKept` | ClientTests/SearchEnginesTests.swift:63-67 | completing the known, deduplicated persisted list keeps that list as the names it mentions and the catalog order for the rest |
| `EngineOrder.DistinctSubsetLength` | ClientTests/SearchEnginesTests.swift:14 | a list without repeats is no longer than any list containing all its names |
| `EngineOrder.OrderLength` | ClientTests/SearchEnginesTests.swift:14 | every order of a catalog has the catalog's length |
| `EngineOrder.DistinctOccurrences` | ClientTests/SearchEnginesTests.swift:83-87 | in a list without repeats a name occurs once if present and not at all otherwise |
| `Preferences.StringListAt` | ClientTests/SearchEnginesTests.swift:63-67 | the list read back under a key is the string list stored there, and nothing when the key holds none |
| `Preferences.StringSetAt` | ClientTests/SearchEnginesTests.swift:103-106 | the set read back under a key is the string set stored there, and nothing when the key holds none |
| `Preferences.Prefs.constructor` | ClientTests/SearchEnginesTests.swift:23 | a fresh store holds no keys |
| `Preferences.Prefs.SetStringList` | ClientTests/SearchEnginesTests.swift:46 | storing a list changes that key only, and reading it back gives the list |
| `Preferences.Prefs.SetStringSet` | ClientTests/SearchEnginesTests.swift:103 | storing a set changes that key only, and reading it back gives the set |
| `RegistryScenarios.DefaultEngineOnStartup` | ClientTests/SearchEnginesTests.swift:21-27 | on a first run the configured default is the default engine and is first |
| `RegistryScenarios.DefaultEngineIsPersisted` | ClientTests/SearchEnginesTests.swift:29-51 | after setting the first and then the second engine as default, each is default in turn and first, the other is not, and a second registry over the store has the second as default |
| `RegistryScenarios.MakeDefault` | ClientTests/SearchEnginesTests.swift:34-44 | setting an engine as default makes it the default and first, and another engine not the default |
| `RegistryScenarios.OrderIsPersisted` | ClientTests/SearchEnginesTests.swift:53-68 | after reversing the first three engines the registry reports them first in that order, and so does a second registry over the store |
| `RegistryScenarios.EnabledEnginesArePersisted` | ClientTests/SearchEnginesTests.swift:70-107 | the whole enable/disable test: a second registry sees the third engine and the first enabled and the second disabled |
| `RegistryScenarios.EnableAndDisable` | ClientTests/SearchEnginesTests.swift:75-91 | the default cannot be disabled; enabling and disabling another engine shows in `IsEngineEnabled` and in the enabled list (once, then not at all); making it default enables it |
| `RegistryScenarios.ReorderEnablesFirst` | ClientTests/SearchEnginesTests.swift:93-96 | putting an engine first by reordering makes it the default, and it is enabled |
| `RegistryScenarios.EnabledStateSurvives` | ClientTests/SearchEnginesTests.swift:98-106 | enable and disable calls on one registry are what a second registry over the same store loads |

## Left out

- Loading and parsing the engine definitions (OpenSearch description files) and the contents of the shipped catalog: the catalog is a constructor parameter, a list of distinct short names.
- Engine records beyond their short name: icons, search and suggestion URL construction.
- The concrete preference implementation (`MockProfilePrefs`, profile preferences): modelled as an in-memory string-keyed map; the store is trusted, so store failures are not modelled, and the key names are the model's own.
- Concurrent use of one registry, and two registries over one store that both mutate it: each registry's invariant reads the store, so a write by one registry is not reflected in the other's in-memory state.
- Unicode equivalence of short names: they are compared character by character, while Swift's `String ==` also treats canonically equivalent Unicode spellings as equal, so two such spellings are one engine in the source and two engines here.
- The XCTest harness and any settings-screen or other UI code.
- `Registry.IncludesExpectedEngines`: states the catalog property for any catalog that includes the expected names, because the shipped catalog is not part of this model.
