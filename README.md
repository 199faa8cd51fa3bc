# Game utility simulator: the two record views, in Dafny

The repository is a browser demo with two form-driven views. Each view keeps one
list of records in memory and writes the whole list to the browser's local
key-value store after every change.

- The **game value editor** keeps a registry of `{id, name, value}` records under the
  store key `gameValues`. It has these operations:
  - apply: upsert by name;
  - load: show the first record with a name;
  - delete: drop one listed record;
  - clear all.
- The **currency generator** keeps a newest-first log of `{game, userId, amount, timestamp}`
  grants under the store key `generatedCurrencyHistory`. It has these operations:
  - select a game;
  - edit the user id and the amount;
  - generate: validate, prepend a grant and reset the inputs;
  - clear history.

The model has four files:

- `types.dfy` (module `Types`) holds the record shapes and an `Option`.
- `registry.dfy` (module `Registry`) holds the editor's list transforms as functions, with lemmas about them. These are the rewrite-by-name `map`, the `some` and `find` lookups by name, and the delete-by-id `filter`. `Upsert` is the registry that a valid apply produces.
- `game_value_editor.dfy` (module `GameValueEditor`) holds the view as the class `EditorView`. Its fields are the view's state variables, plus a `store` map that stands in for local storage.
- `currency_generator.dfy` (module `CurrencyGenerator`) holds the view as the class `GeneratorView`, together with the unit-name and amount-normalisation functions.

Every handler is a method that states the view's whole new state.

Each class has a predicate `Synced()`: a fresh mount of the view would read back exactly the list on screen. The constructor (the mount-time load) establishes it, and every handler preserves it. This is the round-trip property "persisted copy equals in-memory copy". The module-level scenario methods build a view on a given store, run a handler sequence and mount again on the store left behind. They state what the remount shows.

Three behaviours of the code shape the contracts:

- `JSON.parse` at components/GameValueEditor.tsx:17 and components/CurrencyGenerator.tsx:17 throws on a stored value that is not valid JSON, and nothing recovers. The model treats the stored value as the list itself (see Left out).
- Nothing enforces unique names on loaded data. Apply (components/GameValueEditor.tsx:31-33) rewrites every record with the name, and load (:46) takes the first one. The model therefore proves that distinct names are preserved (`Apply`, `DeleteRow`) and does not assume them.
- Delete (components/GameValueEditor.tsx:162) drops every record with the id, so the length falls by exactly one only when ids are distinct. `RemoveByIdAt` proves the length claim under that condition.

## Model

| member | source | states |
|---|---|---|
| `Registry.SetValue` | components/GameValueEditor.tsx:31-33 | Length, ids, names and order are kept; every record with the name gets the new value and every other record keeps its value. |
| `Registry.Upsert` | components/GameValueEditor.tsx:31-37 | Uses `HasName`, the `some` at :35 (some record carries the name). If the name is present: same length, same ids, names and order, and the matching records carry the new value. If absent: exactly the old registry followed by one record `{id, name, value}`. |
| `Registry.FindByName` | components/GameValueEditor.tsx:46 | Returns None exactly when no record has the name; otherwise returns the record at the first index holding that name. |
| `Registry.RemoveById` | components/GameValueEditor.tsx:162 | Deleting never lengthens the registry. |
| `Registry.RemoveByIdMembers` | components/GameValueEditor.tsx:162 | A record survives deletion exactly when it was in the registry and its id differs from the deleted id. |
| `Registry.RemoveByIdConcat` | components/GameValueEditor.tsx:162 | Deleting distributes over concatenation, so survivors keep their relative order. |
| `Registry.RemoveByIdAbsent` | components/GameValueEditor.tsx:162 | Deleting an id no record carries leaves the registry unchanged. |
| `Registry.RemoveByIdAt` | components/GameValueEditor.tsx:161-165 | With distinct ids, deleting the id of record k yields the registry without position k, with the rest in order, and the length drops by exactly one. |
| `Registry.UpsertIdempotent` | components/GameValueEditor.tsx:31-37 | Applying the same name and value twice gives the registry one apply gives, whatever id the second apply receives. |
| `Registry.FindAfterUpsert` | components/GameValueEditor.tsx:31-49 | After an apply, finding the name yields a record with that name and the applied value. |
| `Registry.UpsertKeepsNamesDistinct` | components/GameValueEditor.tsx:31-37 | If names are pairwise distinct before an apply, they are pairwise distinct after it. |
| `Registry.UpsertKeepsIdsDistinct` | components/GameValueEditor.tsx:35-37 | If ids are pairwise distinct and the new id is unused, ids stay pairwise distinct after an apply. |
| `Registry.RemoveUndoesAppend` | components/GameValueEditor.tsx:36 | Deleting the record an apply has just appended, with a fresh id and a new name, restores the previous registry. |
| `Registry.RemoveByIdKeepsNamesDistinct` | components/GameValueEditor.tsx:162 | Deleting keeps names pairwise distinct. |
| `GameValueEditor.EditorView.constructor` | components/GameValueEditor.tsx:14-19 | On mount the inputs are empty, there is no message, and the registry is `GameValueEditor.Restore` of the store: the stored list, or empty when the key is absent (the `if (storedValues)` default). The view therefore starts synced. |
| `GameValueEditor.EditorView.SaveValues` | components/GameValueEditor.tsx:21-23 | Only the `gameValues` key is written; it then holds the given list. |
| `GameValueEditor.EditorView.SetValueName` | components/GameValueEditor.tsx:82-85 | The name field takes the typed text and the message is cleared. |
| `GameValueEditor.EditorView.SetNewValue` | components/GameValueEditor.tsx:113-116 | The new-value field takes the typed text and the message is cleared. |
| `GameValueEditor.EditorView.Apply` | components/GameValueEditor.tsx:25-43 | An empty name or value changes only the message. Otherwise: the registry becomes `Upsert` of the old one, the store holds it under `gameValues`, the current value equals the new value and the message names both. Sync, distinct names and (with an unused id) distinct ids are preserved. |
| `GameValueEditor.EditorView.Load` | components/GameValueEditor.tsx:45-56 | The registry, store and name are untouched. Both value fields get the value of the first record with the name, or become empty with a not-found message. |
| `GameValueEditor.EditorView.ClearAll` | components/GameValueEditor.tsx:58-61 | The registry is empty and `gameValues` is removed from the store; all other keys stay. |
| `GameValueEditor.EditorView.DeleteRow` | components/GameValueEditor.tsx:161-166 | The registry loses every record with the listed record's id, the store holds the remainder, and the message names the deleted record. With distinct ids exactly that row goes; distinct names are preserved. |
| `GameValueEditor.ApplyThenRemount` | components/GameValueEditor.tsx:14-43 | A remount after an apply shows `Upsert` of the stored registry, or the stored registry unchanged when an input was empty. |
| `GameValueEditor.ClearThenRemount` | components/GameValueEditor.tsx:58-61 | A remount after clear all shows an empty registry. |
| `GameValueEditor.DeleteThenRemount` | components/GameValueEditor.tsx:161-165 | A remount after deleting a row shows the filtered registry; with distinct ids it is one record shorter. |
| `CurrencyGenerator.UnitName` | components/CurrencyGenerator.tsx:43 | The unit is Robux exactly when the game is Roblox, and Diamantes exactly when it is Free Fire. |
| `CurrencyGenerator.NormaliseAmount` | components/CurrencyGenerator.tsx:114-115 | Unparsable input gives 0, and any parsed number is kept as it is, negative ones included. The amount is positive exactly when the input parsed to a positive number. |
| `CurrencyGenerator.GeneratorView.constructor` | components/CurrencyGenerator.tsx:14-19 | On mount Roblox is selected, the inputs are empty or 0, there is no message, and the log is `CurrencyGenerator.Restore` of the store: the stored list, or empty when the key is absent (the `if (storedHistory)` default). |
| `CurrencyGenerator.GeneratorView.SaveHistory` | components/CurrencyGenerator.tsx:21-23 | Only the `generatedCurrencyHistory` key is written; it then holds the given list. |
| `CurrencyGenerator.GeneratorView.SelectGame` | components/CurrencyGenerator.tsx:64-80 | The game is set and the message is cleared; the log, store, user id and amount are untouched. |
| `CurrencyGenerator.GeneratorView.SetUserId` | components/CurrencyGenerator.tsx:96-99 | The user id takes the typed text and the message is cleared. |
| `CurrencyGenerator.GeneratorView.SetAmount` | components/CurrencyGenerator.tsx:113-117 | The amount becomes the normalised parse of the typed text and the message is cleared. |
| `CurrencyGenerator.GeneratorView.Generate` | components/CurrencyGenerator.tsx:25-47 | The guard at :26 is `Accepts` (non-empty user id and positive amount). An empty user id or an amount of at most 0 changes only the message. Otherwise the log becomes the new grant followed by the old log, and the store holds it. The message names the amount, unit and user, and the user id and amount are reset to empty and 0. Sync is preserved, and so is "every grant has a user id and a positive amount". |
| `CurrencyGenerator.GeneratorView.ClearHistory` | components/CurrencyGenerator.tsx:156-159 | The log is empty and `generatedCurrencyHistory` is removed from the store; all other keys stay. |
| `CurrencyGenerator.EnterGrant` | components/CurrencyGenerator.tsx:25-47 | Selecting a grant's game, typing its accepted user id and amount and pressing generate puts that grant first in the log and keeps the view synced. |
| `CurrencyGenerator.GenerateTwice` | components/CurrencyGenerator.tsx:31-40 | After two accepted grants the later one is at index 0 and the earlier one at index 1, followed by the stored log; a remount shows the same log. |
| `CurrencyGenerator.ClearHistoryThenRemount` | components/CurrencyGenerator.tsx:156-159 | A remount after clearing the history shows an empty log. |

## Left out

- Rendering is not modelled: the JSX, the CSS classes and the Spanish message texts. A message is modelled as its kind plus the values it shows.
- `App.tsx`, the two-valued view switch, is not modelled. It only assigns a field. Switching views unmounts one view and mounts the other; the scenario methods model such a remount as a fresh constructor on the same store.
- Real local storage is not modelled. Each view has its own `store` map and touches only its own key. In the browser both views share one store, but their keys are disjoint, and every write in the model leaves the other keys as they were. Quota and availability errors are not modelled; the code does not handle them.
- `JSON.stringify` and `JSON.parse` are the identity in the model: the stored value is the list itself. Stored text that is not valid JSON makes the mount-time `JSON.parse` throw, and that failure is not modelled.
- Clock readings are parameters. The `Date.now()` id passed to `Apply` and the `toLocaleString()` timestamp passed to `Generate` are supplied by the caller. Nothing assumes the id is unused; the lemmas about distinct ids take that as a hypothesis.
- `parseInt` string parsing is not modelled. Its result is an `Option<int>`, where None stands for `NaN`. Amounts are unbounded integers, not JavaScript doubles.
- The React lifecycle is not modelled. The constructor is the state after the mount-time effect has run; the empty first render before it is not modelled.
- Display-only guards are not modelled. The amount field shows blank for 0. The clear-history button is only rendered while the log is non-empty, but `ClearHistory` is callable in any state.
- `Registry.RemoveById`: its own contract states only that the registry does not grow. What it keeps, and in which order, is stated by the lemmas `RemoveByIdMembers`, `RemoveByIdConcat`, `RemoveByIdAbsent` and `RemoveByIdAt`.
