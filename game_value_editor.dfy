/** The game value editor view: a registry of named values kept in memory
    and mirrored whole into the browser store under one key, with input
    fields for a name and a new value and a status message. */
module GameValueEditor {
  import opened Types
  import opened Registry

  /** The store key the registry is persisted under. */
  const StorageKey: string := "gameValues"

  /** The status line, by kind and with the values it shows. */
  datatype Message =
    | NoMessage
    | MissingInput
    | Applied(name: string, value: string)
    | Loaded(name: string, value: string)
    | NotFound(name: string)
    | Deleted(name: string)
    | AllDeleted

  /** The registry a mount of the view reads back from `store`: the stored
      list when the key is present, otherwise the empty list. */
  function Restore(store: map<string, seq<GameValue>>): seq<GameValue>
  {
    if StorageKey in store then store[StorageKey] else []
  }

  class EditorView {
    var valueName: string
    var currentValue: string
    var newValue: string
    var savedValues: seq<GameValue>
    var message: Message
    /** The browser-local store, as far as this view uses it. */
    var store: map<string, seq<GameValue>>

    /** The store holds exactly the registry on screen, so a remount would
        show the same list. */
    ghost predicate Synced()
      reads this
    {
      Restore(store) == savedValues
    }

    /** Mount: the inputs start empty and the registry is read from the store. */
    constructor (initialStore: map<string, seq<GameValue>>)
      ensures store == initialStore && savedValues == Restore(initialStore)
      ensures valueName == "" && currentValue == "" && newValue == "" && message == NoMessage
      ensures Synced()
    {
      valueName, currentValue, newValue := "", "", "";
      message := NoMessage;
      store := initialStore;
      savedValues := [];
      if StorageKey in initialStore {
        savedValues := initialStore[StorageKey];
      }
    }

    /** Writes the whole list under the registry's key; other keys are untouched. */
    method SaveValues(values: seq<GameValue>)
      modifies this`store
      ensures store == old(store)[StorageKey := values]
      ensures Restore(store) == values
    {
      store := store[StorageKey := values];
    }

    /** Typing in the name field clears the message. */
    method SetValueName(name: string)
      modifies this`valueName, this`message
      ensures valueName == name && message == NoMessage
    {
      valueName := name;
      message := NoMessage;
    }

    /** Typing in the new-value field clears the message. */
    method SetNewValue(value: string)
      modifies this`newValue, this`message
      ensures newValue == value && message == NoMessage
    {
      newValue := value;
      message := NoMessage;
    }

    /** Apply: with both inputs non-empty, upserts (name, new value) into the
        registry, persists it and shows the new value; `id` is the clock
        reading a newly appended record is identified by. With an empty input
        only the message changes. */
    method Apply(id: string)
      modifies this
      ensures valueName == old(valueName) && newValue == old(newValue)
      ensures old(valueName) == "" || old(newValue) == "" ==>
        savedValues == old(savedValues) && store == old(store) &&
        currentValue == old(currentValue) && message == MissingInput
      ensures old(valueName) != "" && old(newValue) != "" ==>
        savedValues == Upsert(old(savedValues), id, valueName, newValue) &&
        store == old(store)[StorageKey := savedValues] &&
        currentValue == newValue && message == Applied(valueName, newValue) &&
        Synced()
      ensures old(Synced()) ==> Synced()
      ensures NamesDistinct(old(savedValues)) ==> NamesDistinct(savedValues)
      ensures IdsDistinct(old(savedValues)) && !HasId(old(savedValues), id) ==> IdsDistinct(savedValues)
    {
      if valueName == "" || newValue == "" {
        message := MissingInput;
        return;
      }
      var updated := SetValue(savedValues, valueName, newValue);
      if !HasName(updated, valueName) {
        updated := updated + [GameValue(id, valueName, newValue)];
      }
      if NamesDistinct(savedValues) {
        UpsertKeepsNamesDistinct(savedValues, id, valueName, newValue);
      }
      if IdsDistinct(savedValues) && !HasId(savedValues, id) {
        UpsertKeepsIdsDistinct(savedValues, id, valueName, newValue);
      }
      savedValues := updated;
      SaveValues(updated);
      message := Applied(valueName, newValue);
      currentValue := newValue;
    }

    /** Load: shows the value of the first record named like the name field
        in both value fields, or clears them when there is none. Neither the
        registry nor the store changes. */
    method Load()
      modifies this`currentValue, this`newValue, this`message
      ensures HasName(savedValues, valueName) ==>
        exists i :: FirstNamed(savedValues, valueName, i) &&
          currentValue == savedValues[i].value && newValue == savedValues[i].value &&
          message == Loaded(valueName, savedValues[i].value)
      ensures !HasName(savedValues, valueName) ==>
        currentValue == "" && newValue == "" && message == NotFound(valueName)
    {
      var found := FindByName(savedValues, valueName);
      match found
      case Some(v) =>
        currentValue := v.value;
        newValue := v.value;
        message := Loaded(valueName, v.value);
      case None =>
        currentValue := "";
        newValue := "";
        message := NotFound(valueName);
    }

    /** Clear all: empties the registry and removes its key from the store. */
    method ClearAll()
      modifies this`savedValues, this`store, this`message
      ensures savedValues == [] && store == old(store) - {StorageKey}
      ensures StorageKey !in store && Synced()
      ensures message == AllDeleted
    {
      savedValues := [];
      store := store - {StorageKey};
      message := AllDeleted;
    }

    /** The delete button of the `k`-th listed record: drops every record with
        that record's id, persists the rest and names the deleted record. */
    method DeleteRow(k: nat)
      requires k < |savedValues|
      modifies this`savedValues, this`store, this`message
      ensures savedValues == RemoveById(old(savedValues), old(savedValues)[k].id)
      ensures store == old(store)[StorageKey := savedValues] && Synced()
      ensures message == Deleted(old(savedValues)[k].name)
      ensures IdsDistinct(old(savedValues)) ==>
        savedValues == old(savedValues)[..k] + old(savedValues)[k + 1..]
      ensures NamesDistinct(old(savedValues)) ==> NamesDistinct(savedValues)
    {
      var row := savedValues[k];
      if IdsDistinct(savedValues) {
        RemoveByIdAt(savedValues, k);
      }
      if NamesDistinct(savedValues) {
        RemoveByIdKeepsNamesDistinct(savedValues, row.id);
      }
      var filtered := RemoveById(savedValues, row.id);
      savedValues := filtered;
      SaveValues(filtered);
      message := Deleted(row.name);
    }
  }

  /** Mount on `initialStore`, type a name and a value, press Apply, then
      mount the view again on the store left behind: the remount shows the
      registry with the upsert applied, or the old one when an input was empty. */
  method ApplyThenRemount(initialStore: map<string, seq<GameValue>>, name: string, value: string, id: string)
    returns (reloaded: seq<GameValue>)
    ensures name != "" && value != "" ==> reloaded == Upsert(Restore(initialStore), id, name, value)
    ensures name == "" || value == "" ==> reloaded == Restore(initialStore)
  {
    var view := new EditorView(initialStore);
    view.SetValueName(name);
    view.SetNewValue(value);
    view.Apply(id);
    var again := new EditorView(view.store);
    reloaded := again.savedValues;
  }

  /** Clear all, then mount again: the remounted registry is empty. */
  method ClearThenRemount(initialStore: map<string, seq<GameValue>>) returns (reloaded: seq<GameValue>)
    ensures reloaded == []
  {
    var view := new EditorView(initialStore);
    view.ClearAll();
    var again := new EditorView(view.store);
    reloaded := again.savedValues;
  }

  /** Delete the `k`-th listed record, then mount again: with distinct ids
      the remount shows every other record, in order, and one fewer. */
  method DeleteThenRemount(initialStore: map<string, seq<GameValue>>, k: nat) returns (reloaded: seq<GameValue>)
    requires k < |Restore(initialStore)|
    ensures reloaded == RemoveById(Restore(initialStore), Restore(initialStore)[k].id)
    ensures IdsDistinct(Restore(initialStore)) ==> |reloaded| == |Restore(initialStore)| - 1
  {
    var view := new EditorView(initialStore);
    view.DeleteRow(k);
    var again := new EditorView(view.store);
    reloaded := again.savedValues;
  }
}
