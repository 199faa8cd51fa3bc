/** The currency generator view: a newest-first log of simulated grants
    kept in memory and mirrored whole into the browser store under one key,
    with a game selector, a user id field, an amount field and a status
    message. */
module CurrencyGenerator {
  import opened Types

  /** The store key the log is persisted under. */
  const StorageKey: string := "generatedCurrencyHistory"

  /** The status line, by kind and with the values it shows. */
  datatype Message =
    | NoMessage
    | InvalidInput
    | Generated(amount: int, unit: string, userId: string)
    | HistoryCleared

  /** The currency unit shown for a game: Robux for Roblox, Diamantes otherwise. */
  function UnitName(game: Game): (unit: string)
    ensures unit == "Robux" <==> game == Roblox
    ensures unit == "Diamantes" <==> game == FreeFire
  {
    match game
    case Roblox => "Robux"
    case FreeFire => "Diamantes"
  }

  /** The amount field's value after an edit: the parsed integer, or 0 when
      the text does not parse (`parsed` is None). */
  function NormaliseAmount(parsed: Option<int>): (amount: int)
    ensures parsed.None? ==> amount == 0
    ensures amount > 0 <==> parsed.Some? && parsed.value > 0
    ensures parsed.Some? ==> amount == parsed.value
  {
    match parsed
    case None => 0
    case Some(n) => n
  }

  /** Generate accepts these inputs: a non-empty user id and a positive amount. */
  predicate Accepts(userId: string, amount: int)
  {
    userId != "" && amount > 0
  }

  /** Every logged grant passed the generate check. */
  ghost predicate AllAccepted(history: seq<GeneratedCurrency>)
  {
    forall i :: 0 <= i < |history| ==> Accepts(history[i].userId, history[i].amount)
  }

  /** The log a mount of the view reads back from `store`: the stored list
      when the key is present, otherwise the empty list. */
  function Restore(store: map<string, seq<GeneratedCurrency>>): seq<GeneratedCurrency>
  {
    if StorageKey in store then store[StorageKey] else []
  }

  class GeneratorView {
    var game: Game
    var userId: string
    var amount: int
    var message: Message
    var history: seq<GeneratedCurrency>
    /** The browser-local store, as far as this view uses it. */
    var store: map<string, seq<GeneratedCurrency>>

    /** The store holds exactly the log on screen, so a remount would show
        the same list. */
    ghost predicate Synced()
      reads this
    {
      Restore(store) == history
    }

    /** Mount: Roblox selected, empty inputs, the log read from the store. */
    constructor (initialStore: map<string, seq<GeneratedCurrency>>)
      ensures store == initialStore && history == Restore(initialStore)
      ensures game == Roblox && userId == "" && amount == 0 && message == NoMessage
      ensures Synced()
    {
      game, userId, amount, message := Roblox, "", 0, NoMessage;
      store := initialStore;
      history := [];
      if StorageKey in initialStore {
        history := initialStore[StorageKey];
      }
    }

    /** Writes the whole log under its key; other keys are untouched. */
    method SaveHistory(newHistory: seq<GeneratedCurrency>)
      modifies this`store
      ensures store == old(store)[StorageKey := newHistory]
      ensures Restore(store) == newHistory
    {
      store := store[StorageKey := newHistory];
    }

    /** Either game button: selects the game and clears the message; the
        inputs and the log are untouched. */
    method SelectGame(g: Game)
      modifies this`game, this`message
      ensures game == g && message == NoMessage
    {
      game := g;
      message := NoMessage;
    }

    /** Typing in the user id field clears the message. */
    method SetUserId(id: string)
      modifies this`userId, this`message
      ensures userId == id && message == NoMessage
    {
      userId := id;
      message := NoMessage;
    }

    /** Editing the amount field: `parsed` is the base-10 parse of the text,
        None when it is not a number. Clears the message. */
    method SetAmount(parsed: Option<int>)
      modifies this`amount, this`message
      ensures amount == NormaliseAmount(parsed) && message == NoMessage
    {
      amount := NormaliseAmount(parsed);
      message := NoMessage;
    }

    /** Generate: with a non-empty user id and a positive amount, prepends one
        grant stamped `timestamp`, persists the log, reports the grant and
        resets both inputs. Otherwise only the message changes. */
    method Generate(timestamp: string)
      modifies this`history, this`store, this`message, this`userId, this`amount
      ensures !Accepts(old(userId), old(amount)) ==>
        history == old(history) && store == old(store) &&
        userId == old(userId) && amount == old(amount) && message == InvalidInput
      ensures Accepts(old(userId), old(amount)) ==>
        history == [GeneratedCurrency(game, old(userId), old(amount), timestamp)] + old(history) &&
        store == old(store)[StorageKey := history] && Synced() &&
        message == Generated(old(amount), UnitName(game), old(userId)) &&
        userId == "" && amount == 0
      ensures old(Synced()) ==> Synced()
      ensures AllAccepted(old(history)) ==> AllAccepted(history)
    {
      if userId == "" || amount <= 0 {
        message := InvalidInput;
        return;
      }
      var entry := GeneratedCurrency(game, userId, amount, timestamp);
      var updated := [entry] + history;
      history := updated;
      SaveHistory(updated);
      message := Generated(amount, UnitName(game), userId);
      userId := "";
      amount := 0;
    }

    /** Clear history: empties the log and removes its key from the store. */
    method ClearHistory()
      modifies this`history, this`store, this`message
      ensures history == [] && store == old(store) - {StorageKey}
      ensures StorageKey !in store && Synced()
      ensures message == HistoryCleared
    {
      history := [];
      store := store - {StorageKey};
      message := HistoryCleared;
    }
  }

  /** The user selects the grant's game, types its user id and amount and
      presses generate: the grant is logged first and the view stays synced. */
  method EnterGrant(view: GeneratorView, entry: GeneratedCurrency)
    requires Accepts(entry.userId, entry.amount) && view.Synced()
    modifies view
    ensures view.history == [entry] + old(view.history)
    ensures view.Synced()
  {
    view.SelectGame(entry.game);
    view.SetUserId(entry.userId);
    view.SetAmount(Some(entry.amount));
    view.Generate(entry.timestamp);
  }

  /** Two grants entered one after the other, then a remount: the later grant
      is listed first, the earlier one second, then the log that was stored
      before, and the remount shows the same log. */
  method GenerateTwice(initialStore: map<string, seq<GeneratedCurrency>>,
                       first: GeneratedCurrency, second: GeneratedCurrency)
    returns (shown: seq<GeneratedCurrency>, reloaded: seq<GeneratedCurrency>)
    requires Accepts(first.userId, first.amount) && Accepts(second.userId, second.amount)
    ensures shown == [second, first] + Restore(initialStore)
    ensures shown[0] == second && shown[1] == first
    ensures reloaded == shown
  {
    var view := new GeneratorView(initialStore);
    EnterGrant(view, first);
    EnterGrant(view, second);
    shown := view.history;
    var again := new GeneratorView(view.store);
    reloaded := again.history;
  }

  /** Clear history, then mount again: the remounted log is empty. */
  method ClearHistoryThenRemount(initialStore: map<string, seq<GeneratedCurrency>>) returns (reloaded: seq<GeneratedCurrency>)
    ensures reloaded == []
  {
    var view := new GeneratorView(initialStore);
    view.ClearHistory();
    var again := new GeneratorView(view.store);
    reloaded := again.history;
  }
}
