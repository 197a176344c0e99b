/**
 * The history store of russ5/HistoryDatabase.swift: a newest-first log of
 * visits, capped at `Capacity` entries and kept under one key of a shared
 * key-value suite. The suite and its JSON coding are abstracted to the slot
 * the key holds; calls are taken one at a time (the source's
 * read-modify-write has no lock).
 */
module HistoryStore {
  import opened Wrappers
  import opened Text
  import opened WebHistory

  /** The number of entries kept after an add. */
  const Capacity: nat := 100

  /** What the suite holds under the key "webHistory", as `getHistory` sees it. */
  datatype Slot = Absent | Valid(log: seq<WebHistoryItem>) | Undecodable

  /** The log after one add: the new item on top, then the old log, cut to `Capacity`. */
  function Pushed(log: seq<WebHistoryItem>, item: WebHistoryItem): (r: seq<WebHistoryItem>)
    ensures |r| == if |log| < Capacity then |log| + 1 else Capacity
    ensures r[0] == item
    ensures r[1..] == log[..|r| - 1]
  {
    Prefix([item] + log, Capacity)
  }

  /** `s` in the opposite order. */
  function Reversed<T>(s: seq<T>): (r: seq<T>)
    ensures |r| == |s|
    ensures forall i :: 0 <= i < |s| ==> r[i] == s[|s| - 1 - i]
  {
    if s == [] then [] else [s[|s| - 1]] + Reversed(s[..|s| - 1])
  }

  /** The log after adding `visits` one by one, oldest visit first, on top of `log`. */
  function Replay(log: seq<WebHistoryItem>, visits: seq<WebHistoryItem>): seq<WebHistoryItem>
  {
    if visits == [] then log
    else Pushed(Replay(log, visits[..|visits| - 1]), visits[|visits| - 1])
  }

  /** Cutting before putting one item on top changes nothing once the result is cut again. */
  lemma PrefixOfCons(x: WebHistoryItem, s: seq<WebHistoryItem>)
    ensures Prefix([x] + Prefix(s, Capacity - 1), Capacity) == Prefix([x] + s, Capacity)
  {
  }

  /**
   * Any non-empty run of adds leaves the visits newest first, followed by the
   * log that was there before, everything past `Capacity` dropped from the tail.
   */
  lemma {:induction false} ReplayNewestFirst(log: seq<WebHistoryItem>, visits: seq<WebHistoryItem>)
    requires visits != []
    ensures Replay(log, visits) == Prefix(Reversed(visits) + log, Capacity)
  {
    var init, last := visits[..|visits| - 1], visits[|visits| - 1];
    if init == [] {
      assert Reversed(visits) == [last];
    } else {
      ReplayNewestFirst(log, init);
      var older := Reversed(init) + log;
      calc {
        Replay(log, visits);
        Pushed(Prefix(older, Capacity), last);
        Prefix([last] + Prefix(older, Capacity), Capacity);
        { PrefixOfCons(last, older); }
        Prefix([last] + older, Capacity);
        { assert Reversed(visits) == [last] + Reversed(init); }
        Prefix(Reversed(visits) + log, Capacity);
      }
    }
  }

  /**
   * Starting from an empty log, after `n` adds the log holds the last
   * `min(n, Capacity)` of them, newest first: none is lost and the later of
   * any two comes first.
   */
  lemma {:induction false} ReplayFromEmpty(visits: seq<WebHistoryItem>)
    ensures |Replay([], visits)| == Min(|visits|, Capacity)
    ensures forall i :: 0 <= i < |Replay([], visits)| ==>
              Replay([], visits)[i] == visits[|visits| - 1 - i]
  {
    if visits != [] {
      ReplayNewestFirst([], visits);
      assert Reversed(visits) + [] == Reversed(visits);
    }
  }

  /** `HistoryDatabase.shared`: the suite handle and the slot it holds. */
  class HistoryDatabase {
    /** Whether `UserDefaults(suiteName:)` returned a suite. */
    const suiteAvailable: bool
    /** The data stored under the history key. */
    var stored: Slot

    /** The private initializer; what the suite already holds is a parameter. */
    constructor (suiteAvailable: bool, stored: Slot)
      ensures this.suiteAvailable == suiteAvailable && this.stored == stored
    {
      this.suiteAvailable := suiteAvailable;
      this.stored := stored;
    }

    /**
     * The decoded log. A missing suite, an absent key and data that does not
     * decode all read as the empty log.
     */
    function GetHistory(): (history: seq<WebHistoryItem>)
      reads this
      ensures history != [] ==> suiteAvailable && stored == Valid(history)
      ensures suiteAvailable && stored.Valid? ==> history == stored.log
    {
      if !suiteAvailable then []
      else
        match stored
        case Valid(log) => log
        case _ => []
    }

    /**
     * Writes `history` under the key, unless there is no suite or the encoder
     * fails (`encodes` is false).
     */
    method SaveHistory(history: seq<WebHistoryItem>, encodes: bool)
      modifies this
      ensures stored == if suiteAvailable && encodes then Valid(history) else old(stored)
    {
      if !suiteAvailable {
        return;
      }
      if encodes {
        stored := Valid(history);
      }
    }

    /**
     * Records a visit to `url`. `id` and `now` stand for the record's fresh
     * `UUID()` and `Date()`; `encodes` says whether encoding the new log succeeds.
     */
    method AddHistoryItem(url: Url, title: Option<string>, id: Uuid, now: Date, encodes: bool)
      modifies this
      ensures suiteAvailable && encodes ==>
                stored == Valid(Pushed(old(GetHistory()), WebHistoryItem(id, url, title, timestamp := now)))
      ensures !(suiteAvailable && encodes) ==> stored == old(stored)
      ensures suiteAvailable && encodes ==> |GetHistory()| <= Capacity && |GetHistory()| >= 1
      ensures suiteAvailable && encodes && !old(stored).Valid? ==>
                GetHistory() == [WebHistoryItem(id, url, title, timestamp := now)]
    {
      var newItem := WebHistoryItem(id, url, title, timestamp := now);
      var history := GetHistory();
      history := [newItem] + history;
      if |history| > Capacity {
        history := history[..Capacity];
      }
      SaveHistory(history, encodes);
    }

    /** Removes the key, unless there is no suite. */
    method ClearHistory()
      modifies this
      ensures stored == if suiteAvailable then Absent else old(stored)
      ensures GetHistory() == []
    {
      if !suiteAvailable {
        return;
      }
      stored := Absent;
    }
  }

  /** Two visits, a clear, and an add over undecodable data, as a caller sees them. */
  method Scenario(a: WebHistoryItem, b: WebHistoryItem, c: WebHistoryItem)
  {
    var db := new HistoryDatabase(true, Absent);
    db.AddHistoryItem(a.url, a.title, a.id, a.timestamp, true);
    db.AddHistoryItem(b.url, b.title, b.id, b.timestamp, true);
    var first := db.GetHistory();
    var again := db.GetHistory();
    assert first == again;
    assert |first| == 2 && first[0].url == b.url && first[1].url == a.url;
    db.ClearHistory();
    assert db.GetHistory() == [];
    db.ClearHistory();
    assert db.stored == Absent;

    var broken := new HistoryDatabase(true, Undecodable);
    broken.AddHistoryItem(c.url, c.title, c.id, c.timestamp, true);
    assert |broken.GetHistory()| == 1;

    var missing := new HistoryDatabase(false, Valid([a]));
    missing.AddHistoryItem(c.url, c.title, c.id, c.timestamp, true);
    missing.ClearHistory();
    assert missing.stored == Valid([a]) && missing.GetHistory() == [];
  }
}
