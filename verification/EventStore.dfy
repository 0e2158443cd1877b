/**
  The event table: event identity, idempotent inserts where the first write wins, and the
  application of overlapping or repeated windows.
*/
module EventStore {
  import opened Rows
  import opened Marketplace

  // ------------------------------------------------------------- identity

  /** What the event hash is computed from. */
  datatype Id = Id(contractId: string, ledger: nat, txHash: string, index: nat)

  /** A decoded event on its way into the table; `event.subject` is the listing id column. */
  datatype Entry = Entry(id: Id, eventType: string, event: Event)

  // --------------------------------------------------------- unique indexes

  /** Unique index on the event hash, taken as its preimage. */
  predicate SameId(a: Entry, b: Entry) { a.id == b.id }

  /** Unique index on (listingId, eventType, ledgerSequence); rows without a listing id never collide. */
  predicate SameSlot(a: Entry, b: Entry) {
    && a.event.subject.Some? && a.event.subject == b.event.subject
    && a.eventType == b.eventType && a.id.ledger == b.id.ledger
  }

  predicate Conflicts(a: Entry, b: Entry) { SameId(a, b) || SameSlot(a, b) }

  predicate Taken(log: seq<Entry>, e: Entry) {
    exists i :: 0 <= i < |log| && Conflicts(log[i], e)
  }

  ghost predicate Unique(log: seq<Entry>) {
    forall i, j :: 0 <= i < j < |log| ==> !Conflicts(log[i], log[j])
  }

  // ------------------------------------------------------------- upserts

  function Insert(log: seq<Entry>, e: Entry): seq<Entry> {
    if Taken(log, e) then log else log + [e]
  }

  /** The entries of `events` that a batch write into `log` inserts, in order. */
  function Fresh(log: seq<Entry>, events: seq<Entry>): seq<Entry> {
    if |events| == 0 then []
    else
      var added := Fresh(log, events[..|events| - 1]);
      var e := events[|events| - 1];
      if Taken(log + added, e) then added else added + [e]
  }

  class EventTable {
    var log: seq<Entry>

    constructor ()
      ensures log == []
    {
      log := [];
    }

    /** INSERT; a unique violation is a benign replay. */
    method UpsertEvent(e: Entry) returns (inserted: bool)
      modifies this
      ensures log == Insert(old(log), e)
      ensures inserted <==> !Taken(old(log), e)
    {
      inserted := !Taken(log, e);
      if inserted { log := log + [e]; }
    }

    /** The batch write: collects the events that were not replays and counts the others. */
    method UpsertEvents(events: seq<Entry>) returns (newEvents: seq<Entry>, totalSkipped: nat)
      modifies this
      ensures newEvents == Fresh(old(log), events)
      ensures log == old(log) + newEvents
      ensures totalSkipped == |events| - |newEvents|
    {
      newEvents, totalSkipped := [], 0;
      for k := 0 to |events|
        invariant newEvents == Fresh(old(log), events[..k])
        invariant log == old(log) + newEvents
        invariant totalSkipped == k - |newEvents|
      {
        assert events[..k + 1][..k] == events[..k];
        var inserted := UpsertEvent(events[k]);
        if inserted { newEvents := newEvents + [events[k]]; } else { totalSkipped := totalSkipped + 1; }
      }
      assert events[..|events|] == events;
    }
  }

  /** What a batch write guarantees: uniqueness is kept, and every event is stored or conflicts with a stored one. */
  lemma {:induction false} FreshFits(log: seq<Entry>, events: seq<Entry>)
    requires Unique(log)
    ensures Unique(log + Fresh(log, events))
    ensures forall e :: e in Fresh(log, events) ==> e in events
    ensures forall e :: e in events ==> Taken(log + Fresh(log, events), e)
  {
    if |events| > 0 {
      var rest, e := events[..|events| - 1], events[|events| - 1];
      FreshFits(log, rest);
      var before, after := log + Fresh(log, rest), log + Fresh(log, events);
      assert before <= after;
      forall d | Taken(before, d) ensures Taken(after, d) {
        var i :| 0 <= i < |before| && Conflicts(before[i], d);
        assert after[i] == before[i];
      }
      if !Taken(before, e) {
        assert after == before + [e];
        assert after[|before|] == e;
      }
      forall d | d in events ensures Taken(after, d) {
        assert events == rest + [e];
      }
    }
  }

  /** Entries that agree on their identity are the same event. */
  ghost predicate Stable(events: seq<Entry>) {
    forall i, j :: 0 <= i < |events| && 0 <= j < |events| && events[i].id == events[j].id ==> events[i] == events[j]
  }

  /** Any two different events differ in listing, type or ledger, or have no listing. */
  ghost predicate NoClash(events: seq<Entry>) {
    forall i, j :: 0 <= i < |events| && 0 <= j < |events| && events[i].id != events[j].id ==>
                     || events[i].event.subject.None? || events[i].event.subject != events[j].event.subject
                     || events[i].eventType != events[j].eventType || events[i].id.ledger != events[j].id.ledger
  }

  /**
    A batch written to any table is in it completely if and only if no two different events of
    table and batch agree on listing, type and ledger: the table's second unique index silently
    drops the later one.
  */
  lemma {:induction false} CompleteExactly(before: seq<Entry>, events: seq<Entry>)
    requires Unique(before) && Stable(before + events)
    ensures (forall e :: e in events ==> e in before + Fresh(before, events)) <==> NoClash(before + events)
  {
    if forall e :: e in events ==> e in before + Fresh(before, events) { StoredNoClash(before, events); }
    if NoClash(before + events) { NoClashStored(before, events); }
  }

  /**
    Two events with different ids are both stored if one of them has no listing or they differ in
    listing, type or ledger, and only the first of them otherwise.
  */
  lemma {:induction false} BothStoredExactly(a: Entry, b: Entry)
    requires a.id != b.id
    ensures Fresh([], [a, b]) == [a, b] <==>
              a.event.subject.None? || a.event.subject != b.event.subject || a.eventType != b.eventType
              || a.id.ledger != b.id.ledger
    ensures Fresh([], [a, b]) != [a, b] ==> Fresh([], [a, b]) == [a]
  {
    assert [a, b][..1] == [a] && [a][..0] == [];
    assert Fresh([], [a]) == [a];
    assert [] + [a] == [a];
    assert Taken([a], b) <==> Conflicts([a][0], b);
  }

  lemma {:induction false} StoredNoClash(before: seq<Entry>, events: seq<Entry>)
    requires Unique(before) && forall e :: e in events ==> e in before + Fresh(before, events)
    ensures NoClash(before + events)
  {
    var all, log := before + events, before + Fresh(before, events);
    FreshFits(before, events);
    forall i, j | 0 <= i < |all| && 0 <= j < |all| && SameSlot(all[i], all[j]) ensures all[i].id == all[j].id {
      InTable(before, events, log, i);
      InTable(before, events, log, j);
      BothStored(log, all[i], all[j]);
    }
  }

  lemma {:induction false} InTable(before: seq<Entry>, events: seq<Entry>, log: seq<Entry>, i: nat)
    requires before <= log && (forall e :: e in events ==> e in log) && i < |before + events|
    ensures (before + events)[i] in log
  {
    if i < |before| { assert log[i] == before[i]; } else { assert events[i - |before|] in events; }
  }

  lemma {:induction false} NoClashStored(before: seq<Entry>, events: seq<Entry>)
    requires Unique(before) && Stable(before + events) && NoClash(before + events)
    ensures forall e :: e in events ==> e in before + Fresh(before, events)
  {
    var all, log := before + events, before + Fresh(before, events);
    FreshFits(before, events);
    forall e | e in events ensures e in log {
      var k :| 0 <= k < |log| && Conflicts(log[k], e);
      SameStored(before, events, log[k], e);
    }
  }

  /** A stored entry that conflicts with an event of the batch is that event. */
  lemma {:induction false} SameStored(before: seq<Entry>, events: seq<Entry>, d: Entry, e: Entry)
    requires Stable(before + events) && NoClash(before + events)
    requires (d in before || d in events) && e in events && Conflicts(d, e)
    ensures d == e
  {
    var all := before + events;
    var i := PositionIn(before, events, d);
    var j := PositionIn(before, events, e);
    assert SameSlot(all[i], all[j]) ==> all[i].id == all[j].id;
  }

  lemma {:induction false} PositionIn(before: seq<Entry>, events: seq<Entry>, d: Entry) returns (i: nat)
    requires d in before || d in events
    ensures i < |before + events| && (before + events)[i] == d
  {
    if d in before {
      i :| 0 <= i < |before| && before[i] == d;
    } else {
      var k :| 0 <= k < |events| && events[k] == d;
      i := |before| + k;
    }
  }

  lemma {:induction false} BothStored(log: seq<Entry>, a: Entry, b: Entry)
    requires Unique(log) && a in log && b in log && SameSlot(a, b)
    ensures a == b
  {
    var i :| 0 <= i < |log| && log[i] == a;
    var j :| 0 <= j < |log| && log[j] == b;
    assert SameSlot(b, a);
    assert i != j ==> Conflicts(log[i], log[j]) && Conflicts(log[j], log[i]);
  }

  // ------------------------------------- overlapping and repeated windows

  /** The event table together with the projection tables it feeds. */
  datatype Store = Store(log: seq<Entry>, tables: Table)

  function ApplyAll(t: Table, events: seq<Entry>): Table {
    if |events| == 0 then t else ApplyEvent(ApplyAll(t, events[..|events| - 1]), events[|events| - 1].event)
  }

  /** `applyDecodedEvents`: insert the window, then reduce the events that were new. */
  function ApplyWindow(s: Store, window: seq<Entry>): Store {
    var added := Fresh(s.log, window);
    Store(s.log + added, ApplyAll(s.tables, added))
  }

  function ApplyWindows(s: Store, windows: seq<seq<Entry>>): Store {
    if |windows| == 0 then s else ApplyWindow(ApplyWindows(s, windows[..|windows| - 1]), windows[|windows| - 1])
  }

  function Flatten(windows: seq<seq<Entry>>): seq<Entry> {
    if |windows| == 0 then [] else Flatten(windows[..|windows| - 1]) + windows[|windows| - 1]
  }

  lemma {:induction false} FreshAppend(log: seq<Entry>, a: seq<Entry>, b: seq<Entry>)
    ensures Fresh(log, a + b) == Fresh(log, a) + Fresh(log + Fresh(log, a), b)
  {
    if |b| == 0 {
      assert a + b == a;
    } else {
      var rest := b[..|b| - 1];
      assert (a + b)[..|a + b| - 1] == a + rest;
      FreshAppend(log, a, rest);
      assert log + Fresh(log, a) + Fresh(log + Fresh(log, a), rest) == log + Fresh(log, a + rest);
    }
  }

  lemma {:induction false} ApplyAppend(t: Table, a: seq<Entry>, b: seq<Entry>)
    ensures ApplyAll(t, a + b) == ApplyAll(ApplyAll(t, a), b)
  {
    if |b| == 0 {
      assert a + b == a;
    } else {
      var front, e := b[..|b| - 1], b[|b| - 1];
      ApplyAppend(t, a, front);
      assert b == front + [e] && a + b == (a + front) + [e];
      ApplySnoc(t, a + front, e, ApplyAll(t, a + front));
      ApplySnoc(ApplyAll(t, a), front, e, ApplyAll(t, a + front));
    }
  }

  lemma {:induction false} ApplySnoc(t: Table, s: seq<Entry>, e: Entry, u: Table)
    requires u == ApplyAll(t, s)
    ensures ApplyAll(t, s + [e]) == ApplyEvent(u, e.event)
  {
    assert (s + [e])[..|s|] == s;
  }

  predicate HasId(events: seq<Entry>, id: Id) {
    exists i :: 0 <= i < |events| && events[i].id == id
  }

  lemma {:induction false} HasIdAppend(events: seq<Entry>, e: Entry, id: Id)
    ensures HasId(events + [e], id) <==> HasId(events, id) || e.id == id
  {
    var all := events + [e];
    if i :| 0 <= i < |events| && events[i].id == id { assert all[i].id == id; }
    if e.id == id { assert all[|events|].id == id; }
  }

  /** The first occurrence of each identity, in order. */
  function FirstOccurrences(events: seq<Entry>): seq<Entry> {
    if |events| == 0 then []
    else
      var firsts := FirstOccurrences(events[..|events| - 1]);
      var e := events[|events| - 1];
      if HasId(events[..|events| - 1], e.id) then firsts else firsts + [e]
  }

  /** Without clashes an event is rejected exactly when its identity has been seen. */
  lemma {:induction false} TakenIsSeen(events: seq<Entry>, added: seq<Entry>, e: Entry)
    requires NoClash(events + [e]) && forall d :: d in added ==> d in events
    requires forall id :: HasId(added, id) <==> HasId(events, id)
    ensures Taken(added, e) <==> HasId(events, e.id)
  {
    var all := events + [e];
    assert all[|events|] == e;
    forall k | 0 <= k < |added| && SameSlot(added[k], e) ensures added[k].id == e.id {
      assert added[k] in events;
      var j :| 0 <= j < |events| && events[j] == added[k];
      assert all[j] == events[j];
    }
    if HasId(added, e.id) {
      var k :| 0 <= k < |added| && added[k].id == e.id;
      assert Conflicts(added[k], e);
    }
  }

  lemma {:induction false} FreshIsFirst(events: seq<Entry>)
    requires NoClash(events)
    ensures Fresh([], events) == FirstOccurrences(events)
    ensures forall id :: HasId(Fresh([], events), id) <==> HasId(events, id)
  {
    if |events| > 0 {
      var rest, e := events[..|events| - 1], events[|events| - 1];
      assert events == rest + [e];
      NoClashPrefix(rest, e);
      FreshIsFirst(rest);
      FreshFits([], rest);
      var added := Fresh([], rest);
      assert [] + added == added;
      TakenIsSeen(rest, added, e);
      forall id ensures HasId(Fresh([], events), id) <==> HasId(events, id) {
        HasIdAppend(rest, e, id);
        HasIdAppend(added, e, id);
      }
    }
  }

  lemma {:induction false} NoClashPrefix(events: seq<Entry>, e: Entry)
    requires NoClash(events + [e])
    ensures NoClash(events)
  {
    var all := events + [e];
    assert forall i :: 0 <= i < |events| ==> all[i] == events[i];
  }

  /** Any cutting of a stream into windows stores and reduces what the whole stream at once does. */
  lemma {:induction false} WindowsAsOne(t: Table, windows: seq<seq<Entry>>)
    ensures var added := Fresh([], Flatten(windows));
            ApplyWindows(Store([], t), windows) == Store(added, ApplyAll(t, added))
  {
    if |windows| > 0 {
      var rest, window := windows[..|windows| - 1], windows[|windows| - 1];
      WindowsAsOne(t, rest);
      FreshAppend([], Flatten(rest), window);
      var before := Fresh([], Flatten(rest));
      assert [] + before == before;
      ApplyAppend(t, before, Fresh(before, window));
    }
  }

  /**
    Overlapping, repeated and re-cut windows give the log and the tables of each event
    identity applied once, at its first occurrence.
  */
  lemma {:induction false} WindowsApplyFirstOccurrences(t: Table, windows: seq<seq<Entry>>)
    requires NoClash(Flatten(windows))
    ensures var firsts := FirstOccurrences(Flatten(windows));
            ApplyWindows(Store([], t), windows) == Store(firsts, ApplyAll(t, firsts))
  {
    WindowsAsOne(t, windows);
    FreshIsFirst(Flatten(windows));
  }
}
