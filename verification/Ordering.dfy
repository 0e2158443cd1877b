/** The intra-ledger ordering key of an RPC event id, and the order events are applied in. */
module Ordering {
  import opened Wrappers
  import opened Digits

  // ---------------------------------------------------------------- the key

  datatype Key = Key(txIndex: int, eventIndex: nat)

  const TX_UNIT := 4096           // 2^12, below it the operation
  const TX_RANGE := 1_048_576     // 2^20 transactions
  const LEDGER_UNIT := 4_294_967_296

  function AfterLast(s: string, c: char): (r: string)
    ensures c !in r
  {
    if |s| == 0 || s[|s| - 1] == c then "" else AfterLast(s[..|s| - 1], c) + [s[|s| - 1]]
  }

  predicate IsSpace(c: char) { c == ' ' || c == '\t' || c == '\n' || c == '\r' }

  function DigitPrefix(s: string): (r: string)
    ensures AllDigits(r)
  {
    if |s| > 0 && IsDigit(s[0]) then [s[0]] + DigitPrefix(s[1..]) else ""
  }

  /** `parseInt(s, 10)` of a text without a minus sign; None for NaN. */
  function ParseInt(s: string): Option<nat> {
    if |s| > 0 && IsSpace(s[0]) then ParseInt(s[1..])
    else
      var digits := DigitPrefix(if |s| > 0 && s[0] == '+' then s[1..] else s);
      if digits == "" then None else Some(Read(digits))
  }

  /** The id has a numeric first part and a second part. */
  predicate HasToid(id: string) {
    var first := Before(id, '-');
    |first| < |id| && first != "" && AllDigits(first)
  }

  function ExtractEventOrdering(id: Option<string>, fallback: nat): Key {
    if id.Some? && HasToid(id.value) then
      var toid, suffix := Read(Before(id.value, '-')), ParseInt(AfterLast(id.value, '-'));
      Key(toid / TX_UNIT % TX_RANGE, if suffix.Some? then suffix.value else fallback)
    else Key(-1, fallback)
  }

  /** The layout of an event id in the Specification section of SEP-0035, with any zero padding. */
  function PackId(toid: nat, index: nat, pad: nat, indexPad: nat): string {
    Zeros(pad) + Show(toid) + "-" + Zeros(indexPad) + Show(index)
  }

  lemma {:induction false} PrefixOfDigits(s: string)
    requires AllDigits(s)
    ensures DigitPrefix(s) == s
  {
    if |s| > 0 { PrefixOfDigits(s[1..]); }
  }

  lemma {:induction false} AfterLastIs(front: string, last: string, c: char)
    requires c !in last
    ensures AfterLast(front + [c] + last, c) == last
  {
    var s := front + [c] + last;
    if |last| > 0 {
      assert s[..|s| - 1] == front + [c] + last[..|last| - 1];
      AfterLastIs(front, last[..|last| - 1], c);
    }
  }

  lemma {:induction false} ParseDigits(s: string)
    requires AllDigits(s) && s != ""
    ensures ParseInt(s) == Some(Read(s))
  {
    PrefixOfDigits(s);
  }

  function Toid(ledger: nat, tx: nat, op: nat): nat { ledger * LEDGER_UNIT + tx * TX_UNIT + op }

  lemma {:induction false} ToidUnpacks(ledger: nat, tx: nat, op: nat)
    requires tx < TX_RANGE && op < TX_UNIT
    ensures Toid(ledger, tx, op) / TX_UNIT % TX_RANGE == tx
  {
    assert Toid(ledger, tx, op) == (ledger * TX_RANGE + tx) * TX_UNIT + op;
    assert Toid(ledger, tx, op) / TX_UNIT == ledger * TX_RANGE + tx;
  }

  lemma {:induction false} IdParts(toid: nat, index: nat, pad: nat, indexPad: nat)
    ensures var id := PackId(toid, index, pad, indexPad);
            && Before(id, '-') == Zeros(pad) + Show(toid) && |Before(id, '-')| < |id|
            && AfterLast(id, '-') == Zeros(indexPad) + Show(index)
  {
    var first, last := Zeros(pad) + Show(toid), Zeros(indexPad) + Show(index);
    ReadShow(toid);
    ReadShow(index);
    assert PackId(toid, index, pad, indexPad) == first + ("-" + last);
    BeforeIs(first, "-" + last, '-');
    assert PackId(toid, index, pad, indexPad) == first + ['-'] + last;
    AfterLastIs(first, last, '-');
  }

  lemma {:induction false} IdReads(toid: nat, index: nat, pad: nat, indexPad: nat)
    ensures var id := PackId(toid, index, pad, indexPad);
            HasToid(id) && Read(Before(id, '-')) == toid && ParseInt(AfterLast(id, '-')) == Some(index)
  {
    IdParts(toid, index, pad, indexPad);
    ReadShow(toid);
    ReadShow(index);
    ReadPadded(pad, Show(toid));
    ReadPadded(indexPad, Show(index));
    ParseDigits(Zeros(indexPad) + Show(index));
  }

  /** Decoding an id packed from ledger, transaction order, operation and event index recovers the key. */
  lemma {:induction false} DecodesPackedId(ledger: nat, tx: nat, op: nat, index: nat, pad: nat, indexPad: nat,
                                           fallback: nat)
    requires tx < TX_RANGE && op < TX_UNIT
    ensures ExtractEventOrdering(Some(PackId(Toid(ledger, tx, op), index, pad, indexPad)), fallback) == Key(tx, index)
  {
    IdReads(Toid(ledger, tx, op), index, pad, indexPad);
    ToidUnpacks(ledger, tx, op);
  }

  /** The key does not depend on the position in a page exactly when the id carries both indices. */
  lemma {:induction false} KeyFromIdExactly(id: Option<string>)
    ensures (forall f: nat, g: nat :: ExtractEventOrdering(id, f) == ExtractEventOrdering(id, g)) <==> Keyed(id)
  {
    if !Keyed(id) {
      assert ExtractEventOrdering(id, 0) != ExtractEventOrdering(id, 1);
    }
  }

  predicate Keyed(id: Option<string>) {
    id.Some? && HasToid(id.value) && ParseInt(AfterLast(id.value, '-')).Some?
  }

  // -------------------------------------------------------------- the order

  /** A decoded event with its position: ledger, transaction index, event index. */
  datatype Decoded = Decoded(ledger: nat, key: Key, contractId: string, txHash: string, body: string)

  /** The comparator: negative, zero or positive. */
  function Compare(a: Decoded, b: Decoded): int {
    if a.ledger != b.ledger then a.ledger - b.ledger
    else if a.key.txIndex != b.key.txIndex then a.key.txIndex - b.key.txIndex
    else a.key.eventIndex - b.key.eventIndex
  }

  /** Application order: an earlier ledger, then an earlier transaction of it, then an earlier event of that. */
  predicate Precedes(a: Decoded, b: Decoded) {
    || a.ledger < b.ledger
    || (a.ledger == b.ledger && a.key.txIndex < b.key.txIndex)
    || (a.ledger == b.ledger && a.key.txIndex == b.key.txIndex && a.key.eventIndex <= b.key.eventIndex)
  }

  predicate SamePosition(a: Decoded, b: Decoded) { a.ledger == b.ledger && a.key == b.key }

  /** The sign of the comparator is the application order. */
  lemma {:induction false} CompareSign(a: Decoded, b: Decoded)
    ensures Compare(a, b) <= 0 <==> Precedes(a, b)
    ensures Compare(a, b) == 0 <==> SamePosition(a, b)
  {
  }

  ghost predicate InOrder(s: seq<Decoded>) {
    forall i, j :: 0 <= i < j < |s| ==> Precedes(s[i], s[j])
  }

  /**
    Without a readable id an event comes before every event of its ledger that has one, and such
    events are ordered by their place in the page.
  */
  lemma {:induction false} UnreadableFirst(a: Decoded, b: Decoded, id: Option<string>, other: Option<string>,
                                           i: nat, j: nat)
    requires a.ledger == b.ledger && a.key == ExtractEventOrdering(id, i) && b.key == ExtractEventOrdering(other, j)
    requires !(id.Some? && HasToid(id.value))
    ensures other.Some? && HasToid(other.value) ==> Precedes(a, b) && !Precedes(b, a)
    ensures !(other.Some? && HasToid(other.value)) ==> (Precedes(a, b) <==> i <= j)
  {
  }

  /** No two events share a position. */
  ghost predicate DistinctKeys(s: seq<Decoded>) {
    forall i, j :: 0 <= i < j < |s| ==> !SamePosition(s[i], s[j])
  }

  /** Puts `e` after everything that does not compare greater: a stable insertion. */
  function Place(s: seq<Decoded>, e: Decoded): seq<Decoded> {
    if |s| > 0 && Compare(s[|s| - 1], e) > 0 then Place(s[..|s| - 1], e) + [s[|s| - 1]] else s + [e]
  }

  function SortDecodedEvents(events: seq<Decoded>): seq<Decoded> {
    if |events| == 0 then [] else Place(SortDecodedEvents(events[..|events| - 1]), events[|events| - 1])
  }

  lemma {:induction false} Transitive(a: Decoded, b: Decoded, c: Decoded)
    requires Precedes(a, b) && Precedes(b, c)
    ensures Precedes(a, c)
  {
  }

  lemma {:induction false} Snoc(s: seq<Decoded>, e: Decoded)
    ensures multiset(s + [e]) == multiset(s) + multiset{e}
  {
  }

  lemma {:induction false} PlacePermutes(s: seq<Decoded>, e: Decoded)
    ensures multiset(Place(s, e)) == multiset(s) + multiset{e}
  {
    if |s| > 0 && Compare(s[|s| - 1], e) > 0 {
      var front, last := s[..|s| - 1], s[|s| - 1];
      PlacePermutes(front, e);
      assert s == front + [last];
      Snoc(front, last);
      Snoc(Place(front, e), last);
    } else {
      Snoc(s, e);
    }
  }

  lemma {:induction false} PlaceMembers(s: seq<Decoded>, e: Decoded, d: Decoded)
    requires d in Place(s, e)
    ensures d in s || d == e
  {
    PlacePermutes(s, e);
    assert d in multiset(Place(s, e));
  }

  lemma {:induction false} SnocOrdered(s: seq<Decoded>, e: Decoded)
    requires InOrder(s) && forall d :: d in s ==> Precedes(d, e)
    ensures InOrder(s + [e])
  {
  }

  lemma {:induction false} PlaceFits(s: seq<Decoded>, e: Decoded)
    requires InOrder(s)
    ensures InOrder(Place(s, e))
  {
    if |s| > 0 {
      var front, last := s[..|s| - 1], s[|s| - 1];
      forall d | d in front ensures Precedes(d, last) {
        var i :| 0 <= i < |front| && front[i] == d;
        assert Precedes(s[i], s[|s| - 1]);
      }
      if Compare(last, e) > 0 {
        PlaceFits(front, e);
        forall d | d in Place(front, e) ensures Precedes(d, last) { PlaceMembers(front, e, d); }
        SnocOrdered(Place(front, e), last);
      } else {
        forall d | d in s ensures Precedes(d, e) {
          assert d in front || d == last;
          Transitive(d, last, e);
        }
        SnocOrdered(s, e);
      }
    }
  }

  /** Sorting gives a permutation of its input in application order: no event comes after a later one. */
  lemma {:induction false} SortSorts(events: seq<Decoded>)
    ensures InOrder(SortDecodedEvents(events)) && multiset(SortDecodedEvents(events)) == multiset(events)
  {
    if |events| > 0 {
      var front, e := events[..|events| - 1], events[|events| - 1];
      SortSorts(front);
      PlaceFits(SortDecodedEvents(front), e);
      PlacePermutes(SortDecodedEvents(front), e);
      assert events == front + [e];
      Snoc(front, e);
    }
  }

  /** The events with the key of `k`, in order. */
  function WithKey(s: seq<Decoded>, k: Decoded): seq<Decoded> {
    if |s| == 0 then []
    else
      var front, e := WithKey(s[..|s| - 1], k), s[|s| - 1];
      if SamePosition(e, k) then front + [e] else front
  }

  lemma {:induction false} WithKeySnoc(s: seq<Decoded>, e: Decoded, k: Decoded)
    ensures WithKey(s + [e], k) == WithKey(s, k) + if SamePosition(e, k) then [e] else []
  {
    assert (s + [e])[..|s|] == s;
  }

  lemma {:induction false} PlaceStable(s: seq<Decoded>, e: Decoded, k: Decoded)
    ensures WithKey(Place(s, e), k) == WithKey(s, k) + if SamePosition(e, k) then [e] else []
  {
    WithKeySnoc(s, e, k);
    if |s| > 0 && Compare(s[|s| - 1], e) > 0 {
      var front, last := s[..|s| - 1], s[|s| - 1];
      PlaceStable(front, e, k);
      WithKeySnoc(Place(front, e), last, k);
    }
  }

  /** Events with equal keys keep their order of arrival. */
  lemma {:induction false} SortStable(events: seq<Decoded>, k: Decoded)
    ensures WithKey(SortDecodedEvents(events), k) == WithKey(events, k)
  {
    if |events| > 0 {
      SortStable(events[..|events| - 1], k);
      PlaceStable(SortDecodedEvents(events[..|events| - 1]), events[|events| - 1], k);
    }
  }

  lemma {:induction false} LastIsGreatest(a: seq<Decoded>, d: Decoded)
    requires InOrder(a) && d in a
    ensures Precedes(d, a[|a| - 1])
  {
    var i :| 0 <= i < |a| && a[i] == d;
  }

  lemma {:induction false} SameKeySame(a: seq<Decoded>, d: Decoded, e: Decoded)
    requires DistinctKeys(a) && d in a && e in a && SamePosition(d, e)
    ensures d == e
  {
    var i :| 0 <= i < |a| && a[i] == d;
    var j :| 0 <= j < |a| && a[j] == e;
    assert i <= j;
    assert SamePosition(e, d);
  }

  /** An ordered list with distinct keys is determined by its elements. */
  lemma {:induction false} OrderedUnique(a: seq<Decoded>, b: seq<Decoded>)
    requires InOrder(a) && InOrder(b) && DistinctKeys(a) && multiset(a) == multiset(b)
    ensures a == b
  {
    SameLength(a, b);
    if |a| > 0 {
      var n := |a| - 1;
      SameLast(a, b);
      ButLast(a);
      ButLast(b);
      OrderedUnique(a[..n], b[..n]);
      assert a == a[..n] + [a[n]] && b == b[..n] + [b[n]];
    }
  }

  lemma {:induction false} SameLength(a: seq<Decoded>, b: seq<Decoded>)
    requires multiset(a) == multiset(b)
    ensures |a| == |b|
  {
    assert |multiset(a)| == |a| && |multiset(b)| == |b|;
  }

  lemma {:induction false} ButLast(a: seq<Decoded>)
    requires |a| > 0
    ensures multiset(a[..|a| - 1]) == multiset(a) - multiset{a[|a| - 1]}
    ensures InOrder(a) ==> InOrder(a[..|a| - 1])
    ensures DistinctKeys(a) ==> DistinctKeys(a[..|a| - 1])
  {
    assert a == a[..|a| - 1] + [a[|a| - 1]];
  }

  lemma {:induction false} SameLast(a: seq<Decoded>, b: seq<Decoded>)
    requires InOrder(a) && InOrder(b) && DistinctKeys(a) && multiset(a) == multiset(b) && |a| == |b| > 0
    ensures a[|a| - 1] == b[|b| - 1]
  {
    var x, y := a[|a| - 1], b[|b| - 1];
    assert x in multiset(b) && y in multiset(a);
    LastIsGreatest(a, y);
    LastIsGreatest(b, x);
    SameKeySame(a, x, y);
  }

  /** Distinct keys sort to the same sequence whatever order they arrive in. */
  lemma {:induction false} SortIgnoresArrival(a: seq<Decoded>, b: seq<Decoded>)
    requires multiset(a) == multiset(b) && DistinctKeys(a)
    ensures SortDecodedEvents(a) == SortDecodedEvents(b)
  {
    SortSorts(a);
    SortSorts(b);
    DistinctPermutes(a, SortDecodedEvents(a));
    OrderedUnique(SortDecodedEvents(a), SortDecodedEvents(b));
  }

  lemma {:induction false} DistinctPermutes(a: seq<Decoded>, b: seq<Decoded>)
    requires multiset(a) == multiset(b) && DistinctKeys(a)
    ensures DistinctKeys(b)
  {
    forall i, j | 0 <= i < j < |b| ensures !SamePosition(b[i], b[j]) {
      TwoOf(b, i, j);
      assert b[i] in multiset(a) && b[j] in multiset(a);
      var k :| 0 <= k < |a| && a[k] == b[i];
      var l :| 0 <= l < |a| && a[l] == b[j];
      if k == l {
        DistinctOnce(a, a[k]);
      } else {
        assert SamePosition(a[k], a[l]) <==> SamePosition(a[l], a[k]);
        assert !SamePosition(a[if k < l then k else l], a[if k < l then l else k]);
      }
    }
  }

  lemma {:induction false} TwoOf(b: seq<Decoded>, i: nat, j: nat)
    requires i < j < |b|
    ensures b[i] == b[j] ==> multiset(b)[b[i]] >= 2
  {
    assert b == b[..j] + [b[j]] + b[j + 1..];
    assert b[i] in b[..j];
    assert multiset(b) == multiset(b[..j]) + multiset{b[j]} + multiset(b[j + 1..]);
  }

  lemma {:induction false} DistinctOnce(a: seq<Decoded>, e: Decoded)
    requires DistinctKeys(a)
    ensures multiset(a)[e] <= 1
  {
    if |a| > 0 {
      var front, last := a[..|a| - 1], a[|a| - 1];
      assert a == front + [last];
      DistinctOnce(front, e);
      if last == e {
        forall d | d in front ensures d != e {
          var k :| 0 <= k < |front| && front[k] == d;
          assert !SamePosition(a[k], a[|a| - 1]);
        }
        assert e !in multiset(front);
      }
    }
  }
}
