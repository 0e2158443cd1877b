/** The bounded priority queue of metadata fetches. */
module IpfsQueue {
  import opened Wrappers

  datatype Priority = High | Normal | Low

  function Order(p: Priority): nat {
    match p case High => 0 case Normal => 1 case Low => 2
  }

  datatype Entry = Entry(cid: string, priority: Priority, enqueuedAt: nat)

  datatype Verdict = Ignored | Dropped | Accepted(evicted: Option<Entry>)

  // ------------------------------------------------------------- ordering

  /** The drain comparator: tier first, then time of arrival. */
  function Compare(a: Entry, b: Entry): int {
    if a.priority != b.priority then Order(a.priority) - Order(b.priority) else a.enqueuedAt - b.enqueuedAt
  }

  function Place(q: seq<Entry>, e: Entry): seq<Entry> {
    if |q| > 0 && Compare(q[|q| - 1], e) > 0 then Place(q[..|q| - 1], e) + [q[|q| - 1]] else q + [e]
  }

  /** A stable sort by the comparator. */
  function Sort(q: seq<Entry>): seq<Entry> {
    if |q| == 0 then [] else Place(Sort(q[..|q| - 1]), q[|q| - 1])
  }

  /** The entries of one tier, in queue order. */
  function Tier(q: seq<Entry>, p: Priority): seq<Entry> {
    if |q| == 0 then []
    else
      var front, e := Tier(q[..|q| - 1], p), q[|q| - 1];
      if e.priority == p then front + [e] else front
  }

  /** Within a tier the queue is in order of arrival. */
  ghost predicate TierFifo(q: seq<Entry>) {
    forall i, j :: 0 <= i < j < |q| && q[i].priority == q[j].priority ==> q[i].enqueuedAt <= q[j].enqueuedAt
  }

  function ByTier(q: seq<Entry>): seq<Entry> { Tier(q, High) + Tier(q, Normal) + Tier(q, Low) }

  lemma {:induction false} TierMembers(q: seq<Entry>, p: Priority)
    ensures forall e :: e in Tier(q, p) <==> e in q && e.priority == p
  {
    if |q| > 0 {
      TierMembers(q[..|q| - 1], p);
      assert q == q[..|q| - 1] + [q[|q| - 1]];
    }
  }

  lemma {:induction false} PlaceBetween(a: seq<Entry>, b: seq<Entry>, e: Entry)
    requires forall d :: d in a ==> Compare(d, e) <= 0
    requires forall d :: d in b ==> Compare(d, e) > 0
    ensures Place(a + b, e) == a + [e] + b
  {
    if |b| == 0 {
      assert a + b == a;
    } else {
      var last := b[|b| - 1];
      assert last in b;
      assert (a + b)[..|a + b| - 1] == a + b[..|b| - 1];
      PlaceBetween(a, b[..|b| - 1], e);
      assert b == b[..|b| - 1] + [last];
    }
  }

  /** Three tiers, each holding its own priority only, with nothing of the tier of `e` newer than `e`. */
  ghost predicate Tiers(h: seq<Entry>, n: seq<Entry>, l: seq<Entry>, e: Entry) {
    && (forall d :: d in h ==> d.priority == High)
    && (forall d :: d in n ==> d.priority == Normal)
    && (forall d :: d in l ==> d.priority == Low)
    && (forall d :: d in h || d in n || d in l ==> d.priority == e.priority ==> d.enqueuedAt <= e.enqueuedAt)
  }

  lemma {:induction false} PlaceInTiers(h: seq<Entry>, n: seq<Entry>, l: seq<Entry>, e: Entry)
    requires Tiers(h, n, l, e)
    ensures e.priority.High? ==> Place(h + n + l, e) == h + [e] + n + l
    ensures e.priority.Normal? ==> Place(h + n + l, e) == h + (n + [e]) + l
    ensures e.priority.Low? ==> Place(h + n + l, e) == h + n + (l + [e])
  {
    match e.priority
    case High =>
      PlaceBetween(h, n + l, e);
      assert h + (n + l) == h + n + l && h + [e] + (n + l) == h + [e] + n + l;
    case Normal =>
      PlaceBetween(h + n, l, e);
      assert h + n + [e] + l == h + (n + [e]) + l;
    case Low =>
      PlaceBetween(h + n + l, [], e);
      assert h + n + l + [] == h + n + l && h + n + l + [e] + [] == h + n + (l + [e]);
  }

  lemma {:induction false} LastIsNewest(q: seq<Entry>)
    requires TierFifo(q) && |q| > 0
    ensures var e := q[|q| - 1]; Tiers(Tier(q[..|q| - 1], High), Tier(q[..|q| - 1], Normal), Tier(q[..|q| - 1], Low), e)
  {
    var front, e := q[..|q| - 1], q[|q| - 1];
    TierMembers(front, High);
    TierMembers(front, Normal);
    TierMembers(front, Low);
    forall d | d in front && d.priority == e.priority ensures d.enqueuedAt <= e.enqueuedAt {
      var i :| 0 <= i < |front| && front[i] == d;
      assert q[i] == d && q[|q| - 1] == e;
    }
  }

  /** In a queue that is first-in-first-out within tiers, sorting lists the tiers one after the other. */
  lemma {:induction false} SortListsTiers(q: seq<Entry>)
    requires TierFifo(q)
    ensures Sort(q) == ByTier(q)
  {
    if |q| > 0 {
      var front, e := q[..|q| - 1], q[|q| - 1];
      SortListsTiers(front);
      LastIsNewest(q);
      PlaceInTiers(Tier(front, High), Tier(front, Normal), Tier(front, Low), e);
    }
  }

  lemma {:induction false} Snoc(q: seq<Entry>, e: Entry)
    ensures multiset(q + [e]) == multiset(q) + multiset{e}
  {
  }

  lemma {:induction false} PlaceKeeps(q: seq<Entry>, e: Entry)
    ensures multiset(Place(q, e)) == multiset(q) + multiset{e}
  {
    if |q| > 0 && Compare(q[|q| - 1], e) > 0 {
      PlaceKeeps(q[..|q| - 1], e);
      assert q == q[..|q| - 1] + [q[|q| - 1]];
      Snoc(q[..|q| - 1], q[|q| - 1]);
      Snoc(Place(q[..|q| - 1], e), q[|q| - 1]);
    } else {
      Snoc(q, e);
    }
  }

  lemma {:induction false} SortKeeps(q: seq<Entry>)
    ensures multiset(Sort(q)) == multiset(q)
  {
    if |q| > 0 {
      var front, e := q[..|q| - 1], q[|q| - 1];
      SortKeeps(front);
      assert q == front + [e];
      PlacedKeeps(q, front, Sort(front), e);
    }
  }

  lemma {:induction false} PlacedKeeps(q: seq<Entry>, front: seq<Entry>, sorted: seq<Entry>, e: Entry)
    requires q == front + [e] && multiset(sorted) == multiset(front)
    ensures multiset(Place(sorted, e)) == multiset(q)
  {
    PlaceKeeps(sorted, e);
    Snoc(front, e);
  }

  lemma {:induction false} TierFifoTier(q: seq<Entry>, p: Priority)
    requires TierFifo(q)
    ensures forall i, j :: 0 <= i < j < |Tier(q, p)| ==> Tier(q, p)[i].enqueuedAt <= Tier(q, p)[j].enqueuedAt
  {
    if |q| > 0 {
      var front, e := q[..|q| - 1], q[|q| - 1];
      TierFifoTier(front, p);
      TierMembers(front, p);
      forall d | d in front && d.priority == e.priority ensures d.enqueuedAt <= e.enqueuedAt {
        var i :| 0 <= i < |front| && front[i] == d;
        assert q[i] == d && q[|q| - 1] == e;
      }
    }
  }

  /** Sorting keeps the queue first-in-first-out within tiers. */
  lemma {:induction false} SortKeepsFifo(q: seq<Entry>)
    requires TierFifo(q)
    ensures TierFifo(Sort(q))
  {
    SortListsTiers(q);
    TierFifoTier(q, High);
    TierFifoTier(q, Normal);
    TierFifoTier(q, Low);
    TierMembers(q, High);
    TierMembers(q, Normal);
    TierMembers(q, Low);
    ConcatFifo(Tier(q, High), Tier(q, Normal));
    ConcatFifo(Tier(q, High) + Tier(q, Normal), Tier(q, Low));
  }

  lemma {:induction false} ConcatFifo(a: seq<Entry>, b: seq<Entry>)
    requires TierFifo(a) && TierFifo(b) && forall d, e :: d in a && e in b ==> d.priority != e.priority
    ensures TierFifo(a + b)
  {
    forall i, j | 0 <= i < |a| && 0 <= j < |b| ensures a[i].priority != b[j].priority {
      assert a[i] in a && b[j] in b;
    }
  }

  // ------------------------------------------------------------- the queue

  ghost predicate DistinctCids(q: seq<Entry>) {
    forall i, j :: 0 <= i < j < |q| ==> q[i].cid != q[j].cid
  }

  predicate Queued(q: seq<Entry>, cid: string) { exists i :: 0 <= i < |q| && q[i].cid == cid }

  function RemoveAt(q: seq<Entry>, i: nat): seq<Entry>
    requires i < |q|
  {
    q[..i] + q[i + 1..]
  }

  /** The first entry of the lowest tier present. */
  ghost predicate FirstOfLowest(q: seq<Entry>, i: nat) {
    && i < |q| && (forall j :: 0 <= j < |q| ==> Order(q[j].priority) <= Order(q[i].priority))
    && (forall j :: 0 <= j < i ==> q[j].priority != q[i].priority)
  }

  /** It is also the oldest of its tier. */
  lemma {:induction false} FirstIsOldest(q: seq<Entry>, i: nat, j: nat)
    requires TierFifo(q) && FirstOfLowest(q, i) && j < |q| && q[j].priority == q[i].priority
    ensures q[i].enqueuedAt <= q[j].enqueuedAt
  {
    assert i <= j;
  }

  ghost predicate WellFormed(q: seq<Entry>, inFlight: set<string>, cap: nat) {
    && |q| <= cap && DistinctCids(q) && TierFifo(q)
    && forall i :: 0 <= i < |q| ==> q[i].cid !in inFlight
  }

  lemma {:induction false} RemoveKeeps(q: seq<Entry>, i: nat, inFlight: set<string>, cap: nat)
    requires WellFormed(q, inFlight, cap) && i < |q|
    ensures WellFormed(RemoveAt(q, i), inFlight, cap) && |RemoveAt(q, i)| == |q| - 1
    ensures multiset(q) == multiset([q[i]]) + multiset(RemoveAt(q, i))
  {
    RemoveCounts(q, i);
    var r := RemoveAt(q, i);
    assert forall k :: 0 <= k < |r| ==> r[k] == q[if k < i then k else k + 1];
  }

  lemma {:induction false} RemoveCounts(q: seq<Entry>, i: nat)
    requires i < |q|
    ensures multiset(q) == multiset([q[i]]) + multiset(RemoveAt(q, i))
  {
    assert q == q[..i] + [q[i]] + q[i + 1..];
  }

  lemma {:induction false} PushKeeps(q: seq<Entry>, e: Entry, inFlight: set<string>, cap: nat)
    requires WellFormed(q, inFlight, cap) && |q| < cap && e.cid !in inFlight && !Queued(q, e.cid)
    requires forall i :: 0 <= i < |q| ==> q[i].enqueuedAt <= e.enqueuedAt
    ensures WellFormed(q + [e], inFlight, cap)
  {
  }

  lemma {:induction false} SortWellFormed(q: seq<Entry>, inFlight: set<string>, cap: nat)
    requires WellFormed(q, inFlight, cap)
    ensures WellFormed(Sort(q), inFlight, cap) && multiset(Sort(q)) == multiset(q)
  {
    SortKeeps(q);
    SortKeepsFifo(q);
    SamePermutation(q, Sort(q));
    forall i | 0 <= i < |Sort(q)| ensures Sort(q)[i].cid !in inFlight {
      assert Sort(q)[i] in multiset(q);
    }
  }

  lemma {:induction false} SamePermutation(a: seq<Entry>, b: seq<Entry>)
    requires multiset(a) == multiset(b) && DistinctCids(a)
    ensures |a| == |b| && DistinctCids(b)
  {
    assert |multiset(a)| == |a| && |multiset(b)| == |b|;
    forall i, j | 0 <= i < j < |b| ensures b[i].cid != b[j].cid {
      assert b[i] in multiset(a) && b[j] in multiset(a);
      var k :| 0 <= k < |a| && a[k] == b[i];
      var l :| 0 <= l < |a| && a[l] == b[j];
      if k == l {
        CountTwo(b, i, j);
        CountOne(a, k);
      } else {
        assert a[if k < l then k else l].cid != a[if k < l then l else k].cid;
      }
    }
  }

  lemma {:induction false} CountTwo(b: seq<Entry>, i: nat, j: nat)
    requires i < j < |b|
    ensures b[i] == b[j] ==> multiset(b)[b[i]] >= 2
  {
    assert b == b[..j] + [b[j]] + b[j + 1..];
    assert b[i] in b[..j];
  }

  lemma {:induction false} CountOne(a: seq<Entry>, k: nat)
    requires DistinctCids(a) && k < |a|
    ensures multiset(a)[a[k]] == 1
  {
    assert a == a[..k] + [a[k]] + a[k + 1..];
    assert a[k] !in a[..k] && a[k] !in a[k + 1..];
  }

  predicate ByClock(q: seq<Entry>, clock: nat) { forall i :: 0 <= i < |q| ==> q[i].enqueuedAt <= clock }

  lemma {:induction false} RemoveSubset(q: seq<Entry>, i: nat, clock: nat)
    requires i < |q| && ByClock(q, clock)
    ensures ByClock(RemoveAt(q, i), clock)
    ensures forall cid :: Queued(RemoveAt(q, i), cid) ==> Queued(q, cid)
  {
    var r := RemoveAt(q, i);
    assert forall k :: 0 <= k < |r| ==> r[k] == q[if k < i then k else k + 1];
  }

  /** Moving part of the queue to another account keeps the sum. */
  lemma {:induction false} Rebalance(total: multiset<Entry>, q: seq<Entry>, a: multiset<Entry>, b: multiset<Entry>,
                                     part: seq<Entry>, rest: seq<Entry>)
    requires total == multiset(q) + a + b && multiset(q) == multiset(part) + multiset(rest)
    ensures total == multiset(rest) + (a + multiset(part)) + b && total == multiset(rest) + a + (b + multiset(part))
  {
  }

  /** `rest` is `q` without the oldest entry of its lowest tier, `victim`. */
  ghost predicate Evicts(q: seq<Entry>, victim: Entry, rest: seq<Entry>) {
    exists i: nat :: FirstOfLowest(q, i) && victim == q[i] && rest == RemoveAt(q, i)
  }

  function Cids(q: seq<Entry>): set<string> { set e | e in q :: e.cid }

  lemma {:induction false} CutKeeps(q: seq<Entry>, n: nat, inFlight: set<string>, cap: nat)
    requires WellFormed(q, inFlight, cap) && n <= |q|
    ensures WellFormed(q[n..], inFlight + Cids(q[..n]), cap)
    ensures q[..n] + q[n..] == q && multiset(q) == multiset(q[..n]) + multiset(q[n..])
    ensures forall clock :: ByClock(q, clock) ==> ByClock(q[n..], clock)
  {
    assert q == q[..n] + q[n..];
    forall i | n <= i < |q| ensures q[i].cid !in Cids(q[..n]) {
      forall e | e in q[..n] ensures e.cid != q[i].cid {
        var k :| 0 <= k < n && q[..n][k] == e;
        assert q[k] == e;
      }
    }
  }

  lemma {:induction false} SortClock(q: seq<Entry>, clock: nat)
    requires ByClock(q, clock)
    ensures |Sort(q)| == |q| && ByClock(Sort(q), clock)
  {
    SortKeeps(q);
    assert |multiset(Sort(q))| == |Sort(q)| && |multiset(q)| == |q|;
    forall i | 0 <= i < |Sort(q)| ensures Sort(q)[i].enqueuedAt <= clock {
      assert Sort(q)[i] in multiset(q);
    }
  }

  class BoundedQueue {
    const cap: nat
    const batchSize: nat
    var queue: seq<Entry>
    var inFlight: set<string>
    ghost var clock: nat
    ghost var accepted: multiset<Entry>
    ghost var drained: multiset<Entry>
    ghost var evicted: multiset<Entry>

    /** Bounded, distinct and disjoint, first-in-first-out per tier; nothing accepted is unaccounted for. */
    ghost predicate Valid()
      reads this
    {
      && WellFormed(queue, inFlight, cap)
      && ByClock(queue, clock)
      && accepted == multiset(queue) + drained + evicted
    }

    constructor (cap: nat, batchSize: nat)
      ensures Valid() && queue == [] && inFlight == {} && this.cap == cap && this.batchSize == batchSize
    {
      this.cap, this.batchSize := cap, batchSize;
      queue, inFlight, clock := [], {}, 0;
      accepted, drained, evicted := multiset{}, multiset{}, multiset{};
    }

    /** -1 only for an empty queue. */
    method FindLowestPriorityIndex() returns (index: int)
      ensures -1 <= index < |queue| && (index == -1 <==> queue == [])
      ensures index >= 0 ==> FirstOfLowest(queue, index)
    {
      var lowest: int := -1;
      index := -1;
      for i := 0 to |queue|
        invariant -1 <= index < i && (index == -1 <==> i == 0) && (index == -1 ==> lowest == -1)
        invariant index >= 0 ==> lowest == Order(queue[index].priority)
        invariant index >= 0 ==> forall j :: 0 <= j < i ==> Order(queue[j].priority) <= lowest
        invariant index >= 0 ==> forall j :: 0 <= j < index ==> Order(queue[j].priority) < lowest
      {
        if Order(queue[i].priority) > lowest { lowest, index := Order(queue[i].priority), i; }
      }
    }

    method EvictLowest() returns (victim: Entry)
      requires Valid() && queue != []
      modifies this`queue, this`evicted
      ensures Valid() && Evicts(old(queue), victim, queue) && |queue| == |old(queue)| - 1
      ensures forall cid :: Queued(queue, cid) ==> Queued(old(queue), cid)
    {
      var i := FindLowestPriorityIndex();
      RemoveKeeps(queue, i, inFlight, cap);
      RemoveSubset(queue, i, clock);
      victim := queue[i];
      Rebalance(accepted, queue, drained, evicted, [victim], RemoveAt(queue, i));
      evicted := evicted + multiset([victim]);
      queue := RemoveAt(queue, i);
    }

    method Push(e: Entry)
      requires Valid() && |queue| < cap && e.cid !in inFlight && !Queued(queue, e.cid) && clock <= e.enqueuedAt
      modifies this`queue, this`accepted, this`clock
      ensures Valid() && queue == old(queue) + [e] && accepted == old(accepted) + multiset{e} && clock == e.enqueuedAt
    {
      PushKeeps(queue, e, inFlight, cap);
      queue := queue + [e];
      accepted := accepted + multiset{e};
      clock := e.enqueuedAt;
    }

    method Enqueue(cid: string, priority: Priority, now: nat) returns (v: Verdict)
      requires Valid() && clock <= now
      modifies this
      ensures Valid() && inFlight == old(inFlight) && drained == old(drained)
      ensures v.Ignored? <==> cid == "" || cid in old(inFlight) || Queued(old(queue), cid)
      ensures v.Dropped? <==> !v.Ignored? && |old(queue)| == cap && (priority != High || cap == 0)
      ensures !v.Accepted? ==> queue == old(queue) && accepted == old(accepted)
      ensures v.Accepted? ==> accepted == old(accepted) + multiset{Entry(cid, priority, now)}
      ensures v.Accepted? && |old(queue)| < cap ==> v.evicted.None? && queue == old(queue) + [Entry(cid, priority, now)]
      ensures v.Accepted? && |old(queue)| == cap ==>
                && v.evicted.Some? && |queue| == cap && queue[cap - 1] == Entry(cid, priority, now)
                && Evicts(old(queue), v.evicted.value, queue[..cap - 1])
    {
      if cid == "" || cid in inFlight || Queued(queue, cid) { return Ignored; }
      if |queue| < cap {
        Push(Entry(cid, priority, now));
        return Accepted(None);
      }
      if priority != High || queue == [] { return Dropped; }
      var victim := EvictAndPush(Entry(cid, priority, now));
      return Accepted(Some(victim));
    }

    /** Makes room in a full queue. */
    method EvictAndPush(e: Entry) returns (victim: Entry)
      requires Valid() && |queue| == cap > 0 && clock <= e.enqueuedAt && e.cid !in inFlight && !Queued(queue, e.cid)
      modifies this`queue, this`accepted, this`evicted, this`clock
      ensures Valid() && accepted == old(accepted) + multiset{e} && |queue| == cap && queue[cap - 1] == e
      ensures Evicts(old(queue), victim, queue[..cap - 1])
    {
      victim := EvictLowest();
      ghost var kept := queue;
      Push(e);
      assert queue[..cap - 1] == kept;
    }

    method SortQueue()
      requires Valid()
      modifies this`queue
      ensures Valid() && queue == ByTier(old(queue)) && |queue| == |old(queue)|
    {
      SortWellFormed(queue, inFlight, cap);
      SortListsTiers(queue);
      SortClock(queue, clock);
      queue := Sort(queue);
    }

    /** Takes the next batch: by tier, first-in-first-out within a tier. */
    method StartDrain() returns (batch: seq<Entry>)
      requires Valid()
      modifies this
      ensures Valid() && clock == old(clock) && accepted == old(accepted) && evicted == old(evicted)
      ensures batch + queue == ByTier(old(queue))
      ensures |batch| == if |old(queue)| < batchSize then |old(queue)| else batchSize
      ensures inFlight == old(inFlight) + Cids(batch)
      ensures drained == old(drained) + multiset(batch)
    {
      SortQueue();
      var n := if |queue| < batchSize then |queue| else batchSize;
      ghost var sorted := queue;
      assert sorted[..n] + sorted[n..] == sorted;
      batch := TakeBatch(n);
    }

    /** Moves the first `n` entries in flight. */
    method TakeBatch(n: nat) returns (batch: seq<Entry>)
      requires Valid() && n <= |queue|
      modifies this`queue, this`inFlight, this`drained
      ensures Valid() && batch == old(queue)[..n] && queue == old(queue)[n..]
      ensures inFlight == old(inFlight) + Cids(batch) && drained == old(drained) + multiset(batch)
    {
      CutKeeps(queue, n, inFlight, cap);
      Rebalance(accepted, queue, drained, evicted, queue[..n], queue[n..]);
      batch := queue[..n];
      queue := queue[n..];
      inFlight := inFlight + Cids(batch);
      drained := drained + multiset(batch);
    }

    /** A job whose fetch has ended is neither in flight nor queued, so it may be enqueued again. */
    method Finish(cid: string)
      requires Valid()
      modifies this`inFlight
      ensures Valid() && inFlight == old(inFlight) - {cid}
      ensures cid in old(inFlight) ==> cid !in inFlight && !Queued(queue, cid)
    {
      inFlight := inFlight - {cid};
    }
  }

  /**
    The promise that high-priority items are never dropped fails: a high entry is evicted exactly
    when the queue is full of high entries.
  */
  lemma {:induction false} HighEvictedExactly(q: seq<Entry>, i: nat)
    requires FirstOfLowest(q, i)
    ensures q[i].priority == High <==> forall j :: 0 <= j < |q| ==> q[j].priority == High
  {
    if q[i].priority == High {
      forall j | 0 <= j < |q| ensures q[j].priority == High { assert Order(q[j].priority) <= 0; }
    }
  }
}
