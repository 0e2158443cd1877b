/** The event verifier: windowed comparison of on-chain and stored event hashes. */
module Verifier {
  import opened Wrappers

  /** An event as the verifier sees it; an empty hash is a missing one. */
  datatype Seen = Seen(hash: string, ledger: int)

  function Range(events: seq<Seen>, lo: int, hi: int): seq<Seen> {
    if |events| == 0 then []
    else
      var front, e := Range(events[..|events| - 1], lo, hi), events[|events| - 1];
      if lo <= e.ledger <= hi then front + [e] else front
  }

  // ----------------------------------------------------- what is to be found

  function Hashes(events: seq<Seen>): set<string> { set e | e in events && e.hash != "" :: e.hash }

  function Count(events: seq<Seen>, hash: string): nat {
    if |events| == 0 then 0
    else Count(events[..|events| - 1], hash) + if events[|events| - 1].hash == hash then 1 else 0
  }

  lemma {:induction false} HashesSnoc(events: seq<Seen>, e: Seen)
    ensures Hashes(events + [e]) == Hashes(events) + if e.hash != "" then {e.hash} else {}
  {
  }

  /** On chain and not stored. */
  function Omitted(rpc: seq<Seen>, db: seq<Seen>): set<string> { Hashes(rpc) - Hashes(db) }

  /** Stored more than once. */
  function Duplicated(db: seq<Seen>): set<string> { set h | h in Hashes(db) && Count(db, h) > 1 }

  /** Stored rows, one by one, whose hash is not on chain. */
  function Orphaned(known: set<string>, db: seq<Seen>): seq<Seen> {
    if |db| == 0 then []
    else
      var front, row := Orphaned(known, db[..|db| - 1]), db[|db| - 1];
      if row.hash != "" && row.hash !in known then front + [row] else front
  }

  ghost predicate NoRepeats(l: seq<string>) { forall i, j :: 0 <= i < j < |l| ==> l[i] != l[j] }

  /** `l` lists the set `s`, each element once. */
  ghost predicate Lists(l: seq<string>, s: set<string>) { NoRepeats(l) && forall h :: h in l <==> h in s }

  // ------------------------------------------------------------- the verifier

  /** The keys of a map built by insertion, in insertion order. */
  method DistinctHashes(events: seq<Seen>) returns (keys: seq<string>)
    ensures Lists(keys, Hashes(events))
  {
    keys := [];
    for k := 0 to |events|
      invariant Lists(keys, Hashes(events[..k]))
    {
      var e := events[k];
      assert events[..k + 1] == events[..k] + [e];
      HashesSnoc(events[..k], e);
      if e.hash != "" && e.hash !in keys { keys := keys + [e.hash]; }
    }
    assert events[..|events|] == events;
  }

  /** `counts` holds the number of rows for each hash of `db`. */
  ghost predicate Counts(counts: map<string, nat>, db: seq<Seen>) {
    && (forall h :: h in counts <==> h in Hashes(db))
    && (forall h :: h in counts ==> counts[h] == Count(db, h))
  }

  lemma {:induction false} CountsNext(counts: map<string, nat>, db: seq<Seen>, row: Seen)
    requires Counts(counts, db)
    ensures row.hash == "" ==> Counts(counts, db + [row])
    ensures row.hash != "" ==>
              Counts(counts[row.hash := (if row.hash in counts then counts[row.hash] else 0) + 1], db + [row])
  {
    HashesSnoc(db, row);
    forall h: string ensures Count(db + [row], h) == Count(db, h) + if row.hash == h then 1 else 0 {
      CountSnoc(db, row, h);
    }
    if row.hash != "" { CountZero(db, row.hash); }
  }

  method CountHashes(db: seq<Seen>) returns (counts: map<string, nat>)
    ensures Counts(counts, db)
  {
    counts := map[];
    for k := 0 to |db|
      invariant Counts(counts, db[..k])
    {
      CountsNext(counts, db[..k], db[k]);
      assert db[..k + 1] == db[..k] + [db[k]];
      if db[k].hash != "" {
        counts := counts[db[k].hash := (if db[k].hash in counts then counts[db[k].hash] else 0) + 1];
      }
    }
    assert db[..|db|] == db;
  }

  /** The elements of `keys` satisfying a membership test, in order. */
  method Pick(keys: seq<string>, from: set<string>, ghost all: set<string>) returns (picked: seq<string>)
    requires Lists(keys, all)
    ensures Lists(picked, all * from)
  {
    picked := [];
    for k := 0 to |keys|
      invariant NoRepeats(picked) && forall h :: h in picked <==> h in keys[..k] && h in from
    {
      assert keys[..k + 1] == keys[..k] + [keys[k]];
      assert keys[k] !in keys[..k];
      if keys[k] in from { picked := picked + [keys[k]]; }
    }
    assert keys[..|keys|] == keys;
  }

  lemma {:induction false} ListsAppend(a: seq<string>, s: set<string>, b: seq<string>, t: set<string>)
    requires Lists(a, s) && Lists(b, t) && s !! t
    ensures Lists(a + b, s + t)
  {
    forall i, j | 0 <= i < |a| && 0 <= j < |b| ensures a[i] != b[j] { assert a[i] in s && b[j] in t; }
  }

  method PickOrphans(known: set<string>, db: seq<Seen>) returns (orphans: seq<Seen>)
    ensures orphans == Orphaned(known, db)
  {
    orphans := [];
    for k := 0 to |db|
      invariant orphans == Orphaned(known, db[..k])
    {
      assert db[..k + 1][..k] == db[..k];
      if db[k].hash != "" && db[k].hash !in known { orphans := orphans + [db[k]]; }
    }
    assert db[..|db|] == db;
  }

  /** The findings over a range: what the definitions above say about the events of it. */
  datatype Findings = Findings(omissions: seq<string>, orphans: seq<Seen>, duplicates: seq<string>)

  const NOTHING := Findings([], [], [])

  function Plus(f: Findings, g: Findings): Findings {
    Findings(f.omissions + g.omissions, f.orphans + g.orphans, f.duplicates + g.duplicates)
  }

  ghost predicate Finds(f: Findings, rpc: seq<Seen>, db: seq<Seen>) {
    && Lists(f.omissions, Omitted(rpc, db)) && Lists(f.duplicates, Duplicated(db))
    && multiset(f.orphans) == multiset(Orphaned(Hashes(rpc), db))
  }

  method CompareWindow(rpcEvents: seq<Seen>, dbEvents: seq<Seen>) returns (f: Findings)
    ensures Finds(f, rpcEvents, dbEvents)
  {
    var rpcKeys := DistinctHashes(rpcEvents);
    var dbKeys := DistinctHashes(dbEvents);
    var counts := CountHashes(dbEvents);
    var repeated := set h | h in counts && counts[h] > 1;
    var duplicates := Pick(dbKeys, repeated, Hashes(dbEvents));
    assert Hashes(dbEvents) * repeated == Duplicated(dbEvents);
    var rpcSet := set h | h in rpcKeys;
    var dbSet := set h | h in dbKeys;
    assert rpcSet == Hashes(rpcEvents) && dbSet == Hashes(dbEvents);
    var omissions := Pick(rpcKeys, rpcSet - dbSet, Hashes(rpcEvents));
    assert Hashes(rpcEvents) * (rpcSet - dbSet) == Omitted(rpcEvents, dbEvents);
    var orphans := PickOrphans(rpcSet, dbEvents);
    f := Findings(omissions, orphans, duplicates);
  }

  // --------------------------------------------------- windows do not matter

  /** A hash determines its ledger. */
  ghost predicate HashFixesLedger(rpc: seq<Seen>, db: seq<Seen>) {
    forall d, e :: (d in rpc || d in db) && (e in rpc || e in db) && d.hash == e.hash && d.hash != "" ==>
                     d.ledger == e.ledger
  }

  lemma {:induction false} RangeSnoc(events: seq<Seen>, e: Seen, lo: int, hi: int)
    ensures Range(events + [e], lo, hi)
         == if lo <= e.ledger <= hi then Range(events, lo, hi) + [e] else Range(events, lo, hi)
  {
    assert (events + [e])[..|events|] == events;
  }

  lemma {:induction false} RangeMembers(events: seq<Seen>, lo: int, hi: int)
    ensures forall e :: e in Range(events, lo, hi) <==> e in events && lo <= e.ledger <= hi
  {
    if |events| > 0 {
      RangeMembers(events[..|events| - 1], lo, hi);
      assert events == events[..|events| - 1] + [events[|events| - 1]];
    }
  }

  lemma {:induction false} HashesCut(events: seq<Seen>, lo: int, mid: int, hi: int)
    requires lo <= mid + 1 && mid <= hi
    ensures Hashes(Range(events, lo, hi)) == Hashes(Range(events, lo, mid)) + Hashes(Range(events, mid + 1, hi))
  {
    RangeMembers(events, lo, hi);
    RangeMembers(events, lo, mid);
    RangeMembers(events, mid + 1, hi);
  }

  /** Hashes of different ranges differ. */
  lemma {:induction false} HashesApart(a: seq<Seen>, b: seq<Seen>, rpc: seq<Seen>, db: seq<Seen>, lo: int, mid: int,
                                       hi: int)
    requires HashFixesLedger(rpc, db) && (a == rpc || a == db) && (b == rpc || b == db)
    ensures Hashes(Range(a, lo, mid)) !! Hashes(Range(b, mid + 1, hi))
  {
    RangeMembers(a, lo, mid);
    RangeMembers(b, mid + 1, hi);
    assert forall d, e :: d in Range(a, lo, mid) && e in Range(b, mid + 1, hi) && d.hash != "" ==> d.hash != e.hash;
  }

  lemma {:induction false} CountCut(events: seq<Seen>, lo: int, mid: int, hi: int, h: string)
    requires lo <= mid + 1 && mid <= hi
    ensures Count(Range(events, lo, hi), h) == Count(Range(events, lo, mid), h) + Count(Range(events, mid + 1, hi), h)
  {
    if |events| > 0 {
      var front, e := events[..|events| - 1], events[|events| - 1];
      CountCut(front, lo, mid, hi, h);
      CountSnoc(Range(front, lo, hi), e, h);
      CountSnoc(Range(front, lo, mid), e, h);
      CountSnoc(Range(front, mid + 1, hi), e, h);
    }
  }

  lemma {:induction false} CountSnoc(events: seq<Seen>, e: Seen, h: string)
    ensures Count(events + [e], h) == Count(events, h) + if e.hash == h then 1 else 0
  {
    assert (events + [e])[..|events|] == events;
  }

  lemma {:induction false} CountZero(events: seq<Seen>, h: string)
    requires h != ""
    ensures h !in Hashes(events) ==> Count(events, h) == 0
  {
    if |events| > 0 {
      var front, e := events[..|events| - 1], events[|events| - 1];
      assert events == front + [e];
      HashesSnoc(front, e);
      CountZero(front, h);
    }
  }

  lemma {:induction false} DuplicatesCut(rpc: seq<Seen>, db: seq<Seen>, lo: int, mid: int, hi: int)
    requires HashFixesLedger(rpc, db) && lo <= mid + 1 && mid <= hi
    ensures Duplicated(Range(db, lo, hi)) == Duplicated(Range(db, lo, mid)) + Duplicated(Range(db, mid + 1, hi))
  {
    HashesCut(db, lo, mid, hi);
    HashesApart(db, db, rpc, db, lo, mid, hi);
    forall h | h in Hashes(Range(db, lo, hi))
      ensures h in Duplicated(Range(db, lo, hi))
         <==> h in Duplicated(Range(db, lo, mid)) || h in Duplicated(Range(db, mid + 1, hi))
    {
      CountCut(db, lo, mid, hi, h);
      CountZero(Range(db, lo, mid), h);
      CountZero(Range(db, mid + 1, hi), h);
    }
  }

  lemma {:induction false} OmissionsCut(rpc: seq<Seen>, db: seq<Seen>, lo: int, mid: int, hi: int)
    requires HashFixesLedger(rpc, db) && lo <= mid + 1 && mid <= hi
    ensures Omitted(Range(rpc, lo, hi), Range(db, lo, hi))
         == Omitted(Range(rpc, lo, mid), Range(db, lo, mid)) + Omitted(Range(rpc, mid + 1, hi), Range(db, mid + 1, hi))
  {
    HashesCut(rpc, lo, mid, hi);
    HashesCut(db, lo, mid, hi);
    HashesApart(rpc, db, rpc, db, lo, mid, hi);
    HashesApart(db, rpc, rpc, db, lo, mid, hi);
  }

  function OrphanBag(known: set<string>, db: seq<Seen>, lo: int, hi: int): multiset<Seen> {
    multiset(Orphaned(known, Range(db, lo, hi)))
  }

  predicate IsOrphan(known: set<string>, row: Seen, lo: int, hi: int) {
    lo <= row.ledger <= hi && row.hash != "" && row.hash !in known
  }

  lemma {:induction false} OrphanSnoc(known: set<string>, db: seq<Seen>, row: Seen, lo: int, hi: int)
    ensures OrphanBag(known, db + [row], lo, hi)
         == OrphanBag(known, db, lo, hi) + Maybe(row, IsOrphan(known, row, lo, hi))
  {
    assert (db + [row])[..|db|] == db;
    var r := Range(db, lo, hi);
    assert (r + [row])[..|r|] == r;
  }

  function Maybe(row: Seen, b: bool): multiset<Seen> { if b then multiset{row} else multiset{} }

  lemma {:induction false} AddRow(a: multiset<Seen>, b: multiset<Seen>, row: Seen, low: bool, high: bool)
    requires !(low && high)
    ensures a + b + Maybe(row, low || high) == (a + Maybe(row, low)) + (b + Maybe(row, high))
  {
  }

  lemma {:induction false} OrphanSides(whole: set<string>, low: set<string>, high: set<string>, row: Seen, lo: int,
                                       mid: int, hi: int)
    requires lo <= mid + 1 && mid <= hi && whole == low + high
    requires OnItsSide(row, low, high, lo, mid, hi)
    ensures IsOrphan(whole, row, lo, hi) == (IsOrphan(low, row, lo, mid) || IsOrphan(high, row, mid + 1, hi))
    ensures !(IsOrphan(low, row, lo, mid) && IsOrphan(high, row, mid + 1, hi))
  {
  }

  /** A row of one side of the cut does not have a hash known on the other. */
  predicate OnItsSide(row: Seen, low: set<string>, high: set<string>, lo: int, mid: int, hi: int) {
    && (lo <= row.ledger <= mid && row.hash in high ==> row.hash == "")
    && (mid < row.ledger <= hi && row.hash in low ==> row.hash == "")
  }

  /** Rows of a range cut in two, against the hashes known in each part. */
  lemma {:induction false} OrphansCut(whole: set<string>, low: set<string>, high: set<string>, db: seq<Seen>, lo: int,
                                      mid: int, hi: int)
    requires lo <= mid + 1 && mid <= hi && whole == low + high
    requires forall i :: 0 <= i < |db| ==> OnItsSide(db[i], low, high, lo, mid, hi)
    ensures OrphanBag(whole, db, lo, hi) == OrphanBag(low, db, lo, mid) + OrphanBag(high, db, mid + 1, hi)
  {
    if |db| > 0 {
      var front, row := db[..|db| - 1], db[|db| - 1];
      OrphansCut(whole, low, high, front, lo, mid, hi);
      assert db == front + [row];
      OrphansCutNext(whole, low, high, front, row, db, lo, mid, hi);
    }
  }

  lemma {:induction false} OrphansCutNext(whole: set<string>, low: set<string>, high: set<string>, front: seq<Seen>,
                                          row: Seen, db: seq<Seen>, lo: int, mid: int, hi: int)
    requires lo <= mid + 1 && mid <= hi && whole == low + high && db == front + [row]
    requires OnItsSide(row, low, high, lo, mid, hi)
    requires OrphanBag(whole, front, lo, hi) == OrphanBag(low, front, lo, mid) + OrphanBag(high, front, mid + 1, hi)
    ensures OrphanBag(whole, db, lo, hi) == OrphanBag(low, db, lo, mid) + OrphanBag(high, db, mid + 1, hi)
  {
    OrphanSnoc(whole, front, row, lo, hi);
    OrphanSnoc(low, front, row, lo, mid);
    OrphanSnoc(high, front, row, mid + 1, hi);
    OrphanSides(whole, low, high, row, lo, mid, hi);
    AddRow(OrphanBag(low, front, lo, mid), OrphanBag(high, front, mid + 1, hi), row,
           IsOrphan(low, row, lo, mid), IsOrphan(high, row, mid + 1, hi));
  }

  /** Findings of adjacent ranges add up to the findings of their union. */
  lemma {:induction false} FindingsAdd(rpc: seq<Seen>, db: seq<Seen>, lo: int, mid: int, hi: int, f: Findings,
                                       g: Findings)
    requires HashFixesLedger(rpc, db) && lo <= mid + 1 && mid <= hi
    requires Finds(f, Range(rpc, lo, mid), Range(db, lo, mid))
    requires Finds(g, Range(rpc, mid + 1, hi), Range(db, mid + 1, hi))
    ensures Finds(Plus(f, g), Range(rpc, lo, hi), Range(db, lo, hi))
  {
    OmissionsCut(rpc, db, lo, mid, hi);
    DuplicatesCut(rpc, db, lo, mid, hi);
    HashesApart(rpc, rpc, rpc, db, lo, mid, hi);
    HashesApart(db, db, rpc, db, lo, mid, hi);
    ListsAppend(f.omissions, Omitted(Range(rpc, lo, mid), Range(db, lo, mid)),
                g.omissions, Omitted(Range(rpc, mid + 1, hi), Range(db, mid + 1, hi)));
    ListsAppend(f.duplicates, Duplicated(Range(db, lo, mid)), g.duplicates, Duplicated(Range(db, mid + 1, hi)));
    OrphansAdd(rpc, db, lo, mid, hi);
  }

  lemma {:induction false} OrphansAdd(rpc: seq<Seen>, db: seq<Seen>, lo: int, mid: int, hi: int)
    requires HashFixesLedger(rpc, db) && lo <= mid + 1 && mid <= hi
    ensures OrphanBag(Hashes(Range(rpc, lo, hi)), db, lo, hi)
         == OrphanBag(Hashes(Range(rpc, lo, mid)), db, lo, mid)
          + OrphanBag(Hashes(Range(rpc, mid + 1, hi)), db, mid + 1, hi)
  {
    var low, high := Hashes(Range(rpc, lo, mid)), Hashes(Range(rpc, mid + 1, hi));
    HashesCut(rpc, lo, mid, hi);
    RangeMembers(rpc, lo, mid);
    RangeMembers(rpc, mid + 1, hi);
    forall i | 0 <= i < |db| ensures OnItsSide(db[i], low, high, lo, mid, hi) { assert db[i] in db; }
    OrphansCut(low + high, low, high, db, lo, mid, hi);
  }

  // ---------------------------------------------------------- unverified ranges

  predicate InGap(gap: (int, int), ledger: int) { gap.0 <= ledger <= gap.1 }

  predicate InGaps(gaps: seq<(int, int)>, ledger: int) { exists i :: 0 <= i < |gaps| && InGap(gaps[i], ledger) }

  /** The events of the ledgers inside the ranges, or of those outside them. */
  function Part(events: seq<Seen>, gaps: seq<(int, int)>, inside: bool): seq<Seen> {
    if |events| == 0 then []
    else
      var front, e := Part(events[..|events| - 1], gaps, inside), events[|events| - 1];
      if InGaps(gaps, e.ledger) == inside then front + [e] else front
  }

  lemma {:induction false} PartSnoc(events: seq<Seen>, e: Seen, gaps: seq<(int, int)>, inside: bool)
    ensures Part(events + [e], gaps, inside)
         == if InGaps(gaps, e.ledger) == inside then Part(events, gaps, inside) + [e] else Part(events, gaps, inside)
  {
    assert (events + [e])[..|events|] == events;
  }

  lemma {:induction false} PartMembers(events: seq<Seen>, gaps: seq<(int, int)>, inside: bool)
    ensures forall e :: e in Part(events, gaps, inside) <==> e in events && InGaps(gaps, e.ledger) == inside
  {
    if |events| > 0 {
      PartMembers(events[..|events| - 1], gaps, inside);
      assert events == events[..|events| - 1] + [events[|events| - 1]];
    }
  }

  lemma {:induction false} NoGaps(events: seq<Seen>)
    ensures Part(events, [], false) == events
  {
    if |events| > 0 {
      var front, e := events[..|events| - 1], events[|events| - 1];
      NoGaps(front);
      PartSnoc(front, e, [], false);
      assert front + [e] == events;
    }
  }

  lemma {:induction false} RangeOfPart(events: seq<Seen>, gaps: seq<(int, int)>, lo: int, hi: int)
    ensures Range(Part(events, gaps, false), lo, hi) == Part(Range(events, lo, hi), gaps, false)
  {
    if |events| > 0 {
      var front, e := events[..|events| - 1], events[|events| - 1];
      RangeOfPart(front, gaps, lo, hi);
      PartSnoc(Range(front, lo, hi), e, gaps, false);
      RangeSnoc(Part(front, gaps, false), e, lo, hi);
    }
  }

  /** Ranges that disagree only outside `lo..hi` leave the same events of it. */
  lemma {:induction false} SameGaps(events: seq<Seen>, gaps: seq<(int, int)>, other: seq<(int, int)>, lo: int, hi: int)
    requires forall l :: lo <= l <= hi ==> (InGaps(gaps, l) <==> InGaps(other, l))
    ensures Part(Range(events, lo, hi), gaps, false) == Part(Range(events, lo, hi), other, false)
  {
    if |events| > 0 {
      var front, e := events[..|events| - 1], events[|events| - 1];
      SameGaps(front, gaps, other, lo, hi);
      PartSnoc(Range(front, lo, hi), e, gaps, false);
      PartSnoc(Range(front, lo, hi), e, other, false);
    }
  }

  lemma {:induction false} PartFixes(rpc: seq<Seen>, db: seq<Seen>, gaps: seq<(int, int)>)
    requires HashFixesLedger(rpc, db)
    ensures HashFixesLedger(Part(rpc, gaps, false), Part(db, gaps, false))
  {
    PartMembers(rpc, gaps, false);
    PartMembers(db, gaps, false);
  }

  // What the two parts hold together.

  lemma {:induction false} PartHashes(events: seq<Seen>, gaps: seq<(int, int)>)
    ensures Hashes(events) == Hashes(Part(events, gaps, true)) + Hashes(Part(events, gaps, false))
  {
    PartMembers(events, gaps, true);
    PartMembers(events, gaps, false);
  }

  lemma {:induction false} PartsApart(a: seq<Seen>, b: seq<Seen>, rpc: seq<Seen>, db: seq<Seen>, gaps: seq<(int, int)>)
    requires HashFixesLedger(rpc, db) && (a == rpc || a == db) && (b == rpc || b == db)
    ensures Hashes(Part(a, gaps, true)) !! Hashes(Part(b, gaps, false))
  {
    PartMembers(a, gaps, true);
    PartMembers(b, gaps, false);
    assert forall d, e :: d in Part(a, gaps, true) && e in Part(b, gaps, false) && d.hash != "" ==> d.hash != e.hash;
  }

  lemma {:induction false} PartCount(events: seq<Seen>, gaps: seq<(int, int)>, h: string)
    ensures Count(events, h) == Count(Part(events, gaps, true), h) + Count(Part(events, gaps, false), h)
  {
    if |events| > 0 {
      var front, e := events[..|events| - 1], events[|events| - 1];
      PartCount(front, gaps, h);
      CountSnoc(Part(front, gaps, true), e, h);
      CountSnoc(Part(front, gaps, false), e, h);
    }
  }

  lemma {:induction false} PartOmitted(rpc: seq<Seen>, db: seq<Seen>, gaps: seq<(int, int)>)
    requires HashFixesLedger(rpc, db)
    ensures Omitted(rpc, db)
         == Omitted(Part(rpc, gaps, true), Part(db, gaps, true))
          + Omitted(Part(rpc, gaps, false), Part(db, gaps, false))
    ensures Omitted(Part(rpc, gaps, true), Part(db, gaps, true))
         !! Omitted(Part(rpc, gaps, false), Part(db, gaps, false))
  {
    PartHashes(rpc, gaps);
    PartHashes(db, gaps);
    PartsApart(rpc, db, rpc, db, gaps);
    PartsApart(db, rpc, rpc, db, gaps);
    PartsApart(rpc, rpc, rpc, db, gaps);
  }

  lemma {:induction false} PartDuplicated(rpc: seq<Seen>, db: seq<Seen>, gaps: seq<(int, int)>)
    requires HashFixesLedger(rpc, db)
    ensures Duplicated(db) == Duplicated(Part(db, gaps, true)) + Duplicated(Part(db, gaps, false))
    ensures Duplicated(Part(db, gaps, true)) !! Duplicated(Part(db, gaps, false))
  {
    PartHashes(db, gaps);
    PartsApart(db, db, rpc, db, gaps);
    forall h | h in Hashes(db)
      ensures h in Duplicated(db) <==> h in Duplicated(Part(db, gaps, true)) || h in Duplicated(Part(db, gaps, false))
    {
      PartCount(db, gaps, h);
      CountZero(Part(db, gaps, true), h);
      CountZero(Part(db, gaps, false), h);
    }
  }

  function Orphans(known: set<string>, db: seq<Seen>): multiset<Seen> { multiset(Orphaned(known, db)) }

  lemma {:induction false} OrphansSnoc(known: set<string>, db: seq<Seen>, row: Seen)
    ensures Orphans(known, db + [row]) == Orphans(known, db) + Maybe(row, row.hash != "" && row.hash !in known)
  {
    assert (db + [row])[..|db|] == db;
  }

  /** A row inside the gaps does not have a hash known outside them, and conversely. */
  predicate OnItsPart(row: Seen, within: set<string>, without: set<string>, gaps: seq<(int, int)>) {
    row.hash in (if InGaps(gaps, row.ledger) then without else within) ==> row.hash == ""
  }

  lemma {:induction false} PartOrphans(within: set<string>, without: set<string>, db: seq<Seen>, gaps: seq<(int, int)>)
    requires forall i :: 0 <= i < |db| ==> OnItsPart(db[i], within, without, gaps)
    ensures Orphans(within + without, db)
         == Orphans(within, Part(db, gaps, true)) + Orphans(without, Part(db, gaps, false))
  {
    if |db| > 0 {
      var front, row := db[..|db| - 1], db[|db| - 1];
      PartOrphans(within, without, front, gaps);
      assert db == front + [row];
      PartOrphansNext(within, without, front, row, db, gaps);
    }
  }

  lemma {:induction false} PartOrphansNext(within: set<string>, without: set<string>, front: seq<Seen>, row: Seen,
                                           db: seq<Seen>, gaps: seq<(int, int)>)
    requires db == front + [row] && OnItsPart(row, within, without, gaps)
    requires Orphans(within + without, front)
          == Orphans(within, Part(front, gaps, true)) + Orphans(without, Part(front, gaps, false))
    ensures Orphans(within + without, db)
         == Orphans(within, Part(db, gaps, true)) + Orphans(without, Part(db, gaps, false))
  {
    PartSnoc(front, row, gaps, true);
    PartSnoc(front, row, gaps, false);
    if InGaps(gaps, row.ledger) {
      RowInside(within, without, front, row, Part(front, gaps, true), Part(front, gaps, false));
    } else {
      RowOutside(within, without, front, row, Part(front, gaps, true), Part(front, gaps, false));
    }
  }

  lemma {:induction false} RowInside(within: set<string>, without: set<string>, front: seq<Seen>, row: Seen,
                                     a: seq<Seen>, b: seq<Seen>)
    requires Orphans(within + without, front) == Orphans(within, a) + Orphans(without, b)
    requires row.hash in without ==> row.hash == ""
    ensures Orphans(within + without, front + [row]) == Orphans(within, a + [row]) + Orphans(without, b)
  {
    OrphansSnoc(within + without, front, row);
    OrphansSnoc(within, a, row);
  }

  lemma {:induction false} RowOutside(within: set<string>, without: set<string>, front: seq<Seen>, row: Seen,
                                      a: seq<Seen>, b: seq<Seen>)
    requires Orphans(within + without, front) == Orphans(within, a) + Orphans(without, b)
    requires row.hash in within ==> row.hash == ""
    ensures Orphans(within + without, front + [row]) == Orphans(within, a) + Orphans(without, b + [row])
  {
    OrphansSnoc(within + without, front, row);
    OrphansSnoc(without, b, row);
  }

  lemma {:induction false} PartsOrphans(rpc: seq<Seen>, db: seq<Seen>, gaps: seq<(int, int)>)
    requires HashFixesLedger(rpc, db)
    ensures Orphans(Hashes(rpc), db)
         == Orphans(Hashes(Part(rpc, gaps, true)), Part(db, gaps, true))
          + Orphans(Hashes(Part(rpc, gaps, false)), Part(db, gaps, false))
  {
    PartHashes(rpc, gaps);
    PartMembers(rpc, gaps, true);
    PartMembers(rpc, gaps, false);
    forall i | 0 <= i < |db|
      ensures OnItsPart(db[i], Hashes(Part(rpc, gaps, true)), Hashes(Part(rpc, gaps, false)), gaps)
    {
      assert db[i] in db;
    }
    PartOrphans(Hashes(Part(rpc, gaps, true)), Hashes(Part(rpc, gaps, false)), db, gaps);
  }

  /** There is nothing to be found. */
  predicate Clean(rpc: seq<Seen>, db: seq<Seen>) {
    Omitted(rpc, db) == {} && Duplicated(db) == {} && Orphaned(Hashes(rpc), db) == []
  }

  /**
    Findings from the ledgers outside the unverified ranges are those of all ledgers if and only
    if there is nothing to be found inside them.
  */
  lemma {:induction false} UnverifiedExactly(f: Findings, rpc: seq<Seen>, db: seq<Seen>, gaps: seq<(int, int)>)
    requires HashFixesLedger(rpc, db) && Finds(f, Part(rpc, gaps, false), Part(db, gaps, false))
    ensures Finds(f, rpc, db) <==> Clean(Part(rpc, gaps, true), Part(db, gaps, true))
  {
    PartOmitted(rpc, db, gaps);
    PartDuplicated(rpc, db, gaps);
    PartsOrphans(rpc, db, gaps);
    ListsMore(f.omissions, Omitted(Part(rpc, gaps, false), Part(db, gaps, false)),
              Omitted(Part(rpc, gaps, true), Part(db, gaps, true)));
    ListsMore(f.duplicates, Duplicated(Part(db, gaps, false)), Duplicated(Part(db, gaps, true)));
    BagMore(Orphans(Hashes(Part(rpc, gaps, false)), Part(db, gaps, false)),
            Orphaned(Hashes(Part(rpc, gaps, true)), Part(db, gaps, true)));
  }

  lemma {:induction false} ListsMore(l: seq<string>, s: set<string>, more: set<string>)
    requires Lists(l, s) && more !! s
    ensures Lists(l, more + s) <==> more == {}
  {
    if h :| h in more {
      assert h in more + s && h !in l;
    } else {
      assert more + s == s;
    }
  }

  lemma {:induction false} BagMore(bag: multiset<Seen>, more: seq<Seen>)
    ensures bag == multiset(more) + bag <==> more == []
  {
    if more != [] { assert |multiset(more) + bag| == |more| + |bag|; }
  }

  // ------------------------------------------------------------------ the run

  /** The findings and the event counts of a range. */
  ghost predicate Scanned(f: Findings, rpcCount: int, dbCount: int, rpc: seq<Seen>, db: seq<Seen>) {
    Finds(f, rpc, db) && rpcCount == |rpc| && dbCount == |db|
  }

  lemma {:induction false} ScannedOn(rpc: seq<Seen>, db: seq<Seen>, lo: int, mid: int, hi: int, f: Findings,
                                     rpcCount: int, dbCount: int, g: Findings)
    requires HashFixesLedger(rpc, db) && lo <= mid + 1 && mid <= hi
    requires Scanned(f, rpcCount, dbCount, Range(rpc, lo, mid), Range(db, lo, mid))
    requires Finds(g, Range(rpc, mid + 1, hi), Range(db, mid + 1, hi))
    ensures Scanned(Plus(f, g), rpcCount + |Range(rpc, mid + 1, hi)|, dbCount + |Range(db, mid + 1, hi)|,
                    Range(rpc, lo, hi), Range(db, lo, hi))
  {
    FindingsAdd(rpc, db, lo, mid, hi, f, g);
    RangeLength(rpc, lo, mid, hi);
    RangeLength(db, lo, mid, hi);
  }

  /** The ranges lie between two ledgers. */
  ghost predicate Between(gaps: seq<(int, int)>, lo: int, hi: int) {
    forall i :: 0 <= i < |gaps| ==> lo <= gaps[i].0 <= gaps[i].1 <= hi
  }

  /** The findings and counts are those of the ledgers from `lo` to `hi` outside the ranges. */
  ghost predicate Compared(f: Findings, rpcCount: int, dbCount: int, rpc: seq<Seen>, db: seq<Seen>,
                           gaps: seq<(int, int)>, lo: int, hi: int)
  {
    && Between(gaps, lo, hi)
    && Scanned(f, rpcCount, dbCount, Part(Range(rpc, lo, hi), gaps, false), Part(Range(db, lo, hi), gaps, false))
  }

  /** Going on past the ranges: the part of the events there is all of them. */
  lemma {:induction false} PastGaps(events: seq<Seen>, gaps: seq<(int, int)>, lo: int, hi: int)
    requires forall i :: 0 <= i < |gaps| ==> gaps[i].1 < lo
    ensures Range(Part(events, gaps, false), lo, hi) == Range(events, lo, hi)
  {
    RangeOfPart(events, gaps, lo, hi);
    SameGaps(events, gaps, [], lo, hi);
    NoGaps(Range(events, lo, hi));
  }

  lemma {:induction false} ComparedOn(f: Findings, rpcCount: int, dbCount: int, rpc: seq<Seen>, db: seq<Seen>,
                                      gaps: seq<(int, int)>, lo: int, next: int, hi: int, g: Findings)
    requires HashFixesLedger(rpc, db) && lo <= next <= hi && Compared(f, rpcCount, dbCount, rpc, db, gaps, lo, next - 1)
    requires Finds(g, Range(rpc, next, hi), Range(db, next, hi))
    ensures Compared(Plus(f, g), rpcCount + |Range(rpc, next, hi)|, dbCount + |Range(db, next, hi)|,
                     rpc, db, gaps, lo, hi)
  {
    PartFixes(rpc, db, gaps);
    PastGaps(rpc, gaps, next, hi);
    PastGaps(db, gaps, next, hi);
    RangeOfPart(rpc, gaps, lo, next - 1);
    RangeOfPart(db, gaps, lo, next - 1);
    RangeOfPart(rpc, gaps, lo, hi);
    RangeOfPart(db, gaps, lo, hi);
    ScannedOn(Part(rpc, gaps, false), Part(db, gaps, false), lo, next - 1, hi, f, rpcCount, dbCount, g);
  }

  /** A window that joins the ranges leaves the events outside them as they were. */
  lemma {:induction false} GapAdded(events: seq<Seen>, gaps: seq<(int, int)>, lo: int, next: int, hi: int)
    requires Between(gaps, lo, next - 1) && lo <= next <= hi
    ensures Part(Range(events, lo, hi), gaps + [(next, hi)], false) == Part(Range(events, lo, next - 1), gaps, false)
  {
    var more := gaps + [(next, hi)];
    assert more[|gaps|] == (next, hi);
    forall l | lo <= l < next ensures InGaps(more, l) <==> InGaps(gaps, l) {
      if i :| 0 <= i < |gaps| && InGap(gaps[i], l) { assert more[i] == gaps[i]; }
    }
    SameGaps(events, more, gaps, lo, next - 1);
    PartCut(events, more, lo, next, hi);
  }

  /** If the last ledgers of a range are all in gaps, the part outside is that of the first ones. */
  lemma {:induction false} PartCut(events: seq<Seen>, gaps: seq<(int, int)>, lo: int, next: int, hi: int)
    requires lo <= next <= hi && forall l :: next <= l <= hi ==> InGaps(gaps, l)
    ensures Part(Range(events, lo, hi), gaps, false) == Part(Range(events, lo, next - 1), gaps, false)
  {
    if |events| > 0 {
      var front, e := events[..|events| - 1], events[|events| - 1];
      PartCut(front, gaps, lo, next, hi);
      PartSnoc(Range(front, lo, hi), e, gaps, false);
      PartSnoc(Range(front, lo, next - 1), e, gaps, false);
    }
  }

  lemma {:induction false} ComparedPast(f: Findings, rpcCount: int, dbCount: int, rpc: seq<Seen>, db: seq<Seen>,
                                        gaps: seq<(int, int)>, lo: int, next: int, hi: int)
    requires lo <= next <= hi && Compared(f, rpcCount, dbCount, rpc, db, gaps, lo, next - 1)
    ensures Compared(f, rpcCount, dbCount, rpc, db, gaps + [(next, hi)], lo, hi)
  {
    GapAdded(rpc, gaps, lo, next, hi);
    GapAdded(db, gaps, lo, next, hi);
  }

  lemma {:induction false} ComparedAll(f: Findings, rpcCount: int, dbCount: int, rpc: seq<Seen>, db: seq<Seen>,
                                       lo: int, hi: int)
    requires Compared(f, rpcCount, dbCount, rpc, db, [], lo, hi)
    ensures Scanned(f, rpcCount, dbCount, Range(rpc, lo, hi), Range(db, lo, hi))
  {
    NoGaps(Range(rpc, lo, hi));
    NoGaps(Range(db, lo, hi));
  }

  function MinInt(a: int, b: int): int { if a < b then a else b }

  /** The first ledger of window number `n`. */
  function WindowStart(start: int, size: nat, n: nat): int {
    if n == 0 then start else WindowStart(start, size, n - 1) + size
  }

  /** After a number of windows: where the next one starts, and the last ledger seen. */
  ghost predicate Walked(start: int, toLedger: int, size: nat, windows: nat, next: int, last: int) {
    && next == WindowStart(start, size, windows) && windows <= last - start + 1
    && (if windows == 0 then last == start - 1 else start <= last == MinInt(next - 1, toLedger))
  }

  lemma {:induction false} WalkedNext(start: int, toLedger: int, size: nat, windows: nat, next: int, last: int)
    requires Walked(start, toLedger, size, windows, next, last) && next <= toLedger && size > 0
    ensures start <= next == last + 1
    ensures Walked(start, toLedger, size, windows + 1, next + size, MinInt(next + size - 1, toLedger))
  {
  }

  /** Those of the first `n` windows whose fetch fails. */
  function FailedWindows(start: int, size: nat, toLedger: int, n: nat, failing: set<int>): seq<(int, int)> {
    if n == 0 then []
    else
      var front, first := FailedWindows(start, size, toLedger, n - 1, failing), WindowStart(start, size, n - 1);
      if first in failing then front + [(first, MinInt(first + size - 1, toLedger))] else front
  }

  class Report {
    var findings: Findings
    var unverified: seq<(int, int)>
    var cursor: int
    var scanned: nat
    var rpcEventCount: nat
    var dbEventCount: nat
    var complete: bool

    constructor (fromLedger: int, cursorLedger: Option<int>)
      ensures findings == NOTHING && unverified == [] && scanned == 0 && rpcEventCount == 0 && dbEventCount == 0
      ensures cursor == (if cursorLedger.Some? then cursorLedger.value else fromLedger - 1)
    {
      findings, unverified, scanned, rpcEventCount, dbEventCount := NOTHING, [], 0, 0, 0;
      cursor, complete := if cursorLedger.Some? then cursorLedger.value else fromLedger - 1, false;
    }

    /** One window; a failed fetch is recorded as unverified and contributes no findings. */
    method VerifyWindow(fetched: Option<seq<Seen>>, stored: seq<Seen>, lo: int, hi: int)
      modifies this`findings, this`unverified, this`rpcEventCount, this`dbEventCount
      ensures fetched.None? ==> unverified == old(unverified) + [(lo, hi)] && findings == old(findings)
      ensures fetched.Some? ==> unverified == old(unverified)
      ensures fetched.Some? ==>
                rpcEventCount == old(rpcEventCount) + |fetched.value| && dbEventCount == old(dbEventCount) + |stored|
      ensures fetched.None? ==> rpcEventCount == old(rpcEventCount) && dbEventCount == old(dbEventCount)
      ensures fetched.Some? ==> exists f :: Finds(f, fetched.value, stored) && findings == Plus(old(findings), f)
    {
      if fetched.None? {
        unverified := unverified + [(lo, hi)];
        return;
      }
      var f := CompareWindow(fetched.value, stored);
      findings := Plus(findings, f);
      rpcEventCount := rpcEventCount + |fetched.value|;
      dbEventCount := dbEventCount + |stored|;
    }

    /** Verifies one window and advances the cursor over it. */
    method ScanWindow(rpc: seq<Seen>, db: seq<Seen>, failing: set<int>, ghost start: int, next: int, windowEnd: int)
      requires HashFixesLedger(rpc, db) && start <= next <= windowEnd
      requires Compared(findings, rpcEventCount, dbEventCount, rpc, db, unverified, start, next - 1)
      modifies this
      ensures Compared(findings, rpcEventCount, dbEventCount, rpc, db, unverified, start, windowEnd)
      ensures unverified == (if next in failing then old(unverified) + [(next, windowEnd)] else old(unverified))
      ensures cursor == windowEnd && scanned == old(scanned) + (windowEnd - next + 1)
    {
      ghost var before, rpcBefore, dbBefore, gaps := findings, rpcEventCount, dbEventCount, unverified;
      var fetched := if next in failing then None else Some(Range(rpc, next, windowEnd));
      VerifyWindow(fetched, Range(db, next, windowEnd), next, windowEnd);
      if fetched.Some? {
        ghost var f :| Finds(f, Range(rpc, next, windowEnd), Range(db, next, windowEnd)) && findings == Plus(before, f);
        ComparedOn(before, rpcBefore, dbBefore, rpc, db, gaps, start, next, windowEnd, f);
      } else {
        ComparedPast(before, rpcBefore, dbBefore, rpc, db, gaps, start, next, windowEnd);
      }
      cursor := windowEnd;
      scanned := scanned + (windowEnd - next + 1);
    }

    /**
      A run that may be stopped after any number of windows.  The findings are those of all
      ledgers from the start to the cursor outside the windows whose fetch failed, which are
      exactly the unverified ranges, whatever the window size.  A complete report may have some.
    */
    method Run(rpc: seq<Seen>, db: seq<Seen>, failing: set<int>, fromLedger: int, toLedger: int, windowSize: nat,
               budget: nat)
      returns (start: int, windows: nat)
      requires windowSize > 0 && HashFixesLedger(rpc, db)
      requires findings == NOTHING && unverified == [] && scanned == 0 && rpcEventCount == 0 && dbEventCount == 0
      modifies this
      ensures start == (if fromLedger < old(cursor) + 1 then old(cursor) + 1 else fromLedger)
      ensures cursor == old(cursor) || start <= cursor <= toLedger
      ensures cursor != old(cursor) ==>
                Compared(findings, rpcEventCount, dbEventCount, rpc, db, unverified, start, cursor)
      ensures cursor != old(cursor) && unverified == [] ==>
                Scanned(findings, rpcEventCount, dbEventCount, Range(rpc, start, cursor), Range(db, start, cursor))
      ensures unverified == FailedWindows(start, windowSize, toLedger, windows, failing)
      ensures windows > 0 ==> cursor == MinInt(WindowStart(start, windowSize, windows) - 1, toLedger)
      ensures cursor == old(cursor) ==> findings == NOTHING && windows == 0
      ensures scanned == (if cursor == old(cursor) then 0 else cursor - start + 1)
      ensures complete <==> cursor >= toLedger
      ensures start <= toLedger && toLedger - start < budget ==> complete
    {
      start := if fromLedger < cursor + 1 then cursor + 1 else fromLedger;
      NothingFound(rpc, db, start);
      var last;
      windows, last := Walk(rpc, db, failing, start, toLedger, windowSize, budget);
      complete := cursor >= toLedger;
      if unverified == [] { ComparedAll(findings, rpcEventCount, dbEventCount, rpc, db, start, last); }
    }

    /** The windows from the start ledger on, up to the last one or the budget. */
    method Walk(rpc: seq<Seen>, db: seq<Seen>, failing: set<int>, start: int, toLedger: int, windowSize: nat,
                budget: nat)
      returns (windows: nat, last: int)
      requires windowSize > 0 && HashFixesLedger(rpc, db) && scanned == 0 && unverified == []
      requires Compared(findings, rpcEventCount, dbEventCount, rpc, db, [], start, start - 1)
      modifies this
      ensures Walked(start, toLedger, windowSize, windows, WindowStart(start, windowSize, windows), last)
      ensures windows == budget || WindowStart(start, windowSize, windows) > toLedger
      ensures cursor == (if windows == 0 then old(cursor) else last) && scanned == last - start + 1
      ensures windows == 0 ==> findings == old(findings)
      ensures unverified == FailedWindows(start, windowSize, toLedger, windows, failing)
      ensures Compared(findings, rpcEventCount, dbEventCount, rpc, db, unverified, start, last)
    {
      windows, last := 0, start - 1;
      var next := start;
      while next <= toLedger && windows < budget
        invariant Walked(start, toLedger, windowSize, windows, next, last) && windows <= budget
        invariant cursor == (if windows == 0 then old(cursor) else last) && scanned == last - start + 1
        invariant windows == 0 ==> findings == old(findings)
        invariant unverified == FailedWindows(start, windowSize, toLedger, windows, failing)
        invariant Compared(findings, rpcEventCount, dbEventCount, rpc, db, unverified, start, last)
        decreases budget - windows
      {
        WalkedNext(start, toLedger, windowSize, windows, next, last);
        last := MinInt(next + windowSize - 1, toLedger);
        ScanWindow(rpc, db, failing, start, next, last);
        next, windows := next + windowSize, windows + 1;
      }
    }
  }

  lemma {:induction false} NothingFound(rpc: seq<Seen>, db: seq<Seen>, start: int)
    ensures Compared(NOTHING, 0, 0, rpc, db, [], start, start - 1)
  {
    EmptyRange(rpc, start);
    EmptyRange(db, start);
  }

  lemma {:induction false} RangeLength(events: seq<Seen>, lo: int, mid: int, hi: int)
    requires lo <= mid + 1 && mid <= hi
    ensures |Range(events, lo, hi)| == |Range(events, lo, mid)| + |Range(events, mid + 1, hi)|
  {
    if |events| > 0 { RangeLength(events[..|events| - 1], lo, mid, hi); }
  }

  lemma {:induction false} EmptyRange(events: seq<Seen>, start: int)
    ensures Range(events, start, start - 1) == []
  {
    if |events| > 0 { EmptyRange(events[..|events| - 1], start); }
  }

  /** Lists of the same set differ in order only, so findings over a range are unique up to order. */
  lemma {:induction false} SameFindings(f: Findings, g: Findings, rpc: seq<Seen>, db: seq<Seen>)
    requires Finds(f, rpc, db) && Finds(g, rpc, db)
    ensures multiset(f.omissions) == multiset(g.omissions) && multiset(f.orphans) == multiset(g.orphans)
    ensures multiset(f.duplicates) == multiset(g.duplicates)
  {
    ListedSet(f.omissions, Omitted(rpc, db));
    ListedSet(g.omissions, Omitted(rpc, db));
    ListedSet(f.duplicates, Duplicated(db));
    ListedSet(g.duplicates, Duplicated(db));
  }

  lemma {:induction false} ListedSet(l: seq<string>, s: set<string>)
    requires Lists(l, s)
    ensures multiset(l) == multiset(s)
  {
    if |l| > 0 {
      var front, h := l[..|l| - 1], l[|l| - 1];
      assert l == front + [h];
      assert h !in front;
      ListedSet(front, s - {h});
    } else {
      assert s == {};
    }
  }

  /** Stopping at any cursor and resuming after it finds what one uninterrupted run finds. */
  lemma {:induction false} ResumedRun(rpc: seq<Seen>, db: seq<Seen>, lo: int, mid: int, hi: int, f: Findings,
                                      g: Findings, whole: Findings)
    requires HashFixesLedger(rpc, db) && lo <= mid + 1 && mid <= hi
    requires Finds(f, Range(rpc, lo, mid), Range(db, lo, mid))
    requires Finds(g, Range(rpc, mid + 1, hi), Range(db, mid + 1, hi))
    requires Finds(whole, Range(rpc, lo, hi), Range(db, lo, hi))
    ensures multiset(f.omissions) + multiset(g.omissions) == multiset(whole.omissions)
    ensures multiset(f.orphans) + multiset(g.orphans) == multiset(whole.orphans)
    ensures multiset(f.duplicates) + multiset(g.duplicates) == multiset(whole.duplicates)
  {
    FindingsAdd(rpc, db, lo, mid, hi, f, g);
    SameFindings(Plus(f, g), whole, Range(rpc, lo, hi), Range(db, lo, hi));
  }

  /** A range without omissions and orphans holds the same hashes on both sides, and conversely. */
  lemma {:induction false} CleanExactly(f: Findings, rpc: seq<Seen>, db: seq<Seen>)
    requires Finds(f, rpc, db)
    ensures f.omissions == [] && f.orphans == [] <==> Hashes(rpc) == Hashes(db)
  {
    OrphanMembers(Hashes(rpc), db);
    assert |multiset(f.orphans)| == |f.orphans| && |multiset(Orphaned(Hashes(rpc), db))| == |Orphaned(Hashes(rpc), db)|;
    if f.omissions == [] && f.orphans == [] {
      forall h | h in Hashes(rpc) ensures h in Hashes(db) {
        assert h !in f.omissions;
        assert h !in Omitted(rpc, db);
      }
      forall h | h in Hashes(db) ensures h in Hashes(rpc) {
        var e :| e in db && e.hash != "" && e.hash == h;
        assert e !in Orphaned(Hashes(rpc), db);
      }
    }
    if Hashes(rpc) == Hashes(db) {
      assert Omitted(rpc, db) == {};
      ListedSet(f.omissions, {});
      assert |multiset(f.omissions)| == |f.omissions|;
      NoOrphans(Hashes(rpc), db);
    }
  }

  lemma {:induction false} NoOrphans(known: set<string>, db: seq<Seen>)
    requires Hashes(db) <= known
    ensures Orphaned(known, db) == []
  {
    if |db| > 0 {
      assert db == db[..|db| - 1] + [db[|db| - 1]];
      HashesSnoc(db[..|db| - 1], db[|db| - 1]);
      NoOrphans(known, db[..|db| - 1]);
    }
  }

  lemma {:induction false} OrphanMembers(known: set<string>, db: seq<Seen>)
    ensures forall e :: e in Orphaned(known, db) <==> e in db && e.hash != "" && e.hash !in known
  {
    if |db| > 0 {
      OrphanMembers(known, db[..|db| - 1]);
      assert db == db[..|db| - 1] + [db[|db| - 1]];
    }
  }
}
