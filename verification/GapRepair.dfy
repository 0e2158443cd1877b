/** Gap repair: workers claim open gaps by compare-and-set while the poller records new ones. */
module GapRepair {
  import opened Wrappers

  datatype Status = Open | Repairing | Repaired | Failed

  datatype Key = Key(from: nat, to: nat, source: string)

  /** Rows are in order of creation; a row's position is its id. */
  datatype Row = Row(key: Key, status: Status)

  predicate HasKey(rows: seq<Row>, key: Key) { exists i :: 0 <= i < |rows| && rows[i].key == key }

  /** `persistLedgerGap`: an existing row keeps its status. */
  function Record(rows: seq<Row>, key: Key): seq<Row> {
    if HasKey(rows, key) then rows else rows + [Row(key, Open)]
  }

  ghost predicate UniqueKeys(rows: seq<Row>) {
    forall i, j :: 0 <= i < j < |rows| ==> rows[i].key != rows[j].key
  }

  /** Recording keeps every row with its status and the keys unique, and adds one open row exactly for a new range. */
  lemma {:induction false} RecordKeeps(rows: seq<Row>, key: Key)
    requires UniqueKeys(rows)
    ensures rows <= Record(rows, key) && UniqueKeys(Record(rows, key)) && HasKey(Record(rows, key), key)
    ensures |Record(rows, key)| == |rows| + (if HasKey(rows, key) then 0 else 1)
    ensures OpenCount(Record(rows, key)) == OpenCount(rows) + (if HasKey(rows, key) then 0 else 1)
  {
    var after := Record(rows, key);
    if !HasKey(rows, key) {
      assert after[..|rows|] == rows && after[|rows|].key == key;
    }
  }

  function OpenCount(rows: seq<Row>): nat {
    if |rows| == 0 then 0 else OpenCount(rows[..|rows| - 1]) + if rows[|rows| - 1].status.Open? then 1 else 0
  }

  function SetStatus(rows: seq<Row>, gap: nat, status: Status): seq<Row>
    requires gap < |rows|
  {
    rows[gap := rows[gap].(status := status)]
  }

  /** The oldest open gap. */
  ghost predicate Oldest(rows: seq<Row>, gap: nat) {
    gap < |rows| && rows[gap].status.Open? && forall i :: 0 <= i < gap ==> !rows[i].status.Open?
  }

  // --------------------------------------------------------------- machine

  /** Where a worker is in its repair cycle; a cycle ends when no gap is open or a claim is lost to another worker. */
  datatype Pc = Idle | Chosen(gap: nat) | Holding(gap: nat) | Stopped

  datatype Claim = Claim(worker: nat, gap: nat)

  datatype State = State(rows: seq<Row>, workers: map<nat, Pc>, claims: seq<Claim>)

  datatype Label =
    | RecordGap(key: Key)
    | StartCycle(w: nat)
    | Find(w: nat, gap: nat) | FindNone(w: nat)
    | Cas(w: nat) | Finish(w: nat, repaired: bool)
    | Die(w: nat)

  predicate In(s: State, w: nat, pc: Pc) { w in s.workers && s.workers[w] == pc }

  ghost predicate Next(s: State, l: Label, t: State) {
    match l
    case RecordGap(key) => t == s.(rows := Record(s.rows, key))
    case StartCycle(w) => (w !in s.workers || s.workers[w].Stopped?) && t == s.(workers := s.workers[w := Idle])
    case Find(w, gap) => In(s, w, Idle) && Oldest(s.rows, gap) && t == s.(workers := s.workers[w := Chosen(gap)])
    case FindNone(w) => In(s, w, Idle) && OpenCount(s.rows) == 0 && t == s.(workers := s.workers[w := Stopped])
    case Cas(w) =>
      && w in s.workers && s.workers[w].Chosen? && s.workers[w].gap < |s.rows|
      && var gap := s.workers[w].gap;
         t == if s.rows[gap].status.Open?
              then State(SetStatus(s.rows, gap, Repairing), s.workers[w := Holding(gap)], s.claims + [Claim(w, gap)])
              else s.(workers := s.workers[w := Stopped])
    case Finish(w, repaired) =>
      && w in s.workers && s.workers[w].Holding? && s.workers[w].gap < |s.rows|
      && t == s.(rows := SetStatus(s.rows, s.workers[w].gap, if repaired then Repaired else Failed), workers := s.workers[w := Idle])
    case Die(w) => t == s.(workers := s.workers - {w})
  }

  ghost predicate Inv(s: State) {
    && UniqueKeys(s.rows)
    && (forall i, j :: 0 <= i < j < |s.claims| ==> s.claims[i].gap != s.claims[j].gap)
    && (forall i :: 0 <= i < |s.claims| ==> s.claims[i].gap < |s.rows| && !s.rows[s.claims[i].gap].status.Open?)
    && (forall w :: w in s.workers && s.workers[w].Chosen? ==> s.workers[w].gap < |s.rows|)
    && (forall w :: w in s.workers && s.workers[w].Holding? ==> Claim(w, s.workers[w].gap) in s.claims)
  }

  lemma {:induction false} EveryStep(s: State, l: Label, t: State)
    requires Inv(s) && Next(s, l, t)
    ensures Inv(t)
  {
    if l.Cas? {
      assert forall i :: 0 <= i < |s.claims| ==> t.claims[i] == s.claims[i];
    }
    if l.RecordGap? { RecordKeeps(s.rows, l.key); }
  }

  ghost predicate Run(states: seq<State>, labels: seq<Label>) {
    && |states| == |labels| + 1 && states[0] == State([], map[], [])
    && forall i :: 0 <= i < |labels| ==> Next(states[i], labels[i], states[i + 1])
  }

  lemma {:induction false} Reachable(states: seq<State>, labels: seq<Label>, i: nat)
    requires Run(states, labels) && i < |states|
    ensures Inv(states[i])
  {
    if i > 0 {
      Reachable(states, labels, i - 1);
      EveryStep(states[i - 1], labels[i - 1], states[i]);
    }
  }

  /** In every interleaving each gap is claimed at most once over the whole run. */
  lemma {:induction false} ClaimedOnce(states: seq<State>, labels: seq<Label>, i: nat, j: nat, k: nat)
    requires Run(states, labels) && i < |states| && j < |states[i].claims| && k < |states[i].claims|
    ensures states[i].claims[j].gap == states[i].claims[k].gap ==> j == k
  {
    Reachable(states, labels, i);
  }

  /** In every interleaving no two workers hold the same gap. */
  lemma {:induction false} OneHolder(states: seq<State>, labels: seq<Label>, i: nat, v: nat, w: nat)
    requires Run(states, labels) && i < |states|
    requires v in states[i].workers && states[i].workers[v].Holding? && w in states[i].workers && states[i].workers[w].Holding?
    ensures states[i].workers[v].gap == states[i].workers[w].gap ==> v == w
  {
    var s := states[i];
    Reachable(states, labels, i);
    var a :| 0 <= a < |s.claims| && s.claims[a] == Claim(v, s.workers[v].gap);
    var b :| 0 <= b < |s.claims| && s.claims[b] == Claim(w, s.workers[w].gap);
    assert a < b ==> s.claims[a].gap != s.claims[b].gap;
    assert b < a ==> s.claims[b].gap != s.claims[a].gap;
  }

  // ------------------------------------------------------------- termination

  lemma {:induction false} OpenCountSet(rows: seq<Row>, gap: nat, status: Status)
    requires gap < |rows|
    ensures OpenCount(SetStatus(rows, gap, status))
         == OpenCount(rows) - (if rows[gap].status.Open? then 1 else 0) + (if status.Open? then 1 else 0)
  {
    var n, after := |rows| - 1, SetStatus(rows, gap, status);
    if gap == n {
      assert after[..n] == rows[..n];
    } else {
      assert after[..n] == SetStatus(rows[..n], gap, status);
      OpenCountSet(rows[..n], gap, status);
    }
  }

  /** Without new gaps, claims use up the open rows: every claim closes one and none is reopened. */
  lemma {:induction false} ClaimsUseUp(s: State, l: Label, t: State)
    requires Inv(s) && Next(s, l, t) && !l.RecordGap?
    ensures OpenCount(t.rows) + |t.claims| == OpenCount(s.rows) + |s.claims|
  {
    if l.Cas? { OpenCountSet(s.rows, s.workers[l.w].gap, Repairing); }
    if l.Finish? {
      var gap := s.workers[l.w].gap;
      var i :| 0 <= i < |s.claims| && s.claims[i] == Claim(l.w, gap);
      OpenCountSet(s.rows, gap, if l.repaired then Repaired else Failed);
    }
  }

  /** Between two states with no gap recorded in between, all workers together claim at most the rows open at the first. */
  lemma {:induction false} ClaimsBounded(states: seq<State>, labels: seq<Label>, i: nat, j: nat)
    requires Run(states, labels) && i <= j < |states| && forall k :: i <= k < j ==> !labels[k].RecordGap?
    ensures |states[j].claims| - |states[i].claims| == OpenCount(states[i].rows) - OpenCount(states[j].rows)
  {
    if i < j {
      ClaimsBounded(states, labels, i, j - 1);
      Reachable(states, labels, j - 1);
      ClaimsUseUp(states[j - 1], labels[j - 1], states[j]);
    }
  }

  /** How often a worker asked for an open gap, at steps `i` up to `j`. */
  function Asked(labels: seq<Label>, w: nat, i: nat, j: nat): nat
    requires i <= j <= |labels|
    decreases j
  {
    if i == j then 0
    else Asked(labels, w, i, j - 1) + if labels[j - 1] == FindNone(w) || (labels[j - 1].Find? && labels[j - 1].w == w) then 1 else 0
  }

  /** The worker's last question has not led to a claim, or its cycle is over. */
  predicate Unanswered(s: State, w: nat) { w !in s.workers || s.workers[w].Chosen? || s.workers[w].Stopped? }

  /** Every question but the last led to a claim. */
  lemma {:induction false} AskedAreClaims(states: seq<State>, labels: seq<Label>, w: nat, i: nat, j: nat)
    requires Run(states, labels) && i <= j < |states| && forall k :: i <= k < j ==> labels[k] != StartCycle(w)
    ensures Asked(labels, w, i, j) <= |states[j].claims| - |states[i].claims| + if Unanswered(states[j], w) then 1 else 0
    decreases j
  {
    if i < j {
      AskedAreClaims(states, labels, w, i, j - 1);
      var s, l, t := states[j - 1], labels[j - 1], states[j];
      assert Next(s, l, t) && l != StartCycle(w);
    }
  }

  /**
    In every interleaving, as long as no gap is recorded, a worker's cycle asks for an open gap at
    most once more than there were open gaps: it ends, whatever the other workers do.
  */
  lemma {:induction false} CycleEnds(states: seq<State>, labels: seq<Label>, w: nat, i: nat, j: nat)
    requires Run(states, labels) && i <= j < |states|
    requires forall k :: i <= k < j ==> !labels[k].RecordGap? && labels[k] != StartCycle(w)
    ensures Asked(labels, w, i, j) <= OpenCount(states[i].rows) + 1
  {
    AskedAreClaims(states, labels, w, i, j);
    ClaimsBounded(states, labels, i, j);
  }

  /** A worker in its cycle is never stuck: asking, claiming or finishing is always possible. */
  lemma {:induction false} CycleGoesOn(s: State, w: nat)
    requires Inv(s) && w in s.workers && !s.workers[w].Stopped?
    ensures exists l, t :: Next(s, l, t) && (l == FindNone(w) || (l.Find? && l.w == w) || l == Cas(w) || l == Finish(w, true))
  {
    match s.workers[w]
    case Idle =>
      if OpenCount(s.rows) == 0 {
        assert Next(s, FindNone(w), s.(workers := s.workers[w := Stopped]));
      } else {
        var gap := OldestOpen(s.rows);
        assert Next(s, Find(w, gap), s.(workers := s.workers[w := Chosen(gap)]));
      }
    case Chosen(gap) =>
      if s.rows[gap].status.Open? {
        assert Next(s, Cas(w), State(SetStatus(s.rows, gap, Repairing), s.workers[w := Holding(gap)], s.claims + [Claim(w, gap)]));
      } else {
        assert Next(s, Cas(w), s.(workers := s.workers[w := Stopped]));
      }
    case Holding(gap) =>
      var i :| 0 <= i < |s.claims| && s.claims[i] == Claim(w, gap);
      assert Next(s, Finish(w, true), s.(rows := SetStatus(s.rows, gap, Repaired), workers := s.workers[w := Idle]));
  }

  lemma {:induction false} OldestOpen(rows: seq<Row>) returns (gap: nat)
    requires OpenCount(rows) > 0
    ensures Oldest(rows, gap)
  {
    var front := rows[..|rows| - 1];
    if OpenCount(front) > 0 {
      gap := OldestOpen(front);
      assert rows[gap] == front[gap];
    } else {
      NoneOpen(front);
      gap := |rows| - 1;
    }
  }

  // --------------------------------------------------------------- one worker

  class GapTable {
    var rows: seq<Row>

    constructor () ensures rows == [] { rows := []; }

    /** A range already recorded keeps its row and status; a new one becomes an open row at the end. */
    method PersistLedgerGap(key: Key)
      requires UniqueKeys(rows)
      modifies this
      ensures old(rows) <= rows && UniqueKeys(rows) && HasKey(rows, key)
      ensures |rows| == |old(rows)| + (if HasKey(old(rows), key) then 0 else 1)
      ensures OpenCount(rows) == OpenCount(old(rows)) + (if HasKey(old(rows), key) then 0 else 1)
    {
      RecordKeeps(rows, key);
      if !HasKey(rows, key) { rows := rows + [Row(key, Open)]; }
    }

    /** The first half of a claim: the oldest open gap, if there is one. */
    method FindOpenGap() returns (gap: Option<nat>)
      ensures gap.None? ==> OpenCount(rows) == 0
      ensures gap.Some? ==> Oldest(rows, gap.value)
    {
      var i := 0;
      while i < |rows|
        invariant 0 <= i <= |rows| && OpenCount(rows[..i]) == 0
        invariant forall k :: 0 <= k < i ==> !rows[k].status.Open?
      {
        if rows[i].status.Open? { return Some(i); }
        assert rows[..i + 1][..i] == rows[..i];
        i := i + 1;
      }
      assert rows[..|rows|] == rows;
      gap := None;
    }

    /** What other workers do between the two halves: they claim the open gaps among `taken`. */
    method OthersClaim(taken: set<nat>)
      modifies this
      ensures OthersTook(old(rows), rows, taken)
      ensures OpenCount(rows) <= OpenCount(old(rows)) && (taken == {} ==> rows == old(rows))
    {
      var before := rows;
      rows := seq(|before|, i requires 0 <= i < |before| => IfTaken(before[i], i in taken));
      FewerOpen(before, rows);
    }

    /**
      Claims the oldest open gap by compare-and-set, while other workers claim those in `taken`
      after it was found.  None when no gap was open, or when the race was lost.
    */
    method ClaimNextOpenGap(taken: set<nat>) returns (gap: Option<nat>)
      modifies this
      ensures gap.Some? ==> Oldest(old(rows), gap.value) && gap.value !in taken
      ensures gap.Some? ==> exists mid :: OthersTook(old(rows), mid, taken) && rows == SetStatus(mid, gap.value, Repairing)
      ensures gap.None? ==> OpenCount(old(rows)) == 0 || exists g :: Oldest(old(rows), g) && g in taken
      ensures gap.None? ==> rows == old(rows) || OthersTook(old(rows), rows, taken)
      ensures OpenCount(rows) + (if gap.Some? then 1 else 0) <= OpenCount(old(rows))
    {
      gap := FindOpenGap();
      if gap.None? { return; }
      OthersClaim(taken);
      if !rows[gap.value].status.Open? { return None; }
      OpenCountSet(rows, gap.value, Repairing);
      ghost var mid := rows;
      rows := SetStatus(rows, gap.value, Repairing);
      assert OthersTook(old(rows), mid, taken) && rows == SetStatus(mid, gap.value, Repairing);
    }

    method RepairGap(gap: nat, succeeds: bool) returns (status: Status)
      requires gap < |rows|
      modifies this
      ensures status == (if succeeds then Repaired else Failed) && rows == SetStatus(old(rows), gap, status)
    {
      status := if succeeds then Repaired else Failed;
      rows := SetStatus(rows, gap, status);
    }

    /**
      One cycle, with nothing recorded meanwhile, while `others` tells which gaps other workers
      claim during each of its turns.  It ends, having claimed gaps that were open, each once and
      oldest first; without other workers it handles every open gap and touches no other row.
    */
    method RunRepairCycle(succeeds: nat -> bool, others: nat -> set<nat>) returns (results: seq<nat>)
      modifies this
      ensures Cycled(old(rows), rows, results, succeeds)
      ensures (forall k :: others(k) == {}) ==> |results| == OpenCount(old(rows)) && forall i :: 0 <= i < |rows| ==>
                rows[i] == if old(rows)[i].status.Open? then old(rows)[i].(status := Outcome(succeeds, i)) else old(rows)[i]
    {
      results := [];
      var turn, more := 0, true;
      while more
        invariant Cycled(old(rows), rows, results, succeeds)
        invariant (forall k :: others(k) == {}) ==> Alone(old(rows), rows, results, succeeds) && (!more ==> OpenCount(rows) == 0)
        decreases more, OpenCount(rows)
      {
        ghost var before := rows;
        var gap := ClaimNextOpenGap(others(turn));
        if gap.None? {
          if rows != before { TookKeeps(old(rows), before, rows, results, succeeds, others(turn)); }
          if others(turn) == {} { NothingTaken(before, rows); }
          more := false;
        } else {
          ghost var mid :| OthersTook(before, mid, others(turn)) && rows == SetStatus(mid, gap.value, Repairing);
          OpenCountSet(rows, gap.value, Outcome(succeeds, gap.value));
          var status := RepairGap(gap.value, succeeds(gap.value));
          TookKeeps(old(rows), before, mid, results, succeeds, others(turn));
          TurnKeeps(old(rows), mid, rows, results, succeeds, gap.value);
          if forall k :: others(k) == {} {
            NothingTaken(before, mid);
            AloneTurn(old(rows), mid, rows, results, succeeds, gap.value);
          }
          results := results + [gap.value];
          turn := turn + 1;
        }
      }
      if forall k :: others(k) == {} { NoneOpen(rows); }
    }
  }

  function Outcome(succeeds: nat -> bool, gap: nat): Status { if succeeds(gap) then Repaired else Failed }

  function IfTaken(row: Row, taken: bool): Row { if taken && row.status.Open? then row.(status := Repairing) else row }

  ghost predicate OthersTook(before: seq<Row>, rows: seq<Row>, taken: set<nat>) {
    |rows| == |before| && forall i :: 0 <= i < |rows| ==> rows[i] == IfTaken(before[i], i in taken)
  }

  lemma {:induction false} NothingTaken(before: seq<Row>, rows: seq<Row>)
    requires OthersTook(before, rows, {}) || rows == before
    ensures rows == before
  {
  }

  lemma {:induction false} FewerOpen(before: seq<Row>, rows: seq<Row>)
    requires |rows| == |before| && forall i :: 0 <= i < |rows| ==> rows[i].status.Open? ==> before[i].status.Open?
    ensures OpenCount(rows) <= OpenCount(before)
  {
    if |rows| > 0 { FewerOpen(before[..|rows| - 1], rows[..|rows| - 1]); }
  }

  /** The results are gaps that were open, in order, each with its outcome; what is still open comes after them. */
  ghost predicate Cycled(before: seq<Row>, rows: seq<Row>, results: seq<nat>, succeeds: nat -> bool) {
    && |rows| == |before|
    && (forall i, j :: 0 <= i < j < |results| ==> results[i] < results[j])
    && (forall i :: 0 <= i < |results| ==>
          results[i] < |rows| && before[results[i]].status.Open? && rows[results[i]].status == Outcome(succeeds, results[i]))
    && (forall i :: 0 <= i < |rows| && rows[i].status.Open? ==> before[i].status.Open? && forall j :: 0 <= j < |results| ==> results[j] < i)
  }

  /** Without other workers: the handled gaps have their outcome, and every other row is as it was. */
  ghost predicate Alone(before: seq<Row>, rows: seq<Row>, results: seq<nat>, succeeds: nat -> bool) {
    && |rows| == |before| && |results| + OpenCount(rows) == OpenCount(before)
    && forall i :: 0 <= i < |rows| ==>
         rows[i] == before[i] || (before[i].status.Open? && rows[i] == before[i].(status := Outcome(succeeds, i)))
  }

  lemma {:induction false} TookKeeps(start: seq<Row>, before: seq<Row>, rows: seq<Row>, results: seq<nat>,
                                     succeeds: nat -> bool, taken: set<nat>)
    requires Cycled(start, before, results, succeeds) && OthersTook(before, rows, taken)
    ensures Cycled(start, rows, results, succeeds)
  {
  }

  lemma {:induction false} TurnKeeps(start: seq<Row>, mid: seq<Row>, rows: seq<Row>, results: seq<nat>,
                                     succeeds: nat -> bool, gap: nat)
    requires Cycled(start, mid, results, succeeds) && gap < |mid| && mid[gap].status.Open?
    requires forall i :: 0 <= i < gap ==> !mid[i].status.Open?
    requires rows == SetStatus(mid, gap, Outcome(succeeds, gap))
    ensures Cycled(start, rows, results + [gap], succeeds)
  {
  }

  lemma {:induction false} AloneTurn(start: seq<Row>, before: seq<Row>, rows: seq<Row>, results: seq<nat>,
                                     succeeds: nat -> bool, gap: nat)
    requires Alone(start, before, results, succeeds) && gap < |before| && before[gap].status.Open?
    requires rows == SetStatus(before, gap, Outcome(succeeds, gap))
    ensures Alone(start, rows, results + [gap], succeeds)
  {
    OpenCountSet(before, gap, Outcome(succeeds, gap));
  }

  lemma {:induction false} NoneOpen(rows: seq<Row>)
    requires OpenCount(rows) == 0
    ensures forall i :: 0 <= i < |rows| ==> !rows[i].status.Open?
  {
    if |rows| > 0 { NoneOpen(rows[..|rows| - 1]); }
  }
}
