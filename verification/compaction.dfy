/** Deleting the core rows of generations that live in artifacts, batch by batch, with
    a progress record that survives interruptions. */
module Compaction {

  /** A row of a derived table; `key` stands for its key columns. */
  datatype Row = Row(table: string, generation: string, key: int)

  datatype Target = Target(table: string, generation: string)

  datatype Status = InProgress | Complete

  /** The legacy_compaction entry of application_meta. */
  datatype Meta = NoMeta | Meta(fingerprint: string, status: Status, rowsDeleted: int)

  const BUSY_ATTEMPTS: nat := 3

  /** The rows of one target. */
  function RowsOf(rows: set<Row>, target: Target): set<Row> {
    set r | r in rows && r.table == target.table && r.generation == target.generation
  }

  /** The rows of any target. */
  function Remaining(rows: set<Row>, targets: seq<Target>): set<Row> {
    set r | r in rows && Target(r.table, r.generation) in targets
  }

  /** What the record says was deleted for these targets. */
  function Recorded(meta: Meta, fingerprint: string): int {
    if meta.Meta? && meta.fingerprint == fingerprint then meta.rowsDeleted else 0
  }

  function Min(a: nat, b: nat): nat { if a < b then a else b }

  /** The attempts of one transaction that end busy: before the rows are counted, and
      after. */
  datatype Aborts = Aborts(early: nat, late: nat)

  function At(aborts: seq<Aborts>, k: nat): Aborts {
    if k < |aborts| then aborts[k] else Aborts(0, 0)
  }

  predicate Fails(a: Aborts) { a.early + a.late >= BUSY_ATTEMPTS }

  /** What a transaction counts too much. */
  function Extra(a: Aborts, deleted: nat): nat { a.late * deleted }

  /** How a run goes: its arguments, the attempts of each of its transactions that end
      busy, and the number of transactions after which the process dies, if it does. */
  datatype Plan = Plan(size: int, maxBatches: int, aborts: seq<Aborts>, dieAfter: int) {
    predicate Legal() { 1 <= size <= 50_000 }

    predicate Dies(k: nat) { 0 <= dieAfter <= k }

    /** Nothing stops such a run. */
    predicate Undisturbed() {
      && Legal() && maxBatches < 0 && dieAfter < 0
      && forall k | 0 <= k < |aborts| :: !Fails(aborts[k])
    }
  }

  datatype Outcome = BadBatchSize | Died | Busy | Done(status: Status, rowsDeleted: int, remaining: nat)

  // ------------------------------------------------------------ what a run must do

  /** How many rows each target has; a target listed twice has its rows once. */
  ghost function Counts(rows: set<Row>, targets: seq<Target>): (c: seq<nat>)
    ensures |c| == |targets|
  {
    seq(|targets|, j requires 0 <= j < |targets| => CountOf(rows, targets, j))
  }

  ghost function CountOf(rows: set<Row>, targets: seq<Target>, j: nat): nat
    requires j < |targets|
  {
    if targets[j] in targets[..j] then 0 else |RowsOf(rows, targets[j])|
  }

  /** What the transactions of an undisturbed run delete: of each target in turn full
      batches, then the rest, then nothing. */
  ghost function Schedule(c: seq<nat>, size: nat): seq<nat>
    requires size >= 1
    decreases |c|, if c == [] then 0 else c[0]
  {
    if c == [] then [] else [Min(c[0], size)] + Schedule(Later(c, size), size)
  }

  /** The counts after the next transaction; one that deletes nothing ends its target. */
  ghost function Later(c: seq<nat>, size: nat): seq<nat>
    requires c != []
  {
    if c[0] == 0 then c[1..] else [c[0] - Min(c[0], size)] + c[1..]
  }

  ghost function Sum(deleted: seq<nat>): nat {
    if deleted == [] then 0 else Sum(deleted[..|deleted| - 1]) + deleted[|deleted| - 1]
  }

  /** How many transactions deleted something. */
  ghost function Batches(deleted: seq<nat>): nat {
    if deleted == [] then 0 else Batches(deleted[..|deleted| - 1]) + if deleted[|deleted| - 1] > 0 then 1 else 0
  }

  /** The batch limit is reached; a limit of 0 is reached by the first batch. */
  ghost predicate AtLimit(plan: Plan, deleted: seq<nat>) {
    plan.maxBatches >= 0 && Batches(deleted) >= 1 && Batches(deleted) >= plan.maxBatches
  }

  /** Whether a run that has committed the first k transactions commits no other. */
  ghost predicate StopsAt(schedule: seq<nat>, plan: Plan, k: nat)
    requires k <= |schedule|
  {
    k == |schedule| || AtLimit(plan, schedule[..k]) || plan.Dies(k) || Fails(At(plan.aborts, k))
  }

  ghost function Stop(schedule: seq<nat>, plan: Plan, k: nat): (n: nat)
    requires k <= |schedule|
    ensures k <= n <= |schedule| && StopsAt(schedule, plan, n)
    ensures forall j: nat | k <= j < n :: !StopsAt(schedule, plan, j)
    decreases |schedule| - k
  {
    if StopsAt(schedule, plan, k) then k else Stop(schedule, plan, k + 1)
  }

  /** What the transactions of a run delete. */
  ghost function Deletions(c: seq<nat>, plan: Plan): seq<nat> {
    if plan.Legal() then var s := Schedule(c, plan.size); s[..Stop(s, plan, 0)] else []
  }

  /** The counts when so many rows have gone, target by target. */
  ghost function TakeOff(c: seq<nat>, n: nat): seq<nat> {
    if c == [] then []
    else if n < c[0] then [c[0] - n] + c[1..]
    else [0] + TakeOff(c[1..], n - c[0])
  }

  /** What is recorded too much: each attempt that is rolled back after counting counts
      the rows of its transaction once more. */
  ghost function Overcount(aborts: seq<Aborts>, deleted: seq<nat>): nat {
    if deleted == [] then 0
    else
      var n := |deleted| - 1;
      Overcount(aborts, deleted[..n]) + Extra(At(aborts, n), deleted[n])
  }

  /** What a run adds to the record. */
  ghost function Added(c: seq<nat>, plan: Plan): nat {
    Sum(Deletions(c, plan)) + Overcount(plan.aborts, Deletions(c, plan))
  }

  ghost function OutcomeOf(c: seq<nat>, plan: Plan, recorded: int): Outcome {
    var n, left := |Deletions(c, plan)|, Sum(TakeOff(c, Sum(Deletions(c, plan))));
    if !plan.Legal() then BadBatchSize
    else if plan.Dies(n) then Died
    else if Fails(At(plan.aborts, n)) then Busy
    else Done(if left == 0 then Complete else InProgress, recorded + Added(c, plan), left)
  }

  /** The record after the transactions that deleted `deleted`. */
  ghost function Noted(meta: Meta, fingerprint: string, aborts: seq<Aborts>, deleted: seq<nat>): Meta {
    if Batches(deleted) == 0 then meta
    else Meta(fingerprint, InProgress, Recorded(meta, fingerprint) + Sum(deleted) + Overcount(aborts, deleted))
  }

  // ------------------------------------------------------------ sums and counts

  lemma OneMore(aborts: seq<Aborts>, deleted: seq<nat>, d: nat)
    ensures Sum(deleted + [d]) == Sum(deleted) + d
    ensures Batches(deleted + [d]) == Batches(deleted) + if d > 0 then 1 else 0
    ensures Overcount(aborts, deleted + [d]) == Overcount(aborts, deleted) + Extra(At(aborts, |deleted|), d)
  {
    assert (deleted + [d])[..|deleted|] == deleted;
  }

  lemma NotedNext(meta: Meta, fingerprint: string, aborts: seq<Aborts>, deleted: seq<nat>, d: nat)
    ensures var recorded := Recorded(meta, fingerprint) + Sum(deleted) + Overcount(aborts, deleted);
            && Noted(meta, fingerprint, aborts, deleted + [d])
               == (if d == 0 then Noted(meta, fingerprint, aborts, deleted)
                   else Meta(fingerprint, InProgress, recorded + d + Extra(At(aborts, |deleted|), d)))
            && Recorded(meta, fingerprint) + Sum(deleted + [d]) + Overcount(aborts, deleted + [d])
               == recorded + d + Extra(At(aborts, |deleted|), d)
  {
    OneMore(aborts, deleted, d);
  }

  lemma NothingNoted(meta: Meta, fingerprint: string, aborts: seq<Aborts>)
    ensures Noted(meta, fingerprint, aborts, []) == meta
  {
  }

  lemma {:induction false} NothingDeleted(aborts: seq<Aborts>, deleted: seq<nat>)
    requires Batches(deleted) == 0
    ensures Sum(deleted) == 0 && Overcount(aborts, deleted) == 0
  {
    if deleted != [] { NothingDeleted(aborts, deleted[..|deleted| - 1]); }
  }

  lemma {:induction false} SumOfConcat(a: seq<nat>, b: seq<nat>)
    ensures Sum(a + b) == Sum(a) + Sum(b)
  {
    if b == [] {
      assert a + b == a;
    } else {
      SumOfConcat(a, b[..|b| - 1]);
      assert (a + b)[..|a + b| - 1] == a + b[..|b| - 1];
    }
  }

  lemma SumOfFirst(c: seq<nat>)
    requires c != []
    ensures Sum(c) == c[0] + Sum(c[1..])
  {
    SumOfConcat([c[0]], c[1..]);
    assert [c[0]] + c[1..] == c && [c[0]][..0] == [];
  }

  /** All the rows are on the schedule. */
  lemma {:induction false} SumOfSchedule(c: seq<nat>, size: nat)
    requires size >= 1
    ensures Sum(Schedule(c, size)) == Sum(c)
    decreases |c|, if c == [] then 0 else c[0]
  {
    if c != [] {
      var d, later := Min(c[0], size), Later(c, size);
      SumOfSchedule(later, size);
      SumOfLater(c, size);
      assert Schedule(c, size)[0] == d && Schedule(c, size)[1..] == Schedule(later, size);
      SumOfFirst(Schedule(c, size));
    }
  }

  lemma SumOfLater(c: seq<nat>, size: nat)
    requires c != []
    ensures Sum(c) == Min(c[0], size) + Sum(Later(c, size))
  {
    SumOfFirst(c);
    if c[0] > 0 {
      SumOfFirst(Later(c, size));
      assert Later(c, size)[1..] == c[1..];
    }
  }

  lemma DeletionsFit(c: seq<nat>, plan: Plan)
    ensures Sum(Deletions(c, plan)) <= Sum(c)
  {
    hide Schedule;
    if plan.Legal() {
      var s := Schedule(c, plan.size);
      var n := Stop(s, plan, 0);
      SumOfSchedule(c, plan.size);
      SumOfConcat(s[..n], s[n..]);
      assert s[..n] + s[n..] == s;
    }
  }

  lemma {:induction false} SumOfTakeOff(c: seq<nat>, n: nat)
    requires n <= Sum(c)
    ensures |TakeOff(c, n)| == |c| && Sum(TakeOff(c, n)) == Sum(c) - n
  {
    if c != [] {
      SumOfFirst(c);
      SumOfFirst(TakeOff(c, n));
      if n >= c[0] { SumOfTakeOff(c[1..], n - c[0]); }
    }
  }

  lemma {:induction false} TakeOffMore(c: seq<nat>, a: nat, b: nat)
    ensures TakeOff(TakeOff(c, a), b) == TakeOff(c, a + b)
  {
    if c != [] && a >= c[0] { TakeOffMore(c[1..], a - c[0], b); }
  }

  /** Rows of the first target that has any go first. */
  lemma {:induction false} TakeOffAt(c: seq<nat>, t: nat, d: nat)
    requires t < |c| && d <= c[t] && forall j | 0 <= j < t :: c[j] == 0
    ensures TakeOff(c, d) == c[t := c[t] - d]
  {
    if t > 0 {
      TakeOffAt(c[1..], t - 1, d);
      assert c[t := c[t] - d] == [0] + c[1..][t - 1 := c[t] - d];
    } else if d == c[0] {
      TakeNothing(c[1..]);
    }
  }

  lemma {:induction false} TakeNothing(c: seq<nat>)
    ensures TakeOff(c, 0) == c
  {
    if c != [] && c[0] == 0 { TakeNothing(c[1..]); }
  }

  lemma {:induction false} SubsetIsSmaller(a: set<Row>, b: set<Row>)
    requires a <= b
    ensures |a| <= |b| && (|a| == |b| ==> a == b)
  {
    if a != {} {
      var x :| x in a;
      SubsetIsSmaller(a - {x}, b - {x});
      assert |a - {x}| == |a| - 1 && |b - {x}| == |b| - 1;
      if |a| == |b| { assert a == (a - {x}) + {x} == (b - {x}) + {x} == b; }
    } else if |b| == 0 {
      assert b == {};
    }
  }

  /** Taking target rows away takes as many from what remains, and no other row. */
  lemma DeletingCounts(rows: set<Row>, gone: set<Row>, target: Target, targets: seq<Target>)
    requires target in targets && gone <= RowsOf(rows, target)
    ensures |Remaining(rows - gone, targets)| == |Remaining(rows, targets)| - |gone|
    ensures rows - Remaining(rows, targets) == (rows - gone) - Remaining(rows - gone, targets)
    ensures |rows - gone| == |rows| - |gone|
  {
    assert gone <= Remaining(rows, targets) <= rows;
    assert Remaining(rows - gone, targets) == Remaining(rows, targets) - gone;
  }

  /** The rows of the first targets, each once. */
  lemma {:induction false} SumOfCounts(rows: set<Row>, targets: seq<Target>)
    ensures Sum(Counts(rows, targets)) == |Remaining(rows, targets)|
  {
    if targets == [] {
      assert Remaining(rows, targets) == {};
    } else {
      var n := |targets| - 1;
      SumOfCounts(rows, targets[..n]);
      CountsOfFront(rows, targets);
      MoreRemain(rows, targets[..n], targets[n]);
      assert targets == targets[..n] + [targets[n]];
    }
  }

  lemma CountsOfFront(rows: set<Row>, targets: seq<Target>)
    requires targets != []
    ensures Counts(rows, targets)[..|targets| - 1] == Counts(rows, targets[..|targets| - 1])
  {
    forall j | 0 <= j < |targets| - 1
      ensures CountOf(rows, targets, j) == CountOf(rows, targets[..|targets| - 1], j)
    {
      assert targets[..j] == targets[..|targets| - 1][..j];
    }
  }

  lemma MoreRemain(rows: set<Row>, targets: seq<Target>, last: Target)
    ensures |Remaining(rows, targets + [last])|
            == |Remaining(rows, targets)| + if last in targets then 0 else |RowsOf(rows, last)|
  {
    var all, some := Remaining(rows, targets + [last]), Remaining(rows, targets);
    assert all == some + RowsOf(rows, last);
    if last in targets {
      assert RowsOf(rows, last) <= some;
      assert all == some;
    } else {
      assert some !! RowsOf(rows, last);
    }
  }

  /** Deleting rows of the first target that has any lowers its count and no other. */
  lemma CountsFall(rows: set<Row>, gone: set<Row>, targets: seq<Target>, t: nat)
    requires t < |targets| && gone <= RowsOf(rows, targets[t])
    requires forall j | 0 <= j < t :: RowsOf(rows, targets[j]) == {}
    ensures CountOf(rows, targets, t) == |RowsOf(rows, targets[t])| && |gone| <= CountOf(rows, targets, t)
    ensures Counts(rows - gone, targets) == Counts(rows, targets)[t := CountOf(rows, targets, t) - |gone|]
    ensures forall j | 0 <= j < t :: Counts(rows, targets)[j] == 0
  {
    SubsetIsSmaller(gone, RowsOf(rows, targets[t]));
    forall j | 0 <= j < |targets|
      ensures CountOf(rows - gone, targets, j) == CountOf(rows, targets, j) - if j == t then |gone| else 0
    {
      if targets[j] == targets[t] {
        assert RowsOf(rows - gone, targets[j]) == RowsOf(rows, targets[t]) - gone;
        if j > t { assert targets[..j][t] == targets[j]; }
      } else {
        assert RowsOf(rows - gone, targets[j]) == RowsOf(rows, targets[j]);
      }
    }
  }

  // ------------------------------------------------------------ what the schedule says

  /** How many batches so many rows make. */
  function BatchesOf(rows: nat, size: nat): nat
    requires size >= 1
  {
    if rows == 0 then 0 else 1 + BatchesOf(rows - Min(rows, size), size)
  }

  /** How many of so many rows are left after i full batches. */
  function LeftOf(rows: nat, size: nat, i: nat): nat {
    if rows >= i * size then rows - i * size else 0
  }

  /** The number of transactions on the targets before target t. */
  ghost function Start(c: seq<nat>, size: nat, t: nat): nat
    requires size >= 1 && t <= |c|
  {
    if t == 0 then 0 else Start(c, size, t - 1) + BatchesOf(c[t - 1], size) + 1
  }

  lemma {:induction false} StartOfRest(c: seq<nat>, size: nat, t: nat)
    requires size >= 1 && 1 <= t <= |c|
    ensures Start(c, size, t) == BatchesOf(c[0], size) + 1 + Start(c[1..], size, t - 1)
  {
    if t > 1 { StartOfRest(c, size, t - 1); }
  }

  lemma LeftAfterBatch(rows: nat, size: nat, i: nat)
    requires i >= 1
    ensures LeftOf(rows - Min(rows, size), size, i - 1) == LeftOf(rows, size, i)
    ensures LeftOf(rows, size, 0) == rows
  {
    Multiples(i - 1, size);
    assert (i - 1) * size >= 0;
  }

  lemma {:induction false} FirstTargetAt(c: seq<nat>, size: nat, i: nat)
    requires size >= 1 && c != [] && i <= BatchesOf(c[0], size)
    ensures i < |Schedule(c, size)|
    ensures Schedule(c, size)[i] == Min(LeftOf(c[0], size, i), size)
    ensures LeftOf(c[0], size, i) == 0 <==> i == BatchesOf(c[0], size)
    decreases i
  {
    hide LeftOf;
    LeftAfterBatch(c[0], size, if i == 0 then 1 else i);
    if i > 0 { FirstTargetAt(Later(c, size), size, i - 1); }
  }

  /** Transaction i on target t deletes a full batch or the rest; nothing exactly when it
      is the target's last. */
  ghost predicate Says(c: seq<nat>, size: nat, t: nat, i: nat)
    requires size >= 1 && t < |c|
  {
    && Start(c, size, t) + i < |Schedule(c, size)|
    && Schedule(c, size)[Start(c, size, t) + i] == Min(LeftOf(c[t], size, i), size)
    && (LeftOf(c[t], size, i) == 0 <==> i == BatchesOf(c[t], size))
  }

  /** The schedule position by position, without its recursion. */
  lemma {:induction false} ScheduleAt(c: seq<nat>, size: nat, t: nat, i: nat)
    requires size >= 1 && t < |c| && i <= BatchesOf(c[t], size)
    ensures Says(c, size, t, i)
    decreases |c|, if c == [] then 0 else c[0]
  {
    if t == 0 {
      FirstTargetAt(c, size, i);
    } else {
      hide Says, BatchesOf;
      LaterAt(c, size, t);
      var later, u := Later(c, size), if c[0] == 0 then t - 1 else t;
      ScheduleAt(later, size, u, i);
      SaysLater(c, size, t, i);
    }
  }

  lemma SaysLater(c: seq<nat>, size: nat, t: nat, i: nat)
    requires size >= 1 && 1 <= t < |c|
    requires var u := if c[0] == 0 then t - 1 else t;
             u < |Later(c, size)| && Later(c, size)[u] == c[t] && Says(Later(c, size), size, u, i)
    ensures Says(c, size, t, i)
  {
    hide LeftOf, Start, BatchesOf, Schedule, Later;
    StartLater(c, size, t);
    OnLater(c, size, Start(Later(c, size), size, if c[0] == 0 then t - 1 else t) + i);
  }

  lemma OnLater(c: seq<nat>, size: nat, k: nat)
    requires size >= 1 && c != [] && k < |Schedule(Later(c, size), size)|
    ensures k + 1 < |Schedule(c, size)| && Schedule(c, size)[k + 1] == Schedule(Later(c, size), size)[k]
  {
    ScheduleStep(c, size);
  }

  lemma LaterAt(c: seq<nat>, size: nat, t: nat)
    requires size >= 1 && 1 <= t < |c|
    ensures var later := Later(c, size);
            if c[0] == 0 then |later| == |c| - 1 && later[t - 1] == c[t]
            else |later| == |c| && later[t] == c[t] && later[0] < c[0]
  {
  }

  lemma StartLater(c: seq<nat>, size: nat, t: nat)
    requires size >= 1 && 1 <= t <= |c|
    ensures |Later(c, size)| == if c[0] == 0 then |c| - 1 else |c|
    ensures Start(c, size, t) == 1 + Start(Later(c, size), size, if c[0] == 0 then t - 1 else t)
  {
    var later := Later(c, size);
    StartOfRest(c, size, t);
    if c[0] > 0 {
      assert later[1..] == c[1..];
      StartOfRest(later, size, t);
    }
  }

  /** And there are no other transactions. */
  lemma {:induction false} ScheduleLength(c: seq<nat>, size: nat)
    requires size >= 1
    ensures |Schedule(c, size)| == Start(c, size, |c|)
    decreases |c|, if c == [] then 0 else c[0]
  {
    if c != [] {
      ScheduleLength(Later(c, size), size);
      StartLater(c, size, |c|);
    }
  }

  // ------------------------------------------------------------ when the record is right

  /** Transaction j of the run commits, and finds rows of its target. */
  ghost predicate MeetsRows(c: seq<nat>, plan: Plan, j: nat) {
    && plan.Legal()
    && var s := Schedule(c, plan.size);
       j < Stop(s, plan, 0) && s[j] > 0
  }

  /** No such transaction has an attempt rolled back after counting. */
  ghost predicate CountsOnce(c: seq<nat>, plan: Plan) {
    forall j: nat | MeetsRows(c, plan, j) :: At(plan.aborts, j).late == 0
  }

  lemma {:induction false} OvercountIsZero(aborts: seq<Aborts>, deleted: seq<nat>)
    ensures Overcount(aborts, deleted) == 0 <==>
            forall k | 0 <= k < |deleted| :: At(aborts, k).late == 0 || deleted[k] == 0
  {
    if deleted != [] {
      var n := |deleted| - 1;
      OvercountIsZero(aborts, deleted[..n]);
      ProductIsZero(At(aborts, n).late, deleted[n]);
      forall k | 0 <= k < n ensures deleted[..n][k] == deleted[k] {}
    }
  }

  lemma ProductIsZero(a: nat, b: nat)
    ensures a * b >= 0 && (a * b == 0 <==> a == 0 || b == 0)
  {
  }

  /** A run records just what it deletes exactly when no transaction that finds rows has
      an attempt rolled back after counting them. */
  lemma RecordIsRight(c: seq<nat>, plan: Plan)
    ensures Added(c, plan) == Sum(c) - Sum(TakeOff(c, Sum(Deletions(c, plan)))) <==>
            CountsOnce(c, plan)
  {
    DeletionsFit(c, plan);
    SumOfTakeOff(c, Sum(Deletions(c, plan)));
    NothingCountedTwice(c, plan);
  }

  lemma NothingCountedTwice(c: seq<nat>, plan: Plan)
    ensures Overcount(plan.aborts, Deletions(c, plan)) == 0 <==> CountsOnce(c, plan)
  {
    hide Schedule, At, Overcount;
    OvercountIsZero(plan.aborts, Deletions(c, plan));
    forall j: nat ensures MeetsRows(c, plan, j) <==> j < |Deletions(c, plan)| && Deletions(c, plan)[j] > 0 {}
  }

  // ------------------------------------------------------------ where a run stops

  lemma UndisturbedFinishes(c: seq<nat>, plan: Plan)
    requires plan.Undisturbed()
    ensures Deletions(c, plan) == Schedule(c, plan.size) && Sum(Deletions(c, plan)) == Sum(c)
    ensures Sum(TakeOff(c, Sum(Deletions(c, plan)))) == 0
    ensures forall recorded ::
              OutcomeOf(c, plan, recorded)
              == Done(Complete, recorded + Sum(c) + Overcount(plan.aborts, Deletions(c, plan)), 0)
  {
    hide Schedule;
    var s := Schedule(c, plan.size);
    assert s[..|s|] == s;
    SumOfSchedule(c, plan.size);
    SumOfTakeOff(c, Sum(c));
  }

  /** A run that ends with rows left has deleted as many batches as its limit allows, and
      at least one. */
  lemma UnfinishedIsLimited(c: seq<nat>, plan: Plan, recorded: int)
    requires OutcomeOf(c, plan, recorded).Done? && OutcomeOf(c, plan, recorded).status == InProgress
    ensures plan.maxBatches >= 0
    ensures Batches(Deletions(c, plan)) == if plan.maxBatches < 1 then 1 else plan.maxBatches
  {
    hide Schedule, TakeOff;
    var s := Schedule(c, plan.size);
    var n := Stop(s, plan, 0);
    if n == |s| {
      assert s[..n] == s;
      SumOfSchedule(c, plan.size);
      SumOfTakeOff(c, Sum(c));
      assert false;
    }
    assert n > 0;
    assert !StopsAt(s, plan, n - 1);
    assert s[..n][..n - 1] == s[..n - 1];
  }

  // ------------------------------------------------------------ one run

  /** After the transactions that deleted `deleted` a run is at target t, and these
      counts are left. */
  ghost predicate Reached(c: seq<nat>, plan: Plan, deleted: seq<nat>, left: seq<nat>, t: nat) {
    && plan.Legal() && t <= |left|
    && Schedule(c, plan.size) == deleted + Schedule(left[t..], plan.size)
    && Stop(Schedule(c, plan.size), plan, 0) == Stop(Schedule(c, plan.size), plan, |deleted|)
    && left == TakeOff(c, Sum(deleted))
  }

  lemma ReachedAtStart(c: seq<nat>, plan: Plan)
    requires plan.Legal()
    ensures Reached(c, plan, [], c, 0)
  {
    TakeNothing(c);
    assert c[0..] == c && [] + Schedule(c, plan.size) == Schedule(c, plan.size);
  }

  lemma NothingReached(c: seq<nat>, plan: Plan, recorded: int)
    requires !plan.Legal()
    ensures Deletions(c, plan) == [] && OutcomeOf(c, plan, recorded) == BadBatchSize
  {
  }

  lemma ReachedNext(c: seq<nat>, plan: Plan, deleted: seq<nat>, left: seq<nat>, t: nat, d: nat)
    requires Reached(c, plan, deleted, left, t) && t < |left| && d == Min(left[t], plan.size)
    requires forall j | 0 <= j < t :: left[j] == 0
    requires !AtLimit(plan, deleted) && !plan.Dies(|deleted|) && !Fails(At(plan.aborts, |deleted|))
    ensures Reached(c, plan, deleted + [d], left[t := left[t] - d], if d == 0 then t + 1 else t)
    ensures left[t := left[t] - d] == TakeOff(c, Sum(deleted + [d]))
  {
    hide Schedule, Stop;
    var s, after := Schedule(c, plan.size), left[t := left[t] - d];
    ScheduleStep(left[t..], plan.size);
    assert s == deleted + [d] + Schedule(Later(left[t..], plan.size), plan.size);
    assert s[..|deleted|] == deleted;
    StopLater(s, plan, |deleted|);
    assert Later(left[t..], plan.size) == after[if d == 0 then t + 1 else t..];
    TakeOffAt(left, t, d);
    TakeOffMore(c, Sum(deleted), d);
    OneMore(plan.aborts, deleted, d);
  }

  lemma ScheduleStep(c: seq<nat>, size: nat)
    requires size >= 1 && c != []
    ensures Schedule(c, size) == [Min(c[0], size)] + Schedule(Later(c, size), size)
  {
  }

  lemma StopLater(s: seq<nat>, plan: Plan, k: nat)
    requires k < |s| && !StopsAt(s, plan, k)
    ensures Stop(s, plan, k) == Stop(s, plan, k + 1)
  {
  }

  lemma ReachedEnd(c: seq<nat>, plan: Plan, deleted: seq<nat>, left: seq<nat>, t: nat)
    requires Reached(c, plan, deleted, left, t)
    requires t == |left| || AtLimit(plan, deleted) || plan.Dies(|deleted|) || Fails(At(plan.aborts, |deleted|))
    ensures Deletions(c, plan) == deleted && left == TakeOff(c, Sum(Deletions(c, plan)))
    ensures forall recorded ::
              OutcomeOf(c, plan, recorded) ==
              if plan.Dies(|deleted|) then Died
              else if Fails(At(plan.aborts, |deleted|)) then Busy
              else Done(if Sum(left) == 0 then Complete else InProgress,
                        recorded + Sum(deleted) + Overcount(plan.aborts, deleted), Sum(left))
  {
    var s := Schedule(c, plan.size);
    assert s[..|deleted|] == deleted;
  }

  /** Any n rows of a set, or all when it has fewer: a DELETE with LIMIT. */
  method TakeRows(s: set<Row>, n: nat) returns (some: set<Row>)
    ensures some <= s && |some| == Min(|s|, n)
  {
    some := {};
    var rest := s;
    while |some| < n && rest != {}
      invariant some <= s && rest == s - some && |some| <= n
      decreases |rest|
    {
      var x :| x in rest;
      some, rest := some + {x}, rest - {x};
    }
    assert rest == {} ==> some == s;
    SubsetIsSmaller(some, s);
  }

  class Database {
    var rows: set<Row>
    var meta: Meta

    constructor (rows: set<Row>, meta: Meta)
      ensures this.rows == rows && this.meta == meta
    {
      this.rows, this.meta := rows, meta;
    }

    /** One batch in withTxn. Attempts that end busy are rolled back; the next one commits,
        if any is left. The counter is the closure's captured variable: no rollback takes
        its increments back. */
    method Batch(target: Target, size: nat, fingerprint: string, counter: int, aborts: Aborts)
      returns (committed: bool, deleted: nat, counter': int)
      modifies this
      ensures committed <==> !Fails(aborts)
      ensures deleted == Min(|RowsOf(old(rows), target)|, size)
      ensures committed ==>
                exists gone :: gone <= RowsOf(old(rows), target) && |gone| == deleted && rows == old(rows) - gone
      ensures committed ==> counter' == counter + (aborts.late + 1) * deleted
      ensures committed && deleted > 0 ==> meta == Meta(fingerprint, InProgress, counter')
      ensures !committed ==> rows == old(rows)
      ensures !committed || deleted == 0 ==> meta == old(meta)
    {
      counter' := counter;
      deleted := Min(|RowsOf(rows, target)|, size);
      committed := false;
      var attempt: nat := 0;
      ghost var late: nat := 0;
      Multiples(0, deleted);
      while attempt < BUSY_ATTEMPTS && !committed
        invariant attempt <= BUSY_ATTEMPTS
        invariant !committed ==> rows == old(rows) && meta == old(meta) && counter' == counter + late * deleted
        invariant !committed ==> attempt <= aborts.early + aborts.late
        invariant !committed ==> late == if attempt <= aborts.early then 0 else attempt - aborts.early
        invariant committed ==> attempt == aborts.early + aborts.late < BUSY_ATTEMPTS
        invariant committed ==>
                    exists gone :: gone <= RowsOf(old(rows), target) && |gone| == deleted && rows == old(rows) - gone
        invariant committed ==> counter' == counter + (aborts.late + 1) * deleted
        invariant committed && deleted > 0 ==> meta == Meta(fingerprint, InProgress, counter')
        invariant committed && deleted == 0 ==> meta == old(meta)
        decreases BUSY_ATTEMPTS - attempt, if committed then 0 else 1
      {
        if attempt < aborts.early {
          attempt := attempt + 1;
          continue;
        }
        var before, metaBefore := rows, meta;
        var gone := TakeRows(RowsOf(rows, target), size);
        rows := rows - gone;
        if |gone| > 0 {
          counter' := counter' + |gone|;
          meta := Meta(fingerprint, InProgress, counter');
        }
        Multiples(late, deleted);
        if attempt < aborts.early + aborts.late {
          rows, meta := before, metaBefore;
          attempt := attempt + 1;
          late := late + 1;
        } else {
          committed := true;
        }
      }
    }

    /** No row of another generation is gone, and of the targets' rows so many are, target
        by target. */
    twostate predicate Took(targets: seq<Target>, n: nat)
      reads this
    {
      && rows <= old(rows)
      && rows - Remaining(rows, targets) == old(rows) - Remaining(old(rows), targets)
      && Counts(rows, targets) == TakeOff(Counts(old(rows), targets), n)
    }

    /** A batch of the first target that has rows, seen from the run. */
    method RunBatch(targets: seq<Target>, t: nat, size: nat, fingerprint: string, counter: int, aborts: Aborts)
      returns (committed: bool, deleted: nat, counter': int)
      requires size >= 1 && t < |targets| && forall j | 0 <= j < t :: RowsOf(rows, targets[j]) == {}
      modifies this
      ensures committed <==> !Fails(aborts)
      ensures deleted == Min(Counts(old(rows), targets)[t], size)
      ensures committed ==> counter' == counter + deleted + Extra(aborts, deleted)
      ensures meta == if committed && deleted > 0 then Meta(fingerprint, InProgress, counter') else old(meta)
      ensures !committed ==> rows == old(rows)
      ensures committed ==>
                && rows <= old(rows) && |rows| == |old(rows)| - deleted
                && rows - Remaining(rows, targets) == old(rows) - Remaining(old(rows), targets)
                && Counts(rows, targets) == Counts(old(rows), targets)[t := Counts(old(rows), targets)[t] - deleted]
      ensures deleted == 0 ==> RowsOf(rows, targets[t]) == {}
      ensures forall j | 0 <= j < t :: RowsOf(rows, targets[j]) == {} && Counts(old(rows), targets)[j] == 0
    {
      CountsFall(rows, {}, targets, t);
      committed, deleted, counter' := Batch(targets[t], size, fingerprint, counter, aborts);
      if committed {
        ghost var gone :| gone <= RowsOf(old(rows), targets[t]) && |gone| == deleted && rows == old(rows) - gone;
        DeletingCounts(old(rows), gone, targets[t], targets);
        CountsFall(old(rows), gone, targets, t);
        Multiples(aborts.late, deleted);
      }
    }

    /** compactLegacyGenerations for targets in the order of its nested loops. */
    method Compact(targets: seq<Target>, plan: Plan, fingerprint: string) returns (outcome: Outcome)
      modifies this
      ensures Took(targets, Sum(Deletions(Counts(old(rows), targets), plan)))
      ensures outcome == OutcomeOf(Counts(old(rows), targets), plan, Recorded(old(meta), fingerprint))
      ensures meta == if outcome.Done? then Meta(fingerprint, outcome.status, outcome.rowsDeleted)
                      else Noted(old(meta), fingerprint, plan.aborts, Deletions(Counts(old(rows), targets), plan))
    {
      hide Schedule, Stop, TakeOff, RowsOf, Remaining, Extra, Fails, At, Reached, Noted, Plan.Dies, Deletions,
        OutcomeOf;
      ghost var c := Counts(rows, targets);
      TakeNothing(c);
      NothingNoted(meta, fingerprint, plan.aborts);
      if plan.size < 1 || plan.size > 50_000 {
        NothingReached(c, plan, Recorded(meta, fingerprint));
        return BadBatchSize;
      }
      ReachedAtStart(c, plan);
      ghost var deleted: seq<nat> := [];
      var counter := Recorded(meta, fingerprint);
      var transactions, batches, stopped, t := 0, 0, false, 0;
      while t < |targets| && !stopped
        invariant Halfway(targets, plan, fingerprint, deleted, t, transactions, batches, counter)
        invariant stopped <==> AtLimit(plan, deleted)
        decreases |targets| - t, if stopped then 0 else 1
      {
        while true
          invariant Halfway(targets, plan, fingerprint, deleted, t, transactions, batches, counter)
          invariant t < |targets| && !stopped && !AtLimit(plan, deleted)
          decreases |rows|
        {
          if plan.Dies(transactions) {
            ReachedEnd(c, plan, deleted, Counts(rows, targets), t);
            return Died;
          }
          ghost var left := Counts(rows, targets);
          var aborts := At(plan.aborts, transactions);
          var committed, d, counter' := RunBatch(targets, t, plan.size, fingerprint, counter, aborts);
          if !committed {
            ReachedEnd(c, plan, deleted, left, t);
            return Busy;
          }
          ReachedNext(c, plan, deleted, left, t, d);
          NotedNext(old(meta), fingerprint, plan.aborts, deleted, d);
          OneMore(plan.aborts, deleted, d);
          deleted, counter, transactions := deleted + [d], counter', transactions + 1;
          if d == 0 { break; }
          batches := batches + 1;
          if plan.maxBatches >= 0 && batches >= plan.maxBatches {
            stopped := true;
            break;
          }
        }
        if !stopped { t := t + 1; }
      }
      ReachedEnd(c, plan, deleted, Counts(rows, targets), t);
      if plan.Dies(transactions) { return Died; }
      if Fails(At(plan.aborts, transactions)) { return Busy; }
      var remaining := |Remaining(rows, targets)|;
      SumOfCounts(rows, targets);
      outcome := Done(if remaining == 0 then Complete else InProgress, counter, remaining);
      meta := Meta(fingerprint, outcome.status, counter);
    }

    /** What holds between two transactions of a run. */
    twostate predicate Halfway(targets: seq<Target>, plan: Plan, fingerprint: string, deleted: seq<nat>, t: nat,
                               transactions: int, batches: int, counter: int)
      reads this
    {
      && Took(targets, Sum(deleted))
      && Reached(Counts(old(rows), targets), plan, deleted, Counts(rows, targets), t)
      && t <= |targets| && (forall j | 0 <= j < t :: RowsOf(rows, targets[j]) == {})
      && transactions == |deleted| && batches == Batches(deleted)
      && counter == Recorded(old(meta), fingerprint) + Sum(deleted) + Overcount(plan.aborts, deleted)
      && meta == Noted(old(meta), fingerprint, plan.aborts, deleted)
    }
  }

  // ------------------------------------------------------------ several runs

  /** The counts after a series of runs. */
  ghost function CountsAfter(c: seq<nat>, plans: seq<Plan>): seq<nat> {
    if plans == [] then c
    else
      var before := CountsAfter(c, plans[..|plans| - 1]);
      TakeOff(before, Sum(Deletions(before, plans[|plans| - 1])))
  }

  /** What they count too much. */
  ghost function OvercountAfter(c: seq<nat>, plans: seq<Plan>): nat {
    if plans == [] then 0
    else
      var n := |plans| - 1;
      OvercountAfter(c, plans[..n]) + Overcount(plans[n].aborts, Deletions(CountsAfter(c, plans[..n]), plans[n]))
  }

  /** No transaction of run k that finds rows has an attempt rolled back after counting. */
  ghost predicate RunCountsOnce(c: seq<nat>, plans: seq<Plan>, k: nat)
    requires k < |plans|
  {
    CountsOnce(CountsAfter(c, plans[..k]), plans[k])
  }

  lemma RunOfPrefix(c: seq<nat>, plans: seq<Plan>, n: nat, k: nat)
    requires k < n <= |plans|
    ensures RunCountsOnce(c, plans[..n], k) == RunCountsOnce(c, plans, k)
  {
    hide CountsAfter, CountsOnce;
    assert plans[..n][k] == plans[k] && plans[..n][..k] == plans[..k];
  }

  /** The record stays right over all the runs exactly when each counts once. */
  lemma {:induction false} RecordStaysRight(c: seq<nat>, plans: seq<Plan>)
    ensures OvercountAfter(c, plans) == 0 <==> forall k | 0 <= k < |plans| :: RunCountsOnce(c, plans, k)
  {
    hide CountsOnce, Deletions, Overcount;
    if plans != [] {
      var n := |plans| - 1;
      RecordStaysRight(c, plans[..n]);
      NothingCountedTwice(CountsAfter(c, plans[..n]), plans[n]);
      assert RunCountsOnce(c, plans, n) == CountsOnce(CountsAfter(c, plans[..n]), plans[n]);
      hide RunCountsOnce;
      forall k: nat | k < n ensures RunCountsOnce(c, plans[..n], k) == RunCountsOnce(c, plans, k) {
        RunOfPrefix(c, plans, n, k);
      }
    }
  }

  /** The record says complete only of targets without rows. */
  ghost predicate Honest(rows: set<Row>, meta: Meta, targets: seq<Target>, fingerprint: string) {
    meta.Meta? && meta.fingerprint == fingerprint && meta.status == Complete ==> Remaining(rows, targets) == {}
  }

  lemma RunAdds(before: set<Row>, after: set<Row>, targets: seq<Target>, meta: Meta, meta': Meta, fingerprint: string,
                plan: Plan)
    requires after <= before
    requires Counts(after, targets) == TakeOff(Counts(before, targets), Sum(Deletions(Counts(before, targets), plan)))
    requires var outcome := OutcomeOf(Counts(before, targets), plan, Recorded(meta, fingerprint));
             meta' == if outcome.Done? then Meta(fingerprint, outcome.status, outcome.rowsDeleted)
                      else Noted(meta, fingerprint, plan.aborts, Deletions(Counts(before, targets), plan))
    ensures Recorded(meta', fingerprint) + |Remaining(after, targets)|
            == Recorded(meta, fingerprint) + |Remaining(before, targets)|
               + Overcount(plan.aborts, Deletions(Counts(before, targets), plan))
    ensures Honest(before, meta, targets, fingerprint) ==> Honest(after, meta', targets, fingerprint)
    ensures plan.Undisturbed() ==>
              Remaining(after, targets) == {} && meta' == Meta(fingerprint, Complete, Recorded(meta', fingerprint))
  {
    hide Deletions, TakeOff;
    var c := Counts(before, targets);
    var d := Deletions(c, plan);
    DeletionsFit(c, plan);
    SumOfTakeOff(c, Sum(d));
    SumOfCounts(before, targets);
    SumOfCounts(after, targets);
    assert Remaining(after, targets) <= Remaining(before, targets);
    if Batches(d) == 0 { NothingDeleted(plan.aborts, d); }
    if plan.Undisturbed() { UndisturbedFinishes(c, plan); }
  }

  /** Any series of interrupted, limited or failed runs for the same targets leaves the
      counts and the record that its plans say; an undisturbed last run leaves nothing. */
  method Runs(db: Database, targets: seq<Target>, fingerprint: string, plans: seq<Plan>)
    modifies db
    ensures db.rows <= old(db.rows)
    ensures db.rows - Remaining(db.rows, targets) == old(db.rows) - Remaining(old(db.rows), targets)
    ensures Counts(db.rows, targets) == CountsAfter(Counts(old(db.rows), targets), plans)
    ensures Recorded(db.meta, fingerprint) + |Remaining(db.rows, targets)|
            == Recorded(old(db.meta), fingerprint) + |Remaining(old(db.rows), targets)|
               + OvercountAfter(Counts(old(db.rows), targets), plans)
    ensures Honest(old(db.rows), old(db.meta), targets, fingerprint) ==> Honest(db.rows, db.meta, targets, fingerprint)
    ensures plans != [] && plans[|plans| - 1].Undisturbed() ==>
              Remaining(db.rows, targets) == {}
              && db.meta == Meta(fingerprint, Complete, Recorded(db.meta, fingerprint))
  {
    hide Remaining, Deletions, TakeOff, RowsOf;
    ghost var c := Counts(db.rows, targets);
    for k := 0 to |plans|
      invariant db.rows <= old(db.rows)
      invariant db.rows - Remaining(db.rows, targets) == old(db.rows) - Remaining(old(db.rows), targets)
      invariant Counts(db.rows, targets) == CountsAfter(c, plans[..k])
      invariant Recorded(db.meta, fingerprint) + |Remaining(db.rows, targets)|
                == Recorded(old(db.meta), fingerprint) + |Remaining(old(db.rows), targets)|
                   + OvercountAfter(c, plans[..k])
      invariant Honest(old(db.rows), old(db.meta), targets, fingerprint) ==>
                  Honest(db.rows, db.meta, targets, fingerprint)
      invariant k > 0 && plans[k - 1].Undisturbed() ==>
                  Remaining(db.rows, targets) == {}
                  && db.meta == Meta(fingerprint, Complete, Recorded(db.meta, fingerprint))
    {
      ghost var before, rows, meta := CountsAfter(c, plans[..k]), db.rows, db.meta;
      var outcome := db.Compact(targets, plans[k], fingerprint);
      assert plans[..k + 1][..k] == plans[..k];
      RunAdds(rows, db.rows, targets, meta, db.meta, fingerprint, plans[k]);
    }
    assert plans[..|plans|] == plans;
  }

  /** With one attempt that ends busy after it counted, one deleted row is recorded as
      two. */
  method RecountedRow() returns (outcome: Outcome)
    ensures outcome == Done(Complete, 2, 0)
  {
    var row, target := Row([], [], 0), Target([], []);
    var db := new Database({row}, NoMeta);
    OneRow(row, target);
    OneRowTwice();
    outcome := db.Compact([target], Plan(1, -1, [Aborts(0, 1)], -1), []);
  }

  lemma OneRow(row: Row, target: Target)
    requires row.table == target.table && row.generation == target.generation
    ensures Counts({row}, [target]) == [1]
  {
    assert RowsOf({row}, target) == {row};
  }

  lemma OneRowTwice()
    ensures OutcomeOf([1], Plan(1, -1, [Aborts(0, 1)], -1), 0) == Done(Complete, 2, 0)
  {
    var plan := Plan(1, -1, [Aborts(0, 1)], -1);
    assert plan.Undisturbed();
    UndisturbedFinishes([1], plan);
    assert Later([1], 1) == [0] && Later([0], 1) == [];
    assert Schedule([0], 1) == [0] + [] && Schedule([1], 1) == [1] + Schedule([0], 1) == [1, 0];
    assert [1, 0][..1] == [1] && [1][..0] == [];
    assert Overcount(plan.aborts, [1, 0]) == 1 && Sum([1]) == 1;
  }

  lemma Multiples(k: int, n: int)
    ensures (k + 1) * n == k * n + n && 0 * n == 0
  {
  }
}
