/** Next-run times of the scheduled tasks and the tick that fires them. Days have 24
    hours and the time zone is a fixed offset. */
module Scheduler {
  import opened Options
  import opened Rounding

  const HOUR: int := 3_600_000
  const DAY: int := 86_400_000

  /** `zone` is the local time's offset from UTC. */
  datatype Spec = Spec(mode: string, enabled: bool, intervalHours: real, atHour: int, zone: int)

  predicate Anchored(spec: Spec) { 0 <= spec.atHour <= 23 }

  // ------------------------------------------------------------ the anchored grid

  /** The last instant at the anchor hour, at or before t. */
  function Anchor(spec: Spec, t: int): int {
    t - (t - (spec.atHour * HOUR - spec.zone)) % DAY
  }

  function StepOf(spec: Spec): int { PyRound(spec.intervalHours * 3_600_000.0) }

  /** Several runs a day. */
  predicate SubDaily(spec: Spec) { StepOf(spec) > 0 && spec.intervalHours < 24.0 }

  /** The runs of a day start at the anchor and repeat every step until the next one. */
  ghost predicate IsSlot(spec: Spec, t: int) {
    if SubDaily(spec) then (t - Anchor(spec, t)) % StepOf(spec) == 0
    else t == Anchor(spec, t)
  }

  ghost predicate IsLeastSlotAfter(spec: Spec, now: int, slot: int) {
    now < slot && IsSlot(spec, slot) && forall t | now < t < slot :: !IsSlot(spec, t)
  }

  // ------------------------------------------------------------ the computations

  /** nextOccurrenceOfHour: today at the hour if that is still ahead, else a day later. */
  function NextOccurrence(spec: Spec, now: int): int {
    var midnight := now - (now + spec.zone) % DAY;
    var next := midnight + spec.atHour * HOUR;
    if next > now then next else next + DAY
  }

  function WholeDays(spec: Spec): int {
    var days := Truncate(spec.intervalHours / 24.0);
    if days < 1 then 1 else days
  }

  /** The first slot after now, in closed form. */
  function NextAnchored(spec: Spec, now: int): int {
    var base := NextOccurrence(spec, now);
    if SubDaily(spec) then
      var slot := NextStep(base - DAY, StepOf(spec), now);
      if slot < base then slot else base
    else base + (WholeDays(spec) - 1) * DAY
  }

  function NextStep(from: int, step: int, now: int): int
    requires step > 0
  {
    from + ((now - from) / step + 1) * step
  }

  function IntervalMs(spec: Spec): int {
    if StepOf(spec) <= 0 then 24 * HOUR else StepOf(spec)
  }

  function NextRun(spec: Spec, now: int): int {
    if Anchored(spec) then NextAnchored(spec, now) else now + IntervalMs(spec)
  }

  /** nextAnchoredRun's loop over the day's slots finds the closed form. */
  method NextAnchoredRun(spec: Spec, now: int) returns (next: int)
    requires Anchored(spec)
    ensures next == NextAnchored(spec, now)
  {
    hide StepOf, WholeDays, NextStep;
    var base := NextOccurrence(spec, now);
    OccurrenceIsNextAnchor(spec, now);
    var step := StepOf(spec);
    if step > 0 && spec.intervalHours < 24.0 {
      var previous := base - DAY;
      var slot := previous + step;
      ghost var k := 1;
      StepsAre(previous, step, now, 0);
      while slot < base
        invariant k >= 1 && slot == previous + Steps(k, step)
        invariant previous + Steps(k - 1, step) <= now
        decreases base - slot
      {
        StepsAre(previous, step, now, k - 1);
        if slot > now { return slot; }
        StepsAre(previous, step, now, k);
        k := k + 1;
        slot := slot + step;
      }
      StepsAre(previous, step, now, k - 1);
      return base;
    }
    next := base + (WholeDays(spec) - 1) * DAY;
  }

  ghost function Steps(k: int, step: int): int { k * step }

  /** The step after the last one at or before now is the next one. */
  lemma StepsAre(from: int, step: int, now: int, k: nat)
    requires step > 0 && from <= now
    ensures Steps(0, step) == 0 && Steps(k + 1, step) == Steps(k, step) + step
    ensures from + Steps(k, step) <= now ==> NextStep(from, step, now) >= from + Steps(k + 1, step)
    ensures from + Steps(k, step) <= now < from + Steps(k + 1, step) ==>
            NextStep(from, step, now) == from + Steps(k + 1, step)
  {
    var q := (now - from) / step;
    DivideBack(now - from, step);
    StepsGrow(k, q, step);
    StepsGrow(q, k, step);
  }

  lemma StepAfter(k: int, step: int)
    ensures Steps(0, step) == 0 && Steps(k + 1, step) == Steps(k, step) + step
  {
  }

  lemma {:induction false} StepsGrow(k: int, q: int, step: int)
    requires step > 0
    ensures Steps(0, step) == 0 && Steps(k + 1, step) == Steps(k, step) + step
    ensures k < q ==> Steps(k + 1, step) <= Steps(q, step)
    decreases q - k
  {
    hide Steps;
    StepAfter(k, step);
    StepAfter(q - 1, step);
    if k + 1 < q { StepsGrow(k, q - 1, step); }
  }

  // ------------------------------------------------------------ the least slot

  lemma OccurrenceIsNextAnchor(spec: Spec, now: int)
    requires Anchored(spec)
    ensures NextOccurrence(spec, now) == Anchor(spec, now) + DAY
    ensures Anchor(spec, now) <= now < Anchor(spec, now) + DAY
  {
  }

  /** Between one anchor and the next, the anchor does not change. */
  lemma SameAnchor(spec: Spec, now: int, t: int)
    requires Anchored(spec) && Anchor(spec, now) <= t <= Anchor(spec, now) + DAY
    ensures t < Anchor(spec, now) + DAY ==> Anchor(spec, t) == Anchor(spec, now)
    ensures t == Anchor(spec, now) + DAY ==> Anchor(spec, t) == t
  {
  }

  lemma NextStepIsLeast(from: int, step: int, now: int, t: int)
    requires step > 0 && from <= now
    ensures NextStep(from, step, now) > now && (NextStep(from, step, now) - from) % step == 0
    ensures now < t < NextStep(from, step, now) ==> (t - from) % step != 0
  {
    var q := (now - from) / step;
    DivideBack(now - from, step);
    MultipleHasNoRemainder(q + 1, step);
    assert (q + 1) * step == q * step + step;
    if now < t < NextStep(from, step, now) {
      DivideBack(t - from, step);
      NoMultipleBetween(q, (t - from) / step, step, t - from);
    }
  }

  lemma DivideBack(n: int, step: int)
    requires step > 0
    ensures n == n / step * step + n % step && 0 <= n % step < step
  {
  }

  lemma NoMultipleBetween(q: int, p: int, step: int, n: int)
    requires step > 0 && q * step < n < (q + 1) * step
    ensures n != p * step
  {
    assert p <= q ==> p * step <= q * step;
    assert p > q ==> p * step >= (q + 1) * step;
  }

  lemma MultipleHasNoRemainder(k: int, step: int)
    requires step > 0
    ensures k * step % step == 0
  {
    var n := k * step;
    var q := n / step;
    assert n == q * step + n % step;
    assert q < k ==> (q + 1) * step <= k * step;
    assert q > k ==> (k + 1) * step <= q * step;
    assert (q + 1) * step == q * step + step && (k + 1) * step == k * step + step;
  }

  /** Below 48 hours the next run is the least slot of the anchored grid after now. */
  lemma NextIsLeastSlot(spec: Spec, now: int)
    requires Anchored(spec) && spec.intervalHours < 48.0
    ensures IsLeastSlotAfter(spec, now, NextAnchored(spec, now))
  {
    hide StepOf, Anchor, NextStep, NextOccurrence;
    OccurrenceIsNextAnchor(spec, now);
    var from := Anchor(spec, now);
    var next := NextAnchored(spec, now);
    if SubDaily(spec) {
      var step := StepOf(spec);
      NextStepIsLeast(from, step, now, now);
      SameAnchor(spec, now, next);
      if next == from + DAY { MultipleHasNoRemainder(0, step); }
      forall t | now < t < next ensures !IsSlot(spec, t) {
        SameAnchor(spec, now, t);
        NextStepIsLeast(from, step, now, t);
      }
    } else {
      SameAnchor(spec, now, next);
      forall t | now < t < next ensures !IsSlot(spec, t) {
        SameAnchor(spec, now, t);
      }
    }
  }

  /** Recomputing it at any later moment before it is due gives the same slot. */
  lemma NextIsStable(spec: Spec, now: int, later: int)
    requires Anchored(spec) && spec.intervalHours < 48.0 && now <= later < NextAnchored(spec, now)
    ensures NextAnchored(spec, later) == NextAnchored(spec, now)
  {
    hide NextAnchored, IsSlot;
    NextIsLeastSlot(spec, now);
    NextIsLeastSlot(spec, later);
    var a, b := NextAnchored(spec, now), NextAnchored(spec, later);
    assert b < a ==> !IsSlot(spec, b);
    assert a < b ==> !IsSlot(spec, a);
  }

  lemma NextIsAhead(spec: Spec, now: int)
    ensures NextRun(spec, now) > now
  {
    hide StepOf, NextStep;
    if Anchored(spec) {
      OccurrenceIsNextAnchor(spec, now);
      if SubDaily(spec) { NextStepIsLeast(Anchor(spec, now), StepOf(spec), now, now); }
    }
  }

  // ------------------------------------------------------------ one tick

  /** A task's durable row: none yet, or with a next-run time that may be NULL. */
  datatype Row = Missing | Row(next: Option<int>)

  /** What one tick does to an enabled task's row, and whether it fires. */
  function Ticked(spec: Spec, row: Row, now: int): (Row, bool) {
    match row
    case Missing => (Row(Some(NextRun(spec, now))), false)
    case Row(next) =>
      var current := if Anchored(spec) && (next.None? || next.value > now) then Some(NextAnchored(spec, now)) else next;
      if current.None? || current.value > now then (Row(current), false)
      else (Row(Some(NextRun(spec, now))), true)
  }

  /** The rows of the scheduled_task table. */
  class Schedules {
    var rows: map<string, Row>

    constructor ()
      ensures rows == map[]
    {
      rows := map[];
    }

    function RowOf(mode: string): Row
      reads this
    {
      if mode in rows then rows[mode] else Missing
    }

    /** One enabled task's turn in runDueSchedules. */
    method TickOne(spec: Spec, now: int) returns (fired: bool)
      modifies this
      ensures (RowOf(spec.mode), fired) == Ticked(spec, old(RowOf(spec.mode)), now)
      ensures forall other | other != spec.mode :: RowOf(other) == old(RowOf(other))
    {
      hide NextAnchored;
      fired := false;
      var anchored := 0 <= spec.atHour <= 23;
      var following;
      if anchored { following := NextAnchoredRun(spec, now); } else { following := now + IntervalMs(spec); }
      if spec.mode !in rows || rows[spec.mode].Missing? {
        rows := rows[spec.mode := Row(Some(following))];
        return;
      }
      var next := rows[spec.mode].next;
      if anchored && (next.None? || next.value > now) {
        if next != Some(following) {
          rows := rows[spec.mode := Row(Some(following))];
        }
        next := Some(following);
      }
      if next.None? || next.value > now { return; }
      fired := true;
      rows := rows[spec.mode := Row(Some(following))];
    }

    /** runDueSchedules: every enabled task has its turn, disabled ones are left alone. */
    method RunDue(specs: seq<Spec>, now: int) returns (fired: seq<string>)
      requires forall i, j | 0 <= i < j < |specs| :: specs[i].mode != specs[j].mode
      modifies this
      ensures forall i | 0 <= i < |specs| ::
                if specs[i].enabled
                then RowOf(specs[i].mode) == Ticked(specs[i], old(RowOf(specs[i].mode)), now).0
                     && (specs[i].mode in fired <==> Ticked(specs[i], old(RowOf(specs[i].mode)), now).1)
                else RowOf(specs[i].mode) == old(RowOf(specs[i].mode)) && specs[i].mode !in fired
    {
      hide Ticked;
      fired := [];
      for k := 0 to |specs|
        invariant forall i | 0 <= i < k ::
                    if specs[i].enabled
                    then RowOf(specs[i].mode) == Ticked(specs[i], old(RowOf(specs[i].mode)), now).0
                         && (specs[i].mode in fired <==> Ticked(specs[i], old(RowOf(specs[i].mode)), now).1)
                    else RowOf(specs[i].mode) == old(RowOf(specs[i].mode)) && specs[i].mode !in fired
        invariant forall i | k <= i < |specs| ::
                  RowOf(specs[i].mode) == old(RowOf(specs[i].mode)) && specs[i].mode !in fired
      {
        if specs[k].enabled {
          var due := TickOne(specs[k], now);
          if due { fired := fired + [specs[k].mode]; }
        }
      }
    }
  }

  // ------------------------------------------------------------ runs of ticks

  /** The row before tick k, when the ticks come at the given times. */
  ghost function RowAt(spec: Spec, first: Row, ticks: seq<int>, k: nat): Row
    requires k <= |ticks|
  {
    if k == 0 then first else Ticked(spec, RowAt(spec, first, ticks, k - 1), ticks[k - 1]).0
  }

  ghost predicate Fires(spec: Spec, first: Row, ticks: seq<int>, k: nat)
    requires k < |ticks|
  {
    Ticked(spec, RowAt(spec, first, ticks, k), ticks[k]).1
  }

  ghost predicate Rising(ticks: seq<int>) {
    forall i, j | 0 <= i < j < |ticks| :: ticks[i] <= ticks[j]
  }

  /** A first enable never fires at once. */
  lemma FirstEnableWaits(spec: Spec, ticks: seq<int>)
    requires ticks != []
    ensures !Fires(spec, Missing, ticks, 0)
    ensures RowAt(spec, Missing, ticks, 1) == Row(Some(NextRun(spec, ticks[0]))) && NextRun(spec, ticks[0]) > ticks[0]
  {
    hide NextRun;
    NextIsAhead(spec, ticks[0]);
    assert RowAt(spec, Missing, ticks, 0) == Missing;
  }

  /** After any tick an anchored row holds the next run as seen from that tick. */
  lemma AnchoredRowFollows(spec: Spec, first: Row, ticks: seq<int>, k: nat)
    requires Anchored(spec) && 1 <= k <= |ticks|
    ensures RowAt(spec, first, ticks, k) == Row(Some(NextAnchored(spec, ticks[k - 1])))
  {
    hide NextAnchored;
    NextIsAhead(spec, ticks[k - 1]);
  }

  /** So a tick fires exactly when the run seen from the tick before has come due. */
  lemma FiresWhenDue(spec: Spec, first: Row, ticks: seq<int>, k: nat)
    requires Anchored(spec) && 1 <= k < |ticks|
    ensures Fires(spec, first, ticks, k) <==> NextAnchored(spec, ticks[k - 1]) <= ticks[k]
  {
    hide NextAnchored;
    AnchoredRowFollows(spec, first, ticks, k);
    NextIsAhead(spec, ticks[k]);
  }

  /** Below 48 hours a tick fires exactly when a slot of the grid came since the tick
      before: each slot fires on the first tick at or after it, and on no other. */
  lemma FiresForEachSlot(spec: Spec, first: Row, ticks: seq<int>, k: nat)
    requires Anchored(spec) && spec.intervalHours < 48.0 && 1 <= k < |ticks|
    ensures Fires(spec, first, ticks, k) <==> exists slot :: ticks[k - 1] < slot <= ticks[k] && IsSlot(spec, slot)
  {
    hide NextAnchored, IsSlot, Fires;
    FiresWhenDue(spec, first, ticks, k);
    NextIsLeastSlot(spec, ticks[k - 1]);
    if slot :| ticks[k - 1] < slot <= ticks[k] && IsSlot(spec, slot) {
      assert slot >= NextAnchored(spec, ticks[k - 1]);
    }
  }

  /** A slot that lies between the first and the last tick is fired by the first tick
      at or after it. */
  lemma {:induction false} EverySlotIsServed(spec: Spec, first: Row, ticks: seq<int>, slot: int) returns (k: nat)
    requires Anchored(spec) && spec.intervalHours < 48.0 && Rising(ticks) && IsSlot(spec, slot)
    requires ticks != [] && ticks[0] < slot <= ticks[|ticks| - 1]
    ensures 1 <= k < |ticks| && ticks[k - 1] < slot <= ticks[k] && Fires(spec, first, ticks, k)
    ensures forall j | 0 <= j < |ticks| :: j < k <==> ticks[j] < slot
  {
    hide Fires, IsSlot;
    k := 1;
    while ticks[k] < slot
      invariant 1 <= k < |ticks| && ticks[k - 1] < slot
      invariant forall j | 0 <= j < k :: ticks[j] < slot
      decreases |ticks| - k
    {
      k := k + 1;
    }
    FiresForEachSlot(spec, first, ticks, k);
  }

  /** From 48 hours on, a tick fires exactly when it comes whole days later than the
      anchor that followed the tick before. */
  lemma LongFiresAfterGap(spec: Spec, first: Row, ticks: seq<int>, k: nat)
    requires Anchored(spec) && spec.intervalHours >= 48.0 && 1 <= k < |ticks|
    ensures WholeDays(spec) >= 2
    ensures Fires(spec, first, ticks, k) <==> ticks[k] >= Anchor(spec, ticks[k - 1]) + WholeDays(spec) * DAY
  {
    hide Fires, Anchor, NextOccurrence;
    FiresWhenDue(spec, first, ticks, k);
    OccurrenceIsNextAnchor(spec, ticks[k - 1]);
  }

  /** So while ticks keep coming less than a day apart it never fires at all: each tick
      moves the run on before it is due. */
  lemma LongNeverFires(spec: Spec, first: Row, ticks: seq<int>, k: nat)
    requires Anchored(spec) && spec.intervalHours >= 48.0 && 1 <= k < |ticks|
    requires ticks[k] < ticks[k - 1] + DAY
    ensures !Fires(spec, first, ticks, k)
  {
    hide Fires, Anchor, WholeDays;
    LongFiresAfterGap(spec, first, ticks, k);
    OccurrenceIsNextAnchor(spec, ticks[k - 1]);
  }

  /** Every other day at 04:00 with a tick every hour: fifty ticks, two of them at 04:00
      two days apart, and no run. */
  lemma EveryOtherDayIsNotKept()
    ensures var spec := Spec("backup", true, 48.0, 4, 0);
            var ticks := seq(50, i requires 0 <= i < 50 => (4 + i) * HOUR);
            forall k | 0 <= k < 50 :: !Fires(spec, Missing, ticks, k)
  {
    var spec := Spec("backup", true, 48.0, 4, 0);
    var ticks := seq(50, i requires 0 <= i < 50 => (4 + i) * HOUR);
    forall k | 0 <= k < 50 ensures !Fires(spec, Missing, ticks, k) {
      hide Fires;
      if k == 0 { FirstEnableWaits(spec, ticks); } else { LongNeverFires(spec, Missing, ticks, k); }
    }
  }

  // ------------------------------------------------------------ interval-relative tasks

  /** Without an anchor, the row keeps its time until a tick at or after it. */
  lemma {:induction false} RelativeRowWaits(spec: Spec, first: Row, ticks: seq<int>, i: nat, k: nat)
    requires !Anchored(spec) && i < k <= |ticks| && Fires(spec, first, ticks, i)
    requires forall j | i < j < k :: !Fires(spec, first, ticks, j)
    ensures RowAt(spec, first, ticks, k) == Row(Some(ticks[i] + IntervalMs(spec)))
  {
    hide IntervalMs;
    if k > i + 1 {
      RelativeRowWaits(spec, first, ticks, i, k - 1);
      assert !Fires(spec, first, ticks, k - 1);
    }
  }

  /** Two firings are at least the interval apart. */
  lemma {:induction false} RelativeFiringsAreSpaced(spec: Spec, first: Row, ticks: seq<int>, i: nat, k: nat)
    requires !Anchored(spec) && Rising(ticks) && i < k < |ticks|
    requires Fires(spec, first, ticks, i) && Fires(spec, first, ticks, k)
    ensures ticks[k] >= ticks[i] + IntervalMs(spec)
    decreases k
  {
    hide IntervalMs;
    if j :| i < j < k && Fires(spec, first, ticks, j) {
      RelativeFiringsAreSpaced(spec, first, ticks, i, j);
    } else {
      RelativeRowWaits(spec, first, ticks, i, k);
    }
  }
}
