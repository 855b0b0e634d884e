/** The sessions and standalone outcomes rebuilt for one scene. */
module HistoricalSessions {
  import opened Options
  import opened Historical
  import opened Sorting
  import opened Rounding
  import RealSums

  const VIEW_CONFIDENCE: real := 0.45
  const REPEAT_BASE: real := 0.55
  const REPEAT_TAU_HOURS: real := 6.0
  const REPEAT_CONFIDENCE: real := 0.80
  const O_VALUE: real := 1.0
  const O_CONFIDENCE: real := 1.0
  const AGREEMENT_BONUS: real := 0.05
  const WINDOW_MS: int := 6 * 3_600_000
  const SHORT_EXIT_SECONDS: real := 30.0
  const VIEW_RISE_SECONDS: real := 90.0
  const VIEW_POSITIVE_MAX: real := 0.35
  const MS_PER_HOUR: real := 3_600_000.0

  /** `rise(e)` stands for 1 - exp(-e). */
  ghost predicate Rises(rise: real -> real) {
    forall e | e >= 0.0 :: 0.0 <= rise(e) < 1.0
  }

  // ------------------------------------------------------------ signals

  datatype Kind = View | Repeat | O

  datatype Signal = Signal(kind: Kind, value: real, confidence: real, observedAt: int)

  datatype Outcome = Outcome(value: real, confidence: real, primary: Kind, observedAt: int, supporting: seq<Kind>)

  function ViewSignal(active: real, at: int, rise: real -> real): Option<Signal> {
    if active < 0.0 || active < SHORT_EXIT_SECONDS then None
    else
      var value := VIEW_POSITIVE_MAX * rise((active - SHORT_EXIT_SECONDS) / VIEW_RISE_SECONDS);
      if RealSums.Abs(value) < 0.000000000001 then None else Some(Signal(View, value, VIEW_CONFIDENCE, at))
  }

  function RepeatSignal(gapHours: real, at: int, rise: real -> real): Option<Signal> {
    var value := REPEAT_BASE * rise(gapHours / REPEAT_TAU_HOURS);
    if value <= 0.0 then None else Some(Signal(Repeat, value, REPEAT_CONFIDENCE, at))
  }

  function OSignal(at: int): Signal { Signal(O, O_VALUE, O_CONFIDENCE, at) }

  function Listed(signal: Option<Signal>): seq<Signal> {
    match signal
    case None => []
    case Some(s) => [s]
  }

  /** The evidence of one play: how long, how soon after the one before, and its O. */
  function SignalsOf(plays: seq<Mark>, i: nat, average: real, attached: Option<Mark>, rise: real -> real): seq<Signal>
    requires i < |plays|
  {
    Listed(ViewSignal(average, plays[i].at, rise))
    + (if i > 0 && plays[i - 1].at >= 0
       then Listed(RepeatSignal((plays[i].at - plays[i - 1].at) as real / MS_PER_HOUR, plays[i].at, rise)) else [])
    + (match attached case None => [] case Some(o) => [OSignal(o.at)])
  }

  // ------------------------------------------------------------ collapseSignals

  /** `a` takes over from an earlier signal `b`. */
  predicate TakesOver(a: Signal, b: Signal) {
    RealSums.Abs(a.value) > RealSums.Abs(b.value)
      || (RealSums.Abs(a.value) == RealSums.Abs(b.value) && a.observedAt > b.observedAt)
  }

  /** The signal at `p` is the strongest, then the latest observed, then the first. */
  ghost predicate IsPrimary(signals: seq<Signal>, p: nat) {
    && p < |signals|
    && (forall j | 0 <= j < |signals| :: !TakesOver(signals[j], signals[p]))
    && forall j | 0 <= j < p :: TakesOver(signals[p], signals[j])
  }

  lemma PrimaryIsUnique(signals: seq<Signal>, p: nat, q: nat)
    requires IsPrimary(signals, p) && IsPrimary(signals, q)
    ensures p == q
  {
    var a, b := signals[p], signals[q];
    assert p < q ==> TakesOver(b, a);
    assert q < p ==> TakesOver(a, b);
  }

  /** The kinds of the other signals with the primary's sign, among the first n. */
  function Supporting(signals: seq<Signal>, p: nat, n: nat): seq<Kind>
    requires p < |signals| && n <= |signals|
  {
    if n == 0 then []
    else
      Supporting(signals, p, n - 1)
      + if n - 1 != p && signals[n - 1].value * signals[p].value > 0.0 then [signals[n - 1].kind] else []
  }

  function OutcomeBy(signals: seq<Signal>, p: nat): Outcome
    requires p < |signals|
  {
    var supporting := Supporting(signals, p, |signals|);
    var bonus := signals[p].confidence + AGREEMENT_BONUS;
    Outcome(signals[p].value,
            if supporting == [] then signals[p].confidence else if bonus < 1.0 then bonus else 1.0,
            signals[p].kind, signals[p].observedAt, supporting)
  }

  ghost predicate IsCollapse(signals: seq<Signal>, outcome: Option<Outcome>) {
    match outcome
    case None => signals == []
    case Some(o) => exists p :: IsPrimary(signals, p) && o == OutcomeBy(signals, p)
  }

  method CollapseSignals(signals: seq<Signal>) returns (outcome: Option<Outcome>)
    ensures IsCollapse(signals, outcome)
  {
    if |signals| == 0 { return None; }
    var p := 0;
    for i := 1 to |signals|
      invariant p < i
      invariant forall j | 0 <= j < i :: !TakesOver(signals[j], signals[p])
      invariant forall j | 0 <= j < p :: TakesOver(signals[p], signals[j])
    {
      if TakesOver(signals[i], signals[p]) { p := i; }
    }
    var supporting: seq<Kind> := [];
    for i := 0 to |signals|
      invariant supporting == Supporting(signals, p, i)
    {
      if i != p && signals[i].value * signals[p].value > 0.0 {
        supporting := supporting + [signals[i].kind];
      }
    }
    var confidence := signals[p].confidence;
    if |supporting| > 0 {
      confidence := if confidence + AGREEMENT_BONUS < 1.0 then confidence + AGREEMENT_BONUS else 1.0;
    }
    outcome := Some(Outcome(signals[p].value, confidence, signals[p].kind, signals[p].observedAt, supporting));
    assert IsPrimary(signals, p) && outcome.value == OutcomeBy(signals, p);
  }

  lemma CollapseIsUnique(signals: seq<Signal>, a: Option<Outcome>, b: Option<Outcome>)
    requires IsCollapse(signals, a) && IsCollapse(signals, b)
    ensures a == b
  {
    if a.Some? && b.Some? {
      var p :| IsPrimary(signals, p) && a.value == OutcomeBy(signals, p);
      var q :| IsPrimary(signals, q) && b.value == OutcomeBy(signals, q);
      PrimaryIsUnique(signals, p, q);
    }
  }

  // ------------------------------------------------------------ sessions

  /** What a stable event id is the digest of. */
  datatype EventId = EventId(isSession: bool, scene: string, at: int, ordinal: int)

  datatype Session = Session(id: EventId, startedAt: int, endedAt: int, activeSeconds: real, outcome: Option<Outcome>,
                             matchedO: Option<Mark>)

  datatype Standalone = Standalone(id: EventId, outcome: Outcome)

  function Average(total: real, count: nat): real {
    if count > 0 then total / count as real else 0.0
  }

  function Attached(m: map<nat, nat>, os: seq<Mark>, i: nat): Option<Mark> {
    if i in m && m[i] < |os| then Some(os[m[i]]) else None
  }

  /** A session says what the ordered play `i` and its O give. */
  ghost predicate IsSession(session: Session, scene: string, plays: seq<Mark>, i: nat, average: real,
                            attached: Option<Mark>, rise: real -> real)
    requires i < |plays|
  {
    && session.id == EventId(true, scene, plays[i].at, plays[i].ordinal)
    && session.startedAt == plays[i].at
    && session.endedAt == plays[i].at + PyRound(average * 1000.0)
    && session.activeSeconds == average
    && session.matchedO == attached
    && IsCollapse(SignalsOf(plays, i, average, attached, rise), session.outcome)
  }

  function StandaloneOf(scene: string, o: Mark): Standalone {
    Standalone(EventId(false, scene, o.at, o.ordinal), Outcome(O_VALUE, O_CONFIDENCE, O, o.at, []))
  }

  /** The Os among the first n that no play took. */
  function Unmatched(os: seq<Mark>, taken: set<nat>, n: nat): seq<Mark>
    requires n <= |os|
  {
    if n == 0 then [] else Unmatched(os, taken, n - 1) + if n - 1 in taken then [] else [os[n - 1]]
  }

  /** The rebuilt history of one scene. */
  ghost predicate IsHistory(sessions: seq<Session>, standalone: seq<Standalone>, scene: string, total: real,
                            plays: seq<Mark>, os: seq<Mark>, rise: real -> real, m: map<nat, nat>)
  {
    var P, Q := Sort(plays, MarkBefore), Sort(os, MarkBefore);
    var average := Average(total, |plays|);
    var left := Unmatched(Q, m.Values, |Q|);
    && Stable(m, P, Q, WINDOW_MS)
    && |sessions| == |plays|
    && (forall i | 0 <= i < |sessions| :: IsSession(sessions[i], scene, P, i, average, Attached(m, Q, i), rise))
    && |standalone| == |left|
    && forall i | 0 <= i < |standalone| :: standalone[i] == StandaloneOf(scene, left[i])
  }

  /** One play's session. */
  method BuildSession(scene: string, plays: seq<Mark>, i: nat, previous: int, average: real, attached: Option<Mark>,
                      rise: real -> real)
    returns (session: Session)
    requires i < |plays| && previous == (if i == 0 then -1 else plays[i - 1].at)
    ensures IsSession(session, scene, plays, i, average, attached, rise)
  {
    var play := plays[i];
    var signals := Listed(ViewSignal(average, play.at, rise));
    if previous >= 0 {
      signals := signals + Listed(RepeatSignal((play.at - previous) as real / MS_PER_HOUR, play.at, rise));
    }
    if attached.Some? {
      signals := signals + [OSignal(attached.value.at)];
    }
    assert signals == SignalsOf(plays, i, average, attached, rise);
    var outcome := CollapseSignals(signals);
    session := Session(EventId(true, scene, play.at, play.ordinal), play.at, play.at + PyRound(average * 1000.0),
                       average, outcome, attached);
  }

  method StandaloneOutcomes(scene: string, os: seq<Mark>, matched: set<nat>) returns (standalone: seq<Standalone>)
    ensures |standalone| == |Unmatched(os, matched, |os|)|
    ensures forall i | 0 <= i < |standalone| :: standalone[i] == StandaloneOf(scene, Unmatched(os, matched, |os|)[i])
  {
    standalone := [];
    for k := 0 to |os|
      invariant |standalone| == |Unmatched(os, matched, k)|
      invariant forall i | 0 <= i < |standalone| :: standalone[i] == StandaloneOf(scene, Unmatched(os, matched, k)[i])
    {
      if k !in matched {
        var signals := [OSignal(os[k].at)];
        var outcome := CollapseSignals(signals);
        OnlySignal(os[k], outcome);
        if outcome.Some? {
          standalone := standalone + [Standalone(EventId(false, scene, os[k].at, os[k].ordinal), outcome.value)];
        }
      }
    }
  }

  lemma OnlySignal(o: Mark, outcome: Option<Outcome>)
    requires IsCollapse([OSignal(o.at)], outcome)
    ensures outcome == Some(Outcome(O_VALUE, O_CONFIDENCE, O, o.at, []))
  {
    var signals := [OSignal(o.at)];
    assert Supporting(signals, 0, 0) == [];
    assert Supporting(signals, 0, 1) == [];
    assert IsPrimary(signals, 0);
    assert IsCollapse(signals, Some(OutcomeBy(signals, 0)));
    CollapseIsUnique(signals, outcome, Some(OutcomeBy(signals, 0)));
  }

  method ReconstructHistory(scene: string, total: real, plays: seq<Mark>, os: seq<Mark>, rise: real -> real)
    returns (sessions: seq<Session>, standalone: seq<Standalone>)
    ensures exists m :: IsHistory(sessions, standalone, scene, total, plays, os, rise, m)
  {
    hide Stable, IsSession, StandaloneOf, Unmatched;
    var orderedPlays := Sort(plays, MarkBefore);
    var orderedOs := Sort(os, MarkBefore);
    var average := if |orderedPlays| > 0 then total / |orderedPlays| as real else 0.0;
    var matched, matchedOs := MatchOs(orderedPlays, orderedOs, WINDOW_MS);
    sessions := [];
    var previous := -1;
    for i := 0 to |orderedPlays|
      invariant |sessions| == i
      invariant previous == if i == 0 then -1 else orderedPlays[i - 1].at
      invariant forall k | 0 <= k < i ::
                IsSession(sessions[k], scene, orderedPlays, k, average, Attached(matched, orderedOs, k), rise)
    {
      var session := BuildSession(scene, orderedPlays, i, previous, average, Attached(matched, orderedOs, i), rise);
      sessions := sessions + [session];
      previous := orderedPlays[i].at;
    }
    standalone := StandaloneOutcomes(scene, orderedOs, matchedOs);
    assert IsHistory(sessions, standalone, scene, total, plays, os, rise, matched);
  }

  // ------------------------------------------------------------ what the history promises

  /** The history is a function of the plays and Os as bags: their order, and which of
      several equal ones comes first, do not matter. */
  lemma HistoryIgnoresOrder(s: seq<Session>, t: seq<Standalone>, m: map<nat, nat>, s': seq<Session>,
                            t': seq<Standalone>, m': map<nat, nat>, scene: string, total: real, plays: seq<Mark>,
                            os: seq<Mark>, plays': seq<Mark>, os': seq<Mark>, rise: real -> real)
    requires IsHistory(s, t, scene, total, plays, os, rise, m)
    requires IsHistory(s', t', scene, total, plays', os', rise, m')
    requires multiset(plays) == multiset(plays') && multiset(os) == multiset(os')
    ensures s == s' && t == t'
  {
    hide Stable, MarkBefore, Total, StandaloneOf, Unmatched, IsSession;
    MarksAreTotal();
    SortIgnoresOrder(plays, plays', MarkBefore);
    SortIgnoresOrder(os, os', MarkBefore);
    assert |plays| == |multiset(plays)| == |plays'|;
    var P, Q := Sort(plays, MarkBefore), Sort(os, MarkBefore);
    StableIsUnique(m, m', P, Q, WINDOW_MS);
    forall i | 0 <= i < |s| ensures s[i] == s'[i] {
      SessionIsUnique(s[i], s'[i], scene, P, i, Average(total, |plays|), Attached(m, Q, i), rise);
    }
  }

  lemma SessionIsUnique(a: Session, b: Session, scene: string, plays: seq<Mark>, i: nat, average: real,
                        attached: Option<Mark>, rise: real -> real)
    requires i < |plays|
    requires IsSession(a, scene, plays, i, average, attached, rise)
             && IsSession(b, scene, plays, i, average, attached, rise)
    ensures a == b
  {
    hide SignalsOf, IsCollapse;
    CollapseIsUnique(SignalsOf(plays, i, average, attached, rise), a.outcome, b.outcome);
  }

  ghost function Bag(o: Option<Mark>): multiset<Mark> {
    match o
    case None => multiset{}
    case Some(mark) => multiset{mark}
  }

  /** The Os that sessions carry. */
  ghost function Carried(sessions: seq<Session>): multiset<Mark> {
    if sessions == [] then multiset{}
    else
      var last := sessions[|sessions| - 1];
      Carried(sessions[..|sessions| - 1]) + Bag(last.matchedO)
  }

  /** The Os at the indices in `which`, among the first n. */
  ghost function At(os: seq<Mark>, which: set<nat>, n: nat): multiset<Mark>
    requires n <= |os|
  {
    if n == 0 then multiset{} else At(os, which, n - 1) + Bag(if n - 1 in which then Some(os[n - 1]) else None)
  }

  lemma NoBag()
    ensures Bag(None) == multiset{}
  {
  }

  lemma Swap(a: multiset<Mark>, b: multiset<Mark>, c: multiset<Mark>)
    ensures a + b + c == a + c + b
  {
  }

  lemma {:induction false} AtOneMore(os: seq<Mark>, which: set<nat>, o: nat, n: nat)
    requires n <= |os| && o !in which
    ensures At(os, which + {o}, n) == At(os, which, n) + Bag(if o < n then Some(os[o]) else None)
  {
    hide Bag, At;
    NoBag();
    AtOpened(os, which, n);
    AtOpened(os, which + {o}, n);
    if n > 0 {
      AtOneMore(os, which, o, n - 1);
      if n - 1 == o {
        assert At(os, which + {o}, n - 1) == At(os, which, n - 1);
      } else {
        Swap(At(os, which, n - 1), Bag(if o < n - 1 then Some(os[o]) else None),
             Bag(if n - 1 in which then Some(os[n - 1]) else None));
      }
    }
  }

  lemma AtOpened(os: seq<Mark>, which: set<nat>, n: nat)
    requires n <= |os|
    ensures n == 0 ==> At(os, which, n) == multiset{}
    ensures n > 0 ==> At(os, which, n) == At(os, which, n - 1) + Bag(if n - 1 in which then Some(os[n - 1]) else None)
  {
    hide Bag;
  }

  lemma {:induction false} TakenOrLeft(os: seq<Mark>, which: set<nat>, n: nat)
    requires n <= |os|
    ensures At(os, which, n) + multiset(Unmatched(os, which, n)) == multiset(os[..n])
  {
    hide Bag, At, Unmatched;
    Opened(os, which, n);
    if n > 0 {
      TakenOrLeft(os, which, n - 1);
      assert os[..n] == os[..n - 1] + [os[n - 1]];
      TakeOrLeave(At(os, which, n - 1), Unmatched(os, which, n - 1), os[..n - 1], os[n - 1]);
    }
  }

  lemma Opened(os: seq<Mark>, which: set<nat>, n: nat)
    requires n <= |os|
    ensures n == 0 ==> At(os, which, n) + multiset(Unmatched(os, which, n)) == multiset(os[..n])
    ensures n > 0 && n - 1 in which ==>
            At(os, which, n) == At(os, which, n - 1) + Bag(Some(os[n - 1]))
              && Unmatched(os, which, n) == Unmatched(os, which, n - 1)
    ensures n > 0 && n - 1 !in which ==>
            At(os, which, n) == At(os, which, n - 1) + Bag(None)
              && Unmatched(os, which, n) == Unmatched(os, which, n - 1) + [os[n - 1]]
  {
    hide Bag;
  }

  lemma TakeOrLeave(taken: multiset<Mark>, left: seq<Mark>, before: seq<Mark>, o: Mark)
    requires taken + multiset(left) == multiset(before)
    ensures taken + Bag(Some(o)) + multiset(left) == multiset(before + [o])
    ensures taken + Bag(None) + multiset(left + [o]) == multiset(before + [o])
  {
    Swap(taken, Bag(Some(o)), multiset(left));
    assert multiset(left + [o]) == multiset(left) + multiset{o};
    assert taken + multiset{} == taken;
    assert taken + (multiset(left) + multiset{o}) == taken + multiset(left) + multiset{o};
  }

  lemma {:induction false} NothingTaken(os: seq<Mark>, n: nat)
    requires n <= |os|
    ensures At(os, {}, n) == multiset{}
  {
    if n > 0 { NothingTaken(os, n - 1); }
  }

  /** The Os that the first n plays took. */
  ghost function TakenBy(m: map<nat, nat>, n: nat): set<nat> {
    set i | 0 <= i < n && i in m :: m[i]
  }

  lemma {:induction false} CarriedAre(sessions: seq<Session>, m: map<nat, nat>, os: seq<Mark>, n: nat)
    requires n <= |sessions|
    requires forall i | 0 <= i < n :: sessions[i].matchedO == Attached(m, os, i)
    requires forall i | i in m :: m[i] < |os|
    requires forall i, j | i in m && j in m && i != j :: m[i] != m[j]
    ensures Carried(sessions[..n]) == At(os, TakenBy(m, n), |os|)
  {
    hide Bag, At, TakenBy;
    OneMoreTaken(m, n);
    if n == 0 {
      NothingTaken(os, |os|);
    } else {
      CarriedAre(sessions, m, os, n - 1);
      assert sessions[..n][..n - 1] == sessions[..n - 1];
      if n - 1 in m {
        AtOneMore(os, TakenBy(m, n - 1), m[n - 1], |os|);
      } else {
        NoBag();
      }
    }
  }

  lemma OneMoreTaken(m: map<nat, nat>, n: nat)
    requires forall i, j | i in m && j in m && i != j :: m[i] != m[j]
    ensures TakenBy(m, 0) == {}
    ensures n > 0 && n - 1 !in m ==> TakenBy(m, n) == TakenBy(m, n - 1)
    ensures n > 0 && n - 1 in m ==> TakenBy(m, n) == TakenBy(m, n - 1) + {m[n - 1]} && m[n - 1] !in TakenBy(m, n - 1)
  {
    if n > 0 && n - 1 in m {
      forall o | o in TakenBy(m, n) ensures o in TakenBy(m, n - 1) + {m[n - 1]} {
        var i :| 0 <= i < n && i in m && m[i] == o;
        if i < n - 1 { assert o in TakenBy(m, n - 1); }
      }
      assert m[n - 1] in TakenBy(m, n);
    }
  }

  /** Every O is accounted for exactly once: carried by a session or standing alone. */
  lemma EveryOOnce(sessions: seq<Session>, standalone: seq<Standalone>, scene: string, total: real,
                   plays: seq<Mark>, os: seq<Mark>, rise: real -> real, m: map<nat, nat>)
    requires IsHistory(sessions, standalone, scene, total, plays, os, rise, m)
    ensures Carried(sessions)
            + multiset(seq(|standalone|,
                           i requires 0 <= i < |standalone| => Mark(standalone[i].id.at, standalone[i].id.ordinal)))
         == multiset(os)
  {
    var Q := Sort(os, MarkBefore);
    CarriedIs(sessions, standalone, scene, total, plays, os, rise, m);
    assert seq(|standalone|, i requires 0 <= i < |standalone| => Mark(standalone[i].id.at, standalone[i].id.ordinal))
           == Unmatched(Q, m.Values, |Q|);
    hide IsHistory, Unmatched, At;
    TakenOrLeft(Q, m.Values, |Q|);
    assert Q[..|Q|] == Q;
  }

  lemma CarriedIs(sessions: seq<Session>, standalone: seq<Standalone>, scene: string, total: real,
                  plays: seq<Mark>, os: seq<Mark>, rise: real -> real, m: map<nat, nat>)
    requires IsHistory(sessions, standalone, scene, total, plays, os, rise, m)
    ensures Carried(sessions) == At(Sort(os, MarkBefore), m.Values, |Sort(os, MarkBefore)|)
  {
    hide Stable, MarkBefore, IsSession, At, Bag, Carried, TakenBy;
    var P, Q := Sort(plays, MarkBefore), Sort(os, MarkBefore);
    StableIs(m, P, Q);
    forall i | 0 <= i < |sessions| ensures sessions[i].matchedO == Attached(m, Q, i) {
      SessionCarries(sessions[i], scene, P, i, Average(total, |plays|), Attached(m, Q, i), rise);
    }
    CarriedAre(sessions, m, Q, |sessions|);
    assert sessions[..|sessions|] == sessions;
    AllTaken(m, |sessions|);
  }

  lemma StableIs(m: map<nat, nat>, plays: seq<Mark>, os: seq<Mark>)
    requires Stable(m, plays, os, WINDOW_MS)
    ensures forall i | i in m :: i < |plays| && m[i] < |os|
    ensures forall i, j | i in m && j in m && i != j :: m[i] != m[j]
  {
  }

  lemma SessionCarries(session: Session, scene: string, plays: seq<Mark>, i: nat, average: real, attached: Option<Mark>,
                       rise: real -> real)
    requires i < |plays| && IsSession(session, scene, plays, i, average, attached, rise)
    ensures session.matchedO == attached
  {
  }

  lemma AllTaken(m: map<nat, nat>, n: nat)
    requires forall i | i in m :: i < n
    ensures TakenBy(m, n) == m.Values
  {
  }

  /** A session with an O is an O session: no viewing or repeat evidence outweighs it. */
  lemma OWins(sessions: seq<Session>, standalone: seq<Standalone>, scene: string, total: real,
              plays: seq<Mark>, os: seq<Mark>, rise: real -> real, m: map<nat, nat>, i: nat)
    requires Rises(rise) && IsHistory(sessions, standalone, scene, total, plays, os, rise, m)
    requires i < |sessions| && sessions[i].matchedO.Some?
    ensures sessions[i].outcome.Some?
    ensures var o := sessions[i].outcome.value;
            o.primary == O && o.value == O_VALUE && o.confidence == 1.0 && o.observedAt == sessions[i].matchedO.value.at
  {
    hide Stable;
    MarksAreTotal();
    SortIsOrdered(plays, MarkBefore);
    var P, Q := Sort(plays, MarkBefore), Sort(os, MarkBefore);
    var average, attached := Average(total, |plays|), Attached(m, Q, i);
    assert IsSession(sessions[i], scene, P, i, average, attached, rise);
    OWinsAt(P, i, average, attached.value, rise, sessions[i].outcome);
  }

  lemma OWinsAt(plays: seq<Mark>, i: nat, average: real, o: Mark, rise: real -> real, outcome: Option<Outcome>)
    requires Rises(rise) && i < |plays| && Ordered(plays, MarkBefore)
    requires IsCollapse(SignalsOf(plays, i, average, Some(o), rise), outcome)
    ensures outcome.Some?
    ensures outcome.value.primary == O && outcome.value.value == O_VALUE && outcome.value.confidence == 1.0
            && outcome.value.observedAt == o.at
  {
    var signals := SignalsOf(plays, i, average, Some(o), rise);
    var last := |signals| - 1;
    assert signals[last] == OSignal(o.at);
    forall j | 0 <= j < last ensures RealSums.Abs(signals[j].value) < 1.0 {
      EvidenceIsWeak(plays, i, average, rise);
      if j < |Listed(ViewSignal(average, plays[i].at, rise))| {
        assert signals[j] == ViewSignal(average, plays[i].at, rise).value;
      }
    }
    assert IsPrimary(signals, last);
    CollapseIsUnique(signals, outcome, Some(OutcomeBy(signals, last)));
  }

  lemma EvidenceIsWeak(plays: seq<Mark>, i: nat, average: real, rise: real -> real)
    requires Rises(rise) && i < |plays| && Ordered(plays, MarkBefore)
    ensures var view := ViewSignal(average, plays[i].at, rise); view.Some? ==> RealSums.Abs(view.value.value) < 1.0
    ensures i > 0 ==>
              var again := RepeatSignal((plays[i].at - plays[i - 1].at) as real / MS_PER_HOUR, plays[i].at, rise);
              again.Some? ==> RealSums.Abs(again.value.value) < 1.0
  {
    if i > 0 {
      assert !MarkBefore(plays[i], plays[i - 1]);
    }
  }
}
