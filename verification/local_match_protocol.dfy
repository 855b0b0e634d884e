/** The protocol around the local match index as a state machine. Mutations of the
    library, the hooks they cause, and any number of concurrent processes, each of
    which backfills and refreshes, interleave at transaction granularity; a fetch may
    read each scene at its own moment. The hooks succeed and revisions are fresh. */
module LocalMatchProtocol {
  import opened LocalMatches

  type View = map<string, set<Fact>>

  const BATCH := 200

  /** Where a process is in backfillLocalSceneMatches and refreshPendingLocalSceneMatches. */
  datatype Process =
    | Idle
    | Backfilling(view: View)
    | Refreshing
    | Listed(todo: seq<Item>)
    | Fetched(batch: seq<Item>, found: View, rest: seq<Item>)

  datatype State = State(
    library: View,
    due: multiset<string>,
    store: Store,
    nextRevision: nat,
    processes: map<nat, Process>)

  datatype Step =
    | Mutate(scene: string, facts: set<Fact>)
    | Destroy(scene: string)
    | Hook(scene: string)
    | StartBackfill(p: nat)
    | SkipBackfill(p: nat)
    | ReadPage(p: nat, scenes: set<string>)
    | CommitBackfill(p: nat)
    | ListPending(p: nat, items: seq<Item>)
    | FetchBatch(p: nat)
    | ReadItems(p: nat, scenes: set<string>)
    | CommitBatch(p: nat)
    | Finish(p: nat)
    | Fail(p: nat)

  /** The scenes in `scenes` read again, the rest as they were. */
  function Reread(view: View, library: View, scenes: set<string>): View {
    map id | id in view.Keys + library.Keys && id in (if id in scenes then library else view) ::
      (if id in scenes then library else view)[id]
  }

  function At(s: State, p: nat): Process {
    if p in s.processes then s.processes[p] else Idle
  }

  function Moved(s: State, p: nat, process: Process): State {
    s.(processes := s.processes[p := process])
  }

  /** `items` are the pending rows, in some order. */
  ghost predicate Lists(items: seq<Item>, pending: map<string, nat>) {
    && (forall i | 0 <= i < |items| :: items[i].id in pending && pending[items[i].id] == items[i].revision)
    && (forall id | id in pending :: Item(id, pending[id]) in items)
  }

  ghost predicate Next(s: State, step: Step, t: State) {
    match step
    case Mutate(id, facts) =>
      t == s.(library := s.library[id := facts], due := s.due + multiset{id})
    case Destroy(id) =>
      id in s.library && t == s.(library := s.library - {id}, due := s.due + multiset{id})
    case Hook(id) =>
      && id in s.due
      && t == s.(due := s.due - multiset{id},
                 store := s.store.(pending := s.store.pending[id := s.nextRevision]),
                 nextRevision := s.nextRevision + 1)
    case StartBackfill(p) =>
      At(s, p) == Idle && !s.store.ready && t == Moved(s, p, Backfilling(s.library))
    case SkipBackfill(p) =>
      At(s, p) == Idle && s.store.ready && t == Moved(s, p, Refreshing)
    case ReadPage(p, scenes) =>
      At(s, p).Backfilling? && t == Moved(s, p, Backfilling(Reread(At(s, p).view, s.library, scenes)))
    case CommitBackfill(p) =>
      At(s, p).Backfilling? && t == Moved(s, p, Refreshing).(store := Backfilled(s.store, At(s, p).view))
    case ListPending(p, items) =>
      At(s, p) == Refreshing && Lists(items, s.store.pending) && t == Moved(s, p, Listed(items))
    case FetchBatch(p) =>
      && At(s, p).Listed? && At(s, p).todo != []
      && var todo := At(s, p).todo;
         var n := if |todo| < BATCH then |todo| else BATCH;
         t == Moved(s, p, Fetched(todo[..n], s.library, todo[n..]))
    case ReadItems(p, scenes) =>
      && At(s, p).Fetched?
      && t == Moved(s, p, At(s, p).(found := Reread(At(s, p).found, s.library, scenes)))
    case CommitBatch(p) =>
      && At(s, p).Fetched?
      && t == Moved(s, p, Listed(At(s, p).rest)).(store := RefreshedAll(s.store, At(s, p).batch, At(s, p).found))
    case Finish(p) =>
      At(s, p) == Listed([]) && t == Moved(s, p, Idle)
    case Fail(p) =>
      t == Moved(s, p, Idle)
  }

  /** Any library, index and queue, nothing ready, nothing running. */
  ghost predicate Init(s: State) {
    && s.due == multiset{}
    && !s.store.ready
    && s.processes == map[]
    && forall id | id in s.store.pending :: s.store.pending[id] < s.nextRevision
  }

  ghost predicate Run(states: seq<State>, steps: seq<Step>) {
    && |states| == |steps| + 1
    && Init(states[0])
    && forall i | 0 <= i < |steps| :: Next(states[i], steps[i], states[i + 1])
  }

  /** A change to the scene is on its way: a hook is still due or its row is queued. */
  ghost predicate Awaited(s: State, id: string) {
    id in s.due || id in s.store.pending
  }

  ghost predicate Indexed(s: State, id: string) {
    FactsIn(s.store.rows, id) == FactsAt(s.library, id)
  }

  /** A listed revision was handed out before. */
  ghost predicate Old(s: State, items: seq<Item>) {
    forall i | 0 <= i < |items| :: items[i].revision < s.nextRevision
  }

  /** What was fetched for an item whose revision still stands is the scene's current
      facts, unless a hook is due. */
  ghost predicate Fresh(s: State, batch: seq<Item>, found: View) {
    forall i | 0 <= i < |batch| ::
      batch[i].id in s.store.pending && s.store.pending[batch[i].id] == batch[i].revision ==>
        batch[i].id in s.due || FactsAt(found, batch[i].id) == FactsAt(s.library, batch[i].id)
  }

  ghost predicate ProcessOk(s: State, process: Process) {
    match process
    case Idle => true
    case Backfilling(view) =>
      !s.store.ready ==> forall id :: Awaited(s, id) || FactsAt(view, id) == FactsAt(s.library, id)
    case Refreshing => s.store.ready
    case Listed(todo) => s.store.ready && Old(s, todo)
    case Fetched(batch, found, rest) => s.store.ready && Old(s, batch) && Old(s, rest) && Fresh(s, batch, found)
  }

  ghost predicate Inv(s: State) {
    && (forall id | id in s.store.pending :: s.store.pending[id] < s.nextRevision)
    && (s.store.ready ==> forall id :: Awaited(s, id) || Indexed(s, id))
    && (forall p | p in s.processes :: ProcessOk(s, s.processes[p]))
  }

  lemma RereadAt(view: View, library: View, scenes: set<string>, id: string)
    ensures FactsAt(Reread(view, library, scenes), id)
            == if id in scenes then FactsAt(library, id) else FactsAt(view, id)
  {
  }

  /** What a batch's commit does to one scene: the rows of a scene it takes off the
      queue are what was fetched for the listed revision; every other scene keeps its
      rows and its place. */
  lemma {:induction false} RefreshedAllAt(store: Store, batch: seq<Item>, view: View, id: string)
    ensures var after := RefreshedAll(store, batch, view);
            && after.ready == store.ready
            && (id in after.pending ==> id in store.pending && after.pending[id] == store.pending[id])
            && (if id in store.pending && id !in after.pending
                then Item(id, store.pending[id]) in batch && FactsIn(after.rows, id) == FactsAt(view, id)
                else FactsIn(after.rows, id) == FactsIn(store.rows, id))
  {
    if batch != [] {
      var n := |batch| - 1;
      RefreshedAllAt(store, batch[..n], view, id);
      var before := RefreshedAll(store, batch[..n], view);
      FactsInWithScene(before.rows, batch[n].id, FactsAt(view, batch[n].id), id);
      assert batch[n] in batch && forall item | item in batch[..n] :: item in batch;
    }
  }

  lemma BackfilledAt(store: Store, view: View, id: string)
    ensures var after := Backfilled(store, view);
            && after.ready && after.pending == store.pending
            && FactsIn(after.rows, id) == if store.ready then FactsIn(store.rows, id) else FactsAt(view, id)
  {
    FactsInAllRows(view, id);
  }

  // ------------------------------------------------------ every step keeps it

  /** Library changes and hooks leave every process's knowledge right. */
  lemma LibraryStepKeeps(s: State, step: Step, t: State)
    requires Inv(s) && Next(s, step, t)
    requires step.Mutate? || step.Destroy? || step.Hook?
    ensures Inv(t)
  {
    forall id | !Awaited(t, id) ensures !Awaited(s, id) && FactsAt(t.library, id) == FactsAt(s.library, id) {
    }
    forall p | p in t.processes ensures ProcessOk(t, t.processes[p]) {
      assert ProcessOk(s, s.processes[p]);
    }
  }

  lemma BackfillCommitKeeps(s: State, p: nat, t: State)
    requires Inv(s) && Next(s, CommitBackfill(p), t)
    ensures Inv(t)
  {
    var view := s.processes[p].view;
    assert ProcessOk(s, s.processes[p]);
    forall id ensures Awaited(t, id) || Indexed(t, id) {
      BackfilledAt(s.store, view, id);
      assert Awaited(s, id) == Awaited(t, id);
    }
    BackfilledAt(s.store, view, "");
    forall q | q in t.processes ensures ProcessOk(t, t.processes[q]) {
      if q != p {
        assert ProcessOk(s, s.processes[q]);
      }
    }
  }

  lemma BatchCommitKeeps(s: State, p: nat, t: State)
    requires Inv(s) && Next(s, CommitBatch(p), t)
    ensures Inv(t)
  {
    var process := s.processes[p];
    assert ProcessOk(s, process);
    var batch, found := process.batch, process.found;
    forall id
      ensures t.store.ready
              && (id in t.store.pending ==> id in s.store.pending && t.store.pending[id] == s.store.pending[id])
      ensures Awaited(t, id) || Indexed(t, id)
    {
      RefreshedAllAt(s.store, batch, found, id);
      if id in s.store.pending && id !in t.store.pending {
        var i :| 0 <= i < |batch| && batch[i] == Item(id, s.store.pending[id]);
      } else {
        assert Awaited(s, id) || Indexed(s, id);
      }
    }
    forall q | q in t.processes ensures ProcessOk(t, t.processes[q]) {
      if q != p {
        assert ProcessOk(s, s.processes[q]);
      }
    }
  }

  /** Steps that only move one process. */
  lemma LocalStepKeeps(s: State, p: nat, process: Process, t: State)
    requires Inv(s) && t == Moved(s, p, process) && ProcessOk(s, process)
    ensures Inv(t)
  {
    forall id ensures Awaited(t, id) == Awaited(s, id) && Indexed(t, id) == Indexed(s, id) {
    }
    forall q | q in t.processes ensures ProcessOk(t, t.processes[q]) {
      if q != p {
        assert ProcessOk(s, s.processes[q]);
      }
    }
  }

  lemma StepKeeps(s: State, step: Step, t: State)
    requires Inv(s) && Next(s, step, t)
    ensures Inv(t)
  {
    match step
    case Mutate(_, _) => LibraryStepKeeps(s, step, t);
    case Destroy(_) => LibraryStepKeeps(s, step, t);
    case Hook(_) => LibraryStepKeeps(s, step, t);
    case StartBackfill(p) => LocalStepKeeps(s, p, Backfilling(s.library), t);
    case SkipBackfill(p) => LocalStepKeeps(s, p, Refreshing, t);
    case ReadPage(p, scenes) =>
      assert ProcessOk(s, s.processes[p]);
      var view := Reread(At(s, p).view, s.library, scenes);
      forall id ensures FactsAt(view, id) == FactsAt(s.library, id) || FactsAt(view, id) == FactsAt(At(s, p).view, id) {
        RereadAt(At(s, p).view, s.library, scenes, id);
      }
      LocalStepKeeps(s, p, Backfilling(view), t);
    case CommitBackfill(p) => BackfillCommitKeeps(s, p, t);
    case ListPending(p, items) =>
      assert ProcessOk(s, s.processes[p]);
      LocalStepKeeps(s, p, Listed(items), t);
    case FetchBatch(p) =>
      assert ProcessOk(s, s.processes[p]);
      LocalStepKeeps(s, p, t.processes[p], t);
    case ReadItems(p, scenes) =>
      assert ProcessOk(s, s.processes[p]);
      var old_found, found := At(s, p).found, Reread(At(s, p).found, s.library, scenes);
      forall id ensures FactsAt(found, id) == FactsAt(s.library, id) || FactsAt(found, id) == FactsAt(old_found, id) {
        RereadAt(old_found, s.library, scenes, id);
      }
      LocalStepKeeps(s, p, At(s, p).(found := found), t);
    case CommitBatch(p) => BatchCommitKeeps(s, p, t);
    case Finish(p) => LocalStepKeeps(s, p, Idle, t);
    case Fail(p) => LocalStepKeeps(s, p, Idle, t);
  }

  lemma {:induction false} RunKeeps(states: seq<State>, steps: seq<Step>, n: nat)
    requires Run(states, steps) && n < |states|
    ensures Inv(states[n])
  {
    if n > 0 {
      RunKeeps(states, steps, n - 1);
      StepKeeps(states[n - 1], steps[n - 1], states[n]);
    }
  }

  /** In every run: once the index is ready, a scene with no pending row and no hook
      still due has exactly its current facts in the index. */
  lemma IndexIsCurrent(states: seq<State>, steps: seq<Step>, n: nat, id: string)
    requires Run(states, steps) && n < |states|
    requires states[n].store.ready && id !in states[n].store.pending && id !in states[n].due
    ensures FactsIn(states[n].store.rows, id) == FactsAt(states[n].library, id)
  {
    RunKeeps(states, steps, n);
    assert Indexed(states[n], id);
  }

  /** So a ready index with nothing pending and no hook due is the library's. */
  lemma QuiescentIndexIsLibrary(states: seq<State>, steps: seq<Step>, n: nat)
    requires Run(states, steps) && n < |states|
    requires states[n].store.ready && states[n].store.pending == map[] && states[n].due == multiset{}
    ensures states[n].store.rows == AllRows(states[n].library)
  {
    var s := states[n];
    forall r ensures r in s.store.rows <==> r in AllRows(s.library) {
      IndexIsCurrent(states, steps, n, r.scene);
      FactsInAllRows(s.library, r.scene);
      assert r in s.store.rows <==>
             Fact(r.kind, r.value) in FactsIn(s.store.rows, r.scene) by { RowOfFact(s.store.rows, r); }
      RowOfFact(AllRows(s.library), r);
    }
  }

  lemma RowOfFact(rows: set<Row>, r: Row)
    ensures r in rows <==> Fact(r.kind, r.value) in FactsIn(rows, r.scene)
  {
    if Fact(r.kind, r.value) in FactsIn(rows, r.scene) {
      var q :| q in rows && q.scene == r.scene && Fact(q.kind, q.value) == Fact(r.kind, r.value);
      assert q == r;
    }
  }

  /** A pending row leaves the queue only by a commit that wrote facts current at the
      commit, or with a later hook still due. */
  lemma NothingIsLost(states: seq<State>, steps: seq<Step>, n: nat, id: string)
    requires Run(states, steps) && n < |steps|
    requires id in states[n].store.pending && id !in states[n + 1].store.pending
    ensures steps[n].CommitBatch?
    ensures id in states[n + 1].due || FactsIn(states[n + 1].store.rows, id) == FactsAt(states[n + 1].library, id)
  {
    RunKeeps(states, steps, n + 1);
    RunKeeps(states, steps, n);
    if steps[n].CommitBackfill? { BackfilledAt(states[n].store, At(states[n], steps[n].p).view, id); }
    if steps[n].CommitBatch? {
      assert ProcessOk(states[n], states[n].processes[steps[n].p]);
      RefreshedAllAt(states[n].store, At(states[n], steps[n].p).batch, At(states[n], steps[n].p).found, id);
      assert Awaited(states[n + 1], id) || Indexed(states[n + 1], id);
    }
  }

  // ------------------------------------------------------------ a hook during a fetch

  /** The listed rows that a process still has to commit. */
  function Held(process: Process): set<Item> {
    match process
    case Listed(todo) => set item | item in todo
    case Fetched(batch, _, rest) => set item | item in batch + rest
    case _ => {}
  }

  ghost predicate OlderThan(items: set<Item>, revision: nat) {
    forall item | item in items :: item.revision < revision
  }

  lemma HeldStep(s: State, step: Step, t: State, p: nat)
    requires Next(s, step, t) && !ListsFor(step, p)
    ensures Held(At(t, p)) <= Held(At(s, p))
  {
    if step.FetchBatch? && step.p == p {
      var todo := At(s, p).todo;
      var n := if |todo| < BATCH then |todo| else BATCH;
      assert todo == todo[..n] + todo[n..];
    }
  }

  lemma {:induction false} HeldStaysOld(states: seq<State>, steps: seq<Step>, h: nat, k: nat, p: nat)
    requires Run(states, steps) && h <= k < |states|
    requires forall m | h <= m < k :: !ListsFor(steps[m], p)
    ensures OlderThan(Held(At(states[k], p)), states[h].nextRevision)
  {
    if k == h {
      RunKeeps(states, steps, h);
      if p in states[h].processes { assert ProcessOk(states[h], states[h].processes[p]); }
    } else {
      HeldStaysOld(states, steps, h, k - 1, p);
      assert Next(states[k - 1], steps[k - 1], states[k]);
      HeldStep(states[k - 1], steps[k - 1], states[k], p);
    }
  }

  /** A batch that was listed before a hook queued its scene commits without touching
      that scene: its row stays on the queue as the hook, or a later one, left it, and
      what is indexed for it stays too, whatever the fetch saw. */
  lemma HookSurvivesOlderBatch(states: seq<State>, steps: seq<Step>, h: nat, k: nat, id: string)
    requires Run(states, steps) && h < k < |steps|
    requires steps[h] == Hook(id) && steps[k].CommitBatch?
    requires forall m | h <= m < k :: !ListsFor(steps[m], steps[k].p)
    requires id in states[k].store.pending && states[k].store.pending[id] >= states[h].nextRevision
    ensures id in states[k + 1].store.pending && states[k + 1].store.pending[id] == states[k].store.pending[id]
    ensures FactsIn(states[k + 1].store.rows, id) == FactsIn(states[k].store.rows, id)
  {
    HeldStaysOld(states, steps, h, k, steps[k].p);
    assert Next(states[k], steps[k], states[k + 1]);
    var process := At(states[k], steps[k].p);
    assert forall item | item in process.batch :: item in Held(process);
    RefreshedAllAt(states[k].store, process.batch, process.found, id);
  }

  // ------------------------------------------------------------ catching up

  /** A step that leaves the library and its hooks alone. */
  predicate Quiet(step: Step) {
    !step.Mutate? && !step.Destroy? && !step.Hook?
  }

  predicate ListsFor(step: Step, p: nat) { step.ListPending? && step.p == p }

  predicate Working(process: Process) { process.Listed? || process.Fetched? }

  /** Every pending row is among those the process still has to commit. */
  ghost predicate Covers(s: State, p: nat) {
    Working(At(s, p)) ==> forall id | id in s.store.pending :: Item(id, s.store.pending[id]) in Held(At(s, p))
  }

  /** A commit takes every item off the queue whose revision still stands. */
  lemma {:induction false} BatchIsTaken(store: Store, batch: seq<Item>, view: View, id: string)
    requires id in store.pending && Item(id, store.pending[id]) in batch
    ensures id !in RefreshedAll(store, batch, view).pending
  {
    var n := |batch| - 1;
    RefreshedAllAt(store, batch[..n], view, id);
    if Item(id, store.pending[id]) in batch[..n] {
      BatchIsTaken(store, batch[..n], view, id);
    } else {
      assert batch[n] == Item(id, store.pending[id]);
    }
  }

  /** Without hooks the queue only shrinks. */
  lemma PendingShrinks(s: State, step: Step, t: State, id: string)
    requires Next(s, step, t) && Quiet(step) && id in t.store.pending
    ensures id in s.store.pending && s.store.pending[id] == t.store.pending[id]
  {
    if step.CommitBatch? {
      RefreshedAllAt(s.store, At(s, step.p).batch, At(s, step.p).found, id);
    }
  }

  lemma CoversStep(s: State, step: Step, t: State, p: nat)
    requires Next(s, step, t) && Quiet(step) && !ListsFor(step, p) && Covers(s, p)
    ensures Covers(t, p)
  {
    if Working(At(t, p)) {
      forall id | id in t.store.pending ensures Item(id, t.store.pending[id]) in Held(At(t, p)) {
        PendingShrinks(s, step, t, id);
        if step.CommitBatch? && step.p == p {
          var item := Item(id, s.store.pending[id]);
          if item in At(s, p).batch { BatchIsTaken(s.store, At(s, p).batch, At(s, p).found, id); }
        } else if step.FetchBatch? && step.p == p {
          var todo := At(s, p).todo;
          var n := if |todo| < BATCH then |todo| else BATCH;
          assert todo == todo[..n] + todo[n..];
        }
      }
    }
  }

  lemma {:induction false} StaysCovered(states: seq<State>, steps: seq<Step>, l: nat, k: nat, p: nat)
    requires Run(states, steps) && l < k < |states| && ListsFor(steps[l], p)
    requires forall m | l < m < k :: Quiet(steps[m]) && !ListsFor(steps[m], p)
    ensures Covers(states[k], p)
    ensures states[k].library == states[l].library && states[k].due == states[l].due
  {
    assert Next(states[k - 1], steps[k - 1], states[k]);
    if k > l + 1 {
      StaysCovered(states, steps, l, k - 1, p);
      CoversStep(states[k - 1], steps[k - 1], states[k], p);
    }
  }

  /** A process that has listed the queue and got to its end, while the library was quiet,
      leaves nothing pending, whatever the other processes did meanwhile; with no hook
      due the index is then the library's. */
  lemma RefreshCatchesUp(states: seq<State>, steps: seq<Step>, l: nat, f: nat, p: nat)
    requires Run(states, steps) && l < f < |steps|
    requires ListsFor(steps[l], p) && steps[f] == Finish(p)
    requires forall m | l < m < f :: Quiet(steps[m]) && !ListsFor(steps[m], p)
    ensures states[f + 1].store.pending == map[]
    ensures states[l].due == multiset{} ==> states[f + 1].store.rows == AllRows(states[f + 1].library)
  {
    StaysCovered(states, steps, l, f, p);
    assert Next(states[f], steps[f], states[f + 1]);
    RunKeeps(states, steps, f);
    assert ProcessOk(states[f], states[f].processes[p]);
    forall id ensures id !in states[f].store.pending {}
    if states[l].due == multiset{} { QuiescentIndexIsLibrary(states, steps, f + 1); }
  }

  /** The steps of one process that does its work and does not fail. */
  predicate Works(step: Step, p: nat) {
    && (step.StartBackfill? || step.SkipBackfill? || step.CommitBackfill? || step.ListPending? || step.FetchBatch?
        || step.CommitBatch? || step.Finish?)
    && step.p == p
  }

  /** The run goes on by such steps only. */
  ghost predicate GoesOn(states: seq<State>, steps: seq<Step>, states': seq<State>, steps': seq<Step>, p: nat) {
    && Run(states', steps') && |states| == |steps| + 1
    && states <= states' && steps <= steps'
    && forall m | |steps| <= m < |steps'| :: Works(steps'[m], p)
  }

  lemma OneStep(states: seq<State>, steps: seq<Step>, step: Step, t: State, p: nat)
    requires Run(states, steps) && Next(states[|steps|], step, t) && Works(step, p)
    ensures GoesOn(states, steps, states + [t], steps + [step], p)
  {
  }

  /** The listed rows are fetched and committed batch by batch. */
  lemma {:induction false} CommitAll(states: seq<State>, steps: seq<Step>, p: nat)
    returns (states': seq<State>, steps': seq<Step>)
    requires Run(states, steps) && At(states[|steps|], p).Listed?
    ensures GoesOn(states, steps, states', steps', p) && At(states'[|steps'|], p) == Listed([])
    ensures forall m | |steps| <= m < |steps'| :: !steps'[m].ListPending?
    decreases |At(states[|steps|], p).todo|
  {
    states', steps' := states, steps;
    var s := states[|steps|];
    var todo := At(s, p).todo;
    if todo != [] {
      var n := if |todo| < BATCH then |todo| else BATCH;
      var t := Moved(s, p, Fetched(todo[..n], s.library, todo[n..]));
      var u := Moved(t, p, Listed(todo[n..])).(store := RefreshedAll(t.store, todo[..n], s.library));
      OneStep(states, steps, FetchBatch(p), t, p);
      OneStep(states + [t], steps + [FetchBatch(p)], CommitBatch(p), u, p);
      states', steps' := CommitAll(states + [t] + [u], steps + [FetchBatch(p)] + [CommitBatch(p)], p);
    }
  }

  lemma {:induction false} PendingItems(pending: map<string, nat>) returns (items: seq<Item>)
    ensures Lists(items, pending)
  {
    items := [];
    if pending != map[] {
      var id :| id in pending;
      var rest := PendingItems(pending - {id});
      items := rest + [Item(id, pending[id])];
      forall other | other in pending ensures Item(other, pending[other]) in items {
        if other != id { assert Item(other, (pending - {id})[other]) in rest; }
      }
    }
  }

  /** From every reachable state a process that is at rest can bring the index up to date
      by its own work alone: then nothing is pending, and with no hook due the index is
      the library's. */
  lemma CanCatchUp(states: seq<State>, steps: seq<Step>, p: nat) returns (states': seq<State>, steps': seq<Step>)
    requires Run(states, steps) && At(states[|steps|], p) == Idle
    ensures GoesOn(states, steps, states', steps', p)
    ensures var t := states'[|steps'|];
            && t.store.ready && t.store.pending == map[] && At(t, p) == Idle
            && t.library == states[|steps|].library && t.due == states[|steps|].due
            && (t.due == multiset{} ==> t.store.rows == AllRows(t.library))
  {
    states', steps' := BackfillOnce(states, steps, p);
    var s := states'[|steps'|];
    var l := |steps'|;
    var items := PendingItems(s.store.pending);
    var t := Moved(s, p, Listed(items));
    OneStep(states', steps', ListPending(p, items), t, p);
    states', steps' := states' + [t], steps' + [ListPending(p, items)];
    var done, work := CommitAll(states', steps', p);
    var f := |work|;
    var u := Moved(done[f], p, Idle);
    OneStep(done, work, Finish(p), u, p);
    states', steps' := done + [u], work + [Finish(p)];
    RefreshCatchesUp(states', steps', l, f, p);
    StaysCovered(states', steps', l, f, p);
    RunKeeps(states', steps', f);
    assert ProcessOk(done[f], done[f].processes[p]);
  }

  lemma BackfillOnce(states: seq<State>, steps: seq<Step>, p: nat) returns (states': seq<State>, steps': seq<Step>)
    requires Run(states, steps) && At(states[|steps|], p) == Idle
    ensures GoesOn(states, steps, states', steps', p)
    ensures At(states'[|steps'|], p) == Refreshing
    ensures states'[|steps'|].library == states[|steps|].library && states'[|steps'|].due == states[|steps|].due
  {
    var s := states[|steps|];
    if s.store.ready {
      var t := Moved(s, p, Refreshing);
      OneStep(states, steps, SkipBackfill(p), t, p);
      states', steps' := states + [t], steps + [SkipBackfill(p)];
    } else {
      var t := Moved(s, p, Backfilling(s.library));
      var u := Moved(t, p, Refreshing).(store := Backfilled(s.store, s.library));
      OneStep(states, steps, StartBackfill(p), t, p);
      OneStep(states + [t], steps + [StartBackfill(p)], CommitBackfill(p), u, p);
      states', steps' := states + [t] + [u], steps + [StartBackfill(p)] + [CommitBackfill(p)];
    }
  }
}
