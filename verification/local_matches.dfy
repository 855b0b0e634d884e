/** The local scene match index: the transactions that write it, and the protocol by
    which hooks, refreshers and backfills keep it equal to the library. */
module LocalMatches {
  import opened Options

  datatype Kind = StashdbID | Phash

  datatype Fact = Fact(kind: Kind, value: string)

  datatype Row = Row(scene: string, kind: Kind, value: string)

  // ---------------------------------------------------------- a fetched scene

  /** `atEndpoint`: the endpoint is the configured one, trailing slashes and case aside. */
  datatype StashID = StashID(atEndpoint: bool, value: string)

  /** `phash`: the normalized value of a fingerprint of that type, if it is a valid one. */
  datatype Fingerprint = Fingerprint(phash: Option<string>)

  datatype Scene = Scene(id: string, stashIDs: seq<StashID>, files: seq<seq<Fingerprint>>)

  predicate HasStashID(scene: Scene, value: string) {
    value != "" && exists i :: 0 <= i < |scene.stashIDs| && scene.stashIDs[i] == StashID(true, value)
  }

  predicate FileHasPhash(file: seq<Fingerprint>, value: string) {
    exists j :: 0 <= j < |file| && file[j].phash == Some(value)
  }

  predicate HasPhash(scene: Scene, value: string) {
    exists i :: 0 <= i < |scene.files| && FileHasPhash(scene.files[i], value)
  }

  predicate Holds(scene: Scene, fact: Fact) {
    match fact.kind
    case StashdbID => HasStashID(scene, fact.value)
    case Phash => HasPhash(scene, fact.value)
  }

  /** What the index must hold for a scene. */
  ghost predicate IsFactsOf(scene: Scene, facts: set<Fact>) {
    forall fact :: fact in facts <==> Holds(scene, fact)
  }

  ghost function Facts(scene: Scene): (facts: set<Fact>)
    ensures IsFactsOf(scene, facts)
  {
    FactsExist(scene);
    var facts :| IsFactsOf(scene, facts);
    facts
  }

  lemma FactsExist(scene: Scene)
    ensures exists facts :: IsFactsOf(scene, facts)
  {
    var ids := set i | 0 <= i < |scene.stashIDs| && HasStashID(scene, scene.stashIDs[i].value) ::
      Fact(StashdbID, scene.stashIDs[i].value);
    var phashes := set i, j | 0 <= i < |scene.files| && 0 <= j < |scene.files[i]| && scene.files[i][j].phash.Some? ::
      Fact(Phash, scene.files[i][j].phash.value);
    forall fact ensures fact in ids + phashes <==> Holds(scene, fact) {
      if fact.kind == Phash && HasPhash(scene, fact.value) {
        var i :| 0 <= i < |scene.files| && FileHasPhash(scene.files[i], fact.value);
        var j :| 0 <= j < |scene.files[i]| && scene.files[i][j].phash == Some(fact.value);
        assert fact in phashes;
      }
    }
    assert IsFactsOf(scene, ids + phashes);
  }

  lemma FactsAreUnique(scene: Scene, facts: set<Fact>)
    requires IsFactsOf(scene, facts)
    ensures facts == Facts(scene)
  {
    forall fact ensures fact in facts <==> fact in Facts(scene) {
    }
  }

  /** What a fetch found, per scene; a scene the library lacks is absent. */
  ghost function ViewOf(scenes: seq<Scene>): map<string, set<Fact>> {
    if scenes == [] then map[]
    else ViewOf(scenes[..|scenes| - 1])[scenes[|scenes| - 1].id := Facts(scenes[|scenes| - 1])]
  }

  ghost function ViewOfMap(byID: map<string, Scene>): map<string, set<Fact>> {
    map id | id in byID :: Facts(byID[id])
  }

  // ------------------------------------------------------------------- the store

  datatype Store = Store(rows: set<Row>, pending: map<string, nat>, ready: bool)

  function RowsOf(id: string, facts: set<Fact>): set<Row> {
    set f | f in facts :: Row(id, f.kind, f.value)
  }

  function FactsIn(rows: set<Row>, id: string): set<Fact> {
    set r | r in rows && r.scene == id :: Fact(r.kind, r.value)
  }

  function Others(rows: set<Row>, id: string): set<Row> {
    set r | r in rows && r.scene != id
  }

  /** The rows with one scene's replaced. */
  function WithScene(rows: set<Row>, id: string, facts: set<Fact>): set<Row> {
    Others(rows, id) + RowsOf(id, facts)
  }

  /** What a set of facts per scene puts into an empty index. */
  function AllRows(view: map<string, set<Fact>>): set<Row> {
    set id, f | id in view && f in view[id] :: Row(id, f.kind, f.value)
  }

  function FactsAt(view: map<string, set<Fact>>, id: string): set<Fact> {
    if id in view then view[id] else {}
  }

  datatype Item = Item(id: string, revision: nat)

  /** One refreshed item: written and taken off the queue if its revision still stands. */
  function Refreshed(store: Store, item: Item, view: map<string, set<Fact>>): Store {
    if item.id !in store.pending || store.pending[item.id] != item.revision then store
    else store.(rows := WithScene(store.rows, item.id, FactsAt(view, item.id)), pending := store.pending - {item.id})
  }

  function RefreshedAll(store: Store, batch: seq<Item>, view: map<string, set<Fact>>): Store {
    if batch == [] then store
    else Refreshed(RefreshedAll(store, batch[..|batch| - 1], view), batch[|batch| - 1], view)
  }

  /** A backfill's commit: nothing once the index is ready. */
  function Backfilled(store: Store, view: map<string, set<Fact>>): Store {
    if store.ready then store else store.(rows := AllRows(view), ready := true)
  }

  lemma FactsInWithScene(rows: set<Row>, id: string, facts: set<Fact>, other: string)
    ensures FactsIn(WithScene(rows, id, facts), other) == if other == id then facts else FactsIn(rows, other)
  {
    var after := WithScene(rows, id, facts);
    if other == id {
      forall f ensures f in FactsIn(after, id) <==> f in facts {
        if f in facts { assert Row(id, f.kind, f.value) in after; }
      }
    } else {
      forall f ensures f in FactsIn(after, other) <==> f in FactsIn(rows, other) {
        if f in FactsIn(rows, other) { assert Row(other, f.kind, f.value) in after; }
        if f in FactsIn(after, other) { assert Row(other, f.kind, f.value) in rows; }
      }
    }
  }

  lemma FactsInAllRows(view: map<string, set<Fact>>, id: string)
    ensures FactsIn(AllRows(view), id) == FactsAt(view, id)
  {
    forall f ensures f in FactsIn(AllRows(view), id) <==> f in FactsAt(view, id) {
      if f in FactsAt(view, id) { assert Row(id, f.kind, f.value) in AllRows(view); }
    }
  }

  /** The sidecar tables, changed in place by the transactions. */
  class Tables {
    var rows: set<Row>
    var pending: map<string, nat>
    var ready: bool

    ghost function Contents(): Store
      reads this
    {
      Store(rows, pending, ready)
    }

    /** writeLocalSceneMatch: collects both kinds' values, then per kind deletes what
        is no longer wanted and inserts what is missing. */
    method WriteScene(scene: Scene)
      modifies this`rows
      ensures rows == WithScene(old(rows), scene.id, Facts(scene))
    {
      var ids := WantedIDs(scene);
      var phashes := WantedPhashes(scene);
      ghost var facts := (set v | v in ids :: Fact(StashdbID, v)) + (set v | v in phashes :: Fact(Phash, v));
      FactsAreUnique(scene, facts);
      ReplaceKind(scene.id, StashdbID, ids);
      ReplaceKind(scene.id, Phash, phashes);
      forall r ensures r in rows <==> r in WithScene(old(rows), scene.id, facts) {
        if r.scene == scene.id && r in rows { assert Fact(r.kind, r.value) in facts; }
      }
    }

    /** One kind's DELETE ... NOT IN and INSERT OR IGNORE. */
    method ReplaceKind(id: string, kind: Kind, wanted: set<string>)
      modifies this`rows
      ensures rows == (set r | r in old(rows) && !(r.scene == id && r.kind == kind))
              + (set v | v in wanted :: Row(id, kind, v))
    {
      rows := set r | r in rows && !(r.scene == id && r.kind == kind && r.value !in wanted);
      rows := rows + set v | v in wanted :: Row(id, kind, v);
    }

    /** queueLocalSceneMatch, inside the hook's transaction. */
    method QueueScene(id: string, revision: nat)
      modifies this`pending
      ensures pending == old(pending)[id := revision]
    {
      pending := pending[id := revision];
    }

    /** The backfill's transaction over the fetched scenes. */
    method CommitBackfill(scenes: seq<Scene>)
      modifies this`rows, this`ready
      ensures Contents() == Backfilled(old(Contents()), ViewOf(scenes))
    {
      if ready { return; }
      rows := {};
      for i := 0 to |scenes|
        invariant rows == AllRows(ViewOf(scenes[..i]))
      {
        var scene := scenes[i];
        ghost var view := ViewOf(scenes[..i]);
        WriteScene(scene);
        assert scenes[..i + 1][..i] == scenes[..i];
        AllRowsWithOneMore(view, scene.id, Facts(scene));
      }
      assert scenes[..|scenes|] == scenes;
      ready := true;
    }

    /** The refresh's transaction over one batch; scenes the library no longer has
        are missing from `byID`. */
    method CommitRefresh(batch: seq<Item>, byID: map<string, Scene>)
      requires forall id | id in byID :: byID[id].id == id
      modifies this`rows, this`pending
      ensures Contents() == RefreshedAll(old(Contents()), batch, ViewOfMap(byID))
    {
      for i := 0 to |batch|
        invariant Contents() == RefreshedAll(old(Contents()), batch[..i], ViewOfMap(byID))
      {
        assert batch[..i + 1][..i] == batch[..i];
        var item := batch[i];
        if item.id !in pending { continue; }
        // A revision that changed since the listing belongs to a later hook, whose row stays.
        if pending[item.id] != item.revision { continue; }
        if item.id in byID {
          WriteScene(byID[item.id]);
        } else {
          ghost var before := rows;
          rows := Others(rows, item.id);
          assert rows == WithScene(before, item.id, {});
        }
        pending := pending - {item.id};
      }
      assert batch[..|batch|] == batch;
    }
  }

  lemma AllRowsWithOneMore(view: map<string, set<Fact>>, id: string, facts: set<Fact>)
    ensures WithScene(AllRows(view), id, facts) == AllRows(view[id := facts])
  {
    var more := view[id := facts];
    forall r ensures r in WithScene(AllRows(view), id, facts) <==> r in AllRows(more) {
      if r in AllRows(view) && r.scene != id {
        assert r.scene in more && Fact(r.kind, r.value) in more[r.scene];
      }
      if r in RowsOf(id, facts) {
        assert Fact(r.kind, r.value) in more[id];
      }
    }
  }

  method WantedIDs(scene: Scene) returns (ids: set<string>)
    ensures forall v :: v in ids <==> HasStashID(scene, v)
  {
    ids := {};
    for i := 0 to |scene.stashIDs|
      invariant forall v :: v in ids <==> v != "" && exists j :: 0 <= j < i && scene.stashIDs[j] == StashID(true, v)
    {
      if scene.stashIDs[i].atEndpoint && scene.stashIDs[i].value != "" {
        assert scene.stashIDs[i] == StashID(true, scene.stashIDs[i].value);
        ids := ids + {scene.stashIDs[i].value};
      }
    }
  }

  method WantedPhashes(scene: Scene) returns (phashes: set<string>)
    ensures forall v :: v in phashes <==> HasPhash(scene, v)
  {
    phashes := {};
    for i := 0 to |scene.files|
      invariant forall v :: v in phashes <==> exists k :: 0 <= k < i && FileHasPhash(scene.files[k], v)
    {
      var file := scene.files[i];
      ghost var before := phashes;
      for j := 0 to |file|
        invariant forall v :: v in phashes <==> v in before || exists n :: 0 <= n < j && file[n].phash == Some(v)
      {
        if file[j].phash.Some? {
          phashes := phashes + {file[j].phash.value};
        }
      }
      forall v ensures v in phashes <==> exists k :: 0 <= k < i + 1 && FileHasPhash(scene.files[k], v) {
        if v in phashes && v !in before { assert FileHasPhash(scene.files[i], v); }
      }
    }
  }
}
