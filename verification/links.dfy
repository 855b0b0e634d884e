/** The external links cache: the full walk over the linked library, the incremental
    patch of the saved records, and the links object built from them. Ids are Stash's
    decimal ids, compared as numbers; times are whole seconds. */
module Links {
  import Sorting
  import opened Options

  datatype Kind = Scenes | Performers | Studios

  datatype Record = Record(id: nat, external: string, phashes: seq<string>)

  /** A linked entity as Stash reports it. */
  datatype Entity = Entity(record: Record, updatedAt: nat)

  /** The linked entities of one kind in ascending id order. */
  type Library = seq<Entity>

  /** One kind's part of the cached state: its count and its newest update. */
  datatype KindState = KindState(count: nat, newest: Option<nat>)

  const PAGE_SIZE := 500
  const MAX_PAGES := 4

  // ------------------------------------------------------------- the library

  ghost predicate Ascending(records: seq<Record>) {
    forall i, j | 0 <= i < j < |records| :: records[i].id < records[j].id
  }

  function RecordsOf(lib: Library): (records: seq<Record>)
    ensures |records| == |lib| && forall i | 0 <= i < |lib| :: records[i] == lib[i].record
  {
    seq(|lib|, i requires 0 <= i < |lib| => lib[i].record)
  }

  ghost predicate IsLibrary(lib: Library) {
    Ascending(RecordsOf(lib))
  }

  function Newest(lib: Library): Option<nat> {
    if lib == [] then None
    else
      var rest, last := Newest(lib[..|lib| - 1]), lib[|lib| - 1].updatedAt;
      if rest.None? || rest.value < last then Some(last) else rest
  }

  function StateOf(lib: Library): KindState {
    KindState(|lib|, Newest(lib))
  }

  /** The query's GREATER_THAN filter; without a bound everything qualifies. */
  function UpdatedAfter(lib: Library, since: Option<int>): (changed: seq<Record>)
  {
    if lib == [] then []
    else
      var last := lib[|lib| - 1];
      UpdatedAfter(lib[..|lib| - 1], since)
        + (if since.None? || last.updatedAt > since.value then [last.record] else [])
  }

  /** Where the changed query of a kind starts. */
  function Since(before: KindState, after: KindState): Option<int> {
    if before == after then (match after.newest case None => None case Some(t) => Some(t as int))
    else match before.newest
      case None => Some(0)
      case Some(t) => Some(t as int - 1)
  }

  // ------------------------------------------------------------ edits over time

  /** One edit of a linked entity: created, changed or linked, or deleted or unlinked. */
  datatype Edit = Put(record: Record, time: nat) | Remove(id: nat, time: nat)

  ghost predicate Edited(lib: Library, edit: Edit, lib': Library) {
    && IsLibrary(lib')
    && forall e :: e in lib' <==> match edit
         case Put(record, time) => (e in lib && e.record.id != record.id) || e == Entity(record, time)
         case Remove(id, time) => e in lib && e.record.id != id
  }

  /** Edits from a snapshot taken at `clock` on; the clock never runs backwards. */
  ghost predicate History(libs: seq<Library>, edits: seq<Edit>, clock: nat) {
    && |libs| == |edits| + 1
    && clock > 0
    && IsLibrary(libs[0])
    && (forall e | e in libs[0] :: e.updatedAt <= clock)
    && (forall i | 0 <= i < |edits| :: Edited(libs[i], edits[i], libs[i + 1]) && edits[i].time >= clock)
    && (forall i, j | 0 <= i < j < |edits| :: edits[i].time <= edits[j].time)
  }

  /** An entity the snapshot did not have in this form carries the time of an edit. */
  lemma {:induction false} EditedSince(libs: seq<Library>, edits: seq<Edit>, clock: nat, n: nat, e: Entity)
    requires History(libs, edits, clock) && n < |libs| && e in libs[n] && e !in libs[0]
    ensures exists i :: 0 <= i < n && edits[i] == Put(e.record, e.updatedAt)
  {
    if n > 0 && e in libs[n - 1] {
      EditedSince(libs, edits, clock, n - 1, e);
    } else if n > 0 {
      assert Edited(libs[n - 1], edits[n - 1], libs[n]);
      assert edits[n - 1] == Put(e.record, e.updatedAt);
    }
  }

  lemma HistoryIsLibrary(libs: seq<Library>, edits: seq<Edit>, clock: nat, n: nat)
    requires History(libs, edits, clock) && n < |libs|
    ensures IsLibrary(libs[n])
  {
    if n > 0 { assert Edited(libs[n - 1], edits[n - 1], libs[n]); }
  }

  lemma {:induction false} NewestIsMax(lib: Library)
    ensures Newest(lib).None? <==> lib == []
    ensures lib != [] ==>
            (forall e | e in lib :: e.updatedAt <= Newest(lib).value)
              && exists e :: e in lib && e.updatedAt == Newest(lib).value
  {
    if lib != [] {
      var n := |lib| - 1;
      NewestIsMax(lib[..n]);
      assert lib == lib[..n] + [lib[n]];
      if Newest(lib) != Some(lib[n].updatedAt) {
        var e :| e in lib[..n] && e.updatedAt == Newest(lib).value;
        assert e in lib;
      } else {
        assert lib[n] in lib;
      }
    }
  }

  ghost predicate Qualifies(e: Entity, since: Option<int>) {
    since.None? || e.updatedAt > since.value
  }

  ghost predicate Reported(lib: Library, since: Option<int>, r: Record) {
    exists i :: 0 <= i < |lib| && lib[i].record == r && Qualifies(lib[i], since)
  }

  lemma {:induction false} ReportedRecords(lib: Library, since: Option<int>, r: Record)
    ensures r in UpdatedAfter(lib, since) <==> Reported(lib, since, r)
  {
    if lib != [] {
      var n := |lib| - 1;
      ReportedRecords(lib[..n], since, r);
      if Reported(lib[..n], since, r) {
        var i :| 0 <= i < n && lib[..n][i].record == r && Qualifies(lib[..n][i], since);
        assert lib[i] == lib[..n][i];
      }
      if Reported(lib, since, r) {
        var i :| 0 <= i < |lib| && lib[i].record == r && Qualifies(lib[i], since);
        if i < n { assert lib[..n][i] == lib[i]; }
      }
    }
  }

  lemma {:induction false} UpdatedAfterAscends(lib: Library, since: Option<int>)
    requires IsLibrary(lib)
    ensures Ascending(UpdatedAfter(lib, since))
  {
    if lib != [] {
      var n := |lib| - 1;
      assert RecordsOf(lib[..n]) == RecordsOf(lib)[..n];
      UpdatedAfterAscends(lib[..n], since);
      var rest := UpdatedAfter(lib[..n], since);
      forall k | 0 <= k < |rest| ensures rest[k].id < lib[n].record.id {
        assert rest[k] in rest;
        ReportedRecords(lib[..n], since, rest[k]);
        var i :| 0 <= i < n && lib[..n][i].record == rest[k];
        assert RecordsOf(lib)[i].id < RecordsOf(lib)[n].id;
      }
    }
  }

  lemma RecordAt(lib: Library, e: Entity)
    requires e in lib
    ensures e.record in RecordsOf(lib)
  {
    var i :| 0 <= i < |lib| && lib[i] == e;
    assert RecordsOf(lib)[i] == e.record;
  }

  // --------------------------------------------------------------- merging

  /** `merged` holds every changed record, and the saved ones of other ids. */
  ghost predicate IsMerge(saved: seq<Record>, changed: seq<Record>, merged: seq<Record>) {
    && Ascending(merged)
    && forall r :: r in merged <==> Overridden(saved, changed, r)
  }

  ghost predicate DistinctIDs(records: seq<Record>) {
    forall i, j | 0 <= i < j < |records| :: records[i].id != records[j].id
  }

  predicate IDLess(a: Record, b: Record) { a.id < b.id }

  /** sort.SliceStable by numeric id. */
  function SortByID(records: seq<Record>): seq<Record> { Sorting.Sort(records, IDLess) }

  lemma SortAscends(records: seq<Record>)
    requires DistinctIDs(records)
    ensures Ascending(SortByID(records))
    ensures forall r :: r in SortByID(records) <==> r in records
  {
    Sorting.SortIsOrdered(records, IDLess);
    var sorted := SortByID(records);
    Sorting.DistinctSurvives(records, sorted);
    forall i, j | 0 <= i < j < |sorted| ensures sorted[i].id < sorted[j].id {
      assert !IDLess(sorted[j], sorted[i]);
      assert sorted[i] in sorted && sorted[j] in sorted;
    }
  }

  ghost predicate IndexOf(records: seq<Record>, index: map<nat, nat>) {
    && (forall id | id in index :: index[id] < |records| && records[index[id]].id == id)
    && (forall i | 0 <= i < |records| :: records[i].id in index && index[records[i].id] == i)
  }

  method IndexRecords(records: seq<Record>) returns (index: map<nat, nat>)
    requires Ascending(records)
    ensures IndexOf(records, index)
  {
    index := map[];
    for i := 0 to |records|
      invariant forall id | id in index :: index[id] < i && records[index[id]].id == id
      invariant forall j | 0 <= j < i :: records[j].id in index && index[records[j].id] == j
    {
      index := index[records[i].id := i];
    }
  }

  /** `after` is `before` with the record of one id replaced or appended. */
  ghost predicate Replaced(before: seq<Record>, record: Record, after: seq<Record>) {
    forall r :: r in after <==> r == record || (r in before && r.id != record.id)
  }

  method ReplaceOrAppend(records: seq<Record>, index: map<nat, nat>, record: Record)
    returns (records': seq<Record>, index': map<nat, nat>)
    requires IndexOf(records, index)
    ensures IndexOf(records', index') && Replaced(records, record, records')
  {
    records', index' := records, index;
    if record.id in index {
      records' := records[index[record.id] := record];
    } else {
      index' := index[record.id := |records|];
      records' := records + [record];
    }
    forall r ensures r in records' <==> r == record || (r in records && r.id != record.id) {
      if r in records && r.id != record.id {
        var k :| 0 <= k < |records| && records[k] == r;
        assert records'[k] == r;
      }
      if r == record { assert records'[index'[record.id]] == r; }
    }
  }

  /** The records of `saved` whose id no changed record has, and the changed ones. */
  ghost predicate Overridden(saved: seq<Record>, changed: seq<Record>, r: Record) {
    r in changed || (r in saved && forall c | c in changed :: c.id != r.id)
  }

  lemma OverriddenByOneMore(saved: seq<Record>, changed: seq<Record>, n: nat, r: Record)
    requires Ascending(changed) && n < |changed|
    ensures Overridden(saved, changed[..n + 1], r) <==>
            r == changed[n] || (Overridden(saved, changed[..n], r) && r.id != changed[n].id)
  {
    assert changed[..n + 1] == changed[..n] + [changed[n]];
    if r in changed[..n] {
      var k :| 0 <= k < n && changed[k] == r;
      assert r.id != changed[n].id;
    }
  }

  /** mergeLinkRecords: replaces or appends each changed record, then sorts. */
  method MergeLinkRecords(saved: seq<Record>, changed: seq<Record>) returns (records: seq<Record>)
    requires Ascending(saved) && Ascending(changed)
    ensures IsMerge(saved, changed, records)
    ensures changed == [] ==> records == saved
  {
    records := saved;
    if changed == [] { return; }
    var index := IndexRecords(records);
    for i := 0 to |changed|
      invariant IndexOf(records, index)
      invariant forall r :: r in records <==> Overridden(saved, changed[..i], r)
    {
      hide Overridden, IndexOf;
      records, index := ReplaceOrAppend(records, index, changed[i]);
      forall r ensures r in records <==> Overridden(saved, changed[..i + 1], r) {
        OverriddenByOneMore(saved, changed, i, r);
      }
    }
    assert changed[..|changed|] == changed;
    SortAscends(records);
    records := SortByID(records);
  }

  // -------------------------------------------------- the patch equals the walk

  /** Where the last record of a part stands in the whole, with the rest before it. */
  lemma LastInWhole(part: seq<Record>, whole: seq<Record>) returns (k: nat)
    requires Ascending(part) && Ascending(whole) && part != []
    requires forall i | 0 <= i < |part| :: part[i] in whole
    ensures k < |whole| && whole[k] == part[|part| - 1]
    ensures forall i | 0 <= i < |part| - 1 :: part[i] in whole[..k]
  {
    var n := |part| - 1;
    assert part[n] in whole;
    k :| 0 <= k < |whole| && whole[k] == part[n];
    forall i | 0 <= i < n ensures part[i] in whole[..k] {
      var j :| 0 <= j < |whole| && whole[j] == part[i];
      assert j < k;
      assert whole[..k][j] == part[i];
    }
  }

  lemma {:induction false} PartIsNoLonger(part: seq<Record>, whole: seq<Record>)
    requires Ascending(part) && Ascending(whole)
    requires forall i | 0 <= i < |part| :: part[i] in whole
    ensures |part| <= |whole|
  {
    if part != [] {
      var k := LastInWhole(part, whole);
      PartIsNoLonger(part[..|part| - 1], whole[..k]);
    }
  }

  /** The step of the argument: a part as long as the whole is the whole. */
  lemma {:induction false} AscendingSubset(part: seq<Record>, whole: seq<Record>)
    requires Ascending(part) && Ascending(whole) && |part| == |whole|
    requires forall i | 0 <= i < |part| :: part[i] in whole
    ensures part == whole
  {
    if part != [] {
      var n := |part| - 1;
      var k := LastInWhole(part, whole);
      PartIsNoLonger(part[..n], whole[..k]);
      assert k == n;
      AscendingSubset(part[..n], whole[..n]);
      assert part == part[..n] + [part[n]] && whole == whole[..n] + [whole[n]];
    }
  }

  /** A record of the library is the only changed one of its id. */
  lemma UnchangedStays(lib: Library, since: Option<int>, r: Record, c: Record)
    requires IsLibrary(lib) && r in RecordsOf(lib) && c in UpdatedAfter(lib, since)
    ensures c == r || c.id != r.id
  {
    ReportedRecords(lib, since, c);
    var i :| 0 <= i < |lib| && lib[i].record == c;
    assert RecordsOf(lib)[i] == c;
  }

  /** A kind whose state changed: every current record is in the merge, so equal
      counts make the merge the full walk. */
  lemma ChangedKindPatches(libs: seq<Library>, edits: seq<Edit>, clock: nat, merged: seq<Record>)
    requires History(libs, edits, clock)
    requires var lib0, lib := libs[0], libs[|edits|];
             && StateOf(lib0) != StateOf(lib)
             && IsMerge(RecordsOf(lib0), UpdatedAfter(lib, Since(StateOf(lib0), StateOf(lib))), merged)
             && |merged| == StateOf(lib).count
    ensures merged == RecordsOf(libs[|edits|])
  {
    var lib0, lib := libs[0], libs[|edits|];
    var since := Since(StateOf(lib0), StateOf(lib));
    HistoryIsLibrary(libs, edits, clock, |edits|);
    NewestIsMax(lib0);
    forall i | 0 <= i < |lib| ensures RecordsOf(lib)[i] in merged {
      var e := lib[i];
      ReportedRecords(lib, since, e.record);
      if !Qualifies(e, since) {
        if e !in lib0 {
          EditedSince(libs, edits, clock, |edits|, e);
        }
        RecordAt(lib0, e);
        forall c | c in UpdatedAfter(lib, since) ensures c == e.record || c.id != e.record.id {
          assert e.record in RecordsOf(lib);
          UnchangedStays(lib, since, e.record, c);
        }
      }
      assert Overridden(RecordsOf(lib0), UpdatedAfter(lib, since), e.record);
    }
    AscendingSubset(RecordsOf(lib), merged);
  }

  /** A kind whose state is the same is not read again: its records stay. */
  lemma UnchangedKindStays(lib0: Library, lib: Library, merged: seq<Record>)
    requires IsLibrary(lib0) && IsLibrary(lib) && StateOf(lib0) == StateOf(lib)
    requires IsMerge(RecordsOf(lib0), UpdatedAfter(lib, Since(StateOf(lib0), StateOf(lib))), merged)
    ensures merged == RecordsOf(lib0) && |merged| == StateOf(lib).count
  {
    NothingUpdated(lib);
    MergeOfNothing(RecordsOf(lib0), merged);
  }

  /** That is the full walk exactly when what is stamped with the newest second now
      was saved just so. */
  lemma UnchangedKindPatches(libs: seq<Library>, edits: seq<Edit>, clock: nat)
    requires History(libs, edits, clock)
    requires StateOf(libs[0]) == StateOf(libs[|edits|])
    ensures RecordsOf(libs[0]) == RecordsOf(libs[|edits|]) <==>
            forall e | e in libs[|edits|] && Some(e.updatedAt) == Newest(libs[0]) :: e.record in RecordsOf(libs[0])
  {
    var lib0, lib := libs[0], libs[|edits|];
    HistoryIsLibrary(libs, edits, clock, |edits|);
    forall e | e in lib ensures e.record in RecordsOf(lib) {
      RecordAt(lib, e);
    }
    if forall e | e in lib && Some(e.updatedAt) == Newest(lib0) :: e.record in RecordsOf(lib0) {
      SavedAlready(libs, edits, clock);
      AscendingSubset(RecordsOf(lib), RecordsOf(lib0));
    }
  }

  /** Below the newest second nothing can differ, since every edit is stamped later. */
  lemma SavedAlready(libs: seq<Library>, edits: seq<Edit>, clock: nat)
    requires History(libs, edits, clock)
    requires StateOf(libs[0]) == StateOf(libs[|edits|])
    requires forall e | e in libs[|edits|] && Some(e.updatedAt) == Newest(libs[0]) :: e.record in RecordsOf(libs[0])
    ensures forall i | 0 <= i < |libs[|edits|]| :: RecordsOf(libs[|edits|])[i] in RecordsOf(libs[0])
  {
    var lib0, lib := libs[0], libs[|edits|];
    NewestIsMax(lib0);
    NewestIsMax(lib);
    forall i | 0 <= i < |lib| ensures RecordsOf(lib)[i] in RecordsOf(lib0) {
      var e := lib[i];
      if e in lib0 {
        RecordAt(lib0, e);
      } else {
        EditedSince(libs, edits, clock, |edits|, e);
      }
    }
  }

  lemma {:induction false} NoneAbove(lib: Library, bound: int)
    requires forall i | 0 <= i < |lib| :: lib[i].updatedAt <= bound
    ensures UpdatedAfter(lib, Some(bound)) == []
  {
    if lib != [] { NoneAbove(lib[..|lib| - 1], bound); }
  }

  lemma NothingUpdated(lib: Library)
    ensures UpdatedAfter(lib, Since(StateOf(lib), StateOf(lib))) == []
  {
    NewestIsMax(lib);
    if lib != [] {
      assert forall i | 0 <= i < |lib| :: lib[i] in lib;
      NoneAbove(lib, Newest(lib).value);
    }
  }

  lemma MergeOfNothing(saved: seq<Record>, merged: seq<Record>)
    requires Ascending(saved) && IsMerge(saved, [], merged)
    ensures merged == saved
  {
    forall i | 0 <= i < |saved| ensures saved[i] in merged {
      assert Overridden(saved, [], saved[i]);
    }
    forall i | 0 <= i < |merged| ensures merged[i] in saved {
      assert Overridden(saved, [], merged[i]);
    }
    PartIsNoLonger(saved, merged);
    PartIsNoLonger(merged, saved);
    AscendingSubset(saved, merged);
  }

  /** Without an edit in the newest second after the snapshot the condition holds. */
  lemma QuietSecondIsEnough(libs: seq<Library>, edits: seq<Edit>, clock: nat)
    requires History(libs, edits, clock)
    requires forall i | 0 <= i < |edits| :: Some(edits[i].time) != Newest(libs[0])
    ensures forall e | e in libs[|edits|] && Some(e.updatedAt) == Newest(libs[0]) :: e.record in RecordsOf(libs[0])
  {
    forall e | e in libs[|edits|] && Some(e.updatedAt) == Newest(libs[0]) ensures e.record in RecordsOf(libs[0]) {
      if e in libs[0] {
        RecordAt(libs[0], e);
      } else {
        EditedSince(libs, edits, clock, |edits|, e);
      }
    }
  }

  /** An edit in the newest second, after the snapshot, is missed: scene 1 is linked to
      "a" in second 7, the snapshot is taken, and in the same second it is linked to "b". */
  lemma SameSecondEditIsMissed()
    ensures exists libs, edits, clock ::
              && History(libs, edits, clock)
              && StateOf(libs[0]) == StateOf(libs[|edits|])
              && RecordsOf(libs[0]) != RecordsOf(libs[|edits|])
              && IsMerge(RecordsOf(libs[0]),
                         UpdatedAfter(libs[|edits|], Since(StateOf(libs[0]), StateOf(libs[|edits|]))),
                         RecordsOf(libs[0]))
  {
    var a, b := Entity(Record(1, "a", []), 7), Entity(Record(1, "b", []), 7);
    var libs, edits := [[a], [b]], [Put(Record(1, "b", []), 7)];
    assert Edited(libs[0], edits[0], libs[1]);
    assert History(libs, edits, 7);
    assert Newest([a][..0]) == None && Newest([b][..0]) == None;
    assert StateOf(libs[0]) == StateOf(libs[1]) == KindState(1, Some(7));
    NothingUpdated(libs[1]);
    assert RecordsOf(libs[0])[0] != RecordsOf(libs[1])[0];
  }

  // ------------------------------------------------------------ pages and walks

  const KINDS: seq<Kind> := [Scenes, Performers, Studios]

  /** A kind's place in linkKinds. */
  function Place(kind: Kind): (i: nat)
    ensures i < |KINDS| && KINDS[i] == kind
  {
    match kind
    case Scenes => 0
    case Performers => 1
    case Studios => 2
  }

  datatype PerKind<T> = PerKind(scenes: T, performers: T, studios: T) {
    function Get(kind: Kind): T {
      match kind
      case Scenes => scenes
      case Performers => performers
      case Studios => studios
    }

    function Put(kind: Kind, value: T): (r: PerKind<T>)
      ensures forall k :: r.Get(k) == if k == kind then value else Get(k)
    {
      match kind
      case Scenes => this.(scenes := value)
      case Performers => this.(performers := value)
      case Studios => this.(studios := value)
    }
  }

  /** What Stash holds when it answers: one consistent snapshot. */
  type Stash = PerKind<Library>

  /** Page `page` (from 1) of a query's results. */
  function Page(results: seq<Record>, page: nat): seq<Record>
    requires page >= 1
  {
    var from := PAGE_SIZE * (page - 1);
    if from >= |results| then []
    else if from + PAGE_SIZE <= |results| then results[from..from + PAGE_SIZE]
    else results[from..]
  }

  /** The results of the first `pages` pages. */
  function FirstPages(results: seq<Record>, pages: nat): seq<Record> {
    if PAGE_SIZE * pages >= |results| then results else results[..PAGE_SIZE * pages]
  }

  lemma OnePageMore(results: seq<Record>, page: nat)
    requires page >= 1
    ensures FirstPages(results, page - 1) + Page(results, page) == FirstPages(results, page)
    ensures Page(results, page) == [] <==> PAGE_SIZE * (page - 1) >= |results|
    ensures |results| > |FirstPages(results, page)| <==> |results| > PAGE_SIZE * page
  {
  }

  function Max(a: int, b: int): int { if a > b then a else b }

  ghost predicate IsPage(stash: Stash, page: nat, records: PerKind<seq<Record>>)
    requires page >= 1
  {
    forall k :: records.Get(k) == Page(RecordsOf(stash.Get(k)), page)
  }

  /** The slots the workers fill: all but the first. */
  function Slots(needed: nat): (slots: set<int>)
    ensures forall slot :: slot in slots <==> 1 <= slot < needed
  {
    if needed <= 1 then {} else Slots(needed - 1) + {needed - 1}
  }

  ghost predicate FillsSlot(stash: Stash, slot: nat, records: PerKind<seq<Record>>) {
    IsPage(stash, slot + 1, records)
  }

  method FetchPage(stash: Stash, page: nat) returns (records: PerKind<seq<Record>>)
    requires page >= 1
    ensures IsPage(stash, page, records)
  {
    records := PerKind(Page(RecordsOf(stash.scenes), page), Page(RecordsOf(stash.performers), page),
                       Page(RecordsOf(stash.studios), page));
  }

  /** walkLinkRecords: page 1 fixes the page set, workers fill the other pages' slots
      in any order, and the slots are joined in page order. */
  method WalkLinkRecords(stash: Stash) returns (records: PerKind<seq<Record>>)
    ensures forall k :: records.Get(k) == RecordsOf(stash.Get(k))
  {
    var total := Max(Max(|stash.scenes|, |stash.performers|), |stash.studios|);
    var needed := (total + PAGE_SIZE - 1) / PAGE_SIZE;
    if needed < 1 { needed := 1; }
    var first := FetchPage(stash, 1);
    var pages := new PerKind<seq<Record>>[needed](_ => first);
    var todo := Slots(needed);
    while todo != {}
      invariant todo <= Slots(needed)
      invariant forall slot | 0 <= slot < needed && slot !in todo :: FillsSlot(stash, slot, pages[slot])
    {
      var slot :| slot in todo;
      todo := todo - {slot};
      var page := FetchPage(stash, slot + 1);
      pages[slot] := page;
    }
    records := PerKind([], [], []);
    for i := 0 to needed
      invariant forall k :: records.Get(k) == FirstPages(RecordsOf(stash.Get(k)), i)
    {
      forall k: Kind
        ensures FirstPages(RecordsOf(stash.Get(k)), i) + Page(RecordsOf(stash.Get(k)), i + 1)
                == FirstPages(RecordsOf(stash.Get(k)), i + 1) {
        OnePageMore(RecordsOf(stash.Get(k)), i + 1);
      }
      ghost var before := records;
      assert FillsSlot(stash, i, pages[i]);
      records := PerKind(records.scenes + pages[i].scenes, records.performers + pages[i].performers,
                         records.studios + pages[i].studios);
      forall k ensures records.Get(k) == before.Get(k) + pages[i].Get(k) {
      }
    }
    assert PAGE_SIZE * needed >= total;
  }

  // -------------------------------------------------------- the incremental patch

  /** The saved records and the state they were read at. */
  datatype Saved = Saved(state: PerKind<KindState>, records: PerKind<seq<Record>>)

  function StatesOf(stash: Stash): PerKind<KindState> {
    PerKind(StateOf(stash.scenes), StateOf(stash.performers), StateOf(stash.studios))
  }

  /** What the changed query reports for one kind. */
  function ChangedIn(saved: Saved, stash: Stash, kind: Kind): seq<Record> {
    UpdatedAfter(stash.Get(kind), Since(saved.state.Get(kind), StatesOf(stash).Get(kind)))
  }

  method FetchChangedPage(saved: Saved, stash: Stash, page: nat) returns (records: PerKind<seq<Record>>)
    requires page >= 1
    ensures forall k :: records.Get(k) == Page(ChangedIn(saved, stash, k), page)
  {
    records := PerKind(Page(ChangedIn(saved, stash, Scenes), page), Page(ChangedIn(saved, stash, Performers), page),
                       Page(ChangedIn(saved, stash, Studios), page));
  }

  /** The changed query reports more of a kind than so many pages hold. */
  ghost predicate Exceeds(saved: Saved, stash: Stash, kind: Kind, pages: nat) {
    |ChangedIn(saved, stash, kind)| > PAGE_SIZE * pages
  }

  ghost predicate FitsPages(saved: Saved, stash: Stash) {
    forall k :: !Exceeds(saved, stash, k, MAX_PAGES)
  }

  /** How much of the changed query's results `pages` pages bring. */
  ghost predicate Fetched(saved: Saved, stash: Stash, changed: PerKind<seq<Record>>, kind: Kind, pages: nat) {
    changed.Get(kind) == FirstPages(ChangedIn(saved, stash, kind), pages)
  }

  /** One page of the changed query, appended kind by kind. */
  method AppendPage(saved: Saved, stash: Stash, changed: PerKind<seq<Record>>, done: nat, page: nat)
    returns (changed': PerKind<seq<Record>>, more: bool)
    requires page == done + 1
    requires forall k :: Fetched(saved, stash, changed, k, done)
    ensures forall k :: Fetched(saved, stash, changed', k, page)
    ensures more <==> exists k :: Exceeds(saved, stash, k, page)
  {
    hide ChangedIn, FirstPages;
    changed', more := changed, false;
    var fetched := FetchChangedPage(saved, stash, page);
    for i := 0 to |KINDS|
      invariant forall k | Place(k) < i :: Fetched(saved, stash, changed', k, page)
      invariant forall k | Place(k) >= i :: changed'.Get(k) == changed.Get(k)
      invariant more <==> exists k :: Place(k) < i && Exceeds(saved, stash, k, page)
    {
      var kind := KINDS[i];
      assert Place(kind) == i && forall k :: Place(k) == i ==> k == kind;
      OnePageMore(ChangedIn(saved, stash, kind), page);
      assert Fetched(saved, stash, changed, kind, done);
      changed' := changed'.Put(kind, changed'.Get(kind) + fetched.Get(kind));
      assert Fetched(saved, stash, changed', kind, page);
      var exceeds := |ChangedIn(saved, stash, kind)| > |changed'.Get(kind)| && |fetched.Get(kind)| > 0;
      assert exceeds <==> Exceeds(saved, stash, kind, page);
      if exceeds {
        more := true;
      }
    }
  }

  /** The page loop of the changed query; none when it takes more than four pages. */
  method FetchChanged(saved: Saved, stash: Stash) returns (result: Option<PerKind<seq<Record>>>)
    ensures if FitsPages(saved, stash)
            then result.Some? && forall k :: result.value.Get(k) == ChangedIn(saved, stash, k)
            else result.None?
  {
    hide ChangedIn;
    var changed: PerKind<seq<Record>> := PerKind([], [], []);
    var done: nat := 0;
    while true
      invariant done < MAX_PAGES
      invariant forall k :: Fetched(saved, stash, changed, k, done)
      decreases MAX_PAGES - done
    {
      var page := done + 1;
      var more: bool;
      changed, more := AppendPage(saved, stash, changed, done, page);
      if !more {
        forall k ensures !Exceeds(saved, stash, k, MAX_PAGES) && changed.Get(k) == ChangedIn(saved, stash, k) {
          assert Fetched(saved, stash, changed, k, page) && !Exceeds(saved, stash, k, page);
        }
        return Some(changed);
      }
      if page >= MAX_PAGES {
        return None;
      }
      done := page;
    }
  }

  /** incrementalLinkRecords: the patched records, or none when the result could
      differ from a walk: nothing saved, too many edits, or a count that is off. */
  method IncrementalLinkRecords(saved: Option<Saved>, stash: Stash) returns (result: Option<PerKind<seq<Record>>>)
    requires forall k :: IsLibrary(stash.Get(k))
    requires saved.Some? ==> forall k :: Ascending(saved.value.records.Get(k))
    ensures result.Some? ==>
              saved.Some? && FitsPages(saved.value, stash) && Accepted(saved.value, stash, result.value)
    ensures result.None? ==>
              || saved.None? || !FitsPages(saved.value, stash)
              || exists k, merged :: && IsMerge(saved.value.records.Get(k), ChangedIn(saved.value, stash, k), merged)
                                     && |merged| != |stash.Get(k)|
  {
    if saved.None? { return None; }
    var changed := FetchChanged(saved.value, stash);
    if changed.None? { return None; }
    var records := saved.value.records;
    for i := 0 to |KINDS|
      invariant forall k :: if Place(k) < i
                  then && IsMerge(saved.value.records.Get(k), ChangedIn(saved.value, stash, k), records.Get(k))
                       && |records.Get(k)| == |stash.Get(k)|
                  else records.Get(k) == saved.value.records.Get(k)
    {
      hide IsMerge;
      var kind := KINDS[i];
      assert Place(kind) == i;
      assert forall k :: Place(k) == i ==> k == kind;
      UpdatedAfterAscends(stash.Get(kind), Since(saved.value.state.Get(kind), StatesOf(stash).Get(kind)));
      var merged := MergeLinkRecords(records.Get(kind), changed.value.Get(kind));
      records := records.Put(kind, merged);
      if |merged| != StatesOf(stash).Get(kind).count {
        assert IsMerge(saved.value.records.Get(kind), ChangedIn(saved.value, stash, kind), merged);
        return None;
      }
    }
    result := Some(records);
  }

  /** Every count of the merged records is the current one. */
  ghost predicate Accepted(saved: Saved, stash: Stash, patched: PerKind<seq<Record>>) {
    forall k :: && IsMerge(saved.records.Get(k), ChangedIn(saved, stash, k), patched.Get(k))
                && |patched.Get(k)| == |stash.Get(k)|
  }

  /** The saved records were a walk at the first library of a history per kind; Stash
      now holds the last. */
  ghost predicate SavedBefore(libs: PerKind<seq<Library>>, edits: PerKind<seq<Edit>>, clock: nat, saved: Saved,
                              stash: Stash) {
    forall k :: && History(libs.Get(k), edits.Get(k), clock) && stash.Get(k) == libs.Get(k)[|edits.Get(k)|]
                && saved.state.Get(k) == StateOf(libs.Get(k)[0]) && saved.records.Get(k) == RecordsOf(libs.Get(k)[0])
  }

  /** Every kind whose state did not move kept its newest second as it was saved. */
  ghost predicate NewestSecondKept(saved: Saved, stash: Stash) {
    forall k, e | saved.state.Get(k) == StateOf(stash.Get(k))
                  && e in stash.Get(k) && Some(e.updatedAt) == saved.state.Get(k).newest ::
      e.record in saved.records.Get(k)
  }

  /** An accepted patch is the full walk, kind by kind, when the newest seconds were kept. */
  lemma AcceptedPatchIsWalk(libs: PerKind<seq<Library>>, edits: PerKind<seq<Edit>>, clock: nat,
                            saved: Saved, stash: Stash, patched: PerKind<seq<Record>>)
    requires SavedBefore(libs, edits, clock, saved, stash) && Accepted(saved, stash, patched)
    requires NewestSecondKept(saved, stash)
    ensures forall k :: patched.Get(k) == RecordsOf(stash.Get(k))
  {
    forall k ensures patched.Get(k) == RecordsOf(stash.Get(k)) {
      var ls, es := libs.Get(k), edits.Get(k);
      assert ChangedIn(saved, stash, k) == UpdatedAfter(stash.Get(k), Since(StateOf(ls[0]), StateOf(stash.Get(k))));
      HistoryIsLibrary(ls, es, clock, |es|);
      if StateOf(ls[0]) == StateOf(stash.Get(k)) {
        UnchangedKindStays(ls[0], stash.Get(k), patched.Get(k));
        UnchangedKindPatches(ls, es, clock);
      } else {
        ChangedKindPatches(ls, es, clock, patched.Get(k));
      }
    }
  }

  // --------------------------------------------------------------- the links object

  /** An insertion-ordered object and the index of its keys. */
  datatype LinkMap<K, V> = LinkMap(pairs: seq<(K, V)>, index: map<K, nat>) {
    ghost predicate Valid() {
      && (forall i | 0 <= i < |pairs| :: pairs[i].0 in index && index[pairs[i].0] == i)
      && (forall k | k in index :: index[k] < |pairs| && pairs[index[k]].0 == k)
    }

    function Find(key: K): Option<V>
      requires Valid()
    {
      if key in index then Some(pairs[index[key]].1) else None
    }

    function Keys(): seq<K> {
      seq(|pairs|, i requires 0 <= i < |pairs| => pairs[i].0)
    }
  }

  /** putLink: a new key goes last; a known one keeps its place and takes the value
      unless the first is to be kept. */
  method PutLink<K(==), V>(target: LinkMap<K, V>, key: K, value: V, keepFirst: bool) returns (target': LinkMap<K, V>)
    requires target.Valid()
    ensures target'.Valid()
    ensures target'.Keys() == Seen(target.Keys(), key)
    ensures forall k :: target'.Find(k) ==
              if k == key && !(keepFirst && key in target.index) then Some(value) else target.Find(k)
  {
    assert key in target.Keys() <==> key in target.index by {
      if key in target.index { assert target.Keys()[target.index[key]] == key; }
    }
    if key in target.index {
      target' := target;
      if !keepFirst {
        target' := target.(pairs := target.pairs[target.index[key] := (key, value)]);
      }
    } else {
      target' := LinkMap(target.pairs + [(key, value)], target.index[key := |target.pairs|]);
    }
  }

  // The order of the keys: each where it was first put.

  function Seen<K(==)>(keys: seq<K>, key: K): seq<K> {
    if key in keys then keys else keys + [key]
  }

  function SeenAll<K(==)>(keys: seq<K>, more: seq<K>): seq<K> {
    if more == [] then keys else Seen(SeenAll(keys, more[..|more| - 1]), more[|more| - 1])
  }

  function Once<K(==)>(puts: seq<K>): seq<K> { SeenAll([], puts) }

  /** The keys are those put, each once, ordered by where it was put first. */
  ghost predicate InFirstOrder<K(!new)>(puts: seq<K>, keys: seq<K>, places: seq<nat>) {
    && |places| == |keys|
    && (forall i, j | 0 <= i < j < |places| :: places[i] < places[j])
    && (forall i | 0 <= i < |keys| :: places[i] < |puts| && puts[places[i]] == keys[i])
    && forall n | 0 <= n < |puts| :: n in places <==> IsFirst(puts, n)
  }

  predicate IsFirst<K(==)>(puts: seq<K>, n: nat)
    requires n < |puts|
  {
    puts[n] !in puts[..n]
  }

  lemma StillFirst<K>(puts: seq<K>, n: nat)
    requires n < |puts|
    ensures forall i | 0 <= i < n :: IsFirst(puts, i) == IsFirst(puts[..n], i)
  {
    forall i | 0 <= i < n ensures IsFirst(puts, i) == IsFirst(puts[..n], i) {
      assert puts[..n][i] == puts[i] && puts[..n][..i] == puts[..i];
    }
  }

  lemma {:induction false} OnceInFirstOrder<K(!new)>(puts: seq<K>) returns (places: seq<nat>)
    ensures InFirstOrder(puts, Once(puts), places)
    ensures forall k :: k in Once(puts) <==> k in puts
  {
    places := [];
    if puts != [] {
      var n := |puts| - 1;
      places := OnceInFirstOrder(puts[..n]);
      assert puts == puts[..n] + [puts[n]];
      StillFirst(puts, n);
      assert Once(puts) == Seen(Once(puts[..n]), puts[n]);
      assert IsFirst(puts, n) <==> puts[n] !in puts[..n];
      hide IsFirst, SeenAll;
      if puts[n] !in puts[..n] {
        places := places + [n];
      }
    }
  }

  lemma {:induction false} SeenInTurn<K>(keys: seq<K>, some: seq<K>, more: seq<K>)
    ensures SeenAll(keys, some + more) == SeenAll(SeenAll(keys, some), more)
  {
    if more == [] {
      assert some + more == some;
    } else {
      var n := |more| - 1;
      SeenInTurn(keys, some, more[..n]);
      assert (some + more)[..|some| + n] == some + more[..n];
    }
  }

  /** The ids, the external ids and the phashes in the order in which they are put. */
  function LinkedIDs(records: seq<Record>): seq<nat> {
    if records == [] then []
    else
      LinkedIDs(records[..|records| - 1])
      + (if records[|records| - 1].external != "" then [records[|records| - 1].id] else [])
  }

  function Externals(records: seq<Record>): seq<string> {
    if records == [] then []
    else
      Externals(records[..|records| - 1])
      + (if records[|records| - 1].external != "" then [records[|records| - 1].external] else [])
  }

  function Phashes(records: seq<Record>): seq<string> {
    if records == [] then [] else Phashes(records[..|records| - 1]) + records[|records| - 1].phashes
  }

  lemma OneMoreRecord(records: seq<Record>, i: nat)
    requires i < |records|
    ensures var r := records[i];
            && Once(LinkedIDs(records[..i + 1]))
               == (if r.external != "" then Seen(Once(LinkedIDs(records[..i])), r.id)
                   else Once(LinkedIDs(records[..i])))
            && Once(Externals(records[..i + 1]))
               == (if r.external != "" then Seen(Once(Externals(records[..i])), r.external)
                   else Once(Externals(records[..i])))
            && Once(Phashes(records[..i + 1])) == SeenAll(Once(Phashes(records[..i])), r.phashes)
  {
    assert records[..i + 1][..i] == records[..i];
    var ids, externals := LinkedIDs(records[..i + 1]), Externals(records[..i + 1]);
    if records[i].external != "" {
      assert ids[..|ids| - 1] == LinkedIDs(records[..i]);
      assert externals[..|externals| - 1] == Externals(records[..i]);
    } else {
      assert ids == LinkedIDs(records[..i]) && externals == Externals(records[..i]);
    }
    SeenInTurn([], Phashes(records[..i]), records[i].phashes);
  }

  /** The last record that names an external id, and the first that has a phash. */
  function LastWith(records: seq<Record>, external: string): Option<nat> {
    if records == [] then None
    else if records[|records| - 1].external == external then Some(records[|records| - 1].id)
    else LastWith(records[..|records| - 1], external)
  }

  function FirstWithPhash(records: seq<Record>, phash: string): Option<nat> {
    if records == [] then None
    else
      var before := FirstWithPhash(records[..|records| - 1], phash);
      if before.Some? then before
      else if phash in records[|records| - 1].phashes then Some(records[|records| - 1].id) else None
  }

  function ExternalOf(records: seq<Record>, id: nat): Option<string> {
    if records == [] then None
    else if records[|records| - 1].id == id && records[|records| - 1].external != ""
      then Some(records[|records| - 1].external)
    else ExternalOf(records[..|records| - 1], id)
  }

  /** The scenes' three maps: each id's external id, the last scene of each external id,
      and the first scene of each phash, with the keys in the order they first come. */
  ghost predicate AreSceneLinks(records: seq<Record>, scenes: LinkMap<nat, string>, sceneIDs: LinkMap<string, nat>,
                                scenePhashes: LinkMap<string, nat>)
  {
    && scenes.Valid() && sceneIDs.Valid() && scenePhashes.Valid()
    && (forall id :: scenes.Find(id) == ExternalOf(records, id))
    && (forall x :: sceneIDs.Find(x) == if x == "" then None else LastWith(records, x))
    && (forall x :: scenePhashes.Find(x) == FirstWithPhash(records, x))
    && scenes.Keys() == Once(LinkedIDs(records))
    && sceneIDs.Keys() == Once(Externals(records))
    && scenePhashes.Keys() == Once(Phashes(records))
  }

  ghost predicate AreLinks(records: seq<Record>, links: LinkMap<nat, string>) {
    && links.Valid()
    && (forall id :: links.Find(id) == ExternalOf(records, id))
    && links.Keys() == Once(LinkedIDs(records))
  }

  /** buildExternalLinks for scenes. */
  method BuildSceneLinks(records: seq<Record>)
    returns (scenes: LinkMap<nat, string>, sceneIDs: LinkMap<string, nat>, scenePhashes: LinkMap<string, nat>)
    ensures AreSceneLinks(records, scenes, sceneIDs, scenePhashes)
  {
    scenes, sceneIDs, scenePhashes := LinkMap([], map[]), LinkMap([], map[]), LinkMap([], map[]);
    NoRecords();
    hide LinkMap.Find, LinkMap.Keys, LinkMap.Valid, Seen, SeenAll, Once, LinkedIDs, Externals, Phashes;
    for i := 0 to |records|
      invariant AreSceneLinks(records[..i], scenes, sceneIDs, scenePhashes)
    {
      var record := records[i];
      OneMoreRecord(records, i);
      assert records[..i + 1][..i] == records[..i];
      if record.external != "" {
        scenes := PutLink(scenes, record.id, record.external, false);
        sceneIDs := PutLink(sceneIDs, record.external, record.id, false);
      }
      scenePhashes := PutPhashes(scenePhashes, record);
    }
    assert records[..|records|] == records;
  }

  lemma NoRecords()
    ensures var none: LinkMap<string, nat> := LinkMap([], map[]); AreSceneLinks([], LinkMap([], map[]), none, none)
    ensures AreLinks([], LinkMap([], map[]))
  {
  }

  method PutPhashes(target: LinkMap<string, nat>, record: Record) returns (target': LinkMap<string, nat>)
    requires target.Valid()
    ensures target'.Valid() && target'.Keys() == SeenAll(target.Keys(), record.phashes)
    ensures forall x :: target'.Find(x) ==
              if target.Find(x).Some? then target.Find(x)
              else if x in record.phashes then Some(record.id) else None
  {
    target' := target;
    for j := 0 to |record.phashes|
      invariant target'.Valid() && target'.Keys() == SeenAll(target.Keys(), record.phashes[..j])
      invariant forall x :: target'.Find(x) ==
                  if target.Find(x).Some? then target.Find(x)
                  else if x in record.phashes[..j] then Some(record.id) else None
    {
      assert record.phashes[..j + 1][..j] == record.phashes[..j];
      target' := PutLink(target', record.phashes[j], record.id, true);
    }
    assert record.phashes[..|record.phashes|] == record.phashes;
  }

  /** And for performers and studios: each id's external id. */
  method BuildLinks(records: seq<Record>) returns (links: LinkMap<nat, string>)
    ensures AreLinks(records, links)
  {
    links := LinkMap([], map[]);
    NoRecords();
    hide LinkMap.Find, LinkMap.Keys, LinkMap.Valid, Seen, SeenAll, Once, LinkedIDs, Externals, Phashes;
    assert records[..0] == [];
    for i := 0 to |records|
      invariant AreLinks(records[..i], links)
    {
      OneMoreRecord(records, i);
      LastRecord(records, i);
      if records[i].external != "" {
        links := PutLink(links, records[i].id, records[i].external, false);
      }
    }
    assert records[..|records|] == records;
  }

  lemma LastRecord(records: seq<Record>, i: nat)
    requires i < |records|
    ensures forall id :: ExternalOf(records[..i + 1], id) ==
              if records[i].id == id && records[i].external != "" then Some(records[i].external)
              else ExternalOf(records[..i], id)
  {
    var more := records[..i + 1];
    assert more[..|more| - 1] == records[..i] && more[|more| - 1] == records[i];
    forall id ensures ExternalOf(more, id) ==
                      if records[i].id == id && records[i].external != "" then Some(records[i].external)
                      else ExternalOf(records[..i], id)
    {
    }
  }

  datatype LinksObject = LinksObject(
    scenes: LinkMap<nat, string>,
    sceneIDs: LinkMap<string, nat>,
    scenePhashes: LinkMap<string, nat>,
    performers: LinkMap<nat, string>,
    studios: LinkMap<nat, string>)

  ghost predicate IsLinksObject(records: PerKind<seq<Record>>, links: LinksObject) {
    && AreSceneLinks(records.scenes, links.scenes, links.sceneIDs, links.scenePhashes)
    && AreLinks(records.performers, links.performers)
    && AreLinks(records.studios, links.studios)
  }

  /** buildExternalLinks. */
  method BuildExternalLinks(records: PerKind<seq<Record>>) returns (links: LinksObject)
    ensures IsLinksObject(records, links)
  {
    hide AreSceneLinks, AreLinks;
    var scenes, sceneIDs, scenePhashes := BuildSceneLinks(records.scenes);
    var performers := BuildLinks(records.performers);
    var studios := BuildLinks(records.studios);
    links := LinksObject(scenes, sceneIDs, scenePhashes, performers, studios);
  }

  /** The same keys in the same order, each with the same value, are the same object. */
  lemma SameLinkMap<K(!new), V(!new)>(a: LinkMap<K, V>, b: LinkMap<K, V>)
    requires a.Valid() && b.Valid() && a.Keys() == b.Keys()
    requires forall k :: a.Find(k) == b.Find(k)
    ensures a == b
  {
    assert |a.pairs| == |a.Keys()| == |b.Keys()| == |b.pairs|;
    forall i | 0 <= i < |a.pairs| ensures a.pairs[i] == b.pairs[i] {
      assert a.Keys()[i] == b.Keys()[i];
      assert a.Find(a.pairs[i].0) == b.Find(a.pairs[i].0);
    }
    forall k ensures k in a.index <==> k in b.index {
      assert a.Find(k).Some? <==> b.Find(k).Some?;
    }
    assert forall k | k in a.index :: a.index[k] == b.index[k];
  }

  /** What a patch that was accepted is built into is, pair by pair, what the walk of the
      same library would be built into. */
  lemma PatchedLinksAreTheWalks(libs: PerKind<seq<Library>>, edits: PerKind<seq<Edit>>, clock: nat,
                                saved: Saved, stash: Stash, patched: PerKind<seq<Record>>, walked: PerKind<seq<Record>>,
                                links: LinksObject, walkedLinks: LinksObject)
    requires SavedBefore(libs, edits, clock, saved, stash) && Accepted(saved, stash, patched)
    requires NewestSecondKept(saved, stash)
    requires forall k :: walked.Get(k) == RecordsOf(stash.Get(k))
    requires IsLinksObject(patched, links) && IsLinksObject(walked, walkedLinks)
    ensures links == walkedLinks
  {
    hide SavedBefore, Accepted, NewestSecondKept, AreSceneLinks, AreLinks;
    AcceptedPatchIsWalk(libs, edits, clock, saved, stash, patched);
    assert patched.Get(Scenes) == walked.Get(Scenes) && patched.Get(Performers) == walked.Get(Performers)
           && patched.Get(Studios) == walked.Get(Studios);
    SameSceneLinks(patched.scenes, links, walkedLinks);
    SameLinks(patched.performers, links.performers, walkedLinks.performers);
    SameLinks(patched.studios, links.studios, walkedLinks.studios);
  }

  lemma SameLinks(records: seq<Record>, a: LinkMap<nat, string>, b: LinkMap<nat, string>)
    requires AreLinks(records, a) && AreLinks(records, b)
    ensures a == b
  {
    hide LinkMap.Find, LinkMap.Keys, LinkMap.Valid;
    SameLinkMap(a, b);
  }

  lemma SameSceneLinks(records: seq<Record>, a: LinksObject, b: LinksObject)
    requires AreSceneLinks(records, a.scenes, a.sceneIDs, a.scenePhashes)
    requires AreSceneLinks(records, b.scenes, b.sceneIDs, b.scenePhashes)
    ensures a.scenes == b.scenes && a.sceneIDs == b.sceneIDs && a.scenePhashes == b.scenePhashes
  {
    hide LinkMap.Find, LinkMap.Keys, LinkMap.Valid;
    SameLinkMap(a.scenes, b.scenes);
    SameLinkMap(a.sceneIDs, b.sceneIDs);
    SameLinkMap(a.scenePhashes, b.scenePhashes);
  }
}
