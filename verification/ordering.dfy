/** buildOrdering: the greedy ordering computed with lazily invalidated heaps, one
    per selector, whose entries carry the version of the key they were pushed for,
    and with utilities that are patched through three indexes after every pick. */
module Ordering {
  import opened Options
  import opened OrderingSpec
  import GoOrder
  import RealSums
  import Queues

  datatype HeapEntry = HeapEntry(negUtility: real, key: Key, version: nat)

  datatype Share = Share(key: Key, share: real)

  datatype Penalties = Penalties(performer: real, studio: real, content: real, history: real, liveCooldown: real)

  datatype OrderingEntry = OrderingEntry(candidate: Candidate, utility: real, penalties: Penalties,
                                         uncoveredContent: real)

  predicate EntryLess(a: HeapEntry, b: HeapEntry) {
    Before(-a.negUtility, a.key, -b.negUtility, b.key)
  }

  lemma EntryLessIsAnOrder()
    ensures Queues.StrictWeakOrder(EntryLess)
  {
    forall a, b ensures EntryLess(a, b) ==> !EntryLess(b, a) {
      BeforeIsTotal(-a.negUtility, a.key, -b.negUtility, b.key);
    }
    forall a, b, c ensures EntryLess(a, b) && EntryLess(b, c) ==> EntryLess(a, c) {
      if EntryLess(a, b) && EntryLess(b, c) {
        BeforeIsTransitive(-a.negUtility, a.key, -b.negUtility, b.key, -c.negUtility, c.key);
      }
    }
    forall a, b, c ensures EntryLess(a, c) ==> EntryLess(a, b) || EntryLess(b, c) {
      if EntryLess(a, c) && !EntryLess(a, b) {
        BeforeIsTotal(-a.negUtility, a.key, -b.negUtility, b.key);
        if a.key != b.key {
          BeforeIsTransitive(-b.negUtility, b.key, -a.negUtility, a.key, -c.negUtility, c.key);
        }
      }
    }
  }

  // ------------------------------------------------- what the run must produce

  /** The entry of pick `k` after `picks`, from scratch. */
  ghost function EntryFor(p: Problem, picks: seq<Key>, k: Key): OrderingEntry
    requires k in p.byKey
  {
    var c := p.byKey[k];
    var share := CoveredShare(c.content, p.CoveredFeatures(picks));
    OrderingEntry(
      c,
      p.Utility(picks, k),
      Penalties(
        if p.varied && p.PerformerRepeats(picks, c) then PERFORMER_PENALTY else 0.0,
        if p.varied && p.StudioRepeats(picks, c) then STUDIO_PENALTY else 0.0,
        if p.varied then CONTENT_PENALTY * share else 0.0,
        0.0,
        0.0),
      if p.varied && c.content != map[] then UNCOVERED_BONUS * (1.0 - share) else 0.0)
  }

  ghost predicate IsOrdering(p: Problem, ordered: seq<OrderingEntry>, picks: seq<Key>)
    requires p.ValidPicks(picks)
  {
    && |ordered| == |picks|
    && forall i | 0 <= i < |picks| :: ordered[i] == EntryFor(p, picks[..i], picks[i])
  }

  lemma OrderingGrows(p: Problem, ordered: seq<OrderingEntry>, picks: seq<Key>, k: Key)
    requires p.ValidPicks(picks) && IsOrdering(p, ordered, picks) && k in p.byKey
    ensures p.ValidPicks(picks + [k])
    ensures IsOrdering(p, ordered + [EntryFor(p, picks, k)], picks + [k])
  {
    hide EntryFor;
    var more := picks + [k];
    forall i | 0 <= i < |more| ensures (ordered + [EntryFor(p, picks, k)])[i] == EntryFor(p, more[..i], more[i]) {
      assert more[..i] == picks[..i];
      assert picks[..|picks|] == picks;
    }
  }

  /** The pools' answers make the naive choice. */
  lemma PoolAnswer(p: Problem, picks: seq<Key>, selector: Selector, allowAdjacent: bool, answer: Option<Key>)
    requires p.ValidPicks(picks)
    requires if answer.Some?
             then p.IsBest(p.Utilities(picks), Scenes(picks), Last(picks), selector, allowAdjacent, answer.value)
             else forall k :: !p.Eligible(Scenes(picks), Last(picks), selector, allowAdjacent, k)
    ensures p.Best(picks, selector, allowAdjacent) == answer
  {
    BestMeaning(p, picks, selector, allowAdjacent);
    var b := p.Best(picks, selector, allowAdjacent);
    if b.Some? && answer.Some? {
      BestIsUnique(p, p.Utilities(picks), Scenes(picks), Last(picks), selector, allowAdjacent, b.value, answer.value);
    }
  }

  /** What one more pick shows. */
  lemma PickShows(p: Problem, picks: seq<Key>, k: Key)
    requires k in p.byKey
    ensures Scenes(picks + [k]) == Scenes(picks) + {k.sceneID}
    ensures p.SeenPerformers(picks + [k]) == p.SeenPerformers(picks) + (set x | x in p.byKey[k].performers)
    ensures p.SeenStudios(picks + [k]) ==
            p.SeenStudios(picks) + (if p.byKey[k].studioGroup != "" then {p.byKey[k].studioGroup} else {})
    ensures p.CoveredFeatures(picks + [k]) == p.CoveredFeatures(picks) + p.byKey[k].content.Keys
  {
    var more := picks + [k];
    forall j ensures j in more <==> j in picks || j == k {
    }
    assert k in more;
    assert Scenes(more) == Scenes(picks) + {k.sceneID};
    assert p.SeenStudios(more) ==
           p.SeenStudios(picks) + (if p.byKey[k].studioGroup != "" then {p.byKey[k].studioGroup} else {});
  }

  ghost predicate ShowsExactly(p: Problem, picks: seq<Key>, performers: set<string>, studios: set<string>,
                               covered: set<string>) {
    p.varied ==>
      && performers == p.SeenPerformers(picks)
      && studios == p.SeenStudios(picks)
      && covered == p.CoveredFeatures(picks)
  }

  lemma ShowsOneMore(p: Problem, picks: seq<Key>, performers: set<string>, studios: set<string>, covered: set<string>,
                     k: Key)
    requires k in p.byKey && ShowsExactly(p, picks, performers, studios, covered)
    ensures var c := p.byKey[k];
            ShowsExactly(p, picks + [k], performers + (set x | x in c.performers),
                         studios + (if c.studioGroup != "" then {c.studioGroup} else {}),
                         covered + c.content.Keys)
  {
    PickShows(p, picks, k);
  }

  lemma SameSizeSubset<T>(part: set<T>, whole: set<T>)
    requires part <= whole && |part| >= |whole|
    ensures part == whole
  {
    var rest := whole - part;
    assert whole == part + rest;
    assert |whole| == |part| + |rest|;
  }

  /** Every emitted utility is its lane value less its penalties plus its bonus. */
  lemma UtilityIsAccountedFor(p: Problem, picks: seq<Key>, k: Key)
    requires k in p.byKey
    ensures var e := EntryFor(p, picks, k);
            e.utility == e.candidate.laneValue
                         - e.penalties.performer - e.penalties.studio - e.penalties.content
                         + e.uncoveredContent
  {
    var content := p.byKey[k].content;
    if content == map[] {
      assert Mass(content, content.Keys) == 0.0;
    }
  }

  // --------------------------------------------------------- the lazy heaps

  function HeapAt(heaps: map<Selector, multiset<HeapEntry>>, s: Selector): multiset<HeapEntry> {
    if s in heaps then heaps[s] else multiset{}
  }

  ghost predicate Live(p: Problem, selected: set<string>, k: Key) {
    k in p.byKey && k.sceneID !in selected
  }

  /** Every live key outside `changed` has an entry at its current version and
      utility in the heap of each of its selectors. */
  ghost predicate Current(p: Problem, utilities: map<Key, real>, versions: map<Key, nat>,
                          heaps: map<Selector, multiset<HeapEntry>>, selected: set<string>, changed: set<Key>)
    requires utilities.Keys == versions.Keys == p.byKey.Keys
  {
    forall s, k | Live(p, selected, k) && k !in changed && p.Selects(s, k) ::
      HeapEntry(-utilities[k], k, versions[k]) in HeapAt(heaps, s)
  }

  /** An entry stands in a heap of its key's selectors, is never newer than its key
      and, at the key's own version, carries the key's utility while the key lives. */
  ghost predicate Sound(p: Problem, utilities: map<Key, real>, versions: map<Key, nat>,
                        heaps: map<Selector, multiset<HeapEntry>>, selected: set<string>, changed: set<Key>)
    requires utilities.Keys == versions.Keys == p.byKey.Keys
  {
    forall s, e | e in HeapAt(heaps, s) ::
      && e.key in p.byKey
      && p.Selects(s, e.key)
      && e.version <= versions[e.key]
      && (e.version == versions[e.key] && Live(p, selected, e.key) && e.key !in changed ==>
            e.negUtility == -utilities[e.key])
  }

  function Added(heaps: map<Selector, multiset<HeapEntry>>, s: Selector, entry: HeapEntry)
    : map<Selector, multiset<HeapEntry>>
  {
    heaps[s := HeapAt(heaps, s) + multiset{entry}]
  }

  lemma AddedMeaning(heaps: map<Selector, multiset<HeapEntry>>, s: Selector, entry: HeapEntry, t: Selector,
                     e: HeapEntry)
    ensures e in HeapAt(Added(heaps, s, entry), t) <==> e in HeapAt(heaps, t) || (t == s && e == entry)
  {
  }

  /** `after` is `heaps` with the current entry of `k` added for each of its selectors. */
  ghost predicate Pushed(p: Problem, utilities: map<Key, real>, versions: map<Key, nat>,
                         heaps: map<Selector, multiset<HeapEntry>>, after: map<Selector, multiset<HeapEntry>>, k: Key)
    requires utilities.Keys == versions.Keys == p.byKey.Keys && k in p.byKey
  {
    forall s, e :: e in HeapAt(after, s) <==>
      e in HeapAt(heaps, s) || (e == HeapEntry(-utilities[k], k, versions[k]) && p.Selects(s, k))
  }

  /** What a push of a changed key needs: its new version is above its old entries'. */
  ghost predicate Pushable(p: Problem, utilities: map<Key, real>, versions: map<Key, nat>, bumped: map<Key, nat>,
                           heaps: map<Selector, multiset<HeapEntry>>, k: Key)
    requires utilities.Keys == versions.Keys == p.byKey.Keys
  {
    && k in p.byKey
    && bumped.Keys == p.byKey.Keys
    && versions[k] <= bumped[k]
    && (forall j | j in p.byKey && j != k :: bumped[j] == versions[j])
    && (forall s, e | e in HeapAt(heaps, s) && e.key == k :: e.version < bumped[k])
  }

  /** A listed scene's candidates need no entry. */
  lemma ListedNeedsNoPush(p: Problem, utilities: map<Key, real>, versions: map<Key, nat>,
                          heaps: map<Selector, multiset<HeapEntry>>, selected: set<string>, changed: set<Key>, k: Key)
    requires utilities.Keys == versions.Keys == p.byKey.Keys && k.sceneID in selected
    requires Current(p, utilities, versions, heaps, selected, changed)
             && Sound(p, utilities, versions, heaps, selected, changed)
    ensures Current(p, utilities, versions, heaps, selected, changed - {k})
            && Sound(p, utilities, versions, heaps, selected, changed - {k})
  {
    hide HeapAt, Problem.Selects;
  }

  lemma BumpIsPushable(p: Problem, utilities: map<Key, real>, versions: map<Key, nat>,
                       heaps: map<Selector, multiset<HeapEntry>>, selected: set<string>, changed: set<Key>, k: Key)
    requires utilities.Keys == versions.Keys == p.byKey.Keys && k in p.byKey
    requires Sound(p, utilities, versions, heaps, selected, changed)
    ensures Pushable(p, utilities, versions, versions[k := versions[k] + 1], heaps, k)
  {
    hide HeapAt, Problem.Selects, Live;
  }

  /** Bumping a changed key's version and pushing it makes the heaps good for it. */
  lemma PushKeepsSound(p: Problem, utilities: map<Key, real>, versions: map<Key, nat>, bumped: map<Key, nat>,
                       heaps: map<Selector, multiset<HeapEntry>>, after: map<Selector, multiset<HeapEntry>>,
                       selected: set<string>, changed: set<Key>, k: Key)
    requires utilities.Keys == versions.Keys == p.byKey.Keys
    requires Pushable(p, utilities, versions, bumped, heaps, k)
    requires Sound(p, utilities, versions, heaps, selected, changed)
    requires Pushed(p, utilities, bumped, heaps, after, k)
    ensures Sound(p, utilities, bumped, after, selected, changed - {k})
  {
    hide HeapAt, Problem.Selects;
    forall s, e | e in HeapAt(after, s)
      ensures e.key in p.byKey && p.Selects(s, e.key) && e.version <= bumped[e.key]
      ensures e.version == bumped[e.key] && Live(p, selected, e.key) && e.key !in changed - {k} ==>
                e.negUtility == -utilities[e.key]
    {
      if e in HeapAt(heaps, s) {
        assert e.key in p.byKey;
      }
    }
  }

  lemma PushMakesCurrent(p: Problem, utilities: map<Key, real>, versions: map<Key, nat>, bumped: map<Key, nat>,
                         heaps: map<Selector, multiset<HeapEntry>>, after: map<Selector, multiset<HeapEntry>>,
                         selected: set<string>, changed: set<Key>, k: Key)
    requires utilities.Keys == versions.Keys == p.byKey.Keys
    requires Pushable(p, utilities, versions, bumped, heaps, k)
    requires Current(p, utilities, versions, heaps, selected, changed)
    requires Pushed(p, utilities, bumped, heaps, after, k)
    ensures Current(p, utilities, bumped, after, selected, changed - {k})
  {
    hide HeapAt, Problem.Selects;
    forall s, j | Live(p, selected, j) && j !in changed - {k} && p.Selects(s, j)
      ensures HeapEntry(-utilities[j], j, bumped[j]) in HeapAt(after, s)
    {
      if j != k {
        assert HeapEntry(-utilities[j], j, versions[j]) in HeapAt(heaps, s);
      }
    }
  }

  /** Keys whose utility did not change still have their entries. */
  lemma ChangesStayMarked(p: Problem, before: map<Key, real>, after: map<Key, real>, versions: map<Key, nat>,
                          heaps: map<Selector, multiset<HeapEntry>>, selected: set<string>, changed: set<Key>)
    requires versions.Keys == p.byKey.Keys
    requires ChangedOnly(p, before, after, changed)
    requires Current(p, before, versions, heaps, selected, {}) && Sound(p, before, versions, heaps, selected, {})
    ensures Current(p, after, versions, heaps, selected, changed) && Sound(p, after, versions, heaps, selected, changed)
  {
    forall s, k | Live(p, selected, k) && k !in changed && p.Selects(s, k)
      ensures HeapEntry(-after[k], k, versions[k]) in HeapAt(heaps, s)
    {
      assert HeapEntry(-before[k], k, versions[k]) in HeapAt(heaps, s);
    }
  }

  /** The current entries of a selector's live keys, all but `except`'s, are in the bag. */
  ghost predicate Waiting(p: Problem, utilities: map<Key, real>, versions: map<Key, nat>, selected: set<string>,
                          selector: Selector, except: Option<Key>, bag: multiset<HeapEntry>)
    requires utilities.Keys == versions.Keys == p.byKey.Keys
  {
    forall k | Live(p, selected, k) && p.Selects(selector, k) && Some(k) != except ::
      HeapEntry(-utilities[k], k, versions[k]) in bag
  }

  ghost predicate Blocked(p: Problem, previous: Option<Key>, allowAdjacent: bool, k: Key)
    requires previous.Some? ==> previous.value in p.byKey
  {
    k in p.byKey && p.varied && previous.Some? && !allowAdjacent && SharePerformer(p.byKey[k], p.byKey[previous.value])
  }

  /** A least entry of the queue that is current and not blocked is the best pick. */
  lemma FirstIsBest(p: Problem, utilities: map<Key, real>, versions: map<Key, nat>, selected: set<string>,
                    previous: Option<Key>, selector: Selector, allowAdjacent: bool,
                    queue: multiset<HeapEntry>, deferred: multiset<HeapEntry>, entry: HeapEntry)
    requires previous.Some? ==> previous.value in p.byKey
    requires utilities.Keys == versions.Keys == p.byKey.Keys
    requires Waiting(p, utilities, versions, selected, selector, None, queue + deferred)
    requires forall e | e in deferred :: Blocked(p, previous, allowAdjacent, e.key)
    requires forall e | e in queue :: !EntryLess(e, entry)
    requires Live(p, selected, entry.key) && p.Selects(selector, entry.key)
    requires !Blocked(p, previous, allowAdjacent, entry.key)
    requires entry.negUtility == -utilities[entry.key]
    ensures p.IsBest(utilities, selected, previous, selector, allowAdjacent, entry.key)
  {
    var k := entry.key;
    forall j | j != k && p.Eligible(selected, previous, selector, allowAdjacent, j)
      ensures Before(utilities[k], k, utilities[j], j)
    {
      var other := HeapEntry(-utilities[j], j, versions[j]);
      assert Live(p, selected, j);
      assert other in queue + deferred;
      assert !Blocked(p, previous, allowAdjacent, j);
      assert other in queue;
      BeforeIsTotal(utilities[k], k, utilities[j], j);
    }
  }

  /** A heap's entry that pop throws away. */
  ghost predicate Stale(p: Problem, versions: map<Key, nat>, selected: set<string>, e: HeapEntry)
    requires versions.Keys == p.byKey.Keys
  {
    e.key !in p.byKey || e.version != versions[e.key] || e.key.sceneID in selected
  }

  /** pop's loop: what is left of the heap and what is deferred still hold every
      live key's current entry, unless a pick was made, which is then the best. */
  ghost predicate Popping(p: Problem, utilities: map<Key, real>, versions: map<Key, nat>, selected: set<string>,
                          previous: Option<Key>, selector: Selector, allowAdjacent: bool,
                          whole: multiset<HeapEntry>, queue: multiset<HeapEntry>, deferred: multiset<HeapEntry>,
                          chosen: Option<Key>)
    requires utilities.Keys == versions.Keys == p.byKey.Keys
    requires previous.Some? ==> previous.value in p.byKey
  {
    && queue + deferred <= whole
    && (forall e | e in deferred :: Blocked(p, previous, allowAdjacent, e.key))
    && Waiting(p, utilities, versions, selected, selector, chosen, queue + deferred)
    && (chosen.Some? ==> p.IsBest(utilities, selected, previous, selector, allowAdjacent, chosen.value))
  }

  lemma PopDiscards(p: Problem, utilities: map<Key, real>, versions: map<Key, nat>, selected: set<string>,
                    previous: Option<Key>, selector: Selector, allowAdjacent: bool,
                    whole: multiset<HeapEntry>, queue: multiset<HeapEntry>, deferred: multiset<HeapEntry>,
                    entry: HeapEntry)
    requires utilities.Keys == versions.Keys == p.byKey.Keys
    requires previous.Some? ==> previous.value in p.byKey
    requires Popping(p, utilities, versions, selected, previous, selector, allowAdjacent, whole, queue, deferred, None)
    requires entry in queue && Stale(p, versions, selected, entry)
    ensures Popping(p, utilities, versions, selected, previous, selector, allowAdjacent, whole, queue - multiset{entry},
                    deferred, None)
  {
    forall k | Live(p, selected, k) && p.Selects(selector, k)
      ensures HeapEntry(-utilities[k], k, versions[k]) in queue - multiset{entry} + deferred
    {
      assert HeapEntry(-utilities[k], k, versions[k]) in queue + deferred;
    }
  }

  lemma PopDefers(p: Problem, utilities: map<Key, real>, versions: map<Key, nat>, selected: set<string>,
                  previous: Option<Key>, selector: Selector, allowAdjacent: bool,
                  whole: multiset<HeapEntry>, queue: multiset<HeapEntry>, deferred: multiset<HeapEntry>,
                  entry: HeapEntry)
    requires utilities.Keys == versions.Keys == p.byKey.Keys
    requires previous.Some? ==> previous.value in p.byKey
    requires Popping(p, utilities, versions, selected, previous, selector, allowAdjacent, whole, queue, deferred, None)
    requires entry in queue && Blocked(p, previous, allowAdjacent, entry.key)
    ensures Popping(p, utilities, versions, selected, previous, selector, allowAdjacent, whole,
                    queue - multiset{entry}, deferred + multiset{entry}, None)
  {
    assert queue - multiset{entry} + (deferred + multiset{entry}) == queue + deferred;
  }

  lemma PopChooses(p: Problem, utilities: map<Key, real>, versions: map<Key, nat>, selected: set<string>,
                   previous: Option<Key>, selector: Selector, allowAdjacent: bool,
                   whole: multiset<HeapEntry>, queue: multiset<HeapEntry>, deferred: multiset<HeapEntry>,
                   entry: HeapEntry)
    requires utilities.Keys == versions.Keys == p.byKey.Keys
    requires previous.Some? ==> previous.value in p.byKey
    requires Popping(p, utilities, versions, selected, previous, selector, allowAdjacent, whole, queue, deferred, None)
    requires entry in queue && !Stale(p, versions, selected, entry) && !Blocked(p, previous, allowAdjacent, entry.key)
    requires forall e | e in queue :: !EntryLess(e, entry)
    requires p.Selects(selector, entry.key) && entry.negUtility == -utilities[entry.key]
    ensures Popping(p, utilities, versions, selected, previous, selector, allowAdjacent, whole,
                    queue - multiset{entry}, deferred, Some(entry.key))
  {
    FirstIsBest(p, utilities, versions, selected, previous, selector, allowAdjacent, queue, deferred, entry);
    forall k | Live(p, selected, k) && p.Selects(selector, k) && Some(k) != Some(entry.key)
      ensures HeapEntry(-utilities[k], k, versions[k]) in queue - multiset{entry} + deferred
    {
      assert HeapEntry(-utilities[k], k, versions[k]) in queue + deferred;
    }
  }

  /** A pool whose heap ran out of entries, deferred ones apart, is empty. */
  lemma PopFindsNone(p: Problem, utilities: map<Key, real>, versions: map<Key, nat>, selected: set<string>,
                     previous: Option<Key>, selector: Selector, allowAdjacent: bool,
                     whole: multiset<HeapEntry>, deferred: multiset<HeapEntry>, k: Key)
    requires utilities.Keys == versions.Keys == p.byKey.Keys
    requires previous.Some? ==> previous.value in p.byKey
    requires Popping(p, utilities, versions, selected, previous, selector, allowAdjacent, whole, multiset{}, deferred,
                     None)
    ensures !p.Eligible(selected, previous, selector, allowAdjacent, k)
  {
    if Live(p, selected, k) && p.Selects(selector, k) {
      assert HeapEntry(-utilities[k], k, versions[k]) in multiset{} + deferred;
      assert Blocked(p, previous, allowAdjacent, k);
    }
  }

  /** Taking the chosen key's entry out of one heap leaves every key that will
      still be live with its entries. */
  lemma PopKeepsCurrent(p: Problem, utilities: map<Key, real>, versions: map<Key, nat>,
                        heaps: map<Selector, multiset<HeapEntry>>, selected: set<string>,
                        selector: Selector, chosen: Option<Key>, bag: multiset<HeapEntry>)
    requires utilities.Keys == versions.Keys == p.byKey.Keys
    requires Current(p, utilities, versions, heaps, selected, {})
    requires Sound(p, utilities, versions, heaps, selected, {})
    requires Waiting(p, utilities, versions, selected, selector, chosen, bag)
    requires bag <= HeapAt(heaps, selector)
    ensures var after := heaps[selector := bag];
            var gone := if chosen.Some? then selected + {chosen.value.sceneID} else selected;
            && Current(p, utilities, versions, after, gone, {})
            && Sound(p, utilities, versions, after, selected, {})
  {
    hide Current, Sound, Waiting, HeapAt;
    PopKeepsLive(p, utilities, versions, heaps, selected, selector, chosen, bag);
    PopKeepsSound(p, utilities, versions, heaps, selected, selector, bag);
  }

  lemma PopKeepsLive(p: Problem, utilities: map<Key, real>, versions: map<Key, nat>,
                     heaps: map<Selector, multiset<HeapEntry>>, selected: set<string>,
                     selector: Selector, chosen: Option<Key>, bag: multiset<HeapEntry>)
    requires utilities.Keys == versions.Keys == p.byKey.Keys
    requires Current(p, utilities, versions, heaps, selected, {})
    requires Waiting(p, utilities, versions, selected, selector, chosen, bag)
    ensures Current(p, utilities, versions, heaps[selector := bag],
                    if chosen.Some? then selected + {chosen.value.sceneID} else selected, {})
  {
    hide Problem.Selects;
    var after := heaps[selector := bag];
    var gone := if chosen.Some? then selected + {chosen.value.sceneID} else selected;
    forall s, k | Live(p, gone, k) && p.Selects(s, k)
      ensures HeapEntry(-utilities[k], k, versions[k]) in HeapAt(after, s)
    {
      assert Live(p, selected, k) && Some(k) != chosen;
      assert HeapEntry(-utilities[k], k, versions[k]) in HeapAt(heaps, s);
    }
  }

  lemma PopKeepsSound(p: Problem, utilities: map<Key, real>, versions: map<Key, nat>,
                      heaps: map<Selector, multiset<HeapEntry>>, selected: set<string>,
                      selector: Selector, bag: multiset<HeapEntry>)
    requires utilities.Keys == versions.Keys == p.byKey.Keys
    requires Sound(p, utilities, versions, heaps, selected, {}) && bag <= HeapAt(heaps, selector)
    ensures Sound(p, utilities, versions, heaps[selector := bag], selected, {})
  {
    var after := heaps[selector := bag];
    forall s, e | e in HeapAt(after, s) ensures e in HeapAt(heaps, s) {
    }
    hide HeapAt, Problem.Selects, Live;
  }

  /** The entries of one heap, as Sound tells of them. */
  ghost predicate SoundQueue(p: Problem, utilities: map<Key, real>, versions: map<Key, nat>, selected: set<string>,
                             selector: Selector, whole: multiset<HeapEntry>)
    requires utilities.Keys == versions.Keys == p.byKey.Keys
  {
    forall e | e in whole ::
      && e.key in p.byKey && p.Selects(selector, e.key)
      && (!Stale(p, versions, selected, e) ==> e.negUtility == -utilities[e.key])
  }

  lemma StartPopping(p: Problem, utilities: map<Key, real>, versions: map<Key, nat>,
                     heaps: map<Selector, multiset<HeapEntry>>, selected: set<string>, previous: Option<Key>,
                     selector: Selector, allowAdjacent: bool)
    requires utilities.Keys == versions.Keys == p.byKey.Keys
    requires previous.Some? ==> previous.value in p.byKey
    requires Current(p, utilities, versions, heaps, selected, {}) && Sound(p, utilities, versions, heaps, selected, {})
    ensures SoundQueue(p, utilities, versions, selected, selector, HeapAt(heaps, selector))
    ensures Popping(p, utilities, versions, selected, previous, selector, allowAdjacent,
                    HeapAt(heaps, selector), HeapAt(heaps, selector), multiset{}, None)
  {
    hide HeapAt, Problem.Selects;
    assert HeapAt(heaps, selector) + multiset{} == HeapAt(heaps, selector);
  }

  /** pop's loop: discards stale entries, sets blocked ones aside, stops at the first
      other one. */
  method Scan(p: Problem, utilities: map<Key, real>, versions: map<Key, nat>, selected: set<string>,
              previous: Option<Key>, selector: Selector, allowAdjacent: bool, whole: multiset<HeapEntry>)
    returns (chosen: Option<Key>, queue: multiset<HeapEntry>, deferred: multiset<HeapEntry>)
    requires utilities.Keys == versions.Keys == p.byKey.Keys
    requires previous.Some? ==> previous.value in p.byKey
    requires SoundQueue(p, utilities, versions, selected, selector, whole)
    requires Popping(p, utilities, versions, selected, previous, selector, allowAdjacent, whole, whole, multiset{},
                     None)
    ensures Popping(p, utilities, versions, selected, previous, selector, allowAdjacent, whole, queue, deferred, chosen)
    ensures chosen.None? ==> queue == multiset{}
  {
    hide Popping, Queues.StrictWeakOrder, EntryLess, SharePerformer, Problem.Selects;
    EntryLessIsAnOrder();
    queue, deferred, chosen := whole, multiset{}, None;
    while queue != multiset{} && chosen.None?
      invariant queue <= whole
      invariant Popping(p, utilities, versions, selected, previous, selector, allowAdjacent, whole, queue, deferred,
                        chosen)
      decreases |queue|
    {
      ghost var full := queue;
      var entry: HeapEntry;
      entry, queue := Queues.Pop(queue, EntryLess);
      var k := entry.key;
      if k !in p.byKey || entry.version != versions[k] || k.sceneID in selected {
        PopDiscards(p, utilities, versions, selected, previous, selector, allowAdjacent, whole, full, deferred, entry);
        continue;
      }
      if p.varied && previous.Some? && !allowAdjacent && SharePerformer(p.byKey[k], p.byKey[previous.value]) {
        PopDefers(p, utilities, versions, selected, previous, selector, allowAdjacent, whole, full, deferred, entry);
        deferred := deferred + multiset{entry};
        continue;
      }
      PopChooses(p, utilities, versions, selected, previous, selector, allowAdjacent, whole, full, deferred, entry);
      chosen := Some(k);
    }
  }

  lemma EndPopping(p: Problem, utilities: map<Key, real>, versions: map<Key, nat>,
                   heaps: map<Selector, multiset<HeapEntry>>, selected: set<string>, previous: Option<Key>,
                   selector: Selector, allowAdjacent: bool, queue: multiset<HeapEntry>, deferred: multiset<HeapEntry>,
                   chosen: Option<Key>)
    requires utilities.Keys == versions.Keys == p.byKey.Keys
    requires previous.Some? ==> previous.value in p.byKey
    requires Current(p, utilities, versions, heaps, selected, {}) && Sound(p, utilities, versions, heaps, selected, {})
    requires Popping(p, utilities, versions, selected, previous, selector, allowAdjacent, HeapAt(heaps, selector),
                     queue, deferred, chosen)
    requires chosen.None? ==> queue == multiset{}
    ensures chosen.Some? ==> p.IsBest(utilities, selected, previous, selector, allowAdjacent, chosen.value)
    ensures chosen.None? ==> forall k :: !p.Eligible(selected, previous, selector, allowAdjacent, k)
    ensures var after := heaps[selector := queue + deferred];
            && Current(p, utilities, versions, after,
                       if chosen.Some? then selected + {chosen.value.sceneID} else selected, {})
            && Sound(p, utilities, versions, after, selected, {})
  {
    hide Current, Sound, HeapAt, Waiting, Problem.IsBest, Problem.Eligible;
    PopKeepsCurrent(p, utilities, versions, heaps, selected, selector, chosen, queue + deferred);
    if chosen.None? {
      forall k ensures !p.Eligible(selected, previous, selector, allowAdjacent, k) {
        PopFindsNone(p, utilities, versions, selected, previous, selector, allowAdjacent, HeapAt(heaps, selector),
                     deferred, k);
      }
    }
  }

  // ------------------------------------------------------- the three indexes

  function KeysAt(index: map<string, set<Key>>, x: string): set<Key> {
    if x in index then index[x] else {}
  }

  ghost predicate IndexesPerformers(p: Problem, index: map<string, set<Key>>, keys: set<Key>) {
    forall x :: KeysAt(index, x) == set k | k in keys && k in p.byKey && x in p.byKey[k].performers
  }

  ghost predicate IndexesStudios(p: Problem, index: map<string, set<Key>>, keys: set<Key>) {
    forall x | x != "" :: KeysAt(index, x) == set k | k in keys && k in p.byKey && p.byKey[k].studioGroup == x
  }

  /** Features of a candidate without content mass are not indexed. */
  ghost predicate Weighs(c: Candidate, f: string) {
    f in c.content && Mass(c.content, c.content.Keys) > 0.0
  }

  ghost function ShareOf(c: Candidate, f: string): real
    requires Weighs(c, f)
  {
    Part(RealSums.Abs(c.content[f]), Mass(c.content, c.content.Keys))
  }

  ghost predicate IndexesFeature(p: Problem, items: seq<Share>, f: string, keys: set<Key>) {
    && (forall i | 0 <= i < |items| ::
          && items[i].key in keys && items[i].key in p.byKey
          && Weighs(p.byKey[items[i].key], f)
          && items[i].share == ShareOf(p.byKey[items[i].key], f))
    && (forall i, j | 0 <= i < j < |items| :: items[i].key != items[j].key)
    && (forall k | k in keys && k in p.byKey && Weighs(p.byKey[k], f) ::
          exists i :: 0 <= i < |items| && items[i].key == k)
  }

  function SharesOf(index: map<string, seq<Share>>, f: string): seq<Share> {
    if f in index then index[f] else []
  }

  ghost predicate IndexesFeatures(p: Problem, index: map<string, seq<Share>>, keys: set<Key>) {
    forall f :: IndexesFeature(p, SharesOf(index, f), f, keys)
  }

  method AddPerformers(index: map<string, set<Key>>, k: Key, performers: seq<string>)
    returns (index': map<string, set<Key>>)
    ensures forall x :: KeysAt(index', x) == KeysAt(index, x) + (if x in performers then {k} else {})
  {
    index' := index;
    for i := 0 to |performers|
      invariant forall x :: KeysAt(index', x) == KeysAt(index, x) + (if x in performers[..i] then {k} else {})
    {
      index' := index'[performers[i] := KeysAt(index', performers[i]) + {k}];
    }
    assert performers[..|performers|] == performers;
  }

  method ContentTotal(content: map<string, real>) returns (total: real)
    ensures total == Mass(content, content.Keys)
  {
    total := 0.0;
    var todo := content.Keys;
    while todo != {}
      invariant todo <= content.Keys
      invariant total + Mass(content, todo) == Mass(content, content.Keys)
    {
      var f :| f in todo;
      MassOfAdded(content, todo, f);
      total := total + RealSums.Abs(content[f]);
      todo := todo - {f};
    }
  }

  method AddShareEntries(index: map<string, seq<Share>>, k: Key, content: map<string, real>, total: real)
    returns (index': map<string, seq<Share>>)
    requires total > 0.0
    ensures forall f :: SharesOf(index', f) ==
                        SharesOf(index, f) + (if f in content then [Share(k, RealSums.Abs(content[f]) / total)] else [])
  {
    index' := index;
    var todo := content.Keys;
    while todo != {}
      invariant todo <= content.Keys
      invariant forall f :: SharesOf(index', f) ==
                  SharesOf(index, f)
                    + (if f in content && f !in todo then [Share(k, RealSums.Abs(content[f]) / total)] else [])
    {
      var f :| f in todo;
      todo := todo - {f};
      index' := index'[f := SharesOf(index', f) + [Share(k, RealSums.Abs(content[f]) / total)]];
    }
  }

  lemma FeatureIndexGrows(p: Problem, items: seq<Share>, f: string, keys: set<Key>, k: Key)
    requires IndexesFeature(p, items, f, keys) && k !in keys && k in p.byKey
    ensures IndexesFeature(p, if Weighs(p.byKey[k], f) then items + [Share(k, ShareOf(p.byKey[k], f))] else items,
                           f, keys + {k})
  {
    if Weighs(p.byKey[k], f) {
      var more := items + [Share(k, ShareOf(p.byKey[k], f))];
      forall j | j in keys + {k} && j in p.byKey && Weighs(p.byKey[j], f)
        ensures exists i :: 0 <= i < |more| && more[i].key == j
      {
        if j == k {
          assert more[|items|].key == j;
        } else {
          var i :| 0 <= i < |items| && items[i].key == j;
          assert more[i].key == j;
        }
      }
    }
  }

  lemma PerformerIndexGrows(p: Problem, index: map<string, set<Key>>, index': map<string, set<Key>>, keys: set<Key>,
                            k: Key)
    requires k in p.byKey && IndexesPerformers(p, index, keys)
    requires forall x :: KeysAt(index', x) == KeysAt(index, x) + (if x in p.byKey[k].performers then {k} else {})
    ensures IndexesPerformers(p, index', keys + {k})
  {
    forall x ensures KeysAt(index', x) == set j | j in keys + {k} && j in p.byKey && x in p.byKey[j].performers {
      assert KeysAt(index, x) == set j | j in keys && j in p.byKey && x in p.byKey[j].performers;
    }
  }

  lemma StudioIndexGrows(p: Problem, index: map<string, set<Key>>, keys: set<Key>, k: Key)
    requires k in p.byKey && IndexesStudios(p, index, keys)
    ensures var studio := p.byKey[k].studioGroup;
            IndexesStudios(p, if studio != "" then index[studio := KeysAt(index, studio) + {k}] else index, keys + {k})
  {
    var studio := p.byKey[k].studioGroup;
    var index' := if studio != "" then index[studio := KeysAt(index, studio) + {k}] else index;
    forall x | x != ""
      ensures KeysAt(index', x) == set j | j in keys + {k} && j in p.byKey && p.byKey[j].studioGroup == x {
      assert KeysAt(index, x) == set j | j in keys && j in p.byKey && p.byKey[j].studioGroup == x;
    }
  }

  lemma FeatureIndexesGrow(p: Problem, index: map<string, seq<Share>>, index': map<string, seq<Share>>, keys: set<Key>,
                           k: Key)
    requires k in p.byKey && k !in keys && IndexesFeatures(p, index, keys)
    requires forall f :: SharesOf(index', f) ==
               if Weighs(p.byKey[k], f)
                 then SharesOf(index, f) + [Share(k, ShareOf(p.byKey[k], f))] else SharesOf(index, f)
    ensures IndexesFeatures(p, index', keys + {k})
  {
    forall f ensures IndexesFeature(p, SharesOf(index', f), f, keys + {k}) {
      assert IndexesFeature(p, SharesOf(index, f), f, keys);
      FeatureIndexGrows(p, SharesOf(index, f), f, keys, k);
    }
  }

  /** One pass over the candidates fills the three indexes. */
  method Indexes(p: Problem)
    returns (performers: map<string, set<Key>>, studios: map<string, set<Key>>, features: map<string, seq<Share>>)
    ensures IndexesPerformers(p, performers, p.byKey.Keys)
    ensures IndexesStudios(p, studios, p.byKey.Keys)
    ensures IndexesFeatures(p, features, p.byKey.Keys)
  {
    performers, studios, features := map[], map[], map[];
    var todo := p.byKey.Keys;
    ghost var done: set<Key> := {};
    while todo != {}
      invariant done + todo == p.byKey.Keys && done !! todo
      invariant IndexesPerformers(p, performers, done)
      invariant IndexesStudios(p, studios, done)
      invariant IndexesFeatures(p, features, done)
    {
      var k :| k in todo;
      var c := p.byKey[k];
      todo := todo - {k};
      var performers' := AddPerformers(performers, k, c.performers);
      PerformerIndexGrows(p, performers, performers', done, k);
      performers := performers';
      StudioIndexGrows(p, studios, done, k);
      if c.studioGroup != "" {
        studios := studios[c.studioGroup := KeysAt(studios, c.studioGroup) + {k}];
      }
      var total := ContentTotal(c.content);
      var features' := features;
      if total > 0.0 {
        features' := AddShareEntries(features, k, c.content, total);
      }
      FeatureIndexesGrow(p, features, features', done, k);
      features := features';
      done := done + {k};
    }
    assert done == p.byKey.Keys;
  }

  // --------------------------------------------------- incremental utilities

  ghost predicate AccurateUtilities(p: Problem, utilities: map<Key, real>, performers: set<string>,
                                    studios: set<string>, covered: set<string>)
  {
    && utilities.Keys == p.byKey.Keys
    && forall k | k in p.byKey :: utilities[k] == p.UtilityGiven(performers, studios, covered, p.byKey[k])
  }

  ghost predicate AccurateShares(p: Problem, shares: map<Key, real>, covered: set<string>) {
    && shares.Keys == p.byKey.Keys
    && forall k | k in p.byKey :: shares[k] == CoveredShare(p.byKey[k].content, covered)
  }

  ghost function PenalizedFor(p: Problem, performers: set<string>): set<Key> {
    set k | k in p.byKey && exists x :: x in p.byKey[k].performers && x in performers
  }

  ghost function StudioPenalizedFor(p: Problem, studios: set<string>): set<Key> {
    set k | k in p.byKey && p.byKey[k].studioGroup in studios
  }

  ghost predicate ChangedOnly(p: Problem, before: map<Key, real>, after: map<Key, real>, touched: set<Key>) {
    && before.Keys == after.Keys == p.byKey.Keys
    && touched <= p.byKey.Keys
    && forall k | k in p.byKey && k !in touched :: after[k] == before[k]
  }

  lemma ChangesCompose(p: Problem, first: map<Key, real>, second: map<Key, real>, third: map<Key, real>,
                       changed: set<Key>, touched: set<Key>)
    requires ChangedOnly(p, first, second, changed) && ChangedOnly(p, second, third, touched)
    ensures ChangedOnly(p, first, third, changed + touched)
  {
  }

  /** Takes `amount` once from every affected key that was not penalized yet. */
  method Penalize(affected: set<Key>, penalized: set<Key>, amount: real, utilities: map<Key, real>)
    returns (penalized': set<Key>, utilities': map<Key, real>, touched: set<Key>)
    requires affected <= utilities.Keys
    ensures penalized' == penalized + affected
    ensures touched == affected - penalized
    ensures utilities'.Keys == utilities.Keys
    ensures forall k | k in utilities :: utilities'[k] == utilities[k] - (if k in touched then amount else 0.0)
  {
    penalized', utilities', touched := penalized, utilities, {};
    var todo := affected;
    while todo != {}
      invariant todo <= affected
      invariant penalized' == penalized + (affected - todo)
      invariant touched == (affected - todo) - penalized
      invariant utilities'.Keys == utilities.Keys
      invariant forall k | k in utilities :: utilities'[k] == utilities[k] - (if k in touched then amount else 0.0)
    {
      var k :| k in todo;
      todo := todo - {k};
      if k in penalized' { continue; }
      penalized' := penalized' + {k};
      utilities' := utilities'[k := utilities'[k] - amount];
      touched := touched + {k};
    }
  }

  /** What a candidate loses when a share of its content is shown: the penalty it
      gains and the bonus it no longer gets. */
  function ContentCut(share: real): real { (CONTENT_PENALTY + UNCOVERED_BONUS) * share }

  /** Adds each item's share to its key and takes its penalty and bonus away. */
  method AddShares(items: seq<Share>, shares: map<Key, real>, utilities: map<Key, real>)
    returns (shares': map<Key, real>, utilities': map<Key, real>, touched: set<Key>)
    requires forall i | 0 <= i < |items| :: items[i].key in shares && items[i].key in utilities
    requires forall i, j | 0 <= i < j < |items| :: items[i].key != items[j].key
    ensures shares'.Keys == shares.Keys && utilities'.Keys == utilities.Keys
    ensures touched == set i | 0 <= i < |items| :: items[i].key
    ensures forall k | k in shares && k !in touched :: shares'[k] == shares[k]
    ensures forall k | k in utilities && k !in touched :: utilities'[k] == utilities[k]
    ensures forall i | 0 <= i < |items| ::
              && shares'[items[i].key] == shares[items[i].key] + items[i].share
              && utilities'[items[i].key] == utilities[items[i].key] - ContentCut(items[i].share)
  {
    hide ContentCut, SharesAdded;
    NoShareAdded(items, shares, utilities);
    shares', utilities', touched := shares, utilities, {};
    for i := 0 to |items|
      invariant SharesAdded(items, i, shares, shares', utilities, utilities', touched)
    {
      var k, share := items[i].key, items[i].share;
      ShareAdded(items, i, shares, shares', utilities, utilities', touched);
      shares' := shares'[k := shares'[k] + share];
      utilities' := utilities'[k := utilities'[k] - ContentCut(share)];
      touched := touched + {k};
    }
    AllSharesAdded(items, shares, shares', utilities, utilities', touched);
  }

  lemma NoShareAdded(items: seq<Share>, shares: map<Key, real>, utilities: map<Key, real>)
    requires forall n | 0 <= n < |items| :: items[n].key in shares && items[n].key in utilities
    ensures SharesAdded(items, 0, shares, shares, utilities, utilities, {})
  {
  }

  lemma AllSharesAdded(items: seq<Share>, shares: map<Key, real>, shares': map<Key, real>,
                       utilities: map<Key, real>, utilities': map<Key, real>, touched: set<Key>)
    requires forall n | 0 <= n < |items| :: items[n].key in shares && items[n].key in utilities
    requires SharesAdded(items, |items|, shares, shares', utilities, utilities', touched)
    ensures shares'.Keys == shares.Keys && utilities'.Keys == utilities.Keys
    ensures touched == set i | 0 <= i < |items| :: items[i].key
    ensures forall k | k in shares && k !in touched :: shares'[k] == shares[k]
    ensures forall k | k in utilities && k !in touched :: utilities'[k] == utilities[k]
    ensures forall i | 0 <= i < |items| ::
              && shares'[items[i].key] == shares[items[i].key] + items[i].share
              && utilities'[items[i].key] == utilities[items[i].key] - ContentCut(items[i].share)
  {
    hide ContentCut;
  }

  /** The first `i` items are added, and nothing else changed. */
  ghost predicate SharesAdded(items: seq<Share>, i: nat, shares: map<Key, real>, shares': map<Key, real>,
                              utilities: map<Key, real>, utilities': map<Key, real>, touched: set<Key>)
    requires i <= |items| && forall n | 0 <= n < |items| :: items[n].key in shares && items[n].key in utilities
  {
    && shares'.Keys == shares.Keys && utilities'.Keys == utilities.Keys
    && touched == (set n | 0 <= n < i :: items[n].key)
    && (forall k | k in shares && k !in touched :: shares'[k] == shares[k])
    && (forall k | k in utilities && k !in touched :: utilities'[k] == utilities[k])
    && forall n | 0 <= n < i ::
         && shares'[items[n].key] == shares[items[n].key] + items[n].share
         && utilities'[items[n].key] == utilities[items[n].key] - ContentCut(items[n].share)
  }

  lemma ShareAdded(items: seq<Share>, i: nat, shares: map<Key, real>, shares': map<Key, real>,
                   utilities: map<Key, real>, utilities': map<Key, real>, touched: set<Key>)
    requires i < |items| && forall n | 0 <= n < |items| :: items[n].key in shares && items[n].key in utilities
    requires forall n, m | 0 <= n < m < |items| :: items[n].key != items[m].key
    requires SharesAdded(items, i, shares, shares', utilities, utilities', touched)
    ensures var k := items[i].key;
            && k in shares' && k in utilities'
            && SharesAdded(items, i + 1, shares, shares'[k := shares'[k] + items[i].share],
                           utilities, utilities'[k := utilities'[k] - ContentCut(items[i].share)], touched + {k})
  {
    hide ContentCut;
    var k := items[i].key;
    assert forall n | 0 <= n < i :: items[n].key != k;
    assert k !in touched;
  }

  lemma UnvariedUtility(p: Problem, performers: set<string>, studios: set<string>, covered: set<string>, c: Candidate)
    requires !p.varied
    ensures p.UtilityGiven(performers, studios, covered, c) == c.laneValue
  {
  }

  ghost function PerformerKeys(p: Problem, performer: string): set<Key> {
    set k | k in p.byKey && performer in p.byKey[k].performers
  }

  ghost function StudioKeys(p: Problem, studio: string): set<Key> {
    set k | k in p.byKey && p.byKey[k].studioGroup == studio
  }

  /** Penalizing a new performer's candidates once is what recomputing gives. */
  lemma PerformerShown(p: Problem, utilities: map<Key, real>, utilities': map<Key, real>, touched: set<Key>,
                       seen: set<string>, performer: string, studios: set<string>, covered: set<string>)
    requires p.varied && performer !in seen
    requires AccurateUtilities(p, utilities, seen, studios, covered)
    requires touched == PerformerKeys(p, performer) - PenalizedFor(p, seen)
    requires utilities'.Keys == utilities.Keys
    requires forall k | k in utilities ::
             utilities'[k] == utilities[k] - (if k in touched then PERFORMER_PENALTY else 0.0)
    ensures PenalizedFor(p, seen + {performer}) == PenalizedFor(p, seen) + PerformerKeys(p, performer)
    ensures AccurateUtilities(p, utilities', seen + {performer}, studios, covered)
    ensures ChangedOnly(p, utilities, utilities', touched)
  {
    hide CoveredShare;
    forall k | k in p.byKey
      ensures k in PenalizedFor(p, seen + {performer}) <==>
              k in PenalizedFor(p, seen) || performer in p.byKey[k].performers
      ensures utilities'[k] == p.UtilityGiven(seen + {performer}, studios, covered, p.byKey[k])
    {
    }
  }

  lemma StudioShown(p: Problem, utilities: map<Key, real>, utilities': map<Key, real>, touched: set<Key>,
                    performers: set<string>, seen: set<string>, studio: string, covered: set<string>)
    requires p.varied && studio !in seen
    requires AccurateUtilities(p, utilities, performers, seen, covered)
    requires touched == StudioKeys(p, studio) - StudioPenalizedFor(p, seen)
    requires utilities'.Keys == utilities.Keys
    requires forall k | k in utilities :: utilities'[k] == utilities[k] - (if k in touched then STUDIO_PENALTY else 0.0)
    ensures StudioPenalizedFor(p, seen + {studio}) == StudioPenalizedFor(p, seen) + StudioKeys(p, studio)
    ensures AccurateUtilities(p, utilities', performers, seen + {studio}, covered)
    ensures ChangedOnly(p, utilities, utilities', touched)
  {
    hide CoveredShare;
    forall k | k in p.byKey
      ensures p.byKey[k].studioGroup in seen + {studio} <==>
              p.byKey[k].studioGroup in seen || p.byKey[k].studioGroup == studio
      ensures utilities'[k] == p.UtilityGiven(performers, seen + {studio}, covered, p.byKey[k])
    {
    }
  }

  lemma FeatureCovered(p: Problem, items: seq<Share>, feature: string, covered: set<string>,
                       performers: set<string>, studios: set<string>,
                       shares: map<Key, real>, shares': map<Key, real>,
                       utilities: map<Key, real>, utilities': map<Key, real>, touched: set<Key>)
    requires p.varied && feature !in covered
    requires IndexesFeature(p, items, feature, p.byKey.Keys)
    requires AccurateShares(p, shares, covered) && AccurateUtilities(p, utilities, performers, studios, covered)
    requires shares'.Keys == shares.Keys && utilities'.Keys == utilities.Keys
    requires touched == set i | 0 <= i < |items| :: items[i].key
    requires forall i | 0 <= i < |items| ::
               && shares'[items[i].key] == shares[items[i].key] + items[i].share
               && utilities'[items[i].key] == utilities[items[i].key] - ContentCut(items[i].share)
    requires forall k | k in p.byKey && k !in touched :: shares'[k] == shares[k] && utilities'[k] == utilities[k]
    ensures AccurateShares(p, shares', covered + {feature})
    ensures AccurateUtilities(p, utilities', performers, studios, covered + {feature})
    ensures ChangedOnly(p, utilities, utilities', touched)
  {
    hide CoveredShare, Problem.UtilityGiven, ContentCut;
    forall k | k in p.byKey
      ensures shares'[k] == CoveredShare(p.byKey[k].content, covered + {feature})
      ensures utilities'[k] == p.UtilityGiven(performers, studios, covered + {feature}, p.byKey[k])
    {
      CandidateCovered(p, p.byKey[k], feature, performers, studios, covered);
      ItemOf(p, items, feature, touched, k);
      hide Weighs, ShareOf, IndexesFeature;
    }
  }

  /** A touched key has an item with its share, and any other key does not weigh in. */
  lemma ItemOf(p: Problem, items: seq<Share>, feature: string, touched: set<Key>, k: Key)
    requires IndexesFeature(p, items, feature, p.byKey.Keys) && k in p.byKey
    requires touched == set i | 0 <= i < |items| :: items[i].key
    ensures Weighs(p.byKey[k], feature) <==> k in touched
    ensures k in touched ==>
              exists i :: 0 <= i < |items| && items[i].key == k && items[i].share == ShareOf(p.byKey[k], feature)
  {
    hide Weighs, ShareOf;
    if k in touched {
      var i :| 0 <= i < |items| && items[i].key == k;
    }
  }

  lemma CandidateCovered(p: Problem, c: Candidate, feature: string, performers: set<string>, studios: set<string>,
                         covered: set<string>)
    requires p.varied && feature !in covered
    ensures var share := if Weighs(c, feature) then ShareOf(c, feature) else 0.0;
            && CoveredShare(c.content, covered + {feature}) == CoveredShare(c.content, covered) + share
            && p.UtilityGiven(performers, studios, covered + {feature}, c)
               == p.UtilityGiven(performers, studios, covered, c)
                  - (if Weighs(c, feature) then ContentCut(share) else 0.0)
  {
    hide CoveredShare, RealSums.Abs, Mass, Part, Problem.UtilityGiven;
    CoveredShareGrows(c.content, covered, feature);
    UtilityFalls(p, c, performers, studios, covered, covered + {feature},
                 if Weighs(c, feature) then ShareOf(c, feature) else 0.0);
  }

  lemma UtilityFalls(p: Problem, c: Candidate, performers: set<string>, studios: set<string>, covered: set<string>,
                     more: set<string>, share: real)
    requires p.varied && CoveredShare(c.content, more) == CoveredShare(c.content, covered) + share
    ensures p.UtilityGiven(performers, studios, more, c)
            == p.UtilityGiven(performers, studios, covered, c) - ContentCut(share)
  {
    hide CoveredShare;
  }

  lemma ItemsAreKeys(p: Problem, items: seq<Share>, feature: string)
    requires IndexesFeature(p, items, feature, p.byKey.Keys)
    ensures forall i | 0 <= i < |items| :: items[i].key in p.byKey
    ensures forall i, j | 0 <= i < j < |items| :: items[i].key != items[j].key
  {
  }

  /** The variables of buildOrdering that its closures share. */
  class Run {
    const p: Problem
    var utilities: map<Key, real>
    var versions: map<Key, nat>
    var heaps: map<Selector, multiset<HeapEntry>>
    var selected: set<string>
    var seenPerformers: set<string>
    var seenStudios: set<string>
    var coveredFeatures: set<string>
    var performerPenalized: set<Key>
    var studioPenalized: set<Key>
    var coveredShare: map<Key, real>
    var performerIndex: map<string, set<Key>>
    var studioIndex: map<string, set<Key>>
    var featureIndex: map<string, seq<Share>>

    /** The incrementally maintained values are the from-scratch ones. */
    ghost predicate Accurate()
      reads this`utilities, this`versions, this`coveredShare, this`seenPerformers, this`seenStudios
      reads this`coveredFeatures, this`performerPenalized, this`studioPenalized
    {
      && versions.Keys == p.byKey.Keys
      && AccurateUtilities(p, utilities, seenPerformers, seenStudios, coveredFeatures)
      && AccurateShares(p, coveredShare, coveredFeatures)
      && performerPenalized == PenalizedFor(p, seenPerformers)
      && studioPenalized == StudioPenalizedFor(p, seenStudios)
      && "" !in seenStudios
    }

    ghost predicate Indexed()
      reads this`performerIndex, this`studioIndex, this`featureIndex
    {
      && IndexesPerformers(p, performerIndex, p.byKey.Keys)
      && IndexesStudios(p, studioIndex, p.byKey.Keys)
      && IndexesFeatures(p, featureIndex, p.byKey.Keys)
    }

    constructor (p: Problem)
      ensures this.p == p
      ensures utilities == map k | k in p.byKey :: p.UtilityGiven({}, {}, {}, p.byKey[k])
      ensures versions == map k | k in p.byKey :: 0
      ensures coveredShare == map k | k in p.byKey :: 0.0
      ensures heaps == map[] && selected == {}
      ensures seenPerformers == {} && seenStudios == {} && coveredFeatures == {}
      ensures performerPenalized == {} && studioPenalized == {}
      ensures performerIndex == map[] && studioIndex == map[] && featureIndex == map[]
    {
      this.p := p;
      utilities := map k | k in p.byKey ::
        p.byKey[k].laneValue + (if p.varied && p.byKey[k].content != map[] then UNCOVERED_BONUS else 0.0);
      versions := map k | k in p.byKey :: 0;
      coveredShare := map k | k in p.byKey :: 0.0;
      heaps, selected := map[], {};
      seenPerformers, seenStudios, coveredFeatures := {}, {}, {};
      performerPenalized, studioPenalized := {}, {};
      performerIndex, studioIndex, featureIndex := map[], map[], map[];
      new;
      forall k | k in p.byKey
        ensures utilities[k] == p.UtilityGiven({}, {}, {}, p.byKey[k])
      {
        NothingCovered(p.byKey[k].content);
      }
    }

    /** push: one entry at the key's version into each of its selectors' heaps. */
    method Push(k: Key)
      requires utilities.Keys == versions.Keys == p.byKey.Keys && k in p.byKey
      modifies this`heaps
      ensures Pushed(p, utilities, versions, old(heaps), heaps, k)
    {
      var entry := HeapEntry(-utilities[k], k, versions[k]);
      heaps := Added(heaps, All, entry);
      ghost var once := heaps;
      if k in p.extras {
        heaps := Added(heaps, p.extras[k], entry);
      }
      forall s, e ensures e in HeapAt(heaps, s) <==> e in HeapAt(old(heaps), s) || (e == entry && p.Selects(s, k)) {
        AddedMeaning(old(heaps), All, entry, s, e);
        if k in p.extras { AddedMeaning(once, p.extras[k], entry, s, e); }
      }
    }

    /** The first pushes. */
    method PushAll()
      requires utilities.Keys == versions.Keys == p.byKey.Keys
      requires heaps == map[] && forall k | k in p.byKey :: versions[k] == 0
      modifies this`heaps
      ensures Current(p, utilities, versions, heaps, selected, {})
      ensures Sound(p, utilities, versions, heaps, selected, {})
    {
      var todo := p.byKey.Keys;
      while todo != {}
        invariant todo <= p.byKey.Keys
        invariant forall s, e | e in HeapAt(heaps, s) :: e.key !in todo
        invariant Current(p, utilities, versions, heaps, selected, todo)
        invariant Sound(p, utilities, versions, heaps, selected, todo)
      {
        ghost var pending, before := todo, heaps;
        var k :| k in todo;
        Push(k);
        todo := todo - {k};
        PushKeepsSound(p, utilities, versions, versions, before, heaps, selected, pending, k);
        PushMakesCurrent(p, utilities, versions, versions, before, heaps, selected, pending, k);
      }
    }

    /** pop: the best eligible candidate of a selector, discarding stale entries and
        pushing the deferred ones back. */
    method Pop(selector: Selector, previous: Option<Key>, allowAdjacent: bool) returns (chosen: Option<Key>)
      requires utilities.Keys == versions.Keys == p.byKey.Keys
      requires Current(p, utilities, versions, heaps, selected, {})
      requires Sound(p, utilities, versions, heaps, selected, {})
      requires previous.Some? ==> previous.value in p.byKey
      modifies this`heaps
      ensures chosen.Some? ==>
                && p.IsBest(utilities, selected, previous, selector, allowAdjacent, chosen.value)
                && Current(p, utilities, versions, heaps, selected + {chosen.value.sceneID}, {})
      ensures chosen.None? ==>
                && (forall k :: !p.Eligible(selected, previous, selector, allowAdjacent, k))
                && Current(p, utilities, versions, heaps, selected, {})
      ensures Sound(p, utilities, versions, heaps, selected, {})
    {
      hide Current, Sound, HeapAt, Popping, Waiting, Problem.IsBest, Problem.Eligible;
      var whole := HeapAt(heaps, selector);
      StartPopping(p, utilities, versions, heaps, selected, previous, selector, allowAdjacent);
      var queue, deferred;
      chosen, queue, deferred := Scan(p, utilities, versions, selected, previous, selector, allowAdjacent, whole);
      EndPopping(p, utilities, versions, heaps, selected, previous, selector, allowAdjacent, queue, deferred, chosen);
      queue := queue + deferred;
      heaps := heaps[selector := queue];
    }

    /** Marks the first appearance of a performer on every candidate that has it. */
    method ShowPerformer(performer: string) returns (touched: set<Key>)
      requires p.varied && Accurate() && IndexesPerformers(p, performerIndex, p.byKey.Keys)
      requires performer !in seenPerformers
      modifies this`seenPerformers, this`performerPenalized, this`utilities
      ensures Accurate()
      ensures seenPerformers == old(seenPerformers) + {performer}
      ensures ChangedOnly(p, old(utilities), utilities, touched)
    {
      hide Problem.UtilityGiven, CoveredShare, AccurateShares;
      var affected := KeysAt(performerIndex, performer);
      assert affected == PerformerKeys(p, performer) <= utilities.Keys;
      hide AccurateUtilities, AccurateShares, PenalizedFor, StudioPenalizedFor, PerformerKeys, ChangedOnly,
        IndexesPerformers;
      performerPenalized, utilities, touched := Penalize(affected, performerPenalized, PERFORMER_PENALTY, utilities);
      PerformerShown(p, old(utilities), utilities, touched, seenPerformers, performer, seenStudios, coveredFeatures);
      seenPerformers := seenPerformers + {performer};
    }

    /** The same for a studio group. */
    method ShowStudio(studio: string) returns (touched: set<Key>)
      requires p.varied && Accurate() && IndexesStudios(p, studioIndex, p.byKey.Keys)
      requires studio !in seenStudios && studio != ""
      modifies this`seenStudios, this`studioPenalized, this`utilities
      ensures Accurate()
      ensures seenStudios == old(seenStudios) + {studio}
      ensures ChangedOnly(p, old(utilities), utilities, touched)
    {
      hide Problem.UtilityGiven, CoveredShare, AccurateShares;
      var affected := KeysAt(studioIndex, studio);
      assert affected == StudioKeys(p, studio) <= utilities.Keys;
      hide AccurateUtilities, AccurateShares, PenalizedFor, StudioPenalizedFor, StudioKeys, ChangedOnly, IndexesStudios;
      studioPenalized, utilities, touched := Penalize(affected, studioPenalized, STUDIO_PENALTY, utilities);
      StudioShown(p, old(utilities), utilities, touched, seenPerformers, seenStudios, studio, coveredFeatures);
      seenStudios := seenStudios + {studio};
    }

    /** Covers a content feature: its share leaves every candidate that has it. */
    method CoverFeature(feature: string) returns (touched: set<Key>)
      requires p.varied && Accurate() && IndexesFeatures(p, featureIndex, p.byKey.Keys)
      requires feature !in coveredFeatures
      modifies this`coveredFeatures, this`coveredShare, this`utilities
      ensures Accurate()
      ensures coveredFeatures == old(coveredFeatures) + {feature}
      ensures ChangedOnly(p, old(utilities), utilities, touched)
    {
      hide CoveredShare, PenalizedFor, StudioPenalizedFor, IndexesFeature, ContentCut, ChangedOnly,
        Problem.UtilityGiven, ShareOf, Weighs;
      coveredFeatures := coveredFeatures + {feature};
      var items := SharesOf(featureIndex, feature);
      assert IndexesFeature(p, items, feature, p.byKey.Keys);
      ItemsAreKeys(p, items, feature);
      coveredShare, utilities, touched := AddShares(items, coveredShare, utilities);
      FeatureCovered(p, items, feature, old(coveredFeatures), seenPerformers, seenStudios,
                     old(coveredShare), coveredShare, old(utilities), utilities, touched);
    }

    /** Re-pushes the changed live keys under a new version. */
    method Repush(changed: set<Key>)
      requires utilities.Keys == versions.Keys == p.byKey.Keys && changed <= p.byKey.Keys
      requires Current(p, utilities, versions, heaps, selected, changed)
      requires Sound(p, utilities, versions, heaps, selected, changed)
      modifies this`heaps, this`versions
      ensures versions.Keys == p.byKey.Keys
      ensures Current(p, utilities, versions, heaps, selected, {})
      ensures Sound(p, utilities, versions, heaps, selected, {})
    {
      hide Current, Sound, HeapAt;
      var todo := changed;
      while todo != {}
        invariant todo <= p.byKey.Keys == versions.Keys
        invariant Current(p, utilities, versions, heaps, selected, todo)
        invariant Sound(p, utilities, versions, heaps, selected, todo)
      {
        ghost var pending := todo;
        var affected :| affected in todo;
        todo := todo - {affected};
        if affected.sceneID in selected {
          ListedNeedsNoPush(p, utilities, versions, heaps, selected, pending, affected);
          continue;
        }
        ghost var oldVersions, oldHeaps := versions, heaps;
        versions := versions[affected := versions[affected] + 1];
        BumpIsPushable(p, utilities, oldVersions, oldHeaps, selected, pending, affected);
        Push(affected);
        PushKeepsSound(p, utilities, oldVersions, versions, oldHeaps, heaps, selected, pending, affected);
        PushMakesCurrent(p, utilities, oldVersions, versions, oldHeaps, heaps, selected, pending, affected);
      }
    }

    /** Fills the three indexes over all candidates. */
    method BuildIndexes()
      requires performerIndex == map[] && studioIndex == map[] && featureIndex == map[]
      modifies this`performerIndex, this`studioIndex, this`featureIndex
      ensures Indexed()
    {
      performerIndex, studioIndex, featureIndex := Indexes(p);
    }

    /** What the run knows is what the picks have shown. */
    ghost predicate Shown(picks: seq<Key>)
      reads this`utilities, this`versions, this`coveredShare, this`seenPerformers, this`seenStudios
      reads this`coveredFeatures, this`performerPenalized, this`studioPenalized
    {
      Accurate() && ShowsExactly(p, picks, seenPerformers, seenStudios, coveredFeatures)
    }

    method ShowPerformers(performers: seq<string>) returns (changed: set<Key>)
      requires p.varied && Accurate() && IndexesPerformers(p, performerIndex, p.byKey.Keys)
      modifies this`seenPerformers, this`performerPenalized, this`utilities
      ensures Accurate()
      ensures seenPerformers == old(seenPerformers) + (set x | x in performers)
      ensures ChangedOnly(p, old(utilities), utilities, changed)
    {
      changed := {};
      for i := 0 to |performers|
        invariant Accurate()
        invariant seenPerformers == old(seenPerformers) + (set x | x in performers[..i])
        invariant ChangedOnly(p, old(utilities), utilities, changed)
      {
        assert performers[..i + 1] == performers[..i] + [performers[i]];
        if performers[i] in seenPerformers { continue; }
        ghost var before := utilities;
        var touched := ShowPerformer(performers[i]);
        ChangesCompose(p, old(utilities), before, utilities, changed, touched);
        changed := changed + touched;
      }
      assert performers[..|performers|] == performers;
    }

    method CoverFeatures(content: map<string, real>) returns (changed: set<Key>)
      requires p.varied && Accurate() && IndexesFeatures(p, featureIndex, p.byKey.Keys)
      modifies this`coveredFeatures, this`coveredShare, this`utilities
      ensures Accurate()
      ensures coveredFeatures == old(coveredFeatures) + content.Keys
      ensures ChangedOnly(p, old(utilities), utilities, changed)
    {
      changed := {};
      var features := content.Keys;
      while features != {}
        invariant features <= content.Keys
        invariant Accurate()
        invariant coveredFeatures == old(coveredFeatures) + (content.Keys - features)
        invariant ChangedOnly(p, old(utilities), utilities, changed)
      {
        var feature :| feature in features;
        features := features - {feature};
        if feature in coveredFeatures { continue; }
        ghost var before := utilities;
        var touched := CoverFeature(feature);
        ChangesCompose(p, old(utilities), before, utilities, changed, touched);
        changed := changed + touched;
      }
    }

    /** Everything a candidate shows: its performers, its studio, its content. */
    method ShowCandidate(c: Candidate) returns (changed: set<Key>)
      requires p.varied && Accurate() && Indexed()
      modifies this`utilities, this`coveredShare
      modifies this`seenPerformers, this`seenStudios, this`coveredFeatures
      modifies this`performerPenalized, this`studioPenalized
      ensures Accurate()
      ensures seenPerformers == old(seenPerformers) + (set x | x in c.performers)
      ensures seenStudios == old(seenStudios) + (if c.studioGroup != "" then {c.studioGroup} else {})
      ensures coveredFeatures == old(coveredFeatures) + c.content.Keys
      ensures ChangedOnly(p, old(utilities), utilities, changed)
    {
      var performers := GoOrder.SortedDistinct(c.performers);
      assert (set x | x in performers) == (set x | x in c.performers);
      changed := ShowPerformers(performers);
      if c.studioGroup != "" && c.studioGroup !in seenStudios {
        ghost var before := utilities;
        var touched := ShowStudio(c.studioGroup);
        ChangesCompose(p, old(utilities), before, utilities, changed, touched);
        changed := changed + touched;
      }
      ghost var before := utilities;
      var touched := CoverFeatures(c.content);
      ChangesCompose(p, old(utilities), before, utilities, changed, touched);
      changed := changed + touched;
    }

    /** The main loop's invariant: the state is the one the picks lead to. */
    ghost predicate Ready(picks: seq<Key>)
      reads this
    {
      && p.ValidPicks(picks)
      && Shown(picks)
      && selected == Scenes(picks)
      && (if p.varied then Indexed() else performerPenalized == {} && studioPenalized == {})
      && Current(p, utilities, versions, heaps, selected, {})
      && Sound(p, utilities, versions, heaps, selected, {})
    }

    /** After a pick of a varied ordering: penalize, cover, re-push. */
    method ShowPick(chosen: Key, ghost picks: seq<Key>)
      requires p.varied && Indexed() && Shown(picks) && chosen in p.byKey
      requires Current(p, utilities, versions, heaps, selected, {})
      requires Sound(p, utilities, versions, heaps, selected, {})
      modifies this`heaps, this`versions, this`utilities, this`coveredShare
      modifies this`seenPerformers, this`seenStudios, this`coveredFeatures
      modifies this`performerPenalized, this`studioPenalized
      ensures Shown(picks + [chosen])
      ensures Current(p, utilities, versions, heaps, selected, {})
      ensures Sound(p, utilities, versions, heaps, selected, {})
    {
      hide Current, Sound, AccurateUtilities, AccurateShares, ShowsExactly, ChangedOnly, PenalizedFor,
        StudioPenalizedFor, IndexesPerformers, IndexesStudios, IndexesFeatures;
      var changed := ShowCandidate(p.byKey[chosen]);
      ShowsOneMore(p, picks, old(seenPerformers), old(seenStudios), old(coveredFeatures), chosen);
      ChangesStayMarked(p, old(utilities), utilities, versions, heaps, selected, changed);
      Repush(changed);
    }

    /** The first pick of the three pools. */
    method Choose(wanted: Selector, previous: Option<Key>, ghost picks: seq<Key>) returns (chosen: Option<Key>)
      requires p.ValidPicks(picks) && previous == Last(picks)
      requires utilities == p.Utilities(picks) && versions.Keys == p.byKey.Keys && selected == Scenes(picks)
      requires Current(p, utilities, versions, heaps, selected, {})
      requires Sound(p, utilities, versions, heaps, selected, {})
      modifies this`heaps
      ensures chosen == p.Choice(wanted, picks)
      ensures Current(p, utilities, versions, heaps,
                      if chosen.Some? then selected + {chosen.value.sceneID} else selected, {})
      ensures Sound(p, utilities, versions, heaps, selected, {})
    {
      chosen := Pop(wanted, previous, false);
      PoolAnswer(p, picks, wanted, false, chosen);
      if chosen.None? {
        chosen := Pop(All, previous, false);
        PoolAnswer(p, picks, All, false, chosen);
      }
      if chosen.None? {
        chosen := Pop(All, previous, true);
        PoolAnswer(p, picks, All, true, chosen);
      }
    }

    /** The emitted entry of a pick, read off the maintained state. */
    function Emit(k: Key): OrderingEntry
      reads this
      requires k in p.byKey && k in utilities && k in coveredShare
    {
      var c := p.byKey[k];
      OrderingEntry(
        c,
        utilities[k],
        Penalties(
          if k in performerPenalized then PERFORMER_PENALTY else 0.0,
          if k in studioPenalized then STUDIO_PENALTY else 0.0,
          if p.varied && coveredShare[k] > 0.0 then CONTENT_PENALTY * coveredShare[k] else 0.0,
          0.0,
          0.0),
        if p.varied && c.content != map[] then UNCOVERED_BONUS * (1.0 - coveredShare[k]) else 0.0)
    }

    lemma EmitIsEntryFor(k: Key, picks: seq<Key>)
      requires Shown(picks) && k in p.byKey
      requires !p.varied ==> performerPenalized == {} && studioPenalized == {}
      ensures Emit(k) == EntryFor(p, picks, k)
    {
      hide CoveredShare, Problem.UtilityGiven, Problem.SeenPerformers, Problem.SeenStudios, Problem.CoveredFeatures;
      CoveredShareIsAShare(p.byKey[k].content, coveredFeatures);
      if !p.varied {
        UnvariedUtility(p, seenPerformers, seenStudios, coveredFeatures, p.byKey[k]);
        UnvariedUtility(p, p.SeenPerformers(picks), p.SeenStudios(picks), p.CoveredFeatures(picks), p.byKey[k]);
      }
    }

    /** Without variety a pick changes nothing but the listed scenes. */
    lemma UnvariedReady(k: Key, picks: seq<Key>)
      requires !p.varied && p.ValidPicks(picks) && Shown(picks) && k in p.byKey
      requires performerPenalized == {} && studioPenalized == {}
      requires selected == Scenes(picks + [k])
      requires Current(p, utilities, versions, heaps, selected, {})
      requires Sound(p, utilities, versions, heaps, selected, {})
      ensures Ready(picks + [k])
    {
    }

    lemma VariedReady(picks: seq<Key>)
      requires p.varied && p.ValidPicks(picks) && Shown(picks) && Indexed()
      requires selected == Scenes(picks)
      requires Current(p, utilities, versions, heaps, selected, {})
      requires Sound(p, utilities, versions, heaps, selected, {})
      ensures Ready(picks)
    {
    }

    /** Lists a chosen key's scene. */
    method ListScene(k: Key, ghost picks: seq<Key>)
      requires utilities.Keys == versions.Keys == p.byKey.Keys && selected == Scenes(picks)
      requires Current(p, utilities, versions, heaps, selected + {k.sceneID}, {})
      requires Sound(p, utilities, versions, heaps, selected, {})
      modifies this`selected
      ensures selected == Scenes(picks + [k])
      ensures Current(p, utilities, versions, heaps, selected, {})
      ensures Sound(p, utilities, versions, heaps, selected, {})
    {
      ScenesGrow(picks, k);
      SoundStays(p, utilities, versions, heaps, selected, k.sceneID);
      selected := selected + {k.sceneID};
    }

    method ShowListed(k: Key, ghost picks: seq<Key>)
      requires k in p.byKey && p.ValidPicks(picks) && Shown(picks) && selected == Scenes(picks + [k])
      requires p.varied && Indexed()
      requires Current(p, utilities, versions, heaps, selected, {})
      requires Sound(p, utilities, versions, heaps, selected, {})
      modifies this`heaps, this`versions, this`utilities, this`coveredShare
      modifies this`seenPerformers, this`seenStudios, this`coveredFeatures
      modifies this`performerPenalized, this`studioPenalized
      ensures Ready(picks + [k])
    {
      hide Ready, Shown, Indexed, Current, Sound;
      ShowPick(k, picks);
      VariedReady(picks + [k]);
    }

    lemma ShownKeys(picks: seq<Key>)
      requires Shown(picks)
      ensures utilities.Keys == versions.Keys == p.byKey.Keys
    {
    }

    /** Lists a chosen key and, in a varied ordering, shows the pick. */
    method List(k: Key, ghost picks: seq<Key>)
      requires k in p.byKey && p.ValidPicks(picks) && Shown(picks) && selected == Scenes(picks)
      requires if p.varied then Indexed() else performerPenalized == {} && studioPenalized == {}
      requires Current(p, utilities, versions, heaps, selected + {k.sceneID}, {})
      requires Sound(p, utilities, versions, heaps, selected, {})
      modifies this`heaps, this`versions, this`utilities, this`coveredShare, this`selected
      modifies this`seenPerformers, this`seenStudios, this`coveredFeatures
      modifies this`performerPenalized, this`studioPenalized
      ensures Ready(picks + [k])
    {
      hide Ready, Shown, Indexed, Current, Sound;
      ShownKeys(picks);
      ListScene(k, picks);
      if p.varied {
        ShowListed(k, picks);
      } else {
        UnvariedReady(k, picks);
      }
    }

    lemma UtilitiesFromScratch(picks: seq<Key>)
      requires Shown(picks)
      ensures utilities == p.Utilities(picks)
      ensures coveredShare.Keys == versions.Keys == utilities.Keys == p.byKey.Keys
    {
    }

    /** Emits and lists a chosen key. */
    method Take(k: Key, ghost picks: seq<Key>) returns (entry: OrderingEntry)
      requires k in p.byKey && p.ValidPicks(picks) && Shown(picks) && selected == Scenes(picks)
      requires if p.varied then Indexed() else performerPenalized == {} && studioPenalized == {}
      requires Current(p, utilities, versions, heaps, selected + {k.sceneID}, {})
      requires Sound(p, utilities, versions, heaps, selected, {})
      modifies this`heaps, this`versions, this`utilities, this`coveredShare, this`selected
      modifies this`seenPerformers, this`seenStudios, this`coveredFeatures
      modifies this`performerPenalized, this`studioPenalized
      ensures entry == EntryFor(p, picks, k)
      ensures Ready(picks + [k]) && selected == Scenes(picks + [k])
    {
      UtilitiesFromScratch(picks);
      hide Shown, Indexed, Current, Sound, EntryFor, Problem.ValidPicks, Problem.Utilities;
      entry := Emit(k);
      EmitIsEntryFor(k, picks);
      hide Emit;
      List(k, picks);
    }

    lemma ReadyMeans(picks: seq<Key>)
      requires Ready(picks)
      ensures p.ValidPicks(picks) && Shown(picks) && selected == Scenes(picks)
      ensures if p.varied then Indexed() else performerPenalized == {} && studioPenalized == {}
      ensures Current(p, utilities, versions, heaps, selected, {})
      ensures Sound(p, utilities, versions, heaps, selected, {})
      ensures utilities == p.Utilities(picks) && versions.Keys == p.byKey.Keys
    {
      UtilitiesFromScratch(picks);
    }

    /** One round: choose, emit, list. */
    method Round(wanted: Selector, previous: Option<Key>, ghost picks: seq<Key>)
      returns (chosen: Option<Key>, entries: seq<OrderingEntry>)
      requires Ready(picks) && previous == Last(picks)
      modifies this`heaps, this`versions, this`utilities, this`coveredShare, this`selected
      modifies this`seenPerformers, this`seenStudios, this`coveredFeatures
      modifies this`performerPenalized, this`studioPenalized
      ensures chosen == p.Choice(wanted, picks)
      ensures if chosen.Some?
              then && entries == [EntryFor(p, picks, chosen.value)]
                   && Ready(picks + [chosen.value]) && selected == Scenes(picks + [chosen.value])
              else entries == [] && selected == Scenes(picks)
    {
      hide Ready, Shown, Indexed, Current, Sound, EntryFor, Problem.Choice, Problem.ValidPicks, Problem.Utilities;
      ReadyMeans(picks);
      chosen := Choose(wanted, previous, picks);
      entries := [];
      if chosen.Some? {
        var entry := Take(chosen.value, picks);
        entries := [entry];
      }
    }

    /** Everything buildOrdering sets up before its main loop. */
    static method Start(p: Problem) returns (run: Run)
      ensures fresh(run) && run.p == p && run.Ready([]) && run.selected == Scenes([])
    {
      hide Current, Sound, IndexesPerformers, IndexesStudios, IndexesFeatures, Problem.UtilityGiven, ShowsExactly,
        AccurateUtilities, AccurateShares, PenalizedFor, StudioPenalizedFor, CoveredShare;
      run := new Run(p);
      NothingShown(p, run.utilities, run.coveredShare);
      run.PushAll();
      if p.varied {
        run.BuildIndexes();
      }
    }
  }

  lemma NothingShown(p: Problem, utilities: map<Key, real>, shares: map<Key, real>)
    requires utilities == map k | k in p.byKey :: p.UtilityGiven({}, {}, {}, p.byKey[k])
    requires shares == map k | k in p.byKey :: 0.0
    ensures AccurateUtilities(p, utilities, {}, {}, {}) && AccurateShares(p, shares, {})
    ensures PenalizedFor(p, {}) == {} && StudioPenalizedFor(p, {}) == {}
    ensures ShowsExactly(p, [], {}, {}, {}) && p.ValidPicks([]) && Scenes([]) == {}
  {
    hide CoveredShare, Problem.UtilityGiven;
    forall k | k in p.byKey ensures shares[k] == CoveredShare(p.byKey[k].content, {}) {
      NothingCovered(p.byKey[k].content);
    }
  }

  lemma ScenesGrow(picks: seq<Key>, k: Key)
    ensures Scenes(picks + [k]) == Scenes(picks) + {k.sceneID}
  {
    forall j ensures j in picks + [k] <==> j in picks || j == k {
    }
  }

  lemma SoundStays(p: Problem, utilities: map<Key, real>, versions: map<Key, nat>,
                   heaps: map<Selector, multiset<HeapEntry>>, selected: set<string>, scene: string)
    requires utilities.Keys == versions.Keys == p.byKey.Keys
    requires Sound(p, utilities, versions, heaps, selected, {})
    ensures Sound(p, utilities, versions, heaps, selected + {scene}, {})
  {
  }

  /** The ordering the naive greedy gives. */
  ghost function NaiveOrdering(p: Problem, rotation: seq<Selector>): seq<OrderingEntry> {
    var picks := p.Greedy(rotation, []);
    seq(|picks|, i requires 0 <= i < |picks| => EntryFor(p, picks[..i], picks[i]))
  }

  lemma OrderingIsNaive(p: Problem, rotation: seq<Selector>, ordered: seq<OrderingEntry>, picks: seq<Key>)
    requires picks == p.Greedy(rotation, []) && IsOrdering(p, ordered, picks)
    ensures ordered == NaiveOrdering(p, rotation)
  {
  }

  /** Once every scene is listed the naive greedy stops. */
  lemma GreedyStops(p: Problem, rotation: seq<Selector>, picks: seq<Key>)
    requires p.Valid() && p.ValidPicks(picks)
    requires |Scenes(picks)| >= |p.SceneIDs()| || p.Choice(Wanted(rotation, |picks|), picks).None?
    ensures p.Greedy(rotation, picks) == picks
  {
    if p.Choice(Wanted(rotation, |picks|), picks).Some? {
      forall s | s in Scenes(picks) ensures s in p.SceneIDs() {
        var k :| k in picks && k.sceneID == s;
        assert k in p.byKey;
      }
      SameSizeSubset(Scenes(picks), p.SceneIDs());
      ChoiceMeaning(p, Wanted(rotation, |picks|), picks);
    }
  }

  /** The heaps, versions and indexes compute the naive greedy's ordering. */
  method Order(p: Problem, rotation: seq<Selector>) returns (ordered: seq<OrderingEntry>)
    requires p.Valid()
    ensures ordered == NaiveOrdering(p, rotation)
  {
    hide Run.Ready;
    var run := Run.Start(p);
    var sceneIDs := set k | k in p.byKey :: k.sceneID;
    ordered := [];
    var previous: Option<Key> := None;
    ghost var picks: seq<Key> := [];
    while |run.selected| < |sceneIDs|
      invariant run.p == p && fresh(run) && run.Ready(picks) && run.selected == Scenes(picks)
      invariant previous == Last(picks)
      invariant p.ValidPicks(picks) && IsOrdering(p, ordered, picks)
      invariant p.Greedy(rotation, picks) == p.Greedy(rotation, [])
      decreases sceneIDs - run.selected
    {
      var chosen, entries := run.Round(Wanted(rotation, |ordered|), previous, picks);
      if chosen.None? { break; }
      OrderingGrows(p, ordered, picks, chosen.value);
      ScenesGrow(picks, chosen.value);
      ordered := ordered + entries;
      previous := chosen;
      picks := picks + [chosen.value];
    }
    GreedyStops(p, rotation, picks);
    OrderingIsNaive(p, rotation, ordered, picks);
  }

  lemma NothingCovered(content: map<string, real>)
    ensures CoveredShare(content, {}) == 0.0
  {
    assert content.Keys * {} == {};
  }

  // ---------------------------------------------------- the lanes' rotations

  /** The pattern slateTarget follows for "for_you" when nothing is explored. */
  const FOR_YOU_PATTERN: seq<string> := [
    "best_bets", "best_bets", "revisit", "best_bets", "stretch",
    "new_arrivals", "best_bets", "stretch", "best_bets", "revisit",
    "best_bets", "stretch", "best_bets", "best_bets", "revisit",
    "best_bets", "stretch", "best_bets", "blind_spots", "dormant"]

  /** selectorsOf, beside "all". */
  function ExtraSelector(lane: string, c: Candidate): Option<Selector> {
    if lane == "for_you" then Some(Of("lane", c.lane))
    else if lane == "stretch" && c.dimension != "" then Some(Of("dimension", c.dimension))
    else if lane == "blind_spots" && c.facet != "" then Some(Of("facet", c.facet))
    else if lane == "dormant" && c.entity != "" then Some(Of("entity", c.entity))
    else None
  }

  /** byKey: of candidates with one key the last counts. */
  function ByKey(candidates: seq<Candidate>): map<Key, Candidate> {
    if candidates == [] then map[]
    else
      var last := candidates[|candidates| - 1];
      ByKey(candidates[..|candidates| - 1])[last.KeyOf() := last]
  }

  function ProblemFor(lane: string, candidates: seq<Candidate>, varied: bool): Problem {
    var byKey := ByKey(candidates);
    Problem(byKey, varied,
            map k | k in byKey && ExtraSelector(lane, byKey[k]).Some? :: ExtraSelector(lane, byKey[k]).value)
  }

  lemma {:induction false} ByKeyIsKeyed(candidates: seq<Candidate>)
    ensures forall k | k in ByKey(candidates) :: ByKey(candidates)[k].KeyOf() == k && ByKey(candidates)[k] in candidates
    ensures forall i | 0 <= i < |candidates| :: candidates[i].KeyOf() in ByKey(candidates)
  {
    if candidates != [] {
      var n := |candidates| - 1;
      ByKeyIsKeyed(candidates[..n]);
      forall i | 0 <= i < |candidates| ensures candidates[i].KeyOf() in ByKey(candidates) {
        if i < n { assert candidates[..n][i] == candidates[i]; }
      }
    }
  }

  /** The attribute a lane rotates through, "" where a candidate has none. */
  function Attribute(lane: string, c: Candidate): string {
    if lane == "stretch" then c.dimension else if lane == "blind_spots" then c.facet else c.entity
  }

  function AttributeKind(lane: string): string {
    if lane == "stretch" then "dimension" else if lane == "blind_spots" then "facet" else "entity"
  }

  ghost predicate HasAttribute(lane: string, candidates: seq<Candidate>, x: string) {
    x != "" && exists i :: 0 <= i < |candidates| && Attribute(lane, candidates[i]) == x
  }

  predicate Rotates(lane: string, varied: bool) {
    (lane == "stretch" && varied) || lane == "blind_spots" || lane == "dormant"
  }

  /** What the positions of a lane's ordering ask for: the lanes of the pattern, the
      distinct attribute values in ascending order, or nothing in particular. */
  ghost predicate IsRotation(lane: string, candidates: seq<Candidate>, varied: bool, rotation: seq<Selector>) {
    if lane == "for_you" then
      |rotation| == |FOR_YOU_PATTERN| && forall i | 0 <= i < |rotation| :: rotation[i] == Of("lane", FOR_YOU_PATTERN[i])
    else if Rotates(lane, varied) then
      exists values: seq<string> ::
        && GoOrder.StrictlyAscending(values)
        && (forall x :: x in values <==> HasAttribute(lane, candidates, x))
        && |rotation| == |values|
        && forall i | 0 <= i < |rotation| :: rotation[i] == Of(AttributeKind(lane), values[i])
    else rotation == []
  }

  lemma AttributeGrows(lane: string, candidates: seq<Candidate>, n: nat, x: string)
    requires n < |candidates|
    ensures HasAttribute(lane, candidates[..n + 1], x) <==>
            HasAttribute(lane, candidates[..n], x) || (x != "" && x == Attribute(lane, candidates[n]))
  {
    if HasAttribute(lane, candidates[..n], x) {
      var i :| 0 <= i < n && Attribute(lane, candidates[..n][i]) == x;
      assert candidates[..n + 1][i] == candidates[..n][i];
    }
    if x != "" && x == Attribute(lane, candidates[n]) {
      assert candidates[..n + 1][n] == candidates[n];
    }
    if HasAttribute(lane, candidates[..n + 1], x) {
      var i :| 0 <= i < n + 1 && Attribute(lane, candidates[..n + 1][i]) == x;
      if i < n { assert candidates[..n][i] == candidates[..n + 1][i]; }
    }
  }

  method RotationFor(lane: string, candidates: seq<Candidate>, varied: bool) returns (rotation: seq<Selector>)
    ensures IsRotation(lane, candidates, varied, rotation)
  {
    if lane == "for_you" {
      rotation := seq(|FOR_YOU_PATTERN|, i requires 0 <= i < |FOR_YOU_PATTERN| => Of("lane", FOR_YOU_PATTERN[i]));
    } else if Rotates(lane, varied) {
      var values: seq<string> := [];
      for i := 0 to |candidates|
        invariant forall x :: x in values <==> HasAttribute(lane, candidates[..i], x)
      {
        assert candidates[..i + 1] == candidates[..i] + [candidates[i]];
        forall x ensures HasAttribute(lane, candidates[..i + 1], x) <==>
                         HasAttribute(lane, candidates[..i], x) || (x != "" && x == Attribute(lane, candidates[i])) {
          AttributeGrows(lane, candidates, i, x);
        }
        if Attribute(lane, candidates[i]) != "" {
          values := values + [Attribute(lane, candidates[i])];
        }
      }
      assert candidates[..|candidates|] == candidates;
      values := GoOrder.SortedDistinct(values);
      rotation := seq(|values|, i requires 0 <= i < |values| => Of(AttributeKind(lane), values[i]));
    } else {
      rotation := [];
    }
  }

  /** buildOrdering. */
  method BuildOrdering(lane: string, candidates: seq<Candidate>, varied: bool) returns (ordered: seq<OrderingEntry>)
    ensures exists rotation ::
              && IsRotation(lane, candidates, varied, rotation)
              && ordered == NaiveOrdering(ProblemFor(lane, candidates, varied), rotation)
  {
    var p := ProblemFor(lane, candidates, varied);
    ByKeyIsKeyed(candidates);
    var rotation := RotationFor(lane, candidates, varied);
    ordered := Order(p, rotation);
  }

  lemma PickAt(p: Problem, rotation: seq<Selector>, i: nat)
    requires i < |p.Greedy(rotation, [])|
    ensures i < |NaiveOrdering(p, rotation)|
    ensures p.Greedy(rotation, [])[i] in p.byKey
            && NaiveOrdering(p, rotation)[i].candidate == p.byKey[p.Greedy(rotation, [])[i]]
  {
    hide Problem.Greedy, CoveredShare, Problem.Utility;
  }

  lemma KeyedScenes(p: Problem, candidates: seq<Candidate>, rotation: seq<Selector>)
    requires p.Valid()
    requires forall k | k in p.byKey :: p.byKey[k].KeyOf() == k && p.byKey[k] in candidates
    ensures var ordered := NaiveOrdering(p, rotation);
            && (forall i, j | 0 <= i < j < |ordered| :: ordered[i].candidate.sceneID != ordered[j].candidate.sceneID)
            && (forall i | 0 <= i < |ordered| :: ordered[i].candidate in candidates)
  {
    hide Problem.Greedy, EntryFor, Problem.Choice;
    GreedyListsEveryScene(p, rotation, []);
    var picks, ordered := p.Greedy(rotation, []), NaiveOrdering(p, rotation);
    forall i | 0 <= i < |ordered|
      ensures ordered[i].candidate in candidates && ordered[i].candidate.sceneID == picks[i].sceneID {
      PickAt(p, rotation, i);
      assert p.byKey[picks[i]].KeyOf() == picks[i];
    }
  }

  lemma EveryKeyedScene(p: Problem, c: Candidate, rotation: seq<Selector>) returns (i: nat)
    requires p.Valid() && c.KeyOf() in p.byKey
    ensures i < |NaiveOrdering(p, rotation)| && NaiveOrdering(p, rotation)[i].candidate.sceneID == c.sceneID
  {
    hide Problem.Greedy, EntryFor, Problem.Choice, NaiveOrdering;
    GreedyListsEveryScene(p, rotation, []);
    var picks := p.Greedy(rotation, []);
    assert c.sceneID in p.SceneIDs();
    var k :| k in picks && k.sceneID == c.sceneID;
    i :| 0 <= i < |picks| && picks[i] == k;
    PickAt(p, rotation, i);
    assert p.byKey[picks[i]].KeyOf() == picks[i];
  }

  /** Every scene of the candidates is listed exactly once. */
  lemma OrderingListsEveryScene(lane: string, candidates: seq<Candidate>, varied: bool, rotation: seq<Selector>)
    ensures var ordered := NaiveOrdering(ProblemFor(lane, candidates, varied), rotation);
            && (forall i, j | 0 <= i < j < |ordered| :: ordered[i].candidate.sceneID != ordered[j].candidate.sceneID)
            && (forall c | c in candidates ::
                exists i :: 0 <= i < |ordered| && ordered[i].candidate.sceneID == c.sceneID)
            && (forall i | 0 <= i < |ordered| :: ordered[i].candidate in candidates)
  {
    hide NaiveOrdering, ByKey, ExtraSelector;
    ByKeyIsKeyed(candidates);
    var p := ProblemFor(lane, candidates, varied);
    KeyedScenes(p, candidates, rotation);
    forall c | c in candidates
      ensures exists i ::
              0 <= i < |NaiveOrdering(p, rotation)| && NaiveOrdering(p, rotation)[i].candidate.sceneID == c.sceneID
    {
      var n :| 0 <= n < |candidates| && candidates[n] == c;
      var i := EveryKeyedScene(p, c, rotation);
    }
  }
}
