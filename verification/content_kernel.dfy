/** The sparse content-neighbor kernel: one pass over the non-zeros of a row fills
    similarity and shared-count cells that are never cleared between rows. */
module ContentKernel {
  import opened RealSums
  import opened NeighborSelect
  import GoOrder

  /** A scene's weight by feature name. */
  type Vector = map<string, real>

  // ------------------------------------------------------------ what is promised

  ghost function Dot(names: set<string>, a: Vector, b: Vector): real
    requires names <= a.Keys && names <= b.Keys
  {
    SumOver(Products(a, b), names)
  }

  function Products(a: Vector, b: Vector): Vector {
    map n | n in a && n in b :: Times(a[n], b[n])
  }

  /** The names two vectors share, and the cosine damped for few of them. */
  ghost function Shared(a: Vector, b: Vector): set<string> { a.Keys * b.Keys }

  ghost function Similarity(a: Vector, b: Vector, damping: nat -> real): real {
    Times(Dot(Shared(a, b), a, b), damping(|Shared(a, b)|))
  }

  function Weight(s: real, confidence: real): real { s * s * s * confidence }

  /** The labeled scenes, in id order: vector, confidence and id of each. */
  datatype Labeled = Labeled(ids: seq<string>, confidence: seq<real>, vectors: seq<Vector>) {
    ghost predicate Valid() {
      && |ids| == |confidence| == |vectors|
      && GoOrder.StrictlyAscending(ids)
    }
  }

  /** The labeled scene at `pos` is a neighbor candidate of the scene `self`. */
  ghost predicate Qualifies(labeled: Labeled, pos: nat, self: string, target: Vector, minimum: real,
                            damping: nat -> real)
    requires labeled.Valid() && pos < |labeled.ids|
  {
    && labeled.ids[pos] != self
    && Shared(target, labeled.vectors[pos]) != {}
    && Similarity(target, labeled.vectors[pos], damping) >= minimum
  }

  ghost function AsNeighbor(labeled: Labeled, pos: nat, target: Vector, damping: nat -> real): Neighbor
    requires labeled.Valid() && pos < |labeled.ids|
  {
    var s := Similarity(target, labeled.vectors[pos], damping);
    Neighbor(labeled.ids[pos], s, Weight(s, labeled.confidence[pos]))
  }

  /** The candidates among the first `n` labeled scenes. */
  ghost function Candidates(labeled: Labeled, n: nat, self: string, target: Vector, minimum: real,
                            damping: nat -> real): (r: seq<Neighbor>)
    requires labeled.Valid() && n <= |labeled.ids|
  {
    if n == 0 then []
    else
      Candidates(labeled, n - 1, self, target, minimum, damping)
      + if Qualifies(labeled, n - 1, self, target, minimum, damping)
        then [AsNeighbor(labeled, n - 1, target, damping)] else []
  }

  ghost function Neighbors(labeled: Labeled, self: string, target: Vector, count: nat, minimum: real,
                           damping: nat -> real): seq<Neighbor>
    requires labeled.Valid()
  {
    Top(count, Candidates(labeled, |labeled.ids|, self, target, minimum, damping))
  }

  lemma {:induction false} CandidatesAre(labeled: Labeled, n: nat, self: string, target: Vector, minimum: real,
                                         damping: nat -> real)
    requires labeled.Valid() && n <= |labeled.ids|
    ensures DistinctIDs(Candidates(labeled, n, self, target, minimum, damping))
    ensures forall x :: x in Candidates(labeled, n, self, target, minimum, damping) <==>
              exists pos :: 0 <= pos < n && Qualifies(labeled, pos, self, target, minimum, damping)
                            && x == AsNeighbor(labeled, pos, target, damping)
  {
    hide Qualifies, Similarity, Weight;
    if n > 0 {
      CandidatesAre(labeled, n - 1, self, target, minimum, damping);
      GoOrder.AscendingIsDistinct(labeled.ids);
      var before := Candidates(labeled, n - 1, self, target, minimum, damping);
      forall j | 0 <= j < |before| ensures before[j].id != labeled.ids[n - 1] {
        assert before[j] in before;
      }
    }
  }

  /** What a neighbor list says: ranked, made of candidates only, and a candidate that
      is not listed ranks after a full list. */
  lemma NeighborsMeaning(labeled: Labeled, self: string, target: Vector, count: nat, minimum: real,
                         damping: nat -> real)
    requires labeled.Valid()
    ensures var list := Neighbors(labeled, self, target, count, minimum, damping);
            && Ranked(list) && |list| <= count
            && (forall x | x in list :: exists pos ::
                  0 <= pos < |labeled.ids| && Qualifies(labeled, pos, self, target, minimum, damping)
                  && x == AsNeighbor(labeled, pos, target, damping))
            && forall pos | 0 <= pos < |labeled.ids| && Qualifies(labeled, pos, self, target, minimum, damping) ::
                 var x := AsNeighbor(labeled, pos, target, damping);
                 x in list || (|list| == count && forall y | y in list :: Better(y, x))
  {
    hide Qualifies, AsNeighbor, Better, Ranking, Candidates;
    var all := Candidates(labeled, |labeled.ids|, self, target, minimum, damping);
    CandidatesAre(labeled, |labeled.ids|, self, target, minimum, damping);
    RankingIsRanked(all);
    var ranking := Ranking(all);
    var list := Top(count, all);
    forall x | x in list ensures x in all { assert x in ranking; }
    forall x | x in all ensures x in list || (|list| == count && forall y | y in list :: Better(y, x)) {
      assert x in ranking;
      var i :| 0 <= i < |ranking| && ranking[i] == x;
      if i >= |list| { assert forall j | 0 <= j < |list| :: list[j] == ranking[j]; }
    }
  }

  // ------------------------------------------------------------ rows and columns

  datatype SparseRow = SparseRow(keys: seq<nat>, values: seq<real>)

  datatype Entry = Entry(pos: nat, v: real)

  /** `row` holds the vector's entries, under the column numbers of their names. */
  ghost predicate IsRow(row: SparseRow, vector: Vector, names: seq<string>) {
    && |row.keys| == |row.values|
    && (forall k | 0 <= k < |row.keys| :: RowEntry(row.keys[k], row.values[k], vector, names))
    && (forall j, k | 0 <= j < k < |row.keys| :: row.keys[j] != row.keys[k])
    && (forall name | name in vector ::
        exists k :: 0 <= k < |row.keys| && row.keys[k] < |names| && names[row.keys[k]] == name)
  }

  ghost predicate RowEntry(key: nat, value: real, vector: Vector, names: seq<string>) {
    key < |names| && names[key] in vector && vector[names[key]] == value
  }

  /** `column` lists the positions whose vector has `name`, each once, in order. */
  ghost predicate IsColumn(column: seq<Entry>, name: string, vectors: seq<Vector>) {
    && (forall e | 0 <= e < |column| :: ColumnEntry(column[e], name, vectors))
    && (forall d, e | 0 <= d < e < |column| :: column[d].pos < column[e].pos)
    && (forall pos | 0 <= pos < |vectors| && name in vectors[pos] ::
        exists e :: 0 <= e < |column| && column[e].pos == pos)
  }

  ghost predicate ColumnEntry(entry: Entry, name: string, vectors: seq<Vector>) {
    entry.pos < |vectors| && name in vectors[entry.pos] && vectors[entry.pos][name] == entry.v
  }

  ghost predicate AreColumns(columns: seq<seq<Entry>>, names: seq<string>, vectors: seq<Vector>) {
    && |columns| == |names|
    && forall c | 0 <= c < |names| :: IsColumn(columns[c], names[c], vectors)
  }

  /** Each name has its place. */
  ghost predicate IsIndex(index: map<string, nat>, names: seq<string>) {
    && (forall i | 0 <= i < |names| :: names[i] in index && index[names[i]] == i)
    && forall name | name in index :: index[name] < |names| && names[index[name]] == name
  }

  method NameIndex(names: seq<string>) returns (index: map<string, nat>)
    requires GoOrder.StrictlyAscending(names)
    ensures IsIndex(index, names)
  {
    hide GoOrder.Less;
    GoOrder.AscendingIsDistinct(names);
    index := map[];
    for i := 0 to |names|
      invariant forall j | 0 <= j < i :: names[j] in index && index[names[j]] == j
      invariant forall name | name in index :: index[name] < i && names[index[name]] == name
    {
      index := index[names[i] := i];
    }
  }

  method SparseFromMap(vector: Vector, index: map<string, nat>, ghost names: seq<string>) returns (row: SparseRow)
    requires IsIndex(index, names) && vector.Keys <= index.Keys
    ensures IsRow(row, vector, names)
  {
    hide GoOrder.Less;
    var own := GoOrder.SortedKeys(vector.Keys);
    GoOrder.AscendingIsDistinct(own);
    var keys: seq<nat>, values: seq<real> := [], [];
    for i := 0 to |own|
      invariant |keys| == |values| == i
      invariant forall k | 0 <= k < i :: own[k] in vector && keys[k] == index[own[k]] && values[k] == vector[own[k]]
    {
      assert own[i] in own;
      keys := keys + [index[own[i]]];
      values := values + [vector[own[i]]];
    }
    row := SparseRow(keys, values);
    forall name | name in vector ensures exists k :: 0 <= k < |keys| && keys[k] < |names| && names[keys[k]] == name {
      assert name in own;
      var k :| 0 <= k < |own| && own[k] == name;
      assert names[keys[k]] == name;
    }
    forall j, k | 0 <= j < k < |keys| ensures keys[j] != keys[k] {
      assert own[j] != own[k];
    }
  }

  /** Appends one labeled row to the columns of its keys. */
  method AddLabeledRow(columns: seq<seq<Entry>>, row: SparseRow, pos: nat, ghost vector: Vector,
                       ghost names: seq<string>, ghost vectors: seq<Vector>)
    returns (columns': seq<seq<Entry>>)
    requires GoOrder.StrictlyAscending(names)
    requires AreColumns(columns, names, vectors) && IsRow(row, vector, names) && pos == |vectors|
    ensures AreColumns(columns', names, vectors + [vector])
  {
    hide GoOrder.Less, IsColumn, RowEntry;
    columns' := columns;
    for k := 0 to |row.keys|
      invariant |columns'| == |columns|
      invariant forall c | 0 <= c < |columns| && c !in row.keys[..k] :: columns'[c] == columns[c]
      invariant forall j | 0 <= j < k ::
                row.keys[j] < |columns| && columns'[row.keys[j]] == columns[row.keys[j]] + [Entry(pos, row.values[j])]
    {
      hide IsRow;
      var key := row.keys[k];
      KeyOfRow(row, vector, names, k);
      columns' := columns'[key := columns'[key] + [Entry(pos, row.values[k])]];
    }
    assert row.keys[..|row.keys|] == row.keys;
    forall c | 0 <= c < |names| ensures IsColumn(columns'[c], names[c], vectors + [vector]) {
      ColumnGrows(columns, columns', row, vector, names, vectors, c);
    }
  }

  lemma KeyOfRow(row: SparseRow, vector: Vector, names: seq<string>, k: nat)
    requires IsRow(row, vector, names) && k < |row.keys|
    ensures row.keys[k] < |names| && row.keys[k] !in row.keys[..k]
  {
    assert RowEntry(row.keys[k], row.values[k], vector, names);
  }

  lemma ColumnGrows(columns: seq<seq<Entry>>, columns': seq<seq<Entry>>, row: SparseRow, vector: Vector,
                    names: seq<string>, vectors: seq<Vector>, c: nat)
    requires AreColumns(columns, names, vectors) && IsRow(row, vector, names)
    requires |columns'| == |columns| && c < |names|
    requires forall c | 0 <= c < |columns| && c !in row.keys :: columns'[c] == columns[c]
    requires forall j | 0 <= j < |row.keys| ::
             row.keys[j] < |columns|
               && columns'[row.keys[j]] == columns[row.keys[j]] + [Entry(|vectors|, row.values[j])]
    requires GoOrder.StrictlyAscending(names)
    ensures IsColumn(columns'[c], names[c], vectors + [vector])
  {
    hide GoOrder.Less, IsColumn;
    GoOrder.AscendingIsDistinct(names);
    if c in row.keys {
      var j :| 0 <= j < |row.keys| && row.keys[j] == c;
      assert RowEntry(row.keys[j], row.values[j], vector, names);
      ColumnTakes(columns[c], names[c], vectors, vector);
    } else {
      UnusedKey(row, vector, names, c);
      ColumnStays(columns[c], names[c], vectors, vector);
    }
  }

  lemma UnusedKey(row: SparseRow, vector: Vector, names: seq<string>, c: nat)
    requires IsRow(row, vector, names) && c < |names|
    requires forall i, j | 0 <= i < j < |names| :: names[i] != names[j]
    ensures names[c] in vector ==> c in row.keys
  {
    if names[c] in vector {
      var k :| 0 <= k < |row.keys| && row.keys[k] < |names| && names[row.keys[k]] == names[c];
    }
  }

  lemma ColumnTakes(column: seq<Entry>, name: string, vectors: seq<Vector>, vector: Vector)
    requires IsColumn(column, name, vectors) && name in vector
    ensures IsColumn(column + [Entry(|vectors|, vector[name])], name, vectors + [vector])
  {
    var more, entries := vectors + [vector], column + [Entry(|vectors|, vector[name])];
    forall e | 0 <= e < |entries| ensures ColumnEntry(entries[e], name, more) {
      assert e < |column| ==> ColumnEntry(column[e], name, vectors);
    }
    assert entries[|column|].pos == |vectors|;
    forall pos | 0 <= pos < |more| && name in more[pos]
      ensures exists e :: 0 <= e < |entries| && entries[e].pos == pos {
      if pos < |vectors| {
        var e :| 0 <= e < |column| && column[e].pos == pos;
        assert entries[e].pos == pos;
      }
    }
  }

  lemma ColumnStays(column: seq<Entry>, name: string, vectors: seq<Vector>, vector: Vector)
    requires IsColumn(column, name, vectors) && name !in vector
    ensures IsColumn(column, name, vectors + [vector])
  {
    var more := vectors + [vector];
    forall e | 0 <= e < |column| ensures ColumnEntry(column[e], name, more) {
      assert ColumnEntry(column[e], name, vectors);
    }
  }

  method BuildColumns(vectors: seq<Vector>, index: map<string, nat>, ghost names: seq<string>)
    returns (columns: seq<seq<Entry>>)
    requires GoOrder.StrictlyAscending(names) && IsIndex(index, names) && |index| == |names|
    requires forall pos | 0 <= pos < |vectors| :: vectors[pos].Keys <= index.Keys
    ensures AreColumns(columns, names, vectors)
  {
    hide GoOrder.Less, IsIndex, IsRow;
    columns := seq(|index|, _ => []);
    for pos := 0 to |vectors|
      invariant AreColumns(columns, names, vectors[..pos])
    {
      var row := SparseFromMap(vectors[pos], index, names);
      columns := AddLabeledRow(columns, row, pos, vectors[pos], names, vectors[..pos]);
      assert vectors[..pos] + [vectors[pos]] == vectors[..pos + 1];
    }
    assert vectors[..|vectors|] == vectors;
  }

  // ------------------------------------------------------------ accumulation

  /** The cell of one labeled scene once the names in `done` of the target are
      handled: it carries the row's stamp exactly when a shared name was met. */
  ghost predicate Cell(stamped: bool, sim: real, shared: nat, done: set<string>, target: Vector, vector: Vector) {
    var common := done * vector.Keys;
    && done <= target.Keys
    && (stamped <==> common != {})
    && (stamped ==> sim == Dot(common, target, vector) && shared == |common|)
  }

  lemma TouchCell(stamped: bool, sim: real, shared: nat, done: set<string>, name: string, target: Vector,
                  vector: Vector)
    requires Cell(stamped, sim, shared, done, target, vector)
    requires name in target && name in vector && name !in done
    ensures var product := Times(target[name], vector[name]);
            Cell(true, if stamped then sim + product else product, if stamped then shared + 1 else 1,
                 done + {name}, target, vector)
  {
    hide Times;
    var common := done * vector.Keys;
    var more := (done + {name}) * vector.Keys;
    assert more == common + {name} && more - {name} == common;
    SumOverTakesOut(Products(target, vector), more, name);
    if !stamped { assert Dot(common, target, vector) == 0.0; }
  }

  lemma SkipCell(stamped: bool, sim: real, shared: nat, done: set<string>, name: string, target: Vector, vector: Vector)
    requires Cell(stamped, sim, shared, done, target, vector)
    requires name in target && name !in vector
    ensures Cell(stamped, sim, shared, done + {name}, target, vector)
  {
    assert (done + {name}) * vector.Keys == done * vector.Keys;
  }

  /** The accumulators of one worker. */
  class Cells {
    const sims: array<real>
    const shared: array<nat>
    const stamps: array<nat>

    ghost predicate Valid(n: nat) {
      sims.Length == shared.Length == stamps.Length == n && shared != stamps
    }

    /** Cell `pos` after the names in `done`. */
    ghost predicate At(pos: nat, stamp: nat, done: set<string>, target: Vector, vector: Vector)
      requires pos < sims.Length && pos < shared.Length && pos < stamps.Length
      reads sims, shared, stamps
    {
      Cell(stamps[pos] == stamp, sims[pos], shared[pos], done, target, vector)
    }

    constructor (n: nat)
      ensures Valid(n) && fresh(sims) && fresh(shared) && fresh(stamps)
      ensures forall pos | 0 <= pos < n :: stamps[pos] == 0
    {
      sims := new real[n](_ => 0.0);
      shared := new nat[n](_ => 0);
      stamps := new nat[n](_ => 0);
    }

    /** One entry of a column. */
    method Touch(entry: Entry, value: real, stamp: nat)
      requires Valid(sims.Length) && entry.pos < sims.Length
      modifies sims, shared, stamps
      ensures var product, stamped := Times(value, entry.v), old(stamps[entry.pos]) == stamp;
              && sims[..] == old(sims[..])[entry.pos := if stamped then old(sims[entry.pos]) + product else product]
              && shared[..] == old(shared[..])[entry.pos := if stamped then old(shared[entry.pos]) + 1 else 1]
      ensures stamps[..] == old(stamps[..])[entry.pos := stamp]
    {
      var pos := entry.pos;
      if stamps[pos] != stamp {
        stamps[pos] := stamp;
        sims[pos] := Times(value, entry.v);
        shared[pos] := 1;
      } else {
        sims[pos] := sims[pos] + Times(value, entry.v);
        shared[pos] := shared[pos] + 1;
      }
    }
  }

  /** Every labeled scene's cell once the names in `done` are handled. */
  ghost predicate Cover(sims: seq<real>, shared: seq<nat>, stamps: seq<nat>, stamp: nat, done: set<string>,
                        target: Vector, vectors: seq<Vector>) {
    && |sims| == |shared| == |stamps| == |vectors|
    && forall pos | 0 <= pos < |vectors| ::
       Cell(stamps[pos] == stamp, sims[pos], shared[pos], done, target, vectors[pos])
  }

  ghost predicate Met(column: seq<Entry>, e: nat, pos: nat)
    requires e <= |column|
  {
    exists d :: 0 <= d < e && column[d].pos == pos
  }

  /** A column half read: the positions of its first `e` entries have the name handled. */
  ghost predicate Partly(sims: seq<real>, shared: seq<nat>, stamps: seq<nat>, stamp: nat, done: set<string>,
                         name: string, column: seq<Entry>, e: nat, target: Vector, vectors: seq<Vector>)
    requires e <= |column|
  {
    && |sims| == |shared| == |stamps| == |vectors|
    && forall pos | 0 <= pos < |vectors| ::
         Cell(stamps[pos] == stamp, sims[pos], shared[pos],
              if Met(column, e, pos) then done + {name} else done, target, vectors[pos])
  }

  lemma TouchKeepsPartly(sims: seq<real>, shared: seq<nat>, stamps: seq<nat>, stamp: nat, done: set<string>,
                         name: string, column: seq<Entry>, e: nat, target: Vector, vectors: seq<Vector>)
    requires e < |column| && IsColumn(column, name, vectors)
    requires name in target && name !in done
    requires Partly(sims, shared, stamps, stamp, done, name, column, e, target, vectors)
    ensures var pos, product := column[e].pos, Times(target[name], column[e].v);
            && pos < |vectors|
            && Partly(sims[pos := if stamps[pos] == stamp then sims[pos] + product else product],
                      shared[pos := if stamps[pos] == stamp then shared[pos] + 1 else 1],
                      stamps[pos := stamp], stamp, done, name, column, e + 1, target, vectors)
  {
    hide Cell, Times, IsColumn;
    var touched := column[e].pos;
    ColumnSays(column, name, vectors, e);
    forall pos | 0 <= pos < |vectors| ensures Met(column, e + 1, pos) <==> Met(column, e, pos) || pos == touched {
      assert column[e].pos == touched;
    }
    TouchCell(stamps[touched] == stamp, sims[touched], shared[touched], done, name, target, vectors[touched]);
  }

  lemma ColumnSays(column: seq<Entry>, name: string, vectors: seq<Vector>, e: nat)
    requires e < |column| && IsColumn(column, name, vectors)
    ensures column[e].pos < |vectors| && !Met(column, e, column[e].pos)
    ensures name in vectors[column[e].pos] && vectors[column[e].pos][name] == column[e].v
  {
    assert ColumnEntry(column[e], name, vectors);
  }

  lemma ColumnRead(sims: seq<real>, shared: seq<nat>, stamps: seq<nat>, stamp: nat, done: set<string>, name: string,
                   column: seq<Entry>, target: Vector, vectors: seq<Vector>)
    requires IsColumn(column, name, vectors) && name in target
    requires Partly(sims, shared, stamps, stamp, done, name, column, |column|, target, vectors)
    ensures Cover(sims, shared, stamps, stamp, done + {name}, target, vectors)
  {
    hide Cell;
    forall pos | 0 <= pos < |vectors|
      ensures Cell(stamps[pos] == stamp, sims[pos], shared[pos], done + {name}, target, vectors[pos]) {
      if !Met(column, |column|, pos) {
        SkipCell(stamps[pos] == stamp, sims[pos], shared[pos], done, name, target, vectors[pos]);
      }
    }
  }

  /** Reads one column into the cells. */
  method AddColumn(cells: Cells, column: seq<Entry>, value: real, stamp: nat, ghost done: set<string>,
                   ghost name: string, ghost target: Vector, ghost vectors: seq<Vector>)
    requires cells.Valid(|vectors|) && IsColumn(column, name, vectors)
    requires name in target && target[name] == value && name !in done
    requires Cover(cells.sims[..], cells.shared[..], cells.stamps[..], stamp, done, target, vectors)
    requires forall pos | 0 <= pos < |vectors| :: cells.stamps[pos] <= stamp
    modifies cells.sims, cells.shared, cells.stamps
    ensures Cover(cells.sims[..], cells.shared[..], cells.stamps[..], stamp, done + {name}, target, vectors)
    ensures forall pos | 0 <= pos < |vectors| :: cells.stamps[pos] <= stamp
  {
    hide Cell, IsColumn, Times;
    for e := 0 to |column|
      invariant Partly(cells.sims[..], cells.shared[..], cells.stamps[..], stamp, done, name, column, e, target,
                       vectors)
      invariant forall pos | 0 <= pos < |vectors| :: cells.stamps[pos] <= stamp
    {
      hide Partly;
      TouchKeepsPartly(cells.sims[..], cells.shared[..], cells.stamps[..], stamp, done, name, column, e, target,
                       vectors);
      cells.Touch(column[e], value, stamp);
    }
    ColumnRead(cells.sims[..], cells.shared[..], cells.stamps[..], stamp, done, name, column, target, vectors);
  }

  /** The names of a row's first `k` entries. */
  ghost function NamesOf(row: SparseRow, names: seq<string>, k: nat): set<string>
    requires k <= |row.keys| && forall j | 0 <= j < k :: row.keys[j] < |names|
  {
    set j | 0 <= j < k :: names[row.keys[j]]
  }

  lemma NextName(row: SparseRow, vector: Vector, names: seq<string>, k: nat)
    requires IsRow(row, vector, names) && k < |row.keys|
    requires forall i, j | 0 <= i < j < |names| :: names[i] != names[j]
    ensures forall j | 0 <= j < |row.keys| :: row.keys[j] < |names|
    ensures names[row.keys[k]] in vector && vector[names[row.keys[k]]] == row.values[k]
    ensures names[row.keys[k]] !in NamesOf(row, names, k)
    ensures NamesOf(row, names, k + 1) == NamesOf(row, names, k) + {names[row.keys[k]]}
  {
    forall j | 0 <= j < |row.keys| ensures row.keys[j] < |names| {
      assert RowEntry(row.keys[j], row.values[j], vector, names);
    }
    assert RowEntry(row.keys[k], row.values[k], vector, names);
  }

  lemma AllNames(row: SparseRow, vector: Vector, names: seq<string>)
    requires IsRow(row, vector, names)
    ensures forall j | 0 <= j < |row.keys| :: row.keys[j] < |names|
    ensures NamesOf(row, names, |row.keys|) == vector.Keys
  {
    forall j | 0 <= j < |row.keys| ensures row.keys[j] < |names| && names[row.keys[j]] in vector {
      assert RowEntry(row.keys[j], row.values[j], vector, names);
    }
  }

  /** One row into the cells, whatever older rows left in them. */
  method Accumulate(cells: Cells, row: SparseRow, columns: seq<seq<Entry>>, stamp: nat, ghost names: seq<string>,
                    ghost target: Vector, ghost vectors: seq<Vector>)
    requires cells.Valid(|vectors|) && AreColumns(columns, names, vectors) && IsRow(row, target, names)
    requires GoOrder.StrictlyAscending(names)
    requires forall pos | 0 <= pos < |vectors| :: cells.stamps[pos] < stamp
    modifies cells.sims, cells.shared, cells.stamps
    ensures Cover(cells.sims[..], cells.shared[..], cells.stamps[..], stamp, target.Keys, target, vectors)
    ensures forall pos | 0 <= pos < |vectors| :: cells.stamps[pos] <= stamp
  {
    hide GoOrder.Less, IsColumn, IsRow, NamesOf;
    GoOrder.AscendingIsDistinct(names);
    AllNames(row, target, names);
    StaleCells(cells.sims[..], cells.shared[..], cells.stamps[..], stamp, target, vectors);
    RowShape(row, target, names);
    for k := 0 to |row.keys|
      invariant Cover(cells.sims[..], cells.shared[..], cells.stamps[..], stamp, NamesOf(row, names, k), target,
                      vectors)
      invariant forall pos | 0 <= pos < |vectors| :: cells.stamps[pos] <= stamp
    {
      hide Cover;
      NextName(row, target, names, k);
      AddColumn(cells, columns[row.keys[k]], row.values[k], stamp, NamesOf(row, names, k), names[row.keys[k]], target,
                vectors);
    }
  }

  lemma StaleCells(sims: seq<real>, shared: seq<nat>, stamps: seq<nat>, stamp: nat, target: Vector,
                   vectors: seq<Vector>)
    requires |sims| == |shared| == |stamps| == |vectors|
    requires forall pos | 0 <= pos < |stamps| :: stamps[pos] < stamp
    ensures Cover(sims, shared, stamps, stamp, {}, target, vectors)
  {
  }

  lemma RowShape(row: SparseRow, vector: Vector, names: seq<string>)
    requires IsRow(row, vector, names)
    ensures |row.keys| == |row.values|
    ensures NamesOf(row, names, 0) == {}
  {
  }

  // ------------------------------------------------------------ selection

  /** `own` is the row's position among the labeled scenes, or none of them. */
  ghost predicate IsOwn(own: int, self: string, ids: seq<string>) {
    forall pos | 0 <= pos < |ids| :: ids[pos] == self <==> own == pos
  }

  /** Streams the stamped cells through the bounded heap. */
  method Select(sims: seq<real>, shared: seq<nat>, stamps: seq<nat>, stamp: nat, own: int, labeled: Labeled,
                count: nat, minimum: real, damping: nat -> real, ghost self: string, ghost target: Vector)
    returns (out: seq<Neighbor>)
    requires labeled.Valid() && count >= 1 && IsOwn(own, self, labeled.ids)
    requires Cover(sims, shared, stamps, stamp, target.Keys, target, labeled.vectors)
    ensures out == Neighbors(labeled, self, target, count, minimum, damping)
  {
    hide Better, Ranking, Insert, Qualifies, AsNeighbor, Times, GoOrder.Less, Cover;
    assert Candidates(labeled, 0, self, target, minimum, damping) == [];
    CoverSize(sims, shared, stamps, stamp, target, labeled.vectors);
    var selected: multiset<Neighbor> := multiset{};
    for pos := 0 to |labeled.ids|
      invariant selected == multiset(Top(count, Candidates(labeled, pos, self, target, minimum, damping)))
    {
      ghost var seen := Candidates(labeled, pos, self, target, minimum, damping);
      CandidatesAre(labeled, pos + 1, self, target, minimum, damping);
      CellTells(sims, shared, stamps, stamp, own, labeled, pos, minimum, damping, self, target);
      assert Candidates(labeled, pos + 1, self, target, minimum, damping)
          == if Qualifies(labeled, pos, self, target, minimum, damping)
            then seen + [AsNeighbor(labeled, pos, target, damping)] else seen;
      if stamps[pos] == stamp && pos != own {
        var s := Times(sims[pos], damping(shared[pos]));
        if s >= minimum {
          var candidate := Neighbor(labeled.ids[pos], s, Weight(s, labeled.confidence[pos]));
          selected := Offer(selected, count, candidate, seen);
        }
      }
    }
    ghost var all := Candidates(labeled, |labeled.ids|, self, target, minimum, damping);
    CandidatesAre(labeled, |labeled.ids|, self, target, minimum, damping);
    RankingIsRanked(all);
    out := Drain(selected, Top(count, all));
  }

  lemma CoverSize(sims: seq<real>, shared: seq<nat>, stamps: seq<nat>, stamp: nat, target: Vector, vectors: seq<Vector>)
    requires Cover(sims, shared, stamps, stamp, target.Keys, target, vectors)
    ensures |sims| == |shared| == |stamps| == |vectors|
  {
  }

  /** A finished cell decides whether its scene qualifies, and holds its numbers. */
  lemma CellTells(sims: seq<real>, shared: seq<nat>, stamps: seq<nat>, stamp: nat, own: int, labeled: Labeled, pos: nat,
                  minimum: real, damping: nat -> real, self: string, target: Vector)
    requires labeled.Valid() && IsOwn(own, self, labeled.ids) && pos < |labeled.ids|
    requires Cover(sims, shared, stamps, stamp, target.Keys, target, labeled.vectors)
    ensures |sims| == |shared| == |stamps| == |labeled.vectors|
    ensures Qualifies(labeled, pos, self, target, minimum, damping) <==>
              stamps[pos] == stamp && pos != own && Times(sims[pos], damping(shared[pos])) >= minimum
    ensures stamps[pos] == stamp ==>
              var s := Times(sims[pos], damping(shared[pos]));
              AsNeighbor(labeled, pos, target, damping)
                == Neighbor(labeled.ids[pos], s, Weight(s, labeled.confidence[pos]))
  {
    hide Times, GoOrder.Less, Dot, Weight;
    assert Cell(stamps[pos] == stamp, sims[pos], shared[pos], target.Keys, target, labeled.vectors[pos]);
  }

  // ------------------------------------------------------------ rows, workers and chunks

  /** Row `i` is the sparse form of the target `i` and knows its own position. */
  ghost predicate AreRows(rows: seq<SparseRow>, own: seq<int>, selves: seq<string>, targets: seq<Vector>,
                          names: seq<string>, ids: seq<string>) {
    && |rows| == |own| == |selves| == |targets|
    && forall i | 0 <= i < |rows| :: IsRow(rows[i], targets[i], names) && IsOwn(own[i], selves[i], ids)
  }

  /** One goroutine: rows start..end with one set of cells, results into its own slots. */
  method RunChunk(start: nat, end: nat, rows: seq<SparseRow>, own: seq<int>, columns: seq<seq<Entry>>, labeled: Labeled,
                  count: nat, minimum: real, damping: nat -> real, results: array<seq<Neighbor>>,
                  ghost selves: seq<string>, ghost targets: seq<Vector>, ghost names: seq<string>)
    requires start <= end <= |rows| == results.Length && count >= 1
    requires labeled.Valid() && GoOrder.StrictlyAscending(names)
    requires AreColumns(columns, names, labeled.vectors) && AreRows(rows, own, selves, targets, names, labeled.ids)
    modifies results
    ensures forall i | start <= i < end ::
            results[i] == Neighbors(labeled, selves[i], targets[i], count, minimum, damping)
    ensures forall i | 0 <= i < results.Length && !(start <= i < end) :: results[i] == old(results[i])
  {
    hide AreColumns, IsRow, IsOwn, Cover, Neighbors, GoOrder.Less;
    var cells := new Cells(|labeled.confidence|);
    var stamp: nat := 0;
    for i := start to end
      invariant cells.Valid(|labeled.vectors|) && fresh(cells.sims) && fresh(cells.shared) && fresh(cells.stamps)
      invariant forall pos | 0 <= pos < |labeled.vectors| :: cells.stamps[pos] <= stamp
      invariant forall j | start <= j < i ::
                results[j] == Neighbors(labeled, selves[j], targets[j], count, minimum, damping)
      invariant forall j | 0 <= j < results.Length && !(start <= j < i) :: results[j] == old(results[j])
    {
      stamp := stamp + 1;
      Accumulate(cells, rows[i], columns, stamp, names, targets[i], labeled.vectors);
      var out := Select(cells.sims[..], cells.shared[..], cells.stamps[..], stamp, own[i], labeled, count, minimum,
                        damping, selves[i], targets[i]);
      results[i] := out;
    }
  }

  function ChunkSize(n: nat, threads: nat): nat
    requires threads >= 1
  {
    (n + threads - 1) / threads
  }

  /** Where worker `w` starts. */
  function Start(w: nat, chunk: nat): nat { w * chunk }

  function End(w: nat, chunk: nat, n: nat): (r: nat)
    ensures r <= n
  {
    if w * chunk + chunk < n then w * chunk + chunk else n
  }

  /** The worker that has row `i`. */
  ghost function WorkerOf(i: nat, chunk: nat): nat
    requires chunk >= 1
  {
    i / chunk
  }

  /** The chunks are a partition: each row is in the chunk of exactly one worker. */
  lemma ChunksPartition(n: nat, threads: nat)
    requires 1 <= threads <= n
    ensures ChunkSize(n, threads) >= 1
    ensures forall i | 0 <= i < n :: WorkerOf(i, ChunkSize(n, threads)) < threads
    ensures forall w: nat, i | 0 <= i < n ::
              WorkerOf(i, ChunkSize(n, threads)) == w <==>
                Start(w, ChunkSize(n, threads)) <= i < End(w, ChunkSize(n, threads), n)
  {
    var c := ChunkSize(n, threads);
    assert c * threads >= n;
    forall i | 0 <= i < n ensures WorkerOf(i, c) < threads { DivisionBelow(i, c, threads); }
    forall w: nat, i | 0 <= i < n
      ensures WorkerOf(i, c) == w <==> Start(w, c) <= i < End(w, c, n) { DivisionIs(i, c, w); }
  }

  lemma DivisionBelow(i: nat, c: nat, threads: nat)
    requires c >= 1 && i < c * threads
    ensures i / c < threads
  {
    var q := i / c;
    assert i == q * c + i % c;
    assert q >= threads ==> q * c >= threads * c;
  }

  lemma DivisionIs(i: nat, c: nat, w: nat)
    requires c >= 1
    ensures i / c == w <==> w * c <= i < w * c + c
  {
    var q := i / c;
    assert i == q * c + i % c;
    assert q < w ==> (q + 1) * c <= w * c;
    assert w < q ==> (w + 1) * c <= q * c;
  }

  /** The whole kernel. The goroutines run in the order `turns` tells, whatever it is. */
  method Kernel(rows: seq<SparseRow>, own: seq<int>, columns: seq<seq<Entry>>, labeled: Labeled,
                count: nat, minimum: real, damping: nat -> real, threads: nat, turns: seq<nat>,
                ghost selves: seq<string>, ghost targets: seq<Vector>, ghost names: seq<string>)
    returns (out: seq<seq<Neighbor>>)
    requires count >= 1 && threads >= 1
    requires forall w :: 0 <= w < threads ==> w in turns
    requires labeled.Valid() && GoOrder.StrictlyAscending(names)
    requires AreColumns(columns, names, labeled.vectors) && AreRows(rows, own, selves, targets, names, labeled.ids)
    ensures |out| == |rows|
    ensures forall i | 0 <= i < |rows| :: out[i] == Neighbors(labeled, selves[i], targets[i], count, minimum, damping)
  {
    hide AreColumns, IsRow, IsOwn, Neighbors, GoOrder.Less, GoOrder.StrictlyAscending, ChunkSize, Start, End, WorkerOf,
      Labeled.Valid;
    var n := |rows|;
    if n == 0 { return []; }
    var used := if threads > n then n else threads;
    var chunk := ChunkSize(n, used);
    ChunksPartition(n, used);
    ghost var wanted :=
      seq(n, i requires 0 <= i < n => Neighbors(labeled, selves[i], targets[i], count, minimum, damping));
    var results := new seq<Neighbor>[n](_ => []);
    for t := 0 to |turns|
      invariant forall i | 0 <= i < n && WorkerOf(i, chunk) in turns[..t] :: results[i] == wanted[i]
    {
      var start, end := Start(turns[t], chunk), End(turns[t], chunk, n);
      if turns[t] < used && start < end {
        RunChunk(start, end, rows, own, columns, labeled, count, minimum, damping, results, selves, targets, names);
      }
    }
    assert turns[..|turns|] == turns;
    out := results[..];
  }

  // ------------------------------------------------------------ from preference vectors to evidence

  datatype Label = Label(outcome: real, confidence: real)

  datatype Evidence = Evidence(neighbor: Neighbor, outcome: real)

  /** The labels of scenes that have a vector, in id order. */
  ghost predicate IsLabeled(labeled: Labeled, preference: map<string, Vector>, labels: map<string, Label>) {
    && labeled.Valid()
    && (forall pos | 0 <= pos < |labeled.ids| :: var id := labeled.ids[pos];
          id in preference && id in labels && labeled.vectors[pos] == preference[id]
            && labeled.confidence[pos] == labels[id].confidence)
    && forall id | id in preference && id in labels :: id in labeled.ids
  }

  method FeatureNames(preference: map<string, Vector>) returns (names: seq<string>)
    ensures GoOrder.StrictlyAscending(names)
    ensures forall id | id in preference :: forall name | name in preference[id] :: name in names
  {
    hide GoOrder.Less;
    var seen: set<string> := {};
    var todo := preference.Keys;
    while todo != {}
      invariant forall id | id in preference && id !in todo :: preference[id].Keys <= seen
    {
      var id :| id in todo;
      seen := seen + preference[id].Keys;
      todo := todo - {id};
    }
    names := GoOrder.SortedKeys(seen);
  }

  method LabeledScenes(preference: map<string, Vector>, labels: map<string, Label>) returns (labeled: Labeled)
    ensures IsLabeled(labeled, preference, labels)
  {
    hide GoOrder.Less;
    var ids := GoOrder.SortedKeys(labels.Keys * preference.Keys);
    var confidence: seq<real>, vectors: seq<Vector> := [], [];
    for pos := 0 to |ids|
      invariant |confidence| == |vectors| == pos
      invariant forall p | 0 <= p < pos :: ids[p] in preference && ids[p] in labels
                                           && vectors[p] == preference[ids[p]]
                                              && confidence[p] == labels[ids[p]].confidence
    {
      assert ids[pos] in ids;
      confidence := confidence + [labels[ids[pos]].confidence];
      vectors := vectors + [preference[ids[pos]]];
    }
    labeled := Labeled(ids, confidence, vectors);
  }

  /** A scene's position among the labeled ones, -1 when it has none. */
  method OwnPosition(scene: string, index: map<string, nat>, ids: seq<string>) returns (own: int)
    requires IsIndex(index, ids)
    ensures IsOwn(own, scene, ids)
  {
    own := if scene in index then index[scene] else -1;
  }

  /** Every scene's row and own position. */
  method TargetRows(scenes: seq<string>, preference: map<string, Vector>, index: map<string, nat>,
                    positions: map<string, nat>, ids: seq<string>, ghost names: seq<string>, ghost targets: seq<Vector>)
    returns (rows: seq<SparseRow>, own: seq<int>)
    requires IsIndex(index, names) && IsIndex(positions, ids) && |targets| == |scenes|
    requires forall i | 0 <= i < |scenes| ::
             scenes[i] in preference && preference[scenes[i]].Keys <= index.Keys && targets[i] == preference[scenes[i]]
    ensures AreRows(rows, own, scenes, targets, names, ids)
  {
    hide IsIndex, IsRow, IsOwn;
    rows, own := [], [];
    for i := 0 to |scenes|
      invariant |rows| == |own| == i
      invariant forall j | 0 <= j < i :: IsRow(rows[j], targets[j], names) && IsOwn(own[j], scenes[j], ids)
    {
      var row := SparseFromMap(preference[scenes[i]], index, names);
      var position := OwnPosition(scenes[i], positions, ids);
      rows, own := rows + [row], own + [position];
    }
  }

  lemma IndexHolds(index: map<string, nat>, names: seq<string>)
    requires IsIndex(index, names) && forall i, j | 0 <= i < j < |names| :: names[i] != names[j]
    ensures forall name :: name in index <==> name in names
    ensures |index| == |names|
  {
    SizeOfDistinct(names);
    assert index.Keys == set name | name in names;
  }

  lemma {:induction false} SizeOfDistinct(names: seq<string>)
    requires forall i, j | 0 <= i < j < |names| :: names[i] != names[j]
    ensures |set name | name in names| == |names|
  {
    if names != [] {
      var n := |names| - 1;
      SizeOfDistinct(names[..n]);
      assert (set name | name in names) == (set name | name in names[..n]) + {names[n]};
    }
  }

  /** The neighbor evidence of every scene with a vector. */
  method ContentNeighborEvidence(preference: map<string, Vector>, labels: map<string, Label>, count: nat, minimum: real,
                                 damping: nat -> real, threads: nat, turns: seq<nat>)
    returns (out: map<string, seq<Evidence>>, ghost labeled: Labeled)
    requires count >= 1 && threads >= 1
    requires forall w :: 0 <= w < threads ==> w in turns
    ensures IsLabeled(labeled, preference, labels)
    ensures out.Keys == preference.Keys
    ensures forall scene | scene in preference ::
              var list := Neighbors(labeled, scene, preference[scene], count, minimum, damping);
              |out[scene]| == |list| && forall i | 0 <= i < |list| ::
                out[scene][i].neighbor == list[i] && list[i].id in labels
                  && out[scene][i].outcome == labels[list[i].id].outcome
  {
    hide GoOrder.Less, Neighbors, IsRow, IsOwn, IsIndex, AreColumns;
    var names := FeatureNames(preference);
    var index := NameIndex(names);
    GoOrder.AscendingIsDistinct(names);
    IndexHolds(index, names);
    var all := LabeledScenes(preference, labels);
    labeled := all;
    var positions := NameIndex(all.ids);
    var columns := BuildColumns(all.vectors, index, names);
    var scenes := GoOrder.SortedKeys(preference.Keys);
    assert forall i | 0 <= i < |scenes| :: scenes[i] in scenes;
    ghost var targets := seq(|scenes|, i requires 0 <= i < |scenes| => preference[scenes[i]]);
    var rows, own := TargetRows(scenes, preference, index, positions, all.ids, names, targets);
    var neighbors := Kernel(rows, own, columns, all, count, minimum, damping, threads, turns, scenes, targets, names);
    out := map[];
    for i := 0 to |scenes|
      invariant forall scene :: scene in out <==> scene in scenes[..i]
      invariant forall scene | scene in out ::
                scene in preference
                  && Tells(out[scene], Neighbors(all, scene, preference[scene], count, minimum, damping), labels)
    {
      assert neighbors[i] == Neighbors(all, scenes[i], targets[i], count, minimum, damping);
      ListedAreLabeled(all, preference, labels, scenes[i], count, minimum, damping);
      var entries := WithOutcomes(neighbors[i], labels);
      out := out[scenes[i] := entries];
    }
    assert scenes[..|scenes|] == scenes;
  }

  ghost predicate Tells(entries: seq<Evidence>, list: seq<Neighbor>, labels: map<string, Label>) {
    |entries| == |list| && forall i | 0 <= i < |list| ::
      entries[i].neighbor == list[i] && list[i].id in labels && entries[i].outcome == labels[list[i].id].outcome
  }

  lemma ListedAreLabeled(labeled: Labeled, preference: map<string, Vector>, labels: map<string, Label>, scene: string,
                         count: nat, minimum: real, damping: nat -> real)
    requires IsLabeled(labeled, preference, labels) && scene in preference
    ensures forall x | x in Neighbors(labeled, scene, preference[scene], count, minimum, damping) :: x.id in labels
  {
    hide Neighbors, Qualifies, GoOrder.Less;
    NeighborsMeaning(labeled, scene, preference[scene], count, minimum, damping);
  }

  method WithOutcomes(list: seq<Neighbor>, labels: map<string, Label>) returns (entries: seq<Evidence>)
    requires forall x | x in list :: x.id in labels
    ensures Tells(entries, list, labels)
  {
    entries := [];
    for i := 0 to |list|
      invariant |entries| == i
      invariant forall j | 0 <= j < i ::
                list[j].id in labels && entries[j] == Evidence(list[j], labels[list[j].id].outcome)
    {
      assert list[i] in list;
      entries := entries + [Evidence(list[i], labels[list[i].id].outcome)];
    }
  }

  // ------------------------------------------------------------ fixed chunks elsewhere

  /** `work` gives the outputs of a range item by item. */
  ghost predicate ItemByItem<T(!new)>(work: (nat, nat) -> seq<T>, n: nat) {
    && (forall a | 0 <= a <= n :: work(a, a) == [])
    && forall a, b, c | 0 <= a <= b <= c <= n :: work(a, b) + work(b, c) == work(a, c)
  }

  /** Cutting the items into chunks and joining the outputs in chunk order gives the
      one serial run, whatever the number of threads. */
  method ParallelChunks<T(!new)>(n: int, threads: nat, work: (nat, nat) -> seq<T>) returns (out: seq<T>)
    requires threads >= 1
    requires n >= 0 ==> ItemByItem(work, n)
    ensures out == if n <= 0 then [] else work(0, n)
  {
    if n <= 0 { return []; }
    var used: nat := if threads > n then n else threads;
    var chunk := ChunkSize(n, used);
    ChunksPartition(n, used);
    var chunks := ChunkSize(n, chunk);
    ChunksReach(n, chunk);
    out := [];
    for w := 0 to chunks
      invariant out == work(0, End0(w, chunk, n))
    {
      ChunkFollows(w, chunk, n);
      out := out + work(Start(w, chunk), End(w, chunk, n));
    }
  }

  /** How far the first `w` chunks reach. */
  ghost function End0(w: nat, chunk: nat, n: nat): (r: nat)
    ensures r <= n
  {
    if w * chunk < n then w * chunk else n
  }

  lemma ChunksReach(n: nat, chunk: nat)
    requires chunk >= 1
    ensures End0(0, chunk, n) == 0
    ensures End0(ChunkSize(n, chunk), chunk, n) == n
    ensures forall w: nat | w < ChunkSize(n, chunk) :: w * chunk < n
  {
    var q := ChunkSize(n, chunk);
    assert n + chunk - 1 == q * chunk + (n + chunk - 1) % chunk;
    forall w: nat | w < q ensures w * chunk < n {
      assert (w + 1) * chunk <= q * chunk;
    }
  }

  lemma ChunkFollows(w: nat, chunk: nat, n: nat)
    requires chunk >= 1 && w < ChunkSize(n, chunk)
    ensures Start(w, chunk) == End0(w, chunk, n) <= End(w, chunk, n) == End0(w + 1, chunk, n)
  {
    ChunksReach(n, chunk);
    assert (w + 1) * chunk == w * chunk + chunk;
  }
}
