/** The whole loader, and the streaming loader that keeps only what a comparison with
    one target reads. */
module ProfileLoaders {
  import opened Options
  import opened Profiles
  import opened RealSums

  // ------------------------------------------------------------ the whole loader

  /** loadPerformerProfiles before its norms: every entry of every row. */
  ghost predicate HoldsAll(table: Table, rows: seq<Row>) {
    && (forall e :: e in table <==> HasEntity(rows, e))
    && forall e, b :: BlockOf(table, e, b) == if HasRow(rows, e, b) then Some(Entries(rows, e, b, true, {})) else None
  }

  lemma RowsGrow(rows: seq<Row>, row: Row)
    ensures forall e :: HasEntity(rows + [row], e) <==> HasEntity(rows, e) || e == row.entity
    ensures forall e, b :: HasRow(rows + [row], e, b) <==> HasRow(rows, e, b) || (e == row.entity && b == row.block)
  {
    var more := rows + [row];
    assert more[|rows|] == row && forall i | 0 <= i < |rows| :: more[i] == rows[i];
    forall e ensures HasEntity(more, e) <==> HasEntity(rows, e) || e == row.entity {
      if i :| 0 <= i < |rows| && rows[i].entity == e { assert more[i].entity == e; }
    }
    forall e, b ensures HasRow(more, e, b) <==> HasRow(rows, e, b) || (e == row.entity && b == row.block) {
      if i :| 0 <= i < |rows| && rows[i].entity == e && rows[i].block == b {
        assert more[i].entity == e && more[i].block == b;
      }
    }
  }

  lemma EntriesGrow(rows: seq<Row>, row: Row, e: string, b: string, all: bool, wanted: set<string>)
    ensures Entries(rows + [row], e, b, all, wanted)
         == if row.entity == e && row.block == b && (all || row.name in wanted)
            then Entries(rows, e, b, all, wanted)[row.name := Item(row.value, row.confidence)]
            else Entries(rows, e, b, all, wanted)
    ensures Squares(rows + [row], e, b)
            == Squares(rows, e, b) + if row.entity == e && row.block == b then Times(row.value, row.value) else 0.0
  {
    assert (rows + [row])[..|rows|] == rows;
  }

  lemma {:induction false} NoRowNoEntries(rows: seq<Row>, e: string, b: string, all: bool, wanted: set<string>)
    requires !HasRow(rows, e, b)
    ensures Entries(rows, e, b, all, wanted) == map[] && Squares(rows, e, b) == 0.0
  {
    if rows != [] {
      var n := |rows| - 1;
      assert !(rows[n].entity == e && rows[n].block == b);
      forall i | 0 <= i < n
        ensures !(rows[..n][i].entity == e && rows[..n][i].block == b) { assert rows[..n][i] == rows[i]; }
      NoRowNoEntries(rows[..n], e, b, all, wanted);
    }
  }

  lemma NoNormsYet(table: Table, row: Row)
    ensures var t :=
            WithItem(WithBlock(WithProfile(table, row.entity), row.entity, row.block), row.entity, row.block, row.name,
                     Item(row.value, row.confidence));
            (forall e | e in table :: table[e].norms == map[]) ==> forall e | e in t :: t[e].norms == map[]
  {
  }

  method LoadRow(table: Table, row: Row, ghost rows: seq<Row>) returns (table': Table)
    requires HoldsAll(table, rows)
    ensures HoldsAll(table', rows + [row])
    ensures (forall e | e in table :: table[e].norms == map[]) ==> forall e | e in table' :: table'[e].norms == map[]
  {
    NoNormsYet(table, row);
    hide HasRow, HasEntity, Entries, BlockOf, WithProfile, WithBlock, WithItem;
    RowsGrow(rows, row);
    TablesAre(table, row.entity, row.block);
    table' := WithProfile(table, row.entity);
    TablesAre(table', row.entity, row.block);
    table' := WithBlock(table', row.entity, row.block);
    ItemIsSet(table', row.entity, row.block, row.name, Item(row.value, row.confidence));
    table' := WithItem(table', row.entity, row.block, row.name, Item(row.value, row.confidence));
    if !HasRow(rows, row.entity, row.block) { NoRowNoEntries(rows, row.entity, row.block, true, {}); }
    forall e, b
      ensures BlockOf(table', e, b)
              == if HasRow(rows + [row], e, b) then Some(Entries(rows + [row], e, b, true, {})) else None {
      EntriesGrow(rows, row, e, b, true, {});
    }
  }

  /** The squares of a block's values, each name once. */
  ghost function ItemSquares(items: Items): real {
    SumOver(SquareOf(items), items.Keys)
  }

  function SquareOf(items: Items): map<string, real> {
    map n | n in items :: Times(items[n].value, items[n].value)
  }

  lemma ItemSquaresTakesOut(items: Items, n: string)
    requires n in items
    ensures ItemSquares(items) == Times(items[n].value, items[n].value) + ItemSquares(items - {n})
  {
    SumOverTakesOut(SquareOf(items), items.Keys, n);
    assert items.Keys - {n} == (items - {n}).Keys;
    SumOverAlike(SquareOf(items), SquareOf(items - {n}), items.Keys - {n});
  }

  lemma {:induction false} EntriesAreRows(rows: seq<Row>, e: string, b: string, all: bool, wanted: set<string>,
                                          name: string)
    requires name in Entries(rows, e, b, all, wanted)
    ensures exists i :: 0 <= i < |rows| && rows[i].entity == e && rows[i].block == b && rows[i].name == name
  {
    var n := |rows| - 1;
    if !(rows[n].entity == e && rows[n].block == b && rows[n].name == name) {
      EntriesAreRows(rows[..n], e, b, all, wanted, name);
      var i :| 0 <= i < n && rows[..n][i].entity == e && rows[..n][i].block == b && rows[..n][i].name == name;
      assert rows[i] == rows[..n][i];
    }
  }

  /** Where no name comes twice, the squares of the entries are those of the rows. */
  lemma {:induction false} EntrySquares(rows: seq<Row>, e: string, b: string)
    requires UniqueRows(rows)
    ensures ItemSquares(Entries(rows, e, b, true, {})) == Squares(rows, e, b)
  {
    hide Times;
    if rows != [] {
      var n := |rows| - 1;
      var row := rows[n];
      EntrySquares(rows[..n], e, b);
      var before := Entries(rows[..n], e, b, true, {});
      if row.entity == e && row.block == b {
        if row.name in before {
          EntriesAreRows(rows[..n], e, b, true, {}, row.name);
          assert false;
        }
        var items := before[row.name := Item(row.value, row.confidence)];
        ItemSquaresTakesOut(items, row.name);
        assert items - {row.name} == before;
      }
    }
  }

  /** finalizeProfileNorms. */
  method FinalizeNorms(p: Profile, kinds: Kinds, root: real -> real) returns (p': Profile)
    requires p.norms == map[]
    ensures p'.blocks == p.blocks
    ensures forall b :: b in p'.norms <==> b in p.blocks && b !in kinds.numeric
    ensures forall b | b in p'.norms :: p'.norms[b] == root(ItemSquares(p.blocks[b]))
  {
    hide ItemSquares, Times;
    p' := p;
    var todo := p.blocks.Keys;
    while todo != {}
      invariant todo <= p.blocks.Keys && p'.blocks == p.blocks
      invariant forall b :: b in p'.norms <==> b in p.blocks && b !in todo && b !in kinds.numeric
      invariant forall b | b in p'.norms :: p'.norms[b] == root(ItemSquares(p.blocks[b]))
    {
      var b :| b in todo;
      todo := todo - {b};
      if b !in kinds.numeric {
        var sum := SumOfSquares(p.blocks[b]);
        p' := p'.(norms := p'.norms[b := root(sum)]);
      }
    }
  }

  method SumOfSquares(items: Items) returns (sum: real)
    ensures sum == ItemSquares(items)
  {
    hide Times;
    sum := 0.0;
    var rest := items;
    while rest != map[]
      invariant sum + ItemSquares(rest) == ItemSquares(items)
      decreases |rest|
    {
      var n :| n in rest;
      ItemSquaresTakesOut(rest, n);
      sum := sum + Times(rest[n].value, rest[n].value);
      rest := rest - {n};
    }
  }

  /** What the whole loader returns. */
  ghost predicate IsWhole(table: Table, rows: seq<Row>, kinds: Kinds, root: real -> real) {
    && HoldsAll(table, rows)
    && forall e, b ::
       NormOf(table, e, b) == if HasRow(rows, e, b) && b !in kinds.numeric then root(Squares(rows, e, b)) else 0.0
  }

  method FinalizeAll(table: Table, ghost rows: seq<Row>, kinds: Kinds, root: real -> real) returns (table': Table)
    requires HoldsAll(table, rows) && UniqueRows(rows)
    requires forall e | e in table :: table[e].norms == map[]
    ensures IsWhole(table', rows, kinds, root)
  {
    hide HoldsAll, ItemSquares;
    table' := table;
    var todo := table.Keys;
    while todo != {}
      invariant todo <= table.Keys == table'.Keys
      invariant forall e | e in todo :: table'[e] == table[e]
      invariant forall e | e in table && e !in todo :: Finalized(table[e], table'[e], kinds, root)
    {
      var e :| e in todo;
      todo := todo - {e};
      var p := FinalizeNorms(table[e], kinds, root);
      table' := table'[e := p];
    }
    WholeAfterNorms(table, table', rows, kinds, root);
  }

  ghost predicate Finalized(p: Profile, p': Profile, kinds: Kinds, root: real -> real) {
    && p'.blocks == p.blocks
    && (forall b :: b in p'.norms <==> b in p.blocks && b !in kinds.numeric)
    && forall b | b in p'.norms :: p'.norms[b] == root(ItemSquares(p.blocks[b]))
  }

  lemma WholeAfterNorms(table: Table, table': Table, rows: seq<Row>, kinds: Kinds, root: real -> real)
    requires HoldsAll(table, rows) && UniqueRows(rows) && table.Keys == table'.Keys
    requires forall e | e in table :: Finalized(table[e], table'[e], kinds, root)
    ensures IsWhole(table', rows, kinds, root)
  {
    hide ItemSquares, Entries, Squares;
    forall e, b ensures BlockOf(table', e, b) == BlockOf(table, e, b) {
      if e in table { assert Finalized(table[e], table'[e], kinds, root); }
    }
    forall e, b
      ensures NormOf(table', e, b)
              == if HasRow(rows, e, b) && b !in kinds.numeric then root(Squares(rows, e, b)) else 0.0 {
      EntrySquares(rows, e, b);
      assert BlockOf(table, e, b) == if HasRow(rows, e, b) then Some(Entries(rows, e, b, true, {})) else None;
      if e in table { assert Finalized(table[e], table'[e], kinds, root); }
    }
  }

  /** loadPerformerProfiles. */
  method LoadPerformerProfiles(rows: seq<Row>, kinds: Kinds, root: real -> real) returns (table: Table)
    requires UniqueRows(rows)
    ensures IsWhole(table, rows, kinds, root)
  {
    table := map[];
    for i := 0 to |rows|
      invariant HoldsAll(table, rows[..i])
      invariant forall e | e in table :: table[e].norms == map[]
    {
      hide HoldsAll;
      assert rows[..i] + [rows[i]] == rows[..i + 1];
      table := LoadRow(table, rows[i], rows[..i]);
    }
    assert rows[..|rows|] == rows;
    table := FinalizeAll(table, rows, kinds, root);
  }
}
