/** The loader for comparison with one target: a running norm for the block at hand,
    and only the entries that the comparison reads. */
module ProfileCompare {
  import opened Options
  import opened Profiles
  import opened ProfileLoaders
  import opened RealSums

  /** The closure's variables: the profiles, and the profile and block at hand. */
  datatype State = State(table: Table, entity: Option<string>, block: string, cached: bool, shared: set<string>,
                         numeric: bool, whole: bool, norm: real)

  function Wanted(target: Profile, block: string): set<string> {
    if block in target.blocks then target.blocks[block].Keys else {}
  }

  /** What is kept of a block, and its squares so far. */
  ghost predicate Keeps(table: Table, rows: seq<Row>, target: Profile, kinds: Kinds, e: string, b: string) {
    BlockOf(table, e, b)
      == if HasRow(rows, e, b) then Some(Entries(rows, e, b, kinds.Whole(b), Wanted(target, b))) else None
  }

  /** The part of a block's squares that is still in the running norm. */
  function Pending(s: State, e: string, b: string): real {
    if s.cached && s.entity == Some(e) && s.block == b && !s.numeric then s.norm else 0.0
  }

  ghost predicate Counts(s: State, rows: seq<Row>, kinds: Kinds, e: string, b: string) {
    NormOf(s.table, e, b) + Pending(s, e, b) == if b in kinds.numeric then 0.0 else Squares(rows, e, b)
  }

  /** The block at hand. */
  ghost predicate AtHand(s: State, target: Profile, kinds: Kinds) {
    && (s.entity.Some? ==> s.entity.value in s.table)
    && (s.cached ==> s.entity.Some? && s.block in s.table[s.entity.value].blocks
                     && s.shared == Wanted(target, s.block) && s.numeric == (s.block in kinds.numeric)
                        && s.whole == kinds.Whole(s.block))
    && (!s.cached || s.numeric ==> s.norm == 0.0)
  }

  ghost predicate Follows(s: State, rows: seq<Row>, target: Profile, kinds: Kinds) {
    && AtHand(s, target, kinds)
    && (forall e :: e in s.table <==> HasEntity(rows, e))
    && (forall e, b :: Keeps(s.table, rows, target, kinds, e, b))
    && forall e, b :: Counts(s, rows, kinds, e, b)
  }

  /** Nothing but the running norm moved into the table. */
  ghost predicate Flushed(s: State, s': State, kinds: Kinds, rows: seq<Row>) {
    && s'.norm == 0.0
    && s' == s.(table := s'.table, norm := 0.0)
    && (forall e :: e in s'.table <==> e in s.table)
    && (forall e, b :: BlockOf(s'.table, e, b) == BlockOf(s.table, e, b))
    && forall e, b :: NormOf(s'.table, e, b) == if b in kinds.numeric then 0.0 else Squares(rows, e, b)
  }

  /** flushNorm. */
  method FlushNorm(s: State, ghost rows: seq<Row>, ghost target: Profile, ghost kinds: Kinds) returns (s': State)
    requires Follows(s, rows, target, kinds)
    ensures Flushed(s, s', kinds, rows) && AtHand(s', target, kinds)
  {
    hide Squares, Keeps, NormOf, WithNorm, HasEntity;
    s' := s;
    ghost var held := BlockOf(s.table, if s.entity.Some? then s.entity.value else s.block, s.block);
    if s.entity.Some? && !s.numeric && s.cached {
      var norm := NormOf(s.table, s.entity.value, s.block) + s.norm;
      NormIsSet(s.table, s.entity.value, s.block, norm);
      s' := s'.(table := WithNorm(s.table, s.entity.value, s.block, norm));
    }
    s' := s'.(norm := 0.0);
    assert held == BlockOf(s'.table, if s.entity.Some? then s.entity.value else s.block, s.block);
    forall e, b ensures NormOf(s'.table, e, b) == if b in kinds.numeric then 0.0 else Squares(rows, e, b) {
      assert Counts(s, rows, kinds, e, b);
    }
  }

  /** The profile and block of a row put at hand, after the flush. */
  ghost predicate Ready(s: State, rows: seq<Row>, row: Row, target: Profile, kinds: Kinds) {
    && AtHand(s, target, kinds)
    && s.entity == Some(row.entity) && s.cached && s.block == row.block
    && (forall e :: e in s.table <==> HasEntity(rows, e) || e == row.entity)
    && (forall e, b :: BlockOf(s.table, e, b) == if HasRow(rows, e, b) || (e == row.entity && b == row.block)
                                                 then Some(Entries(rows, e, b, kinds.Whole(b), Wanted(target, b)))
                                                 else None)
    && forall e, b :: Counts(s, rows, kinds, e, b)
  }

  /** A switch of profile or block: flush, then look up or create. */
  method PutAtHand(s: State, row: Row, target: Profile, kinds: Kinds, ghost rows: seq<Row>) returns (s': State)
    requires Follows(s, rows, target, kinds)
    ensures Ready(s', rows, row, target, kinds)
  {
    hide Squares, Entries, BlockOf, NormOf, WithProfile, WithBlock, HasRow, HasEntity;
    s' := s;
    if s.entity != Some(row.entity) || !s.cached || s.block != row.block {
      s' := FlushNorm(s, rows, target, kinds);
      if s'.entity != Some(row.entity) {
        TablesAre(s'.table, row.entity, row.block);
        s' := s'.(table := WithProfile(s'.table, row.entity), entity := Some(row.entity), cached := false);
      }
      if !s'.cached || s'.block != row.block {
        TablesAre(s'.table, row.entity, row.block);
        s' := s'.(table := WithBlock(s'.table, row.entity, row.block), block := row.block, cached := true,
                  shared := Wanted(target, row.block), numeric := row.block in kinds.numeric,
                  whole := kinds.Whole(row.block));
      }
      Fresh(s, s', row, target, kinds, rows);
    } else {
      Same(s, row, target, kinds, rows);
    }
  }

  lemma Same(s: State, row: Row, target: Profile, kinds: Kinds, rows: seq<Row>)
    requires Follows(s, rows, target, kinds) && s.cached && s.entity == Some(row.entity) && s.block == row.block
    ensures Ready(s, rows, row, target, kinds)
  {
    hide Squares, Entries, HasEntity, HasRow;
    assert Keeps(s.table, rows, target, kinds, row.entity, row.block);
    assert BlockOf(s.table, row.entity, row.block).Some?;
    forall e, b ensures BlockOf(s.table, e, b) == if HasRow(rows, e, b) || (e == row.entity && b == row.block)
                                                  then Some(Entries(rows, e, b, kinds.Whole(b), Wanted(target, b)))
                                                  else None {
      assert Keeps(s.table, rows, target, kinds, e, b);
    }
    assert HasEntity(rows, row.entity);
  }

  lemma Fresh(s: State, s': State, row: Row, target: Profile, kinds: Kinds, rows: seq<Row>)
    requires Follows(s, rows, target, kinds)
    requires AtHand(s', target, kinds) && s'.entity == Some(row.entity) && s'.cached && s'.block == row.block
             && s'.norm == 0.0
    requires forall e :: e in s'.table <==> e in s.table || e == row.entity
    requires forall e, b ::
             BlockOf(s'.table, e, b)
               == if (e, b) == (row.entity, row.block) && BlockOf(s.table, e, b).None? then Some(map[])
                 else BlockOf(s.table, e, b)
    requires forall e, b :: NormOf(s'.table, e, b) == if b in kinds.numeric then 0.0 else Squares(rows, e, b)
    ensures Ready(s', rows, row, target, kinds)
  {
    hide Squares, Entries, HasEntity, HasRow, AtHand, BlockOf, NormOf;
    forall e, b ensures BlockOf(s'.table, e, b) == if HasRow(rows, e, b) || (e == row.entity && b == row.block)
                                                   then Some(Entries(rows, e, b, kinds.Whole(b), Wanted(target, b)))
                                                   else None {
      assert Keeps(s.table, rows, target, kinds, e, b);
      if !HasRow(rows, e, b) { NoRowNoEntries(rows, e, b, kinds.Whole(b), Wanted(target, b)); }
    }
  }

  /** The row counts toward the running norm, and is kept when it is read. */
  method Count(s: State, row: Row, target: Profile, kinds: Kinds, ghost rows: seq<Row>) returns (s': State)
    requires Ready(s, rows, row, target, kinds)
    ensures Follows(s', rows + [row], target, kinds)
  {
    hide Squares, Entries, HasRow, HasEntity, BlockOf, NormOf, WithItem, Times;
    s' := s;
    if !s'.numeric {
      s' := s'.(norm := s'.norm + Times(row.value, row.value));
    }
    if row.name in s'.shared || s'.whole {
      ItemIsSet(s'.table, row.entity, row.block, row.name, Item(row.value, row.confidence));
      s' := s'.(table := WithItem(s'.table, row.entity, row.block, row.name, Item(row.value, row.confidence)));
    }
    RowsGrow(rows, row);
    forall e, b ensures Keeps(s'.table, rows + [row], target, kinds, e, b) && Counts(s', rows + [row], kinds, e, b) {
      EntriesGrow(rows, row, e, b, kinds.Whole(b), Wanted(target, b));
      assert Counts(s, rows, kinds, e, b);
    }
  }

  /** One row. */
  method Take(s: State, row: Row, target: Profile, kinds: Kinds, ghost rows: seq<Row>) returns (s': State)
    requires Follows(s, rows, target, kinds)
    ensures Follows(s', rows + [row], target, kinds)
  {
    hide Follows, Ready, AtHand;
    s' := PutAtHand(s, row, target, kinds, rows);
    s' := Count(s', row, target, kinds, rows);
  }

  /** After the last flush: what the comparing loader returns. */
  ghost predicate IsTrimmed(table: Table, rows: seq<Row>, target: Profile, kinds: Kinds, root: real -> real) {
    && (forall e :: e in table <==> HasEntity(rows, e))
    && (forall e, b :: Keeps(table, rows, target, kinds, e, b))
    && forall e, b ::
       NormOf(table, e, b) == if HasRow(rows, e, b) && b !in kinds.numeric then root(Squares(rows, e, b)) else 0.0
  }

  /** loadProfilesComparedTo. */
  method LoadProfilesComparedTo(rows: seq<Row>, target: Profile, kinds: Kinds, root: real -> real)
    returns (table: Table)
    ensures IsTrimmed(table, rows, target, kinds, root)
  {
    var s := State(map[], None, [], false, {}, false, false, 0.0);
    for i := 0 to |rows|
      invariant Follows(s, rows[..i], target, kinds)
    {
      hide Follows;
      assert rows[..i] + [rows[i]] == rows[..i + 1];
      s := Take(s, rows[i], target, kinds, rows[..i]);
    }
    assert rows[..|rows|] == rows;
    var last := FlushNorm(s, rows, target, kinds);
    table := RootNorms(last.table, kinds, root);
    Rooted(s.table, last.table, table, rows, target, kinds, root);
  }

  /** The norms' square roots, block by block. */
  method RootNorms(table: Table, kinds: Kinds, root: real -> real) returns (table': Table)
    ensures table'.Keys == table.Keys
    ensures forall e | e in table :: IsRooted(table[e], table'[e], kinds, root)
  {
    table' := table;
    var todo := table.Keys;
    while todo != {}
      invariant todo <= table.Keys == table'.Keys
      invariant forall e | e in todo :: table'[e] == table[e]
      invariant forall e | e in table && e !in todo :: IsRooted(table[e], table'[e], kinds, root)
    {
      hide IsRooted;
      var e :| e in todo;
      todo := todo - {e};
      var p := RootProfile(table[e], kinds, root);
      table' := table'[e := p];
    }
  }

  ghost predicate IsRooted(p: Profile, p': Profile, kinds: Kinds, root: real -> real) {
    && p'.blocks == p.blocks
    && forall b :: if b in p.blocks && b !in kinds.numeric
                   then b in p'.norms && p'.norms[b] == root(if b in p.norms then p.norms[b] else 0.0)
                   else (b in p'.norms <==> b in p.norms) && (b in p.norms ==> p'.norms[b] == p.norms[b])
  }

  method RootProfile(p: Profile, kinds: Kinds, root: real -> real) returns (p': Profile)
    ensures IsRooted(p, p', kinds, root)
  {
    p' := p;
    var todo := p.blocks.Keys;
    while todo != {}
      invariant todo <= p.blocks.Keys && p'.blocks == p.blocks
      invariant forall b | b in p.blocks && b !in todo && b !in kinds.numeric ::
                  b in p'.norms && p'.norms[b] == root(if b in p.norms then p.norms[b] else 0.0)
      invariant forall b | !(b in p.blocks && b !in todo && b !in kinds.numeric) ::
                  (b in p'.norms <==> b in p.norms) && (b in p.norms ==> p'.norms[b] == p.norms[b])
    {
      var b :| b in todo;
      todo := todo - {b};
      if b !in kinds.numeric {
        p' := p'.(norms := p'.norms[b := root(if b in p'.norms then p'.norms[b] else 0.0)]);
      }
    }
  }

  lemma Rooted(before: Table, table: Table, table': Table, rows: seq<Row>, target: Profile, kinds: Kinds,
               root: real -> real)
    requires (forall e :: e in before <==> HasEntity(rows, e))
             && forall e, b :: Keeps(before, rows, target, kinds, e, b)
    requires (forall e :: e in table <==> e in before) && forall e, b :: BlockOf(table, e, b) == BlockOf(before, e, b)
    requires forall e, b :: NormOf(table, e, b) == if b in kinds.numeric then 0.0 else Squares(rows, e, b)
    requires table'.Keys == table.Keys && forall e | e in table :: IsRooted(table[e], table'[e], kinds, root)
    ensures IsTrimmed(table', rows, target, kinds, root)
  {
    hide Squares, Entries, HasEntity, HasRow;
    forall e, b ensures Keeps(table', rows, target, kinds, e, b)
      && NormOf(table', e, b) == if HasRow(rows, e, b) && b !in kinds.numeric then root(Squares(rows, e, b)) else 0.0 {
      assert Keeps(before, rows, target, kinds, e, b);
      assert BlockOf(table, e, b) == BlockOf(before, e, b);
      if e in table { assert IsRooted(table[e], table'[e], kinds, root); }
      if !HasRow(rows, e, b) { NoRowNoEntries(rows, e, b, false, {}); }
      assert NormOf(table, e, b) == if b in kinds.numeric then 0.0 else Squares(rows, e, b);
    }
  }

  // ------------------------------------------------------------ the two loaders agree

  /** The trimmed entries are the whole ones, cut to what is wanted. */
  lemma {:induction false} TrimmedEntries(rows: seq<Row>, e: string, b: string, wanted: set<string>)
    ensures forall n :: n in Entries(rows, e, b, false, wanted) <==> n in Entries(rows, e, b, true, {}) && n in wanted
    ensures forall n | n in Entries(rows, e, b, false, wanted) ::
            Entries(rows, e, b, false, wanted)[n] == Entries(rows, e, b, true, {})[n]
  {
    if rows != [] { TrimmedEntries(rows[..|rows| - 1], e, b, wanted); }
  }

  lemma {:induction false} WholeEntries(rows: seq<Row>, e: string, b: string, wanted: set<string>)
    ensures Entries(rows, e, b, true, wanted) == Entries(rows, e, b, true, {})
  {
    if rows != [] { WholeEntries(rows[..|rows| - 1], e, b, wanted); }
  }

  /** For any order of the rows, comparing the target with a profile of the trimmed
      table gives, block by block, what comparing it with the whole profile gives, and
      numeric and augmentation blocks are the whole ones. */
  lemma ComparisonIsTheSame(whole: Table, trimmed: Table, rows: seq<Row>, target: Profile, kinds: Kinds,
                            root: real -> real, numeric: (Items, Items) -> Option<real>, e: string, b: string)
    requires IsWhole(whole, rows, kinds, root) && IsTrimmed(trimmed, rows, target, kinds, root)
    requires e in whole || e in trimmed
    ensures e in whole && e in trimmed
    ensures BlockSimilarity(target, trimmed[e], b, kinds, numeric)
            == BlockSimilarity(target, whole[e], b, kinds, numeric)
    ensures kinds.Whole(b) ==> BlockOf(trimmed, e, b) == BlockOf(whole, e, b)
  {
    hide Squares, Entries, HasEntity, HasRow, Ratio, DotOf, ConfidenceOf;
    assert Keeps(trimmed, rows, target, kinds, e, b);
    assert BlockOf(whole, e, b) == if HasRow(rows, e, b) then Some(Entries(rows, e, b, true, {})) else None;
    assert NormOf(trimmed, e, b) == NormOf(whole, e, b);
    if kinds.Whole(b) {
      WholeEntries(rows, e, b, Wanted(target, b));
    } else if b in target.blocks {
      TrimmedEntries(rows, e, b, Wanted(target, b));
      assert Shared(target.blocks[b], Entries(rows, e, b, false, Wanted(target, b)))
             == Shared(target.blocks[b], Entries(rows, e, b, true, {}));
    }
  }
}
