/** Performer profiles: what both loaders read from the rows, and what a comparison
    reads from a profile. */
module Profiles {
  import opened Options
  import opened RealSums

  datatype Row = Row(entity: string, block: string, name: string, value: real, confidence: real)

  datatype Item = Item(value: real, confidence: real)

  type Items = map<string, Item>

  datatype Profile = Profile(blocks: map<string, Items>, norms: map<string, real>)

  type Table = map<string, Profile>

  /** Which blocks are numeric, and which the comparing loader keeps whole. */
  datatype Kinds = Kinds(numeric: set<string>, augmentation: string) {
    predicate Whole(block: string) { block in numeric || block == augmentation }
  }

  // ------------------------------------------------------------ what rows say

  ghost predicate HasRow(rows: seq<Row>, entity: string, block: string) {
    exists i :: 0 <= i < |rows| && rows[i].entity == entity && rows[i].block == block
  }

  ghost predicate HasEntity(rows: seq<Row>, entity: string) {
    exists i :: 0 <= i < |rows| && rows[i].entity == entity
  }

  /** The block's entries, of all names or of the wanted ones only. */
  ghost function Entries(rows: seq<Row>, entity: string, block: string, all: bool, wanted: set<string>): Items {
    if rows == [] then map[]
    else
      var before := Entries(rows[..|rows| - 1], entity, block, all, wanted);
      var row := rows[|rows| - 1];
      if row.entity == entity && row.block == block && (all || row.name in wanted)
      then before[row.name := Item(row.value, row.confidence)] else before
  }

  ghost function Squares(rows: seq<Row>, entity: string, block: string): real {
    if rows == [] then 0.0
    else
      var row := rows[|rows| - 1];
      Squares(rows[..|rows| - 1], entity, block)
        + if row.entity == entity && row.block == block then Times(row.value, row.value) else 0.0
  }

  /** A performer has one value per block and name. */
  ghost predicate UniqueRows(rows: seq<Row>) {
    forall i, j | 0 <= i < j < |rows| ::
      !(rows[i].entity == rows[j].entity && rows[i].block == rows[j].block && rows[i].name == rows[j].name)
  }

  // ------------------------------------------------------------ tables

  function BlockOf(table: Table, entity: string, block: string): Option<Items> {
    if entity in table && block in table[entity].blocks then Some(table[entity].blocks[block]) else None
  }

  function NormOf(table: Table, entity: string, block: string): real {
    if entity in table && block in table[entity].norms then table[entity].norms[block] else 0.0
  }

  function WithProfile(table: Table, entity: string): Table {
    if entity in table then table else table[entity := Profile(map[], map[])]
  }

  function WithBlock(table: Table, entity: string, block: string): Table
    requires entity in table
  {
    if block in table[entity].blocks then table
    else table[entity := table[entity].(blocks := table[entity].blocks[block := map[]])]
  }

  function WithItem(table: Table, entity: string, block: string, name: string, item: Item): Table
    requires entity in table && block in table[entity].blocks
  {
    table[entity := table[entity].(blocks := table[entity].blocks[block := table[entity].blocks[block][name := item]])]
  }

  function WithNorm(table: Table, entity: string, block: string, norm: real): Table
    requires entity in table
  {
    table[entity := table[entity].(norms := table[entity].norms[block := norm])]
  }

  lemma TablesAre(table: Table, entity: string, block: string)
    ensures var t := WithProfile(table, entity);
            entity in t && (forall e :: e in t <==> e in table || e == entity)
            && forall e, b :: BlockOf(t, e, b) == BlockOf(table, e, b) && NormOf(t, e, b) == NormOf(table, e, b)
    ensures entity in table ==>
              var t := WithBlock(table, entity, block);
              entity in t && block in t[entity].blocks && (forall e :: e in t <==> e in table)
              && (forall e, b :: NormOf(t, e, b) == NormOf(table, e, b))
              && forall e, b ::
                 BlockOf(t, e, b)
                   == if (e, b) == (entity, block) && BlockOf(table, e, b).None? then Some(map[])
                     else BlockOf(table, e, b)
  {
  }

  lemma ItemIsSet(table: Table, entity: string, block: string, name: string, item: Item)
    requires entity in table && block in table[entity].blocks
    ensures var t := WithItem(table, entity, block, name, item);
            entity in t && block in t[entity].blocks && (forall e :: e in t <==> e in table)
            && (forall e, b :: NormOf(t, e, b) == NormOf(table, e, b))
            && forall e, b ::
               BlockOf(t, e, b)
                 == if (e, b) == (entity, block) then Some(BlockOf(table, e, b).value[name := item])
                   else BlockOf(table, e, b)
  {
  }

  lemma NormIsSet(table: Table, entity: string, block: string, norm: real)
    requires entity in table
    ensures var t := WithNorm(table, entity, block, norm);
            entity in t && (forall e :: e in t <==> e in table)
            && (forall e, b :: BlockOf(t, e, b) == BlockOf(table, e, b))
            && forall e, b :: NormOf(t, e, b) == if (e, b) == (entity, block) then norm else NormOf(table, e, b)
  {
  }

  // ------------------------------------------------------------ what a comparison reads

  /** The entries two blocks share. */
  ghost function Shared(left: Items, right: Items): map<string, (Item, Item)> {
    map n | n in left && n in right :: (left[n], right[n])
  }

  ghost function DotOf(shared: map<string, (Item, Item)>): real {
    SumOver(map n | n in shared :: Times(shared[n].0.value, shared[n].1.value), shared.Keys)
  }

  function Lower(a: real, b: real): real { if b < a then b else a }

  ghost function ConfidenceOf(shared: map<string, (Item, Item)>): real {
    SumOver(map n | n in shared :: Lower(shared[n].0.confidence, shared[n].1.confidence), shared.Keys)
  }

  /** cosineSimilarity. */
  ghost function Cosine(left: Items, right: Items, leftNorm: real, rightNorm: real): Option<real> {
    var shared := Shared(left, right);
    if shared == map[] then Some(0.0)
    else if leftNorm == 0.0 || rightNorm == 0.0 then None
    else
      var value := Ratio(DotOf(shared), leftNorm, rightNorm, ConfidenceOf(shared), |shared|);
      Some(if value < 0.0 then 0.0 else if value > 1.0 then 1.0 else value)
  }

  ghost function Ratio(dot: real, leftNorm: real, rightNorm: real, confidence: real, count: nat): real {
    if Times(leftNorm, rightNorm) == 0.0 || count == 0 then 0.0
    else Times(dot / Times(leftNorm, rightNorm), confidence / count as real)
  }

  /** blockSimilarity; `numeric` compares two numeric blocks. */
  ghost function BlockSimilarity(left: Profile, right: Profile, block: string, kinds: Kinds,
                                 numeric: (Items, Items) -> Option<real>): Option<real> {
    if block !in left.blocks || block !in right.blocks then None
    else if block in kinds.numeric then numeric(left.blocks[block], right.blocks[block])
    else Cosine(left.blocks[block], right.blocks[block],
                if block in left.norms then left.norms[block] else 0.0,
                if block in right.norms then right.norms[block] else 0.0)
  }
}
