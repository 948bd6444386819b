/** The records of the loot simulator (GameTypes.h): treasures, loot tables,
    monster templates, and the small real-number helpers the rolls share. */
module GameTypes {

  datatype Option<+T> = None | Some(value: T)

  /** Both enums are generated with NONE = -1 and the data types from 0 up. */
  type TreasureType = int
  type MonsterType = int
  const NONE: int := -1

  /** A treasure item; `dropRate` is its weight relative to its table. Its
      operator< compares the type alone, so ordered containers of treasures hold
      one treasure per type. */
  datatype Treasure = Treasure(kind: TreasureType, name: string, dropRate: real)

  /** A default-constructed Treasure: type NONE, no name, weight 0. */
  const DefaultTreasure: Treasure := Treasure(NONE, "", 0.0)

  /** A loot table. `dropRate` is the table's own weight; 1.0 means "always rolled". */
  datatype LootTable = LootTable(path: string, dropRate: real, treasures: seq<Treasure>)

  /** A default-constructed LootTable: no path, drop rate 1.0, no treasures. */
  const DefaultTable: LootTable := LootTable("", 1.0, [])

  /** The data half of a Monster: what is loaded once and copied per kill. Its
      operator< compares the type alone, which is why the registry (a std::set) is
      modelled as a map keyed by type. */
  datatype MonsterTemplate = MonsterTemplate(name: string, kind: MonsterType, tables: seq<LootTable>)

  /** A table whose drop rate is not exactly 1.0 competes for the single exclusive pick. */
  predicate IsExclusive(t: LootTable) {
    t.dropRate != 1.0
  }

  /** Sum of a sequence of weights, first element first. */
  function Sum(ws: seq<real>): real
  {
    if ws == [] then 0.0 else ws[0] + Sum(ws[1..])
  }

  lemma {:induction false} SumSnoc(ws: seq<real>, x: real)
    ensures Sum(ws + [x]) == Sum(ws) + x
  {
    if ws != [] {
      assert (ws + [x])[1..] == ws[1..] + [x];
      SumSnoc(ws[1..], x);
    }
  }

  lemma {:induction false} SumNonNegative(ws: seq<real>)
    requires forall i :: 0 <= i < |ws| ==> ws[i] >= 0.0
    ensures Sum(ws) >= 0.0
  {
    if ws != [] {
      SumNonNegative(ws[1..]);
    }
  }

  lemma {:induction false} SumOfZeros(ws: seq<real>)
    requires forall i :: 0 <= i < |ws| ==> ws[i] == 0.0
    ensures Sum(ws) == 0.0
  {
    if ws != [] {
      SumOfZeros(ws[1..]);
    }
  }

  /** The prefix sum up to j splits off its first element. */
  lemma PrefixSumStep(ws: seq<real>, j: nat)
    requires 0 < j <= |ws|
    ensures Sum(ws[..j]) == ws[0] + Sum(ws[1..][..j - 1])
  {
    assert ws[..j][1..] == ws[1..][..j - 1];
  }

  /** The treasure weights of a table, in stored order. */
  function Weights(ts: seq<Treasure>): (ws: seq<real>)
    ensures |ws| == |ts|
    ensures forall i :: 0 <= i < |ts| ==> ws[i] == ts[i].dropRate
  {
    seq(|ts|, i requires 0 <= i < |ts| => ts[i].dropRate)
  }
}
