/** Monster::RerollLoot (Game.cpp): partition the tables into exclusive and
    unconditional ones, pick one bucket with a single draw, then roll either the
    chosen exclusive table or every unconditional table. */
module MonsterLoot {
  import opened GameTypes
  import opened Roulette

  /** Number of exclusive tables (drop rate != 1.0). */
  function ExclusiveCount(ts: seq<LootTable>): (n: nat)
    ensures n <= |ts|
  {
    if ts == [] then 0
    else (if IsExclusive(ts[0]) then 1 else 0) + ExclusiveCount(ts[1..])
  }

  /** Every exclusive table comes before every unconditional one. */
  ghost predicate ExclusiveFirst(ts: seq<LootTable>) {
    forall i, j :: 0 <= i < j < |ts| && !IsExclusive(ts[i]) ==> !IsExclusive(ts[j])
  }

  /** What std::partition promises: a rearrangement of the input, exclusive tables
      first; the order inside each group is left open. */
  ghost predicate IsPartitionOf(ps: seq<LootTable>, ts: seq<LootTable>) {
    multiset(ps) == multiset(ts) && ExclusiveFirst(ps)
  }

  /** A sequence split at k into exclusive then unconditional tables has exactly
      k exclusive tables, so the split point is the exclusive count. */
  lemma {:induction false} SplitPointIsExclusiveCount(ps: seq<LootTable>, k: nat)
    requires k <= |ps|
    requires forall i :: 0 <= i < k ==> IsExclusive(ps[i])
    requires forall i :: k <= i < |ps| ==> !IsExclusive(ps[i])
    ensures ExclusiveCount(ps) == k
  {
    if ps != [] {
      SplitPointIsExclusiveCount(ps[1..], if k == 0 then 0 else k - 1);
    }
  }

  /** In an exclusive-first sequence the exclusive tables are exactly the first
      ExclusiveCount(ps) ones. */
  lemma {:induction false} ExclusiveFirstSplits(ps: seq<LootTable>)
    requires ExclusiveFirst(ps)
    ensures forall i :: 0 <= i < ExclusiveCount(ps) ==> IsExclusive(ps[i])
    ensures forall i :: ExclusiveCount(ps) <= i < |ps| ==> !IsExclusive(ps[i])
  {
    if ps != [] {
      if IsExclusive(ps[0]) {
        assert ExclusiveFirst(ps[1..]) by {
          forall i, j | 0 <= i < j < |ps[1..]| && !IsExclusive(ps[1..][i])
            ensures !IsExclusive(ps[1..][j])
          {
            assert ps[1..][i] == ps[i + 1] && ps[1..][j] == ps[j + 1];
          }
        }
        ExclusiveFirstSplits(ps[1..]);
        forall i | 0 < i < |ps|
          ensures ps[i] == ps[1..][i - 1]
        {
        }
      } else {
        SplitPointIsExclusiveCount(ps, 0);
      }
    }
  }

  /** The exclusive count does not depend on the order of the tables. */
  lemma {:induction false} ExclusiveCountPermutation(ps: seq<LootTable>, ts: seq<LootTable>)
    requires multiset(ps) == multiset(ts)
    ensures ExclusiveCount(ps) == ExclusiveCount(ts)
    decreases |ps|
  {
    if ps != [] {
      assert ps[0] in multiset(ts);
      var j :| 0 <= j < |ts| && ts[j] == ps[0];
      MultisetRemoveMatching(ps, ts, j);
      ExclusiveCountPermutation(ps[1..], ts[..j] + ts[j + 1..]);
      ExclusiveCountRemove(ts, j);
    }
  }

  /** Taking the first element off one side and a matching element off the
      other keeps two sequences permutations of each other. */
  lemma MultisetRemoveMatching(ps: seq<LootTable>, ts: seq<LootTable>, j: nat)
    requires multiset(ps) == multiset(ts)
    requires ps != [] && j < |ts| && ts[j] == ps[0]
    ensures multiset(ps[1..]) == multiset(ts[..j] + ts[j + 1..])
  {
    var x := ps[0];
    assert ps == [x] + ps[1..];
    assert ts == ts[..j] + [x] + ts[j + 1..];
    calc {
      multiset(ps[1..]);
      multiset(ps) - multiset{x};
      multiset(ts) - multiset{x};
      multiset(ts[..j]) + multiset(ts[j + 1..]);
      multiset(ts[..j] + ts[j + 1..]);
    }
  }

  /** Removing the table at j lowers the count by that table's contribution. */
  lemma {:induction false} ExclusiveCountRemove(ts: seq<LootTable>, j: nat)
    requires j < |ts|
    ensures ExclusiveCount(ts) ==
      (if IsExclusive(ts[j]) then 1 else 0) + ExclusiveCount(ts[..j] + ts[j + 1..])
  {
    if j > 0 {
      ExclusiveCountRemove(ts[1..], j - 1);
      assert ts[1..][..j - 1] + ts[1..][j..] == (ts[..j] + ts[j + 1..])[1..];
    } else {
      assert ts[..0] + ts[1..] == ts[1..];
    }
  }

  /** std::iter_swap: exchange two tables, keeping the multiset of tables. */
  method Swap(a: array<LootTable>, i: nat, j: nat)
    requires i < a.Length && j < a.Length
    modifies a
    ensures a[..] == old(a[..])[i := old(a[j])][j := old(a[i])]
    ensures multiset(a[..]) == multiset(old(a[..]))
  {
    a[i], a[j] := a[j], a[i];
  }

  /** std::partition over the tables, in place: an unstable two-pointer partition.
      Returns the partition point, which is the number of exclusive tables. */
  method Partition(a: array<LootTable>) returns (k: nat)
    modifies a
    ensures k <= a.Length
    ensures multiset(a[..]) == multiset(old(a[..]))
    ensures forall i :: 0 <= i < k ==> IsExclusive(a[i])
    ensures forall i :: k <= i < a.Length ==> !IsExclusive(a[i])
  {
    var i, j := 0, a.Length;
    while i < j
      invariant 0 <= i <= j <= a.Length
      invariant forall m :: 0 <= m < i ==> IsExclusive(a[m])
      invariant forall m :: j <= m < a.Length ==> !IsExclusive(a[m])
      invariant multiset(a[..]) == multiset(old(a[..]))
    {
      if IsExclusive(a[i]) {
        i := i + 1;
      } else if !IsExclusive(a[j - 1]) {
        j := j - 1;
      } else {
        Swap(a, i, j - 1);
        i, j := i + 1, j - 1;
      }
    }
    k := i;
  }

  /** The outcome of Partition, restated: a permutation whose exclusive tables
      are exactly the first k, and k is their count. */
  lemma PartitionPointIsPartition(ps: seq<LootTable>, ts: seq<LootTable>, k: nat)
    requires multiset(ps) == multiset(ts)
    requires k <= |ps|
    requires forall i :: 0 <= i < k ==> IsExclusive(ps[i])
    requires forall i :: k <= i < |ps| ==> !IsExclusive(ps[i])
    ensures IsPartitionOf(ps, ts)
    ensures ExclusiveCount(ps) == k == ExclusiveCount(ts)
  {
    SplitPointIsExclusiveCount(ps, k);
    ExclusiveCountPermutation(ps, ts);
  }

  /** The drop rates of the exclusive tables, in table order. */
  function ExclusiveRates(ps: seq<LootTable>): (rates: seq<real>)
    ensures |rates| == ExclusiveCount(ps)
    ensures forall i :: 0 <= i < |rates| ==> rates[i] == ps[i].dropRate
  {
    seq(ExclusiveCount(ps), i requires 0 <= i < ExclusiveCount(ps) => ps[i].dropRate)
  }

  /** The dropRates vector: each exclusive rate, then the remainder
      1 - Σexclusive that stands for "roll every unconditional table". */
  function Buckets(ps: seq<LootTable>): seq<real> {
    ExclusiveRates(ps) + [1.0 - Sum(ExclusiveRates(ps))]
  }

  /** The bucket index the single draw selects. */
  function SelectedBucket(ps: seq<LootTable>, r: real): nat {
    Walk(Buckets(ps), r)
  }

  /** There are numExclusive + 1 buckets: the exclusive rates in table order, then
      the remainder; together they always weigh exactly 1. */
  lemma BucketsShape(ps: seq<LootTable>)
    ensures |Buckets(ps)| == ExclusiveCount(ps) + 1
    ensures forall i :: 0 <= i < ExclusiveCount(ps) ==> Buckets(ps)[i] == ps[i].dropRate
    ensures Buckets(ps)[ExclusiveCount(ps)] == 1.0 - Sum(ExclusiveRates(ps))
    ensures Sum(Buckets(ps)) == 1.0
  {
    SumSnoc(ExclusiveRates(ps), 1.0 - Sum(ExclusiveRates(ps)));
  }

  /** A draw in [0, 1) never walks past the remainder bucket, whatever the rates. */
  lemma SelectedBucketInRange(ps: seq<LootTable>, r: real)
    requires 0.0 <= r < 1.0
    ensures SelectedBucket(ps, r) <= ExclusiveCount(ps)
  {
    BucketsShape(ps);
    WalkHitsBelowTotal(Buckets(ps), r);
  }

  /** Exclusive table j is selected exactly when the draw lies in
      [Σ rates before j, Σ rates through j) — a share equal to its drop rate. */
  lemma ExclusiveSelection(ps: seq<LootTable>, r: real, j: nat)
    requires 0.0 <= r
    requires j < ExclusiveCount(ps)
    requires forall i :: 0 <= i < ExclusiveCount(ps) ==> ps[i].dropRate >= 0.0
    ensures SelectedBucket(ps, r) == j <==>
      Sum(ExclusiveRates(ps)[..j]) <= r < Sum(ExclusiveRates(ps)[..j + 1])
  {
    var b := Buckets(ps);
    var ex := ExclusiveRates(ps);
    assert b[..j] == ex[..j];
    assert b[..j + 1] == ex[..j + 1];
    WalkSelectsInterval(b, r, j);
  }

  /** The unconditional branch is taken exactly when the draw is at least the sum
      of the exclusive rates; so when those rates reach 1 it is never taken. */
  lemma RemainderSelection(ps: seq<LootTable>, r: real)
    requires 0.0 <= r < 1.0
    requires forall i :: 0 <= i < ExclusiveCount(ps) ==> ps[i].dropRate >= 0.0
    ensures SelectedBucket(ps, r) >= ExclusiveCount(ps) <==> r >= Sum(ExclusiveRates(ps))
    ensures SelectedBucket(ps, r) <= ExclusiveCount(ps)
  {
    var ex := ExclusiveRates(ps);
    WalkAppend(ex, [1.0 - Sum(ex)], r);
    WalkMissesIff(ex, r);
  }

  /** Each unconditional table rolled once, in order, the i-th with draw ds[i]. */
  function RollEach(ts: seq<LootTable>, ds: seq<real>): (drops: seq<Treasure>)
    requires |ds| >= |ts|
    ensures |drops| == |ts|
  {
    seq(|ts|, i requires 0 <= i < |ts| => RollResult(ts[i], ds[i]))
  }

  /** Extending the rolled range by one table appends that table's roll. */
  lemma RollEachSnoc(ps: seq<LootTable>, ds: seq<real>, k: nat, i: nat)
    requires k <= i < |ps| && |ds| >= |ps| - k
    ensures RollEach(ps[k..i + 1], ds) == RollEach(ps[k..i], ds) + [RollResult(ps[i], ds[i - k])]
  {
    assert ps[k..i + 1] == ps[k..i] + [ps[i]];
  }

  /** The drops of one RerollLoot over the (already partitioned) tables ps:
      ds[0] picks the bucket and ds[1..] feed the table rolls. */
  function LootFor(ps: seq<LootTable>, ds: seq<real>): seq<Treasure>
    requires |ds| > |ps|
  {
    var k := ExclusiveCount(ps);
    var chosen := SelectedBucket(ps, ds[0]);
    if chosen < k then [RollResult(ps[chosen], ds[1])]
    else RollEach(ps[k..], ds[1..])
  }

  /** A drop comes from a table when it is one of its treasures or the default. */
  predicate DrawnFrom(d: Treasure, t: LootTable) {
    d == DefaultTreasure || d in t.treasures
  }

  /** The two branches never mix: an exclusive pick gives exactly one drop from
      that exclusive table; otherwise there is one drop per unconditional table, in
      order, each drawn from its own table. */
  lemma LootShape(ps: seq<LootTable>, ds: seq<real>)
    requires |ds| > |ps|
    requires ExclusiveFirst(ps)
    ensures SelectedBucket(ps, ds[0]) < ExclusiveCount(ps) ==>
      |LootFor(ps, ds)| == 1 && IsExclusive(ps[SelectedBucket(ps, ds[0])]) &&
      DrawnFrom(LootFor(ps, ds)[0], ps[SelectedBucket(ps, ds[0])])
    ensures SelectedBucket(ps, ds[0]) >= ExclusiveCount(ps) ==>
      |LootFor(ps, ds)| == |ps| - ExclusiveCount(ps) &&
      forall i :: 0 <= i < |LootFor(ps, ds)| ==>
        !IsExclusive(ps[ExclusiveCount(ps) + i]) && DrawnFrom(LootFor(ps, ds)[i], ps[ExclusiveCount(ps) + i])
  {
    ExclusiveFirstSplits(ps);
    var k := ExclusiveCount(ps);
    var chosen := SelectedBucket(ps, ds[0]);
    var drops := LootFor(ps, ds);
    if chosen < k {
      RollIsDrawnFrom(ps[chosen], ds[1]);
    } else {
      forall i | 0 <= i < |drops|
        ensures DrawnFrom(drops[i], ps[k + i])
      {
        assert drops[i] == RollResult(ps[k..][i], ds[1..][i]);
        RollIsDrawnFrom(ps[k + i], ds[1 + i]);
      }
    }
  }

  /** A roll yields a treasure of the rolled table or the default. */
  lemma RollIsDrawnFrom(t: LootTable, u: real)
    ensures DrawnFrom(RollResult(t, u), t)
  {
  }

  /** Which branch a draw selects, read off the draw itself: a draw in exclusive
      table j's slice yields that table's roll alone; a draw at or above the
      exclusive rates' sum yields the roll of every unconditional table. */
  lemma LootByDraw(ps: seq<LootTable>, ds: seq<real>)
    requires |ds| > |ps|
    requires 0.0 <= ds[0] < 1.0
    requires forall i :: 0 <= i < ExclusiveCount(ps) ==> ps[i].dropRate >= 0.0
    ensures ds[0] >= Sum(ExclusiveRates(ps)) ==>
      LootFor(ps, ds) == RollEach(ps[ExclusiveCount(ps)..], ds[1..])
    ensures forall j ::
      (0 <= j < ExclusiveCount(ps) &&
       Sum(ExclusiveRates(ps)[..j]) <= ds[0] < Sum(ExclusiveRates(ps)[..j + 1])) ==>
      LootFor(ps, ds) == [RollResult(ps[j], ds[1])]
  {
    RemainderSelection(ps, ds[0]);
    forall j | 0 <= j < ExclusiveCount(ps) &&
      Sum(ExclusiveRates(ps)[..j]) <= ds[0] < Sum(ExclusiveRates(ps)[..j + 1])
      ensures LootFor(ps, ds) == [RollResult(ps[j], ds[1])]
    {
      ExclusiveSelection(ps, ds[0], j);
    }
  }

  /** Exclusive rates summing to 1 or more (with no negative rate) always give
      exactly one drop, from an exclusive table: the unconditional tables are
      never rolled. */
  lemma LootSaturatedExclusives(ps: seq<LootTable>, ds: seq<real>)
    requires |ds| > |ps|
    requires ExclusiveFirst(ps)
    requires 0.0 <= ds[0] < 1.0
    requires forall i :: 0 <= i < ExclusiveCount(ps) ==> ps[i].dropRate >= 0.0
    requires Sum(ExclusiveRates(ps)) >= 1.0
    ensures |LootFor(ps, ds)| == 1
    ensures exists j :: 0 <= j < |ps| && IsExclusive(ps[j]) && DrawnFrom(LootFor(ps, ds)[0], ps[j])
  {
    RemainderSelection(ps, ds[0]);
    LootShape(ps, ds);
  }

  /** With no exclusive table every table is rolled once: n tables give n drops. */
  lemma LootAllUnconditional(ps: seq<LootTable>, ds: seq<real>)
    requires |ds| > |ps|
    requires ExclusiveCount(ps) == 0
    ensures |LootFor(ps, ds)| == |ps|
    ensures forall i :: 0 <= i < |ps| ==> LootFor(ps, ds)[i] == RollResult(ps[i], ds[1 + i])
  {
    assert ps[0..] == ps;
  }

  /** A monster without tables drops nothing. */
  lemma LootNoTables(ds: seq<real>)
    requires |ds| > 0
    ensures LootFor([], ds) == []
  {
  }

  /** The first half of RerollLoot after the partition: collect the exclusive
      rates of the first numExclusive tables and append the remainder bucket. */
  method BuildDropRates(tables: array<LootTable>, numExclusive: nat) returns (dropRates: seq<real>)
    requires numExclusive == ExclusiveCount(tables[..])
    ensures dropRates == Buckets(tables[..])
  {
    ghost var ps := tables[..];
    var exclusiveTableDropRate := 0.0;
    dropRates := [];
    var i := 0;
    while i < numExclusive
      invariant 0 <= i <= numExclusive
      invariant dropRates == ExclusiveRates(ps)[..i]
      invariant exclusiveTableDropRate == Sum(dropRates)
    {
      var dropRate := tables[i].dropRate;
      assert ExclusiveRates(ps)[..i + 1] == ExclusiveRates(ps)[..i] + [dropRate];
      SumSnoc(dropRates, dropRate);
      dropRates := dropRates + [dropRate];
      exclusiveTableDropRate := exclusiveTableDropRate + dropRate;
      i := i + 1;
    }
    assert ExclusiveRates(ps)[..numExclusive] == ExclusiveRates(ps);
    dropRates := dropRates + [1.0 - exclusiveTableDropRate];
  }

  /** The bucket walk of RerollLoot: subtract each bucket weight from the draw
      and stop at the first bucket the residual falls below. */
  method SelectBucket(dropRates: seq<real>, r: real) returns (tableIndex: nat)
    ensures tableIndex == Walk(dropRates, r)
  {
    var randomNumber := r;
    tableIndex := 0;
    while tableIndex < |dropRates|
      invariant 0 <= tableIndex <= |dropRates|
      invariant tableIndex + Walk(dropRates[tableIndex..], randomNumber) == Walk(dropRates, r)
    {
      var dropRate := dropRates[tableIndex];
      if randomNumber < dropRate {
        assert dropRates[tableIndex..][0] == dropRate;
        return;
      }
      assert dropRates[tableIndex..][1..] == dropRates[tableIndex + 1..];
      randomNumber := randomNumber - dropRate;
      tableIndex := tableIndex + 1;
    }
  }

  /** A Monster: template data plus the drops of its last roll. */
  class Monster {
    var lootDrops: seq<Treasure>
    const name: string
    const kind: MonsterType
    const tables: array<LootTable>

    /** A copy of a template with no drops yet (CreateMonsterForType's copy). */
    constructor (template: MonsterTemplate)
      ensures name == template.name && kind == template.kind
      ensures fresh(tables) && tables[..] == template.tables
      ensures lootDrops == []
    {
      name := template.name;
      kind := template.kind;
      var ts := template.tables;
      var a := new LootTable[|ts|](i requires 0 <= i < |ts| => ts[i]);
      assert a[..] == ts;
      tables := a;
      lootDrops := [];
    }

    /** Monster::RerollLoot. `ds` are the uniform draws it consumes: ds[0] for the
        bucket, then one per table rolled. Previous drops are discarded. */
    method RerollLoot(ds: seq<real>)
      requires |ds| > tables.Length
      modifies this, tables
      ensures IsPartitionOf(tables[..], old(tables[..]))
      ensures ExclusiveCount(tables[..]) == ExclusiveCount(old(tables[..]))
      ensures lootDrops == LootFor(tables[..], ds)
    {
      lootDrops := [];
      var numExclusive := Partition(tables);
      ghost var ps := tables[..];
      PartitionPointIsPartition(ps, old(tables[..]), numExclusive);

      var dropRates := BuildDropRates(tables, numExclusive);
      var tableIndex := SelectBucket(dropRates, ds[0]);
      assert tableIndex == SelectedBucket(ps, ds[0]);

      if tableIndex < numExclusive {
        var t := Roll(tables[tableIndex], ds[1]);
        lootDrops := lootDrops + [t];
        assert lootDrops == [RollResult(ps[tableIndex], ds[1])];
        assert lootDrops == LootFor(ps, ds);
        return;
      }

      var i := numExclusive;
      while i < tables.Length
        invariant numExclusive <= i <= tables.Length
        invariant tables[..] == ps
        invariant lootDrops == RollEach(ps[numExclusive..i], ds[1..])
      {
        var t := Roll(tables[i], ds[1 + i - numExclusive]);
        RollEachSnoc(ps, ds[1..], numExclusive, i);
        lootDrops := lootDrops + [t];
        i := i + 1;
      }
      assert ps[numExclusive..tables.Length] == ps[numExclusive..];
    }
  }
}
