/** Roulette-wheel selection, the walk shared by LootTable::Roll and the
    bucket pick of Monster::RerollLoot (Game.cpp). */
module Roulette {
  import opened GameTypes

  /** The index the walk stops at: subtract each weight from the residual `r`
      in turn and stop at the first weight the residual falls below; |ws| if none. */
  function Walk(ws: seq<real>, r: real): (k: nat)
    ensures k <= |ws|
  {
    if ws == [] then 0
    else if r < ws[0] then 0
    else 1 + Walk(ws[1..], r - ws[0])
  }

  /** The walk's index is the FIRST i whose residual r - Σ(ws[..i]) is below ws[i]. */
  lemma {:induction false} WalkIsFirstHit(ws: seq<real>, r: real)
    ensures forall j :: 0 <= j < Walk(ws, r) ==> r - Sum(ws[..j]) >= ws[j]
    ensures Walk(ws, r) < |ws| ==> r - Sum(ws[..Walk(ws, r)]) < ws[Walk(ws, r)]
  {
    if ws != [] && r >= ws[0] {
      var k := Walk(ws, r);
      WalkIsFirstHit(ws[1..], r - ws[0]);
      forall j | 0 < j <= k && j < |ws|
        ensures r - Sum(ws[..j]) == (r - ws[0]) - Sum(ws[1..][..j - 1])
      {
        PrefixSumStep(ws, j);
      }
      forall j | 0 <= j < k
        ensures r - Sum(ws[..j]) >= ws[j]
      {
        if j > 0 {
          assert ws[1..][j - 1] == ws[j];
        }
      }
      if k < |ws| {
        assert ws[1..][k - 1] == ws[k];
      }
    }
  }

  /** A draw in [0, Σws) always stops on some element, never falling through.
      No sign condition on the weights is needed. */
  lemma {:induction false} WalkHitsBelowTotal(ws: seq<real>, r: real)
    requires 0.0 <= r < Sum(ws)
    ensures Walk(ws, r) < |ws|
  {
    if ws != [] && r >= ws[0] {
      WalkHitsBelowTotal(ws[1..], r - ws[0]);
    }
  }

  /** Starting from a non-negative residual, the walk only stops on a
      positive weight: a weight-0 (or negative) element is never chosen. */
  lemma {:induction false} WalkStopsOnPositive(ws: seq<real>, r: real)
    requires 0.0 <= r
    requires Walk(ws, r) < |ws|
    ensures ws[Walk(ws, r)] > 0.0
  {
    if r >= ws[0] {
      WalkStopsOnPositive(ws[1..], r - ws[0]);
    }
  }

  /** With non-negative weights the walk falls through exactly when the draw is
      at least the total. */
  lemma WalkMissesIff(ws: seq<real>, r: real)
    requires 0.0 <= r
    requires forall i :: 0 <= i < |ws| ==> ws[i] >= 0.0
    ensures Walk(ws, r) == |ws| <==> r >= Sum(ws)
  {
    if r < Sum(ws) {
      WalkHitsBelowTotal(ws, r);
    } else {
      WalkMissesAboveTotal(ws, r);
    }
  }

  lemma {:induction false} WalkMissesAboveTotal(ws: seq<real>, r: real)
    requires forall i :: 0 <= i < |ws| ==> ws[i] >= 0.0
    requires r >= Sum(ws)
    ensures Walk(ws, r) == |ws|
  {
    if ws != [] {
      SumNonNegative(ws[1..]);
      WalkMissesAboveTotal(ws[1..], r - ws[0]);
    }
  }

  /** Roulette meaning: with non-negative weights before k, element k is chosen
      exactly when the draw lies in [Σ(ws[..k]), Σ(ws[..k+1])). */
  lemma {:induction false} WalkSelectsInterval(ws: seq<real>, r: real, k: nat)
    requires 0.0 <= r
    requires k < |ws|
    requires forall i :: 0 <= i < k ==> ws[i] >= 0.0
    ensures Walk(ws, r) == k <==> Sum(ws[..k]) <= r < Sum(ws[..k + 1])
  {
    PrefixSumStep(ws, k + 1);
    if k == 0 {
      assert ws[1..][..0] == [];
      assert ws[..0] == [];
    } else {
      PrefixSumStep(ws, k);
      if r < ws[0] {
        SumNonNegative(ws[1..][..k - 1]);
      } else {
        WalkSelectsInterval(ws[1..], r - ws[0], k - 1);
        assert ws[1..][..k - 1 + 1] == ws[1..][..k];
      }
    }
  }

  /** Walking a concatenation: the second part is only reached, with the
      residual reduced by the first part's total, when the first part misses. */
  lemma {:induction false} WalkAppend(ws: seq<real>, tail: seq<real>, r: real)
    ensures Walk(ws + tail, r) ==
      if Walk(ws, r) < |ws| then Walk(ws, r) else |ws| + Walk(tail, r - Sum(ws))
  {
    if ws == [] {
      assert ws + tail == tail;
    } else {
      assert (ws + tail)[1..] == ws[1..] + tail;
      WalkAppend(ws[1..], tail, r - ws[0]);
    }
  }

  /** What LootTable::Roll returns for the uniform variate u in [0, 1): the draw is
      r = u * Σweights, and a walk that falls through yields the default Treasure. */
  function RollResult(table: LootTable, u: real): Treasure
  {
    var ws := Weights(table.treasures);
    var k := Walk(ws, ScaledDraw(u, Sum(ws)));
    if k < |table.treasures| then table.treasures[k] else DefaultTreasure
  }

  /** GetRandomFloat(0, total): the uniform variate u in [0, 1) scaled onto
      [0, total); a total of 0 gives the draw 0. */
  function ScaledDraw(u: real, total: real): (r: real)
    ensures 0.0 <= u && 0.0 <= total ==> 0.0 <= r
    ensures u < 1.0 && total > 0.0 ==> r < total
    ensures total == 0.0 ==> r == 0.0
  {
    ScaleBounds(u, total);
    u * total
  }

  /** The bounds ScaledDraw promises, stated on the product itself. */
  lemma ScaleBounds(u: real, total: real)
    ensures 0.0 <= u && 0.0 <= total ==> 0.0 <= u * total
    ensures u < 1.0 && total > 0.0 ==> u * total < total
    ensures total == 0.0 ==> u * total == 0.0
  {
    if 0.0 <= u && 0.0 <= total {
      ProductNonNegative(u, total);
    }
    if u < 1.0 && total > 0.0 {
      ScaleBelowTotal(u, total);
    }
  }

  lemma ProductNonNegative(a: real, b: real)
    requires 0.0 <= a && 0.0 <= b
    ensures 0.0 <= a * b
  {
    if a > 0.0 && b > 0.0 {
      ProductPositive(a, b);
    }
  }

  lemma ProductPositive(a: real, b: real)
    requires 0.0 < a && 0.0 < b
    ensures 0.0 < a * b
  {
  }

  /** Scaling by a factor below one shrinks a positive total. */
  lemma ScaleBelowTotal(u: real, total: real)
    requires u < 1.0 && 0.0 < total
    ensures u * total < total
  {
    ProductPositive(1.0 - u, total);
    assert total - u * total == (1.0 - u) * total;
  }

  /** LootTable::Roll: total the weights, scale the draw, then walk. */
  method Roll(table: LootTable, u: real) returns (t: Treasure)
    ensures t == RollResult(table, u)
  {
    var ts := table.treasures;
    ghost var ws := Weights(ts);
    var weightTotal := 0.0;
    var i := 0;
    while i < |ts|
      invariant 0 <= i <= |ts|
      invariant weightTotal == Sum(ws[..i])
    {
      assert ws[..i + 1] == ws[..i] + [ts[i].dropRate];
      SumSnoc(ws[..i], ts[i].dropRate);
      weightTotal := weightTotal + ts[i].dropRate;
      i := i + 1;
    }
    assert ws[..|ts|] == ws;
    var randomNumber := ScaledDraw(u, weightTotal);
    ghost var r := randomNumber;
    i := 0;
    while i < |ts|
      invariant 0 <= i <= |ts|
      invariant i + Walk(ws[i..], randomNumber) == Walk(ws, r)
    {
      if randomNumber < ts[i].dropRate {
        assert ws[i..][0] == ts[i].dropRate;
        return ts[i];
      }
      assert ws[i..][1..] == ws[i + 1..];
      randomNumber := randomNumber - ts[i].dropRate;
      i := i + 1;
    }
    t := DefaultTreasure;
  }

  /** A table with some weight always yields one of its own treasures, and one of
      positive weight: the fall-through default is unreachable. */
  lemma RollReturnsMember(table: LootTable, u: real)
    requires 0.0 <= u < 1.0
    requires Sum(Weights(table.treasures)) > 0.0
    ensures RollResult(table, u) in table.treasures
    ensures RollResult(table, u).dropRate > 0.0
  {
    var ws := Weights(table.treasures);
    var total := Sum(ws);
    WalkHitsBelowTotal(ws, ScaledDraw(u, total));
    WalkStopsOnPositive(ws, ScaledDraw(u, total));
  }

  /** Whatever the weights, as long as their total is not negative, Roll returns
      either a treasure of positive weight from the table or the default. */
  lemma RollNeverPicksZeroWeight(table: LootTable, u: real)
    requires 0.0 <= u
    requires Sum(Weights(table.treasures)) >= 0.0
    ensures RollResult(table, u) == DefaultTreasure ||
            (RollResult(table, u) in table.treasures && RollResult(table, u).dropRate > 0.0)
  {
    var ws := Weights(table.treasures);
    if Walk(ws, ScaledDraw(u, Sum(ws))) < |ws| {
      WalkStopsOnPositive(ws, ScaledDraw(u, Sum(ws)));
    }
  }

  /** An empty table, or one whose weights are all 0, yields the default Treasure. */
  lemma RollWithoutWeightIsDefault(table: LootTable, u: real)
    requires forall i :: 0 <= i < |table.treasures| ==> table.treasures[i].dropRate == 0.0
    ensures RollResult(table, u) == DefaultTreasure
    ensures RollResult(table, u).kind == NONE && RollResult(table, u).dropRate == 0.0
  {
    var ws := Weights(table.treasures);
    SumOfZeros(ws);
    if Walk(ws, 0.0) < |ws| {
      WalkStopsOnPositive(ws, 0.0);
    }
  }

  /** A default-constructed table is always rolled (its rate is 1.0) and, having
      no treasures, always yields the default Treasure. */
  lemma DefaultTableRoll(u: real)
    ensures !IsExclusive(DefaultTable)
    ensures RollResult(DefaultTable, u) == DefaultTreasure
  {
    RollWithoutWeightIsDefault(DefaultTable, u);
  }

  /** A table of one treasure with positive weight always yields that treasure. */
  lemma RollSingleTreasure(table: LootTable, u: real)
    requires 0.0 <= u < 1.0
    requires |table.treasures| == 1 && table.treasures[0].dropRate > 0.0
    ensures RollResult(table, u) == table.treasures[0]
  {
    RollReturnsMember(table, u);
  }

  /** Each treasure is chosen on the slice of draws proportional to its weight:
      treasure k is returned exactly when the scaled draw lies in [Σ before k, Σ through k). */
  lemma RollSelectsInterval(table: LootTable, u: real, k: nat)
    requires 0.0 <= u
    requires k < |table.treasures|
    requires forall i :: 0 <= i < |table.treasures| ==> table.treasures[i].dropRate >= 0.0
    ensures var ws := Weights(table.treasures);
            Walk(ws, ScaledDraw(u, Sum(ws))) == k <==> Sum(ws[..k]) <= ScaledDraw(u, Sum(ws)) < Sum(ws[..k + 1])
  {
    var ws := Weights(table.treasures);
    SumNonNegative(ws);
    WalkSelectsInterval(ws, ScaledDraw(u, Sum(ws)), k);
  }
}
