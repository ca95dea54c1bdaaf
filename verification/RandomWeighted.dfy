/**
 * The weighted random balancer of random_weighted.rs, with the random draw as an input: a
 * draw from [0, sum of weights) picks an item by walking down the weights.
 */
module RandomWeighted {
  import opened Endpoints
  import opened Options

  const I64 := 0x1_0000_0000_0000_0000

  /** The value of a sum in 64-bit two's complement. */
  function Wrap64(x: int): int {
    (x + I64 / 2) % I64 - I64 / 2
  }

  lemma WrapAdd(x: int, y: int)
    ensures Wrap64(Wrap64(x) + y) == Wrap64(x + y)
  {
  }

  function Total(items: seq<Endpoint>): int {
    if items == [] then 0 else Total(items[..|items| - 1]) + items[|items| - 1].weight
  }

  /** The item at which a random weight runs out; |items| if it never does. */
  function Pick(items: seq<Endpoint>, r: int): (k: nat)
    ensures k <= |items|
  {
    if items == [] then 0
    else if r - items[0].weight <= 0 then 0
    else 1 + Pick(items[1..], r - items[0].weight)
  }

  lemma {:induction false} PickFrom(items: seq<Endpoint>, i: nat, r: int)
    requires i <= |items| && r > 0 && (forall j | 1 <= j <= i :: r > Total(items[..j]))
    ensures Pick(items, r) == i + Pick(items[i..], r - Total(items[..i]))
    decreases i
  {
    if i > 0 {
      PickFrom(items, i - 1, r);
      assert items[..i][..i - 1] == items[..i - 1];
      assert items[i - 1..][1..] == items[i..];
    } else {
      assert items[0..] == items;
    }
  }

  // ----- Counting draws -------------------------------------------------------------

  ghost predicate NonNegative(items: seq<Endpoint>) {
    forall j | 0 <= j < |items| :: items[j].weight >= 0
  }

  lemma {:induction false} TotalGrows(items: seq<Endpoint>, i: nat, j: nat)
    requires NonNegative(items) && i <= j <= |items|
    ensures Total(items[..i]) <= Total(items[..j])
    decreases j - i
  {
    if i < j {
      TotalGrows(items, i, j - 1);
      assert items[..j][..j - 1] == items[..j - 1];
    }
  }

  /** A draw picks the first item at which the weights up to it exceed the draw. */
  lemma PickIff(items: seq<Endpoint>, d: nat, k: nat)
    requires k < |items|
    ensures Pick(items, d + 1) == k <==>
            d < Total(items[..k + 1]) && forall j | 0 <= j <= k :: Total(items[..j]) <= d
  {
    hide Pick, Total;
    if forall j | 0 <= j <= k :: Total(items[..j]) <= d {
      PickHere(items, d, k);
    } else {
      var i :| 0 <= i <= k && Total(items[..i]) > d;
      var j := FirstOver(items, d, i);
      NothingTaken(items);
      PickHere(items, d, j);
    }
  }

  /** If the weights before k do not exceed the draw, the walk gets to k and stops there or later. */
  lemma PickHere(items: seq<Endpoint>, d: nat, k: nat)
    requires k < |items| && forall j | 0 <= j <= k :: Total(items[..j]) <= d
    ensures Pick(items, d + 1) == k <==> d < Total(items[..k + 1])
  {
    assert forall j | 1 <= j <= k :: d + 1 > Total(items[..j]);
    PickFrom(items, k, d + 1);
    assert items[..k + 1][..k] == items[..k];
  }

  lemma NothingTaken(items: seq<Endpoint>)
    ensures Total(items[..0]) == 0
  {
  }

  /** Without negative weights: between the weights before k and those up to k. */
  lemma PickBetween(items: seq<Endpoint>, d: nat, k: nat)
    requires NonNegative(items) && k < |items|
    ensures Pick(items, d + 1) == k <==> Total(items[..k]) <= d < Total(items[..k + 1])
  {
    PickIff(items, d, k);
    forall j | 0 <= j <= k
      ensures Total(items[..j]) <= Total(items[..k])
    {
      TotalGrows(items, j, k);
    }
  }

  lemma {:induction false} FirstOver(items: seq<Endpoint>, d: nat, k: nat) returns (j: nat)
    requires k <= |items| && d < Total(items[..k])
    ensures j < k && Total(items[..j]) <= d < Total(items[..j + 1])
    ensures forall i | 1 <= i <= j :: d + 1 > Total(items[..i])
    decreases k
  {
    j := 0;
    while Total(items[..j + 1]) <= d
      invariant j < k && Total(items[..j]) <= d
      invariant forall i | 1 <= i <= j :: d + 1 > Total(items[..i])
      decreases k - j
    {
      j := j + 1;
    }
  }

  /** How many of the draws 0 .. n - 1 pick item k. */
  ghost function Draws(items: seq<Endpoint>, n: nat, k: nat): nat {
    if n == 0 then 0 else Draws(items, n - 1, k) + if Pick(items, n) == k then 1 else 0
  }

  lemma {:induction false} DrawsBetween(items: seq<Endpoint>, n: nat, k: nat)
    requires NonNegative(items) && k < |items|
    ensures var low, high := Total(items[..k]), Total(items[..k + 1]);
            && 0 <= low <= high
            && Draws(items, n, k) == if n <= low then 0 else if n <= high then n - low else high - low
    decreases n
  {
    TotalGrows(items, 0, k);
    TotalGrows(items, k, k + 1);
    if n > 0 {
      DrawsBetween(items, n - 1, k);
      PickBetween(items, n - 1, k);
    }
  }

  /**
   * With a positive total, as the draw ranges over [0, total) every item is picked exactly as
   * often as its weight, if and only if no weight is negative.
   */
  lemma SelectionIsExactIff(items: seq<Endpoint>)
    requires Total(items) > 0
    ensures (forall k: nat | k < |items| :: Draws(items, Total(items), k) == items[k].weight)
            <==> NonNegative(items)
  {
    if NonNegative(items) {
      forall k: nat | k < |items|
        ensures Draws(items, Total(items), k) == items[k].weight
      {
        DrawsBetween(items, Total(items), k);
        assert items[..k + 1][..k] == items[..k];
        TotalGrows(items, k + 1, |items|);
        assert items[..|items|] == items;
      }
    }
  }

  /** Whatever the weights, a draw below the total always picks an item. */
  lemma {:induction false} AlwaysPicks(items: seq<Endpoint>, r: int)
    requires 0 < r <= Total(items)
    ensures Pick(items, r) < |items|
    decreases |items|
  {
    var k := |items|;
    assert items[..k] == items;
    var j := FirstOver(items, r - 1, k);
    PickFrom(items, j, r);
    assert items[..j + 1][..j] == items[..j];
  }

  // ----- Sixty-four bits ------------------------------------------------------------

  /** The walk as the machine does it: the running weight wraps around. */
  function PickWrapped(items: seq<Endpoint>, r: int): (k: nat)
    ensures k <= |items|
  {
    if items == [] then 0
    else
      var left := Wrap64(r - items[0].weight);
      if left <= 0 then 0 else 1 + PickWrapped(items[1..], left)
  }

  /** The 64-bit value of r minus the first n weights. */
  ghost function LeftAfter(items: seq<Endpoint>, r: int, n: nat): int
    requires n <= |items|
  {
    Wrap64(r - Total(items[..n]))
  }

  /** Item k is the first at which that is not positive. */
  ghost predicate RunsOutAt(items: seq<Endpoint>, r: int, k: nat) {
    k < |items| && LeftAfter(items, r, k + 1) <= 0 && forall n: nat | 1 <= n <= k :: LeftAfter(items, r, n) > 0
  }

  lemma LeftStep(items: seq<Endpoint>, r: int, i: nat, left: int)
    requires i < |items| && Wrap64(left) == LeftAfter(items, r, i)
    ensures Wrap64(left - items[i].weight) == LeftAfter(items, r, i + 1)
    ensures Wrap64(Wrap64(left - items[i].weight)) == LeftAfter(items, r, i + 1)
  {
    var w := items[i].weight;
    LastWeight(items, i);
    WrapAdd(left, -w);
    WrapAdd(r - Total(items[..i]), -w);
    WrapTwice(left - w);
    hide Wrap64, Total;
    assert r - Total(items[..i]) + -w == r - Total(items[..i + 1]);
  }

  lemma WrapTwice(x: int)
    ensures Wrap64(Wrap64(x)) == Wrap64(x)
  {
  }

  /** The wrapping walk from item i on, with a running weight that is right up to wrapping. */
  lemma {:induction false} WrappedWalk(items: seq<Endpoint>, r: int, i: nat, left: int)
    requires i <= |items| && Wrap64(left) == LeftAfter(items, r, i)
    ensures var k := i + PickWrapped(items[i..], left);
            && k <= |items| && (k < |items| ==> LeftAfter(items, r, k + 1) <= 0)
            && forall n: nat | i < n <= k :: LeftAfter(items, r, n) > 0
    decreases |items| - i
  {
    hide LeftAfter, Wrap64;
    if i < |items| {
      LeftStep(items, r, i, left);
      var next := Wrap64(left - items[i].weight);
      assert items[i..][1..] == items[i + 1..];
      if next > 0 {
        WrappedWalk(items, r, i + 1, next);
      }
    }
  }

  /**
   * The wrapping walk stops at the first item at which the 64-bit running weight is used up, and for
   * every draw below a positive 64-bit sum there is one: it never runs off the end.
   */
  lemma WrappedPick(items: seq<Endpoint>, draw: nat)
    requires draw < Wrap64(Total(items))
    ensures RunsOutAt(items, draw + 1, PickWrapped(items, draw + 1))
  {
    LeftAtEnds(items, draw + 1);
    hide LeftAfter, Wrap64, Total, PickWrapped;
    WrappedWalk(items, draw + 1, 0, draw + 1);
    assert items[0..] == items;
  }

  lemma LeftAtEnds(items: seq<Endpoint>, r: int)
    requires 0 < r <= Wrap64(Total(items))
    ensures items != [] && LeftAfter(items, r, 0) == Wrap64(r) && LeftAfter(items, r, |items|) <= 0
  {
    NoWeight();
    hide Wrap64, Total;
    NothingTaken(items);
    assert items[..|items|] == items;
    UsedUp(Total(items), r);
  }

  lemma NoWeight()
    ensures Total([]) == 0 && Wrap64(0) == 0
  {
  }

  lemma UsedUp(total: int, r: int)
    requires 0 < r <= Wrap64(total)
    ensures Wrap64(r - total) == r - Wrap64(total)
  {
    var half := I64 / 2;
    var q := (total + half) / I64;
    assert r - total + half == (r - Wrap64(total) + half) + I64 * -q;
    Remainder(r - Wrap64(total) + half, -q);
  }

  lemma Remainder(x: int, q: int)
    requires 0 <= x < I64
    ensures (x + I64 * q) % I64 == x
  {
  }

  predicate InRange(x: int) {
    -(I64 / 2) <= x < I64 / 2
  }

  lemma {:induction false} TotalHead(items: seq<Endpoint>)
    requires items != []
    ensures Total(items) == items[0].weight + Total(items[1..])
    decreases |items|
  {
    if |items| > 1 {
      TotalHead(items[..|items| - 1]);
      assert items[..|items| - 1][1..] == items[1..][..|items| - 2];
    }
  }

  /** The running weights of the exact walk, up to the item it picks, stay below 2^63. */
  ghost predicate StaysBelow(items: seq<Endpoint>, r: int, k: nat)
    requires k <= |items|
  {
    forall j | 0 <= j <= k :: r - Total(items[..j]) < I64 / 2
  }

  /** Wrapping makes no difference if and only if the running weight never reaches 2^63. */
  lemma {:induction false} WrappingIsHarmlessIff(items: seq<Endpoint>, r: int)
    requires 0 < r < I64 / 2 && forall j | 0 <= j < |items| :: InRange(items[j].weight)
    ensures PickWrapped(items, r) == Pick(items, r) <==> StaysBelow(items, r, Pick(items, r))
    decreases |items|
  {
    hide Total, StaysBelow;
    if items == [] {
      BelowAtStart(items, r);
    } else {
      var left := r - items[0].weight;
      assert InRange(items[0].weight);
      BelowAtStart(items, r);
      BelowStep(items, r, Pick(items, r));
      if 0 < left < I64 / 2 {
        WrappingIsHarmlessIff(items[1..], left);
      }
    }
  }

  lemma BelowAtStart(items: seq<Endpoint>, r: int)
    requires r < I64 / 2
    ensures StaysBelow(items, r, 0)
  {
    NothingTaken(items);
  }

  lemma BelowStep(items: seq<Endpoint>, r: int, k: nat)
    requires items != [] && k <= |items| && r < I64 / 2
    ensures k > 0 ==>
              (StaysBelow(items, r, k) <==>
                 r - items[0].weight < I64 / 2 && StaysBelow(items[1..], r - items[0].weight, k - 1))
  {
    if k > 0 {
      var left, rest := r - items[0].weight, items[1..];
      forall j: nat | j <= k - 1
        ensures left - Total(rest[..j]) == r - Total(items[..j + 1])
      {
        TotalHead(items[..j + 1]);
        assert items[..j + 1][1..] == rest[..j];
      }
      NothingTaken(items);
      NothingTaken(rest);
      hide Total;
      assert StaysBelow(items, r, k) ==> left - Total(rest[..0]) < I64 / 2;
      if StaysBelow(rest, left, k - 1) {
        forall j | 0 <= j <= k
          ensures r - Total(items[..j]) < I64 / 2
        {
          assert j > 0 ==> left - Total(rest[..j - 1]) < I64 / 2;
        }
      }
    }
  }

  /**
   * With 64-bit weights of which none is negative, and a total that fits, the machine picks by
   * the exact weights and never runs off the end.
   */
  lemma MachinePicksExactly(items: seq<Endpoint>, draw: nat)
    requires NonNegative(items) && draw < Total(items) < I64 / 2
    ensures Pick(items, draw + 1) < |items| && PickWrapped(items, draw + 1) == Pick(items, draw + 1)
  {
    hide Pick, PickWrapped, Total;
    NothingTaken(items);
    forall j | 0 <= j <= |items|
      ensures 0 <= Total(items[..j]) <= Total(items)
    {
      TotalGrows(items, 0, j);
      TotalGrows(items, j, |items|);
      assert items[..|items|] == items;
    }
    forall j | 0 <= j < |items|
      ensures InRange(items[j].weight)
    {
      LastWeight(items, j);
    }
    WrappingIsHarmlessIff(items, draw + 1);
    AlwaysPicks(items, draw + 1);
  }

  lemma LastWeight(items: seq<Endpoint>, j: nat)
    requires j < |items|
    ensures Total(items[..j + 1]) == Total(items[..j]) + items[j].weight
  {
    assert items[..j + 1][..j] == items[..j];
  }

  /** With a large negative weight the running weight wraps and the walk stops too early. */
  lemma WrappingMatters()
    ensures var items := [Endpoint(-(I64 / 2), "a", "", "", "", ""), Endpoint(I64 / 2 - 1, "b", "", "", "", ""),
                          Endpoint(2, "c", "", "", "", "")];
            Total(items) == 1 && Pick(items, 1) == 2 && PickWrapped(items, 1) == 0
  {
    var a, b, c := Endpoint(-(I64 / 2), "a", "", "", "", ""), Endpoint(I64 / 2 - 1, "b", "", "", "", ""),
                   Endpoint(2, "c", "", "", "", "");
    var items := [a, b, c];
    assert items[..2] == [a, b] && [a, b][..1] == [a] && [a][..0] == [];
    assert items[1..] == [b, c] && [b, c][1..] == [c];
    assert Total([a]) == a.weight && Total([a, b]) == -1;
    assert Pick([c], 2) == 0;
    assert Pick([b, c], I64 / 2 + 1) == 1 + Pick([c], 2);
    assert Pick(items, 1) == 1 + Pick([b, c], I64 / 2 + 1);
  }

  // ----- The object -----------------------------------------------------------------

  class Balancer {
    var items: seq<Endpoint>
    var n: int
    var sumOfWeights: int

    /** What every run of `add` and `next` keeps. */
    ghost predicate Valid()
      reads this
    {
      n == |items| && DistinctNames(items) && sumOfWeights == Wrap64(Total(items))
    }

    constructor ()
      ensures Valid() && items == []
    {
      items, n, sumOfWeights := [], 0, 0;
    }

    method Add(endpoint: Endpoint)
      requires Valid()
      modifies this
      ensures Valid()
      ensures items == if HasName(old(items), endpoint.name) then old(items) else old(items) + [endpoint]
    {
      var found := ItemExists(items, endpoint.name);
      if !found {
        WrapAdd(Total(items), endpoint.weight);
        assert (items + [endpoint])[..|items|] == items;
        sumOfWeights := Wrap64(sumOfWeights + endpoint.weight);
        n := n + 1;
        items := items + [endpoint];
      }
    }

    /** The draw is what `gen_range(0..sum_of_weights)` gave, when it is asked at all. */
    method Next(draw: int) returns (r: Option<Endpoint>)
      requires Valid() && (sumOfWeights > 0 ==> 0 <= draw < sumOfWeights)
      ensures sumOfWeights <= 0 ==> r.None?
      ensures sumOfWeights > 0 ==> exists k: nat :: RunsOutAt(items, draw + 1, k) && r == Some(items[k])
    {
      hide Total, Wrap64, LeftAfter;
      if sumOfWeights > 0 {
        WrappedPick(items, draw);
      }
      if n == 0 {
        return None;
      }
      if sumOfWeights <= 0 {
        return None;
      }
      var randomWeight := draw + 1;
      for i := 0 to |items|
        invariant randomWeight > 0
        invariant PickWrapped(items, draw + 1) == i + PickWrapped(items[i..], randomWeight)
      {
        assert items[i..][1..] == items[i + 1..];
        randomWeight := Wrap64(randomWeight - items[i].weight);
        if randomWeight <= 0 {
          return Some(items[i]);
        }
      }
      // the walk never gets here, where the source would return the last item
      assert false;
      return None;
    }
  }
}
