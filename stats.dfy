/** Weighted roulette selection (class Stats). Weights are exact reals; the
    draw Random.rand(weights.sum) is passed in as a unit draw u in [0, 1),
    scaled by the sum. */
module Stats {

  /** weights.sum, added left to right. */
  function Sum(s: seq<real>): real
  {
    if s == [] then 0.0 else Sum(s[..|s| - 1]) + s[|s| - 1]
  }

  predicate NonNegative(weights: seq<real>)
  {
    forall k :: 0 <= k < |weights| ==> 0.0 <= weights[k]
  }

  /** How many weights are strictly positive. */
  function Positives(weights: seq<real>): nat
  {
    if weights == [] then 0
    else Positives(weights[..|weights| - 1]) + (if weights[|weights| - 1] > 0.0 then 1 else 0)
  }

  /** Array#delete_at(idx): the sequence without its element at idx. */
  function RemoveAt<T>(s: seq<T>, idx: nat): (r: seq<T>)
    requires idx < |s|
    ensures |r| == |s| - 1
    ensures forall k :: 0 <= k < idx ==> r[k] == s[k]
    ensures forall k :: idx <= k < |r| ==> r[k] == s[k + 1]
  {
    s[..idx] + s[idx + 1..]
  }

  /** The roulette index of rnum: the slot of the cumulative weights that
      rnum falls into, read from the front. */
  function Pick(weights: seq<real>, rnum: real): nat
  {
    if weights == [] || rnum < weights[0] then 0
    else 1 + Pick(weights[1..], rnum - weights[0])
  }

  // ---------------------------------------------------------------------
  // Facts about sums

  lemma {:induction false} SumFront(s: seq<real>)
    requires s != []
    ensures Sum(s) == s[0] + Sum(s[1..])
  {
    if |s| > 1 {
      SumFront(s[..|s| - 1]);
      assert s[..|s| - 1][1..] == s[1..][..|s| - 2];
    }
  }

  lemma {:induction false} SumNonNegative(s: seq<real>)
    requires NonNegative(s)
    ensures Sum(s) >= 0.0
  {
    if s != [] {
      SumNonNegative(s[..|s| - 1]);
    }
  }

  /** Weights with a positive entry and no negative one have a positive sum. */
  lemma {:induction false} SumPositive(s: seq<real>)
    requires NonNegative(s) && Positives(s) > 0
    ensures Sum(s) > 0.0
  {
    var last := |s| - 1;
    if s[last] > 0.0 {
      SumNonNegative(s[..last]);
    } else {
      SumPositive(s[..last]);
    }
  }

  lemma {:induction false} PositivesFront(s: seq<real>)
    requires s != []
    ensures Positives(s) == (if s[0] > 0.0 then 1 else 0) + Positives(s[1..])
  {
    if |s| > 1 {
      PositivesFront(s[..|s| - 1]);
      assert s[..|s| - 1][1..] == s[1..][..|s| - 2];
    }
  }

  lemma {:induction false} PositivesAppend(s: seq<real>, t: seq<real>)
    ensures Positives(s + t) == Positives(s) + Positives(t)
    decreases |t|
  {
    if t != [] {
      assert (s + t)[..|s + t| - 1] == s + t[..|t| - 1];
      PositivesAppend(s, t[..|t| - 1]);
    } else {
      assert s + t == s;
    }
  }

  /** Deleting a positive weight removes exactly one positive weight. */
  lemma RemovePositive(s: seq<real>, idx: nat)
    requires idx < |s| && s[idx] > 0.0
    ensures Positives(RemoveAt(s, idx)) == Positives(s) - 1
  {
    assert s == s[..idx] + s[idx..];
    PositivesAppend(s[..idx], s[idx..]);
    PositivesFront(s[idx..]);
    assert s[idx..][1..] == s[idx + 1..];
    PositivesAppend(s[..idx], s[idx + 1..]);
  }

  // ---------------------------------------------------------------------
  // The roulette index

  /** For 0 <= rnum < sum(weights), Pick lands on a slot of positive weight
      whose cumulative bounds enclose rnum. Negative weights do not break
      this: the scan stops at the first slot whose upper bound passes rnum. */
  lemma {:induction false} PickInRange(weights: seq<real>, rnum: real)
    requires 0.0 <= rnum < Sum(weights)
    ensures Pick(weights, rnum) < |weights|
    ensures weights[Pick(weights, rnum)] > 0.0
    ensures Sum(weights[..Pick(weights, rnum)]) <= rnum
    ensures rnum < Sum(weights[..Pick(weights, rnum)]) + weights[Pick(weights, rnum)]
  {
    SumFront(weights);
    if rnum >= weights[0] {
      var tail := weights[1..];
      PickInRange(tail, rnum - weights[0]);
      var p := Pick(tail, rnum - weights[0]);
      assert weights[..p + 1][1..] == tail[..p];
      SumFront(weights[..p + 1]);
    }
  }

  /** For non-negative weights the cumulative bounds determine the index:
      any i with
      sum(weights[0, i]) <= rnum < sum(weights[0, i]) + weights[i] is Pick's. */
  lemma {:induction false} PickUnique(weights: seq<real>, rnum: real, i: nat)
    requires NonNegative(weights) && i < |weights|
    requires Sum(weights[..i]) <= rnum < Sum(weights[..i]) + weights[i]
    ensures Pick(weights, rnum) == i
  {
    if i == 0 {
      assert weights[..0] == [];
    } else {
      SumFront(weights[..i]);
      assert weights[..i][1..] == weights[1..][..i - 1];
      SumNonNegative(weights[1..][..i - 1]);
      PickUnique(weights[1..], rnum - weights[0], i - 1);
    }
  }

  /** Random.rand(limit) for a float limit > 0, given the generator's unit
      draw u in [0, 1). */
  function RandBelow(u: real, limit: real): (r: real)
    requires 0.0 <= u < 1.0 && limit > 0.0
    ensures 0.0 <= r < limit
  {
    assert limit - u * limit == (1.0 - u) * limit;
    u * limit
  }

  /** The draw made from dupweights lands on a slot of positive weight. */
  lemma NextDraw(dupweights: seq<real>, u: real)
    requires NonNegative(dupweights) && Positives(dupweights) > 0 && 0.0 <= u < 1.0
    ensures Sum(dupweights) > 0.0
    ensures Pick(dupweights, RandBelow(u, Sum(dupweights))) < |dupweights|
    ensures dupweights[Pick(dupweights, RandBelow(u, Sum(dupweights)))] > 0.0
  {
    SumPositive(dupweights);
    PickInRange(dupweights, RandBelow(u, Sum(dupweights)));
  }

  /** Stats.choose1(weights) with the draw rnum = u * sum(weights): scans the
      cumulative weights until rnum falls inside the current slot. The
      documented precondition also asks for non-negative weights; the scan
      only needs a positive sum. */
  method Choose1(weights: seq<real>, u: real) returns (i: nat)
    requires Sum(weights) > 0.0
    requires 0.0 <= u < 1.0
    ensures i < |weights| && weights[i] > 0.0
    ensures Sum(weights[..i]) <= RandBelow(u, Sum(weights)) < Sum(weights[..i]) + weights[i]
    ensures i == Pick(weights, RandBelow(u, Sum(weights)))
  {
    var rnum := RandBelow(u, Sum(weights));
    assert weights[..|weights|] == weights;
    i := 0;
    var cumulative := 0.0;
    while cumulative + weights[i] <= rnum
      invariant i < |weights|
      invariant cumulative == Sum(weights[..i])
      invariant cumulative <= rnum
      invariant Pick(weights, rnum) == i + Pick(weights[i..], rnum - cumulative)
      decreases |weights| - i
    {
      assert weights[..i + 1][..i] == weights[..i];
      assert weights[i..][1..] == weights[i + 1..];
      cumulative := cumulative + weights[i];
      i := i + 1;
    }
    PickInRange(weights, rnum);
  }

  /** Which draws are well-defined: every weight non-negative and, for each
      of the count draws, a positive weight left to choose. */
  predicate CanDraw(weights: seq<real>, count: nat, replace: bool)
  {
    NonNegative(weights) &&
    (if replace then count == 0 || Positives(weights) > 0 else count <= Positives(weights))
  }

  /** The first count draws of Stats.choose: the values chosen so far and the
      working copy dupweights. Indices are computed against dupweights but
      used on the original values. */
  function Draws<T>(values: seq<T>, weights: seq<real>, count: nat, replace: bool, units: seq<real>)
    : (r: (seq<T>, seq<real>))
    requires |weights| <= |values| && CanDraw(weights, count, replace)
    requires count <= |units| && forall k :: 0 <= k < |units| ==> 0.0 <= units[k] < 1.0
    ensures |r.0| == count
    ensures forall x :: x in r.0 ==> x in values
    ensures NonNegative(r.1)
    ensures replace ==> r.1 == weights
    ensures !replace ==> |r.1| == |weights| - count && Positives(r.1) == Positives(weights) - count
  {
    if count == 0 then ([], weights)
    else
      var previous := Draws(values, weights, count - 1, replace, units);
      var chosen, dupweights := previous.0, previous.1;
      NextDraw(dupweights, units[count - 1]);
      var idx := Pick(dupweights, RandBelow(units[count - 1], Sum(dupweights)));
      if replace then
        (chosen + [values[idx]], dupweights)
      else
        RemovePositive(dupweights, idx);
        (chosen + [values[idx]], RemoveAt(dupweights, idx))
  }

  /** One iteration of the loop of Stats.choose: idx = choose1(dupweights),
      chosen << values[idx], and dupweights.delete_at(idx) unless replace. */
  method DrawOne<T>(values: seq<T>, weights: seq<real>, drawn: nat, replace: bool, units: seq<real>,
                    chosen: seq<T>, dupweights: seq<real>)
    returns (chosen': seq<T>, dupweights': seq<real>)
    requires |weights| <= |values| && CanDraw(weights, drawn + 1, replace)
    requires drawn < |units| && forall k :: 0 <= k < |units| ==> 0.0 <= units[k] < 1.0
    requires (chosen, dupweights) == Draws(values, weights, drawn, replace, units)
    ensures (chosen', dupweights') == Draws(values, weights, drawn + 1, replace, units)
  {
    NextDraw(dupweights, units[drawn]);
    var idx := Choose1(dupweights, units[drawn]);
    chosen' := chosen + [values[idx]];
    dupweights' := if replace then dupweights else RemoveAt(dupweights, idx);
  }

  /** Stats.choose(values:, weights:, count:, replace:). */
  method Choose<T>(values: seq<T>, weights: seq<real>, count: nat, replace: bool, units: seq<real>)
    returns (chosen: seq<T>)
    requires |weights| <= |values| && CanDraw(weights, count, replace)
    requires count <= |units| && forall k :: 0 <= k < |units| ==> 0.0 <= units[k] < 1.0
    ensures chosen == Draws(values, weights, count, replace, units).0
    ensures |chosen| == count && forall x :: x in chosen ==> x in values
  {
    chosen := [];
    var dupweights := weights;
    while |chosen| < count
      invariant |chosen| <= count
      invariant (chosen, dupweights) == Draws(values, weights, |chosen|, replace, units)
    {
      chosen, dupweights := DrawOne(values, weights, |chosen|, replace, units, chosen, dupweights);
    }
  }

  /** Without replacement the chosen values can still repeat: the second
      index is computed against the shrunken dupweights but used on the
      unshrunken values. Here both draws return values[1]. */
  lemma ChooseMayRepeat()
    ensures Draws([10, 20, 30], [1.0, 1.0, 1.0], 2, false, [0.5, 0.75]).0 == [20, 20]
  {
    var weights := [1.0, 1.0, 1.0];
    assert Sum(weights) == 3.0 by {
      assert weights[..2][..1] == [1.0];
      assert weights[..2][..1][..0] == [];
    }
    assert Pick(weights, 1.5) == 1 by {
      assert weights[1..] == [1.0, 1.0];
    }
    var first := Draws([10, 20, 30], weights, 1, false, [0.5, 0.75]);
    assert first == ([20], [1.0, 1.0]) by {
      assert Draws([10, 20, 30], weights, 0, false, [0.5, 0.75]) == ([], weights);
      assert RandBelow(0.5, Sum(weights)) == 1.5;
      assert Pick(weights, RandBelow(0.5, Sum(weights))) == 1;
      assert RemoveAt(weights, 1) == [1.0, 1.0];
      assert [] + [[10, 20, 30][1]] == [20];
    }
    var rest := [1.0, 1.0];
    assert Sum(rest) == 2.0 by {
      assert rest[..1] == [1.0];
      assert rest[..1][..0] == [];
    }
    assert RandBelow(0.75, Sum(rest)) == 1.5;
    assert Pick(rest, 1.5) == 1 by {
      assert rest[1..] == [1.0];
    }
    assert [20] + [[10, 20, 30][1]] == [20, 20];
  }
}
