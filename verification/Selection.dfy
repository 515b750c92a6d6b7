/**
 Greedy selection under a budget. Candidates are tried in a priority order and kept
 whenever the running selection still fits. A selection is a mask over the candidates;
 its weight is a base, the costs of the chosen ones, and one extra cost if any
 candidate of a distinguished group is chosen (the wrapper of a shared message).

 The central result is that the greedy outcome is the lexicographically greatest
 selection that fits: no selection, however found, does better on a candidate without
 doing worse on one of higher priority.
 */
module Selection {
  type Mask = seq<bool>

  datatype Budget = Budget(max: int, base: nat, costs: seq<nat>, grouped: seq<bool>, groupCost: nat) {
    predicate Covers(mask: Mask) {
      |mask| == |costs| == |grouped|
    }
  }

  function Sum(costs: seq<nat>, mask: Mask): nat
    requires |costs| == |mask|
  {
    if mask == [] then 0
    else (if mask[0] then costs[0] else 0) + Sum(costs[1..], mask[1..])
  }

  predicate AnyGrouped(grouped: seq<bool>, mask: Mask)
    requires |grouped| == |mask|
  {
    exists i :: 0 <= i < |mask| && mask[i] && grouped[i]
  }

  function Weight(b: Budget, mask: Mask): nat
    requires b.Covers(mask)
  {
    b.base + Sum(b.costs, mask) + if AnyGrouped(b.grouped, mask) then b.groupCost else 0
  }

  predicate Fits(b: Budget, mask: Mask)
    requires b.Covers(mask)
  {
    Weight(b, mask) <= b.max
  }

  function Nothing(n: nat): (mask: Mask)
    ensures |mask| == n && forall i :: 0 <= i < n ==> !mask[i]
  {
    seq(n, _ => false)
  }

  predicate IsOrder(order: seq<nat>, n: nat) {
    && (forall k :: 0 <= k < |order| ==> order[k] < n)
    && (forall j, k :: 0 <= j < k < |order| ==> order[j] != order[k])
  }

  /** Tries the candidates of `order` one after another, starting from `mask`. */
  function Greedy(b: Budget, order: seq<nat>, mask: Mask): (r: Mask)
    requires b.Covers(mask) && IsOrder(order, |mask|)
    ensures |r| == |mask|
  {
    if order == [] then mask
    else
      var trial := mask[order[0] := true];
      Greedy(b, order[1..], if Fits(b, trial) then trial else mask)
  }

  /** Candidates outside the order stay as they are. */
  lemma {:induction false} GreedyUntouched(b: Budget, order: seq<nat>, mask: Mask, i: nat)
    requires b.Covers(mask) && IsOrder(order, |mask|) && i < |mask|
    requires forall k :: 0 <= k < |order| ==> order[k] != i
    ensures Greedy(b, order, mask)[i] == mask[i]
  {
    hide Fits;
    if order != [] {
      var trial := mask[order[0] := true];
      GreedyUntouched(b, order[1..], if Fits(b, trial) then trial else mask, i);
    }
  }

  // ----- monotonicity

  ghost predicate Within(p: Mask, q: Mask) {
    |p| == |q| && forall i :: 0 <= i < |p| ==> p[i] ==> q[i]
  }

  lemma {:induction false} SumMonotone(costs: seq<nat>, p: Mask, q: Mask)
    requires |costs| == |p| && Within(p, q)
    ensures Sum(costs, p) <= Sum(costs, q)
  {
    if p != [] {
      assert Within(p[1..], q[1..]);
      SumMonotone(costs[1..], p[1..], q[1..]);
    }
  }

  lemma WeightMonotone(b: Budget, p: Mask, q: Mask)
    requires b.Covers(p) && Within(p, q)
    ensures Weight(b, p) <= Weight(b, q)
  {
    SumMonotone(b.costs, p, q);
  }

  // ----- the greedy outcome

  lemma {:induction false} GreedyFits(b: Budget, order: seq<nat>, mask: Mask)
    requires b.Covers(mask) && IsOrder(order, |mask|) && Fits(b, mask)
    ensures Fits(b, Greedy(b, order, mask))
  {
    if order != [] {
      var trial := mask[order[0] := true];
      GreedyFits(b, order[1..], if Fits(b, trial) then trial else mask);
    }
  }

  /** `p` is at least as good as `q`: where they first differ along `order`, `p` has the candidate. */
  ghost predicate LexAtLeast(order: seq<nat>, p: Mask, q: Mask)
    requires |p| == |q| && IsOrder(order, |p|)
  {
    order == [] ||
    if p[order[0]] != q[order[0]] then p[order[0]] else LexAtLeast(order[1..], p, q)
  }

  /** No selection that fits, and that leaves the candidates outside `order` alone, beats the greedy one. */
  lemma {:induction false} GreedyLexGreatest(b: Budget, order: seq<nat>, mask: Mask, other: Mask)
    requires b.Covers(mask) && b.Covers(other) && IsOrder(order, |mask|)
    requires forall k :: 0 <= k < |order| ==> !mask[order[k]]
    requires forall i :: 0 <= i < |mask| && i !in order ==> other[i] == mask[i]
    requires Fits(b, other)
    ensures LexAtLeast(order, Greedy(b, order, mask), other)
  {
    hide Fits;
    if order != [] {
      var i, rest := order[0], order[1..];
      assert forall k :: 0 <= k < |rest| ==> rest[k] == order[k + 1] != i;
      var trial := mask[i := true];
      if other[i] {
        assert Within(trial, other) by {
          forall j | 0 <= j < |trial| && trial[j] ensures other[j] {
            if j != i {
              assert mask[j];
              assert j !in order;
            }
          }
        }
        FitsBelow(b, trial, other);
        GreedyUntouched(b, rest, trial, i);
        GreedyLexGreatest(b, rest, trial, other);
      } else if Fits(b, trial) {
        GreedyUntouched(b, rest, trial, i);
      } else {
        GreedyUntouched(b, rest, mask, i);
        GreedyLexGreatest(b, rest, mask, other);
      }
    }
  }

  lemma FitsBelow(b: Budget, p: Mask, q: Mask)
    requires b.Covers(p) && Within(p, q) && Fits(b, q)
    ensures Fits(b, p)
  {
    WeightMonotone(b, p, q);
  }

  lemma {:induction false} LexAtLeastElement(order: seq<nat>, p: Mask, q: Mask, i: nat)
    requires |p| == |q| && IsOrder(order, |p|) && LexAtLeast(order, p, q)
    requires i in order && Within(p, q) && q[i]
    ensures p[i]
  {
    if order[0] != i {
      assert i in order[1..];
      LexAtLeastElement(order[1..], p, q, i);
    }
  }

  /** No rejected candidate could be added to the greedy outcome. */
  lemma GreedyMaximal(b: Budget, order: seq<nat>, mask: Mask, i: nat)
    requires b.Covers(mask) && IsOrder(order, |mask|)
    requires forall k :: 0 <= k < |order| ==> !mask[order[k]]
    requires i in order && !Greedy(b, order, mask)[i]
    ensures !Fits(b, Greedy(b, order, mask)[i := true])
  {
    var r := Greedy(b, order, mask);
    var more := r[i := true];
    if Fits(b, more) {
      forall j | 0 <= j < |mask| && j !in order ensures more[j] == mask[j] {
        GreedyUntouched(b, order, mask, j);
      }
      GreedyLexGreatest(b, order, mask, more);
      LexAtLeastElement(order, r, more, i);
      assert false;
    }
  }

  /** If everything fits together, everything is taken: a shortcut test may skip the loop. */
  lemma GreedyTakesAll(b: Budget, order: seq<nat>, mask: Mask, all: Mask)
    requires b.Covers(mask) && b.Covers(all) && IsOrder(order, |mask|)
    requires forall k :: 0 <= k < |order| ==> !mask[order[k]] && all[order[k]]
    requires forall i :: 0 <= i < |mask| && i !in order ==> all[i] == mask[i]
    requires Fits(b, all)
    ensures Greedy(b, order, mask) == all
  {
    var r := Greedy(b, order, mask);
    GreedyLexGreatest(b, order, mask, all);
    assert Within(r, all) by {
      forall i | 0 <= i < |mask| && i !in order ensures r[i] == all[i] {
        GreedyUntouched(b, order, mask, i);
      }
    }
    forall i | 0 <= i < |mask| ensures r[i] == all[i] {
      if i in order {
        LexAtLeastElement(order, r, all, i);
      } else {
        GreedyUntouched(b, order, mask, i);
      }
    }
  }

  /** After `k` candidates of `order`, starting from `start`, a greedy loop holds `mask`. */
  ghost predicate GreedyAt(b: Budget, order: seq<nat>, start: Mask, k: nat, mask: Mask) {
    && b.Covers(start) && b.Covers(mask) && k <= |order|
    && IsOrder(order, |mask|) && IsOrder(order[k..], |mask|)
    && Greedy(b, order[k..], mask) == Greedy(b, order, start)
  }

  lemma GreedyBegins(b: Budget, order: seq<nat>, start: Mask)
    requires b.Covers(start) && IsOrder(order, |start|)
    ensures GreedyAt(b, order, start, 0, start)
  {
    assert order[0..] == order;
  }

  lemma OrderTail(order: seq<nat>, n: nat, k: nat)
    requires IsOrder(order, n) && k < |order|
    ensures IsOrder(order[k + 1..], n) && order[k] < n
  {
  }

  lemma GreedyUnfold(b: Budget, order: seq<nat>, mask: Mask)
    requires b.Covers(mask) && IsOrder(order, |mask|) && order != []
    ensures order[0] < |mask| && IsOrder(order[1..], |mask|)
    ensures var trial := mask[order[0] := true];
            Greedy(b, order, mask) == Greedy(b, order[1..], if Fits(b, trial) then trial else mask)
  {
    hide Fits;
  }

  lemma GreedyStep(b: Budget, order: seq<nat>, start: Mask, k: nat, mask: Mask)
    requires GreedyAt(b, order, start, k, mask) && k < |order|
    ensures order[k] < |mask| == |start| && b.Covers(mask[order[k] := true])
    ensures var trial := mask[order[k] := true];
            GreedyAt(b, order, start, k + 1, if Fits(b, trial) then trial else mask)
  {
    hide Fits, Greedy, IsOrder;
    OrderTail(order, |mask|, k);
    assert order[k..][0] == order[k] && order[k..][1..] == order[k + 1..];
    GreedyUnfold(b, order[k..], mask);
  }

  lemma GreedyEnds(b: Budget, order: seq<nat>, start: Mask, mask: Mask)
    requires GreedyAt(b, order, start, |order|, mask)
    ensures |mask| == |start| && mask == Greedy(b, order, start)
  {
    assert order[|order|..] == [];
  }

  lemma {:induction false} GreedyConcat(b: Budget, first: seq<nat>, second: seq<nat>, mask: Mask)
    requires b.Covers(mask) && IsOrder(first + second, |mask|)
    requires IsOrder(first, |mask|) && IsOrder(second, |mask|)
    ensures Greedy(b, first + second, mask) == Greedy(b, second, Greedy(b, first, mask))
  {
    if first == [] {
      assert first + second == second;
    } else {
      var trial := mask[first[0] := true];
      assert (first + second)[1..] == first[1..] + second;
      GreedyConcat(b, first[1..], second, if Fits(b, trial) then trial else mask);
    }
  }

  /** Trying one more candidate after all of `order`. */
  lemma GreedySnoc(b: Budget, order: seq<nat>, i: nat, mask: Mask)
    requires b.Covers(mask) && IsOrder(order, |mask|) && IsOrder(order + [i], |mask|)
    ensures i < |mask|
    ensures var before := Greedy(b, order, mask);
            Greedy(b, order + [i], mask) == if Fits(b, before[i := true]) then before[i := true] else before
  {
    hide Fits;
    assert (order + [i])[|order|] == i;
    GreedyConcat(b, order, [i], mask);
    GreedyUnfold(b, [i], Greedy(b, order, mask));
  }

  // ----- what a mask selects

  /** The chosen elements, in their order. */
  function Select<T>(s: seq<T>, mask: Mask): (r: seq<T>)
    requires |s| == |mask|
    ensures |r| <= |s|
  {
    if s == [] then []
    else (if mask[0] then [s[0]] else []) + Select(s[1..], mask[1..])
  }

  lemma {:induction false} SumConcat(c: seq<nat>, d: seq<nat>, p: Mask, q: Mask)
    requires |c| == |p| && |d| == |q|
    ensures Sum(c + d, p + q) == Sum(c, p) + Sum(d, q)
  {
    if c == [] {
      assert c + d == d && p + q == q;
    } else {
      assert (c + d)[1..] == c[1..] + d && (p + q)[1..] == p[1..] + q;
      SumConcat(c[1..], d, p[1..], q);
    }
  }

  lemma {:induction false} SelectNone<T>(s: seq<T>, mask: Mask)
    requires |s| == |mask| && forall i :: 0 <= i < |mask| ==> !mask[i]
    ensures Select(s, mask) == []
  {
    if s != [] {
      SelectNone(s[1..], mask[1..]);
    }
  }

  lemma {:induction false} SelectEverything<T>(s: seq<T>, mask: Mask)
    requires |s| == |mask| && forall i :: 0 <= i < |mask| ==> mask[i]
    ensures Select(s, mask) == s
  {
    if s != [] {
      SelectEverything(s[1..], mask[1..]);
    }
  }

  lemma {:induction false} SelectSome<T>(s: seq<T>, mask: Mask)
    requires |s| == |mask|
    ensures Select(s, mask) == [] <==> forall i :: 0 <= i < |mask| ==> !mask[i]
  {
    if s != [] {
      SelectSome(s[1..], mask[1..]);
      if Select(s, mask) == [] {
        forall i | 0 <= i < |mask| ensures !mask[i] {
          assert i == 0 || !mask[1..][i - 1];
        }
      } else if !mask[0] {
        var i :| 0 <= i < |mask[1..]| && mask[1..][i];
        assert mask[i + 1];
      }
    }
  }

  /** Choosing an element that precedes all chosen ones puts it in front. */
  lemma {:induction false} SelectInFront<T>(s: seq<T>, mask: Mask, i: nat)
    requires |s| == |mask| && i < |mask|
    requires forall j :: 0 <= j <= i ==> !mask[j]
    ensures Select(s, mask[i := true]) == [s[i]] + Select(s, mask)
  {
    var m' := mask[i := true];
    if i == 0 {
      assert m'[1..] == mask[1..];
    } else {
      assert m'[1..] == mask[1..][i - 1 := true];
      SelectInFront(s[1..], mask[1..], i - 1);
    }
  }

  /** Choosing an element that follows all chosen ones puts it last. */
  lemma {:induction false} SelectAtEnd<T>(s: seq<T>, mask: Mask, i: nat)
    requires |s| == |mask| && i < |mask|
    requires forall j :: i <= j < |mask| ==> !mask[j]
    ensures Select(s, mask[i := true]) == Select(s, mask) + [s[i]]
  {
    var m' := mask[i := true];
    if i == 0 {
      assert m'[1..] == mask[1..];
      SelectNone(s[1..], mask[1..]);
    } else {
      assert m'[1..] == mask[1..][i - 1 := true];
      SelectAtEnd(s[1..], mask[1..], i - 1);
    }
  }
}
