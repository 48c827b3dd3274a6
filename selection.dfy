/** Weighted choice of a hypothesis group for a draw r in [1, 100]: the loop of
    LeanAb::getRandomGroupForExperiment, which subtracts each group's weight
    from the draw and stops at the first group whose weight is not below what
    is left. The method that runs the loop lives with the store (it may read
    the stored groups); this module gives the function it is proved against and
    what is proved about that function: the first-cumulative-threshold
    characterisation, zero-weight groups are never chosen, a draw within the
    total always finds a group, and every group owns exactly its weight's worth
    of the 100 possible draws. */
module Selection {
  import opened Base

  /** A hypothesis group as the draw and the groups table see it. */
  datatype Group = Group(name: string, weight: int)

  /** The group names, in order. */
  function Names(gs: seq<Group>): (ns: seq<string>)
    ensures |ns| == |gs|
    ensures forall k :: 0 <= k < |gs| ==> ns[k] == gs[k].name
  {
    seq(|gs|, k requires 0 <= k < |gs| => gs[k].name)
  }

  predicate NonNegative(gs: seq<Group>)
  {
    forall k :: 0 <= k < |gs| ==> gs[k].weight >= 0
  }

  /** Sum of the weights of the first k groups. */
  function Cum(gs: seq<Group>, k: nat): int
    requires k <= |gs|
  {
    if k == 0 then 0 else gs[0].weight + Cum(gs[1..], k - 1)
  }

  function Total(gs: seq<Group>): int
  {
    Cum(gs, |gs|)
  }

  function Shift(o: Option<nat>, d: nat): Option<nat>
  {
    match o
    case None => None
    case Some(i) => Some(i + d)
  }

  /** Position of the group the draw r stops at, or None when the loop runs
      off the end of the list. */
  function PickIndex(gs: seq<Group>, r: int): (o: Option<nat>)
    ensures o.Some? ==> o.value < |gs|
  {
    if gs == [] then None
    else if r <= gs[0].weight then Some(0)
    else Shift(PickIndex(gs[1..], r - gs[0].weight), 1)
  }

  /** The group name the draw r yields; "" when no group is reached. */
  function Choose(gs: seq<Group>, r: int): string
  {
    match PickIndex(gs, r)
    case None => ""
    case Some(i) => gs[i].name
  }

  /** The loop of getRandomGroupForExperiment: walk the groups subtracting
      each weight from the draw and take the first group whose weight is at
      least what is left; "" when the walk runs off the end. */
  method WalkGroups(gs: seq<Group>, r: int) returns (g: string)
    ensures g == Choose(gs, r)
  {
    g := "";
    var rand := r;
    var cnt := 0;
    while cnt < |gs|
      invariant 0 <= cnt <= |gs|
      invariant g == ""
      invariant PickIndex(gs, r) == Shift(PickIndex(gs[cnt..], rand), cnt)
      decreases |gs| - cnt
    {
      PickIndexStep(gs, cnt, rand);
      var groupSize := gs[cnt].weight;
      if rand <= groupSize {
        g := gs[cnt].name;
        break;
      } else {
        rand := rand - groupSize;
      }
      cnt := cnt + 1;
    }
  }

  /** None of the cumulative weights of the first n groups reaches the draw r. */
  predicate Unreached(gs: seq<Group>, n: nat, r: int)
    requires n <= |gs|
  {
    forall k :: 1 <= k <= n ==> Cum(gs, k) < r
  }

  lemma {:induction false} CumStep(gs: seq<Group>, k: nat)
    requires k < |gs|
    ensures Cum(gs, k + 1) == Cum(gs, k) + gs[k].weight
  {
    if k > 0 {
      CumStep(gs[1..], k - 1);
    }
  }

  lemma {:induction false} CumMonotone(gs: seq<Group>, a: nat, b: nat)
    requires NonNegative(gs) && a <= b <= |gs|
    ensures Cum(gs, a) <= Cum(gs, b)
  {
    if a < b {
      CumMonotone(gs, a, b - 1);
      CumStep(gs, b - 1);
    }
  }

  /** One step of the loop at position k, with what is left of the draw:
      the group there either stops the draw or passes the remainder on to the
      rest of the list. */
  lemma PickIndexStep(gs: seq<Group>, k: nat, rest: int)
    requires k < |gs|
    ensures Shift(PickIndex(gs[k..], rest), k) ==
              if rest <= gs[k].weight then Some(k)
              else Shift(PickIndex(gs[k + 1..], rest - gs[k].weight), k + 1)
  {
    assert gs[k..][1..] == gs[k + 1..];
  }

  /** The draw r stops at group i exactly when the cumulative weight up to and
      including group i reaches r and no earlier cumulative weight does: the
      first group whose cumulative weight is at least r. */
  lemma PickIndexIsFirstReaching(gs: seq<Group>, r: int, i: nat)
    requires i < |gs|
    ensures PickIndex(gs, r) == Some(i) <==>
              r <= Cum(gs, i + 1) && Unreached(gs, i, r)
  {
    if PickIndex(gs, r) == Some(i) {
      PickedIsFirstReaching(gs, r, i);
    }
    if r <= Cum(gs, i + 1) && Unreached(gs, i, r) {
      FirstReachingIsPicked(gs, r, i);
    }
  }

  /** Cumulative weights of a list are its head's weight plus those of its tail. */
  lemma CumTail(gs: seq<Group>)
    requires gs != []
    ensures forall k :: 1 <= k <= |gs| ==> Cum(gs, k) == gs[0].weight + Cum(gs[1..], k - 1)
  {
  }

  lemma {:induction false} PickedIsFirstReaching(gs: seq<Group>, r: int, i: nat)
    requires i < |gs| && PickIndex(gs, r) == Some(i)
    ensures r <= Cum(gs, i + 1) && Unreached(gs, i, r)
  {
    var w, tail := gs[0].weight, gs[1..];
    CumTail(gs);
    if i > 0 {
      assert r > w && PickIndex(tail, r - w) == Some(i - 1);
      PickedIsFirstReaching(tail, r - w, i - 1);
      forall k | 1 <= k <= i ensures Cum(gs, k) < r {
        if k > 1 {
          assert Cum(tail, k - 1) < r - w;
        }
      }
    }
  }

  lemma {:induction false} FirstReachingIsPicked(gs: seq<Group>, r: int, i: nat)
    requires i < |gs| && r <= Cum(gs, i + 1) && Unreached(gs, i, r)
    ensures PickIndex(gs, r) == Some(i)
  {
    var w, tail := gs[0].weight, gs[1..];
    CumTail(gs);
    if i > 0 {
      assert Cum(gs, 1) < r;
      forall k | 1 <= k <= i - 1 ensures Cum(tail, k) < r - w {
        assert Cum(gs, k + 1) < r;
      }
      FirstReachingIsPicked(tail, r - w, i - 1);
    }
  }

  /** The loop runs off the end (and the source returns "") exactly when no
      cumulative weight reaches r. */
  lemma {:induction false} PickIndexNoneIffUnreached(gs: seq<Group>, r: int)
    ensures PickIndex(gs, r) == None <==> Unreached(gs, |gs|, r)
  {
    if gs != [] {
      var w := gs[0].weight;
      var tail := gs[1..];
      PickIndexNoneIffUnreached(tail, r - w);
      assert forall k :: 1 <= k <= |gs| ==> Cum(gs, k) == w + Cum(tail, k - 1);
      assert Cum(tail, 0) == 0;
      if Unreached(gs, |gs|, r) {
        assert Cum(gs, 1) < r;
        forall k | 1 <= k <= |tail| ensures Cum(tail, k) < r - w {
          assert Cum(gs, k + 1) < r;
        }
        assert PickIndex(tail, r - w) == None;
      }
      if PickIndex(gs, r) == None {
        assert r > w;
        assert PickIndex(tail, r - w) == None;
        forall k | 1 <= k <= |gs| ensures Cum(gs, k) < r {
          if k > 1 {
            assert Cum(tail, k - 1) < r - w;
          }
        }
      }
    }
  }

  /** With non-negative weights and a draw of at least 1, group i owns the
      draws in the half-open interval (Cum(gs, i), Cum(gs, i + 1)]. */
  lemma PickIndexInterval(gs: seq<Group>, r: int, i: nat)
    requires NonNegative(gs) && 1 <= r && i < |gs|
    ensures PickIndex(gs, r) == Some(i) <==> Cum(gs, i) < r <= Cum(gs, i + 1)
  {
    PickIndexIsFirstReaching(gs, r, i);
    if Cum(gs, i) < r <= Cum(gs, i + 1) {
      forall k | 1 <= k <= i ensures Cum(gs, k) < r {
        CumMonotone(gs, k, i);
      }
    }
  }

  /** A group of weight 0 is never chosen by a draw in the source's range. */
  lemma ZeroWeightNeverChosen(gs: seq<Group>, r: int, i: nat)
    requires 1 <= r && i < |gs| && gs[i].weight == 0
    ensures PickIndex(gs, r) != Some(i)
  {
    PickIndexIsFirstReaching(gs, r, i);
    CumStep(gs, i);
    if i == 0 {
      assert Cum(gs, 0) == 0;
    } else {
      assert Unreached(gs, i, r) ==> Cum(gs, i) < r;
    }
  }

  /** A draw between 1 and the total weight always reaches a group, so the
      source's "" result never appears for weights that add up to 100. */
  lemma {:induction false} DrawWithinTotalPicks(gs: seq<Group>, r: int)
    requires 1 <= r <= Total(gs)
    ensures PickIndex(gs, r).Some?
    ensures Choose(gs, r) == gs[PickIndex(gs, r).value].name
  {
    PickIndexNoneIffUnreached(gs, r);
    if gs != [] {
      assert !Unreached(gs, |gs|, r) by {
        assert r <= Cum(gs, |gs|);
      }
    }
  }

  predicate Within(lo: int, r: int, hi: int)
  {
    lo < r <= hi
  }

  /** The integers in the half-open interval (lo, hi]. */
  function Interval(lo: int, hi: int): set<int>
  {
    set r: int | lo < r <= hi && Within(lo, r, hi)
  }

  lemma {:induction false} IntervalSize(lo: int, hi: int)
    requires lo <= hi
    ensures |Interval(lo, hi)| == hi - lo
    decreases hi - lo
  {
    if lo < hi {
      IntervalSize(lo, hi - 1);
      assert Interval(lo, hi) == Interval(lo, hi - 1) + {hi};
    } else {
      assert Interval(lo, hi) == {};
    }
  }

  /** The draws in [1, 100] (the range of mt_rand(1, 100)) that choose group i. */
  function DrawsChoosing(gs: seq<Group>, i: nat): set<int>
  {
    set r: int | 1 <= r <= 100 && PickIndex(gs, r) == Some(i)
  }

  /** Fairness: for non-negative weights adding up to 100, group i is chosen
      by exactly weight_i of the 100 possible draws. */
  lemma Fairness(gs: seq<Group>, i: nat)
    requires NonNegative(gs) && Total(gs) == 100 && i < |gs|
    ensures |DrawsChoosing(gs, i)| == gs[i].weight
  {
    var lo, hi := Cum(gs, i), Cum(gs, i + 1);
    CumStep(gs, i);
    CumMonotone(gs, 0, i);
    CumMonotone(gs, i + 1, |gs|);
    assert Cum(gs, 0) == 0;
    forall r | r in DrawsChoosing(gs, i) ensures r in Interval(lo, hi) {
      PickIndexInterval(gs, r, i);
    }
    forall r | r in Interval(lo, hi) ensures r in DrawsChoosing(gs, i) {
      PickIndexInterval(gs, r, i);
    }
    assert DrawsChoosing(gs, i) == Interval(lo, hi);
    IntervalSize(lo, hi);
  }
}
