/** The caller's experiment configuration (the groupsAndWeightings array of
    LeanAb::setupExperiment) and the weight validation of
    LeanAb::createExperiment: every weight that is present must be numeric and
    within [0, 100], and the accepted weights must add up to exactly 100. */
module Config {
  import opened Base
  import opened Selection

  /** Slot 1 of one group entry: unset or null, a value PHP's is_numeric
      refuses, or a number. */
  datatype Weight = Absent | NonNumeric | Num(n: int)

  /** One (name, weight) entry of the configuration array. */
  datatype Entry = Entry(name: string, weight: Weight)

  /** The integer PHP reads from a weight slot in comparisons and arithmetic
      (null and non-numeric strings read as 0); also what the TINYINT weight
      column stores for an entry whose weight is missing. */
  function AsNumber(w: Weight): int
  {
    if w.Num? then w.n else 0
  }

  /** The entries as groups, in the caller's order. */
  function ToGroups(es: seq<Entry>): seq<Group>
  {
    seq(|es|, k requires 0 <= k < |es| => Group(es[k].name, AsNumber(es[k].weight)))
  }

  predicate DistinctNames(es: seq<Entry>)
  {
    Distinct(Names(ToGroups(es)))
  }

  /** The name of the first configured group, the fallback of setupExperiment;
      None (PHP null) when nothing is configured. */
  function FirstName(es: seq<Entry>): Option<string>
  {
    if |es| > 0 then Some(es[0].name) else None
  }

  /** A present weight createExperiment refuses: not numeric, below 0 or above 100. */
  predicate Rejected(w: Weight)
  {
    w.NonNumeric? || (w.Num? && (w.n < 0 || w.n > 100))
  }

  /** What one entry adds to the running sum: its weight when present and accepted. */
  function Accepted(w: Weight): int
  {
    if w.Num? && !Rejected(w) then w.n else 0
  }

  function AcceptedSum(es: seq<Entry>): int
  {
    if es == [] then 0 else Accepted(es[0].weight) + AcceptedSum(es[1..])
  }

  /** The configuration createExperiment accepts. */
  predicate WeightsOk(es: seq<Entry>)
  {
    (forall k :: 0 <= k < |es| ==> !Rejected(es[k].weight)) && AcceptedSum(es) == 100
  }

  lemma {:induction false} AcceptedSumSnoc(es: seq<Entry>, e: Entry)
    ensures AcceptedSum(es + [e]) == AcceptedSum(es) + Accepted(e.weight)
  {
    if es != [] {
      assert (es + [e])[1..] == es[1..] + [e];
      AcceptedSumSnoc(es[1..], e);
    } else {
      assert [e][1..] == [];
    }
  }

  /** The validation loop of createExperiment: a running sum and an error
      flag over the entries, entries without a weight skipped; the result is
      true exactly for the configurations WeightsOk describes. */
  method CheckWeights(es: seq<Entry>) returns (ok: bool)
    ensures ok == WeightsOk(es)
  {
    var hadError := false;
    var sumPercent := 0;
    for i := 0 to |es|
      invariant sumPercent == AcceptedSum(es[..i])
      invariant hadError <==> exists k :: 0 <= k < i && Rejected(es[k].weight)
    {
      var w := es[i].weight;
      if !w.Absent? {
        if w.NonNumeric? || w.n < 0 || w.n > 100 {
          hadError := true;
        } else {
          sumPercent := sumPercent + w.n;
        }
      }
      assert es[..i + 1] == es[..i] + [es[i]];
      AcceptedSumSnoc(es[..i], es[i]);
    }
    assert es[..|es|] == es;
    if sumPercent != 100 {
      hadError := true;
    }
    ok := !hadError;
  }

  /** Validated weights are what the draw needs for fairness: stored as
      groups they are non-negative and add up to exactly 100. */
  lemma {:induction false} ValidatedWeightsTotal100(es: seq<Entry>)
    requires WeightsOk(es)
    ensures NonNegative(ToGroups(es)) && Total(ToGroups(es)) == 100
  {
    AcceptedSumIsTotal(es);
  }

  lemma {:induction false} AcceptedSumIsTotal(es: seq<Entry>)
    requires forall k :: 0 <= k < |es| ==> !Rejected(es[k].weight)
    ensures NonNegative(ToGroups(es)) && AcceptedSum(es) == Total(ToGroups(es))
  {
    if es != [] {
      AcceptedSumIsTotal(es[1..]);
      assert ToGroups(es)[1..] == ToGroups(es[1..]);
    }
  }

  /** The groups rows that inserting the entries one by one leaves behind
      when the unique key (experiment_id, name) refuses a second group of the
      same name: the first entry of each name, in order. */
  function Dedup(es: seq<Entry>): seq<Group>
  {
    if es == [] then []
    else
      var d := Dedup(es[..|es| - 1]);
      var e := es[|es| - 1];
      if e.name in Names(d) then d else d + [Group(e.name, AsNumber(e.weight))]
  }

  lemma NamesSnoc(gs: seq<Group>, g: Group)
    ensures Names(gs + [g]) == Names(gs) + [g.name]
  {
  }

  lemma ToGroupsSnoc(es: seq<Entry>, e: Entry)
    ensures ToGroups(es + [e]) == ToGroups(es) + [Group(e.name, AsNumber(e.weight))]
  {
  }

  /** Entry names stay distinct after one more entry exactly when its name is new. */
  lemma DistinctNamesSnoc(es: seq<Entry>, e: Entry)
    ensures DistinctNames(es + [e]) <==> DistinctNames(es) && e.name !in Names(ToGroups(es))
  {
    ToGroupsSnoc(es, e);
    NamesSnoc(ToGroups(es), Group(e.name, AsNumber(e.weight)));
    DistinctSnoc(Names(ToGroups(es)), e.name);
  }

  /** Dedup keeps every name of the configuration, once each. */
  lemma {:induction false} DedupNames(es: seq<Entry>)
    ensures Distinct(Names(Dedup(es)))
    ensures forall n :: n in Names(Dedup(es)) <==> n in Names(ToGroups(es))
  {
    if es != [] {
      var front, e := es[..|es| - 1], es[|es| - 1];
      assert es == front + [e];
      DedupNames(front);
      var d := Dedup(front);
      var g := Group(e.name, AsNumber(e.weight));
      ToGroupsSnoc(front, e);
      NamesSnoc(ToGroups(front), g);
      if e.name !in Names(d) {
        NamesSnoc(d, g);
        DistinctSnoc(Names(d), e.name);
      }
    }
  }

  /** One more entry inserted: it is refused exactly when its name is already
      stored, and otherwise appended. */
  lemma DedupPrefixStep(es: seq<Entry>, i: nat)
    requires i < |es|
    ensures Dedup(es[..i + 1]) ==
              if es[i].name in Names(Dedup(es[..i])) then Dedup(es[..i])
              else Dedup(es[..i]) + [Group(es[i].name, AsNumber(es[i].weight))]
    ensures |Dedup(es[..i])| <= i
  {
    assert es[..i + 1][..i] == es[..i];
    DedupLength(es[..i]);
  }

  /** Every entry adds at most one row. */
  lemma {:induction false} DedupLength(es: seq<Entry>)
    ensures |Dedup(es)| <= |es|
  {
    if es != [] {
      DedupLength(es[..|es| - 1]);
    }
  }

  /** Every entry is stored exactly when no name repeats. */
  lemma {:induction false} DedupCompleteIffDistinct(es: seq<Entry>)
    ensures |Dedup(es)| == |es| <==> DistinctNames(es)
  {
    if es != [] {
      var front, e := es[..|es| - 1], es[|es| - 1];
      assert es == front + [e];
      DedupCompleteIffDistinct(front);
      DedupLength(front);
      DedupNames(front);
      DistinctNamesSnoc(front, e);
    }
  }

  /** With distinct names nothing is refused: the stored groups are the
      configuration itself, in the given order. */
  lemma {:induction false} DedupOfDistinct(es: seq<Entry>)
    requires DistinctNames(es)
    ensures Dedup(es) == ToGroups(es)
  {
    if es != [] {
      var front, e := es[..|es| - 1], es[|es| - 1];
      assert es == front + [e];
      DistinctNamesSnoc(front, e);
      DedupOfDistinct(front);
      ToGroupsSnoc(front, e);
    }
  }
}
