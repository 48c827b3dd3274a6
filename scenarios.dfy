/** Whole-call properties of LeanAb over a freshly installed store: what a
    sequence of calls to setup_experiment, belongs_to_experiment and the
    report does, derived from the method contracts alone. */
module Scenarios {
  import opened Base
  import opened Selection
  import opened Config
  import opened Reporting
  import opened LeanAbCore

  /** A configuration createExperiment accepts, with distinct group names
      that PHP does not consider empty. */
  predicate Deployable(es: seq<Entry>)
  {
    WeightsOk(es) && DistinctNames(es) && forall k :: 0 <= k < |es| ==> !PhpEmpty(es[k].name)
  }

  /** Creating an experiment from valid weights and listing its groups gives
      back the configured (name, weight) pairs in the configured order. */
  method CreateThenList(name: string, es: seq<Entry>) returns (ok: bool, listed: seq<Group>)
    requires WeightsOk(es) && DistinctNames(es)
    ensures ok && listed == ToGroups(es)
  {
    var store := new LeanAb();
    ok := store.CreateExperiment(name, es);
    listed := store.GetGroupsForExperiment(name);
    DedupOfDistinct(es);
  }

  /** Weights that are out of range or do not add up to 100 create nothing:
      the call fails, the experiment has no groups and is not listed. */
  method RefusedWeightsCreateNothing(name: string, es: seq<Entry>)
    returns (ok: bool, listed: seq<Group>, names: seq<string>)
    requires !WeightsOk(es)
    ensures !ok && listed == [] && names == []
  {
    var store := new LeanAb();
    ok := store.CreateExperiment(name, es);
    listed := store.GetGroupsForExperiment(name);
    names := store.GetAllExperimentNames();
  }

  /** The first resolution of a logged-in user creates the experiment and
      stores the drawn group; the second returns that group whatever
      configuration and draw it is given, and the store keeps one assignment. */
  method ResolveTwice(name: string, es: seq<Entry>, es2: seq<Entry>, user: string, r1: int, r2: int)
    returns (first: Option<string>, second: Option<string>, count: nat)
    requires Deployable(es) && !PhpEmpty(user)
    requires 1 <= r1 <= 100 && 1 <= r2 <= 100
    ensures first.Some? && first.value in Names(ToGroups(es))
    ensures second == first && count == 1
  {
    var store := new LeanAb();
    first := store.SetupExperiment(name, es, user, r1);
    DrawStoresGroup(store, name, es, r1);
    second := store.SetupExperiment(name, es2, user, r2);
    count := |store.assignments.Keys|;
  }

  /** After a valid configuration has created the experiment, a draw in
      [1, 100] picks a configured group that carries a weight above 0, and that
      group's name is stored, so the assignment is written. */
  lemma DrawStoresGroup(store: LeanAb, name: string, es: seq<Entry>, r: int)
    requires Deployable(es) && 1 <= r <= 100
    requires store.groups == map[name := Dedup(es)]
    ensures var pick := Choose(store.DrawList(name, es), r);
            pick in Names(ToGroups(es)) && !PhpEmpty(pick) && store.GroupNameStored(pick)
  {
    var gs := ToGroups(es);
    DedupOfDistinct(es);
    ValidatedWeightsTotal100(es);
    DrawWithinTotalPicks(gs, r);
    var i := PickIndex(gs, r).value;
    assert Names(gs)[i] == gs[i].name;
    assert Names(store.groups[name]) == Names(gs);
  }

  /** An anonymous user gets the first configured group and nothing is
      assigned; the experiment itself is still created when the weights are
      valid. */
  method AnonymousGetsFirstGroup(name: string, es: seq<Entry>, user: string, r: int)
    returns (exposed: Option<string>, count: nat, names: seq<string>)
    requires PhpEmpty(user) && 1 <= r <= 100 && |es| > 0
    ensures exposed == Some(es[0].name) && count == 0
    ensures names == if WeightsOk(es) then [name] else []
  {
    var store := new LeanAb();
    exposed := store.SetupExperiment(name, es, user, r);
    count := |store.assignments.Keys|;
    names := store.GetAllExperimentNames();
  }

  /** The configuration of an experiment split 50/50 between "control" and "design1". */
  function EvenSplit(): seq<Entry>
  {
    [Entry("control", Num(50)), Entry("design1", Num(50))]
  }

  /** The same groups with weights 10/10, which createExperiment would refuse. */
  function ShortSplit(): seq<Entry>
  {
    [Entry("control", Num(10)), Entry("design1", Num(10))]
  }

  lemma EvenSplitIsValid()
    ensures WeightsOk(EvenSplit()) && DistinctNames(EvenSplit())
    ensures Dedup(EvenSplit()) == [Group("control", 50), Group("design1", 50)]
    ensures Names(Dedup(EvenSplit())) == ["control", "design1"]
  {
    var es := EvenSplit();
    assert es[1..] == [es[1]];
    assert es[1..][1..] == [];
    DedupOfDistinct(es);
  }

  /** The draw 50 reaches neither group of the 10/10 configuration. */
  lemma ShortSplitMisses()
    ensures Choose(ToGroups(ShortSplit()), 50) == ""
  {
    var gs := ToGroups(ShortSplit());
    assert gs[1..] == [Group("design1", 10)];
    assert gs[1..][1..] == [];
  }

  /** A draw that reaches no group is returned as "" rather than replaced by
      the first configured group: an existing 50/50 experiment resolved with
      caller weights 10/10 and the draw 50. Nothing is assigned. */
  method FailedDrawIsReturned() returns (exposed: Option<string>, count: nat)
    ensures exposed == Some("") && count == 0
  {
    var store := new LeanAb();
    EvenSplitIsValid();
    var created := store.CreateExperiment("Design", EvenSplit());
    ShortSplitMisses();
    assert !store.GroupNameStored("") by {
      assert Names(store.groups["Design"]) == ["control", "design1"];
    }
    exposed := store.SetupExperiment("Design", ShortSplit(), "42", 50);
    count := |store.assignments.Keys|;
  }

  /** On the 50/50 split the draws 1 to 50 pick "control" and 51 to 100 pick "design1". */
  lemma EvenSplitDraws(r: int)
    requires 1 <= r <= 100
    ensures Choose(ToGroups(EvenSplit()), r) == if r <= 50 then "control" else "design1"
  {
    var gs := ToGroups(EvenSplit());
    assert gs[0] == Group("control", 50);
    assert gs[1..] == [Group("design1", 50)];
    if r > 50 {
      assert PickIndex(gs[1..], r - 50) == Some(0);
    }
  }

  /** A site funnel that reports two metrics for the users that include "u1"
      and only the first of them for any other set of users. */
  function SiteFunnel(ids: set<string>, params: map<string, string>): FunnelData
  {
    if "u1" in ids then [("Signup", "10 (50%)"), ("Paid", "3")] else [("Signup", "5 (25%)")]
  }

  /** A fresh store in which "u1" has been resolved with the draw 1 into the
      50/50 experiment "Design". */
  method OneUserResolved() returns (store: LeanAb)
    ensures fresh(store) && store.Valid()
    ensures store.experiments == ["Design"]
    ensures store.groups == map["Design" := [Group("control", 50), Group("design1", 50)]]
    ensures store.assignments == map[("u1", "Design") := "control"]
  {
    store := new LeanAb();
    EvenSplitIsValid();
    EvenSplitDraws(1);
    var exposed := store.SetupExperiment("Design", EvenSplit(), "u1", 1);
    assert Names(store.groups["Design"]) == ["control", "design1"];
    assert store.GroupNameStored("control");
  }

  /** The same store after "u2" has been resolved with the draw 100. */
  method TwoUsersResolved() returns (store: LeanAb)
    ensures fresh(store) && store.Valid()
    ensures store.groups == map["Design" := [Group("control", 50), Group("design1", 50)]]
    ensures store.assignments == map[("u1", "Design") := "control", ("u2", "Design") := "design1"]
  {
    store := OneUserResolved();
    EvenSplitDraws(100);
    assert Names(store.groups["Design"]) == ["control", "design1"];
    var exposed := store.SetupExperiment("Design", EvenSplit(), "u2", 100);
  }

  /** Each half of the experiment holds one of the two users. */
  lemma TwoUsersSplit(assignments: map<(string, string), string>, store: LeanAb)
    requires store.assignments == assignments
    requires assignments == map[("u1", "Design") := "control", ("u2", "Design") := "design1"]
    ensures store.AssignedUsers("control") == {"u1"}
    ensures store.AssignedUsers("design1") == {"u2"}
  {
    assert assignments.Keys == {("u1", "Design"), ("u2", "Design")};
  }

  /** A table over the two halves whose cells are looked up in the funnels of
      the users with and without "u1". */
  lemma MergedTable(report: Report, withU1: FunnelData, withoutU1: FunnelData)
    requires withU1 == SiteFunnel({"u1"}, map[]) && withoutU1 == SiteFunnel({"u2"}, map[])
    requires report.Table? && report.columns == ["control", "design1"]
    requires report.rows == Metrics(withU1) && |report.cells| == |report.rows|
    requires forall i :: 0 <= i < |report.rows| ==>
               |report.cells[i]| == 2 &&
               report.cells[i][0] == Cell(withU1, report.rows[i]) &&
               report.cells[i][1] == Cell(withoutU1, report.rows[i])
    ensures report == Table(["control", "design1"], ["Signup", "Paid"],
                            [["10 (50%)", "5 (25%)"], ["3", "??"]])
  {
    assert withU1[1..] == [("Paid", "3")];
    CellOfMissingMetric(withoutU1, "Paid");
    assert report.rows == ["Signup", "Paid"];
    assert report.cells[0] == ["10 (50%)", "5 (25%)"];
    assert Lookup(withU1[1..], "Paid") == Some("3");
    assert Cell(withU1, "Paid") == "3";
    assert report.cells[1][0] == "3" && report.cells[1][1] == "??";
    assert report.cells[1] == ["3", "??"];
  }

  /** Two users resolved into the two halves of a 50/50 experiment: the report
      has a column per group, a row per metric of the first group's funnel,
      and "??" where the second group's funnel lacks a metric. */
  method ReportMergesGroups() returns (report: Report)
    ensures report == Table(["control", "design1"], ["Signup", "Paid"],
                            [["10 (50%)", "5 (25%)"], ["3", "??"]])
  {
    var store := TwoUsersResolved();
    TwoUsersSplit(store.assignments, store);
    assert Names(store.GroupsOf("Design")) == ["control", "design1"];
    report := store.BuildReport("Design", map[], SiteFunnel);
    var withU1, withoutU1 := SiteFunnel({"u1"}, map[]), SiteFunnel({"u2"}, map[]);
    forall i | 0 <= i < |report.rows|
      ensures report.cells[i][0] == Cell(withU1, report.rows[i])
      ensures report.cells[i][1] == Cell(withoutU1, report.rows[i])
    {
      assert report.columns[0] == "control" && report.columns[1] == "design1";
    }
    MergedTable(report, withU1, withoutU1);
  }

  /** belongsToExperiment as written answers false for a user who has just
      been assigned, while the corrected lookup answers true. */
  method BelongsToExperimentMissesAssignment(name: string, es: seq<Entry>, user: string, r: int)
    returns (written: bool, intended: bool)
    requires Deployable(es) && !PhpEmpty(user) && 1 <= r <= 100
    ensures !written && intended
  {
    var store := new LeanAb();
    var exposed := store.SetupExperiment(name, es, user, r);
    DrawStoresGroup(store, name, es, r);
    written := store.BelongsToExperiment(user, name);
    intended := store.IsAssigned(user, name);
  }
}
