/** The LeanAb class over an in-memory store of its three tables:
    experiments (names in creation order, UNIQUE KEY(name)), groups (each
    experiment's (name, weight) rows in insertion order, UNIQUE
    KEY(experiment_id, name)) and assignments ((user id, experiment) to group
    name, UNIQUE KEY(user_id, experiment_id)). A write that would break a
    unique key fails and changes nothing, as the INSERT does. */
module LeanAbCore {
  import opened Base
  import opened Selection
  import opened Config
  import opened Reporting

  /** Some group of some experiment has this name. */
  predicate NameStored(groups: map<string, seq<Group>>, g: string)
  {
    exists e :: e in groups && g in Names(groups[e])
  }

  /** What the schema and the code that writes the tables keep true: the
      unique keys, a group list for every experiment, and every assignment
      naming a logged-in user, an existing experiment and a stored group name. */
  ghost predicate Tables(experiments: seq<string>, groups: map<string, seq<Group>>,
                         assignments: map<(string, string), string>)
  {
    Distinct(experiments) &&
    (forall e :: e in groups <==> e in experiments) &&
    (forall e :: e in groups ==> Distinct(Names(groups[e]))) &&
    (forall key :: key in assignments ==>
       !PhpEmpty(key.0) && key.1 in experiments && NameStored(groups, assignments[key]))
  }

  /** Creating an experiment under a new name with distinctly named groups
      keeps the tables consistent. */
  lemma AddExperimentKeepsTables(experiments: seq<string>, groups: map<string, seq<Group>>,
                                 assignments: map<(string, string), string>, name: string, gs: seq<Group>)
    requires Tables(experiments, groups, assignments)
    requires name !in experiments && Distinct(Names(gs))
    ensures Tables(experiments + [name], groups[name := gs], assignments)
  {
    DistinctSnoc(experiments, name);
    forall key | key in assignments
      ensures NameStored(groups[name := gs], assignments[key])
    {
      var e :| e in groups && assignments[key] in Names(groups[e]);
      assert e != name;
      assert e in groups[name := gs] && groups[name := gs][e] == groups[e];
    }
  }

  /** A second write to the same key replaces the first. */
  lemma UpdateTwice<K, V>(m: map<K, V>, k: K, a: V, b: V)
    ensures m[k := a][k := b] == m[k := b]
  {
  }

  /** Creating an experiment under a new name from a configuration keeps the
      tables consistent: the unique key on group names leaves distinct names. */
  lemma CreatedKeepsTables(experiments: seq<string>, groups: map<string, seq<Group>>,
                           assignments: map<(string, string), string>, name: string, es: seq<Entry>)
    requires Tables(experiments, groups, assignments) && name !in experiments
    ensures Tables(experiments + [name], groups[name := Dedup(es)], assignments)
  {
    DedupNames(es);
    AddExperimentKeepsTables(experiments, groups, assignments, name, Dedup(es));
  }

  /** Recording an assignment of a logged-in user to an existing experiment
      and a stored group name keeps the tables consistent. */
  lemma AddAssignmentKeepsTables(experiments: seq<string>, groups: map<string, seq<Group>>,
                                 assignments: map<(string, string), string>,
                                 user: string, name: string, g: string)
    requires Tables(experiments, groups, assignments)
    requires !PhpEmpty(user) && name in experiments && NameStored(groups, g)
    ensures Tables(experiments, groups, assignments[(user, name) := g])
  {
  }

  class LeanAb {
    /** The experiments table: names in order of creation. */
    var experiments: seq<string>
    /** The groups table: each experiment's groups in insertion order. */
    var groups: map<string, seq<Group>>
    /** The assignments table: (user id, experiment name) to group name. */
    var assignments: map<(string, string), string>

    /** What the schema and the code that writes the tables keep true: the
        unique keys, a group list for every experiment, and every assignment
        naming a logged-in user, an existing experiment and a stored group. */
    ghost predicate Valid()
      reads this
    {
      Tables(experiments, groups, assignments)
    }

    /** A freshly installed, empty store. */
    constructor ()
      ensures Valid()
      ensures experiments == [] && groups == map[] && assignments == map[]
    {
      experiments := [];
      groups := map[];
      assignments := map[];
    }

    /** The stored groups of an experiment; none for an unknown name. */
    function GroupsOf(name: string): seq<Group>
      reads this
    {
      if name in groups then groups[name] else []
    }

    /** Some group of some experiment has this name: the lookup of a group id
        by name alone (LeanAb.php:193), which does not look at the experiment. */
    predicate GroupNameStored(g: string)
      reads this
    {
      NameStored(groups, g)
    }

    /** The groups the draw uses: the caller's configuration, or the stored
        groups when the caller passes none. */
    function DrawList(name: string, es: seq<Entry>): seq<Group>
      reads this
    {
      if es == [] then GroupsOf(name) else ToGroups(es)
    }

    /** The users assigned to a group of this name in any experiment (the
        report's user-id query joins groups by name only). */
    function AssignedUsers(g: string): set<string>
      reads this
    {
      set key | key in assignments && assignments[key] == g :: key.0
    }

    /** Validates the configuration, then inserts the experiment row and one
        groups row per entry. An existing name makes the experiment insert
        fail, so nothing is added and the result reflects the validation
        alone; a repeated group name makes that group's insert fail, so the
        first group of each name is kept and the result is false. */
    method CreateExperiment(name: string, es: seq<Entry>) returns (ok: bool)
      requires Valid()
      modifies this
      ensures Valid()
      ensures assignments == old(assignments)
      ensures if WeightsOk(es) && name !in old(experiments)
              then experiments == old(experiments) + [name] &&
                   groups == old(groups)[name := Dedup(es)] &&
                   ok == DistinctNames(es)
              else experiments == old(experiments) && groups == old(groups) &&
                   ok == WeightsOk(es)
    {
      ok := CheckWeights(es);
      if ok && name !in experiments {
        experiments := experiments + [name];
        groups := groups[name := []];
        ok := InsertGroups(name, es);
        UpdateTwice(old(groups), name, [], Dedup(es));
        CreatedKeepsTables(old(experiments), old(groups), assignments, name, es);
      }
    }

    /** The second loop of createExperiment: one groups row per entry, in
        order, under the experiment just inserted. The unique key
        (experiment_id, name) makes the insert of a repeated name fail, which
        turns the result false and stores nothing for that entry. */
    method InsertGroups(name: string, es: seq<Entry>) returns (ok: bool)
      requires name in groups && groups[name] == []
      modifies this
      ensures groups == old(groups)[name := Dedup(es)]
      ensures ok == DistinctNames(es)
      ensures experiments == old(experiments) && assignments == old(assignments)
    {
      ok := true;
      var rows: seq<Group> := [];
      for i := 0 to |es|
        invariant rows == Dedup(es[..i]) && groups == old(groups)[name := rows]
        invariant experiments == old(experiments) && assignments == old(assignments)
        invariant ok == (|rows| == i)
      {
        DedupPrefixStep(es, i);
        var g := Group(es[i].name, AsNumber(es[i].weight));
        if g.name in Names(rows) {
          ok := false;
        } else {
          UpdateTwice(old(groups), name, rows, rows + [g]);
          rows := rows + [g];
          groups := groups[name := rows];
        }
      }
      DedupCompleteIffDistinct(es);
      assert es[..|es|] == es;
    }

    /** The stored (name, weight) pairs of an experiment in stored order, or
        none when the experiment does not exist. */
    method GetGroupsForExperiment(name: string) returns (gs: seq<Group>)
      requires Valid()
      ensures gs == GroupsOf(name)
      ensures name !in experiments ==> gs == []
      ensures Distinct(Names(gs))
    {
      gs := [];
      if name in groups {
        gs := groups[name];
      }
    }

    /** The weighted draw with r the value of mt_rand(1, 100), over the
        caller's configuration unless it is empty, in which case over the
        stored groups. */
    method GetRandomGroupForExperiment(name: string, es: seq<Entry>, r: int) returns (g: string)
      requires Valid()
      ensures g == Choose(DrawList(name, es), r)
    {
      var gs: seq<Group>;
      if es == [] {
        gs := GetGroupsForExperiment(name);
      } else {
        gs := ToGroups(es);
      }
      g := WalkGroups(gs, r);
    }

    /** The group the user is exposed to in the experiment.

        An unseen experiment is created from the caller's configuration first
        (an existing one keeps its stored groups, whatever is passed). An
        anonymous user (PHP-empty id) gets the first configured group, and no
        assignment is written. A logged-in user with a stored, non-empty
        assignment gets it back and nothing is written. Otherwise a group is
        drawn from the caller's configuration (the stored groups when that is
        empty) and returned, even when the draw fails and yields ""; it is
        stored only when the experiment exists, some stored group carries the
        drawn name and the user has no assignment in the experiment yet. */
    method SetupExperiment(name: string, es: seq<Entry>, user: string, r: int) returns (exposed: Option<string>)
      requires Valid()
      requires 1 <= r <= 100
      modifies this
      ensures Valid()
      ensures name in old(experiments) ==>
                experiments == old(experiments) && groups == old(groups)
      ensures name !in old(experiments) && WeightsOk(es) ==>
                experiments == old(experiments) + [name] && groups == old(groups)[name := Dedup(es)]
      ensures name !in old(experiments) && !WeightsOk(es) ==>
                experiments == old(experiments) && groups == old(groups)
      ensures PhpEmpty(user) ==>
                assignments == old(assignments) && exposed == FirstName(es)
      ensures !PhpEmpty(user) && (user, name) in old(assignments) && !PhpEmpty(old(assignments)[(user, name)]) ==>
                exposed == Some(old(assignments)[(user, name)]) && assignments == old(assignments)
      ensures !PhpEmpty(user) && !((user, name) in old(assignments) && !PhpEmpty(old(assignments)[(user, name)])) ==>
                exposed == Some(Choose(DrawList(name, es), r))
      ensures !PhpEmpty(user) && (user, name) !in old(assignments) ==>
                var pick := Choose(DrawList(name, es), r);
                assignments == if name in experiments && GroupNameStored(pick)
                               then old(assignments)[(user, name) := pick]
                               else old(assignments)
      ensures (user, name) in old(assignments) ==> assignments == old(assignments)
    {
      var groupAssigned: Option<string> := None;
      if name !in experiments {
        var created := CreateExperiment(name, es);
      }
      if !PhpEmpty(user) {
        var g := ResolveLoggedIn(name, es, user, r);
        groupAssigned := Some(g);
      }
      if groupAssigned == None && |es| > 0 {
        groupAssigned := Some(es[0].name);
      }
      exposed := groupAssigned;
    }

    /** The logged-in branch of setupExperiment: the user's stored group in
        the experiment when it is not PHP-empty; otherwise a fresh draw, which
        is recorded unless the experiment is missing, no stored group has the
        drawn name or the user already has an assignment there (the unique key
        (user_id, experiment_id) refuses the insert). */
    method ResolveLoggedIn(name: string, es: seq<Entry>, user: string, r: int) returns (g: string)
      requires Valid() && !PhpEmpty(user)
      modifies this
      ensures Valid()
      ensures experiments == old(experiments) && groups == old(groups)
      ensures (user, name) in old(assignments) && !PhpEmpty(old(assignments)[(user, name)]) ==>
                g == old(assignments)[(user, name)]
      ensures !((user, name) in old(assignments) && !PhpEmpty(old(assignments)[(user, name)])) ==>
                g == Choose(DrawList(name, es), r)
      ensures (user, name) !in old(assignments) ==>
                assignments == if name in experiments && GroupNameStored(Choose(DrawList(name, es), r))
                               then old(assignments)[(user, name) := Choose(DrawList(name, es), r)]
                               else old(assignments)
      ensures (user, name) in old(assignments) ==> assignments == old(assignments)
    {
      g := if (user, name) in assignments then assignments[(user, name)] else "";
      if PhpEmpty(g) {
        g := GetRandomGroupForExperiment(name, es, r);
        if name in experiments && GroupNameStored(g) && (user, name) !in assignments {
          AddAssignmentKeepsTables(experiments, groups, assignments, user, name, g);
          assignments := assignments[(user, name) := g];
        }
      }
    }

    /** belongsToExperiment as written: the assignment count is looked up and
        then ignored, and the result tests a variable that is never set in
        that function, so it is false for every user and experiment. Reads
        the store and changes nothing, and never creates the experiment. */
    method BelongsToExperiment(user: string, name: string) returns (belongs: bool)
      ensures !belongs
    {
      var numAssigned := if (user, name) in assignments then 1 else 0;
      var groupAssigned: Option<string> := None;
      belongs := match groupAssigned
                 case None => false
                 case Some(g) => !PhpEmpty(g);
    }

    /** belongsToExperiment as its documentation describes it: true exactly
        when the user has an assignment in the experiment; false for an
        experiment that does not exist. */
    method IsAssigned(user: string, name: string) returns (belongs: bool)
      requires Valid()
      ensures belongs <==> (user, name) in assignments
      ensures name !in experiments ==> !belongs
      ensures PhpEmpty(user) ==> !belongs
    {
      var numAssigned := if (user, name) in assignments then 1 else 0;
      belongs := numAssigned != 0;
    }

    /** The report for an experiment: no table when it has no groups
        (distinguishing an unknown name); otherwise one column per group in
        stored order, one row per metric of the first group's funnel in that
        funnel's order, and in each cell that group's value for the metric or
        "??". Each group's funnel is the site's callback applied to the users
        assigned to a group of that name and the caller's parameters. */
    method BuildReport(name: string, params: map<string, string>,
                       funnel: (set<string>, map<string, string>) -> FunnelData)
      returns (report: Report)
      requires Valid()
      ensures GroupsOf(name) == [] ==>
                report == if name in experiments then NoGroups else UnknownExperiment
      ensures GroupsOf(name) != [] ==>
                report.Table? &&
                report.columns == Names(GroupsOf(name)) &&
                Distinct(report.columns) &&
                report.rows == Metrics(funnel(AssignedUsers(GroupsOf(name)[0].name), params)) &&
                Distinct(report.rows) &&
                |report.cells| == |report.rows| &&
                forall i :: 0 <= i < |report.rows| ==>
                  |report.cells[i]| == |report.columns| &&
                  forall j :: 0 <= j < |report.columns| ==>
                    report.cells[i][j] == Cell(funnel(AssignedUsers(report.columns[j]), params), report.rows[i])
    {
      var gs := GetGroupsForExperiment(name);
      if |gs| == 0 {
        if name in experiments {
          report := NoGroups;
        } else {
          report := UnknownExperiment;
        }
        return;
      }
      var funnelDataByGroup: seq<FunnelData> := [];
      for k := 0 to |gs|
        invariant |funnelDataByGroup| == k
        invariant forall j :: 0 <= j < k ==> funnelDataByGroup[j] == funnel(AssignedUsers(gs[j].name), params)
      {
        var userIds := AssignedUsers(gs[k].name);
        funnelDataByGroup := funnelDataByGroup + [funnel(userIds, params)];
      }
      var columns := Names(gs);
      var metricNames := Metrics(funnelDataByGroup[0]);
      var cells: seq<seq<string>> := [];
      for i := 0 to |metricNames|
        invariant |cells| == i
        invariant forall m :: 0 <= m < i ==>
                    |cells[m]| == |gs| &&
                    forall j :: 0 <= j < |gs| ==> cells[m][j] == Cell(funnelDataByGroup[j], metricNames[m])
      {
        var row: seq<string> := [];
        for j := 0 to |gs|
          invariant |row| == j
          invariant forall c :: 0 <= c < j ==> row[c] == Cell(funnelDataByGroup[c], metricNames[i])
        {
          row := row + [Cell(funnelDataByGroup[j], metricNames[i])];
        }
        cells := cells + [row];
      }
      report := Table(columns, metricNames, cells);
    }

    /** All experiment names, each once, in order of creation. */
    method GetAllExperimentNames() returns (names: seq<string>)
      requires Valid()
      ensures names == experiments
      ensures Distinct(names)
      ensures forall n :: n in names <==> n in groups
    {
      names := experiments;
    }
  }
}
