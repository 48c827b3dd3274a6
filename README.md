# LeanAb in Dafny

LeanAb is a small A/B-testing library for PHP sites. A page calls
`setup_experiment(name, groupsAndWeightings)` to find out which group (hypothesis)
the current user sees. The first call for an unseen experiment creates it from the
configuration. That creation refuses weights that are not numbers in [0, 100] or
do not add up to 100. A logged-in user keeps the group they were first assigned.
A new user gets a weighted draw: `mt_rand(1, 100)` walks the groups and subtracts
each weight until one is large enough. An anonymous user gets the first
configured group. A report merges, per group, the funnel metrics that the site
computes for that group's users.

This project models that core over an in-memory store of LeanAb's three MySQL
tables and proves what the code promises about it:

- `base.dfy`: PHP's `empty()` on strings, an `Option` for PHP's null, and
  duplicate-free sequences (what a unique key guarantees).
- `selection.dfy`: the weighted draw as a function of the groups and the number
  drawn. It proves:
  - the draw picks the first group whose cumulative weight reaches the number,
    and `""` when none does;
  - each group is picked by exactly as many of the 100 possible draws as its
    weight (fairness);
  - a zero-weight group is never picked.
- `config.dfy`: the caller's configuration, the weight validation loop of
  `createExperiment`, and the groups rows its insert loop leaves behind once
  the unique key refuses repeated names.
- `report.dfy`: funnel data, report cells (`"??"` for a missing metric) and the
  report value that replaces the printed HTML table.
- `lean_ab.dfy`: the class `LeanAb` with the three tables as fields. Its
  methods model:
  - `setupExperiment`, `createExperiment`, `getRandomGroupForExperiment` and
    `getGroupsForExperiment`;
  - `belongsToExperiment` as written, and as documented;
  - the table-building part of `printReport_INTERNAL`, and
    `getAllExperimentNames_INTERNAL`.
  `Valid()` holds the schema's unique keys and the facts the writers keep.
  Every method that takes a valid store leaves it valid. The one exception is
  `InsertGroups`, the group-insert loop, which runs inside `CreateExperiment`
  after the experiment row is added and before validity is restored.
- `scenarios.dfy`: whole-call properties over a freshly installed store:
  - creating then listing returns the configuration;
  - refused weights create nothing;
  - a second resolution returns the first one;
  - anonymous users get the first group;
  - a failed draw is returned as `""`;
  - the report merge;
  - the `belongsToExperiment` discrepancy.

Where the design description and the code disagree, the model follows the code:

- An anonymous user's call still creates an unseen experiment, because creation
  happens before the user id is looked at (LeanAb.php:164-171).
- The draw uses the caller's configuration unless it is empty
  (LeanAb.php:313-315), not the stored groups.
- A draw that reaches no group returns `""`, and setupExperiment returns that
  `""` rather than falling back to the first group. The fallback (LeanAb.php:213)
  is taken only when no group was assigned at all (PHP null).
- The group id stored with an assignment is looked up by group name alone,
  across all experiments (LeanAb.php:193). So a drawn name is recorded whenever
  any experiment has a group of that name.

## Model

| member | source | states |
|---|---|---|
| Selection.PickIndexIsFirstReaching | LeanAb.php:318-330 | the draw picks group i exactly when r is at most the cumulative weight of groups 0..i and no earlier prefix reaches r |
| Selection.PickIndexNoneIffUnreached | LeanAb.php:317-337 | the draw picks nothing (result "") exactly when no cumulative weight reaches r |
| Selection.PickIndexInterval | LeanAb.php:318-330 | with non-negative weights and r >= 1, group i is picked exactly when r lies in (Cum(i), Cum(i+1)] |
| Selection.ZeroWeightNeverChosen | LeanAb.php:318-330 | with non-negative weights, no draw in [1, 100] picks a group of weight 0 |
| Selection.WalkGroups | LeanAb.php:317-331 | the subtract-and-compare loop returns the name of the group the draw picks, and "" when it picks none |
| Selection.DrawWithinTotalPicks | LeanAb.php:318-330 | a draw between 1 and the total weight always picks some group, and the result is that group's name |
| Selection.Fairness | LeanAb.php:299-301 | with non-negative weights adding up to 100, group i is picked by exactly weight(i) of the draws 1..100, i.e. with probability weight(i)/100 |
| Config.CheckWeights | LeanAb.php:257-274 | the validation loop succeeds exactly when every present weight is numeric and in [0, 100] and the accepted weights add up to 100 |
| Config.ValidatedWeightsTotal100 | LeanAb.php:257-274 | a configuration that passes validation, stored as groups, has non-negative weights totalling 100, as fairness requires |
| Config.DedupNames | LeanAb.php:282-292 | the stored groups hold every configured name exactly once |
| Config.DedupCompleteIffDistinct | LeanAb.php:282-295 | every entry gets a groups row exactly when no name repeats, which is when createExperiment reports success |
| Config.DedupOfDistinct | LeanAb.php:282-292 | with distinct names every insert succeeds, and the stored groups are the configuration in order |
| Reporting.CellOfListedMetric | LeanAb.php:544 | a metric the group's funnel lists shows that funnel's value |
| Reporting.CellOfMissingMetric | LeanAb.php:544 | a metric the group's funnel lacks shows "??" |
| LeanAbCore.AddExperimentKeepsTables | LeanAb.php:385-409 | inserting a new experiment with distinctly named groups keeps the unique keys and every assignment's references valid |
| LeanAbCore.AddAssignmentKeepsTables | LeanAb.php:411-419 | recording a logged-in user's assignment to an existing experiment and a stored group name keeps the tables valid |
| LeanAbCore.LeanAb.constructor | LeanAb.php:385-419 | a freshly installed store has empty tables and is valid |
| LeanAbCore.LeanAb.CreateExperiment | LeanAb.php:256-296 | valid weights and a new name add the experiment at the end, with the first group of each configured name; the result is true exactly when no name repeats. Otherwise nothing changes and the result is the validation verdict. Assignments are never touched, and validity is kept |
| LeanAbCore.LeanAb.InsertGroups | LeanAb.php:282-292 | the group inserts store the first entry of each name, in order, and report failure exactly when a name repeats |
| LeanAbCore.LeanAb.GetGroupsForExperiment | LeanAb.php:345-364 | the stored groups of the experiment in stored order, with distinct names; none for an unknown experiment |
| LeanAbCore.LeanAb.GetRandomGroupForExperiment | LeanAb.php:309-338 | the result is the group the draw picks from the caller's configuration or, when that is empty, from the stored groups; "" when none is picked |
| LeanAbCore.LeanAb.SetupExperiment | LeanAb.php:156-220 | an unseen experiment is created as CreateExperiment would create it, and an existing one keeps its groups. An anonymous user gets the first configured group (null when none) and nothing is assigned. A logged-in user gets their stored non-empty group with nothing written, or else the draw's pick, even "", recorded only when the user has no assignment there, the experiment exists and a stored group has that name. Validity is kept |
| LeanAbCore.LeanAb.ResolveLoggedIn | LeanAb.php:179-200 | a logged-in user's stored, non-empty group is returned unchanged. Otherwise the draw's pick is returned; it is recorded only when the user has no assignment in the experiment, the experiment exists and a stored group has that name. Experiments and groups are untouched, and validity is kept |
| LeanAbCore.LeanAb.BelongsToExperiment | LeanAb.php:231-246 | as written, the answer is false for every user and experiment |
| LeanAbCore.LeanAb.IsAssigned | LeanAb.php:221-243 | as documented: true exactly when the user has an assignment in the experiment, hence false for an unknown experiment and for an anonymous user |
| LeanAbCore.LeanAb.BuildReport | LeanAb.php:504-552 | no groups gives no table, telling an existing experiment from a misspelt name. Otherwise there is one column per stored group in order and one row per metric of the first group's funnel, each metric once; each cell is that group's value for the metric, or "??", where a group's funnel is computed from the users assigned to a group of that name |
| LeanAbCore.LeanAb.GetAllExperimentNames | LeanAb.php:557-559 | every experiment name once, in creation order, and exactly the experiments that have a group list |
| Scenarios.CreateThenList | LeanAb.php:256-296 | creating from a valid, distinctly named configuration and listing the groups gives back the configuration unchanged |
| Scenarios.RefusedWeightsCreateNothing | LeanAb.php:270-296 | refused weights make creation fail, with no groups and no experiment listed |
| Scenarios.ResolveTwice | LeanAb.php:156-220 | a logged-in user's first resolution yields a configured group and stores it. A second resolution with any configuration and draw returns the same group, and one assignment exists |
| Scenarios.DrawStoresGroup | LeanAb.php:186-199 | after a valid configuration created the experiment, every draw in [1, 100] picks a configured, non-empty group name that is stored, so the assignment is written |
| Scenarios.AnonymousGetsFirstGroup | LeanAb.php:164-218 | an anonymous user gets the first configured group and nothing is assigned. The experiment is still created when the weights are valid |
| Scenarios.FailedDrawIsReturned | LeanAb.php:186-218 | an existing 50/50 experiment resolved with caller weights 10/10 and the draw 50 returns "" with no assignment, not the first group |
| Scenarios.ReportMergesGroups | LeanAb.php:504-552 | two users resolved into the two halves of a 50/50 experiment give a two-column table. Its rows follow the first group's metrics, and "??" marks a metric the second group lacks |
| Scenarios.BelongsToExperimentMissesAssignment | LeanAb.php:231-246 | right after a logged-in user is assigned, the method as written answers false while the documented lookup answers true |

## Left out

- Database plumbing is not modelled: connecting, escaping with `querySafe` and
  `stripslashes`, failed queries, and the install-then-retry path of
  `ensureInstalled` (LeanAb.php:200-211, 375-428). The store is assumed
  installed, and every query is assumed to succeed unless a unique or foreign
  key refuses it.
- `getUserId` is a parameter `user`: the already escaped id, PHP-empty when the
  user is logged out. The user id "0" therefore counts as anonymous, as PHP's
  `empty()` makes it.
- `mt_rand(1, 100)` is a parameter `r` with the precondition 1 <= r <= 100.
  Fairness is stated by counting the draws in that range.
- `getFunnelForUserIds` is site code. It is a function parameter from the set
  of user ids and the extra parameters to an ordered list of (metric, value)
  pairs in which no metric repeats, as in a PHP array keyed by metric.
- LeanAbCore.LeanAb.BuildReport: passes each group's users to the funnel as a
  set, not as the query's list, which may repeat a user whose assignments in
  several experiments point to groups of the same name.
- Printing the HTML table and the `trigger_error` warnings is not modelled. The
  report is returned as a value; the warnings have no effect on state or
  results.
- Weights are integers or flagged as non-numeric. Fractional and
  numeric-prefix weights are not modelled: a fractional sum fails the
  identity test against 100 in PHP, which the model does not capture.
- Non-numeric string weights and null weights in the draw follow PHP 7
  comparison rules, where they read as 0. PHP 8 would compare them as strings,
  or throw.
- Boolean and array weights are not modelled. `is_numeric` refuses them, so
  the model files them as non-numeric and reads them as 0 in the draw. But PHP
  compares `$rand <= true` as booleans, which holds, so a `true` weight stops
  the walk (LeanAb.php:323); an array compares greater than any number.
- A missing weight is stored as 0, which assumes MySQL is not in strict mode.
- The stored groups of an experiment are returned in insertion order. The
  groups query (LeanAb.php:350) has no ORDER BY, so MySQL may return the rows
  in another order, such as the order of the (experiment_id, name) index. This
  order decides the draw over stored groups when the caller passes no
  configuration (LeanAb.php:313-315), and the report's column order
  (LeanAb.php:521-538).
- Names are compared by exact string equality. MySQL compares them under the
  column's collation, which by default ignores case and trailing spaces, and
  VARCHAR(255) truncates longer values. This applies to the unique keys
  (LeanAb.php:389, 407, 418) and the lookups by name (LeanAb.php:161, 185,
  192-193, 350, 525). So the model stores both "Control" and "control" as
  groups of one experiment and reports success, where the default collation
  refuses the second insert and createExperiment returns false.
- The order of experiments is creation order. Experiments created within the
  same second (`createdOn` ties) have no defined order in the source.
- A group entry with more or fewer than two slots only triggers a warning in
  `createExperiment`, which is not modelled. Every entry has a name and a
  (possibly absent) weight.
- Concurrent requests are not modelled. Each call runs alone against the store.
- The static wrappers and procedural functions (`printReport`,
  `getAllExperimentNames`, `setup_experiment`, `belongs_to_experiment`) only
  forward to the modelled methods. EXAMPLE_REPORTING_PAGE.php is not part of
  this model.

## Findings

| source | as written | input that shows it | evidently intended | confidence | as-written member | corrected member |
|---|---|---|---|---|---|---|
| LeanAb.php:240-245 | the count of the user's assignments is queried and then ignored; the result tests `$groupAssigned`, which is never set in that function, so it is always false | a logged-in user who has just been assigned by setupExperiment, then asks belongs_to_experiment for the same experiment: answer false | true exactly when the count is non-zero, i.e. the user has an assignment in the experiment | not executed | Scenarios.BelongsToExperimentMissesAssignment | LeanAbCore.LeanAb.IsAssigned |
