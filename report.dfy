/** The values LeanAb::printReport_INTERNAL merges: each group's funnel data
    (what the site's getFunnelForUserIds returns for the group's users) and the
    table built from them. The table replaces the HTML the source prints; the
    method that builds it lives with the store. */
module Reporting {
  import opened Base

  /** A funnel: metric names paired with display values ("650 (65%)"), in
      the order the site's callback lists them. The callback returns a PHP
      array keyed by metric name, so no metric occurs twice. */
  type FunnelData = f: seq<(string, string)> | Distinct(Metrics(f))

  /** The metric names of a funnel, in order (array_keys). */
  function Metrics(f: seq<(string, string)>): seq<string>
  {
    seq(|f|, k requires 0 <= k < |f| => f[k].0)
  }

  /** The value a funnel gives a metric, if it has one. */
  function Lookup(f: seq<(string, string)>, metric: string): Option<string>
  {
    if f == [] then None
    else if f[0].0 == metric then Some(f[0].1)
    else Lookup(f[1..], metric)
  }

  /** One cell of the report: the group's value for the metric, or "??" when
      the group's funnel does not have that metric. */
  function Cell(f: seq<(string, string)>, metric: string): string
  {
    match Lookup(f, metric)
    case Some(v) => v
    case None => "??"
  }

  /** UnknownExperiment: no groups and no experiment of that name (the
      misspelt-name warning); NoGroups: the experiment exists but has no
      groups; Table: one column per group, one row per metric. */
  datatype Report =
    | UnknownExperiment
    | NoGroups
    | Table(columns: seq<string>, rows: seq<string>, cells: seq<seq<string>>)

  /** A metric the funnel lists gets the funnel's value in its cell. */
  lemma {:induction false} CellOfListedMetric(f: seq<(string, string)>, k: nat)
    requires Distinct(Metrics(f)) && k < |f|
    ensures Cell(f, f[k].0) == f[k].1
  {
    if k > 0 {
      assert Metrics(f)[0] != Metrics(f)[k];
      assert Metrics(f[1..]) == Metrics(f)[1..];
      CellOfListedMetric(f[1..], k - 1);
    }
  }

  /** A metric the funnel does not list is shown as "??". */
  lemma {:induction false} CellOfMissingMetric(f: seq<(string, string)>, metric: string)
    requires metric !in Metrics(f)
    ensures Cell(f, metric) == "??"
  {
    if f != [] {
      assert Metrics(f)[0] == f[0].0;
      assert Metrics(f[1..]) == Metrics(f)[1..];
      CellOfMissingMetric(f[1..], metric);
    }
  }
}
