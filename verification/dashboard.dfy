/**
 * The whole metrics pipeline of one dashboard variant, from the raw CSV
 * rows to the values handed to the page: the hospital detail table, the
 * four headline metrics, the cluster chart data and the pie data.
 */
module Dashboard {
  import opened Options
  import opened Ratio
  import opened Records
  import opened Aggregates
  import opened Clusters

  /** A row of the hospital detail table; `status` is present only in the updated dashboard. */
  datatype Detail = Detail(record: Record, remaining: int, percent: Ratio, status: Option<Status>)

  /** Everything the page displays. */
  datatype View = View(details: seq<Detail>, totals: Metrics, clusters: seq<ClusterRow>, pie: seq<Slice>)

  /** The derived columns of one cleaned row, per variant. */
  function DeriveDetail(v: Variant, r: Record): (d: Detail)
    ensures d.record == r
    ensures d.remaining + r.installed == r.required
    ensures v == Original ==> d.percent == UnguardedPercent(r) && d.status.None?
    ensures v == Updated ==> d.percent == Finite(GuardedPercent(r)) && d.status == Some(StatusOf(r))
  {
    match v
    case Original => Detail(r, Remaining(r), UnguardedPercent(r), None)
    case Updated => Detail(r, Remaining(r), Finite(GuardedPercent(r)), Some(StatusOf(r)))
  }

  /** Runs the pipeline of variant `v` on the uploaded rows. */
  function Run(v: Variant, raws: seq<RawRow>): (view: View)
    ensures |view.details| == |raws|
    ensures forall i :: 0 <= i < |raws| ==> view.details[i] == DeriveDetail(v, CleanRow(raws[i]))
    ensures view.totals == ComputeTotals(CleanRows(raws))
    ensures view.totals.Consistent()
    ensures view.clusters == Report(v, CleanRows(raws))
    ensures |view.pie| == 2 && view.pie[0].count + view.pie[1].count == view.totals.required
  {
    var rs := CleanRows(raws);
    var t := ComputeTotals(rs);
    View(seq(|rs|, i requires 0 <= i < |rs| => DeriveDetail(v, rs[i])), t, Report(v, rs), Pie(v, t))
  }

  /**
   * The headline totals are the column sums of the cleaned rows, and the
   * total remaining is also the sum of the detail rows' remaining.
   */
  lemma RunTotals(v: Variant, raws: seq<RawRow>)
    ensures Run(v, raws).totals.required == Sum(CleanRows(raws), Required)
    ensures Run(v, raws).totals.installed == Sum(CleanRows(raws), Installed)
    ensures Run(v, raws).totals.remaining == SumRemaining(CleanRows(raws))
  {
    RemainingSumsToDifference(CleanRows(raws));
  }

  /**
   * Every detail row's remaining is its requirement minus its installed
   * count; the updated variant never produces a non-finite percentage and
   * marks a row Completed exactly when its installed count reaches a
   * positive requirement; the original variant's percentage is non-finite
   * exactly where a row requires nothing.
   */
  lemma RunDetails(v: Variant, raws: seq<RawRow>, i: int)
    requires 0 <= i < |raws|
    ensures var d := Run(v, raws).details[i];
      && d.record == CleanRow(raws[i])
      && d.remaining == d.record.required - d.record.installed
      && (v == Updated ==> d.percent.Finite? && (d.status == Some(Completed) <==> d.record.installed >= d.record.required > 0))
      && (v == Original ==> d.status.None? && (d.percent.Finite? <==> d.record.required != 0))
  {
  }

  /**
   * When every row has a cluster, the cluster chart covers each cluster
   * exactly once and its two columns add up to the headline totals; in the
   * updated variant it is ordered by requirement, largest first.
   */
  lemma RunClustersMatchTotals(v: Variant, raws: seq<RawRow>)
    requires forall i :: 0 <= i < |raws| ==> raws[i].cluster.Some?
    ensures var view := Run(v, raws);
      var gs := Summary(v, CleanRows(raws));
      && |view.clusters| == |gs|
      && (forall i :: 0 <= i < |gs| ==> view.clusters[i].group == gs[i])
      && GroupSum(gs, Required) == view.totals.required
      && GroupSum(gs, Installed) == view.totals.installed
      && (forall c :: Occurrences(gs, c) == if Mentions(CleanRows(raws), c) then 1 else 0)
      && (v == Updated ==> NonIncreasing(gs))
  {
    var rs := CleanRows(raws);
    assert AllClustered(rs);
    ClusterSumsMatchTotals(v, rs);
    SummaryFaithful(v, rs, Required);
  }
}
