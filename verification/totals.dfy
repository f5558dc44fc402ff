/**
 * Dataset-wide totals, the overall completion figure and the two-slice pie.
 * Both dashboard variants compute these the same way; only the label of
 * the second pie slice differs.
 */
module Aggregates {
  import opened Records
  import opened Ratio

  /** The sum of one count column over all rows. */
  function Sum(rs: seq<Record>, f: Field): int
  {
    if |rs| == 0 then 0 else rs[0].Amount(f) + Sum(rs[1..], f)
  }

  /** The sum of the per-row `Remaining` column. */
  function SumRemaining(rs: seq<Record>): int
  {
    if |rs| == 0 then 0 else Remaining(rs[0]) + SumRemaining(rs[1..])
  }

  /** The four headline metrics. */
  datatype Metrics = Metrics(required: int, installed: int, remaining: int, completion: real) {
    /** What every computed set of metrics satisfies: remaining is the difference, completion the guarded ratio. */
    predicate Consistent()
    {
      && remaining == required - installed
      && completion == OverallCompletion(installed, required)
    }
  }

  /** The overall completion percentage before rounding: 0 unless the total requirement is positive. */
  function OverallCompletion(totalInstalled: int, totalRequired: int): (c: real)
    ensures totalRequired > 0 ==> c * (totalRequired as real) == 100.0 * (totalInstalled as real)
    ensures totalRequired <= 0 ==> c == 0.0
  {
    if totalRequired > 0 then Percent(totalInstalled, totalRequired).value else 0.0
  }

  /** The headline metrics of a cleaned table. */
  function ComputeTotals(rs: seq<Record>): (t: Metrics)
    ensures t.required == Sum(rs, Required)
    ensures t.installed == Sum(rs, Installed)
    ensures t.remaining == t.required - t.installed
    ensures t.completion == OverallCompletion(t.installed, t.required)
  {
    Metrics(Sum(rs, Required), Sum(rs, Installed), Sum(rs, Required) - Sum(rs, Installed),
            OverallCompletion(Sum(rs, Installed), Sum(rs, Required)))
  }

  /** The total remaining also equals the sum of the per-row `Remaining` column. */
  lemma {:induction false} RemainingSumsToDifference(rs: seq<Record>)
    ensures SumRemaining(rs) == Sum(rs, Required) - Sum(rs, Installed)
    ensures SumRemaining(rs) == ComputeTotals(rs).remaining
  {
    if |rs| > 0 {
      RemainingSumsToDifference(rs[1..]);
    }
  }

  /** One slice of the installation pie. */
  datatype Slice = Slice(name: string, count: int)

  /** The label of the second slice: `Remaining` in app.py, `Not Installed` in the updated dashboard. */
  function RemainingLabel(v: Variant): string
  {
    match v
    case Original => "Remaining"
    case Updated => "Not Installed"
  }

  /** The pie data: installed and remaining, which together make up the total requirement. */
  function Pie(v: Variant, t: Metrics): (s: seq<Slice>)
    requires t.remaining == t.required - t.installed
    ensures |s| == 2
    ensures s[0] == Slice("Installed", t.installed)
    ensures s[1].count == t.remaining
    ensures s[0].count + s[1].count == t.required
  {
    [Slice("Installed", t.installed), Slice(RemainingLabel(v), t.remaining)]
  }
}
