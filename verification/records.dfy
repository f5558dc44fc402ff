/**
 * One hospital row of the installation CSV and the fields derived from it.
 *
 * Two variants of the dashboard exist: `Original` (app.py) derives an
 * unguarded percentage and the remaining count; `Updated`
 * (updated_installation_dashboard_app.py) guards the percentage against a
 * zero requirement and adds a completion status.
 */
module Records {
  import opened Options
  import opened Cells
  import opened Ratio

  datatype Variant = Original | Updated

  /** The two numeric columns: `# Tanks MoH` (required) and `# Installed`. */
  datatype Field = Required | Installed

  /** A CSV row before cleaning. A blank `Cluster` cell is `None` (NaN). */
  datatype RawRow = RawRow(cluster: Option<string>, hospital: string, tanks: RawCell, installed: RawCell)

  /** A cleaned row: both counts coerced to integers. */
  datatype Record = Record(cluster: Option<string>, hospital: string, required: int, installed: int) {
    function Amount(f: Field): int
    {
      match f
      case Required => required
      case Installed => installed
    }
  }

  datatype Status = Completed | NotCompleted

  /** Cleans one row: each count cell is coerced, an invalid or blank one becomes 0. */
  function CleanRow(raw: RawRow): (r: Record)
    ensures r.cluster == raw.cluster && r.hospital == raw.hospital
    ensures r.required == Coerce(raw.tanks) && r.installed == Coerce(raw.installed)
  {
    Record(raw.cluster, raw.hospital, Coerce(raw.tanks), Coerce(raw.installed))
  }

  /** Cleans the whole table column by column; the row count and order are kept. */
  function CleanRows(raws: seq<RawRow>): (rs: seq<Record>)
    ensures |rs| == |raws|
    ensures forall i :: 0 <= i < |raws| ==> rs[i] == CleanRow(raws[i])
  {
    seq(|raws|, i requires 0 <= i < |raws| => CleanRow(raws[i]))
  }

  /** `Remaining`: what is still to install; not clamped, so negative when over-installed. */
  function Remaining(r: Record): (d: int)
    ensures d + r.installed == r.required
    ensures d < 0 <==> r.installed > r.required
    ensures d == 0 <==> r.installed == r.required
  {
    r.required - r.installed
  }

  /** The `Updated` percentage: installed over required times 100, and 0 unless required is positive. */
  function GuardedPercent(r: Record): (p: real)
    ensures r.required > 0 ==> p * (r.required as real) == 100.0 * (r.installed as real)
    ensures r.required <= 0 ==> p == 0.0
  {
    if r.required > 0 then (r.installed as real) / (r.required as real) * 100.0 else 0.0
  }

  /** The `Original` percentage: the unguarded column division, non-finite when required is 0. */
  function UnguardedPercent(r: Record): (p: Ratio)
    ensures p.Finite? <==> r.required != 0
    ensures p.Finite? ==> p.value * (r.required as real) == 100.0 * (r.installed as real)
    ensures r.required == 0 ==> (p == NaN <==> r.installed == 0)
  {
    Percent(r.installed, r.required)
  }

  /** `Status Type`: Completed exactly when at least the required count is installed and some is required. */
  function StatusOf(r: Record): (s: Status)
    ensures s == Completed <==> r.installed >= r.required && r.required > 0
    ensures r.required <= 0 ==> s == NotCompleted
  {
    if r.installed >= r.required && r.required > 0 then Completed else NotCompleted
  }

  /** The status agrees with the guarded percentage: Completed exactly when something is required and it reaches 100. */
  lemma StatusMatchesPercent(r: Record)
    ensures StatusOf(r) == Completed <==> r.required > 0 && GuardedPercent(r) >= 100.0
    ensures StatusOf(r) == Completed <==> r.required > 0 && Remaining(r) <= 0
  {
  }

  /** Where the installed count lies between 0 and the requirement, the guarded percentage lies in [0, 100]. */
  lemma GuardedPercentBounds(r: Record)
    requires 0 <= r.installed <= r.required
    ensures 0.0 <= GuardedPercent(r) <= 100.0
    ensures GuardedPercent(r) == 100.0 <==> r.required > 0 && r.installed == r.required
  {
  }

  /**
   * The two percentage variants agree wherever something is required;
   * where nothing is required the guarded one is 0 and the unguarded one is
   * not finite; a negative requirement (which the coercion lets through)
   * makes them differ unless nothing is installed.
   */
  lemma GuardedRefinesUnguarded(r: Record)
    ensures r.required > 0 ==> UnguardedPercent(r) == Finite(GuardedPercent(r))
    ensures r.required == 0 ==> GuardedPercent(r) == 0.0 && !UnguardedPercent(r).Finite?
    ensures r.required < 0 ==> (UnguardedPercent(r) == Finite(GuardedPercent(r)) <==> r.installed == 0)
  {
    if r.required != 0 {
      ScaledQuotientIsZero(r.installed as real, r.required as real);
    }
  }

  /** A nonzero denominator makes a scaled quotient zero only for a zero numerator. */
  lemma ScaledQuotientIsZero(a: real, b: real)
    requires b != 0.0
    ensures a / b * 100.0 == 0.0 <==> a == 0.0
  {
  }
}
