/**
 * The per-cluster summary: `df.groupby("Cluster")[[required, installed]].sum()`,
 * in the updated dashboard sorted by summed requirement, descending, and
 * then given the unguarded per-cluster percentage.
 *
 * pandas drops rows whose group key is NaN, so a row with a blank
 * `Cluster` cell counts in the dataset totals but in no cluster.
 */
module Clusters {
  import opened Options
  import opened Ratio
  import opened Records
  import opened Aggregates

  /** One row of the cluster summary: a cluster and its two column sums. */
  datatype Group = Group(cluster: string, required: int, installed: int) {
    function Amount(f: Field): int
    {
      match f
      case Required => required
      case Installed => installed
    }
  }

  /** Some row of the table belongs to cluster `c`. */
  predicate Mentions(rs: seq<Record>, c: string)
  {
    0 < |rs| && (rs[0].cluster == Some(c) || Mentions(rs[1..], c))
  }

  /** Every row of the table has a cluster. */
  predicate AllClustered(rs: seq<Record>)
  {
    forall i :: 0 <= i < |rs| ==> rs[i].cluster.Some?
  }

  /** The sum of column `f` over the rows of cluster `c`. */
  function ClusterTotal(rs: seq<Record>, c: string, f: Field): int
  {
    if |rs| == 0 then 0
    else (if rs[0].cluster == Some(c) then rs[0].Amount(f) else 0) + ClusterTotal(rs[1..], c, f)
  }

  /** The sum of column `f` over the rows with no cluster, which the group-by drops. */
  function Unclustered(rs: seq<Record>, f: Field): int
  {
    if |rs| == 0 then 0
    else (if rs[0].cluster.None? then rs[0].Amount(f) else 0) + Unclustered(rs[1..], f)
  }

  /** The rows that do not belong to cluster `c`, in their original order. */
  function Without(rs: seq<Record>, c: string): (w: seq<Record>)
    ensures |w| <= |rs|
    ensures forall i :: 0 <= i < |w| ==> w[i].cluster != Some(c)
  {
    if |rs| == 0 then []
    else if rs[0].cluster == Some(c) then Without(rs[1..], c)
    else [rs[0]] + Without(rs[1..], c)
  }

  /**
   * Groups the rows by cluster, in order of first appearance: the first
   * clustered row opens a group holding the sums over all rows of its
   * cluster, and grouping continues on the rows of the other clusters.
   */
  function GroupBy(rs: seq<Record>): (gs: seq<Group>)
    ensures |gs| <= |rs|
    ensures 0 < |rs| && rs[0].cluster.Some? ==>
      0 < |gs| && gs[0].cluster == rs[0].cluster.value
    ensures 0 < |rs| && rs[0].cluster.Some? ==>
      gs[0].required == ClusterTotal(rs, gs[0].cluster, Required) && gs[0].installed == ClusterTotal(rs, gs[0].cluster, Installed)
    decreases |rs|
  {
    if |rs| == 0 then []
    else match rs[0].cluster
      case None => GroupBy(rs[1..])
      case Some(c) =>
        [Group(c, ClusterTotal(rs, c, Required), ClusterTotal(rs, c, Installed))] + GroupBy(Without(rs[1..], c))
  }

  /** How many summary rows are for cluster `c`. */
  function Occurrences(gs: seq<Group>, c: string): nat
  {
    if |gs| == 0 then 0
    else (if gs[0].cluster == c then 1 else 0) + Occurrences(gs[1..], c)
  }

  /** The sum of column `f` over the summary rows. */
  function GroupSum(gs: seq<Group>, f: Field): int
  {
    if |gs| == 0 then 0 else gs[0].Amount(f) + GroupSum(gs[1..], f)
  }

  /** Removing the rows of cluster `c` leaves every other cluster, and its sums, as they were. */
  lemma {:induction false} WithoutKeepsOthers(rs: seq<Record>, c: string, d: string, f: Field)
    requires d != c
    ensures Mentions(Without(rs, c), d) <==> Mentions(rs, d)
    ensures ClusterTotal(Without(rs, c), d, f) == ClusterTotal(rs, d, f)
  {
    if |rs| > 0 {
      WithoutKeepsOthers(rs[1..], c, d, f);
      if rs[0].cluster != Some(c) {
        assert ([rs[0]] + Without(rs[1..], c))[1..] == Without(rs[1..], c);
      }
    }
  }

  /** Removing the rows of cluster `c` removes nothing unclustered. */
  lemma {:induction false} WithoutKeepsUnclustered(rs: seq<Record>, c: string, f: Field)
    ensures !Mentions(Without(rs, c), c)
    ensures Unclustered(Without(rs, c), f) == Unclustered(rs, f)
  {
    if |rs| > 0 {
      WithoutKeepsUnclustered(rs[1..], c, f);
      if rs[0].cluster != Some(c) {
        assert ([rs[0]] + Without(rs[1..], c))[1..] == Without(rs[1..], c);
      }
    }
  }

  /** A column sum splits into the sum over cluster `c` and the sum over the rest. */
  lemma {:induction false} SplitCluster(rs: seq<Record>, c: string, f: Field)
    ensures Sum(rs, f) == ClusterTotal(rs, c, f) + Sum(Without(rs, c), f)
  {
    if |rs| > 0 {
      SplitCluster(rs[1..], c, f);
      if rs[0].cluster != Some(c) {
        assert ([rs[0]] + Without(rs[1..], c))[1..] == Without(rs[1..], c);
      }
    }
  }

  /** The summary has exactly one row per cluster that occurs in the table, and none for any other. */
  lemma {:induction false} GroupByOnePerCluster(rs: seq<Record>)
    ensures forall c :: Occurrences(GroupBy(rs), c) == if Mentions(rs, c) then 1 else 0
    decreases |rs|
  {
    if |rs| > 0 {
      match rs[0].cluster
      case None =>
        GroupByOnePerCluster(rs[1..]);
      case Some(c0) =>
        var w := Without(rs[1..], c0);
        var g := Group(c0, ClusterTotal(rs, c0, Required), ClusterTotal(rs, c0, Installed));
        GroupByOnePerCluster(w);
        assert ([g] + GroupBy(w))[1..] == GroupBy(w);
        forall c
          ensures Occurrences(GroupBy(rs), c) == if Mentions(rs, c) then 1 else 0
        {
          if c != c0 {
            WithoutKeepsOthers(rs[1..], c0, c, Required);
          } else {
            WithoutKeepsUnclustered(rs[1..], c0, Required);
          }
        }
    }
  }

  /** Each summary row is for a cluster of the table and holds that cluster's two column sums. */
  lemma {:induction false} GroupByMeaning(rs: seq<Record>)
    ensures forall g :: g in GroupBy(rs) ==>
      && Mentions(rs, g.cluster)
      && g.required == ClusterTotal(rs, g.cluster, Required)
      && g.installed == ClusterTotal(rs, g.cluster, Installed)
    decreases |rs|
  {
    if |rs| > 0 {
      match rs[0].cluster
      case None =>
        GroupByMeaning(rs[1..]);
      case Some(c0) =>
        var w := Without(rs[1..], c0);
        GroupByMeaning(w);
        WithoutKeepsUnclustered(rs[1..], c0, Required);
        forall g | g in GroupBy(w)
          ensures Mentions(rs, g.cluster)
          ensures g.required == ClusterTotal(rs, g.cluster, Required)
          ensures g.installed == ClusterTotal(rs, g.cluster, Installed)
        {
          assert g.cluster != c0;
          WithoutKeepsOthers(rs[1..], c0, g.cluster, Required);
          WithoutKeepsOthers(rs[1..], c0, g.cluster, Installed);
        }
    }
  }

  /** The summary's column sums plus the unclustered rows make up the dataset column sums. */
  lemma {:induction false} GroupBySums(rs: seq<Record>, f: Field)
    ensures GroupSum(GroupBy(rs), f) + Unclustered(rs, f) == Sum(rs, f)
    decreases |rs|
  {
    if |rs| > 0 {
      match rs[0].cluster
      case None =>
        GroupBySums(rs[1..], f);
      case Some(c0) =>
        var w := Without(rs[1..], c0);
        var g := Group(c0, ClusterTotal(rs, c0, Required), ClusterTotal(rs, c0, Installed));
        GroupBySums(w, f);
        WithoutKeepsUnclustered(rs[1..], c0, f);
        SplitCluster(rs[1..], c0, f);
        assert ([g] + GroupBy(w))[1..] == GroupBy(w);
    }
  }

  /** A table in which every row has a cluster has nothing unclustered. */
  lemma {:induction false} NothingUnclustered(rs: seq<Record>, f: Field)
    requires AllClustered(rs)
    ensures Unclustered(rs, f) == 0
  {
    if |rs| > 0 {
      NothingUnclustered(rs[1..], f);
    }
  }

  /** Rows sorted by summed requirement, largest first. */
  predicate NonIncreasing(gs: seq<Group>)
  {
    forall i, j :: 0 <= i < j < |gs| ==> gs[i].required >= gs[j].required
  }

  /** Inserts `g` into a non-increasing sequence, keeping it non-increasing. */
  function Insert(g: Group, s: seq<Group>): (r: seq<Group>)
    requires NonIncreasing(s)
    ensures NonIncreasing(r)
    ensures multiset(r) == multiset(s) + multiset{g}
    ensures |r| == |s| + 1
    ensures r[0] == g || (0 < |s| && r[0] == s[0])
  {
    if |s| == 0 then [g]
    else if g.required >= s[0].required then [g] + s
    else
      var t := Insert(g, s[1..]);
      assert s == [s[0]] + s[1..];
      assert s[0].required >= t[0].required;
      [s[0]] + t
  }

  /** `sort_values(by="# Tanks MoH", ascending=False)`: a non-increasing permutation of the rows. */
  function SortByRequired(gs: seq<Group>): (r: seq<Group>)
    ensures NonIncreasing(r)
    ensures multiset(r) == multiset(gs)
    ensures |r| == |gs|
  {
    if |gs| == 0 then []
    else
      assert gs == [gs[0]] + gs[1..];
      Insert(gs[0], SortByRequired(gs[1..]))
  }

  /** Inserting a row adds its amounts to the column sums. */
  lemma {:induction false} InsertKeepsColumns(g: Group, s: seq<Group>, f: Field)
    requires NonIncreasing(s)
    ensures GroupSum(Insert(g, s), f) == g.Amount(f) + GroupSum(s, f)
  {
    if |s| > 0 {
      if g.required >= s[0].required {
        assert ([g] + s)[1..] == s;
      } else {
        InsertKeepsColumns(g, s[1..], f);
        assert ([s[0]] + Insert(g, s[1..]))[1..] == Insert(g, s[1..]);
      }
    }
  }

  /** Inserting a row adds one occurrence to its cluster and none to any other. */
  lemma {:induction false} InsertKeepsOccurrences(g: Group, s: seq<Group>, c: string)
    requires NonIncreasing(s)
    ensures Occurrences(Insert(g, s), c) == (if g.cluster == c then 1 else 0) + Occurrences(s, c)
  {
    if |s| > 0 {
      if g.required >= s[0].required {
        assert ([g] + s)[1..] == s;
      } else {
        InsertKeepsOccurrences(g, s[1..], c);
        assert ([s[0]] + Insert(g, s[1..]))[1..] == Insert(g, s[1..]);
      }
    }
  }

  /** Sorting does not change the column sums. */
  lemma {:induction false} SortKeepsColumns(gs: seq<Group>, f: Field)
    ensures GroupSum(SortByRequired(gs), f) == GroupSum(gs, f)
  {
    if |gs| > 0 {
      SortKeepsColumns(gs[1..], f);
      InsertKeepsColumns(gs[0], SortByRequired(gs[1..]), f);
    }
  }

  /** Sorting does not change how often each cluster occurs. */
  lemma {:induction false} SortKeepsOccurrences(gs: seq<Group>, c: string)
    ensures Occurrences(SortByRequired(gs), c) == Occurrences(gs, c)
  {
    if |gs| > 0 {
      SortKeepsOccurrences(gs[1..], c);
      InsertKeepsOccurrences(gs[0], SortByRequired(gs[1..]), c);
    }
  }

  /** The cluster summary of each variant: grouped, and in the updated dashboard sorted. */
  function Summary(v: Variant, rs: seq<Record>): (gs: seq<Group>)
    ensures v == Original ==> gs == GroupBy(rs)
    ensures v == Updated ==> NonIncreasing(gs) && multiset(gs) == multiset(GroupBy(rs))
    ensures |gs| == |GroupBy(rs)|
  {
    match v
    case Original => GroupBy(rs)
    case Updated => SortByRequired(GroupBy(rs))
  }

  /**
   * The summary of either variant has one row per cluster of the table,
   * each holding that cluster's sums; together with the unclustered rows
   * its columns add up to the dataset totals; the updated variant's
   * summary is non-increasing in requirement and a permutation of the
   * unsorted one.
   */
  lemma SummaryFaithful(v: Variant, rs: seq<Record>, f: Field)
    ensures forall c :: Occurrences(Summary(v, rs), c) == if Mentions(rs, c) then 1 else 0
    ensures forall g :: g in Summary(v, rs) ==>
      && Mentions(rs, g.cluster)
      && g.required == ClusterTotal(rs, g.cluster, Required)
      && g.installed == ClusterTotal(rs, g.cluster, Installed)
    ensures GroupSum(Summary(v, rs), f) + Unclustered(rs, f) == Sum(rs, f)
    ensures v == Updated ==> NonIncreasing(Summary(v, rs)) && multiset(Summary(v, rs)) == multiset(GroupBy(rs))
  {
    GroupByOnePerCluster(rs);
    GroupByMeaning(rs);
    GroupBySums(rs, f);
    if v == Updated {
      var gs := GroupBy(rs);
      forall c
        ensures Occurrences(Summary(v, rs), c) == if Mentions(rs, c) then 1 else 0
      {
        SortKeepsOccurrences(gs, c);
      }
      SortKeepsColumns(gs, f);
      forall g | g in SortByRequired(gs)
        ensures g in gs
      {
        assert g in multiset(SortByRequired(gs));
      }
    }
  }

  /** When every row has a cluster, the summary's column sums are exactly the dataset totals. */
  lemma ClusterSumsMatchTotals(v: Variant, rs: seq<Record>)
    requires AllClustered(rs)
    ensures GroupSum(Summary(v, rs), Required) == ComputeTotals(rs).required
    ensures GroupSum(Summary(v, rs), Installed) == ComputeTotals(rs).installed
  {
    SummaryFaithful(v, rs, Required);
    SummaryFaithful(v, rs, Installed);
    NothingUnclustered(rs, Required);
    NothingUnclustered(rs, Installed);
  }

  /** A summary row with its `% Completed` column. */
  datatype ClusterRow = ClusterRow(group: Group, percent: Ratio)

  /** The per-cluster percentage, an unguarded division: finite exactly where the summed requirement is nonzero. */
  function WithPercent(g: Group): (row: ClusterRow)
    ensures row.group == g
    ensures row.percent.Finite? <==> g.required != 0
    ensures row.percent.Finite? ==> row.percent.value * (g.required as real) == 100.0 * (g.installed as real)
  {
    ClusterRow(g, Percent(g.installed, g.required))
  }

  /** The cluster chart's data: the summary of the variant, each row with its percentage. */
  function Report(v: Variant, rs: seq<Record>): (rows: seq<ClusterRow>)
    ensures |rows| == |Summary(v, rs)|
    ensures forall i :: 0 <= i < |rows| ==> rows[i] == WithPercent(Summary(v, rs)[i])
  {
    var gs := Summary(v, rs);
    seq(|gs|, i requires 0 <= i < |gs| => WithPercent(gs[i]))
  }
}
