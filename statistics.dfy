/**
 * Aggregate statistics and tolerance clustering over the measured
 * (lower washer, spring, upper washer) records of one pump model.
 *
 * `compute_stats` is pure and becomes the function `ComputeStats`.
 * `most_common_config` is a loop that appends to a list of clusters and
 * to the clusters themselves; it becomes the method `MostCommonConfig`,
 * proved equal to the function `CommonConfig`, which folds the same
 * placement step (`Place`) over the records and which the rest of the
 * model uses.
 */
module Statistics {
  import opened Wrappers
  import opened Descriptive

  /** One unit's measurements: `washer1` is the lower washer, `washer2` the upper one. */
  datatype Record = Record(washer1: real, spring: real, washer2: real)

  /** The derived total stack height of one record. */
  function Total(r: Record): real
  {
    r.washer1 + r.washer2 + r.spring
  }

  /** The common configuration, in the order (washer1, washer2, spring), i.e. lower, upper, spring. */
  type Config = (real, real, real)

  function ConfigOf(r: Record): Config
  {
    (r.washer1, r.washer2, r.spring)
  }

  datatype Stats = Stats(
    avgLower: real,
    avgUpper: real,
    avgSpring: real,
    avgTotal: real,
    medianLower: real,
    medianUpper: real,
    commonConfig: Option<Config>)

  /** The per-record columns that `compute_stats` builds with list comprehensions. */
  datatype Column = Lowers | Uppers | Springs | Totals

  function Value(r: Record, c: Column): real
  {
    match c
    case Lowers => r.washer1
    case Uppers => r.washer2
    case Springs => r.spring
    case Totals => Total(r)
  }

  function Project(records: seq<Record>, c: Column): (xs: seq<real>)
    ensures |xs| == |records|
  {
    if records == [] then [] else [Value(records[0], c)] + Project(records[1..], c)
  }

  /** Each column holds, at every position, that record's field or total. */
  lemma {:induction false} ProjectAt(records: seq<Record>, c: Column, i: int)
    requires 0 <= i < |records|
    ensures Project(records, c)[i] == Value(records[i], c)
  {
    if i > 0 {
      ProjectAt(records[1..], c, i - 1);
    }
  }

  const DefaultTolerance: real := 0.03
  const DefaultMinCount: int := 5

  /**
   * A cluster: the total of its first record, fixed when the cluster is
   * created, and its members in the order they were placed.
   */
  datatype Cluster = Cluster(anchorTotal: real, members: seq<Record>)

  function Abs(x: real): real
  {
    if x < 0.0 then -x else x
  }

  /** The closed tolerance test `abs(anchor - total) <= tolerance`. */
  predicate Within(anchor: real, total: real, tolerance: real)
  {
    Abs(anchor - total) <= tolerance
  }

  /**
   * Index of the first cluster, in creation order, whose anchor total is
   * within tolerance of `total`; `|clusters|` when there is none.
   */
  function FirstMatch(clusters: seq<Cluster>, total: real, tolerance: real): (i: nat)
    ensures i <= |clusters|
    ensures i < |clusters| ==> Within(clusters[i].anchorTotal, total, tolerance)
    ensures forall j :: 0 <= j < i ==> !Within(clusters[j].anchorTotal, total, tolerance)
  {
    if |clusters| == 0 then 0
    else if Within(clusters[0].anchorTotal, total, tolerance) then 0
    else 1 + FirstMatch(clusters[1..], total, tolerance)
  }

  /**
   * One iteration of the outer loop: join the first matching cluster, or
   * open a new one. Existing clusters keep their position and anchor
   * total, their members stay a prefix, and at most one cluster is added.
   */
  function Place(clusters: seq<Cluster>, rec: Record, tolerance: real): (placed: seq<Cluster>)
    ensures |placed| <= |clusters| + 1
    ensures Extends(clusters, placed)
  {
    var i := FirstMatch(clusters, Total(rec), tolerance);
    if i < |clusters| then
      clusters[i := Cluster(clusters[i].anchorTotal, clusters[i].members + [rec])]
    else
      clusters + [Cluster(Total(rec), [rec])]
  }

  /**
   * `later` is a later state of the same cluster list: every cluster of
   * `earlier` is still at its position, with the same anchor total, and
   * its members are a prefix of the new ones.
   */
  ghost predicate Extends(earlier: seq<Cluster>, later: seq<Cluster>)
  {
    && |earlier| <= |later|
    && forall i :: 0 <= i < |earlier| ==>
      later[i].anchorTotal == earlier[i].anchorTotal && earlier[i].members <= later[i].members
  }

  lemma ExtendsTransitive(a: seq<Cluster>, b: seq<Cluster>, c: seq<Cluster>)
    requires Extends(a, b) && Extends(b, c)
    ensures Extends(a, c)
  {
    forall i | 0 <= i < |a|
      ensures c[i].anchorTotal == a[i].anchorTotal && a[i].members <= c[i].members
    {
      assert b[i].anchorTotal == a[i].anchorTotal && a[i].members <= b[i].members;
    }
  }

  /** The clusters after the single left-to-right pass over `records`: at most one per record, and none only for no records. */
  function Clusters(records: seq<Record>, tolerance: real): (clusters: seq<Cluster>)
    ensures |clusters| <= |records|
    ensures |clusters| == 0 <==> |records| == 0
  {
    if |records| == 0 then []
    else Place(Clusters(records[..|records| - 1], tolerance), records[|records| - 1], tolerance)
  }

  /** `[c for c in clusters if len(c) >= min_count]` */
  function Qualifying(clusters: seq<Cluster>, minCount: int): (valid: seq<Cluster>)
    ensures forall c :: c in valid ==> c in clusters && |c.members| >= minCount
  {
    if |clusters| == 0 then []
    else if |clusters[0].members| >= minCount then [clusters[0]] + Qualifying(clusters[1..], minCount)
    else Qualifying(clusters[1..], minCount)
  }

  /** `max(valid, key=len)`: the first cluster of maximal size. */
  function FirstLargest(valid: seq<Cluster>): (k: nat)
    requires |valid| > 0
    ensures k < |valid|
    ensures forall j :: 0 <= j < |valid| ==> |valid[j].members| <= |valid[k].members|
    ensures forall j :: 0 <= j < k ==> |valid[j].members| < |valid[k].members|
  {
    if |valid| == 1 then 0
    else
      var k := 1 + FirstLargest(valid[1..]);
      if |valid[k].members| > |valid[0].members| then k else 0
  }

  /**
   * A cluster as the pass builds it: it has its anchor member, the anchor
   * total is that member's total, and every later member is within
   * tolerance of the anchor total.
   */
  ghost predicate WellFormed(c: Cluster, tolerance: real)
  {
    && |c.members| > 0
    && c.anchorTotal == Total(c.members[0])
    && forall k :: 1 <= k < |c.members| ==> Within(c.anchorTotal, Total(c.members[k]), tolerance)
  }

  lemma {:induction false} ClustersWellFormed(records: seq<Record>, tolerance: real)
    ensures forall i :: 0 <= i < |Clusters(records, tolerance)| ==> WellFormed(Clusters(records, tolerance)[i], tolerance)
  {
    if |records| > 0 {
      ClustersWellFormed(records[..|records| - 1], tolerance);
    }
  }

  /** With a non-negative tolerance the anchor trivially satisfies the test too, so every member is within tolerance. */
  lemma MembersWithinTolerance(records: seq<Record>, tolerance: real, i: int, k: int)
    requires tolerance >= 0.0
    requires 0 <= i < |Clusters(records, tolerance)|
    requires 0 <= k < |Clusters(records, tolerance)[i].members|
    ensures Within(Clusters(records, tolerance)[i].anchorTotal, Total(Clusters(records, tolerance)[i].members[k]), tolerance)
  {
  }

  /** All records held by the clusters, counted with multiplicity. */
  function Members(clusters: seq<Cluster>): multiset<Record>
  {
    if |clusters| == 0 then multiset{} else multiset(clusters[0].members) + Members(clusters[1..])
  }

  /** The sum of the cluster sizes. */
  function SizeSum(clusters: seq<Cluster>): nat
  {
    if |clusters| == 0 then 0 else |clusters[0].members| + SizeSum(clusters[1..])
  }

  lemma {:induction false} MembersAppend(clusters: seq<Cluster>, c: Cluster)
    ensures Members(clusters + [c]) == Members(clusters) + multiset(c.members)
    ensures SizeSum(clusters + [c]) == SizeSum(clusters) + |c.members|
  {
    if |clusters| > 0 {
      assert (clusters + [c])[1..] == clusters[1..] + [c];
      MembersAppend(clusters[1..], c);
    }
  }

  lemma {:induction false} MembersGrow(clusters: seq<Cluster>, i: nat, rec: Record)
    requires i < |clusters|
    ensures Members(clusters[i := Cluster(clusters[i].anchorTotal, clusters[i].members + [rec])])
         == Members(clusters) + multiset{rec}
    ensures SizeSum(clusters[i := Cluster(clusters[i].anchorTotal, clusters[i].members + [rec])])
         == SizeSum(clusters) + 1
  {
    var grown := clusters[i := Cluster(clusters[i].anchorTotal, clusters[i].members + [rec])];
    if i > 0 {
      assert grown[1..] == clusters[1..][i - 1 := Cluster(clusters[i].anchorTotal, clusters[i].members + [rec])];
      MembersGrow(clusters[1..], i - 1, rec);
    } else {
      assert grown[1..] == clusters[1..];
    }
  }

  /** Each record is placed in exactly one cluster: the clusters partition the records. */
  lemma {:induction false} ClustersPartition(records: seq<Record>, tolerance: real)
    ensures Members(Clusters(records, tolerance)) == multiset(records)
    ensures SizeSum(Clusters(records, tolerance)) == |records|
  {
    if |records| > 0 {
      var n := |records| - 1;
      var before := Clusters(records[..n], tolerance);
      ClustersPartition(records[..n], tolerance);
      var i := FirstMatch(before, Total(records[n]), tolerance);
      if i < |before| {
        MembersGrow(before, i, records[n]);
      } else {
        MembersAppend(before, Cluster(Total(records[n]), [records[n]]));
      }
      assert records == records[..n] + [records[n]];
    }
  }

  /** A new cluster is opened only when no anchor matches, so anchor totals differ pairwise by more than the tolerance. */
  lemma {:induction false} AnchorsSeparated(records: seq<Record>, tolerance: real)
    ensures forall i, j :: 0 <= i < j < |Clusters(records, tolerance)| ==>
      !Within(Clusters(records, tolerance)[i].anchorTotal, Clusters(records, tolerance)[j].anchorTotal, tolerance)
  {
    if |records| > 0 {
      AnchorsSeparated(records[..|records| - 1], tolerance);
    }
  }

  /**
   * Clusters are append-only: a later state of the pass keeps every
   * earlier cluster, in the same position, with the same anchor total and
   * anchor record, its old members as a prefix of its new ones.
   */
  lemma {:induction false} ClustersOnlyGrow(records: seq<Record>, tolerance: real, m: nat, n: nat)
    requires m <= n <= |records|
    ensures Extends(Clusters(records[..m], tolerance), Clusters(records[..n], tolerance))
    decreases n - m
  {
    if m < n {
      ClustersOnlyGrow(records, tolerance, m, n - 1);
      assert records[..n][..n - 1] == records[..n - 1];
      ExtendsTransitive(Clusters(records[..m], tolerance), Clusters(records[..n - 1], tolerance), Clusters(records[..n], tolerance));
    }
  }

  /**
   * The cluster at index `w` is the one `max(valid, key=len)` picks: it
   * qualifies, no qualifying cluster is larger, and every qualifying
   * cluster created before it is strictly smaller.
   */
  ghost predicate IsSelected(clusters: seq<Cluster>, minCount: int, w: int)
  {
    && 0 <= w < |clusters|
    && |clusters[w].members| >= minCount
    && (forall j :: 0 <= j < |clusters| && |clusters[j].members| >= minCount ==> |clusters[j].members| <= |clusters[w].members|)
    && (forall j :: 0 <= j < w && |clusters[j].members| >= minCount ==> |clusters[j].members| < |clusters[w].members|)
  }

  lemma {:induction false} QualifyingEmpty(clusters: seq<Cluster>, minCount: int)
    ensures |Qualifying(clusters, minCount)| == 0 <==> forall j :: 0 <= j < |clusters| ==> |clusters[j].members| < minCount
  {
    if |clusters| > 0 {
      QualifyingEmpty(clusters[1..], minCount);
      if |clusters[0].members| < minCount {
        forall j | 1 <= j < |clusters|
          ensures clusters[j] == clusters[1..][j - 1]
        {
        }
      }
    }
  }

  lemma ShiftSelected(clusters: seq<Cluster>, minCount: int, w: int)
    requires |clusters| > 0
    requires IsSelected(clusters[1..], minCount, w)
    requires |clusters[0].members| < minCount || |clusters[0].members| < |clusters[w + 1].members|
    ensures IsSelected(clusters, minCount, w + 1)
  {
  }

  lemma HeadSelected(clusters: seq<Cluster>, minCount: int)
    requires |clusters| > 0 && |clusters[0].members| >= minCount
    requires forall j :: 0 <= j < |clusters| - 1 && |clusters[1..][j].members| >= minCount ==>
      |clusters[1..][j].members| <= |clusters[0].members|
    ensures IsSelected(clusters, minCount, 0)
  {
    forall j | 1 <= j < |clusters| && |clusters[j].members| >= minCount
      ensures |clusters[j].members| <= |clusters[0].members|
    {
      assert clusters[j] == clusters[1..][j - 1];
    }
  }

  lemma {:induction false} SelectionIsEarliestLargest(clusters: seq<Cluster>, minCount: int)
    requires |Qualifying(clusters, minCount)| > 0
    ensures exists w :: (IsSelected(clusters, minCount, w)
      && Qualifying(clusters, minCount)[FirstLargest(Qualifying(clusters, minCount))] == clusters[w])
  {
    var rest := clusters[1..];
    var valid := Qualifying(clusters, minCount);
    var validRest := Qualifying(rest, minCount);
    if |clusters[0].members| < minCount {
      SelectionIsEarliestLargest(rest, minCount);
      var w :| IsSelected(rest, minCount, w) && validRest[FirstLargest(validRest)] == rest[w];
      ShiftSelected(clusters, minCount, w);
    } else if |validRest| == 0 {
      QualifyingEmpty(rest, minCount);
      HeadSelected(clusters, minCount);
    } else {
      SelectionIsEarliestLargest(rest, minCount);
      var w :| IsSelected(rest, minCount, w) && validRest[FirstLargest(validRest)] == rest[w];
      assert valid[1..] == validRest;
      if |rest[w].members| > |clusters[0].members| {
        ShiftSelected(clusters, minCount, w);
      } else {
        HeadSelected(clusters, minCount);
      }
    }
  }

  lemma SelectedUnique(clusters: seq<Cluster>, minCount: int, v: int, w: int)
    requires IsSelected(clusters, minCount, v) && IsSelected(clusters, minCount, w)
    ensures v == w
  {
  }

  /**
   * `most_common_config` as a function: nothing exactly when no cluster
   * of the pass reaches `min_count`, and otherwise the triple of an
   * actual input record, never a synthesised one.
   */
  function CommonConfig(records: seq<Record>, tolerance: real, minCount: int): (config: Option<Config>)
    ensures config.None? ==>
      forall j :: 0 <= j < |Clusters(records, tolerance)| ==> |Clusters(records, tolerance)[j].members| < minCount
    ensures (forall j :: 0 <= j < |Clusters(records, tolerance)| ==> |Clusters(records, tolerance)[j].members| < minCount)
      ==> config.None?
    ensures config.Some? ==> exists k :: 0 <= k < |records| && config.value == ConfigOf(records[k])
  {
    var valid := Qualifying(Clusters(records, tolerance), minCount);
    QualifyingEmpty(Clusters(records, tolerance), minCount);
    if |valid| == 0 then None
    else
      var largest := valid[FirstLargest(valid)];
      AnchorIsARecord(records, tolerance, largest);
      Some(ConfigOf(largest.members[0]))
  }

  /** The anchor of any cluster of the pass is one of the input records. */
  lemma AnchorIsARecord(records: seq<Record>, tolerance: real, c: Cluster)
    requires c in Clusters(records, tolerance)
    ensures |c.members| > 0
    ensures exists k :: 0 <= k < |records| && c.members[0] == records[k]
  {
    var cs := Clusters(records, tolerance);
    ClustersWellFormed(records, tolerance);
    ClustersPartition(records, tolerance);
    var i :| 0 <= i < |cs| && cs[i] == c;
    MemberOfCluster(cs, i, 0);
    assert c.members[0] in multiset(records);
  }

  /**
   * Otherwise it returns the anchor record of the earliest-created
   * cluster of maximal size among those reaching `min_count`.
   */
  lemma CommonConfigSelects(records: seq<Record>, tolerance: real, minCount: int, w: int)
    requires IsSelected(Clusters(records, tolerance), minCount, w)
    ensures |Clusters(records, tolerance)[w].members| > 0
    ensures CommonConfig(records, tolerance, minCount) == Some(ConfigOf(Clusters(records, tolerance)[w].members[0]))
  {
    var cs := Clusters(records, tolerance);
    ClustersWellFormed(records, tolerance);
    var valid := Qualifying(cs, minCount);
    QualifyingEmpty(cs, minCount);
    assert |valid| > 0;
    SelectionIsEarliestLargest(cs, minCount);
    var v :| IsSelected(cs, minCount, v) && valid[FirstLargest(valid)] == cs[v];
    SelectedUnique(cs, minCount, v, w);
  }

  lemma {:induction false} MemberOfCluster(clusters: seq<Cluster>, i: nat, k: nat)
    requires i < |clusters| && k < |clusters[i].members|
    ensures clusters[i].members[k] in Members(clusters)
  {
    if i > 0 {
      MemberOfCluster(clusters[1..], i - 1, k);
    }
  }

  /** When every total is within tolerance of the first record's total, the pass forms one cluster holding everything. */
  lemma {:induction false} SingleCluster(records: seq<Record>, tolerance: real)
    requires |records| > 0
    requires forall k :: 0 <= k < |records| ==> Within(Total(records[0]), Total(records[k]), tolerance)
    ensures Clusters(records, tolerance) == [Cluster(Total(records[0]), records)]
  {
    var n := |records| - 1;
    if n > 0 {
      var prefix := records[..n];
      forall k | 0 <= k < |prefix|
        ensures Within(Total(prefix[0]), Total(prefix[k]), tolerance)
      {
        assert prefix[k] == records[k];
      }
      SingleCluster(prefix, tolerance);
      assert Within(Total(records[0]), Total(records[n]), tolerance);
      assert FirstMatch([Cluster(Total(records[0]), prefix)], Total(records[n]), tolerance) == 0;
      assert prefix + [records[n]] == records;
    } else {
      assert Clusters(records[..0], tolerance) == [];
      assert records == [records[0]];
    }
  }

  /** `min_count` or more identical records give that record's triple; fewer give nothing. */
  lemma IdenticalRecords(records: seq<Record>, rec: Record, tolerance: real, minCount: int)
    requires tolerance >= 0.0
    requires forall k :: 0 <= k < |records| ==> records[k] == rec
    ensures |records| > 0 && |records| >= minCount ==> CommonConfig(records, tolerance, minCount) == Some(ConfigOf(rec))
    ensures |records| < minCount ==> CommonConfig(records, tolerance, minCount) == None
  {
    if |records| > 0 {
      SingleCluster(records, tolerance);
    }
  }

  /**
   * The tolerance is a closed bound: five records totalling 4.00 followed
   * by three totalling 4.02 form a single cluster of eight anchored at
   * 4.00, and the first record's triple is returned.
   */
  lemma ToleranceBoundaryExample()
    ensures var a := Record(1.00, 2.00, 1.00);
            var b := Record(1.01, 2.00, 1.01);
            CommonConfig([a, a, a, a, a, b, b, b], DefaultTolerance, DefaultMinCount) == Some((1.00, 1.00, 2.00))
  {
    var a := Record(1.00, 2.00, 1.00);
    var b := Record(1.01, 2.00, 1.01);
    var records := [a, a, a, a, a, b, b, b];
    SingleCluster(records, DefaultTolerance);
  }

  /** `compute_stats`: nothing for an empty list, otherwise the six aggregates and the common configuration. */
  function ComputeStats(records: seq<Record>): (r: Option<Stats>)
    ensures r.None? <==> |records| == 0
    ensures r.Some? ==> r.value.avgTotal == r.value.avgLower + r.value.avgUpper + r.value.avgSpring
    ensures r.Some? && r.value.commonConfig.Some? ==>
      exists k :: 0 <= k < |records| && r.value.commonConfig.value == ConfigOf(records[k])
  {
    if |records| == 0 then None
    else
      var lowers := Project(records, Lowers);
      var uppers := Project(records, Uppers);
      var springs := Project(records, Springs);
      var totals := Project(records, Totals);
      var common := CommonConfig(records, DefaultTolerance, DefaultMinCount);
      assert forall i :: 0 <= i < |records| ==> totals[i] == lowers[i] + uppers[i] + springs[i] by {
        forall i | 0 <= i < |records|
          ensures totals[i] == lowers[i] + uppers[i] + springs[i]
        {
          ProjectAt(records, Lowers, i);
          ProjectAt(records, Uppers, i);
          ProjectAt(records, Springs, i);
          ProjectAt(records, Totals, i);
        }
      }
      MeanOfSums(lowers, uppers, springs, totals);
      Some(Stats(
        avgLower := Mean(lowers),
        avgUpper := Mean(uppers),
        avgSpring := Mean(springs),
        avgTotal := Mean(totals),
        medianLower := Median(lowers),
        medianUpper := Median(uppers),
        commonConfig := common))
  }

  lemma RemoveAt<T>(s: seq<T>, i: int)
    requires 0 <= i < |s|
    ensures multiset(s[..i] + s[i + 1..]) == multiset(s) - multiset{s[i]}
  {
    assert s == s[..i] + [s[i]] + s[i + 1..];
    assert multiset(s) == multiset(s[..i]) + multiset{s[i]} + multiset(s[i + 1..]);
  }

  /** Taking one record out of the list takes its value out of the column. */
  lemma ProjectRemoveAt(b: seq<Record>, i: int, c: Column)
    requires 0 <= i < |b|
    ensures multiset(Project(b, c)) == multiset(Project(b[..i] + b[i + 1..], c)) + multiset{Value(b[i], c)}
  {
    var left, right := Project(b[..i], c), Project(b[i + 1..], c);
    var v := Value(b[i], c);
    assert Project(b, c) == left + [v] + right by {
      ProjectConcat(b[..i], [b[i]] + b[i + 1..], c);
      ProjectConcat([b[i]], b[i + 1..], c);
      assert b[..i] + ([b[i]] + b[i + 1..]) == b;
    }
    assert Project(b[..i] + b[i + 1..], c) == left + right by {
      ProjectConcat(b[..i], b[i + 1..], c);
    }
    MultisetSplit(left, v, right);
  }

  lemma MultisetSplit(left: seq<real>, v: real, right: seq<real>)
    ensures multiset(left + [v] + right) == multiset(left + right) + multiset{v}
  {
  }

  /** Reordering the records reorders each column the same way. */
  lemma {:induction false} ProjectPermutation(a: seq<Record>, b: seq<Record>, c: Column)
    requires multiset(a) == multiset(b)
    ensures multiset(Project(a, c)) == multiset(Project(b, c))
    decreases |a|
  {
    assert |a| == |multiset(a)| == |multiset(b)| == |b|;
    if |a| > 0 {
      var x := a[0];
      assert x in multiset(b);
      var i :| 0 <= i < |b| && b[i] == x;
      var b' := b[..i] + b[i + 1..];
      RemoveAt(a, 0);
      RemoveAt(b, i);
      assert a[..0] + a[1..] == a[1..];
      ProjectPermutation(a[1..], b', c);
      ProjectRemoveAt(b, i, c);
      ProjectRemoveAt(a, 0, c);
    }
  }

  lemma {:induction false} ProjectConcat(a: seq<Record>, b: seq<Record>, c: Column)
    ensures Project(a + b, c) == Project(a, c) + Project(b, c)
  {
    if |a| > 0 {
      assert (a + b)[1..] == a[1..] + b;
      ProjectConcat(a[1..], b, c);
    } else {
      assert a + b == b;
    }
  }

  /**
   * The four means and the two medians do not depend on the order of the
   * records; only the common configuration can.
   */
  lemma StatsPermutation(a: seq<Record>, b: seq<Record>)
    requires multiset(a) == multiset(b)
    ensures ComputeStats(a).None? <==> ComputeStats(b).None?
    ensures ComputeStats(a).Some? ==>
      var s, t := ComputeStats(a).value, ComputeStats(b).value;
      && s.avgLower == t.avgLower && s.avgUpper == t.avgUpper
      && s.avgSpring == t.avgSpring && s.avgTotal == t.avgTotal
      && s.medianLower == t.medianLower && s.medianUpper == t.medianUpper
  {
    assert |a| == |multiset(a)| == |multiset(b)| == |b|;
    if |a| > 0 {
      ProjectPermutation(a, b, Lowers);
      ProjectPermutation(a, b, Uppers);
      ProjectPermutation(a, b, Springs);
      ProjectPermutation(a, b, Totals);
      MeanPermutation(Project(a, Lowers), Project(b, Lowers));
      MeanPermutation(Project(a, Uppers), Project(b, Uppers));
      MeanPermutation(Project(a, Springs), Project(b, Springs));
      MeanPermutation(Project(a, Totals), Project(b, Totals));
      MedianPermutation(Project(a, Lowers), Project(b, Lowers));
      MedianPermutation(Project(a, Uppers), Project(b, Uppers));
    }
  }

  /**
   * The inner scan of `most_common_config`: walk the clusters in creation
   * order, append the record to the first one whose anchor total is within
   * tolerance and stop, or open a new cluster after the last one.
   */
  method PlaceRecord(clusters: seq<Cluster>, rec: Record, tolerance: real) returns (placed: seq<Cluster>)
    ensures placed == Place(clusters, rec, tolerance)
  {
    var total := Total(rec);
    var j := 0;
    while j < |clusters|
      invariant 0 <= j <= |clusters|
      invariant forall k :: 0 <= k < j ==> !Within(clusters[k].anchorTotal, total, tolerance)
    {
      if Abs(clusters[j].anchorTotal - total) <= tolerance {
        assert FirstMatch(clusters, total, tolerance) == j;
        return clusters[j := Cluster(clusters[j].anchorTotal, clusters[j].members + [rec])];
      }
      j := j + 1;
    }
    assert FirstMatch(clusters, total, tolerance) == |clusters|;
    placed := clusters + [Cluster(total, [rec])];
  }

  /**
   * `most_common_config` as the source runs it: one pass over the records
   * placing each one, then the filter by `min_count` and the first largest
   * remaining cluster.
   */
  method MostCommonConfig(records: seq<Record>, tolerance: real, minCount: int) returns (r: Option<Config>)
    ensures r == CommonConfig(records, tolerance, minCount)
  {
    var clusters: seq<Cluster> := [];
    var i := 0;
    while i < |records|
      invariant 0 <= i <= |records|
      invariant clusters == Clusters(records[..i], tolerance)
    {
      clusters := PlaceRecord(clusters, records[i], tolerance);
      assert records[..i + 1][..i] == records[..i];
      i := i + 1;
    }
    assert records[..|records|] == records;
    var valid := Qualifying(clusters, minCount);
    if |valid| == 0 {
      return None;
    }
    ClustersWellFormed(records, tolerance);
    var largest := valid[FirstLargest(valid)];
    var anchor := largest.members[0];
    r := Some((anchor.washer1, anchor.washer2, anchor.spring));
  }
}
