/** The runs of matching pairs `find_node_copypastes` (astexplorer/ast_comparer.py)
    collects, stated on values: the pairs the nested loops visit, the runs
    of consecutive matching pairs among them, and the records a scan of the
    pairs builds. */
module CopypasteRuns {
  import opened BriefNodes

  /** The per-node key compared by `find_node_copypastes`: the hash stored
      under the 'hash' naming mode. */
  function Key(n: Node): string
  {
    n.hashes.usage
  }

  /** A pair (a, b) visited by the nested loops. */
  type Pair = (Node, Node)

  predicate Matches(p: Pair)
  {
    Key(p.0) == Key(p.1)
  }

  /** The pairs of `a` with the first `n` nodes of `bList`, in order. */
  function Row(a: Node, bList: seq<Node>, n: nat): (r: seq<Pair>)
    requires n <= |bList|
    ensures |r| == n && forall j | 0 <= j < n :: r[j] == (a, bList[j])
  {
    if n == 0 then [] else Row(a, bList, n - 1) + [(a, bList[n - 1])]
  }

  /** The pairs the nested loops visit for the first `n` nodes of `aList`:
      every a, and for each a every b of `bList`. */
  function Pairs(aList: seq<Node>, bList: seq<Node>, n: nat): seq<Pair>
    requires n <= |aList|
  {
    if n == 0 then [] else Pairs(aList, bList, n - 1) + Row(aList[n - 1], bList, |bList|)
  }

  /** A run of matching pairs: positions `start` to `start + len - 1`. */
  datatype Run = Run(start: nat, len: nat)
  {
    function End(): nat
    {
      start + len
    }
  }

  /** Which of the pairs match. */
  function Flags(ps: seq<Pair>): (ms: seq<bool>)
    ensures |ms| == |ps| && forall p | 0 <= p < |ps| :: ms[p] == Matches(ps[p])
  {
    seq(|ps|, p requires 0 <= p < |ps| => Matches(ps[p]))
  }

  lemma FlagsAppend(ps: seq<Pair>, p: Pair)
    ensures Flags(ps + [p]) == Flags(ps) + [Matches(p)]
  {
    assert forall q | 0 <= q < |ps| :: (ps + [p])[q] == ps[q];
  }

  /** Every run has a pair or more and lies within the first `n` pairs. */
  predicate Within(r: seq<Run>, n: nat)
  {
    forall k | 0 <= k < |r| :: 1 <= r[k].len && r[k].End() <= n
  }

  /** The runs the open record `cp` collects while the first `n` pairs are
      visited in order, given which pairs match: a matching pair extends the
      open run, or opens a new one when the previous pair did not match; a
      mismatch closes it. */
  function RunsTo(ms: seq<bool>, n: nat): (r: seq<Run>)
    requires n <= |ms|
    ensures Within(r, n)
    ensures n > 0 && ms[n - 1] ==> |r| > 0 && r[|r| - 1].End() == n
  {
    if n == 0 then []
    else
      var prev := RunsTo(ms, n - 1);
      if !ms[n - 1] then prev
      else if n > 1 && ms[n - 2] then
        prev[|prev| - 1 := Run(prev[|prev| - 1].start, prev[|prev| - 1].len + 1)]
      else prev + [Run(n - 1, 1)]
  }

  /** How one more pair changes the runs, element by element: a mismatch
      changes nothing, a match after a match stretches the last run, any
      other match opens a run of one pair. */
  lemma RunsStep(ms: seq<bool>, n: nat)
    requires 0 < n <= |ms|
    ensures var prev := RunsTo(ms, n - 1); var r := RunsTo(ms, n);
      (!ms[n - 1] ==> r == prev) &&
      (ms[n - 1] && n > 1 && ms[n - 2] ==>
        |prev| > 0 && |r| == |prev| && (forall k | 0 <= k < |prev| - 1 :: r[k] == prev[k]) &&
        r[|prev| - 1] == Run(prev[|prev| - 1].start, prev[|prev| - 1].len + 1) && prev[|prev| - 1].End() == n - 1) &&
      (ms[n - 1] && (n == 1 || !ms[n - 2]) ==>
        |r| == |prev| + 1 && (forall k | 0 <= k < |prev| :: r[k] == prev[k]) && r[|prev|] == Run(n - 1, 1))
  {
  }

  /** The runs of the first `n` pairs depend on those pairs only. */
  lemma {:induction false} RunsToPrefix(ms: seq<bool>, ms': seq<bool>, n: nat)
    requires n <= |ms| && n <= |ms'| && forall p | 0 <= p < n :: ms[p] == ms'[p]
    ensures RunsTo(ms, n) == RunsTo(ms', n)
    decreases n
  {
    if n > 0 {
      RunsToPrefix(ms, ms', n - 1);
    }
  }

  /** Every run covers matching pairs only. */
  lemma {:induction false} RunsMatch(ms: seq<bool>, n: nat)
    requires n <= |ms|
    ensures var r := RunsTo(ms, n);
      forall k, p | 0 <= k < |r| && r[k].start <= p < r[k].End() :: ms[p]
    decreases n
  {
    if n > 0 {
      var prev := RunsTo(ms, n - 1);
      var r := RunsTo(ms, n);
      RunsMatch(ms, n - 1);
      RunsStep(ms, n);
      forall k, p | 0 <= k < |r| && r[k].start <= p < r[k].End() ensures ms[p] {
        if !ms[n - 1] {
          assert r[k] == prev[k];
        } else if n > 1 && ms[n - 2] {
          if k < |prev| - 1 {
            assert r[k] == prev[k];
          } else if p < n - 1 {
            assert prev[k].start <= p < prev[k].End();
          }
        } else if k < |prev| {
          assert r[k] == prev[k];
        }
      }
    }
  }

  /** The runs come in order, at least one mismatch apart. */
  lemma {:induction false} RunsOrdered(ms: seq<bool>, n: nat)
    requires n <= |ms|
    ensures var r := RunsTo(ms, n); forall k | 0 <= k < |r| - 1 :: r[k].End() < r[k + 1].start
    decreases n
  {
    if n > 0 {
      var prev := RunsTo(ms, n - 1);
      RunsOrdered(ms, n - 1);
      RunsMatch(ms, n - 1);
      RunsStep(ms, n);
      if ms[n - 1] && (n == 1 || !ms[n - 2]) && |prev| > 0 {
        var last := prev[|prev| - 1];
        assert last.start <= last.End() - 1;
      }
    }
  }

  /** Runs further on in the list end further on. */
  lemma {:induction false} RunsOrderedAll(ms: seq<bool>, n: nat, i: int, j: int)
    requires n <= |ms| && 0 <= i <= j < |RunsTo(ms, n)|
    ensures RunsTo(ms, n)[i].End() <= RunsTo(ms, n)[j].End()
    decreases j - i
  {
    if i < j {
      RunsOrdered(ms, n);
      RunsOrderedAll(ms, n, i + 1, j);
    }
  }

  /** No run can be stretched to the left. */
  lemma {:induction false} RunsLeftMaximal(ms: seq<bool>, n: nat)
    requires n <= |ms|
    ensures var r := RunsTo(ms, n); forall k | 0 <= k < |r| :: r[k].start == 0 || !ms[r[k].start - 1]
    decreases n
  {
    if n > 0 {
      var prev := RunsTo(ms, n - 1);
      var r := RunsTo(ms, n);
      RunsLeftMaximal(ms, n - 1);
      RunsStep(ms, n);
      forall k | 0 <= k < |r| ensures r[k].start == 0 || !ms[r[k].start - 1] {
        if k < |prev| {
          assert r[k].start == prev[k].start;
        }
      }
    }
  }

  /** No run can be stretched to the right within the first `n` pairs. */
  lemma {:induction false} RunsRightMaximal(ms: seq<bool>, n: nat)
    requires n <= |ms|
    ensures var r := RunsTo(ms, n); forall k | 0 <= k < |r| :: r[k].End() == n || !ms[r[k].End()]
    decreases n
  {
    if n > 0 {
      var prev := RunsTo(ms, n - 1);
      var r := RunsTo(ms, n);
      RunsRightMaximal(ms, n - 1);
      RunsStep(ms, n);
      if ms[n - 1] && n > 1 && ms[n - 2] {
        var m := |prev| - 1;
        forall k | 0 <= k < m ensures r[k].End() == n || !ms[r[k].End()] {
          RunsOrdered(ms, n - 1);
          RunsOrderedAll(ms, n - 1, k + 1, m);
          assert prev[k].End() < prev[k + 1].start <= prev[k + 1].End() - 1;
        }
      } else if ms[n - 1] {
        RunsMatch(ms, n - 1);
        forall k | 0 <= k < |prev| ensures r[k].End() == n || !ms[r[k].End()] {
          assert prev[k].start <= prev[k].End() - 1;
        }
      }
    }
  }

  /** The run that holds matching pair `p`, among the runs of the first
      `n` pairs. */
  lemma {:induction false} CoveringRun(ms: seq<bool>, n: nat, p: nat) returns (k: nat)
    requires p < n <= |ms| && ms[p]
    ensures var r := RunsTo(ms, n); k < |r| && r[k].start <= p < r[k].End()
    decreases n
  {
    var r := RunsTo(ms, n);
    RunsStep(ms, n);
    if p == n - 1 {
      k := |r| - 1;
    } else {
      var prev := RunsTo(ms, n - 1);
      k := CoveringRun(ms, n - 1, p);
      assert r[k].start == prev[k].start && prev[k].End() <= r[k].End();
    }
  }

  /** Every matching pair lies in some run. */
  lemma RunsCover(ms: seq<bool>, n: nat)
    requires n <= |ms|
    ensures var r := RunsTo(ms, n);
      forall p | 0 <= p < n && ms[p] :: exists k | 0 <= k < |r| :: r[k].start <= p < r[k].End()
  {
    var r := RunsTo(ms, n);
    forall p | 0 <= p < n && ms[p] ensures exists k | 0 <= k < |r| :: r[k].start <= p < r[k].End() {
      var k := CoveringRun(ms, n, p);
    }
  }

  /** The summed weights of the a-nodes of the pairs in positions `start`
      to `start + len - 1`. */
  function RunWeight(ps: seq<Pair>, start: nat, len: nat): int
    requires start + len <= |ps|
  {
    if len == 0 then 0 else RunWeight(ps, start, len - 1) + ps[start + len - 1].0.weight
  }

  lemma {:induction false} RunWeightExtend(ps: seq<Pair>, p: Pair, start: nat, len: nat)
    requires start + len <= |ps|
    ensures RunWeight(ps + [p], start, len) == RunWeight(ps, start, len)
    decreases len
  {
    if len > 0 {
      RunWeightExtend(ps, p, start, len - 1);
    }
  }

  /** What a record holds once the scan is over: its anchor pair, its
      count and its weight. */
  datatype Summary = Summary(nodeA: Node, nodeB: Node, count: int, weight: int)

  /** The record a run stands for: anchored at the run's first pair,
      counting its pairs and summing the weights of their a-nodes. */
  function SummaryOf(ps: seq<Pair>, r: Run): Summary
    requires 1 <= r.len && r.End() <= |ps|
  {
    Summary(ps[r.start].0, ps[r.start].1, r.len, RunWeight(ps, r.start, r.len))
  }

  /** The runs of the pairs `ps`. */
  function Runs(ps: seq<Pair>): (r: seq<Run>)
    ensures Within(r, |ps|)
  {
    RunsTo(Flags(ps), |ps|)
  }

  /** A run the next pair does not touch keeps its record. */
  lemma SummaryOfExtend(ps: seq<Pair>, p: Pair, r: Run)
    requires 1 <= r.len && r.End() <= |ps|
    ensures SummaryOf(ps + [p], r) == SummaryOf(ps, r)
  {
    RunWeightExtend(ps, p, r.start, r.len);
  }

  /** How one more pair changes the runs of the pairs. */
  lemma {:induction false} RunsAppend(ps: seq<Pair>, p: Pair)
    ensures var ps' := ps + [p]; var prev := Runs(ps); var r := Runs(ps');
      (!Matches(p) ==> r == prev) &&
      (Matches(p) && |ps| > 0 && Matches(ps[|ps| - 1]) ==>
        |prev| > 0 && |r| == |prev| && (forall k | 0 <= k < |prev| - 1 :: r[k] == prev[k]) &&
        r[|prev| - 1] == Run(prev[|prev| - 1].start, prev[|prev| - 1].len + 1) && prev[|prev| - 1].End() == |ps|) &&
      (Matches(p) && (|ps| == 0 || !Matches(ps[|ps| - 1])) ==>
        |r| == |prev| + 1 && (forall k | 0 <= k < |prev| :: r[k] == prev[k]) && r[|prev|] == Run(|ps|, 1))
  {
    var ps' := ps + [p];
    var ms := Flags(ps');
    FlagsAppend(ps, p);
    RunsToPrefix(Flags(ps), ms, |ps|);
    assert Runs(ps) == RunsTo(ms, |ps|) && Runs(ps') == RunsTo(ms, |ps| + 1);
    assert ms[|ps|] == Matches(p) && (|ps| > 0 ==> ms[|ps| - 1] == Matches(ps[|ps| - 1]));
    RunsStep(ms, |ps'|);
  }

  /** The records the scan of `ps` builds, pair by pair: a mismatch leaves
      them as they are, a match after a match adds the pair to the last
      record, any other match opens a record of one pair. */
  function Scan(ps: seq<Pair>): (r: seq<Summary>)
  {
    if ps == [] then []
    else
      var pre := ps[..|ps| - 1];
      var p := ps[|ps| - 1];
      var prev := Scan(pre);
      if !Matches(p) then prev
      else if |pre| > 0 && Matches(pre[|pre| - 1]) && |prev| > 0 then
        prev[|prev| - 1 := prev[|prev| - 1].(count := prev[|prev| - 1].count + 1,
                                             weight := prev[|prev| - 1].weight + p.0.weight)]
      else prev + [Summary(p.0, p.1, 1, p.0.weight)]
  }

  lemma {:induction false} ScanStep(ps: seq<Pair>, p: Pair)
    ensures var prev := Scan(ps); var r := Scan(ps + [p]);
      r == if !Matches(p) then prev
        else if |ps| > 0 && Matches(ps[|ps| - 1]) && |prev| > 0 then
          prev[|prev| - 1 := prev[|prev| - 1].(count := prev[|prev| - 1].count + 1,
                                               weight := prev[|prev| - 1].weight + p.0.weight)]
        else prev + [Summary(p.0, p.1, 1, p.0.weight)]
  {
    var q := ps + [p];
    assert q[..|q| - 1] == ps && q[|q| - 1] == p;
  }

  /** The scan's records stand for the runs of `ps`, one by one. */
  predicate ScanAgrees(ps: seq<Pair>)
  {
    var ss := Scan(ps);
    var rs := Runs(ps);
    |ss| == |rs| && forall k | 0 <= k < |ss| :: ss[k] == SummaryOf(ps, rs[k])
  }

  /** Runs the next pair does not touch keep their records. */
  lemma ScanAgreesKept(pre: seq<Pair>, p: Pair, n: int)
    requires ScanAgrees(pre) && 0 <= n <= |Runs(pre)|
    requires n <= |Runs(pre + [p])| && n <= |Scan(pre + [p])|
    requires forall k | 0 <= k < n :: Runs(pre + [p])[k] == Runs(pre)[k] && Scan(pre + [p])[k] == Scan(pre)[k]
    ensures forall k | 0 <= k < n :: Scan(pre + [p])[k] == SummaryOf(pre + [p], Runs(pre + [p])[k])
  {
    forall k | 0 <= k < n ensures Scan(pre + [p])[k] == SummaryOf(pre + [p], Runs(pre + [p])[k]) {
      SummaryOfExtend(pre, p, Runs(pre)[k]);
    }
  }

  lemma {:induction false} ScanAgreesGrow(pre: seq<Pair>, p: Pair)
    requires ScanAgrees(pre) && Matches(p) && |pre| > 0 && Matches(pre[|pre| - 1])
    ensures ScanAgrees(pre + [p])
  {
    var ps := pre + [p];
    ScanStep(pre, p);
    RunsAppend(pre, p);
    var prev := Runs(pre);
    var n := |prev| - 1;
    ScanAgreesKept(pre, p, n);
    RunWeightExtend(pre, p, prev[n].start, prev[n].len);
    assert Scan(ps)[n] == SummaryOf(ps, Runs(ps)[n]);
  }

  lemma {:induction false} ScanAgreesOpen(pre: seq<Pair>, p: Pair)
    requires ScanAgrees(pre) && Matches(p) && (|pre| == 0 || !Matches(pre[|pre| - 1]))
    ensures ScanAgrees(pre + [p])
  {
    var ps := pre + [p];
    ScanStep(pre, p);
    RunsAppend(pre, p);
    var n := |Runs(pre)|;
    ScanAgreesKept(pre, p, n);
    assert RunWeight(ps, |pre|, 1) == RunWeight(ps, |pre|, 0) + p.0.weight;
    assert Scan(ps)[n] == SummaryOf(ps, Runs(ps)[n]);
  }

  lemma ScanAgreesMismatch(pre: seq<Pair>, p: Pair)
    requires ScanAgrees(pre) && !Matches(p)
    ensures ScanAgrees(pre + [p])
  {
    ScanStep(pre, p);
    RunsAppend(pre, p);
    ScanAgreesKept(pre, p, |Runs(pre)|);
  }

  /** The scan builds one record per run of matching pairs: anchored at the
      run's first pair, counting its pairs and summing the weights of their
      a-nodes. */
  lemma {:induction false} ScanIsRuns(ps: seq<Pair>)
    ensures var ss := Scan(ps); var rs := Runs(ps);
      |ss| == |rs| && forall k | 0 <= k < |ss| :: ss[k] == SummaryOf(ps, rs[k])
    decreases |ps|
  {
    if ps != [] {
      var pre := ps[..|ps| - 1];
      var p := ps[|ps| - 1];
      assert ps == pre + [p];
      ScanIsRuns(pre);
      if !Matches(p) {
        ScanAgreesMismatch(pre, p);
      } else if |pre| > 0 && Matches(pre[|pre| - 1]) {
        ScanAgreesGrow(pre, p);
      } else {
        ScanAgreesOpen(pre, p);
      }
    }
  }

  /** The records `find_node_copypastes` keeps: two pairs or more, and at
      least the minimum weight. */
  predicate Kept(s: Summary, minWeight: int)
  {
    s.count >= 2 && s.weight >= minWeight
  }

  /** The records among the first `n` of `ss` that are kept, in order. */
  function KeptOf(ss: seq<Summary>, n: nat, minWeight: int): (r: seq<Summary>)
    requires n <= |ss|
    ensures forall k | 0 <= k < |r| :: Kept(r[k], minWeight)
    ensures |r| <= n
  {
    if n == 0 then []
    else KeptOf(ss, n - 1, minWeight) + (if Kept(ss[n - 1], minWeight) then [ss[n - 1]] else [])
  }

  lemma RowAppend(ps: seq<Pair>, a: Node, bList: seq<Node>, n: nat)
    requires n < |bList|
    ensures ps + Row(a, bList, n + 1) == (ps + Row(a, bList, n)) + [(a, bList[n])]
  {
  }

  /** One more pass of the outer loop visits the row of its a. */
  lemma {:induction false} PairsStep(aList: seq<Node>, bList: seq<Node>, n: nat, ps: seq<Pair>)
    requires n < |aList| && ps == Pairs(aList, bList, n) + Row(aList[n], bList, |bList|)
    ensures ps == Pairs(aList, bList, n + 1)
  {
  }

  /** The first `n` rows hold `n * |bList|` pairs. */
  lemma {:induction false} PairsLength(aList: seq<Node>, bList: seq<Node>, n: nat)
    requires n <= |aList|
    ensures |Pairs(aList, bList, n)| == n * |bList|
  {
    if n > 0 {
      PairsLength(aList, bList, n - 1);
      assert (n - 1) * |bList| + |bList| == n * |bList|;
    }
  }

  /** The pairs are every a with every b, a-major: pair `i * |bList| + j`
      is (aList[i], bList[j]). */
  lemma {:induction false} PairsAt(aList: seq<Node>, bList: seq<Node>, n: nat, i: int, j: int)
    requires n <= |aList| && 0 <= i < n && 0 <= j < |bList|
    ensures i * |bList| + j < |Pairs(aList, bList, n)|
    ensures Pairs(aList, bList, n)[i * |bList| + j] == (aList[i], bList[j])
    decreases n
  {
    var m := |bList|;
    var pre := Pairs(aList, bList, n - 1);
    var row := Row(aList[n - 1], bList, m);
    assert Pairs(aList, bList, n) == pre + row;
    PairsLength(aList, bList, n - 1);
    if i < n - 1 {
      PairsAt(aList, bList, n - 1, i, j);
      assert i * m + j < |pre|;
    } else {
      assert i * m + j == |pre| + j;
      assert row[j] == (aList[i], bList[j]);
    }
  }

  /** Every record is anchored at a matching pair. */
  predicate AnchorsMatch(ss: seq<Summary>)
  {
    forall k | 0 <= k < |ss| :: Key(ss[k].nodeA) == Key(ss[k].nodeB)
  }

  /** The anchor of every record is a matching pair. */
  lemma ScanAnchorsMatch(ps: seq<Pair>)
    ensures AnchorsMatch(Scan(ps))
  {
    var ms := Flags(ps);
    ScanIsRuns(ps);
    RunsMatch(ms, |ps|);
    var rs := Runs(ps);
    var ss := Scan(ps);
    forall k | 0 <= k < |ss| ensures Key(ss[k].nodeA) == Key(ss[k].nodeB) {
      var st := rs[k].start;
      assert st < rs[k].End();
      assert ms[st];
      assert ss[k].nodeA == ps[st].0 && ss[k].nodeB == ps[st].1;
    }
  }
}
