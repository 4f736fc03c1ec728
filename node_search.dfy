/** The whole of what `find_node_copypastes` (astexplorer/ast_comparer.py)
    appends to the comparer's records, stated on values: the records of the
    nested searches, in the order the loops start them, then the kept runs
    of the pairs of the two lists themselves. */
module NodeSearch {
  import opened BriefNodes
  import opened CopypasteRuns

  /** The records `find_node_copypastes(fa, fb, aList, bList)` appends when
      the minimum weight is `w`: first everything its nested searches append,
      then its own kept runs. */
  function Found(aList: seq<Node>, bList: seq<Node>, w: int): seq<Summary>
    decreases SizeIn(aList) + SizeIn(bList), 2, 0
  {
    var ss := Scan(Pairs(aList, bList, |aList|));
    FoundRows(aList, bList, |aList|, w) + KeptOf(ss, |ss|, w)
  }

  /** What the nested searches of the first `n` passes of the outer loop
      append: in the pass of each a, the searches of `aList` against the body
      lists of every b, then the searches of a's body lists against
      `bList`. */
  function FoundRows(aList: seq<Node>, bList: seq<Node>, n: nat, w: int): seq<Summary>
    requires n <= |aList|
    decreases SizeIn(aList) + SizeIn(bList), 1, n
  {
    if n == 0 then []
    else
      SizeInBounds(aList, n - 1);
      FoundRows(aList, bList, n - 1, w) + FoundRow(aList, bList, |bList|, w) +
      FoundInA(aList[n - 1].body, |aList[n - 1].body|, bList, w)
  }

  /** What the searches of `aList` against the body lists of the first `m`
      nodes of `bList` append; the inner loop starts them whatever a is. */
  function FoundRow(aList: seq<Node>, bList: seq<Node>, m: nat, w: int): seq<Summary>
    requires m <= |bList|
    decreases SizeIn(aList) + SizeIn(bList), 0, m
  {
    if m == 0 then []
    else
      SizeInBounds(bList, m - 1);
      FoundRow(aList, bList, m - 1, w) + FoundInB(aList, bList[m - 1].body, |bList[m - 1].body|, w)
  }

  /** What the searches of `aList` against the first `k` lists of a body
      append: a non-empty list is searched, an empty one skipped. */
  function FoundInB(aList: seq<Node>, body: seq<BodyEntry>, k: nat, w: int): seq<Summary>
    requires k <= |body|
    decreases SizeIn(aList) + SizeInBody(body), 3, k
  {
    if k == 0 then []
    else
      SizeInBodyBounds(body, k - 1);
      FoundInB(aList, body, k - 1, w) +
      (if |body[k - 1].items| == 0 then [] else Found(aList, body[k - 1].items, w))
  }

  /** What the searches of the first `k` lists of a body against `bList`
      append. */
  function FoundInA(body: seq<BodyEntry>, k: nat, bList: seq<Node>, w: int): seq<Summary>
    requires k <= |body|
    decreases SizeInBody(body) + SizeIn(bList), 3, k
  {
    if k == 0 then []
    else
      SizeInBodyBounds(body, k - 1);
      FoundInA(body, k - 1, bList, w) +
      (if |body[k - 1].items| == 0 then [] else Found(body[k - 1].items, bList, w))
  }

  /** One more b of the inner loop appends the searches of its body lists. */
  lemma {:induction false} FoundRowStep(acc: seq<Summary>, aList: seq<Node>, bList: seq<Node>, m: nat, w: int)
    requires m < |bList|
    ensures acc + FoundRow(aList, bList, m, w) + FoundInB(aList, bList[m].body, |bList[m].body|, w)
         == acc + FoundRow(aList, bList, m + 1, w)
  {
  }

  /** One more pass of the outer loop appends its searches. */
  lemma {:induction false} FoundRowsStep(aList: seq<Node>, bList: seq<Node>, n: nat, w: int)
    requires n < |aList|
    ensures FoundRows(aList, bList, n, w) + FoundRow(aList, bList, |bList|, w) +
            FoundInA(aList[n].body, |aList[n].body|, bList, w) == FoundRows(aList, bList, n + 1, w)
  {
  }

  /** A record as the search of `aList` against `bList` keeps it: two pairs
      or more, at least the minimum weight, a matching anchor pair, its
      a-node a node of the trees of `aList` and its b-node one of
      `bList`'s. */
  predicate From(s: Summary, aList: seq<Node>, bList: seq<Node>, w: int)
  {
    Kept(s, w) && Key(s.nodeA) == Key(s.nodeB) && InForest(s.nodeA, aList) && InForest(s.nodeB, bList)
  }

  predicate AllFrom(ss: seq<Summary>, aList: seq<Node>, bList: seq<Node>, w: int)
  {
    forall k | 0 <= k < |ss| :: From(ss[k], aList, bList, w)
  }

  lemma AllFromJoin(xs: seq<Summary>, ys: seq<Summary>, aList: seq<Node>, bList: seq<Node>, w: int)
    requires AllFrom(xs, aList, bList, w) && AllFrom(ys, aList, bList, w)
    ensures AllFrom(xs + ys, aList, bList, w)
  {
    forall k | 0 <= k < |xs + ys| ensures From((xs + ys)[k], aList, bList, w) {
      if k < |xs| {
        assert (xs + ys)[k] == xs[k];
      } else {
        assert (xs + ys)[k] == ys[k - |xs|];
      }
    }
  }

  /** Every pair visited pairs a node of `aList` with a node of `bList`. */
  lemma {:induction false} PairsFrom(aList: seq<Node>, bList: seq<Node>, n: nat)
    requires n <= |aList|
    ensures forall p | 0 <= p < |Pairs(aList, bList, n)| ::
      Pairs(aList, bList, n)[p].0 in aList && Pairs(aList, bList, n)[p].1 in bList
    decreases n
  {
    if n > 0 {
      PairsFrom(aList, bList, n - 1);
      var pre: seq<Pair>, row: seq<Pair> := Pairs(aList, bList, n - 1), Row(aList[n - 1], bList, |bList|);
      forall p | 0 <= p < |pre + row| ensures (pre + row)[p].0 in aList && (pre + row)[p].1 in bList {
        if p >= |pre| {
          assert (pre + row)[p] == row[p - |pre|] == (aList[n - 1], bList[p - |pre|]);
        } else {
          assert (pre + row)[p] == pre[p];
        }
      }
    }
  }

  /** A kept record is one of the records kept from. */
  lemma {:induction false} KeptOfIn(ss: seq<Summary>, n: nat, w: int)
    requires n <= |ss|
    ensures forall k | 0 <= k < |KeptOf(ss, n, w)| :: KeptOf(ss, n, w)[k] in ss[..n]
    decreases n
  {
    if n > 0 {
      KeptOfIn(ss, n - 1, w);
      var pre := KeptOf(ss, n - 1, w);
      var r := KeptOf(ss, n, w);
      forall k | 0 <= k < |r| ensures r[k] in ss[..n] {
        if k < |pre| {
          assert r[k] == pre[k] && pre[k] in ss[..n - 1];
          assert ss[..n - 1] <= ss[..n];
        } else {
          assert r[k] == ss[n - 1] == ss[..n][n - 1];
        }
      }
    }
  }

  /** Every record of the scan is anchored at a pair of a node of `aList`
      with a node of `bList`. */
  lemma ScanFrom(aList: seq<Node>, bList: seq<Node>)
    ensures forall k | 0 <= k < |Scan(Pairs(aList, bList, |aList|))| ::
      Scan(Pairs(aList, bList, |aList|))[k].nodeA in aList && Scan(Pairs(aList, bList, |aList|))[k].nodeB in bList
  {
    var ps := Pairs(aList, bList, |aList|);
    var ss := Scan(ps);
    PairsFrom(aList, bList, |aList|);
    ScanIsRuns(ps);
    forall k | 0 <= k < |ss| ensures ss[k].nodeA in aList && ss[k].nodeB in bList {
      var st := Runs(ps)[k].start;
      assert ss[k].nodeA == ps[st].0 && ss[k].nodeB == ps[st].1;
    }
  }

  /** A node of a list is a node of the list's trees. */
  lemma InListInForest(x: Node, s: seq<Node>)
    requires x in s
    ensures InForest(x, s)
  {
    var i :| 0 <= i < |s| && s[i] == x;
    assert InTree(s[i], s[i]);
  }

  /** The search's own kept runs come from the two lists. */
  lemma OwnFrom(aList: seq<Node>, bList: seq<Node>, w: int)
    ensures var ss := Scan(Pairs(aList, bList, |aList|)); AllFrom(KeptOf(ss, |ss|, w), aList, bList, w)
  {
    var ss := Scan(Pairs(aList, bList, |aList|));
    var kept := KeptOf(ss, |ss|, w);
    ScanFrom(aList, bList);
    ScanAnchorsMatch(Pairs(aList, bList, |aList|));
    KeptOfIn(ss, |ss|, w);
    assert ss[..|ss|] == ss;
    forall k | 0 <= k < |kept| ensures From(kept[k], aList, bList, w) {
      var i :| 0 <= i < |ss| && ss[i] == kept[k];
      assert ss[i].nodeA in aList && ss[i].nodeB in bList;
      InListInForest(kept[k].nodeA, aList);
      InListInForest(kept[k].nodeB, bList);
    }
  }

  /** Every record the search appends, its nested searches' included, is
      kept, anchored at a matching pair, and pairs a node of the trees of
      `aList` with a node of the trees of `bList`. */
  lemma {:induction false} FoundFrom(aList: seq<Node>, bList: seq<Node>, w: int)
    ensures AllFrom(Found(aList, bList, w), aList, bList, w)
    decreases SizeIn(aList) + SizeIn(bList), 2, 0
  {
    FoundRowsFrom(aList, bList, |aList|, w);
    OwnFrom(aList, bList, w);
    var ss := Scan(Pairs(aList, bList, |aList|));
    AllFromJoin(FoundRows(aList, bList, |aList|, w), KeptOf(ss, |ss|, w), aList, bList, w);
  }

  lemma {:induction false} FoundRowsFrom(aList: seq<Node>, bList: seq<Node>, n: nat, w: int)
    requires n <= |aList|
    ensures AllFrom(FoundRows(aList, bList, n, w), aList, bList, w)
    decreases SizeIn(aList) + SizeIn(bList), 1, n
  {
    if n > 0 {
      SizeInBounds(aList, n - 1);
      FoundRowsFrom(aList, bList, n - 1, w);
      FoundRowFrom(aList, bList, |bList|, w);
      FoundInAFrom(aList, n - 1, |aList[n - 1].body|, bList, w);
      AllFromJoin(FoundRows(aList, bList, n - 1, w), FoundRow(aList, bList, |bList|, w), aList, bList, w);
      AllFromJoin(FoundRows(aList, bList, n - 1, w) + FoundRow(aList, bList, |bList|, w),
                  FoundInA(aList[n - 1].body, |aList[n - 1].body|, bList, w), aList, bList, w);
    }
  }

  lemma {:induction false} FoundRowFrom(aList: seq<Node>, bList: seq<Node>, m: nat, w: int)
    requires m <= |bList|
    ensures AllFrom(FoundRow(aList, bList, m, w), aList, bList, w)
    decreases SizeIn(aList) + SizeIn(bList), 0, m
  {
    if m > 0 {
      SizeInBounds(bList, m - 1);
      FoundRowFrom(aList, bList, m - 1, w);
      FoundInBFrom(aList, bList, m - 1, |bList[m - 1].body|, w);
      AllFromJoin(FoundRow(aList, bList, m - 1, w), FoundInB(aList, bList[m - 1].body, |bList[m - 1].body|, w),
                  aList, bList, w);
    }
  }

  /** The searches of `aList` against the body lists of `bList[i]` find
      records of nodes of `bList`'s trees. */
  lemma {:induction false} FoundInBFrom(aList: seq<Node>, bList: seq<Node>, i: nat, k: nat, w: int)
    requires i < |bList| && k <= |bList[i].body|
    ensures AllFrom(FoundInB(aList, bList[i].body, k, w), aList, bList, w)
    decreases SizeIn(aList) + SizeInBody(bList[i].body), 3, k
  {
    if k > 0 {
      var body := bList[i].body;
      SizeInBodyBounds(body, k - 1);
      FoundInBFrom(aList, bList, i, k - 1, w);
      var inner := if |body[k - 1].items| == 0 then [] else Found(aList, body[k - 1].items, w);
      if |body[k - 1].items| != 0 {
        FoundFrom(aList, body[k - 1].items, w);
        forall t | 0 <= t < |inner| ensures From(inner[t], aList, bList, w) {
          NestedInForest(inner[t].nodeB, bList, i, k - 1);
        }
      }
      AllFromJoin(FoundInB(aList, body, k - 1, w), inner, aList, bList, w);
    }
  }

  /** The searches of the body lists of `aList[i]` against `bList` find
      records of nodes of `aList`'s trees. */
  lemma {:induction false} FoundInAFrom(aList: seq<Node>, i: nat, k: nat, bList: seq<Node>, w: int)
    requires i < |aList| && k <= |aList[i].body|
    ensures AllFrom(FoundInA(aList[i].body, k, bList, w), aList, bList, w)
    decreases SizeInBody(aList[i].body) + SizeIn(bList), 3, k
  {
    if k > 0 {
      var body := aList[i].body;
      SizeInBodyBounds(body, k - 1);
      FoundInAFrom(aList, i, k - 1, bList, w);
      var inner := if |body[k - 1].items| == 0 then [] else Found(body[k - 1].items, bList, w);
      if |body[k - 1].items| != 0 {
        FoundFrom(body[k - 1].items, bList, w);
        forall t | 0 <= t < |inner| ensures From(inner[t], aList, bList, w) {
          NestedInForest(inner[t].nodeA, aList, i, k - 1);
        }
      }
      AllFromJoin(FoundInA(body, k - 1, bList, w), inner, aList, bList, w);
    }
  }

  /** When no node of either list has a body list, the search appends just
      its own kept runs. */
  lemma FlatFound(aList: seq<Node>, bList: seq<Node>, w: int)
    requires forall i | 0 <= i < |aList| :: aList[i].body == []
    requires forall j | 0 <= j < |bList| :: bList[j].body == []
    ensures var ss := Scan(Pairs(aList, bList, |aList|)); Found(aList, bList, w) == KeptOf(ss, |ss|, w)
  {
    FlatRows(aList, bList, |aList|, w);
  }

  lemma {:induction false} FlatRows(aList: seq<Node>, bList: seq<Node>, n: nat, w: int)
    requires n <= |aList|
    requires forall i | 0 <= i < |aList| :: aList[i].body == []
    requires forall j | 0 <= j < |bList| :: bList[j].body == []
    ensures FoundRows(aList, bList, n, w) == []
    decreases n
  {
    if n > 0 {
      FlatRows(aList, bList, n - 1, w);
      FlatRow(aList, bList, |bList|, w);
    }
  }

  lemma {:induction false} FlatRow(aList: seq<Node>, bList: seq<Node>, m: nat, w: int)
    requires m <= |bList|
    requires forall j | 0 <= j < |bList| :: bList[j].body == []
    ensures FoundRow(aList, bList, m, w) == []
    decreases m
  {
    if m > 0 {
      FlatRow(aList, bList, m - 1, w);
    }
  }
}
