/** `AstComparer` (astexplorer/ast_comparer.py): the search for runs of
    matching statements between every two functions. */
module AstComparers {
  import opened Common
  import opened BriefNodes
  import opened FuncTrees
  import opened Copypastes
  import opened CopypasteRuns
  import opened Render
  import opened NodeSearch

  /** The values of a record. */
  ghost function Snap(c: Copypaste): Summary
    reads c
  {
    Summary(c.nodeA, c.nodeB, c.count, c.weight)
  }

  /** The records of `cpList` from index `from` on are consistent, not yet
      reported, stand for `ss` one by one and belong to functions `fa` and
      `fb`. */
  ghost predicate RecordsFrom(cpList: seq<Copypaste>, ss: seq<Summary>, from: nat, fa: FuncTree, fb: FuncTree)
    reads cpList
  {
    |cpList| == |ss| &&
    forall k | from <= k < |cpList| ::
      Snap(cpList[k]) == ss[k] && cpList[k].funcA == fa && cpList[k].funcB == fb &&
      !cpList[k].reported
  }

  ghost predicate Records(cpList: seq<Copypaste>, ss: seq<Summary>, fa: FuncTree, fb: FuncTree)
    reads cpList
  {
    RecordsFrom(cpList, ss, 0, fa, fb)
  }

  /** The state of the scan after the pairs `ps` of functions `fa` and `fb`:
      one distinct record per run, as `Scan` says, the open record `cp`
      being the last one exactly when the last pair matched. */
  ghost predicate Collected(cpList: seq<Copypaste>, cp: Copypaste?, ps: seq<Pair>, fa: FuncTree, fb: FuncTree)
    reads cpList
  {
    Records(cpList, Scan(ps), fa, fb) &&
    (forall i, j | 0 <= i < j < |cpList| :: cpList[i] != cpList[j]) &&
    (cp != null <==> |ps| > 0 && Matches(ps[|ps| - 1])) &&
    (cp != null ==> |cpList| > 0 && cp == cpList[|cpList| - 1] && cp.Valid())
  }

  /** The state of the scan after the pairs of the first `ia` nodes of
      `aList` with every node of `bList`. */
  ghost predicate Scanned(cpList: seq<Copypaste>, cp: Copypaste?, aList: seq<Node>, bList: seq<Node>, ia: nat, fa: FuncTree, fb: FuncTree)
    requires ia <= |aList|
    reads cpList
  {
    Collected(cpList, cp, Pairs(aList, bList, ia), fa, fb)
  }

  /** A function's statements after `rename_ptrs`, `weight_tree` and
      `calc_hashes`, given its parameters. */
  function Preprocessed(digest: string -> string, args: map<string, nat>, cs: seq<Node>): seq<Node>
    requires forall i | 0 <= i < |cs| :: Hashable(cs[i])
  {
    var weighed := seq(|cs|, i requires 0 <= i < |cs| => WeightSubTree(Current, RenamePtrsForNode(args, cs[i]), 1));
    forall i | 0 <= i < |cs| ensures Hashable(weighed[i]) {
      RenameKeepsHashable(args, cs[i]);
      WeightKeepsHashable(Current, RenamePtrsForNode(args, cs[i]), 1);
    }
    HashStatements(digest, weighed)
  }

  /** `compare_pre_process_functions` for one function. */
  method PreProcess(digest: string -> string, f: FuncTree)
    requires forall i | 0 <= i < |f.children| :: Hashable(f.children[i])
    modifies f
    ensures f.args == old(f.args) && f.children == Preprocessed(digest, f.args, old(f.children))
  {
    ghost var c0, args := f.children, f.args;
    f.RenamePtrs();
    ghost var c1 := f.children;
    forall i | 0 <= i < |c1| ensures Hashable(c1[i]) {
      RenameKeepsHashable(f.args, c0[i]);
    }
    f.WeightTree(Current);
    ghost var c2 := f.children;
    forall i | 0 <= i < |c2| ensures Hashable(c2[i]) {
      WeightKeepsHashable(Current, c1[i], 1);
    }
    f.CalcHashes(digest);
    assert c2 == seq(|c0|, i requires 0 <= i < |c0| => WeightSubTree(Current, RenamePtrsForNode(args, c0[i]), 1));
  }

  /** No function object occurs twice in the list. */
  predicate Distinct(functions: seq<FuncTree>)
  {
    forall s, t | 0 <= s < t < |functions| :: functions[s] != functions[t]
  }

  /** Every statement of every function can be hashed. */
  ghost predicate AllHashable(functions: seq<FuncTree>)
    reads set t | 0 <= t < |functions| :: functions[t]
  {
    forall t, i | 0 <= t < |functions| && 0 <= i < |functions[t].children| :: Hashable(functions[t].children[i])
  }

  /** The functions before position `k` hold their statements `after`,
      the others still the statements `before`. */
  ghost predicate PreprocessedUpTo(functions: seq<FuncTree>, before: seq<seq<Node>>, after: seq<seq<Node>>, k: nat)
    reads set t | 0 <= t < |functions| :: functions[t]
  {
    |before| == |functions| && |after| == |functions| && k <= |functions| &&
    (forall t | 0 <= t < k :: functions[t].children == after[t]) &&
    (forall t | k <= t < |functions| :: functions[t].children == before[t])
  }

  /** One iteration of `compare_pre_process_functions`. */
  method PreProcessAt(digest: string -> string, functions: seq<FuncTree>, ghost before: seq<seq<Node>>, ghost after: seq<seq<Node>>, k: nat)
    requires k < |functions| && Distinct(functions) && PreprocessedUpTo(functions, before, after, k)
    requires forall i | 0 <= i < |before[k]| :: Hashable(before[k][i])
    requires after[k] == Preprocessed(digest, functions[k].args, before[k])
    modifies functions[k]
    ensures PreprocessedUpTo(functions, before, after, k + 1)
    ensures forall t | 0 <= t < |functions| :: functions[t].args == old(functions[t].args)
  {
    PreProcess(digest, functions[k]);
  }

  /** The pairs (i, j) with i < j < m, in order of j. */
  function Partners(i: nat, m: nat): seq<(nat, nat)>
  {
    if m <= i + 1 then [] else seq(m - i - 1, k requires 0 <= k < m - i - 1 => (i, i + 1 + k))
  }

  lemma PartnersStep(calls: seq<(nat, nat)>, i: nat, j: nat)
    requires i < j
    ensures calls + Partners(i, j + 1) == calls + Partners(i, j) + [(i, j)]
  {
    assert Partners(i, j + 1) == Partners(i, j) + [(i, j)];
  }

  /** The pairs (i, j) with i < k and i < j < n, in the order
      `find_copypastes` visits them. */
  function Couples(n: nat, k: nat): seq<(nat, nat)>
  {
    if k == 0 then [] else Couples(n, k - 1) + Partners(k - 1, n)
  }

  /** `p` comes before `q` in the visiting order. */
  predicate Before(p: (nat, nat), q: (nat, nat))
  {
    p.0 < q.0 || (p.0 == q.0 && p.1 < q.1)
  }

  lemma PartnersSpec(i: nat, m: nat)
    ensures forall p | p in Partners(i, m) :: p.0 == i && i < p.1 < m
    ensures forall s, t | 0 <= s < t < |Partners(i, m)| :: Partners(i, m)[s].1 < Partners(i, m)[t].1
    ensures forall j | i < j < m :: (i, j) in Partners(i, m)
  {
    forall j | i < j < m ensures (i, j) in Partners(i, m) {
      assert Partners(i, m)[j - i - 1] == (i, j);
    }
  }

  /** `find_copypastes` visits exactly the pairs (i, j) with i < j < n, each
      once, in increasing order. */
  lemma CouplesSpec(n: nat, k: nat)
    ensures forall p | p in Couples(n, k) :: p.0 < k && p.0 < p.1 < n
    ensures forall i, j | 0 <= i < k && i < j < n :: (i, j) in Couples(n, k)
    ensures forall s, t | 0 <= s < t < |Couples(n, k)| :: Before(Couples(n, k)[s], Couples(n, k)[t])
  {
    CouplesBounds(n, k);
    CouplesCover(n, k);
    CouplesOrdered(n, k);
  }

  lemma {:induction false} CouplesBounds(n: nat, k: nat)
    ensures forall p | p in Couples(n, k) :: p.0 < k && p.0 < p.1 < n
  {
    if k > 0 {
      CouplesBounds(n, k - 1);
      PartnersSpec(k - 1, n);
    }
  }

  lemma {:induction false} CouplesCover(n: nat, k: nat)
    ensures forall i, j | 0 <= i < k && i < j < n :: (i, j) in Couples(n, k)
  {
    if k > 0 {
      CouplesCover(n, k - 1);
      var pre, row := Couples(n, k - 1), Partners(k - 1, n);
      forall i, j | 0 <= i < k && i < j < n ensures (i, j) in pre + row {
        if i < k - 1 {
          InLeft((i, j), pre, row);
        } else {
          assert row[j - i - 1] == (i, j);
          InRight((i, j), pre, row);
        }
      }
    }
  }

  lemma InLeft<T>(x: T, a: seq<T>, b: seq<T>)
    requires x in a
    ensures x in a + b
  {
  }

  lemma InRight<T>(x: T, a: seq<T>, b: seq<T>)
    requires x in b
    ensures x in a + b
  {
  }

  lemma {:induction false} CouplesOrdered(n: nat, k: nat)
    ensures forall s, t | 0 <= s < t < |Couples(n, k)| :: Before(Couples(n, k)[s], Couples(n, k)[t])
  {
    if k > 0 {
      CouplesOrdered(n, k - 1);
      CouplesBounds(n, k - 1);
      PartnersSpec(k - 1, n);
      OrderedConcat(Couples(n, k - 1), Partners(k - 1, n), k - 1);
    }
  }

  /** A row of pairs of a later first position, in order of their second,
      goes after an ordered sequence. */
  lemma OrderedConcat(pre: seq<(nat, nat)>, row: seq<(nat, nat)>, i: nat)
    requires forall s, t | 0 <= s < t < |pre| :: Before(pre[s], pre[t])
    requires forall p | p in pre :: p.0 < i
    requires forall p | p in row :: p.0 == i
    requires forall s, t | 0 <= s < t < |row| :: row[s].1 < row[t].1
    ensures forall s, t | 0 <= s < t < |pre + row| :: Before((pre + row)[s], (pre + row)[t])
  {
    var r := pre + row;
    forall s, t | 0 <= s < t < |r| ensures Before(r[s], r[t]) {
      if t < |pre| {
        assert r[s] == pre[s] && r[t] == pre[t];
      } else if s < |pre| {
        assert r[s] == pre[s] && r[s] in pre;
        assert r[t] == row[t - |pre|] && r[t] in row;
      } else {
        assert r[s] == row[s - |pre|] && r[t] == row[t - |pre|];
      }
    }
  }

  /** `AstComparer`: the records found so far and the minimum weight. */
  class AstComparer {
    var copypastes: seq<Copypaste>
    const minCpWeight: int

    /** A reported record: at least two pairs, at least the minimum weight,
        a matching anchor pair, from the functions compared. */
    ghost predicate Reported(c: Copypaste, fa: FuncTree, fb: FuncTree)
      reads c
    {
      c.reported && c.count >= 2 && c.weight >= minCpWeight && Key(c.nodeA) == Key(c.nodeB) &&
      c.funcA == fa && c.funcB == fb
    }

    /** The records of `cs` from index `from` on are reported for `fa` and
        `fb` and stand for `ss` one by one. */
    ghost predicate Appended(cs: seq<Copypaste>, from: nat, ss: seq<Summary>, fa: FuncTree, fb: FuncTree)
      reads cs
    {
      from <= |cs| && |cs| - from == |ss| &&
      forall k | from <= k < |cs| :: Reported(cs[k], fa, fb) && Snap(cs[k]) == ss[k - from]
    }

    /** Records appended after records standing for `xs` that stand for
        `ys` make records standing for `xs + ys`. */
    lemma AppendedJoin(pre: seq<Copypaste>, cs: seq<Copypaste>, from: nat, xs: seq<Summary>, ys: seq<Summary>,
                       fa: FuncTree, fb: FuncTree)
      requires pre <= cs && Appended(pre, from, xs, fa, fb) && Appended(cs, |pre|, ys, fa, fb)
      ensures Appended(cs, from, xs + ys, fa, fb)
    {
      forall k | from <= k < |cs| ensures Reported(cs[k], fa, fb) && Snap(cs[k]) == (xs + ys)[k - from] {
        if k < |pre| {
          assert cs[k] == pre[k];
        }
      }
    }

    lemma AppendedAppend(cs: seq<Copypaste>, from: nat, ss: seq<Summary>, c: Copypaste, fa: FuncTree, fb: FuncTree)
      requires Appended(cs, from, ss, fa, fb) && Reported(c, fa, fb)
      ensures Appended(cs + [c], from, ss + [Snap(c)], fa, fb)
    {
      var cs', ss' := cs + [c], ss + [Snap(c)];
      forall k | from <= k < |cs'| ensures Reported(cs'[k], fa, fb) && Snap(cs'[k]) == ss'[k - from] {
        if k < |cs| {
          assert cs'[k] == cs[k] && ss'[k - from] == ss[k - from];
        }
      }
    }

    /** `AstComparer()`: no records yet, and a minimum weight of 20. */
    constructor ()
      ensures copypastes == [] && minCpWeight == 20
    {
      copypastes := [];
      minCpWeight := 20;
    }

    /** The body of the inner loop of `find_node_copypastes` for the pair
        (a, b): a match opens a record or extends the open one; a mismatch
        closes it. */
    method Visit(fa: FuncTree, fb: FuncTree, a: Node, b: Node, cpList: seq<Copypaste>, cp: Copypaste?, ghost ps: seq<Pair>,
                 ghost n0: nat, ghost acc: seq<Summary>)
      returns (cpList': seq<Copypaste>, cp': Copypaste?)
      requires Collected(cpList, cp, ps, fa, fb)
      requires Appended(copypastes, n0, acc, fa, fb)
      modifies if cp == null then {} else {cp}
      ensures Collected(cpList', cp', ps + [(a, b)], fa, fb)
      ensures Appended(copypastes, n0, acc, fa, fb)
      ensures cpList <= cpList' && |cpList'| <= |cpList| + 1
      ensures |cpList'| == |cpList| + 1 ==> fresh(cpList'[|cpList|])
      ensures cp' != null ==> cp' == cp || fresh(cp')
    {
      ghost var ps' := ps + [(a, b)];
      ghost var ss := Scan(ps);
      ghost var ss' := Scan(ps');
      ScanStep(ps, (a, b));
      if Key(a) == Key(b) {
        if cp == null {
          cp' := new Copypaste(fa, fb, a, b);
          cpList' := cpList + [cp'];
          forall k | 0 <= k < |cpList'|
            ensures Snap(cpList'[k]) == ss'[k] && cpList'[k].funcA == fa && cpList'[k].funcB == fb && !cpList'[k].reported
          {
            if k < |cpList| {
              assert cpList'[k] == cpList[k];
            }
          }
          assert Records(cpList', ss', fa, fb);
        } else {
          ghost var n := |cpList| - 1;
          assert forall k | 0 <= k < n :: cpList[k] != cp;
          assert forall k | n0 <= k < |copypastes| :: copypastes[k] != cp;
          cp.Update(a);
          assert Appended(copypastes, n0, acc, fa, fb);
          cp' := cp;
          cpList' := cpList;
          forall k | 0 <= k < |cpList'|
            ensures Snap(cpList'[k]) == ss'[k] && cpList'[k].funcA == fa && cpList'[k].funcB == fb && !cpList'[k].reported
          {
            if k < n {
              assert Snap(cpList[k]) == old(Snap(cpList[k]));
            }
          }
          assert Records(cpList', ss', fa, fb);
        }
      } else {
        cp' := null;
        cpList' := cpList;
      }
    }

    /** `find_node_copypastes(fa, fb, a_list, b_list)`: scans every pair
        (a, b) in order, collecting runs of matching pairs; after each pair
        it searches `a_list` against b's non-empty body lists, after each a
        it searches a's non-empty body lists against `b_list`; then it keeps
        the runs of two pairs or more that weigh at least `minCpWeight`.
        The records appended are reported and are, in order, those `Found`
        describes. */
    method FindNodeCopypastes(fa: FuncTree, fb: FuncTree, aList: seq<Node>, bList: seq<Node>)
      modifies this
      ensures old(copypastes) <= copypastes
      ensures Appended(copypastes, |old(copypastes)|, Found(aList, bList, minCpWeight), fa, fb)
      decreases SizeIn(aList) + SizeIn(bList), 4
    {
      ghost var n0 := |copypastes|;
      var cpList, cp := ScanAll(fa, fb, aList, bList);
      ghost var ps := Pairs(aList, bList, |aList|);
      ScanAnchorsMatch(ps);
      assert forall k | 0 <= k < |cpList| :: fresh(cpList[k]) by {
        forall k | 0 <= k < |cpList| ensures fresh(cpList[k]) { assert cpList[k] in cpList; }
      }
      KeepRuns(fa, fb, cpList, Scan(ps), n0, FoundRows(aList, bList, |aList|, minCpWeight));
    }

    /** `find_func_copypastes(fa, fb)`: the search of the two functions'
        statement lists. */
    method FindFuncCopypastes(fa: FuncTree, fb: FuncTree)
      modifies this
      ensures old(copypastes) <= copypastes
      ensures Appended(copypastes, |old(copypastes)|, Found(fa.children, fb.children, minCpWeight), fa, fb)
    {
      FindNodeCopypastes(fa, fb, fa.children, fb.children);
    }

    /** The records of `cs` from `bounds[t]` up to `bounds[t + 1]` are
        the records the comparison of the functions at the positions
        `calls[t]` appends. */
    ghost predicate Grouped(cs: seq<Copypaste>, functions: seq<FuncTree>, calls: seq<(nat, nat)>, bounds: seq<nat>)
      reads cs, functions
    {
      |bounds| == |calls| + 1 && bounds[|calls|] == |cs| &&
      forall t | 0 <= t < |calls| :: Segment(cs, functions, calls, bounds, t)
    }

    /** The records of comparison `t` lie between `bounds[t]` and
        `bounds[t + 1]`, are reported for its two functions and are those
        `Found` describes for the two functions' statements. */
    ghost predicate Segment(cs: seq<Copypaste>, functions: seq<FuncTree>, calls: seq<(nat, nat)>, bounds: seq<nat>, t: nat)
      requires t < |calls| && |bounds| == |calls| + 1
      reads cs, functions
    {
      bounds[t] <= bounds[t + 1] <= |cs| && calls[t].0 < |functions| && calls[t].1 < |functions| &&
      Appended(cs[..bounds[t + 1]], bounds[t],
               Found(functions[calls[t].0].children, functions[calls[t].1].children, minCpWeight),
               functions[calls[t].0], functions[calls[t].1])
    }

    /** Appending the records of one more comparison keeps the grouping. */
    lemma GroupedExtend(pre: seq<Copypaste>, cs: seq<Copypaste>, functions: seq<FuncTree>,
                        calls: seq<(nat, nat)>, bounds: seq<nat>, p: (nat, nat))
      requires pre <= cs && Grouped(pre, functions, calls, bounds)
      requires p.0 < |functions| && p.1 < |functions|
      requires Appended(cs, |pre|, Found(functions[p.0].children, functions[p.1].children, minCpWeight),
                        functions[p.0], functions[p.1])
      ensures Grouped(cs, functions, calls + [p], bounds + [|cs|])
    {
      var calls', bounds' := calls + [p], bounds + [|cs|];
      forall t | 0 <= t < |calls'| ensures Segment(cs, functions, calls', bounds', t) {
        if t < |calls| {
          assert Segment(pre, functions, calls, bounds, t);
          assert calls'[t] == calls[t] && bounds'[t] == bounds[t] && bounds'[t + 1] == bounds[t + 1];
          assert cs[..bounds[t + 1]] == pre[..bounds[t + 1]];
        } else {
          assert cs[..bounds'[t + 1]] == cs;
        }
      }
    }

    /** `find_copypastes(functions)`: compares every function with each
        later one, in order, and returns all the records. `calls` are the
        pairs of positions compared, in order; the records each comparison
        appended lie between consecutive `bounds`. */
    method FindCopypastes(functions: seq<FuncTree>) returns (r: seq<Copypaste>, ghost calls: seq<(nat, nat)>, ghost bounds: seq<nat>)
      modifies this
      ensures calls == Couples(|functions|, |functions|)
      ensures r == copypastes && old(copypastes) <= copypastes
      ensures Grouped(copypastes, functions, calls, bounds) && bounds[0] == |old(copypastes)|
    {
      calls, bounds := [], [|copypastes|];
      var i := 0;
      while i < |functions|
        invariant 0 <= i <= |functions|
        invariant calls == Couples(|functions|, i)
        invariant old(copypastes) <= copypastes
        invariant Grouped(copypastes, functions, calls, bounds) && bounds[0] == |old(copypastes)|
      {
        calls, bounds := FindRowCopypastes(functions, i, calls, bounds);
        i := i + 1;
      }
      r := copypastes;
    }

    /** The inner loop of `find_copypastes`: compares the function at `i`
        with each later one. */
    method FindRowCopypastes(functions: seq<FuncTree>, i: nat, ghost calls: seq<(nat, nat)>, ghost bounds: seq<nat>)
      returns (ghost calls': seq<(nat, nat)>, ghost bounds': seq<nat>)
      requires i < |functions| && Grouped(copypastes, functions, calls, bounds)
      modifies this
      ensures old(copypastes) <= copypastes && Grouped(copypastes, functions, calls', bounds')
      ensures calls' == calls + Partners(i, |functions|) && bounds'[0] == bounds[0]
    {
      calls', bounds' := calls, bounds;
      var j := i + 1;
      while j < |functions|
        invariant i + 1 <= j <= |functions|
        invariant old(copypastes) <= copypastes && Grouped(copypastes, functions, calls', bounds')
        invariant calls' == calls + Partners(i, j) && bounds'[0] == bounds[0]
      {
        calls', bounds' := CompareAt(functions, i, j, calls, calls', bounds');
        j := j + 1;
      }
    }

    /** One iteration of the inner loop of `find_copypastes`: compares the
        functions at `i` and `j`, whose records make the next segment. */
    method CompareAt(functions: seq<FuncTree>, i: nat, j: nat, ghost start: seq<(nat, nat)>,
                     ghost calls: seq<(nat, nat)>, ghost bounds: seq<nat>)
      returns (ghost calls': seq<(nat, nat)>, ghost bounds': seq<nat>)
      requires i < j < |functions| && calls == start + Partners(i, j)
      requires Grouped(copypastes, functions, calls, bounds)
      modifies this
      ensures old(copypastes) <= copypastes && Grouped(copypastes, functions, calls', bounds')
      ensures calls' == start + Partners(i, j + 1) && bounds'[0] == bounds[0]
    {
      ghost var pre := copypastes;
      FindFuncCopypastes(functions[i], functions[j]);
      GroupedExtend(pre, copypastes, functions, calls, bounds, (i, j));
      PartnersStep(start, i, j);
      ghost var n: nat := |copypastes|;
      calls', bounds' := calls + [(i, j)], bounds + [n];
    }

    /** `compare_pre_process_functions(functions)`: renames, weighs and
        hashes the statements of every function in turn. */
    method ComparePreProcessFunctions(digest: string -> string, functions: seq<FuncTree>)
      requires Distinct(functions) && AllHashable(functions)
      modifies set t | 0 <= t < |functions| :: functions[t]
      ensures forall t | 0 <= t < |functions| ::
        functions[t].args == old(functions[t].args) &&
        functions[t].children == Preprocessed(digest, functions[t].args, old(functions[t].children))
    {
      ghost var before := seq(|functions|, t requires 0 <= t < |functions| reads functions => functions[t].children);
      ghost var after := seq(|functions|, t requires 0 <= t < |functions| && AllHashable(functions) reads functions =>
        Preprocessed(digest, functions[t].args, functions[t].children));
      var k := 0;
      while k < |functions|
        invariant 0 <= k <= |functions|
        invariant forall t | 0 <= t < |functions| :: functions[t].args == old(functions[t].args)
        invariant forall t | 0 <= t < |functions| ::
          (forall i | 0 <= i < |before[t]| :: Hashable(before[t][i])) &&
          after[t] == Preprocessed(digest, old(functions[t].args), before[t])
        invariant PreprocessedUpTo(functions, before, after, k)
      {
        PreProcessAt(digest, functions, before, after, k);
        k := k + 1;
      }
    }

    /** The nested loops of `find_node_copypastes`: the records of the runs
        of all pairs, the open one last, after all the searches below, whose
        records are appended in the order `FoundRows` gives. */
    method ScanAll(fa: FuncTree, fb: FuncTree, aList: seq<Node>, bList: seq<Node>) returns (cpList: seq<Copypaste>, cp: Copypaste?)
      modifies this
      ensures Scanned(cpList, cp, aList, bList, |aList|, fa, fb)
      ensures forall c | c in cpList :: fresh(c)
      ensures old(copypastes) <= copypastes
      ensures Appended(copypastes, |old(copypastes)|, FoundRows(aList, bList, |aList|, minCpWeight), fa, fb)
      decreases SizeIn(aList) + SizeIn(bList), 3
    {
      ghost var n0 := |copypastes|;
      cpList, cp := [], null;
      var ia := 0;
      while ia < |aList|
        invariant 0 <= ia <= |aList|
        invariant old(copypastes) <= copypastes
        invariant Appended(copypastes, n0, FoundRows(aList, bList, ia, minCpWeight), fa, fb)
        invariant Scanned(cpList, cp, aList, bList, ia, fa, fb)
        invariant (forall c | c in cpList :: fresh(c)) && (cp != null ==> fresh(cp))
      {
        cpList, cp := VisitRow(fa, fb, aList, ia, bList, cpList, cp, n0);
        ia := ia + 1;
      }
    }

    /** One pass of the outer loop: the pairs of `aList[ia]`, then the search
        of its body lists against `bList`. The records appended after those
        standing for `acc` stand for the searches of the pass. */
    method VisitRow(fa: FuncTree, fb: FuncTree, aList: seq<Node>, ia: int, bList: seq<Node>,
                    cpList: seq<Copypaste>, cp: Copypaste?, ghost n0: nat)
      returns (cpList': seq<Copypaste>, cp': Copypaste?)
      requires 0 <= ia < |aList|
      requires Scanned(cpList, cp, aList, bList, ia, fa, fb)
      requires Appended(copypastes, n0, FoundRows(aList, bList, ia, minCpWeight), fa, fb)
      modifies this, if cp == null then {} else {cp}
      ensures Scanned(cpList', cp', aList, bList, ia + 1, fa, fb)
      ensures old(copypastes) <= copypastes
      ensures Appended(copypastes, n0, FoundRows(aList, bList, ia + 1, minCpWeight), fa, fb)
      ensures cpList <= cpList' && forall c | c in cpList' :: c in cpList || fresh(c)
      ensures cp' != null ==> cp' == cp || fresh(cp')
      decreases SizeIn(aList) + SizeIn(bList), 2
    {
      ghost var ps';
      ghost var acc := FoundRows(aList, bList, ia, minCpWeight);
      cpList', cp', ps' := ScanRow(fa, fb, aList, ia, bList, cpList, cp, Pairs(aList, bList, ia), n0, acc);
      PairsStep(aList, bList, ia, ps');
      SizeInBounds(aList, ia);
      ghost var before := copypastes;
      DelveIntoA(fa, fb, aList[ia], bList);
      AppendedJoin(before, copypastes, n0, acc + FoundRow(aList, bList, |bList|, minCpWeight),
                    FoundInA(aList[ia].body, |aList[ia].body|, bList, minCpWeight), fa, fb);
      FoundRowsStep(aList, bList, ia, minCpWeight);
    }

    /** The inner loop of `find_node_copypastes` for node `aList[ia]`: each
        pair (a, b) in turn, each followed by the search of `aList` against
        b's body lists. */
    method ScanRow(fa: FuncTree, fb: FuncTree, aList: seq<Node>, ia: int, bList: seq<Node>,
                   cpList: seq<Copypaste>, cp: Copypaste?, ghost ps: seq<Pair>, ghost n0: nat, ghost acc: seq<Summary>)
      returns (cpList': seq<Copypaste>, cp': Copypaste?, ghost ps': seq<Pair>)
      requires 0 <= ia < |aList|
      requires Collected(cpList, cp, ps, fa, fb)
      requires Appended(copypastes, n0, acc, fa, fb)
      modifies this, if cp == null then {} else {cp}
      ensures ps' == ps + Row(aList[ia], bList, |bList|) && Collected(cpList', cp', ps', fa, fb)
      ensures old(copypastes) <= copypastes
      ensures Appended(copypastes, n0, acc + FoundRow(aList, bList, |bList|, minCpWeight), fa, fb)
      ensures cpList <= cpList' && forall k | |cpList| <= k < |cpList'| :: fresh(cpList'[k])
      ensures cp' != null ==> cp' == cp || fresh(cp')
      decreases SizeIn(aList) + SizeIn(bList), 1
    {
      var a := aList[ia];
      SizeInBounds(aList, ia);
      cpList', cp', ps' := cpList, cp, ps;
      var ib := 0;
      while ib < |bList|
        invariant 0 <= ib <= |bList| && ps' == ps + Row(a, bList, ib)
        invariant old(copypastes) <= copypastes
        invariant Appended(copypastes, n0, acc + FoundRow(aList, bList, ib, minCpWeight), fa, fb)
        invariant cpList <= cpList' && forall k | |cpList| <= k < |cpList'| :: fresh(cpList'[k])
        invariant Collected(cpList', cp', ps', fa, fb) && (cp' != null ==> cp' == cp || fresh(cp'))
      {
        SizeInBounds(bList, ib);
        ghost var row := FoundRow(aList, bList, ib, minCpWeight);
        cpList', cp' := Step(fa, fb, aList, a, bList[ib], cpList', cp', ps', n0, acc + row);
        FoundRowStep(acc, aList, bList, ib, minCpWeight);
        RowAppend(ps, a, bList, ib);
        ps' := ps' + [(a, bList[ib])];
        ib := ib + 1;
      }
    }

    /** One pass of the inner loop: the pair (a, b), then the search of
        `aList` against b's body lists. */
    method Step(fa: FuncTree, fb: FuncTree, aList: seq<Node>, a: Node, b: Node,
                cpList: seq<Copypaste>, cp: Copypaste?, ghost ps: seq<Pair>, ghost n0: nat, ghost acc: seq<Summary>)
      returns (cpList': seq<Copypaste>, cp': Copypaste?)
      requires Collected(cpList, cp, ps, fa, fb)
      requires Appended(copypastes, n0, acc, fa, fb)
      modifies this, if cp == null then {} else {cp}
      ensures Collected(cpList', cp', ps + [(a, b)], fa, fb)
      ensures old(copypastes) <= copypastes
      ensures Appended(copypastes, n0, acc + FoundInB(aList, b.body, |b.body|, minCpWeight), fa, fb)
      ensures cpList <= cpList' && forall k | |cpList| <= k < |cpList'| :: fresh(cpList'[k])
      ensures cp' != null ==> cp' == cp || fresh(cp')
      decreases SizeIn(aList) + Size(b), 0
    {
      cpList', cp' := Visit(fa, fb, a, b, cpList, cp, ps, n0, acc);
      ghost var before := copypastes;
      DelveIntoB(fa, fb, aList, b);
      AppendedJoin(before, copypastes, n0, acc, FoundInB(aList, b.body, |b.body|, minCpWeight), fa, fb);
    }

    /** The search of `a_list` against each non-empty body list of b. */
    method DelveIntoB(fa: FuncTree, fb: FuncTree, aList: seq<Node>, b: Node)
      modifies this
      ensures old(copypastes) <= copypastes
      ensures Appended(copypastes, |old(copypastes)|, FoundInB(aList, b.body, |b.body|, minCpWeight), fa, fb)
      decreases SizeIn(aList) + SizeInBody(b.body), 6
    {
      ghost var n0 := |copypastes|;
      var jb := 0;
      while jb < |b.body|
        invariant 0 <= jb <= |b.body|
        invariant old(copypastes) <= copypastes
        invariant Appended(copypastes, n0, FoundInB(aList, b.body, jb, minCpWeight), fa, fb)
      {
        if |b.body[jb].items| != 0 {
          SizeInBodyBounds(b.body, jb);
          Delve(fa, fb, aList, b.body[jb].items, n0, FoundInB(aList, b.body, jb, minCpWeight));
        } else {
          assert FoundInB(aList, b.body, jb + 1, minCpWeight) == FoundInB(aList, b.body, jb, minCpWeight);
        }
        jb := jb + 1;
      }
    }

    /** One nested call of `find_node_copypastes`: the records it appends
        extend those standing for `acc` with the runs it finds. */
    method Delve(fa: FuncTree, fb: FuncTree, aList: seq<Node>, bList: seq<Node>, ghost n0: nat, ghost acc: seq<Summary>)
      requires Appended(copypastes, n0, acc, fa, fb)
      modifies this
      ensures old(copypastes) <= copypastes
      ensures Appended(copypastes, n0, acc + Found(aList, bList, minCpWeight), fa, fb)
      decreases SizeIn(aList) + SizeIn(bList), 5
    {
      ghost var before := copypastes;
      FindNodeCopypastes(fa, fb, aList, bList);
      AppendedJoin(before, copypastes, n0, acc, Found(aList, bList, minCpWeight), fa, fb);
    }

    /** The search of each non-empty body list of a against `b_list`. */
    method DelveIntoA(fa: FuncTree, fb: FuncTree, a: Node, bList: seq<Node>)
      modifies this
      ensures old(copypastes) <= copypastes
      ensures Appended(copypastes, |old(copypastes)|, FoundInA(a.body, |a.body|, bList, minCpWeight), fa, fb)
      decreases SizeInBody(a.body) + SizeIn(bList), 6
    {
      ghost var n0 := |copypastes|;
      var ja := 0;
      while ja < |a.body|
        invariant 0 <= ja <= |a.body|
        invariant old(copypastes) <= copypastes
        invariant Appended(copypastes, n0, FoundInA(a.body, ja, bList, minCpWeight), fa, fb)
      {
        if |a.body[ja].items| != 0 {
          SizeInBodyBounds(a.body, ja);
          Delve(fa, fb, a.body[ja].items, bList, n0, FoundInA(a.body, ja, bList, minCpWeight));
        } else {
          assert FoundInA(a.body, ja + 1, bList, minCpWeight) == FoundInA(a.body, ja, bList, minCpWeight);
        }
        ja := ja + 1;
      }
    }

    /** One pass of the last loop of `find_node_copypastes`: record `k` of
        `cpList` is appended, and marked reported, exactly when it has two
        pairs or more and weighs at least `minCpWeight`. The records from
        `from` on, which stood for `prefix + kept`, then stand for `prefix`
        followed by the kept records among the first `k + 1`; the records
        after `k` in `cpList` are unaffected. */
    method Keep(fa: FuncTree, fb: FuncTree, cpList: seq<Copypaste>, k: int, ghost ss: seq<Summary>,
                ghost from: nat, ghost prefix: seq<Summary>, ghost kept: seq<Summary>)
      returns (ghost kept': seq<Summary>)
      requires 0 <= k < |cpList| && RecordsFrom(cpList, ss, k, fa, fb) && AnchorsMatch(ss)
      requires forall m | k < m < |cpList| :: cpList[m] != cpList[k]
      requires kept == KeptOf(ss, k, minCpWeight) && Appended(copypastes, from, prefix + kept, fa, fb)
      modifies this, cpList[k]
      ensures copypastes == old(copypastes) + (if Kept(ss[k], minCpWeight) then [cpList[k]] else [])
      ensures kept' == KeptOf(ss, k + 1, minCpWeight) && Appended(copypastes, from, prefix + kept', fa, fb)
      ensures RecordsFrom(cpList, ss, k + 1, fa, fb)
    {
      var c := cpList[k];
      assert Snap(c) == ss[k];
      kept' := kept;
      if c.count >= 2 && c.weight >= minCpWeight {
        assert Key(ss[k].nodeA) == Key(ss[k].nodeB) by { assert AnchorsMatch(ss); }
        assert forall m | from <= m < |copypastes| :: copypastes[m] != c;
        c.MarkReported();
        assert Appended(copypastes, from, prefix + kept, fa, fb);
        AppendedAppend(copypastes, from, prefix + kept, c, fa, fb);
        copypastes := copypastes + [c];
        kept' := kept + [ss[k]];
        assert prefix + kept' == (prefix + kept) + [Snap(c)];
      }
    }

    /** The last loop of `find_node_copypastes`: appends the records of two
        pairs or more that weigh at least `minCpWeight`, in order; the
        records from `from` on, which stood for `prefix`, then stand for
        `prefix` followed by the kept records of `ss`. */
    method KeepRuns(fa: FuncTree, fb: FuncTree, cpList: seq<Copypaste>, ghost ss: seq<Summary>,
                    ghost from: nat, ghost prefix: seq<Summary>)
      requires Records(cpList, ss, fa, fb) && AnchorsMatch(ss)
      requires forall i, j | 0 <= i < j < |cpList| :: cpList[i] != cpList[j]
      requires Appended(copypastes, from, prefix, fa, fb)
      modifies this, cpList
      ensures old(copypastes) <= copypastes
      ensures Appended(copypastes, from, prefix + KeptOf(ss, |ss|, minCpWeight), fa, fb)
    {
      ghost var kept: seq<Summary> := [];
      assert prefix + kept == prefix;
      var k := 0;
      while k < |cpList|
        invariant 0 <= k <= |cpList|
        invariant old(copypastes) <= copypastes
        invariant RecordsFrom(cpList, ss, k, fa, fb)
        invariant kept == KeptOf(ss, k, minCpWeight) && Appended(copypastes, from, prefix + kept, fa, fb)
      {
        kept := Keep(fa, fb, cpList, k, ss, from, prefix, kept);
        k := k + 1;
      }
    }
  }
}
