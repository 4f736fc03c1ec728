/** The statistics roll-up of `SourceTreeRender`
    (vizualization/source_tree_render.py): functions and records are grouped
    by the file they come from, and every node of the folder tree gets the
    number of functions, the number of records and the longest record below
    it. */
module SourceTreeRenders {
  import opened Common
  import opened FuncTrees
  import opened Copypastes

  /** `ModuleStatistics` (vizualization/folder_map.py). */
  datatype Stats = Stats(copypastes: int, longest: int, functions: int, functionLeaves: int)

  /** `ModuleStatistics()`: all zero. */
  const Zero := Stats(0, 0, 0, 0)

  /** `FolderNode` (vizualization/folder_map.py): a file or a folder with
      its children, and its statistics. */
  datatype Folder = Folder(fullPath: string, isFile: bool, children: seq<Folder>, statistics: Stats)

  /** The items whose key is `p`, in their order. */
  function Filter<T>(items: seq<T>, keys: seq<string>, p: string): seq<T>
    requires |items| == |keys|
  {
    if items == [] then [] else
    var rest := Filter(items[..|items| - 1], keys[..|keys| - 1], p);
    if keys[|keys| - 1] == p then rest + [items[|items| - 1]] else rest
  }

  /** `d.get(p) or []`. */
  function Get<T>(m: map<string, seq<T>>, p: string): seq<T>
  {
    if p in m then m[p] else []
  }

  /** The groups of `m` with each item appended, in order, to the group of
      its key, as the grouping loops build them. */
  function Grouping<T>(m: map<string, seq<T>>, items: seq<T>, keys: seq<string>): map<string, seq<T>>
    requires |items| == |keys|
  {
    if items == [] then m else
    var g := Grouping(m, items[..|items| - 1], keys[..|keys| - 1]);
    var k := keys[|keys| - 1];
    g[k := Get(g, k) + [items[|items| - 1]]]
  }

  /** The files the functions come from. */
  function FuncFiles(fs: seq<FuncTree>): (r: seq<string>)
    reads set f | f in fs
    ensures |r| == |fs| && forall i | 0 <= i < |fs| :: r[i] == fs[i].file
  {
    if fs == [] then [] else FuncFiles(fs[..|fs| - 1]) + [fs[|fs| - 1].file]
  }

  /** The files the records come from: those of their first functions. */
  function CpFiles(cs: seq<Copypaste>): (r: seq<string>)
    reads set c | c in cs :: c.funcA
    ensures |r| == |cs| && forall i | 0 <= i < |cs| :: r[i] == cs[i].funcA.file
  {
    if cs == [] then [] else CpFiles(cs[..|cs| - 1]) + [cs[|cs| - 1].funcA.file]
  }

  /** The lengths of the records. */
  function Counts(cs: seq<Copypaste>): (r: seq<int>)
    reads set c | c in cs
    ensures |r| == |cs| && forall i | 0 <= i < |cs| :: r[i] == cs[i].count
  {
    if cs == [] then [] else Counts(cs[..|cs| - 1]) + [cs[|cs| - 1].count]
  }

  /** The lengths of the records of every group. */
  function CountsMap(m: map<string, seq<Copypaste>>): map<string, seq<int>>
    reads set p, c | p in m && c in m[p] :: c
  {
    map p | p in m :: Counts(m[p])
  }

  /** Every file under `node` has records. */
  predicate Summarizable<T>(groups: map<string, seq<T>>, node: Folder)
  {
    if node.isFile then Get(groups, node.fullPath) != []
    else forall i | 0 <= i < |node.children| :: Summarizable(groups, node.children[i])
  }

  function FunctionsOf(cs: seq<Folder>): seq<int>
  {
    seq(|cs|, i requires 0 <= i < |cs| => cs[i].statistics.functions)
  }

  function CopypastesOf(cs: seq<Folder>): seq<int>
  {
    seq(|cs|, i requires 0 <= i < |cs| => cs[i].statistics.copypastes)
  }

  function LongestOf(cs: seq<Folder>): seq<int>
  {
    seq(|cs|, i requires 0 <= i < |cs| => cs[i].statistics.longest)
  }

  /** The statistics of a file: the sizes of its groups, and the longest of
      its records. */
  function FileStats(fm: map<string, seq<FuncTree>>, counts: map<string, seq<int>>, node: Folder): Stats
    requires node.isFile && Get(counts, node.fullPath) != []
  {
    var cs := Get(counts, node.fullPath);
    node.statistics.(functions := |Get(fm, node.fullPath)|, copypastes := |cs|, longest := GroupLongest(cs))
  }

  /** A folder's own statistics with its children's counts added and the
      largest of its own and its children's longest. */
  function Rolled(s: Stats, cs: seq<Folder>): Stats
  {
    s.(functions := s.functions + Sum(FunctionsOf(cs)),
       copypastes := s.copypastes + Sum(CopypastesOf(cs)),
       longest := MaxOf(s.longest, LongestOf(cs)))
  }

  /** The tree with every node's statistics summarized: a file's from its
      groups, a folder's rolled up from its summarized children. */
  function Summarized(fm: map<string, seq<FuncTree>>, counts: map<string, seq<int>>, node: Folder): Folder
    requires Summarizable(counts, node)
    decreases node, 1
  {
    if node.isFile then node.(statistics := FileStats(fm, counts, node))
    else
      var cs := SummarizedChildren(fm, counts, node);
      node.(children := cs, statistics := Rolled(node.statistics, cs))
  }

  /** The children of a folder, each summarized. */
  function SummarizedChildren(fm: map<string, seq<FuncTree>>, counts: map<string, seq<int>>, node: Folder): (r: seq<Folder>)
    requires !node.isFile && Summarizable(counts, node)
    ensures |r| == |node.children|
    decreases node, 0
  {
    seq(|node.children|, i requires 0 <= i < |node.children| => Summarized(fm, counts, node.children[i]))
  }

  /** The first `k` children of a folder, summarized. */
  function SummarizedPrefix(fm: map<string, seq<FuncTree>>, counts: map<string, seq<int>>, node: Folder, k: nat): seq<Folder>
    requires !node.isFile && Summarizable(counts, node) && k <= |node.children|
  {
    if k == 0 then [] else SummarizedPrefix(fm, counts, node, k - 1) + [Summarized(fm, counts, node.children[k - 1])]
  }

  class SourceTreeRender {
    var functions: seq<FuncTree>
    var copypastes: seq<Copypaste>
    var funcByPath: map<string, seq<FuncTree>>
    var cpsByPath: map<string, seq<Copypaste>>
    var rootFolder: Option<Folder>

    /** `SourceTreeRender()`: nothing read yet. */
    constructor ()
      ensures functions == [] && copypastes == [] && funcByPath == map[] && cpsByPath == map[]
      ensures rootFolder == None
    {
      functions, copypastes := [], [];
      funcByPath, cpsByPath := map[], map[];
      rootFolder := None;
    }

    /** `summarize_node_stats()`: appends every function to the group of
        its file and every record to the group of its first function's
        file, then summarizes the folder tree. */
    method SummarizeNodeStats()
      requires rootFolder.Some?
      requires Summarizable(Grouping(cpsByPath, copypastes, CpFiles(copypastes)), rootFolder.value)
      modifies this`funcByPath, this`cpsByPath, this`rootFolder
      ensures funcByPath == Grouping(old(funcByPath), functions, old(FuncFiles(functions)))
      ensures cpsByPath == Grouping(old(cpsByPath), copypastes, old(CpFiles(copypastes)))
      ensures Summarizable(CountsMap(cpsByPath), old(rootFolder.value))
      ensures rootFolder == Some(Summarized(funcByPath, CountsMap(cpsByPath), old(rootFolder.value)))
    {
      GroupAll();
      SummarizeRoot();
    }

    /** The last step of `summarize_node_stats`: summarizes the root. */
    method SummarizeRoot()
      requires rootFolder.Some? && Summarizable(cpsByPath, rootFolder.value)
      modifies this`rootFolder
      ensures Summarizable(CountsMap(cpsByPath), old(rootFolder.value))
      ensures rootFolder == Some(Summarized(funcByPath, CountsMap(cpsByPath), old(rootFolder.value)))
    {
      SummarizableCounts(cpsByPath, rootFolder.value);
      var root := SummarizeNodeStatsIter(CountsMap(cpsByPath), rootFolder.value);
      rootFolder := Some(root);
    }

    /** The two loops of `summarize_node_stats`; the lengths of the records
        are as they were. */
    method GroupAll()
      modifies this`funcByPath, this`cpsByPath
      ensures funcByPath == Grouping(old(funcByPath), functions, old(FuncFiles(functions)))
      ensures cpsByPath == Grouping(old(cpsByPath), copypastes, old(CpFiles(copypastes)))
    {
      GroupFunctions();
      GroupCopypastes();
    }

    /** The first loop of `summarize_node_stats`. */
    method GroupFunctions()
      modifies this`funcByPath
      ensures funcByPath == Grouping(old(funcByPath), functions, old(FuncFiles(functions)))
    {
      ghost var keys := FuncFiles(functions);
      assert functions[..0] == [] && keys[..0] == [];
      for i := 0 to |functions|
        invariant keys == FuncFiles(functions)
        invariant funcByPath == Grouping(old(funcByPath), functions[..i], keys[..i])
      {
        AddFunction(old(funcByPath), keys, i);
      }
      assert functions[..|functions|] == functions && keys[..|functions|] == keys;
    }

    /** One step of the first loop: `functions[i]` joins the group of its
        file. */
    method AddFunction(ghost m: map<string, seq<FuncTree>>, ghost keys: seq<string>, i: nat)
      requires i < |functions| && keys == FuncFiles(functions)
      requires funcByPath == Grouping(m, functions[..i], keys[..i])
      modifies this`funcByPath
      ensures funcByPath == Grouping(m, functions[..i + 1], keys[..i + 1])
    {
      var f := functions[i];
      assert functions[..i + 1][..i] == functions[..i] && keys[..i + 1][..i] == keys[..i];
      if f.file in funcByPath {
        funcByPath := funcByPath[f.file := funcByPath[f.file] + [f]];
      } else {
        assert [f] == Get(funcByPath, f.file) + [f];
        funcByPath := funcByPath[f.file := [f]];
      }
    }

    /** The second loop of `summarize_node_stats`. */
    method GroupCopypastes()
      modifies this`cpsByPath
      ensures cpsByPath == Grouping(old(cpsByPath), copypastes, old(CpFiles(copypastes)))
    {
      ghost var keys := CpFiles(copypastes);
      assert copypastes[..0] == [] && keys[..0] == [];
      for i := 0 to |copypastes|
        invariant keys == CpFiles(copypastes)
        invariant cpsByPath == Grouping(old(cpsByPath), copypastes[..i], keys[..i])
      {
        AddCopypaste(old(cpsByPath), keys, i);
      }
      assert copypastes[..|copypastes|] == copypastes && keys[..|copypastes|] == keys;
    }

    /** One step of the second loop: `copypastes[i]` joins the group of its
        first function's file. */
    method AddCopypaste(ghost m: map<string, seq<Copypaste>>, ghost keys: seq<string>, i: nat)
      requires i < |copypastes| && keys == CpFiles(copypastes)
      requires cpsByPath == Grouping(m, copypastes[..i], keys[..i])
      modifies this`cpsByPath
      ensures cpsByPath == Grouping(m, copypastes[..i + 1], keys[..i + 1])
    {
      var c := copypastes[i];
      assert copypastes[..i + 1][..i] == copypastes[..i] && keys[..i + 1][..i] == keys[..i];
      if c.funcA.file in cpsByPath {
        cpsByPath := cpsByPath[c.funcA.file := cpsByPath[c.funcA.file] + [c]];
      } else {
        assert [c] == Get(cpsByPath, c.funcA.file) + [c];
        cpsByPath := cpsByPath[c.funcA.file := [c]];
      }
    }

    /** `summarize_node_stats_iter(node)`: a file gets the sizes of its
        groups and its longest record; a folder summarizes each child in
        turn, adds its counts and keeps the larger longest. `cm` holds the
        lengths of the records of every group. */
    method SummarizeNodeStatsIter(ghost cm: map<string, seq<int>>, node: Folder) returns (node': Folder)
      requires cm == CountsMap(cpsByPath) && Summarizable(cm, node)
      ensures node' == Summarized(funcByPath, cm, node) && cm == CountsMap(cpsByPath)
      decreases node, 2
    {
      if node.isFile {
        node' := SummarizeFile(cm, node);
      } else {
        node' := SummarizeFolder(cm, node);
      }
    }

    /** The folder branch of `summarize_node_stats_iter`. */
    method SummarizeFolder(ghost cm: map<string, seq<int>>, node: Folder) returns (node': Folder)
      requires cm == CountsMap(cpsByPath) && !node.isFile && Summarizable(cm, node)
      ensures node' == Summarized(funcByPath, cm, node) && cm == CountsMap(cpsByPath)
      decreases node, 1
    {
      var s := node.statistics;
      var cs := [];
      for k := 0 to |node.children|
        invariant cm == CountsMap(cpsByPath)
        invariant cs == SummarizedPrefix(funcByPath, cm, node, k)
        invariant s == Rolled(node.statistics, cs)
      {
        cs, s := SummarizeChild(cm, node, k, cs, s);
      }
      SummarizedPrefixAll(funcByPath, cm, node, |node.children|);
      TakeAll(SummarizedChildren(funcByPath, cm, node));
      node' := node.(children := cs, statistics := s);
    }

    /** One step of the folder loop: summarizes child `k` and adds it. */
    method SummarizeChild(ghost cm: map<string, seq<int>>, node: Folder, k: nat, cs: seq<Folder>, s: Stats)
      returns (cs': seq<Folder>, s': Stats)
      requires cm == CountsMap(cpsByPath) && !node.isFile && Summarizable(cm, node) && k < |node.children|
      requires cs == SummarizedPrefix(funcByPath, cm, node, k) && s == Rolled(node.statistics, cs)
      ensures cs' == SummarizedPrefix(funcByPath, cm, node, k + 1)
      ensures s' == Rolled(node.statistics, cs') && cm == CountsMap(cpsByPath)
      decreases node, 0
    {
      var child := SummarizeNodeStatsIter(cm, node.children[k]);
      RollStep(node.statistics, cs, child);
      cs' := cs + [child];
      s' := s.(functions := s.functions + child.statistics.functions,
               copypastes := s.copypastes + child.statistics.copypastes,
               longest := Max(s.longest, child.statistics.longest));
    }

    /** The file branch of `summarize_node_stats_iter`. */
    method SummarizeFile(ghost cm: map<string, seq<int>>, node: Folder) returns (node': Folder)
      requires cm == CountsMap(cpsByPath) && node.isFile && Summarizable(cm, node)
      ensures node' == Summarized(funcByPath, cm, node) && cm == CountsMap(cpsByPath)
    {
      var functions := Get(funcByPath, node.fullPath);
      var copypastes := Get(cpsByPath, node.fullPath);
      assert Counts(copypastes) == Get(cm, node.fullPath);
      var longest := Longest(copypastes);
      node' := node.(statistics := node.statistics.(functions := |functions|, copypastes := |copypastes|, longest := longest));
    }

    /** `max([c.count for c in copypastes])`: the largest length among the
        records. */
    method Longest(cs: seq<Copypaste>) returns (r: int)
      requires cs != []
      ensures r == GroupLongest(Counts(cs))
      ensures (forall i | 0 <= i < |cs| :: r >= cs[i].count) && exists i | 0 <= i < |cs| :: r == cs[i].count
    {
      ghost var ns := Counts(cs);
      r := cs[0].count;
      for k := 1 to |cs|
        invariant r == MaxOf(ns[0], ns[1..k])
      {
        assert ns[1..k + 1][..k - 1] == ns[1..k];
        r := Max(r, cs[k].count);
      }
      assert ns[1..|cs|] == ns[1..];
      GroupLongestIsMax(ns);
    }
  }

  /** An item is in the group of `p` exactly when its key is `p`. */
  lemma {:induction false} FilterMembers<T>(items: seq<T>, keys: seq<string>, p: string, x: T)
    requires |items| == |keys|
    ensures x in Filter(items, keys, p) <==> exists i | 0 <= i < |items| :: keys[i] == p && items[i] == x
  {
    if items != [] {
      var n := |items| - 1;
      var items', keys' := items[..n], keys[..n];
      FilterMembers(items', keys', p, x);
      if x in Filter(items, keys, p) {
        if x in Filter(items', keys', p) {
          var i :| 0 <= i < n && keys'[i] == p && items'[i] == x;
          assert keys[i] == p && items[i] == x;
        } else {
          assert keys[n] == p && items[n] == x;
        }
      }
      if exists i | 0 <= i < |items| :: keys[i] == p && items[i] == x {
        var i :| 0 <= i < |items| && keys[i] == p && items[i] == x;
        if i < n {
          assert keys'[i] == p && items'[i] == x;
        }
      }
    }
  }

  /** The positions whose key is `p`. */
  function Positions(keys: seq<string>, p: string): set<int>
  {
    set i | 0 <= i < |keys| && keys[i] == p
  }

  /** The group of `p` has one entry per position whose key is `p`: every
      item lands in its own group exactly once. */
  lemma {:induction false} FilterCount<T>(items: seq<T>, keys: seq<string>, p: string)
    requires |items| == |keys|
    ensures |Filter(items, keys, p)| == |Positions(keys, p)|
  {
    if items == [] {
      assert Positions(keys, p) == {};
    } else {
      var n := |items| - 1;
      FilterCount(items[..n], keys[..n], p);
      var before := Positions(keys[..n], p);
      assert n !in before;
      if keys[n] == p {
        assert Positions(keys, p) == before + {n};
      } else {
        assert Positions(keys, p) == before;
      }
    }
  }

  /** A key that no item has has no items. */
  lemma FilterAbsent<T>(items: seq<T>, keys: seq<string>, p: string)
    requires |items| == |keys| && p !in keys
    ensures Filter(items, keys, p) == []
  {
    if Filter(items, keys, p) != [] {
      FilterMembers(items, keys, p, Filter(items, keys, p)[0]);
    }
  }

  /** The keys after grouping are the old keys and the keys of the items. */
  lemma {:induction false} GroupingKeys<T>(m: map<string, seq<T>>, items: seq<T>, keys: seq<string>)
    requires |items| == |keys|
    ensures Grouping(m, items, keys).Keys == m.Keys + set k | k in keys
  {
    if items == [] {
      assert (set k: string | k in keys) == {};
    } else {
      var n := |items| - 1;
      GroupingKeys(m, items[..n], keys[..n]);
      assert (set k | k in keys) == (set k | k in keys[..n]) + {keys[n]} by {
        assert keys == keys[..n] + [keys[n]];
      }
    }
  }

  /** After grouping, each group is its old items followed by the items
      whose key it is, in order. */
  lemma {:induction false} GroupingGet<T>(m: map<string, seq<T>>, items: seq<T>, keys: seq<string>, p: string)
    requires |items| == |keys|
    ensures Get(Grouping(m, items, keys), p) == Get(m, p) + Filter(items, keys, p)
  {
    if items != [] {
      var n := |items| - 1;
      GroupingGet(m, items[..n], keys[..n], p);
    }
  }

  /** Summarizing the first `k` children one by one summarizes them. */
  lemma {:induction false} SummarizedPrefixAll(fm: map<string, seq<FuncTree>>, counts: map<string, seq<int>>, node: Folder, k: nat)
    requires !node.isFile && Summarizable(counts, node) && k <= |node.children|
    ensures SummarizedPrefix(fm, counts, node, k) == SummarizedChildren(fm, counts, node)[..k]
  {
    if k > 0 {
      SummarizedPrefixAll(fm, counts, node, k - 1);
      TakeStep(SummarizedChildren(fm, counts, node), k);
    }
  }

  /** Whether every file has records depends only on the groups' sizes. */
  lemma {:induction false} SummarizableCounts(m: map<string, seq<Copypaste>>, node: Folder)
    requires Summarizable(m, node)
    ensures Summarizable(CountsMap(m), node)
    decreases node
  {
    if !node.isFile {
      forall i | 0 <= i < |node.children| ensures Summarizable(CountsMap(m), node.children[i]) {
        SummarizableCounts(m, node.children[i]);
      }
    }
  }

  /** Adding one more child adds its counts and takes the larger longest. */
  lemma RollStep(s: Stats, cs: seq<Folder>, c: Folder)
    ensures var r := Rolled(s, cs);
      Rolled(s, cs + [c]) == r.(functions := r.functions + c.statistics.functions,
                                copypastes := r.copypastes + c.statistics.copypastes,
                                longest := Max(r.longest, c.statistics.longest))
  {
    assert FunctionsOf(cs + [c])[..|cs|] == FunctionsOf(cs);
    assert CopypastesOf(cs + [c])[..|cs|] == CopypastesOf(cs);
    assert LongestOf(cs + [c])[..|cs|] == LongestOf(cs);
  }

  /** Every statistic in the tree is zero, as `ModuleStatistics()` starts. */
  predicate Zeroed(node: Folder)
    decreases node
  {
    node.statistics == Zero && forall i | 0 <= i < |node.children| :: Zeroed(node.children[i])
  }

  /** The paths of the files under `node`, in tree order. */
  function Files(node: Folder): seq<string>
    decreases node, |node.children| + 1
  {
    if node.isFile then [node.fullPath] else FilesIn(node, |node.children|)
  }

  /** The paths of the files under the first `k` children of `node`. */
  function FilesIn(node: Folder, k: nat): seq<string>
    requires k <= |node.children|
    decreases node, k
  {
    if k == 0 then [] else FilesIn(node, k - 1) + Files(node.children[k - 1])
  }

  /** The sizes of the groups of the given files. */
  function Sizes<T>(groups: map<string, seq<T>>, files: seq<string>): seq<int>
  {
    seq(|files|, i requires 0 <= i < |files| => |Get(groups, files[i])|)
  }

  /** The longest record of a group, 0 for none. */
  function GroupLongest(cs: seq<int>): int
  {
    if cs == [] then 0 else MaxOf(cs[0], cs[1..])
  }

  /** The longest record of a non-empty group is the largest of its
      lengths. */
  lemma GroupLongestIsMax(ns: seq<int>)
    requires ns != []
    ensures forall i | 0 <= i < |ns| :: GroupLongest(ns) >= ns[i]
    ensures exists i | 0 <= i < |ns| :: GroupLongest(ns) == ns[i]
  {
    var r := GroupLongest(ns);
    forall i | 0 < i < |ns| ensures r >= ns[i] {
      assert ns[i] == ns[1..][i - 1];
    }
    if r != ns[0] {
      var j :| 0 <= j < |ns[1..]| && r == ns[1..][j];
      assert r == ns[j + 1];
    }
  }

  /** The longest records of the given files. */
  function Longests(counts: map<string, seq<int>>, files: seq<string>): seq<int>
  {
    seq(|files|, i requires 0 <= i < |files| => GroupLongest(Get(counts, files[i])))
  }

  lemma {:induction false} SumAppend(a: seq<int>, b: seq<int>)
    ensures Sum(a + b) == Sum(a) + Sum(b)
    decreases |b|
  {
    if b == [] {
      assert a + b == a;
    } else {
      var n := |b| - 1;
      assert (a + b)[..|a + b| - 1] == a + b[..n];
      SumAppend(a, b[..n]);
    }
  }

  lemma {:induction false} MaxOfAppend(d: int, a: seq<int>, b: seq<int>)
    ensures MaxOf(d, a + b) == MaxOf(MaxOf(d, a), b)
    decreases |b|
  {
    if b == [] {
      assert a + b == a;
    } else {
      var n := |b| - 1;
      assert (a + b)[..|a + b| - 1] == a + b[..n];
      MaxOfAppend(d, a, b[..n]);
    }
  }

  /** Starting from a non-negative value, the maximum is the larger of it
      and the maximum from zero. */
  lemma {:induction false} MaxOfShift(d: int, xs: seq<int>)
    requires d >= 0
    ensures MaxOf(d, xs) == Max(d, MaxOf(0, xs))
    decreases |xs|
  {
    if xs != [] {
      MaxOfShift(d, xs[..|xs| - 1]);
    }
  }

  /** Summarizing a tree whose statistics start at zero counts, at every
      node, the functions and the records of all the files below it, and
      finds the longest record among them (at least zero). */
  lemma {:induction false} RollUp(fm: map<string, seq<FuncTree>>, counts: map<string, seq<int>>, node: Folder)
    requires Zeroed(node) && Summarizable(counts, node)
    ensures var s := Summarized(fm, counts, node).statistics;
      s.functions == Sum(Sizes(fm, Files(node))) &&
      s.copypastes == Sum(Sizes(counts, Files(node))) &&
      Max(0, s.longest) == MaxOf(0, Longests(counts, Files(node))) &&
      (!node.isFile ==> s.longest == MaxOf(0, Longests(counts, Files(node))))
    decreases node
  {
    if node.isFile {
      var files := Files(node);
      assert Sizes(fm, files)[..0] == [] && Sizes(counts, files)[..0] == [] && Longests(counts, files)[..0] == [];
    } else {
      var n := |node.children|;
      var cs := SummarizedChildren(fm, counts, node);
      var fs, ps, ls := FunctionsOf(cs), CopypastesOf(cs), LongestOf(cs);
      forall i | 0 <= i < n
        ensures fs[i] == Sum(Sizes(fm, Files(node.children[i])))
        ensures ps[i] == Sum(Sizes(counts, Files(node.children[i])))
        ensures Max(0, ls[i]) == MaxOf(0, Longests(counts, Files(node.children[i])))
      {
        RollUp(fm, counts, node.children[i]);
      }
      SizesIn(fm, node, fs, n);
      SizesIn(counts, node, ps, n);
      LongestIn(counts, node, ls, n);
      TakeAll(fs);
      TakeAll(ps);
      TakeAll(ls);
    }
  }

  lemma TakeAll<T>(xs: seq<T>)
    ensures xs[..|xs|] == xs
  {
  }

  lemma TakeStep<T>(xs: seq<T>, k: nat)
    requires 0 < k <= |xs|
    ensures xs[..k] == xs[..k - 1] + [xs[k - 1]]
  {
  }

  /** Totals that agree child by child agree over the first `k` children. */
  lemma {:induction false} SizesIn<T>(groups: map<string, seq<T>>, node: Folder, xs: seq<int>, k: nat)
    requires !node.isFile && k <= |node.children| && k <= |xs|
    requires forall i | 0 <= i < k :: xs[i] == Sum(Sizes(groups, Files(node.children[i])))
    ensures Sum(xs[..k]) == Sum(Sizes(groups, FilesIn(node, k)))
  {
    if k == 0 {
      assert Sizes(groups, FilesIn(node, 0)) == [];
    } else {
      SizesIn(groups, node, xs, k - 1);
      CountStep(xs, k, groups, FilesIn(node, k - 1), Files(node.children[k - 1]));
    }
  }

  /** Longest records that agree child by child agree over the first `k`
      children. */
  lemma {:induction false} LongestIn(counts: map<string, seq<int>>, node: Folder, xs: seq<int>, k: nat)
    requires !node.isFile && k <= |node.children| && k <= |xs|
    requires forall i | 0 <= i < k :: Max(0, xs[i]) == MaxOf(0, Longests(counts, Files(node.children[i])))
    ensures MaxOf(0, xs[..k]) == MaxOf(0, Longests(counts, FilesIn(node, k)))
  {
    if k == 0 {
      assert Longests(counts, FilesIn(node, 0)) == [];
    } else {
      LongestIn(counts, node, xs, k - 1);
      LongestStep(xs, k, counts, FilesIn(node, k - 1), Files(node.children[k - 1]));
    }
  }

  /** One more child adds its files' group sizes to the total. */
  lemma CountStep<T>(xs: seq<int>, k: nat, groups: map<string, seq<T>>, a: seq<string>, b: seq<string>)
    requires 0 < k <= |xs| && Sum(xs[..k - 1]) == Sum(Sizes(groups, a)) && xs[k - 1] == Sum(Sizes(groups, b))
    ensures Sum(xs[..k]) == Sum(Sizes(groups, a + b))
  {
    assert xs[..k][..k - 1] == xs[..k - 1];
    SizesAppend(groups, a, b);
    SumAppend(Sizes(groups, a), Sizes(groups, b));
  }

  lemma SizesAppend<T>(groups: map<string, seq<T>>, a: seq<string>, b: seq<string>)
    ensures Sizes(groups, a + b) == Sizes(groups, a) + Sizes(groups, b)
  {
    var l, la, lb := Sizes(groups, a + b), Sizes(groups, a), Sizes(groups, b);
    forall i | 0 <= i < |a + b| ensures l[i] == (la + lb)[i] {
      if i < |a| {
        assert (a + b)[i] == a[i];
      } else {
        assert (a + b)[i] == b[i - |a|];
      }
    }
  }

  lemma LongestsAppend(counts: map<string, seq<int>>, a: seq<string>, b: seq<string>)
    ensures Longests(counts, a + b) == Longests(counts, a) + Longests(counts, b)
  {
    var l, la, lb := Longests(counts, a + b), Longests(counts, a), Longests(counts, b);
    forall i | 0 <= i < |a + b| ensures l[i] == (la + lb)[i] {
      if i < |a| {
        assert (a + b)[i] == a[i];
      } else {
        assert (a + b)[i] == b[i - |a|];
      }
    }
  }

  /** One more child's longest record takes part in the maximum. */
  lemma LongestStep(xs: seq<int>, k: nat, counts: map<string, seq<int>>, a: seq<string>, b: seq<string>)
    requires 0 < k <= |xs| && MaxOf(0, xs[..k - 1]) == MaxOf(0, Longests(counts, a))
    requires Max(0, xs[k - 1]) == MaxOf(0, Longests(counts, b))
    ensures MaxOf(0, xs[..k]) == MaxOf(0, Longests(counts, a + b))
  {
    var la, lb := Longests(counts, a), Longests(counts, b);
    var m := MaxOf(0, la);
    assert xs[..k][..k - 1] == xs[..k - 1];
    assert MaxOf(0, xs[..k]) == Max(m, xs[k - 1]);
    LongestsAppend(counts, a, b);
    MaxOfAppend(0, la, lb);
    MaxOfShift(m, lb);
  }
}
