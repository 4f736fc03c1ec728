/** `FuncTree`: one function definition, its parameters and the statements
    of its body, with the passes that prepare them for comparison
    (astexplorer/func_tree.py, and the older astexplorer/brief_tree.py). */
module FuncTrees {
  import opened Common
  import opened BriefNodes
  import opened Render

  // ----- find_suitable_ptr and rename_ptrs ---------------------------------

  /** `find_suitable_ptr`: a parameter other than `self` becomes `#p` and
      its position; every other name is kept. */
  function FindSuitablePtr(args: map<string, nat>, name: string): (r: string)
    ensures name !in args || name == "self" ==> r == name
    ensures name in args && name != "self" ==>
      PtrLike(r) && (forall k | 2 <= k < |r| :: '0' <= r[k] <= '9') && DigitsValue(r[2..]) == args[name]
  {
    if name !in args then name
    else if name == "self" then name
    else
      var r := "#p" + NatToString(args[name]);
      assert r[2..] == NatToString(args[name]);
      NatToStringRoundTrip(args[name]);
      r
  }

  /** A name of the form the rewrite produces. */
  predicate PtrLike(name: string)
  {
    |name| >= 2 && name[..2] == "#p"
  }

  /** Rewriting twice is rewriting once, unless a parameter itself looks like
      a rewritten name. */
  lemma PtrIdempotent(args: map<string, nat>, name: string)
    requires forall p | p in args :: !PtrLike(p)
    ensures FindSuitablePtr(args, FindSuitablePtr(args, name)) == FindSuitablePtr(args, name)
  {
    var r := FindSuitablePtr(args, name);
    if r != name {
      assert r[..2] == "#p";
      assert r !in args;
    }
  }

  /** Distinct names stay distinct when the parameters have distinct
      positions and no name looks like a rewritten one (a Python identifier
      never starts with `#`). */
  lemma PtrInjective(args: map<string, nat>, x: string, y: string)
    requires forall p, q | p in args && q in args && p != q :: args[p] != args[q]
    requires !PtrLike(x) && !PtrLike(y)
    ensures FindSuitablePtr(args, x) == FindSuitablePtr(args, y) ==> x == y
  {
    var rx, ry := FindSuitablePtr(args, x), FindSuitablePtr(args, y);
    if rx == ry {
      if rx != x && ry != y {
        assert rx[2..] == NatToString(args[x]) && ry[2..] == NatToString(args[y]);
        NatToStringInjective(args[x], args[y]);
      }
    }
  }

  /** `rename_ptrs_for_node` on the node itself: a Name's id, a Call's
      instance when it has one, an Attribute's instance. */
  function RenameHere(args: map<string, nat>, m: Node): (r: Node)
    ensures EraseNames(r) == EraseNames(m)
    ensures m.kind == "Name" ==> r.id == FindSuitablePtr(args, m.id)
    ensures (m.kind == "Call" || m.kind == "Attribute") && m.instance.Some? ==>
      r.instance == Some(FindSuitablePtr(args, m.instance.value))
  {
    if m.kind == "Name" then m.(id := FindSuitablePtr(args, m.id))
    else if (m.kind == "Call" || m.kind == "Attribute") && m.instance.Some? then
      m.(instance := Some(FindSuitablePtr(args, m.instance.value)))
    else m
  }

  function RenameAt(args: map<string, nat>): Node -> Node
  {
    (m: Node) => RenameHere(args, m)
  }

  /** `rename_ptrs_for_node`: the rewrite applied to every node of the tree. */
  function RenamePtrsForNode(args: map<string, nat>, n: Node): (r: Node)
    ensures Own(r) == Own(RenameHere(args, n))
    ensures |r.arguments| == |n.arguments| && |r.body| == |n.body|
    ensures forall i | 0 <= i < |n.arguments| :: r.arguments[i] == RenamePtrsForNode(args, n.arguments[i])
    ensures forall j | 0 <= j < |n.body| :: r.body[j].key == n.body[j].key
  {
    MapTreeRoot(RenameAt(args), n);
    MapTreeChildren(RenameAt(args), n);
    MapTree(RenameAt(args), n)
  }

  /** A node with the fields `rename_ptrs_for_node` may rewrite blanked. */
  function EraseNames(m: Node): Node
  {
    if m.kind == "Name" then m.(id := "")
    else if (m.kind == "Call" || m.kind == "Attribute") && m.instance.Some? then m.(instance := Some(""))
    else m
  }

  lemma RenameIsLocal(args: map<string, nat>)
    ensures Local(RenameAt(args)) && Local(EraseNames)
    ensures forall m :: Own(EraseNames(RenameAt(args)(m))) == Own(EraseNames(m))
  {
  }

  /** The rename pass changes only Name ids and Call and Attribute
      instances: blanking those fields gives back the same tree. */
  lemma RenameOnlyNames(args: map<string, nat>, n: Node)
    ensures MapTree(EraseNames, RenamePtrsForNode(args, n)) == MapTree(EraseNames, n)
  {
    RenameIsLocal(args);
    MapTreeAbsorb(RenameAt(args), EraseNames, n);
  }

  /** Renaming a renamed tree changes nothing more. */
  lemma RenameIdempotent(args: map<string, nat>, n: Node)
    requires forall p | p in args :: !PtrLike(p)
    ensures RenamePtrsForNode(args, RenamePtrsForNode(args, n)) == RenamePtrsForNode(args, n)
  {
    RenameIsLocal(args);
    forall m ensures Own(RenameAt(args)(RenameAt(args)(m))) == Own(RenameAt(args)(m)) {
      PtrIdempotent(args, m.id);
      if m.instance.Some? {
        PtrIdempotent(args, m.instance.value);
      }
    }
    MapTreeAbsorb(RenameAt(args), RenameAt(args), n);
  }

  /** Renaming keeps a tree renderable, in either version. */
  lemma RenameKeepsRenderable(v: Version, args: map<string, nat>, n: Node)
    requires Renderable(v, n)
    ensures Renderable(v, RenamePtrsForNode(args, n))
  {
    RenameOnlyNames(args, n);
    forall m ensures RenderableHere(v, EraseNames(m)) == RenderableHere(v, m) {
      RenderableHereOutline(v, EraseNames(m), m);
    }
    RenderableTransfer(v, EraseNames, n, RenamePtrsForNode(args, n));
  }

  // ----- weight_sub_tree ----------------------------------------------------

  const DefaultNodeWeight: nat := 10

  /** `weight_by_function`: the kinds lighter than the default. */
  const WeightByFunction: map<string, nat> :=
    map["Attribute" := 1, "Name" := 1, "Num" := 1, "NameConstant" := 1, "Str" := 1, "Tuple" := 5]

  /** The weight a node starts with before its children are added: the
      table's entry or the default in the current version, always the
      default in the older one. */
  function BaseWeight(v: Version, kind: string): (w: nat)
    ensures 1 <= w <= DefaultNodeWeight
    ensures v == Current && kind in WeightByFunction ==> w == WeightByFunction[kind]
    ensures v == Legacy || kind !in WeightByFunction ==> w == DefaultNodeWeight
  {
    if v == Current && kind in WeightByFunction then WeightByFunction[kind] else DefaultNodeWeight
  }

  /** An argument heavier than the default weight counts the default less. */
  function Discounted(w: int): (r: int)
    ensures w >= 1 ==> 1 <= r <= w
    ensures w > DefaultNodeWeight ==> r == w - DefaultNodeWeight
    ensures w <= DefaultNodeWeight ==> r == w
  {
    if w > DefaultNodeWeight then w - DefaultNodeWeight else w
  }

  /** The number of child steps on the longest path down from `n`: 0 for a
      node without arguments or body items. */
  function Height(n: Node): nat
    decreases n, 1
  {
    Max(HeightIn(n.arguments), HeightInBody(n.body))
  }

  function HeightIn(s: seq<Node>): nat
    decreases s
  {
    MaxOf(0, seq(|s|, i requires 0 <= i < |s| => Height(s[i]) + 1))
  }

  function HeightInBody(b: seq<BodyEntry>): nat
    decreases b
  {
    MaxOf(0, seq(|b|, j requires 0 <= j < |b| => HeightIn(b[j].items)))
  }

  /** The largest depth returned by the weighing of a list: each child
      reports its stored depth plus one. */
  function DepthIn(s: seq<Node>): int
  {
    MaxOf(0, seq(|s|, i requires 0 <= i < |s| => s[i].depth + 1))
  }

  function DepthInBody(b: seq<BodyEntry>): int
  {
    MaxOf(0, seq(|b|, j requires 0 <= j < |b| => DepthIn(b[j].items)))
  }

  /** The weights the body lists add, in full. */
  function BodyWeight(b: seq<BodyEntry>): int
  {
    Sum(seq(|b|, j requires 0 <= j < |b| =>
      Sum(seq(|b[j].items|, i requires 0 <= i < |b[j].items| => b[j].items[i].weight))))
  }

  /** The weights the arguments add, each discounted. */
  function ArgWeight(s: seq<Node>): int
  {
    Sum(seq(|s|, i requires 0 <= i < |s| => Discounted(s[i].weight)))
  }

  /** `weight_sub_tree`. Every node of the tree gets its weight: its base
      weight plus its body items' weights plus its arguments' discounted
      weights. The current version also stores the depth, the largest of
      `depth` and the depths its children report, and returns the pair of
      the weight and that depth plus one; the older version leaves the depth
      alone and returns the weight. */
  function WeightSubTree(v: Version, n: Node, depth: nat): (r: Node)
    ensures v == Current ==> r.depth == Max(depth, Height(n))
    ensures v == Legacy ==> r.depth == n.depth
    ensures r.kind == n.kind && |r.arguments| == |n.arguments| && |r.body| == |n.body|
    ensures r.weight == BaseWeight(v, n.kind) + BodyWeight(r.body) + ArgWeight(r.arguments)
    ensures r.weight >= BaseWeight(v, n.kind) + |n.arguments|
    ensures n.arguments == [] && n.body == [] ==> r.weight == BaseWeight(v, n.kind)
    decreases n, 1
  {
    var args := WeightList(v, n.arguments);
    var body := WeightBody(v, n.body);
    DepthOfWeighed(v, n.arguments);
    DepthOfWeighedBody(v, n.body);
    ArgWeightOfWeighed(v, n.arguments);
    BodyWeightOfWeighed(v, n.body);
    n.(weight := BaseWeight(v, n.kind) + BodyWeight(body) + ArgWeight(args),
       depth := if v == Current then Max(depth, Max(DepthIn(args), DepthInBody(body))) else n.depth,
       arguments := args, body := body)
  }

  /** The weighing of each node of a list, started at depth 0. */
  function WeightList(v: Version, s: seq<Node>): (r: seq<Node>)
    ensures |r| == |s|
    ensures forall i | 0 <= i < |s| :: r[i] == WeightSubTree(v, s[i], 0)
    ensures forall i | 0 <= i < |s| :: r[i].weight >= 1
    ensures v == Current ==> forall i | 0 <= i < |s| :: r[i].depth == Height(s[i])
    decreases s, 0
  {
    seq(|s|, i requires 0 <= i < |s| => WeightSubTree(v, s[i], 0))
  }

  function WeightBody(v: Version, b: seq<BodyEntry>): (r: seq<BodyEntry>)
    ensures |r| == |b|
    ensures forall j | 0 <= j < |b| :: r[j] == BodyEntry(b[j].key, WeightList(v, b[j].items))
    decreases b, 0
  {
    seq(|b|, j requires 0 <= j < |b| => BodyEntry(b[j].key, WeightList(v, b[j].items)))
  }

  /** The depths the weighed children report are their heights plus one. */
  lemma DepthOfWeighed(v: Version, s: seq<Node>)
    ensures v == Current ==> DepthIn(WeightList(v, s)) == HeightIn(s)
    decreases s, 1
  {
    if v == Current {
      var r := WeightList(v, s);
      var xs := seq(|r|, i requires 0 <= i < |r| => r[i].depth + 1);
      var ys := seq(|s|, i requires 0 <= i < |s| => Height(s[i]) + 1);
      assert |xs| == |ys|;
      forall i | 0 <= i < |xs| ensures xs[i] == ys[i] {
        assert r[i].depth == Height(s[i]);
      }
      assert xs == ys;
    }
  }

  lemma DepthOfWeighedBody(v: Version, b: seq<BodyEntry>)
    ensures v == Current ==> DepthInBody(WeightBody(v, b)) == HeightInBody(b)
    decreases b, 1
  {
    if v == Current {
      var r := WeightBody(v, b);
      forall j | 0 <= j < |r| ensures DepthIn(r[j].items) == HeightIn(b[j].items) {
        DepthOfWeighed(v, b[j].items);
      }
      assert seq(|r|, j requires 0 <= j < |r| => DepthIn(r[j].items))
          == seq(|b|, j requires 0 <= j < |b| => HeightIn(b[j].items));
    }
  }

  lemma ArgWeightOfWeighed(v: Version, s: seq<Node>)
    ensures ArgWeight(WeightList(v, s)) >= |s|
    decreases s, 1
  {
    var r := WeightList(v, s);
    SumAtLeastLength(seq(|r|, i requires 0 <= i < |r| => Discounted(r[i].weight)));
  }

  lemma BodyWeightOfWeighed(v: Version, b: seq<BodyEntry>)
    ensures BodyWeight(WeightBody(v, b)) >= 0
    decreases b, 1
  {
    var r := WeightBody(v, b);
    forall j | 0 <= j < |r|
      ensures Sum(seq(|r[j].items|, i requires 0 <= i < |r[j].items| => r[j].items[i].weight)) >= 0
    {
      var t := r[j].items;
      assert forall i | 0 <= i < |t| :: t[i].weight >= 1;
    }
  }

  function ClearWeight(m: Node): Node
  {
    m.(weight := 0)
  }

  /** What weighing may change: weights and depths in the current version,
      weights alone in the older one. */
  function Reweighable(v: Version): Node -> Node
  {
    if v == Current then StripWeight else ClearWeight
  }

  /** Weighing changes only weights (and, in the current version, depths). */
  lemma {:induction false} WeightOnlyWeights(v: Version, n: Node, depth: nat)
    ensures MapTree(Reweighable(v), WeightSubTree(v, n, depth)) == MapTree(Reweighable(v), n)
    decreases n
  {
    var g := Reweighable(v);
    var r := WeightSubTree(v, n, depth);
    forall i | 0 <= i < |n.arguments|
      ensures MapTree(g, r.arguments[i]) == MapTree(g, n.arguments[i])
    {
      WeightOnlyWeights(v, n.arguments[i], 0);
    }
    MapListEqual(g, r.arguments, n.arguments);
    forall j | 0 <= j < |n.body|
      ensures r.body[j].key == n.body[j].key
      ensures MapList(g, r.body[j].items) == MapList(g, n.body[j].items)
    {
      var t, u := r.body[j].items, n.body[j].items;
      forall i | 0 <= i < |u| ensures MapTree(g, t[i]) == MapTree(g, u[i]) {
        WeightOnlyWeights(v, u[i], 0);
      }
      MapListEqual(g, t, u);
    }
    MapBodyEqual(g, r.body, n.body);
    MapTreeEqual(g, r, n);
  }

  /** The weighing reads nothing that it writes: trees that differ only in
      what it rewrites are weighed alike. */
  lemma {:induction false} WeightIgnoresOldWeights(v: Version, n: Node, m: Node, depth: nat)
    requires MapTree(Reweighable(v), n) == MapTree(Reweighable(v), m)
    ensures WeightSubTree(v, n, depth) == WeightSubTree(v, m, depth)
    decreases n
  {
    var g := Reweighable(v);
    MapTreeParts(g, n, m);
    MapListParts(g, n.arguments, m.arguments);
    MapBodyParts(g, n.body, m.body);
    forall i | 0 <= i < |n.arguments|
      ensures WeightSubTree(v, n.arguments[i], 0) == WeightSubTree(v, m.arguments[i], 0)
    {
      WeightIgnoresOldWeights(v, n.arguments[i], m.arguments[i], 0);
    }
    assert WeightList(v, n.arguments) == WeightList(v, m.arguments);
    forall j | 0 <= j < |n.body| ensures WeightList(v, n.body[j].items) == WeightList(v, m.body[j].items) {
      var t, u := n.body[j].items, m.body[j].items;
      MapListParts(g, t, u);
      forall i | 0 <= i < |t| ensures WeightSubTree(v, t[i], 0) == WeightSubTree(v, u[i], 0) {
        WeightIgnoresOldWeights(v, t[i], u[i], 0);
      }
      assert WeightList(v, t) == WeightList(v, u);
    }
    assert WeightBody(v, n.body) == WeightBody(v, m.body);
    var a, b := g(n), g(m);
    assert Own(a) == Own(b);
    assert n.kind == a.kind == b.kind == m.kind;
  }

  /** Weighing a weighed tree again changes nothing. */
  lemma WeightIdempotent(v: Version, n: Node, depth: nat)
    ensures WeightSubTree(v, WeightSubTree(v, n, depth), depth) == WeightSubTree(v, n, depth)
  {
    WeightOnlyWeights(v, n, depth);
    WeightIgnoresOldWeights(v, WeightSubTree(v, n, depth), n, depth);
  }

  function WeightAtLeast(w: int): Node -> bool
  {
    (m: Node) => m.weight >= w
  }

  /** After weighing, every node of the tree weighs at least 1, and at least
      the default weight in the older version. */
  lemma {:induction false} WeighedEverywhere(v: Version, n: Node, depth: nat)
    ensures Every(WeightAtLeast(1), WeightSubTree(v, n, depth))
    ensures v == Legacy ==> Every(WeightAtLeast(DefaultNodeWeight), WeightSubTree(v, n, depth))
    decreases n
  {
    var r := WeightSubTree(v, n, depth);
    var w := if v == Legacy then DefaultNodeWeight else 1;
    forall i | 0 <= i < |r.arguments| ensures Every(WeightAtLeast(1), r.arguments[i]) && Every(WeightAtLeast(w), r.arguments[i]) {
      WeighedEverywhere(v, n.arguments[i], 0);
    }
    forall j, i | 0 <= j < |r.body| && 0 <= i < |r.body[j].items|
      ensures Every(WeightAtLeast(1), r.body[j].items[i]) && Every(WeightAtLeast(w), r.body[j].items[i])
    {
      WeighedEverywhere(v, n.body[j].items[i], 0);
    }
    assert EveryIn(WeightAtLeast(1), r.arguments) && EveryInBody(WeightAtLeast(1), r.body);
    assert EveryIn(WeightAtLeast(w), r.arguments) && EveryInBody(WeightAtLeast(w), r.body);
  }

  /** The node's stored weight is its base weight plus its body items'
      stored weights plus its arguments' discounted stored weights. */
  predicate WeighedHere(v: Version, m: Node)
  {
    m.weight == BaseWeight(v, m.kind) + BodyWeight(m.body) + ArgWeight(m.arguments)
  }

  function WeighedAt(v: Version): Node -> bool
  {
    (m: Node) => WeighedHere(v, m)
  }

  /** After weighing, every node of the tree, not only the root, carries the
      weight its children's stored weights give it. */
  lemma {:induction false} WeightConsistent(v: Version, n: Node, depth: nat)
    ensures Every(WeighedAt(v), WeightSubTree(v, n, depth))
    decreases n
  {
    var r := WeightSubTree(v, n, depth);
    forall i | 0 <= i < |r.arguments| ensures Every(WeighedAt(v), r.arguments[i]) {
      WeightConsistent(v, n.arguments[i], 0);
    }
    forall j, i | 0 <= j < |r.body| && 0 <= i < |r.body[j].items|
      ensures Every(WeighedAt(v), r.body[j].items[i])
    {
      WeightConsistent(v, n.body[j].items[i], 0);
    }
    assert WeighedAt(v)(r);
    assert EveryIn(WeighedAt(v), r.arguments) && EveryInBody(WeighedAt(v), r.body);
  }

  // ----- calc_hash -----------------------------------------------------------

  /** A valid variable set keeps every lookup of `get_variable_name` in range. */
  lemma ValidLookupOk(v: Version, m: Node, mode: VarNames)
    requires VarsValid(m)
    ensures NameLookupOk(v, m, mode)
  {
    var name := QualifiedName(m);
    if name in m.variables.indexByName {
      assert 0 <= m.variables.indexByName[name] < |m.variables.variables|;
    }
  }

  /** What hashing needs: every node renders and has a valid variable set. */
  predicate Hashable(n: Node)
  {
    Renderable(Current, n) && Every(VarsValid, n)
  }

  /** The stored hashes of a list's nodes in one mode, in order. */
  function HashesIn(s: seq<Node>, mode: VarNames): (r: seq<string>)
    ensures |r| == |s|
  {
    seq(|s|, i requires 0 <= i < |s| => s[i].hashes.Get(mode))
  }

  /** The children's stored hashes as `calc_hash` appends them: body lists in
      key order, then arguments. */
  function ChildHashes(n: Node, mode: VarNames): string
  {
    Concat(seq(|n.body|, j requires 0 <= j < |n.body| => Concat(HashesIn(n.body[j].items, mode))))
      + Concat(HashesIn(n.arguments, mode))
  }

  /** `calc_hash(child, mode)`: the children are hashed first, then the node
      stores, under `mode`, the digest of its own rendering in `mode`
      followed by its children's new hashes. The digest (`get_hash`, an MD5
      hex digest) is the parameter `digest`. */
  function CalcHash(digest: string -> string, n: Node, mode: VarNames): (r: Node)
    requires Hashable(n)
    ensures forall m | m != mode :: r.hashes.Get(m) == n.hashes.Get(m)
    decreases n, 1
  {
    EveryChildren(RenderableAt(Current), n);
    EveryChildren(VarsValid, n);
    ValidLookupOk(Current, n, mode);
    var hashed := n.(arguments := HashList(digest, n.arguments, mode), body := HashBody(digest, n.body, mode));
    hashed.(hashes := n.hashes.Set(mode, digest(Stringify(Current, n, mode) + ChildHashes(hashed, mode))))
  }

  function HashList(digest: string -> string, s: seq<Node>, mode: VarNames): (r: seq<Node>)
    requires forall i | 0 <= i < |s| :: Hashable(s[i])
    ensures |r| == |s|
    ensures forall i | 0 <= i < |s| :: r[i] == CalcHash(digest, s[i], mode)
    decreases s, 0
  {
    seq(|s|, i requires 0 <= i < |s| => CalcHash(digest, s[i], mode))
  }

  function HashBody(digest: string -> string, b: seq<BodyEntry>, mode: VarNames): (r: seq<BodyEntry>)
    requires forall j, i | 0 <= j < |b| && 0 <= i < |b[j].items| :: Hashable(b[j].items[i])
    ensures |r| == |b|
    ensures forall j | 0 <= j < |b| :: r[j] == BodyEntry(b[j].key, HashList(digest, b[j].items, mode))
    decreases b, 0
  {
    seq(|b|, j requires 0 <= j < |b| => BodyEntry(b[j].key, HashList(digest, b[j].items, mode)))
  }

  /** The node with its hash in `mode` cleared. */
  function ClearHash(mode: VarNames): Node -> Node
  {
    (m: Node) => m.(hashes := m.hashes.Set(mode, ""))
  }

  /** `calc_hash` in one mode writes the hashes of that mode and nothing else. */
  lemma {:induction false} CalcHashOnlyHashes(digest: string -> string, n: Node, mode: VarNames)
    requires Hashable(n)
    ensures MapTree(ClearHash(mode), CalcHash(digest, n, mode)) == MapTree(ClearHash(mode), n)
    decreases n
  {
    var g := ClearHash(mode);
    var r := CalcHash(digest, n, mode);
    EveryChildren(RenderableAt(Current), n);
    EveryChildren(VarsValid, n);
    forall i | 0 <= i < |n.arguments| ensures MapTree(g, r.arguments[i]) == MapTree(g, n.arguments[i]) {
      CalcHashOnlyHashes(digest, n.arguments[i], mode);
    }
    MapListEqual(g, r.arguments, n.arguments);
    forall j | 0 <= j < |n.body|
      ensures r.body[j].key == n.body[j].key
      ensures MapList(g, r.body[j].items) == MapList(g, n.body[j].items)
    {
      var t, u := r.body[j].items, n.body[j].items;
      forall i | 0 <= i < |u| ensures MapTree(g, t[i]) == MapTree(g, u[i]) {
        CalcHashOnlyHashes(digest, u[i], mode);
      }
      MapListEqual(g, t, u);
    }
    MapBodyEqual(g, r.body, n.body);
    assert g(r).hashes == g(n).hashes;
    MapTreeEqual(g, r, n);
  }

  /** Trees that agree up to one mode's hashes agree up to all hashes. */
  lemma ClearHashThenStrip(mode: VarNames, a: Node, b: Node)
    requires MapTree(ClearHash(mode), a) == MapTree(ClearHash(mode), b)
    ensures MapTree(StripHashes, a) == MapTree(StripHashes, b)
  {
    assert Local(ClearHash(mode)) && Local(StripHashes);
    MapTreeAbsorb(ClearHash(mode), StripHashes, a);
    MapTreeAbsorb(ClearHash(mode), StripHashes, b);
  }

  /** The node's stored hash in `mode` is the digest of its rendering in
      `mode` followed by its children's stored hashes in that mode. */
  predicate HashedHere(digest: string -> string, mode: VarNames, m: Node)
  {
    Renderable(Current, m) && NameLookupOk(Current, m, mode) &&
    m.hashes.Get(mode) == digest(Stringify(Current, m, mode) + ChildHashes(m, mode))
  }

  function HashedAt(digest: string -> string, mode: VarNames): Node -> bool
  {
    (m: Node) => HashedHere(digest, mode, m)
  }

  /** After `calc_hash`, every node's hash in that mode is the digest of its
      own rendering and of its children's hashes, as stored. */
  lemma {:induction false} CalcHashConsistent(digest: string -> string, n: Node, mode: VarNames)
    requires Hashable(n)
    ensures Every(HashedAt(digest, mode), CalcHash(digest, n, mode))
    decreases n
  {
    var r := CalcHash(digest, n, mode);
    EveryChildren(RenderableAt(Current), n);
    EveryChildren(VarsValid, n);
    ValidLookupOk(Current, n, mode);
    CalcHashOnlyHashes(digest, n, mode);
    ClearHashThenStrip(mode, n, r);
    StringifyIgnoresHashes(Current, n, r, mode);
    assert HashedHere(digest, mode, r);
    forall i | 0 <= i < |r.arguments| ensures Every(HashedAt(digest, mode), r.arguments[i]) {
      CalcHashConsistent(digest, n.arguments[i], mode);
    }
    forall j, i | 0 <= j < |r.body| && 0 <= i < |r.body[j].items|
      ensures Every(HashedAt(digest, mode), r.body[j].items[i])
    {
      CalcHashConsistent(digest, n.body[j].items[i], mode);
    }
    assert EveryIn(HashedAt(digest, mode), r.arguments) && EveryInBody(HashedAt(digest, mode), r.body);
  }

  // ----- calculate_variable_hashes, calc_and_sum_hashes -------------------

  /** Every variable name known anywhere in the tree. */
  function AllNames(n: Node): set<string>
    decreases n, 1
  {
    NameSet(n.variables.variables) + AllNamesInBody(n.body) + AllNamesIn(n.arguments)
  }

  function AllNamesIn(s: seq<Node>): set<string>
    decreases s
  {
    if s == [] then {} else AllNames(s[0]) + AllNamesIn(s[1..])
  }

  function AllNamesInBody(b: seq<BodyEntry>): set<string>
    decreases b
  {
    if b == [] then {} else AllNamesIn(b[0].items) + AllNamesInBody(b[1..])
  }

  /** The merge of `calc_and_sum_hashes`: a name new to `acc` takes its hash
      from `sub`; a name in both gets the digest of the old hash followed by
      the new one; the other names keep theirs. */
  function SumHashes(digest: string -> string, acc: map<string, string>, sub: map<string, string>): (r: map<string, string>)
    ensures r.Keys == acc.Keys + sub.Keys
    ensures forall k | k in acc && k !in sub :: r[k] == acc[k]
    ensures forall k | k !in acc && k in sub :: r[k] == sub[k]
    ensures forall k | k in acc && k in sub :: r[k] == digest(acc[k] + sub[k])
  {
    map k | k in acc.Keys + sub.Keys :: if k !in acc then sub[k] else if k in sub then digest(acc[k] + sub[k]) else acc[k]
  }

  /** The loop over the node's own variables in `calculate_variable_hashes`:
      variable i contributes the node's 'index' hash followed by str(i); a
      name already present gets the digest of that followed by its old hash. */
  function OwnHashes(digest: string -> string, indexHash: string, vars: seq<Variable>, acc: map<string, string>): (r: map<string, string>)
    ensures r.Keys == acc.Keys + NameSet(vars)
    ensures forall k | k in acc && k !in NameSet(vars) :: r[k] == acc[k]
    decreases |vars|
  {
    if vars == [] then acc
    else
      var i := |vars| - 1;
      var prev := OwnHashes(digest, indexHash, vars[..i], acc);
      var own := indexHash + NatToString(i);
      var name := vars[i].name;
      NameSetAppend(vars[..i], vars[i]);
      assert vars[..i] + [vars[i]] == vars;
      prev[name := if name in prev then digest(own + prev[name]) else own]
  }

  /** The hash of a name is settled by its last position i among the
      variables: the 'index' hash followed by str(i), preceded by nothing
      when the name is new there, or digested together with the hash the
      name had before. */
  lemma {:induction false} OwnHashesLast(digest: string -> string, indexHash: string, vars: seq<Variable>,
                                         acc: map<string, string>, i: nat)
    requires i < |vars| && forall m | i < m < |vars| :: vars[m].name != vars[i].name
    ensures var prev := OwnHashes(digest, indexHash, vars[..i], acc);
      var own := indexHash + NatToString(i);
      vars[i].name in OwnHashes(digest, indexHash, vars, acc) &&
      OwnHashes(digest, indexHash, vars, acc)[vars[i].name] ==
        if vars[i].name in prev then digest(own + prev[vars[i].name]) else own
    decreases |vars|
  {
    var last := |vars| - 1;
    var prev := OwnHashes(digest, indexHash, vars[..last], acc);
    var own := indexHash + NatToString(last);
    var lastName := vars[last].name;
    var h := if lastName in prev then digest(own + prev[lastName]) else own;
    assert OwnHashes(digest, indexHash, vars, acc) == prev[lastName := h];
    if i < last {
      OwnHashesLast(digest, indexHash, vars[..last], acc, i);
      PrefixOfPrefix(vars, last, i);
    }
  }

  lemma {:induction false} PrefixOfPrefix(vars: seq<Variable>, n: nat, m: nat)
    requires m <= n <= |vars|
    ensures vars[..n][..m] == vars[..m]
  {
  }

  /** A name held by exactly one of the variables, at position i, and
      unknown before, gets the 'index' hash followed by str(i). */
  lemma {:induction false} OwnHashesSingle(digest: string -> string, indexHash: string, vars: seq<Variable>,
                        acc: map<string, string>, i: nat)
    requires i < |vars| && vars[i].name !in acc
    requires forall m | 0 <= m < |vars| && m != i :: vars[m].name != vars[i].name
    ensures OwnHashes(digest, indexHash, vars, acc)[vars[i].name] == indexHash + NatToString(i)
  {
    OwnHashesLast(digest, indexHash, vars, acc, i);
    assert vars[i].name !in NameSet(vars[..i]);
  }

  /** `calculate_variable_hashes(node)`: the hashes of the body children,
      then of the arguments, summed, then the node's own variables. The
      result names exactly the variables known anywhere in the tree. */
  function VariableHashes(digest: string -> string, n: Node): (r: map<string, string>)
    ensures r.Keys == AllNames(n)
    decreases n, 1
  {
    var fromBody := SumBodyHashes(digest, n.body, map[]);
    var fromArgs := SumListHashes(digest, n.arguments, fromBody);
    OwnHashes(digest, n.hashes.index, n.variables.variables, fromArgs)
  }

  /** `calc_and_sum_hashes` for each node of `s`, in order. */
  function SumListHashes(digest: string -> string, s: seq<Node>, acc: map<string, string>): (r: map<string, string>)
    ensures r.Keys == acc.Keys + AllNamesIn(s)
    decreases s
  {
    if s == [] then acc else SumListHashes(digest, s[1..], SumHashes(digest, acc, VariableHashes(digest, s[0])))
  }

  function SumBodyHashes(digest: string -> string, b: seq<BodyEntry>, acc: map<string, string>): (r: map<string, string>)
    ensures r.Keys == acc.Keys + AllNamesInBody(b)
    decreases b
  {
    if b == [] then acc else SumBodyHashes(digest, b[1..], SumListHashes(digest, b[0].items, acc))
  }

  // ----- propagate_var_hashes_down -------------------------------------------

  /** `var_hashes.get(name)`. Python yields None for a missing name; the
      model yields "" (a missing name cannot occur: see HashifyCovers). */
  function Lookup(m: map<string, string>, name: string): string
  {
    if name in m then m[name] else ""
  }

  function PropagateHere(m: map<string, string>, x: Node): (r: Node)
    ensures Own(r).(variables := EmptyVariables) == Own(x).(variables := EmptyVariables)
    ensures r.arguments == x.arguments && r.body == x.body
    ensures r.variables.indexByName == x.variables.indexByName
    ensures |r.variables.variables| == |x.variables.variables|
    ensures forall i | 0 <= i < |x.variables.variables| ::
      r.variables.variables[i].name == x.variables.variables[i].name &&
      r.variables.variables[i].blockIndex == x.variables.variables[i].blockIndex
    ensures UsageFrom(m, r)
  {
    var vs := x.variables.variables;
    x.(variables := x.variables.(variables :=
      seq(|vs|, i requires 0 <= i < |vs| => vs[i].(usageHash := Lookup(m, vs[i].name)))))
  }

  function PropagateAt(m: map<string, string>): Node -> Node
  {
    (x: Node) => PropagateHere(m, x)
  }

  /** `propagate_var_hashes_down(node, var_hashes)`: every variable of every
      node takes the hash of its name. */
  function Propagate(m: map<string, string>, n: Node): (r: Node)
    ensures UsageFrom(m, r)
    ensures r.kind == n.kind && |r.arguments| == |n.arguments| && |r.body| == |n.body|
    ensures forall i | 0 <= i < |n.arguments| :: r.arguments[i] == Propagate(m, n.arguments[i])
  {
    MapTreeChildren(PropagateAt(m), n);
    MapTree(PropagateAt(m), n)
  }

  /** Every variable's usage hash is the map's entry for its name. */
  predicate UsageFrom(m: map<string, string>, x: Node)
  {
    forall i | 0 <= i < |x.variables.variables| ::
      x.variables.variables[i].usageHash == Lookup(m, x.variables.variables[i].name)
  }

  function UsageFromAt(m: map<string, string>): Node -> bool
  {
    (x: Node) => UsageFrom(m, x)
  }

  /** After propagation every variable of every node carries its name's hash. */
  lemma PropagateSetsUsage(m: map<string, string>, n: Node)
    ensures Every(UsageFromAt(m), Propagate(m, n))
  {
    EveryMapTree(UsageFromAt(m), PropagateAt(m), n);
  }

  lemma PropagateHereNames(m: map<string, string>, x: Node)
    ensures StripUsage(PropagateHere(m, x)) == StripUsage(x)
  {
    var a, b := StripUsage(PropagateHere(m, x)).variables.variables, StripUsage(x).variables.variables;
    assert |a| == |b|;
    forall i | 0 <= i < |a| ensures a[i] == b[i] {
    }
  }

  /** Propagation changes usage hashes and nothing else. */
  lemma {:induction false} PropagateOnlyUsage(m: map<string, string>, n: Node)
    ensures MapTree(StripUsage, Propagate(m, n)) == MapTree(StripUsage, n)
  {
    forall x ensures Own(StripUsage(PropagateAt(m)(x))) == Own(StripUsage(x)) {
      PropagateHereNames(m, x);
    }
    assert Local(PropagateAt(m)) && Local(StripUsage);
    MapTreeAbsorb(PropagateAt(m), StripUsage, n);
  }

  /** Every name of a node's variables is known to its tree. */
  function NamesWithin(k: set<string>): Node -> bool
  {
    (x: Node) => NameSet(x.variables.variables) <= k
  }

  lemma AllNamesInAt(s: seq<Node>, i: int)
    requires 0 <= i < |s|
    ensures AllNames(s[i]) <= AllNamesIn(s)
  {
    if i > 0 {
      AllNamesInAt(s[1..], i - 1);
    }
  }

  lemma AllNamesInBodyAt(b: seq<BodyEntry>, j: int)
    requires 0 <= j < |b|
    ensures AllNamesIn(b[j].items) <= AllNamesInBody(b)
  {
    if j > 0 {
      AllNamesInBodyAt(b[1..], j - 1);
    }
  }

  /** Every node's variable names are among the names the whole tree knows. */
  lemma {:induction false} NamesWithinTree(n: Node, k: set<string>)
    requires AllNames(n) <= k
    ensures Every(NamesWithin(k), n)
    decreases n
  {
    forall i | 0 <= i < |n.arguments| ensures Every(NamesWithin(k), n.arguments[i]) {
      AllNamesInAt(n.arguments, i);
      NamesWithinTree(n.arguments[i], k);
    }
    forall j, i | 0 <= j < |n.body| && 0 <= i < |n.body[j].items| ensures Every(NamesWithin(k), n.body[j].items[i]) {
      AllNamesInBodyAt(n.body, j);
      AllNamesInAt(n.body[j].items, i);
      NamesWithinTree(n.body[j].items[i], k);
    }
    assert EveryIn(NamesWithin(k), n.arguments) && EveryInBody(NamesWithin(k), n.body);
  }

  /** `hashify_variables`' first loop: the summed variable hashes of all the
      function's statements. */
  function FunctionVariableHashes(digest: string -> string, children: seq<Node>): (r: map<string, string>)
    ensures r.Keys == AllNamesIn(children)
  {
    SumListHashes(digest, children, map[])
  }

  /** The map `hashify_variables` propagates names every variable of every
      statement, so `.get` never misses. */
  lemma HashifyCovers(digest: string -> string, children: seq<Node>, i: int)
    requires 0 <= i < |children|
    ensures Every(NamesWithin(FunctionVariableHashes(digest, children).Keys), children[i])
  {
    AllNamesInAt(children, i);
    NamesWithinTree(children[i], AllNamesIn(children));
  }

  // ----- what each pass keeps ----------------------------------------------

  lemma StripUsageValid(x: Node)
    ensures VarsValid(StripUsage(x)) == VarsValid(x)
    ensures RenderableHere(Current, StripUsage(x)) == RenderableHere(Current, x)
  {
    var a, b := StripUsage(x).variables.variables, x.variables.variables;
    assert Names(a) == Names(b);
    assert NameSet(a) == NameSet(b) by {
      forall name | name in NameSet(b) ensures name in NameSet(a) {
        var i :| 0 <= i < |b| && b[i].name == name;
        assert a[i] in a;
      }
      forall name | name in NameSet(a) ensures name in NameSet(b) {
        var i :| 0 <= i < |a| && a[i].name == name;
        assert b[i] in b;
      }
    }
    RenderableHereOutline(Current, StripUsage(x), x);
  }

  /** Renaming keeps a tree hashable. */
  lemma RenameKeepsHashable(args: map<string, nat>, n: Node)
    requires Hashable(n)
    ensures Hashable(RenamePtrsForNode(args, n))
  {
    RenameKeepsRenderable(Current, args, n);
    RenameOnlyNames(args, n);
    EveryTransfer(VarsValid, EraseNames, n, RenamePtrsForNode(args, n));
  }

  /** Weighing keeps a tree hashable. */
  lemma WeightKeepsHashable(v: Version, n: Node, depth: nat)
    requires Hashable(n)
    ensures Hashable(WeightSubTree(v, n, depth))
  {
    var g := Reweighable(v);
    WeightOnlyWeights(v, n, depth);
    ReweighableOutline(v);
    RenderableTransfer(Current, g, n, WeightSubTree(v, n, depth));
    EveryTransfer(VarsValid, g, n, WeightSubTree(v, n, depth));
  }

  lemma ReweighableOutline(v: Version)
    ensures KeepsChildren(Reweighable(v))
    ensures forall m :: RenderableHere(Current, Reweighable(v)(m)) == RenderableHere(Current, m)
    ensures forall m :: VarsValid(Reweighable(v)(m)) == VarsValid(m)
    ensures forall m :: VarsValid(Own(m)) == VarsValid(m)
  {
    forall m ensures RenderableHere(Current, Reweighable(v)(m)) == RenderableHere(Current, m) {
      RenderableHereOutline(Current, Reweighable(v)(m), m);
    }
  }

  lemma ClearHashOutline(mode: VarNames)
    ensures KeepsChildren(ClearHash(mode))
    ensures forall m :: RenderableHere(Current, ClearHash(mode)(m)) == RenderableHere(Current, m)
  {
    forall m ensures RenderableHere(Current, ClearHash(mode)(m)) == RenderableHere(Current, m) {
      RenderableHereOutline(Current, ClearHash(mode)(m), m);
    }
  }

  /** Hashing keeps a tree hashable. */
  lemma CalcHashKeepsHashable(digest: string -> string, n: Node, mode: VarNames)
    requires Hashable(n)
    ensures Hashable(CalcHash(digest, n, mode))
  {
    var g := ClearHash(mode);
    CalcHashOnlyHashes(digest, n, mode);
    ClearHashOutline(mode);
    RenderableTransfer(Current, g, n, CalcHash(digest, n, mode));
    EveryTransfer(VarsValid, g, n, CalcHash(digest, n, mode));
  }

  /** Propagation keeps a tree hashable. */
  lemma PropagateKeepsHashable(m: map<string, string>, n: Node)
    requires Hashable(n)
    ensures Hashable(Propagate(m, n))
  {
    PropagateOnlyUsage(m, n);
    forall x ensures RenderableHere(Current, StripUsage(x)) == RenderableHere(Current, x)
      && VarsValid(StripUsage(x)) == VarsValid(x)
    {
      StripUsageValid(x);
    }
    RenderableTransfer(Current, StripUsage, n, Propagate(m, n));
    EveryTransfer(VarsValid, StripUsage, n, Propagate(m, n));
  }

  // ----- calc_hashes -----------------------------------------------------

  /** `calc_hash` in `mode` on each statement. */
  function HashAll(digest: string -> string, cs: seq<Node>, mode: VarNames): (r: seq<Node>)
    requires forall i | 0 <= i < |cs| :: Hashable(cs[i])
    ensures |r| == |cs|
    ensures forall i | 0 <= i < |cs| :: r[i] == CalcHash(digest, cs[i], mode)
    ensures forall i | 0 <= i < |cs| :: Hashable(r[i])
  {
    var r := seq(|cs|, i requires 0 <= i < |cs| => CalcHash(digest, cs[i], mode));
    forall i | 0 <= i < |cs| ensures Hashable(r[i]) {
      CalcHashKeepsHashable(digest, cs[i], mode);
    }
    r
  }

  /** `hashify_variables`: the summed variable hashes of all statements,
      propagated down each statement. */
  function PropagateAll(digest: string -> string, cs: seq<Node>): (r: seq<Node>)
    ensures |r| == |cs|
    ensures forall i | 0 <= i < |cs| :: r[i] == Propagate(FunctionVariableHashes(digest, cs), cs[i])
  {
    seq(|cs|, i requires 0 <= i < |cs| => Propagate(FunctionVariableHashes(digest, cs), cs[i]))
  }

  /** `calc_hashes`: 'index' hashes, then variable hashes, then 'hash'
      hashes. */
  function HashStatements(digest: string -> string, cs: seq<Node>): (r: seq<Node>)
    requires forall i | 0 <= i < |cs| :: Hashable(cs[i])
    ensures |r| == |cs|
  {
    var indexed := HashAll(digest, cs, ByIndex);
    var propagated := PropagateAll(digest, indexed);
    forall i | 0 <= i < |cs| ensures Hashable(propagated[i]) {
      PropagateKeepsHashable(FunctionVariableHashes(digest, indexed), indexed[i]);
    }
    HashAll(digest, propagated, ByHash)
  }

  lemma StripUsageNames(x: Node)
    ensures NameSet(StripUsage(x).variables.variables) == NameSet(x.variables.variables)
  {
    var a, b := StripUsage(x).variables.variables, x.variables.variables;
    forall name | name in NameSet(b) ensures name in NameSet(a) {
      var i :| 0 <= i < |b| && b[i].name == name;
      assert a[i] in a;
    }
    forall name | name in NameSet(a) ensures name in NameSet(b) {
      var i :| 0 <= i < |a| && a[i].name == name;
      assert b[i] in b;
    }
  }

  /** After `calc_hashes`, in every statement: each node's 'hash' hash is
      the digest of its 'hash'-mode rendering and its children's 'hash'
      hashes; every variable carries the function-wide hash of its name; and
      that hash exists for every name, so no usage hash is None. */
  lemma {:induction false} HashStatementsSpec(digest: string -> string, cs: seq<Node>, i: int)
    requires forall k | 0 <= k < |cs| :: Hashable(cs[k])
    requires 0 <= i < |cs|
    ensures var indexed := HashAll(digest, cs, ByIndex);
      var m := FunctionVariableHashes(digest, indexed);
      var r := HashStatements(digest, cs)[i];
      Every(HashedAt(digest, ByHash), r) && Every(UsageFromAt(m), r) && Every(NamesWithin(m.Keys), r)
  {
    var indexed := HashAll(digest, cs, ByIndex);
    var m := FunctionVariableHashes(digest, indexed);
    var p := Propagate(m, indexed[i]);
    PropagateKeepsHashable(m, indexed[i]);
    var r := CalcHash(digest, p, ByHash);
    assert HashStatements(digest, cs)[i] == r;
    CalcHashConsistent(digest, p, ByHash);
    PropagateSetsUsage(m, indexed[i]);
    CalcHashOnlyHashes(digest, p, ByHash);
    EveryTransfer(UsageFromAt(m), ClearHash(ByHash), p, r);
    HashifyCovers(digest, indexed, i);
    PropagateOnlyUsage(m, indexed[i]);
    forall x ensures NamesWithin(m.Keys)(StripUsage(x)) == NamesWithin(m.Keys)(x) {
      StripUsageNames(x);
    }
    EveryTransfer(NamesWithin(m.Keys), StripUsage, indexed[i], p);
    EveryTransfer(NamesWithin(m.Keys), ClearHash(ByHash), p, r);
  }

  // ----- FuncTree ----------------------------------------------------------

  /** `FuncTree`: a function's name, file, parameters (name to position) and
      top-level statements. */
  class FuncTree {
    const name: string
    var file: string
    var args: map<string, nat>
    var children: seq<Node>

    constructor (name: string)
      ensures this.name == name && file == "" && args == map[] && children == []
    {
      this.name := name;
      file := "";
      args := map[];
      children := [];
    }

    /** `rename_ptrs`: each statement through `rename_ptrs_for_node`. */
    method RenamePtrs()
      modifies this
      ensures |children| == |old(children)|
      ensures forall i | 0 <= i < |children| :: children[i] == RenamePtrsForNode(args, old(children)[i])
      ensures args == old(args) && file == old(file)
    {
      var i := 0;
      while i < |children|
        invariant 0 <= i <= |children| == |old(children)|
        invariant forall k | 0 <= k < i :: children[k] == RenamePtrsForNode(args, old(children)[k])
        invariant forall k | i <= k < |children| :: children[k] == old(children)[k]
        invariant args == old(args) && file == old(file)
      {
        children := children[i := RenamePtrsForNode(args, children[i])];
        i := i + 1;
      }
    }

    /** `weight_tree`: each statement weighed from depth 1. */
    method WeightTree(v: Version)
      modifies this
      ensures |children| == |old(children)|
      ensures forall i | 0 <= i < |children| :: children[i] == WeightSubTree(v, old(children)[i], 1)
      ensures args == old(args) && file == old(file)
    {
      var i := 0;
      while i < |children|
        invariant 0 <= i <= |children| == |old(children)|
        invariant forall k | 0 <= k < i :: children[k] == WeightSubTree(v, old(children)[k], 1)
        invariant forall k | i <= k < |children| :: children[k] == old(children)[k]
        invariant args == old(args) && file == old(file)
      {
        children := children[i := WeightSubTree(v, children[i], 1)];
        i := i + 1;
      }
    }

    /** One `calc_hash` loop of `calc_hashes`. */
    method HashChildren(digest: string -> string, mode: VarNames)
      requires forall i | 0 <= i < |children| :: Hashable(children[i])
      modifies this
      ensures children == HashAll(digest, old(children), mode)
      ensures args == old(args) && file == old(file)
    {
      var i := 0;
      while i < |children|
        invariant 0 <= i <= |children| == |old(children)|
        invariant forall k | 0 <= k < i :: children[k] == CalcHash(digest, old(children)[k], mode)
        invariant forall k | i <= k < |children| :: children[k] == old(children)[k]
        invariant args == old(args) && file == old(file)
      {
        children := children[i := CalcHash(digest, children[i], mode)];
        i := i + 1;
      }
    }

    /** `hashify_variables`: sum the variable hashes of all statements, then
        push them down each statement. */
    method HashifyVariables(digest: string -> string)
      modifies this
      ensures children == PropagateAll(digest, old(children))
      ensures args == old(args) && file == old(file)
    {
      var varHashes: map<string, string> := map[];
      var i := 0;
      while i < |children|
        invariant 0 <= i <= |children|
        invariant children == old(children) && args == old(args) && file == old(file)
        invariant SumListHashes(digest, children[i..], varHashes) == FunctionVariableHashes(digest, children)
      {
        assert children[i..][1..] == children[i + 1..];
        varHashes := SumHashes(digest, varHashes, VariableHashes(digest, children[i]));
        i := i + 1;
      }
      assert children[i..] == [];
      i := 0;
      ghost var before := children;
      while i < |children|
        invariant 0 <= i <= |children| == |before|
        invariant before == old(children) && args == old(args) && file == old(file)
        invariant forall k | 0 <= k < i :: children[k] == Propagate(varHashes, before[k])
        invariant forall k | i <= k < |children| :: children[k] == before[k]
      {
        children := children[i := Propagate(varHashes, children[i])];
        i := i + 1;
      }
    }

    /** `calc_hashes`. */
    method CalcHashes(digest: string -> string)
      requires forall i | 0 <= i < |children| :: Hashable(children[i])
      modifies this
      ensures children == HashStatements(digest, old(children))
      ensures args == old(args) && file == old(file)
    {
      HashChildren(digest, ByIndex);
      HashifyVariables(digest);
      forall i | 0 <= i < |children| ensures Hashable(children[i]) {
        var indexed := HashAll(digest, old(children), ByIndex);
        PropagateKeepsHashable(FunctionVariableHashes(digest, indexed), indexed[i]);
      }
      HashChildren(digest, ByHash);
    }
  }

  /** A sum of positive numbers is at least their count. */
  lemma {:induction false} SumAtLeastLength(xs: seq<int>)
    requires forall i | 0 <= i < |xs| :: xs[i] >= 1
    ensures Sum(xs) >= |xs|
  {
    if xs != [] {
      SumAtLeastLength(xs[..|xs| - 1]);
    }
  }
}
