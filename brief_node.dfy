/** The neutral syntax tree of astexplorer/brief_node.py: `BriefVariable`,
    `BriefVariableSet` and `BriefNode`, with `explore_variables`.

    A `BriefNode` is a value here: every pass that the source runs in place
    over a tree is a function that returns the rewritten tree. The body
    dictionary keeps Python's insertion order as a sequence of entries. */
module BriefNodes {
  import opened Common

  /** The three naming modes: 'orig', 'index' and 'hash'. */
  datatype VarNames = Original | ByIndex | ByHash

  /** `hash_by_type`: one hash string per naming mode, all '' at creation. */
  datatype Hashes = Hashes(orig: string, index: string, usage: string)
  {
    function Get(mode: VarNames): string
    {
      match mode
      case Original => orig
      case ByIndex => index
      case ByHash => usage
    }

    function Set(mode: VarNames, h: string): (r: Hashes)
      ensures r.Get(mode) == h
      ensures forall m :: m != mode ==> r.Get(m) == Get(m)
    {
      match mode
      case Original => this.(orig := h)
      case ByIndex => this.(index := h)
      case ByHash => this.(usage := h)
    }
  }

  const NoHashes := Hashes("", "", "")

  // ---------------------------------------------------------------------
  // BriefVariable and BriefVariableSet
  // ---------------------------------------------------------------------

  datatype Variable = Variable(name: string, blockIndex: string, usageHash: string)
  {
    /** `BriefVariable.copy`: a new variable with the same three fields. */
    function Copy(): (r: Variable)
      ensures r.name == name && r.blockIndex == blockIndex && r.usageHash == usageHash
    {
      Variable(name, blockIndex, usageHash)
    }
  }

  /** `BriefVariable(name)`: no block index and no usage hash yet. */
  function NewVariable(name: string): Variable
  {
    Variable(name, "", "")
  }

  /** The names of a list of variables, in order. */
  function Names(vs: seq<Variable>): (r: seq<string>)
    ensures |r| == |vs|
    ensures forall i | 0 <= i < |vs| :: r[i] == vs[i].name
  {
    seq(|vs|, i requires 0 <= i < |vs| => vs[i].name)
  }

  /** The set of names of a list of variables. */
  function NameSet(vs: seq<Variable>): set<string>
  {
    set v | v in vs :: v.name
  }

  /** Appending one variable adds its name. */
  lemma NameSetAppend(vs: seq<Variable>, v: Variable)
    ensures NameSet(vs + [v]) == NameSet(vs) + {v.name}
  {
    assert forall u | u in vs + [v] :: u in vs || u == v;
  }

  /** `BriefVariableSet`: an append-only list of variables and a map from a
      name to the position of the variable most recently added under it. */
  datatype VariableSet = VariableSet(variables: seq<Variable>, indexByName: map<string, int>)
  {
    /** Every map entry indexes a variable of that name, and the indexed
        names are exactly the variables' names. */
    predicate Valid()
    {
      (forall name {:trigger indexByName[name]} | name in indexByName ::
         0 <= indexByName[name] < |variables| && variables[indexByName[name]].name == name) &&
      indexByName.Keys == NameSet(variables)
    }

    /** The lookup of `name` stays inside the list (Python raises otherwise). */
    predicate IndexOk(name: string)
    {
      name in indexByName ==> 0 <= indexByName[name] < |variables|
    }

    /** `find_var`: the indexed variable, or None when the name has no entry;
        in a valid set the variable found carries the name looked up. */
    function FindVar(name: string): (r: Option<Variable>)
      requires IndexOk(name)
      ensures r.None? <==> name !in indexByName
      ensures r.Some? ==> r.value == variables[indexByName[name]]
      ensures r.Some? && Valid() ==> r.value.name == name
    {
      if name in indexByName then Some(variables[indexByName[name]]) else None
    }

    /** `add_variable`: append a fresh variable, even for a name already
        present, and point the name at it. */
    function AddVariable(name: string): (r: VariableSet)
      ensures |r.variables| == |variables| + 1
      ensures r.variables[..|variables|] == variables
      ensures r.variables[|variables|] == NewVariable(name)
      ensures r.indexByName.Keys == indexByName.Keys + {name}
      ensures r.indexByName[name] == |variables|
      ensures forall k | k in indexByName && k != name :: r.indexByName[k] == indexByName[k]
      ensures Valid() ==> r.Valid()
    {
      VariableSet(variables + [NewVariable(name)], indexByName[name := |variables|])
    }

    /** One step of `update`: copy `v` in unless its name is already known. */
    function Absorb(v: Variable): VariableSet
    {
      if v.name in indexByName then this
      else VariableSet(variables + [v.Copy()], indexByName[v.name := |variables|])
    }
  }

  const EmptyVariables := VariableSet([], map[])

  /** What `update(subset)` leaves behind: the subset's variables absorbed in
      order. */
  function Merged(vs: VariableSet, subset: seq<Variable>): VariableSet
    decreases |subset|
  {
    if subset == [] then vs else Merged(vs.Absorb(subset[0]), subset[1..])
  }

  /** `BriefVariableSet.update`, as the source runs it: a loop over the
      subset that skips names already indexed. */
  method Update(vs: VariableSet, subset: VariableSet) returns (r: VariableSet)
    ensures r == Merged(vs, subset.variables)
  {
    r := vs;
    var i := 0;
    while i < |subset.variables|
      invariant 0 <= i <= |subset.variables|
      invariant Merged(r, subset.variables[i..]) == Merged(vs, subset.variables)
    {
      var v := subset.variables[i];
      assert subset.variables[i..][1..] == subset.variables[i + 1..];
      if v.name !in r.indexByName {
        r := VariableSet(r.variables + [v.Copy()], r.indexByName[v.name := |r.variables|]);
      }
      i := i + 1;
    }
    assert subset.variables[i..] == [];
  }

  /** The variables of `subset` that `update` copies in, given the names
      already `seen`: the first variable of each name not seen before, in
      subset order. */
  function FirstUnseen(subset: seq<Variable>, seen: set<string>): seq<Variable>
  {
    if subset == [] then []
    else if subset[0].name in seen then FirstUnseen(subset[1..], seen)
    else [subset[0]] + FirstUnseen(subset[1..], seen + {subset[0].name})
  }

  /** `update` keeps every existing entry, appends exactly the first unseen
      variable of each new name in subset order, and indexes every subset name. */
  lemma {:induction false} MergedAppendsUnseen(vs: VariableSet, subset: seq<Variable>)
    ensures Merged(vs, subset).variables == vs.variables + FirstUnseen(subset, vs.indexByName.Keys)
    ensures Merged(vs, subset).indexByName.Keys == vs.indexByName.Keys + NameSet(subset)
    ensures forall name | name in vs.indexByName :: Merged(vs, subset).indexByName[name] == vs.indexByName[name]
    decreases |subset|
  {
    if subset != [] {
      var v := subset[0];
      var next := vs.Absorb(v);
      MergedAppendsUnseen(next, subset[1..]);
      assert subset == [v] + subset[1..];
      assert NameSet(subset) == {v.name} + NameSet(subset[1..]);
      assert v.Copy() == v;
      if v.name !in vs.indexByName {
        assert next.variables == vs.variables + [v];
        assert next.indexByName.Keys == vs.indexByName.Keys + {v.name};
        assert (vs.variables + [v]) + FirstUnseen(subset[1..], vs.indexByName.Keys + {v.name})
            == vs.variables + ([v] + FirstUnseen(subset[1..], vs.indexByName.Keys + {v.name}));
        assert FirstUnseen(subset, vs.indexByName.Keys) == [v] + FirstUnseen(subset[1..], vs.indexByName.Keys + {v.name});
      }
    }
  }

  /** `update` preserves the set's invariant. */
  lemma {:induction false} MergedValid(vs: VariableSet, subset: seq<Variable>)
    requires vs.Valid()
    ensures Merged(vs, subset).Valid()
    decreases |subset|
  {
    if subset != [] {
      var next := vs.Absorb(subset[0]);
      assert next.Valid();
      MergedValid(next, subset[1..]);
    }
  }

  /** The names `FirstUnseen` keeps are new and pairwise distinct. */
  lemma {:induction false} FirstUnseenFresh(subset: seq<Variable>, seen: set<string>)
    ensures forall i | 0 <= i < |FirstUnseen(subset, seen)| ::
      FirstUnseen(subset, seen)[i] in subset && FirstUnseen(subset, seen)[i].name !in seen
    ensures forall i, j | 0 <= i < j < |FirstUnseen(subset, seen)| ::
      FirstUnseen(subset, seen)[i].name != FirstUnseen(subset, seen)[j].name
  {
    if subset != [] {
      FirstUnseenFresh(subset[1..], seen);
      FirstUnseenFresh(subset[1..], seen + {subset[0].name});
    }
  }

  // ---------------------------------------------------------------------
  // BriefNode
  // ---------------------------------------------------------------------

  /** One entry of the `body` dictionary. */
  datatype BodyEntry = BodyEntry(key: string, items: seq<Node>)

  /** `BriefNode`. The source's `function` field (the construct's kind) is
      called `kind` because `function` is a Dafny keyword. */
  datatype Node = Node(
    kind: string,
    id: string,
    instance: Option<string>,
    arguments: seq<Node>,
    body: seq<BodyEntry>,
    weight: int,
    depth: int,
    hashes: Hashes,
    variables: VariableSet,
    lineStart: int,
    lineEnd: int)

  /** `BriefNode(function)`: id equal to the kind, nothing else set. */
  function NewNode(kind: string): Node
  {
    Node(kind, kind, None, [], [], 0, 0, NoHashes, EmptyVariables, 0, 0)
  }

  // ----- generic traversal ------------------------------------------------

  /** `p` holds of every node of the tree: the node itself, its arguments and
      every node of every body list, recursively. */
  predicate Every(p: Node -> bool, n: Node)
    decreases n
  {
    p(n) && EveryIn(p, n.arguments) && EveryInBody(p, n.body)
  }

  predicate EveryIn(p: Node -> bool, s: seq<Node>)
    decreases s
  {
    forall i | 0 <= i < |s| :: Every(p, s[i])
  }

  predicate EveryInBody(p: Node -> bool, b: seq<BodyEntry>)
    decreases b
  {
    forall j | 0 <= j < |b| :: EveryIn(p, b[j].items)
  }

  /** Where `Every` holds of a node, it holds of each argument and of each
      tree in each body list. */
  lemma EveryChildren(p: Node -> bool, n: Node)
    requires Every(p, n)
    ensures p(n)
    ensures forall i | 0 <= i < |n.arguments| :: Every(p, n.arguments[i])
    ensures forall j, i | 0 <= j < |n.body| && 0 <= i < |n.body[j].items| :: Every(p, n.body[j].items[i])
  {
    forall j, i | 0 <= j < |n.body| && 0 <= i < |n.body[j].items|
      ensures Every(p, n.body[j].items[i])
    {
      assert EveryIn(p, n.body[j].items);
    }
  }

  /** The tree with `f` applied to every node; `f` is meant to change only a
      node's own fields, its children are replaced by their images. */
  function MapTree(f: Node -> Node, n: Node): Node
    decreases n
  {
    f(n).(arguments := MapList(f, n.arguments), body := MapBody(f, n.body))
  }

  function MapList(f: Node -> Node, s: seq<Node>): (r: seq<Node>)
    ensures |r| == |s|
    decreases s
  {
    seq(|s|, i requires 0 <= i < |s| => MapTree(f, s[i]))
  }

  function MapBody(f: Node -> Node, b: seq<BodyEntry>): (r: seq<BodyEntry>)
    ensures |r| == |b|
    decreases b
  {
    seq(|b|, j requires 0 <= j < |b| => BodyEntry(b[j].key, MapList(f, b[j].items)))
  }

  /** `g` rewrites only a node's own fields and leaves its children alone. */
  ghost predicate KeepsChildren(g: Node -> Node)
  {
    forall m :: g(m).arguments == m.arguments && g(m).body == m.body
  }

  /** A node without its children: the fields a per-node rewrite may touch. */
  function Own(m: Node): Node
  {
    m.(arguments := [], body := [])
  }

  lemma MapListAt(g: Node -> Node, s: seq<Node>, i: int)
    requires 0 <= i < |s|
    ensures MapList(g, s)[i] == MapTree(g, s[i])
  {
  }

  lemma MapBodyAt(g: Node -> Node, b: seq<BodyEntry>, j: int)
    requires 0 <= j < |b|
    ensures MapBody(g, b)[j] == BodyEntry(b[j].key, MapList(g, b[j].items))
  {
  }

  /** Equal images under `MapList(g, _)` are equal tree by tree. */
  lemma MapListParts(g: Node -> Node, s: seq<Node>, t: seq<Node>)
    requires MapList(g, s) == MapList(g, t)
    ensures |s| == |t|
    ensures forall i | 0 <= i < |s| :: MapTree(g, s[i]) == MapTree(g, t[i])
  {
    forall i | 0 <= i < |s| ensures MapTree(g, s[i]) == MapTree(g, t[i]) {
      MapListAt(g, s, i);
      MapListAt(g, t, i);
    }
  }

  /** Lists whose trees pairwise have equal images have equal images. */
  lemma MapListEqual(g: Node -> Node, s: seq<Node>, t: seq<Node>)
    requires |s| == |t|
    requires forall i | 0 <= i < |s| :: MapTree(g, s[i]) == MapTree(g, t[i])
    ensures MapList(g, s) == MapList(g, t)
  {
    forall i | 0 <= i < |s| ensures MapList(g, s)[i] == MapList(g, t)[i] {
      MapListAt(g, s, i);
      MapListAt(g, t, i);
    }
  }

  /** Equal images under `MapBody(g, _)` have the same keys and equal lists. */
  lemma MapBodyParts(g: Node -> Node, b: seq<BodyEntry>, c: seq<BodyEntry>)
    requires MapBody(g, b) == MapBody(g, c)
    ensures |b| == |c|
    ensures forall j | 0 <= j < |b| :: b[j].key == c[j].key && MapList(g, b[j].items) == MapList(g, c[j].items)
  {
    forall j | 0 <= j < |b| ensures b[j].key == c[j].key && MapList(g, b[j].items) == MapList(g, c[j].items) {
      MapBodyAt(g, b, j);
      MapBodyAt(g, c, j);
    }
  }

  lemma MapBodyEqual(g: Node -> Node, b: seq<BodyEntry>, c: seq<BodyEntry>)
    requires |b| == |c|
    requires forall j | 0 <= j < |b| :: b[j].key == c[j].key && MapList(g, b[j].items) == MapList(g, c[j].items)
    ensures MapBody(g, b) == MapBody(g, c)
  {
    forall j | 0 <= j < |b| ensures MapBody(g, b)[j] == MapBody(g, c)[j] {
      MapBodyAt(g, b, j);
      MapBodyAt(g, c, j);
    }
  }

  /** `MapTree` keeps `g`'s image of the node and maps the children. */
  lemma MapTreeRoot(g: Node -> Node, a: Node)
    ensures Own(MapTree(g, a)) == Own(g(a))
    ensures MapTree(g, a).arguments == MapList(g, a.arguments)
    ensures MapTree(g, a).body == MapBody(g, a.body)
  {
  }

  /** The children of `MapTree(g, a)` are the images of `a`'s children,
      under the same keys. */
  lemma MapTreeChildren(g: Node -> Node, a: Node)
    ensures |MapTree(g, a).arguments| == |a.arguments| && |MapTree(g, a).body| == |a.body|
    ensures forall i | 0 <= i < |a.arguments| :: MapTree(g, a).arguments[i] == MapTree(g, a.arguments[i])
    ensures forall j | 0 <= j < |a.body| :: MapTree(g, a).body[j].key == a.body[j].key
  {
  }

  /** Two trees have the same image under `MapTree(g, _)` exactly when their
      nodes have the same image under `g` and their children do, pairwise. */
  lemma MapTreeParts(g: Node -> Node, a: Node, b: Node)
    requires MapTree(g, a) == MapTree(g, b)
    ensures Own(g(a)) == Own(g(b))
    ensures MapList(g, a.arguments) == MapList(g, b.arguments)
    ensures MapBody(g, a.body) == MapBody(g, b.body)
  {
    MapTreeOwn(g, a, b);
    MapTreeArguments(g, a, b);
    MapTreeBodies(g, a, b);
  }

  lemma MapTreeOwn(g: Node -> Node, a: Node, b: Node)
    requires MapTree(g, a) == MapTree(g, b)
    ensures Own(g(a)) == Own(g(b))
  {
  }

  lemma MapTreeArguments(g: Node -> Node, a: Node, b: Node)
    requires MapTree(g, a) == MapTree(g, b)
    ensures MapList(g, a.arguments) == MapList(g, b.arguments)
  {
  }

  lemma MapTreeBodies(g: Node -> Node, a: Node, b: Node)
    requires MapTree(g, a) == MapTree(g, b)
    ensures MapBody(g, a.body) == MapBody(g, b.body)
  {
  }

  lemma MapTreeEqual(g: Node -> Node, a: Node, b: Node)
    requires Own(g(a)) == Own(g(b))
    requires MapList(g, a.arguments) == MapList(g, b.arguments)
    requires MapBody(g, a.body) == MapBody(g, b.body)
    ensures MapTree(g, a) == MapTree(g, b)
  {
  }

  /** `g` reads and writes only a node's own fields. */
  ghost predicate Local(g: Node -> Node)
  {
    KeepsChildren(g) && forall m :: Own(g(Own(m))) == Own(g(m))
  }

  /** Applying a local rewrite `f` under a local rewrite `g` that undoes
      whatever `f` changes is the same as applying `g` alone. */
  lemma {:induction false} MapTreeAbsorb(f: Node -> Node, g: Node -> Node, n: Node)
    requires Local(f) && Local(g)
    requires forall m :: Own(g(f(m))) == Own(g(m))
    ensures MapTree(g, MapTree(f, n)) == MapTree(g, n)
    decreases n
  {
    var fn := MapTree(f, n);
    MapTreeRoot(f, n);
    assert Own(g(fn)) == Own(g(Own(fn))) == Own(g(Own(f(n)))) == Own(g(f(n))) == Own(g(n));
    forall i | 0 <= i < |n.arguments| ensures MapTree(g, fn.arguments[i]) == MapTree(g, n.arguments[i]) {
      MapListAt(f, n.arguments, i);
      MapTreeAbsorb(f, g, n.arguments[i]);
    }
    MapListEqual(g, fn.arguments, n.arguments);
    forall j | 0 <= j < |n.body|
      ensures fn.body[j].key == n.body[j].key && MapList(g, fn.body[j].items) == MapList(g, n.body[j].items)
    {
      MapBodyAt(f, n.body, j);
      forall i | 0 <= i < |n.body[j].items|
        ensures MapTree(g, fn.body[j].items[i]) == MapTree(g, n.body[j].items[i])
      {
        MapListAt(f, n.body[j].items, i);
        MapTreeAbsorb(f, g, n.body[j].items[i]);
      }
      MapListEqual(g, fn.body[j].items, n.body[j].items);
    }
    MapBodyEqual(g, fn.body, n.body);
    MapTreeEqual(g, fn, n);
  }

  /** A property of a node's own fields carries over between trees with the
      same image under a rewrite `g` that does not change it. */
  lemma {:induction false} EveryTransfer(p: Node -> bool, g: Node -> Node, a: Node, b: Node)
    requires forall m :: p(g(m)) == p(m)
    requires forall m :: p(Own(m)) == p(m)
    requires MapTree(g, a) == MapTree(g, b)
    requires Every(p, a)
    ensures Every(p, b)
    decreases a
  {
    MapTreeParts(g, a, b);
    MapListParts(g, a.arguments, b.arguments);
    MapBodyParts(g, a.body, b.body);
    EveryChildren(p, a);
    assert p(Own(g(a))) == p(Own(g(b)));
    forall i | 0 <= i < |b.arguments| ensures Every(p, b.arguments[i]) {
      EveryTransfer(p, g, a.arguments[i], b.arguments[i]);
    }
    forall j, i | 0 <= j < |b.body| && 0 <= i < |b.body[j].items| ensures Every(p, b.body[j].items[i]) {
      MapListParts(g, a.body[j].items, b.body[j].items);
      EveryTransfer(p, g, a.body[j].items[i], b.body[j].items[i]);
    }
  }

  /** Per-node erasures: a pass that changes only the erased fields leaves
      the erased tree unchanged. */
  function StripWeight(m: Node): Node
  {
    m.(weight := 0, depth := 0)
  }

  function StripHashes(m: Node): Node
  {
    m.(hashes := NoHashes)
  }

  function StripVariables(m: Node): Node
  {
    m.(variables := EmptyVariables)
  }

  /** The node with every variable's usage hash cleared. */
  function StripUsage(m: Node): Node
  {
    m.(variables := m.variables.(variables := seq(|m.variables.variables|,
        i requires 0 <= i < |m.variables.variables| => m.variables.variables[i].(usageHash := ""))))
  }

  /** The number of nodes of a tree, for termination arguments. */
  function Size(n: Node): nat
    decreases n
  {
    1 + SizeIn(n.arguments) + SizeInBody(n.body)
  }

  function SizeIn(s: seq<Node>): nat
    decreases s
  {
    if s == [] then 0 else Size(s[0]) + SizeIn(s[1..])
  }

  function SizeInBody(b: seq<BodyEntry>): nat
    decreases b
  {
    if b == [] then 0 else SizeIn(b[0].items) + SizeInBody(b[1..])
  }

  lemma {:induction false} SizeInBounds(s: seq<Node>, i: int)
    requires 0 <= i < |s|
    ensures Size(s[i]) <= SizeIn(s)
  {
    if i > 0 { SizeInBounds(s[1..], i - 1); }
  }

  lemma {:induction false} SizeInBodyBounds(b: seq<BodyEntry>, j: int)
    requires 0 <= j < |b|
    ensures SizeIn(b[j].items) <= SizeInBody(b)
  {
    if j > 0 { SizeInBodyBounds(b[1..], j - 1); }
  }

  /** A list nested in a body of a node of `s` is smaller than `s`. */
  lemma NestedListSmaller(s: seq<Node>, i: int, j: int)
    requires 0 <= i < |s| && 0 <= j < |s[i].body|
    ensures SizeIn(s[i].body[j].items) < SizeIn(s)
  {
    SizeInBounds(s, i);
    SizeInBodyBounds(s[i].body, j);
  }

  /** `x` is one of the nodes of the trees of `s`. */
  predicate InForest(x: Node, s: seq<Node>)
    decreases s
  {
    exists i | 0 <= i < |s| :: InTree(x, s[i])
  }

  predicate InTree(x: Node, n: Node)
    decreases n
  {
    x == n || InForest(x, n.arguments) ||
    exists j | 0 <= j < |n.body| :: InForest(x, n.body[j].items)
  }

  /** A node inside a body list of a node of `s` is a node of `s`'s trees. */
  lemma NestedInForest(x: Node, s: seq<Node>, i: int, j: int)
    requires 0 <= i < |s| && 0 <= j < |s[i].body|
    requires InForest(x, s[i].body[j].items)
    ensures InForest(x, s)
  {
    assert InTree(x, s[i]);
  }

  // ----- explore_variables ------------------------------------------------

  /** The block-index loop at the end of `explore_variables`: variable i gets
      block index str(i). */
  function Renumber(vs: VariableSet): (r: VariableSet)
    ensures |r.variables| == |vs.variables| && r.indexByName == vs.indexByName
    ensures forall i | 0 <= i < |r.variables| ::
      r.variables[i].blockIndex == NatToString(i) &&
      r.variables[i].name == vs.variables[i].name &&
      r.variables[i].usageHash == vs.variables[i].usageHash
    ensures vs.Valid() ==> r.Valid()
  {
    VariableSet(
      seq(|vs.variables|, i requires 0 <= i < |vs.variables| => vs.variables[i].(blockIndex := NatToString(i))),
      vs.indexByName)
  }

  /** The set a Name or NameConstant node starts from: its own id first. */
  function OwnVariables(n: Node): VariableSet
  {
    if n.kind == "Name" || n.kind == "NameConstant" then n.variables.AddVariable(n.id) else n.variables
  }

  /** `BriefNode.explore_variables`: the node's own name (for Name and
      NameConstant), then each body child's variables, then each argument's,
      merged first-seen; then block indices are renumbered. */
  function Explore(n: Node): (r: Node)
    ensures r.kind == n.kind && r.id == n.id && r.instance == n.instance
    ensures |r.arguments| == |n.arguments| && |r.body| == |n.body|
    ensures forall j | 0 <= j < |n.body| :: r.body[j].key == n.body[j].key && |r.body[j].items| == |n.body[j].items|
    decreases n
  {
    var (body', withBody) := ExploreBody(n.body, OwnVariables(n));
    var (arguments', withArgs) := ExploreList(n.arguments, withBody);
    n.(body := body', arguments := arguments', variables := Renumber(withArgs))
  }

  /** Explore each node of `s` in order and merge its variables into `vs`. */
  function ExploreList(s: seq<Node>, vs: VariableSet): (r: (seq<Node>, VariableSet))
    ensures |r.0| == |s|
    decreases s
  {
    if s == [] then ([], vs)
    else
      var c := Explore(s[0]);
      var rest := ExploreList(s[1..], Merged(vs, c.variables.variables));
      ([c] + rest.0, rest.1)
  }

  function ExploreBody(b: seq<BodyEntry>, vs: VariableSet): (r: (seq<BodyEntry>, VariableSet))
    ensures |r.0| == |b|
    ensures forall j | 0 <= j < |b| :: r.0[j].key == b[j].key && |r.0[j].items| == |b[j].items|
    decreases b
  {
    if b == [] then ([], vs)
    else
      var first := ExploreList(b[0].items, vs);
      var rest := ExploreBody(b[1..], first.1);
      ([BodyEntry(b[0].key, first.0)] + rest.0, rest.1)
  }

  /** The names of a node's variables. */
  function KnownNames(n: Node): set<string>
  {
    NameSet(n.variables.variables)
  }

  /** The names known in any node of a list. */
  function KnownIn(s: seq<Node>): set<string>
  {
    if s == [] then {} else KnownNames(s[0]) + KnownIn(s[1..])
  }

  function KnownInBody(b: seq<BodyEntry>): set<string>
  {
    if b == [] then {} else KnownIn(b[0].items) + KnownInBody(b[1..])
  }

  lemma RenumberNames(vs: VariableSet)
    ensures NameSet(Renumber(vs).variables) == NameSet(vs.variables)
  {
    var r := Renumber(vs);
    forall name | name in NameSet(r.variables) ensures name in NameSet(vs.variables) {
      var i :| 0 <= i < |r.variables| && r.variables[i].name == name;
      assert vs.variables[i] in vs.variables;
    }
    forall name | name in NameSet(vs.variables) ensures name in NameSet(r.variables) {
      var i :| 0 <= i < |vs.variables| && vs.variables[i].name == name;
      assert r.variables[i] in r.variables;
    }
  }

  /** After `explore_variables`, the variable set is valid, every variable i
      has block index str(i), and the names the node started with (its own
      id first, for Name and NameConstant) keep their positions. */
  lemma {:induction false} ExploreSpec(n: Node)
    requires n.variables.Valid()
    ensures var r := Explore(n);
      r.variables.Valid() &&
      (forall i | 0 <= i < |r.variables.variables| :: r.variables.variables[i].blockIndex == NatToString(i)) &&
      |r.variables.variables| >= |OwnVariables(n).variables| &&
      Names(r.variables.variables)[..|OwnVariables(n).variables|] == Names(OwnVariables(n).variables)
  {
    var own := OwnVariables(n);
    var (body', withBody) := ExploreBody(n.body, own);
    var (arguments', withArgs) := ExploreList(n.arguments, withBody);
    ExploreBodySpec(n.body, own);
    ExploreListSpec(n.arguments, withBody);
    ExploreBodyValid(n.body, own);
    ExploreListValid(n.arguments, withBody);
    assert Explore(n).variables == Renumber(withArgs);
    assert withArgs.variables[..|own.variables|] == own.variables;
  }

  lemma OwnVariablesKnown(n: Node)
    ensures OwnVariables(n).indexByName.Keys ==
            n.variables.indexByName.Keys + (if n.kind == "Name" || n.kind == "NameConstant" then {n.id} else {})
  {
    if n.kind == "Name" || n.kind == "NameConstant" {
      var added := n.variables.AddVariable(n.id);
      assert OwnVariables(n) == added;
    }
  }

  /** After `explore_variables` the node knows exactly its own id (for Name
      and NameConstant), the names it started with and every name its
      explored children know. */
  lemma ExploreKnows(n: Node)
    requires n.variables.Valid()
    ensures var r := Explore(n);
      KnownNames(r) == KnownNames(n) + (if n.kind == "Name" || n.kind == "NameConstant" then {n.id} else {}) +
                       KnownInBody(r.body) + KnownIn(r.arguments)
  {
    var own := OwnVariables(n);
    var (body', withBody) := ExploreBody(n.body, own);
    var (arguments', withArgs) := ExploreList(n.arguments, withBody);
    ExploreBodySpec(n.body, own);
    ExploreListSpec(n.arguments, withBody);
    ExploreBodyValid(n.body, own);
    ExploreListValid(n.arguments, withBody);
    var r := Explore(n);
    var extra := if n.kind == "Name" || n.kind == "NameConstant" then {n.id} else {};
    assert r.variables == Renumber(withArgs) && r.body == body' && r.arguments == arguments';
    calc {
      KnownNames(r);
      { RenumberNames(withArgs); }
      NameSet(withArgs.variables);
      withBody.indexByName.Keys + KnownIn(arguments');
      own.indexByName.Keys + KnownInBody(body') + KnownIn(arguments');
      { OwnVariablesKnown(n); }
      KnownNames(n) + extra + KnownInBody(body') + KnownIn(arguments');
    }
  }

  /** Exploring a list keeps the variables gathered so far as a prefix and
      adds every name the explored nodes know. */
  lemma {:induction false} ExploreListSpec(s: seq<Node>, vs: VariableSet)
    ensures var r := ExploreList(s, vs);
      |r.1.variables| >= |vs.variables| && r.1.variables[..|vs.variables|] == vs.variables &&
      r.1.indexByName.Keys == vs.indexByName.Keys + KnownIn(r.0)
  {
    if s != [] {
      var c := Explore(s[0]);
      var merged := Merged(vs, c.variables.variables);
      MergedAppendsUnseen(vs, c.variables.variables);
      ExploreListSpec(s[1..], merged);
      var r := ExploreList(s, vs);
      var rest := ExploreList(s[1..], merged);
      assert r.0 == [c] + rest.0;
      assert r.0[0] == c && r.0[1..] == rest.0;
      assert KnownIn(r.0) == KnownNames(c) + KnownIn(rest.0);
      assert r.1 == rest.1;
      assert merged.variables[..|vs.variables|] == vs.variables;
      assert r.1.variables[..|merged.variables|] == merged.variables;
      assert r.1.variables[..|vs.variables|] == merged.variables[..|vs.variables|];
    }
  }

  lemma {:induction false} ExploreBodySpec(b: seq<BodyEntry>, vs: VariableSet)
    ensures var r := ExploreBody(b, vs);
      |r.1.variables| >= |vs.variables| && r.1.variables[..|vs.variables|] == vs.variables &&
      r.1.indexByName.Keys == vs.indexByName.Keys + KnownInBody(r.0)
  {
    if b != [] {
      var first := ExploreList(b[0].items, vs);
      ExploreListSpec(b[0].items, vs);
      ExploreBodySpec(b[1..], first.1);
      var r := ExploreBody(b, vs);
      var rest := ExploreBody(b[1..], first.1);
      assert r.0 == [BodyEntry(b[0].key, first.0)] + rest.0;
      assert r.0[0].items == first.0 && r.0[1..] == rest.0;
      assert KnownInBody(r.0) == KnownIn(first.0) + KnownInBody(rest.0);
      assert r.1 == rest.1;
      assert r.1.variables[..|first.1.variables|] == first.1.variables;
      assert r.1.variables[..|vs.variables|] == first.1.variables[..|vs.variables|];
    }
  }

  /** Merging explored children into a valid set leaves a valid set. */
  lemma {:induction false} ExploreListValid(s: seq<Node>, vs: VariableSet)
    requires vs.Valid()
    ensures ExploreList(s, vs).1.Valid()
  {
    if s != [] {
      var c := Explore(s[0]);
      MergedValid(vs, c.variables.variables);
      ExploreListValid(s[1..], Merged(vs, c.variables.variables));
    }
  }

  lemma {:induction false} ExploreBodyValid(b: seq<BodyEntry>, vs: VariableSet)
    requires vs.Valid()
    ensures ExploreBody(b, vs).1.Valid()
  {
    if b != [] {
      ExploreListValid(b[0].items, vs);
      ExploreBodyValid(b[1..], ExploreList(b[0].items, vs).1);
    }
  }

  /** A rewrite after which `p` holds of every node, where `p` reads only
      the node's own fields, leaves `p` true everywhere. */
  lemma {:induction false} EveryMapTree(p: Node -> bool, f: Node -> Node, n: Node)
    requires forall m :: p(f(m))
    requires forall m :: p(Own(m)) == p(m)
    ensures Every(p, MapTree(f, n))
    decreases n
  {
    var r := MapTree(f, n);
    MapTreeRoot(f, n);
    assert p(Own(r)) && p(r);
    forall i | 0 <= i < |r.arguments| ensures Every(p, r.arguments[i]) {
      MapListAt(f, n.arguments, i);
      EveryMapTree(p, f, n.arguments[i]);
    }
    forall j, i | 0 <= j < |r.body| && 0 <= i < |r.body[j].items| ensures Every(p, r.body[j].items[i]) {
      MapBodyAt(f, n.body, j);
      MapListAt(f, n.body[j].items, i);
      EveryMapTree(p, f, n.body[j].items[i]);
    }
    assert EveryIn(p, r.arguments) && EveryInBody(p, r.body);
  }

  /** Position `i` of an explored list is the exploration of the i-th node. */
  lemma {:induction false} ExploreListAt(s: seq<Node>, vs: VariableSet, i: int)
    requires 0 <= i < |s|
    ensures ExploreList(s, vs).0[i] == Explore(s[i])
    decreases s
  {
    if i > 0 {
      ExploreListAt(s[1..], Merged(vs, Explore(s[0]).variables.variables), i - 1);
    }
  }

  /** Position `i` of list `j` of an explored body is the exploration of the
      matching node; keys and list lengths are kept. */
  lemma {:induction false} ExploreBodyAt(b: seq<BodyEntry>, vs: VariableSet, j: int)
    requires 0 <= j < |b|
    ensures var r := ExploreBody(b, vs).0;
      r[j].key == b[j].key && |r[j].items| == |b[j].items| &&
      forall i | 0 <= i < |b[j].items| :: r[j].items[i] == Explore(b[j].items[i])
    decreases b
  {
    var first := ExploreList(b[0].items, vs);
    if j > 0 {
      ExploreBodyAt(b[1..], first.1, j - 1);
    } else {
      forall i | 0 <= i < |b[0].items| ensures first.0[i] == Explore(b[0].items[i]) {
        ExploreListAt(b[0].items, vs, i);
      }
    }
  }

  predicate VarsValid(m: Node)
  {
    m.variables.Valid()
  }

  /** Exploring a tree whose variable sets are all valid leaves them all
      valid. */
  lemma {:induction false} ExploreKeepsValid(n: Node)
    requires Every(VarsValid, n)
    ensures Every(VarsValid, Explore(n))
    decreases n
  {
    var r := Explore(n);
    EveryChildren(VarsValid, n);
    ExploreSpec(n);
    var own := OwnVariables(n);
    var withBody := ExploreBody(n.body, own).1;
    forall i | 0 <= i < |r.arguments| ensures Every(VarsValid, r.arguments[i]) {
      ExploreListAt(n.arguments, withBody, i);
      ExploreKeepsValid(n.arguments[i]);
    }
    forall j, i | 0 <= j < |r.body| && 0 <= i < |r.body[j].items| ensures Every(VarsValid, r.body[j].items[i]) {
      ExploreBodyAt(n.body, own, j);
      ExploreKeepsValid(n.body[j].items[i]);
    }
    assert EveryIn(VarsValid, r.arguments) && EveryInBody(VarsValid, r.body);
  }
}
