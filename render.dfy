/** `BriefNode.stringify` and `stringify_expression`: the one-line text of a
    node, in the current version (astexplorer/brief_node.py, which names
    variables in one of three modes and annotates the depth) and in the
    older one (astexplorer/brief_tree.py, which always uses the original
    names and annotates the weight). */
module Render {
  import opened Common
  import opened BriefNodes

  const CompareOpSymbols: map<string, string> :=
    map["Lt" := "<", "Gt" := ">", "Eq" := "==", "NotEq" := "!==",
        "In" := "in", "NotIn" := "not in", "Is" := "is", "IsNot" := "is not"]

  const MathBinOpSymbols: map<string, string> :=
    map["Add" := "+", "Div" := "/", "Mult" := "*", "Sub" := "-", "Pow" := "^", "Mod" := "%"]

  const MathUnaryOpSymbols: map<string, string> := map["USub" := "-", "Not" := "not "]

  /** Which of the two `BriefNode` classes renders. */
  datatype Version = Current | Legacy

  /** The body key holding a While loop's test. */
  function WhileKey(v: Version): string
  {
    if v == Current then "" else "_"
  }

  /** The key and the length of one body list. */
  datatype ListShape = ListShape(key: string, size: nat)

  /** The fields of a node that `stringify_expression` reads, apart from its
      instance, its variables and the texts of its children: kind, id, the
      number of arguments, and the key and length of each body list. */
  datatype Shape = Shape(kind: string, id: string, arity: nat, lists: seq<ListShape>)

  function ShapeOf(n: Node): Shape
  {
    Shape(n.kind, n.id, |n.arguments|,
          seq(|n.body|, j requires 0 <= j < |n.body| => ListShape(n.body[j].key, |n.body[j].items|)))
  }

  /** The position of the first body list under `key`, as a dict lookup. */
  function KeyIndex(ls: seq<ListShape>, key: string): (r: Option<nat>)
    ensures r.Some? ==> r.value < |ls| && ls[r.value].key == key
    ensures r.None? ==> forall j | 0 <= j < |ls| :: ls[j].key != key
  {
    if ls == [] then None
    else if ls[0].key == key then Some(0)
    else match KeyIndex(ls[1..], key)
      case None => None
      case Some(j) => Some(j + 1)
  }

  /** `key in node.body`. */
  predicate HasKey(s: Shape, key: string)
  {
    KeyIndex(s.lists, key).Some?
  }

  /** `key in node.body and len(node.body[key]) > 0`. */
  predicate HasItem(s: Shape, key: string)
  {
    HasKey(s, key) && s.lists[KeyIndex(s.lists, key).value].size > 0
  }

  /** The position of `key` in the node's body. */
  function Slot(s: Shape, key: string): (j: nat)
    requires HasKey(s, key)
    ensures j < |s.lists| && s.lists[j].key == key
  {
    KeyIndex(s.lists, key).value
  }

  /** What `stringify_expression` needs of the node itself so that none of
      its dictionary lookups or indexings raises. */
  predicate RenderableHere(v: Version, n: Node)
  {
    if n.kind == "Name" then true
    else if n.kind == "Attribute" then n.instance.Some?
    else StatementRenderable(v, ShapeOf(n))
  }

  /** The requirements of the remaining kinds, which read the node's shape
      only. */
  predicate StatementRenderable(v: Version, s: Shape)
  {
    var k := s.kind;
    if k == "Assign" then s.arity >= 1 && HasItem(s, "_")
    else if k in MathBinOpSymbols then HasItem(s, "left") && HasItem(s, "right")
    else if k == "AugAssign" then s.arity >= 1 && s.id in MathBinOpSymbols && HasItem(s, "_")
    else if k == "UnaryOp" then s.id in MathUnaryOpSymbols && HasItem(s, "_")
    else if k == "Compare" then s.id in CompareOpSymbols && HasItem(s, "left") && HasKey(s, "comparators")
    else if k == "If" || k == "Elif" then s.arity >= 1
    else if k == "For" then s.arity >= 2
    else if k == "While" then HasItem(s, WhileKey(v))
    else if k == "With" then HasItem(s, "opt_expr") && HasKey(s, "opt_vars")
    else if k == "List" then HasKey(s, "items")
    else if k == "Return" then HasItem(s, "_")
    else if k == "Raise" then HasKey(s, "_") ==> HasItem(s, "_")
    else true
  }

  function RenderableAt(v: Version): Node -> bool
  {
    (n: Node) => RenderableHere(v, n)
  }

  /** Every node of the tree can be rendered. */
  predicate Renderable(v: Version, n: Node)
  {
    Every(RenderableAt(v), n)
  }

  /** `instance.id` when the node has an instance, else `id`. */
  function QualifiedName(n: Node): string
  {
    if n.instance.Some? then n.instance.value + "." + n.id else n.id
  }

  /** What `get_variable_name` needs: the variable lookup stays in the list. */
  predicate NameLookupOk(v: Version, n: Node, mode: VarNames)
  {
    v == Current && (n.kind == "Name" || n.kind == "NameConstant") && mode != Original ==>
      n.variables.IndexOk(QualifiedName(n))
  }

  /** `get_variable_name`: the qualified original name in 'orig' mode or when
      the node knows no variable of that name; otherwise the variable's block
      index ('index' mode) or usage hash ('hash' mode). */
  function VariableName(n: Node, mode: VarNames): (r: string)
    requires mode != Original ==> n.variables.IndexOk(QualifiedName(n))
    ensures mode == Original || QualifiedName(n) !in n.variables.indexByName ==> r == QualifiedName(n)
    ensures mode == ByIndex && QualifiedName(n) in n.variables.indexByName ==>
      r == n.variables.variables[n.variables.indexByName[QualifiedName(n)]].blockIndex
    ensures mode == ByHash && QualifiedName(n) in n.variables.indexByName ==>
      r == n.variables.variables[n.variables.indexByName[QualifiedName(n)]].usageHash
  {
    var name := QualifiedName(n);
    if mode == Original then name
    else match n.variables.FindVar(name)
      case None => name
      case Some(x) => if mode == ByIndex then x.blockIndex else x.usageHash
  }

  /** The number shown in brackets: depth in the current version, weight in
      the older one. */
  function Annotation(v: Version, n: Node): int
  {
    if v == Current then n.depth else n.weight
  }

  /** `stringify`: the expression, followed by ` [annotation]` when the
      annotation is positive. */
  function Stringify(v: Version, n: Node, mode: VarNames): (r: string)
    requires Renderable(v, n) && NameLookupOk(v, n, mode)
    ensures var e := RenderExpr(v, n, mode);
      |e| <= |r| && r[..|e|] == e && (|r| > |e| <==> Annotation(v, n) > 0)
    decreases n, 3
  {
    var e := RenderExpr(v, n, mode);
    if Annotation(v, n) > 0 then e + " [" + NatToString(Annotation(v, n)) + "]" else e
  }

  /** With a positive annotation, the expression is followed by ` [`, the
      decimal digits of the annotation and `]`. */
  lemma {:induction false} StringifyAnnotated(v: Version, n: Node, mode: VarNames)
    requires Renderable(v, n) && NameLookupOk(v, n, mode) && Annotation(v, n) > 0
    ensures var r, e := Stringify(v, n, mode), RenderExpr(v, n, mode);
      |r| >= |e| + 4 && r[|e|..|e| + 2] == " [" && r[|r| - 1] == ']' &&
      r[|e| + 2..|r| - 1] == NatToString(Annotation(v, n)) &&
      DigitsValue(r[|e| + 2..|r| - 1]) == Annotation(v, n)
  {
    var e := RenderExpr(v, n, mode);
    assert Stringify(v, n, mode) == e + " [" + NatToString(Annotation(v, n)) + "]";
    AnnotatedText(e, Annotation(v, n));
  }

  /** The annotation can be read back from the text: two nodes with the same
      expression text and positive annotations render alike exactly when
      their annotations are equal. */
  lemma {:induction false} StringifyAnnotationInjective(v: Version, n: Node, m: Node, mode: VarNames)
    requires Renderable(v, n) && NameLookupOk(v, n, mode) && Annotation(v, n) > 0
    requires Renderable(v, m) && NameLookupOk(v, m, mode) && Annotation(v, m) > 0
    requires RenderExpr(v, n, mode) == RenderExpr(v, m, mode)
    ensures Stringify(v, n, mode) == Stringify(v, m, mode) <==> Annotation(v, n) == Annotation(v, m)
  {
    StringifyAnnotated(v, n, mode);
    StringifyAnnotated(v, m, mode);
    if Annotation(v, n) == Annotation(v, m) {
      assert Stringify(v, n, mode) == RenderExpr(v, n, mode) + " [" + NatToString(Annotation(v, n)) + "]";
    }
  }

  /** `e + " [" + str(d) + "]"` read back: the bracket, the digits of `d`
      and the closing bracket after `e`. */
  lemma {:induction false} AnnotatedText(e: string, d: nat)
    ensures var r := e + " [" + NatToString(d) + "]";
      |r| >= |e| + 4 && r[|e|..|e| + 2] == " [" && r[|r| - 1] == ']' &&
      r[|e| + 2..|r| - 1] == NatToString(d) && DigitsValue(r[|e| + 2..|r| - 1]) == d
  {
    var r := e + " [" + NatToString(d) + "]";
    assert r[|e| + 2..|r| - 1] == NatToString(d);
    NatToStringRoundTrip(d);
  }

  /** The renderings, in 'orig' mode, of a list of sub-expressions. */
  function RenderAll(v: Version, s: seq<Node>): (r: seq<string>)
    requires EveryIn(RenderableAt(v), s)
    ensures |r| == |s|
    decreases s
  {
    seq(|s|, i requires 0 <= i < |s| => Stringify(v, s[i], Original))
  }

  /** The renderings of the lists of a body, list by list. */
  function RenderLists(v: Version, n: Node): (r: seq<seq<string>>)
    requires Renderable(v, n)
    ensures |r| == |n.body| && forall j | 0 <= j < |r| :: |r[j]| == |n.body[j].items|
    decreases n, 0
  {
    EveryChildren(RenderableAt(v), n);
    seq(|n.body|, j requires 0 <= j < |n.body| => RenderAll(v, n.body[j].items))
  }

  /** `stringify_expression`. Sub-expressions are always rendered in 'orig'
      mode; only the node's own name depends on `mode`. */
  function RenderExpr(v: Version, n: Node, mode: VarNames): string
    requires Renderable(v, n) && NameLookupOk(v, n, mode)
    decreases n, 2
  {
    EveryChildren(RenderableAt(v), n);
    Compose(v, n, mode, RenderAll(v, n.arguments), RenderLists(v, n))
  }

  /** The text of a node from its own fields and the renderings of its
      arguments (`args`) and of its body lists (`lists`, aligned with the
      body's keys): names, strings and attributes here, the other kinds in
      `ComposeStatement`. */
  function Compose(v: Version, n: Node, mode: VarNames, args: seq<string>, lists: seq<seq<string>>): string
    requires RenderableHere(v, n) && NameLookupOk(v, n, mode)
    requires |args| == |n.arguments|
    requires |lists| == |n.body| && forall j | 0 <= j < |lists| :: |lists[j]| == |n.body[j].items|
  {
    var k := n.kind;
    if k == "Name" then (if v == Current then VariableName(n, mode) else QualifiedName(n))
    else if k == "NameConstant" then (if v == Current then VariableName(n, mode) else n.id)
    else if k == "Str" then "#str'" + n.id + "'"
    else if k == "Attribute" then n.instance.value + "." + n.id
    else
      var prefix := if n.instance.Some? then n.instance.value + "." else "";
      ComposeStatement(v, ShapeOf(n), prefix, args, lists)
  }

  /** The texts of the lists fit the shape. */
  predicate Fits(s: Shape, args: seq<string>, lists: seq<seq<string>>)
  {
    |args| == s.arity && |lists| == |s.lists| && forall j | 0 <= j < |lists| :: |lists[j]| == s.lists[j].size
  }

  /** The text of the kinds that neither name a variable nor are
      attributes: operators and assignments here, the other kinds in
      `ComposeOther`. */
  function ComposeStatement(v: Version, s: Shape, prefix: string, args: seq<string>, lists: seq<seq<string>>): string
    requires StatementRenderable(v, s) && Fits(s, args, lists)
  {
    var k := s.kind;
    if k == "Assign" then args[0] + "=" + lists[Slot(s, "_")][0]
    else if k in MathBinOpSymbols then
      lists[Slot(s, "left")][0] + MathBinOpSymbols[k] + lists[Slot(s, "right")][0]
    else if k == "AugAssign" then args[0] + MathBinOpSymbols[s.id] + "=" + lists[Slot(s, "_")][0]
    else if k == "UnaryOp" then MathUnaryOpSymbols[s.id] + lists[Slot(s, "_")][0]
    else if k == "Compare" then
      lists[Slot(s, "left")][0] + " " + CompareOpSymbols[s.id] + " " + Join(", ", lists[Slot(s, "comparators")])
    else ComposeOther(v, s, prefix, args, lists)
  }

  /** The text of compound statements, literals, calls and every other
      kind; `prefix` is the instance and a dot, when there is one. */
  function ComposeOther(v: Version, s: Shape, prefix: string, args: seq<string>, lists: seq<seq<string>>): (r: string)
    requires StatementRenderable(v, s) && Fits(s, args, lists)
    requires s.kind != "Assign" && s.kind !in MathBinOpSymbols && s.kind != "AugAssign"
    requires s.kind != "UnaryOp" && s.kind != "Compare"
    ensures s.kind in {"If", "Elif", "For", "While", "With"} ==> |r| >= 1 && r[|r| - 1] == ':'
    ensures s.kind == "Call" ==> |r| >= 2 && r[|r| - 1] == ')'
  {
    var k := s.kind;
    if k == "If" || k == "Elif" then k + " " + args[0] + ":"
    else if k == "For" then k + " " + args[0] + " in " + args[1] + ":"
    else if k == "While" then k + " " + lists[Slot(s, WhileKey(v))][0] + ":"
    else if k == "With" then
      var vars := Join(", ", lists[Slot(s, "opt_vars")]);
      k + " " + lists[Slot(s, "opt_expr")][0] + (if |vars| > 0 then " as " + vars else "") + ":"
    else if k == "Num" then s.id
    else if k == "Tuple" then "Tuple{" + Join(", ", args) + "}"
    else if k == "List" then "#List[" + Join(", ", lists[Slot(s, "items")]) + "]"
    else if k == "Return" then "return " + lists[Slot(s, "_")][0]
    else if k == "Lambda" then Join(", ", args) + " => {}"
    else if k == "Call" then prefix + s.id + "(" + Join(",", args) + ")"
    else if k == "Raise" then "raise " + (if HasKey(s, "_") then lists[Slot(s, "_")][0] else "")
    else if s.id == k then s.id
    else k + " " + prefix + s.id
  }

  /** Whether a node can be rendered depends only on its own fields and on
      the number, keys and lengths of its child lists. */
  lemma RenderableHereOutline(v: Version, x: Node, y: Node)
    requires x.kind == y.kind && (x.kind != "Name" ==> x.id == y.id) && x.instance.Some? == y.instance.Some?
    requires |x.arguments| == |y.arguments| && |x.body| == |y.body|
    requires forall j | 0 <= j < |x.body| :: x.body[j].key == y.body[j].key && |x.body[j].items| == |y.body[j].items|
    ensures RenderableHere(v, x) == RenderableHere(v, y)
  {
    if x.kind != "Name" && x.kind != "Attribute" {
      assert ShapeOf(x) == ShapeOf(y);
    }
  }

  /** A rewrite that keeps children and does not change whether a node can
      be rendered keeps whole trees renderable. */
  lemma {:induction false} RenderableTransfer(v: Version, g: Node -> Node, a: Node, b: Node)
    requires KeepsChildren(g)
    requires forall m :: RenderableHere(v, g(m)) == RenderableHere(v, m)
    requires MapTree(g, a) == MapTree(g, b)
    requires Renderable(v, a)
    ensures Renderable(v, b)
    decreases a
  {
    MapTreeParts(g, a, b);
    MapListParts(g, a.arguments, b.arguments);
    MapBodyParts(g, a.body, b.body);
    forall j | 0 <= j < |a.body| ensures |a.body[j].items| == |b.body[j].items| {
      MapListParts(g, a.body[j].items, b.body[j].items);
    }
    assert g(a).kind == Own(g(a)).kind && g(b).kind == Own(g(b)).kind;
    assert g(a).id == Own(g(a)).id && g(b).id == Own(g(b)).id;
    assert g(a).instance == Own(g(a)).instance && g(b).instance == Own(g(b)).instance;
    RenderableHereOutline(v, g(a), g(b));
    EveryChildren(RenderableAt(v), a);
    assert RenderableHere(v, b);
    forall i | 0 <= i < |b.arguments| ensures Renderable(v, b.arguments[i]) {
      RenderableTransfer(v, g, a.arguments[i], b.arguments[i]);
    }
    forall j, i | 0 <= j < |b.body| && 0 <= i < |b.body[j].items| ensures Renderable(v, b.body[j].items[i]) {
      MapListParts(g, a.body[j].items, b.body[j].items);
      RenderableTransfer(v, g, a.body[j].items[i], b.body[j].items[i]);
    }
    assert EveryIn(RenderableAt(v), b.arguments);
    assert EveryInBody(RenderableAt(v), b.body);
  }

  /** The rendering never looks at hashes: trees that differ only in their
      hashes render alike. */
  lemma {:induction false} StringifyIgnoresHashes(v: Version, a: Node, b: Node, mode: VarNames)
    requires MapTree(StripHashes, a) == MapTree(StripHashes, b)
    requires Renderable(v, a) && NameLookupOk(v, a, mode)
    ensures Renderable(v, b) && NameLookupOk(v, b, mode)
    ensures Stringify(v, a, mode) == Stringify(v, b, mode)
    decreases a, 1
  {
    StripHashesOutline(v);
    RenderableTransfer(v, StripHashes, a, b);
    MapTreeParts(StripHashes, a, b);
    MapBodyParts(StripHashes, a.body, b.body);
    SameOwnFields(a, b);
    EveryChildren(RenderableAt(v), a);
    EveryChildren(RenderableAt(v), b);
    ListIgnoresHashes(v, a.arguments, b.arguments);
    forall j | 0 <= j < |a.body|
      ensures RenderAll(v, a.body[j].items) == RenderAll(v, b.body[j].items)
    {
      ListIgnoresHashes(v, a.body[j].items, b.body[j].items);
    }
    assert RenderLists(v, a) == RenderLists(v, b);
    ComposeCongruence(v, a, b, mode, RenderAll(v, a.arguments), RenderLists(v, a));
    assert RenderExpr(v, a, mode) == RenderExpr(v, b, mode);
  }

  lemma StripHashesOutline(v: Version)
    ensures KeepsChildren(StripHashes)
    ensures forall m :: RenderableHere(v, StripHashes(m)) == RenderableHere(v, m)
  {
    forall m ensures RenderableHere(v, StripHashes(m)) == RenderableHere(v, m) {
      RenderableHereOutline(v, StripHashes(m), m);
    }
  }

  /** Nodes that agree except for hashes and children agree on the fields
      the rendering reads. */
  lemma SameOwnFields(a: Node, b: Node)
    requires Own(StripHashes(a)) == Own(StripHashes(b))
    ensures a.kind == b.kind && a.id == b.id && a.instance == b.instance
    ensures a.variables == b.variables && a.depth == b.depth && a.weight == b.weight
  {
    var x, y := Own(StripHashes(a)), Own(StripHashes(b));
    assert x.kind == a.kind && y.kind == b.kind;
    assert x.id == a.id && y.id == b.id;
    assert x.instance == a.instance && y.instance == b.instance;
    assert x.variables == a.variables && y.variables == b.variables;
    assert x.depth == a.depth && y.depth == b.depth;
    assert x.weight == a.weight && y.weight == b.weight;
  }

  lemma {:induction false} ListIgnoresHashes(v: Version, s: seq<Node>, t: seq<Node>)
    requires MapList(StripHashes, s) == MapList(StripHashes, t)
    requires EveryIn(RenderableAt(v), s)
    ensures EveryIn(RenderableAt(v), t)
    ensures RenderAll(v, s) == RenderAll(v, t)
    decreases s, 0
  {
    MapListParts(StripHashes, s, t);
    forall i | 0 <= i < |s| ensures Renderable(v, t[i]) && Stringify(v, s[i], Original) == Stringify(v, t[i], Original) {
      StringifyIgnoresHashes(v, s[i], t[i], Original);
    }
  }

  /** `stringify_expression` of a node is decided by its own fields, its
      body keys and the renderings of its children. */
  lemma ComposeCongruence(v: Version, a: Node, b: Node, mode: VarNames, args: seq<string>, lists: seq<seq<string>>)
    requires RenderableHere(v, a) && NameLookupOk(v, a, mode)
    requires RenderableHere(v, b) && NameLookupOk(v, b, mode)
    requires |args| == |a.arguments| == |b.arguments|
    requires |lists| == |a.body| == |b.body|
    requires forall j | 0 <= j < |lists| :: |lists[j]| == |a.body[j].items| == |b.body[j].items|
    requires forall j | 0 <= j < |lists| :: a.body[j].key == b.body[j].key
    requires a.kind == b.kind && a.id == b.id && a.instance == b.instance && a.variables == b.variables
    ensures Compose(v, a, mode, args, lists) == Compose(v, b, mode, args, lists)
  {
    assert ShapeOf(a) == ShapeOf(b);
  }

  /** The naming mode matters only for the node's own name: everything else,
      and every sub-expression, renders the same in every mode. The older
      version ignores the mode altogether. */
  lemma ModeOnlyAffectsNames(v: Version, n: Node, m1: VarNames, m2: VarNames)
    requires Renderable(v, n) && NameLookupOk(v, n, m1) && NameLookupOk(v, n, m2)
    requires v == Legacy || (n.kind != "Name" && n.kind != "NameConstant")
    ensures RenderExpr(v, n, m1) == RenderExpr(v, n, m2)
  {
  }

  function ExampleName(id: string): Node
  {
    NewNode("Name").(id := id)
  }

  /** A variable at depth 0 renders as its name, with no annotation. */
  lemma NameExample(id: string)
    ensures Renderable(Current, ExampleName(id)) && Stringify(Current, ExampleName(id), Original) == id
  {
    var n := ExampleName(id);
    assert RenderableAt(Current)(n);
    assert RenderExpr(Current, n, Original) == id;
  }

  /** An assignment renders as `target=value`, from the texts of its first
      argument and of the first item of its `_` list, each rendered in
      'orig' mode with its own annotation. */
  lemma {:induction false} AssignTemplate(v: Version, n: Node, mode: VarNames)
    requires Renderable(v, n) && NameLookupOk(v, n, mode)
    ensures n.kind == "Assign" ==>
      |n.arguments| >= 1 && HasItem(ShapeOf(n), "_") &&
      RenderExpr(v, n, mode) == RenderAll(v, n.arguments)[0] + "=" + RenderLists(v, n)[Slot(ShapeOf(n), "_")][0]
  {
  }

  /** A binary operation renders as `left<op>right`, from the texts of the
      first items of its `left` and `right` lists. */
  lemma {:induction false} BinOpTemplate(v: Version, n: Node, mode: VarNames)
    requires Renderable(v, n) && NameLookupOk(v, n, mode)
    ensures n.kind in MathBinOpSymbols ==>
      HasItem(ShapeOf(n), "left") && HasItem(ShapeOf(n), "right") &&
      RenderExpr(v, n, mode) ==
        RenderLists(v, n)[Slot(ShapeOf(n), "left")][0] + MathBinOpSymbols[n.kind] + RenderLists(v, n)[Slot(ShapeOf(n), "right")][0]
  {
    if n.kind in MathBinOpSymbols {
      assert n.kind != "Name" && n.kind != "NameConstant" && n.kind != "Str" && n.kind != "Attribute" && n.kind != "Assign";
      var prefix := if n.instance.Some? then n.instance.value + "." else "";
      assert RenderExpr(v, n, mode) == ComposeStatement(v, ShapeOf(n), prefix, RenderAll(v, n.arguments), RenderLists(v, n));
    }
  }

  /** A call renders as `instance.name(arg,arg,...)`, from the texts of all
      its arguments. */
  lemma {:induction false} CallTemplate(v: Version, n: Node, mode: VarNames)
    requires Renderable(v, n) && NameLookupOk(v, n, mode)
    ensures n.kind == "Call" ==>
      RenderExpr(v, n, mode) ==
        (if n.instance.Some? then n.instance.value + "." else "") + n.id + "(" + Join(",", RenderAll(v, n.arguments)) + ")"
  {
  }
}
