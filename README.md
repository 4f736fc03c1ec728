# copypastanet clone-detection core, modelled in Dafny

copypastanet finds copy-pasted code in Python projects. Each function is
turned into a tree of `BriefNode`s, a language-neutral syntax tree. A
`FuncTree` holds a function's parameters and top-level statements. Before
comparison, every function goes through three passes:

- `rename_ptrs` replaces parameter names by `#p1`, `#p2`, ….
- `weight_tree` gives each node a weight and a depth.
- `calc_hashes` gives each node a hash in two naming modes. In the 'index'
  mode a variable is shown as its position in the node's variable set. In
  the 'hash' mode it is shown as a hash of all its uses in the function.

`AstComparer` then compares every pair of functions. `find_node_copypastes`
walks the pairs of statements in order, recursing into non-empty body lists.
It opens a `Copypaste` record at the first pair with equal hashes and extends
it while the pairs keep matching. It keeps the records of two or more pairs
whose weight is at least 20.

Around this engine the project has:

- `find_sub_sequences`, a greedy matcher for runs of equal items.
- `FileLines`, a table of line offsets.
- `SourceTreeRender.summarize_node_stats`, which groups functions and
  records by file and rolls statistics up a folder tree.

The model follows the code module by module:

- `Common` (common.dfy): Python's `str()` on naturals, `join`, `sum` and
  `max`.
- `BriefNodes` (brief_node.dfy):
  - the `BriefNode` tree as a `Node` datatype;
  - `BriefVariable` and `BriefVariableSet`;
  - `explore_variables`;
  - generic traversal lemmas.
- `Render` (render.dfy): `stringify`, `stringify_expression` and
  `get_variable_name`. This covers the current version (brief_node.py) and
  the older one (brief_tree.py), which are chosen by a `Version` value.
- `FuncTrees` (func_tree.dfy): `find_suitable_ptr`, `rename_ptrs`, both
  versions of `weight_sub_tree`, `calc_hash` and the variable hashes. The
  `FuncTree` class runs the passes as methods over its `children`.
- `Copypastes` (copypaste.dfy): the `Copypaste` record as a class.
- `CopypasteRuns` (copypaste_runs.dfy): the specification of what the scan
  of the pairs builds. There is one record per maximal run of matching
  pairs, in order.
- `NodeSearch` (node_search.dfy): `Found`, the list of records a call of
  `find_node_copypastes` appends, nested searches included, in the order
  the loops start them.
- `AstComparers` (ast_comparer.dfy): the `AstComparer` class, proved
  against `CopypasteRuns` and `NodeSearch`.
- `Utils` (utils.dfy): `find_sub_sequences`, with its three nested loops.
- `AstParser` (ast_parser.dfy): `FileLines.get_file_lines` and
  `get_line_start_end`.
- `SourceTreeRenders` (source_tree_render.dfy): `summarize_node_stats` and
  `summarize_node_stats_iter`.

Tree passes that the source runs in place are functions returning the
rewritten tree, wrapped by `FuncTree` methods that reassign `children`. No
node is shared between two parents, so no aliasing is lost.

A few of the code's behaviours are followed as written:

- A nested node's stored depth is 0 when it has no children. Only top-level
  statements start from depth 1 (func_tree.py:99, 110, 115).
- After a run, `find_sub_sequences` resumes on the row of the run's last
  pair two columns after that pair. The pair one column after it is never
  compared (astexplorer/utils.py:40-53).
- A carriage return in `get_file_lines` moves the start of the current line
  one place on. It does not shorten the line's end.
- `get_variable_name` reads the variable set of the node on which
  `stringify` was called, not that of the node being rendered. The two are
  the same whenever the naming mode matters, because sub-expressions are
  always rendered in 'orig' mode. The model reads the rendered node's set.

## Model

| member | source | states |
|---|---|---|
| Common.NatToString | astexplorer/brief_node.py:224-225 | `str(n)` is a non-empty string of decimal digits, one digit exactly when n < 10 |
| Common.NatToStringRoundTrip | astexplorer/brief_node.py:224-225 | reading the digits of `str(n)` back gives n |
| Common.NatToStringInjective | astexplorer/func_tree.py:77-79 | distinct positions give distinct block indices and distinct suffixes of the own-variable hashes |
| Common.Join | astexplorer/brief_node.py:157 | `sep.join([])` is empty and `sep.join([x])` is x |
| Common.JoinSnoc | astexplorer/brief_node.py:157 | joining one more part appends the separator and the part to the joined text |
| Common.JoinLength | astexplorer/brief_node.py:157 | the joined text is as long as the parts together plus one separator per gap between them |
| Common.Sum | vizualization/source_tree_render.py:72-73 | a sum of non-negative counts is non-negative |
| Common.MaxOf | vizualization/source_tree_render.py:74 | the result is at least the start value and every element, and equals one of them |
| BriefNodes.Hashes.Set | astexplorer/func_tree.py:48 | writing `hash_by_type[mode]` sets that mode's hash and leaves the other two modes' hashes unchanged |
| BriefNodes.Variable.Copy | astexplorer/brief_node.py:23-27 | the copy has the same name, block index and usage hash |
| BriefNodes.VariableSet.FindVar | astexplorer/brief_node.py:39-40 | None exactly when the name has no index entry, otherwise the indexed variable; in a valid set it carries the name looked up |
| BriefNodes.VariableSet.AddVariable | astexplorer/brief_node.py:42-44 | the list grows by one fresh variable even for a repeated name, the name then indexes it, every other name keeps its index entry, and the set invariant is kept |
| BriefNodes.Update | astexplorer/brief_node.py:46-51 | the loop of `update` computes the first-seen merge `Merged` of the subset's variables |
| BriefNodes.MergedAppendsUnseen | astexplorer/brief_node.py:46-51 | `update` keeps every existing variable and index entry and appends exactly the first variable of each name not yet indexed, in subset order; the indexed names become the old ones plus the subset's |
| BriefNodes.MergedValid | astexplorer/brief_node.py:46-51 | `update` preserves the invariant that every index entry points to a variable of that name and the indexed names are the listed names |
| BriefNodes.FirstUnseenFresh | astexplorer/brief_node.py:48-51 | the variables `update` appends come from the subset, have names not indexed before, and have pairwise distinct names |
| BriefNodes.Renumber | astexplorer/brief_node.py:224-225 | variable i gets block index `str(i)`; names, usage hashes, the index map and validity are kept |
| BriefNodes.Explore | astexplorer/brief_node.py:214-225 | `explore_variables` keeps the node's kind, id, instance, its number of arguments and its body keys and list lengths; what it does to the variable sets is stated by ExploreSpec, ExploreKnows and ExploreKeepsValid |
| BriefNodes.ExploreList | astexplorer/brief_node.py:221-223 | one explored node per argument; ExploreListSpec, ExploreListAt and ExploreListValid state what each is and what is merged |
| BriefNodes.ExploreBody | astexplorer/brief_node.py:217-220 | the body keys and list lengths are kept; ExploreBodySpec, ExploreBodyAt and ExploreBodyValid state what is explored and merged |
| BriefNodes.ExploreSpec | astexplorer/brief_node.py:214-225 | after `explore_variables` the set is valid, variable i has block index `str(i)`, and the node's own id (Name, NameConstant) and its earlier variables come first, in place |
| BriefNodes.OwnVariablesKnown | astexplorer/brief_node.py:215-216 | a Name or NameConstant node adds its own id to its indexed names; any other node adds nothing |
| BriefNodes.ExploreKnows | astexplorer/brief_node.py:214-223 | after `explore_variables` a node knows exactly its own names, its id (Name, NameConstant) and every name its explored body children and arguments know |
| BriefNodes.ExploreListSpec | astexplorer/brief_node.py:221-223 | exploring the arguments keeps the variables gathered so far as a prefix and adds exactly the names the explored arguments know |
| BriefNodes.ExploreBodySpec | astexplorer/brief_node.py:217-220 | exploring the body lists keeps the variables gathered so far as a prefix and adds exactly the names the explored body children know |
| BriefNodes.ExploreListValid | astexplorer/brief_node.py:221-223 | merging the explored arguments into a valid set gives a valid set |
| BriefNodes.ExploreBodyValid | astexplorer/brief_node.py:217-220 | merging the explored body children into a valid set gives a valid set |
| BriefNodes.ExploreListAt | astexplorer/brief_node.py:221-222 | each argument is explored on its own: position i of the result is `explore_variables` of argument i |
| BriefNodes.ExploreBodyAt | astexplorer/brief_node.py:217-219 | each body child is explored on its own; keys and list lengths are kept |
| BriefNodes.ExploreKeepsValid | astexplorer/brief_node.py:214-225 | a tree whose variable sets are all valid keeps them all valid after `explore_variables` |
| Render.KeyIndex | astexplorer/brief_node.py:138 | the dictionary lookup `node.body[key]` finds the list under `key`, and reports none exactly when no list has that key |
| Render.VariableName | astexplorer/brief_node.py:107-120 | the instance-qualified original name in 'orig' mode or when no variable matches; otherwise the variable's block index ('index' mode) or usage hash ('hash' mode) |
| Render.RenderExpr | astexplorer/brief_node.py:122-212 | `stringify_expression`: the node's text from its own fields and its operands rendered in 'orig' mode; stated by AssignTemplate, BinOpTemplate, CallTemplate, NameExample, ModeOnlyAffectsNames and StringifyIgnoresHashes (same code at brief_tree.py:31-121) |
| Render.Compose | astexplorer/brief_node.py:125-135 | the name, constant, string and attribute cases, then the rest by kind; stated through RenderExpr's lemmas (NameExample, ModeOnlyAffectsNames) |
| Render.ComposeStatement | astexplorer/brief_node.py:137-158 | assignments and operators; the Assign and binary-operator cases are stated by AssignTemplate and BinOpTemplate |
| Render.ComposeOther | astexplorer/brief_node.py:160-212 | the headers of If, Elif, For, While and With end with `:`, and a Call's text ends with `)`; the Call case in full is CallTemplate |
| Render.Stringify | astexplorer/brief_node.py:99-105 | the expression text, extended exactly when the depth annotation (the weight annotation in brief_tree.py:25-29) is positive |
| Render.StringifyAnnotated | astexplorer/brief_node.py:99-105 | with a positive annotation, the expression is followed by ` [`, the decimal digits of the annotation (reading them back gives the annotation) and `]` |
| Render.StringifyAnnotationInjective | astexplorer/brief_node.py:99-105 | the annotation can be read back: two nodes with the same expression text and positive annotations render alike exactly when their annotations are equal |
| Render.StringifyIgnoresHashes | astexplorer/brief_node.py:122-212 | trees that differ only in their hashes render alike, so hashing a tree never changes its rendering |
| Render.ModeOnlyAffectsNames | astexplorer/brief_node.py:122-212 | the naming mode changes the text of a Name or NameConstant node only, because sub-expressions render in 'orig' mode; the older version ignores the mode |
| Render.NameExample | astexplorer/brief_node.py:99-126 | a variable at depth 0 renders as its name, with no annotation |
| Render.AssignTemplate | astexplorer/brief_node.py:136-137 | an Assign renders as its first argument's text, `=`, and the text of the first item under `_`, whatever the operands |
| Render.BinOpTemplate | astexplorer/brief_node.py:139-143 | a binary operation renders as the text of the first item under `left`, the operator's symbol, and the text of the first item under `right` |
| Render.CallTemplate | astexplorer/brief_node.py:198-203 | a Call renders as its instance and a dot (when it has one), its name, and the texts of all its arguments joined by commas in parentheses |
| FuncTrees.FindSuitablePtr | astexplorer/func_tree.py:145-150 | a name that is not a parameter, and `self`, are kept; any other parameter becomes `#p` followed by decimal digits that read back as its position |
| FuncTrees.RenameHere | astexplorer/func_tree.py:131-137 | a Name's id, and a Call's or Attribute's instance when it has one, go through `find_suitable_ptr`; nothing else of the node changes |
| FuncTrees.RenamePtrsForNode | astexplorer/func_tree.py:130-143 | the node is renamed as RenameHere says and each argument and body child is renamed the same way, with keys and list lengths kept; RenameOnlyNames and RenameIdempotent state the whole-tree effect |
| FuncTrees.PtrIdempotent | astexplorer/func_tree.py:145-150 | rewriting a rewritten name changes nothing, when no parameter looks like `#pN` |
| FuncTrees.PtrInjective | astexplorer/func_tree.py:145-150 | with distinct parameter positions, distinct names stay distinct (same code at brief_tree.py:194-199) |
| FuncTrees.RenameOnlyNames | astexplorer/func_tree.py:130-143 | `rename_ptrs_for_node` changes only Name ids and Call and Attribute instances, everywhere in the tree (same code at brief_tree.py:179-192) |
| FuncTrees.RenameIdempotent | astexplorer/func_tree.py:126-143 | renaming a renamed tree changes nothing, when no parameter looks like `#pN` |
| FuncTrees.RenameKeepsRenderable | astexplorer/func_tree.py:130-143 | renaming keeps every node renderable, in either version |
| FuncTrees.BaseWeight | astexplorer/func_tree.py:103-105 | the `weight_by_function` entry (1, or 5 for Tuple) or 10, in the current version; always 10 in the older one (brief_tree.py:160) |
| FuncTrees.Discounted | astexplorer/func_tree.py:117-118 | an argument weighing more than 10 counts 10 less, any other counts in full; a positive weight stays positive |
| FuncTrees.WeightSubTree | astexplorer/func_tree.py:101-122 | the stored weight is the base weight plus the full stored weights of the weighed body children plus the weighed arguments' weights, each less 10 when above 10; so it is at least the base weight plus one per argument, and the base weight for a leaf; the stored depth is the larger of the start depth and the tree's height, and the older version (brief_tree.py:159-171) keeps the depth |
| FuncTrees.WeightConsistent | astexplorer/func_tree.py:101-122 | after weighing, every node of the tree, not only the root, weighs its base weight plus its body children's weights plus its arguments' discounted weights |
| FuncTrees.WeightList | astexplorer/func_tree.py:108-119 | each child is weighed from depth 0, weighs at least 1 and stores its height as depth |
| FuncTrees.DepthOfWeighed | astexplorer/func_tree.py:110-116 | the depths the weighed children return, less one, are their heights |
| FuncTrees.WeightOnlyWeights | astexplorer/func_tree.py:101-122 | weighing changes only weights and depths (only weights in the older version) |
| FuncTrees.WeightIgnoresOldWeights | astexplorer/func_tree.py:101-122 | trees that differ only in what weighing writes are weighed alike: the discount at func_tree.py:118 never feeds back into a stored weight |
| FuncTrees.WeightIdempotent | astexplorer/func_tree.py:95-122 | weighing a weighed tree again changes nothing |
| FuncTrees.WeighedEverywhere | astexplorer/func_tree.py:101-122 | every node of a weighed tree weighs at least 1, and at least 10 in the older version (brief_tree.py:159-170) |
| FuncTrees.ValidLookupOk | astexplorer/brief_node.py:115-120 | a valid variable set keeps every lookup of `get_variable_name` inside the list |
| FuncTrees.CalcHash | astexplorer/func_tree.py:36-49 | `calc_hash(child, mode)` writes the hash of `mode` only and leaves the other modes' hashes unchanged |
| FuncTrees.CalcHashOnlyHashes | astexplorer/func_tree.py:36-49 | hashing in one mode changes nothing in the tree but that mode's hashes |
| FuncTrees.CalcHashConsistent | astexplorer/func_tree.py:36-49 | after `calc_hash`, every node's hash is the digest of its own rendering in that mode followed by its body children's and then its arguments' stored hashes |
| FuncTrees.SumHashes | astexplorer/func_tree.py:87-93 | the merged map has the names of both maps; a name in only one map keeps its hash; a name in both gets the digest of the old hash followed by the new one |
| FuncTrees.OwnHashes | astexplorer/func_tree.py:77-84 | the node's own variables add exactly their names to the map and leave the hashes of the other names unchanged |
| FuncTrees.OwnHashesLast | astexplorer/func_tree.py:77-83 | a name's hash is set by its last position i: the 'index' hash followed by str(i) when the name was new by then, else the digest of that followed by the name's earlier hash |
| FuncTrees.OwnHashesSingle | astexplorer/func_tree.py:77-81 | a name held only by variable i and unknown before gets the 'index' hash followed by str(i) |
| FuncTrees.VariableHashes | astexplorer/func_tree.py:69-85 | `calculate_variable_hashes` has an entry for exactly the variable names known anywhere in the tree |
| FuncTrees.PropagateHere | astexplorer/func_tree.py:61-62 | every variable of the node takes its name's hash from the map; names, block indices, the index and everything else are kept |
| FuncTrees.Propagate | astexplorer/func_tree.py:60-67 | the node's variables carry the map's hashes and each argument is propagated the same way; PropagateSetsUsage and PropagateOnlyUsage state the whole-tree effect |
| FuncTrees.PropagateSetsUsage | astexplorer/func_tree.py:60-67 | after propagation every variable of every node carries the map's hash for its name |
| FuncTrees.PropagateOnlyUsage | astexplorer/func_tree.py:60-67 | propagation changes usage hashes and nothing else |
| FuncTrees.FunctionVariableHashes | astexplorer/func_tree.py:51-55 | the function-wide map has an entry for exactly the names known in its statements |
| FuncTrees.HashifyCovers | astexplorer/func_tree.py:51-62 | every variable of every statement has an entry in the propagated map, so `var_hashes.get` never yields None |
| FuncTrees.RenameKeepsHashable | astexplorer/func_tree.py:130-143 | renaming keeps a tree renderable with valid variable sets, so it can still be hashed |
| FuncTrees.WeightKeepsHashable | astexplorer/func_tree.py:101-122 | weighing keeps a tree hashable |
| FuncTrees.CalcHashKeepsHashable | astexplorer/func_tree.py:36-49 | hashing keeps a tree hashable |
| FuncTrees.PropagateKeepsHashable | astexplorer/func_tree.py:60-67 | propagation keeps a tree hashable |
| FuncTrees.HashAll | astexplorer/func_tree.py:30-31 | each statement is hashed on its own and stays hashable |
| FuncTrees.PropagateAll | astexplorer/func_tree.py:51-58 | each statement receives the one map summed over all statements |
| FuncTrees.HashStatements | astexplorer/func_tree.py:28-34 | `calc_hashes` keeps the number of statements |
| FuncTrees.HashStatementsSpec | astexplorer/func_tree.py:28-67 | after `calc_hashes`, every node's 'hash' hash is the digest of its 'hash'-mode rendering and its children's 'hash' hashes, and every variable carries the function-wide hash of its name, which always exists |
| FuncTrees.FuncTree.constructor | astexplorer/func_tree.py:12-16 | a new function has the given name, no file, no parameters and no statements |
| FuncTrees.FuncTree.RenamePtrs | astexplorer/func_tree.py:126-128 | each statement is replaced by its renamed tree; parameters and file are kept |
| FuncTrees.FuncTree.WeightTree | astexplorer/func_tree.py:95-99 | each statement is replaced by its weighing from depth 1 |
| FuncTrees.FuncTree.HashChildren | astexplorer/func_tree.py:30-31 | each statement is replaced by its hashing in the given mode |
| FuncTrees.FuncTree.HashifyVariables | astexplorer/func_tree.py:51-58 | each statement receives the function-wide variable hashes |
| FuncTrees.FuncTree.CalcHashes | astexplorer/func_tree.py:28-34 | the statements become those of `HashStatements`: 'index' hashes, then variable hashes, then 'hash' hashes |
| Copypastes.Copypaste.constructor | astexplorer/copypaste.py:2-8 | a new record holds its two functions and anchor nodes, count 1 and the anchor's weight |
| Copypastes.Copypaste.Update | astexplorer/copypaste.py:10-12 | count grows by one and weight by the node's weight; after n updates count is n + 1 and weight is the anchor's plus the updating nodes' weights |
| CopypasteRuns.PairsLength | astexplorer/ast_comparer.py:30-31 | the nested loops visit `len(a_list) * len(b_list)` pairs |
| CopypasteRuns.PairsAt | astexplorer/ast_comparer.py:30-31 | the pairs come a-major: pair `i * len(b_list) + j` is (a_list[i], b_list[j]) |
| CopypasteRuns.RunsTo | astexplorer/ast_comparer.py:32-39 | every run has a pair or more and lies within the pairs seen; a matching last pair ends the last run |
| CopypasteRuns.RunsStep | astexplorer/ast_comparer.py:32-39 | helper for the loop invariants, one step unfolded: a mismatch changes nothing, a match after a match extends the last run by one, any other match opens a run of one pair |
| CopypasteRuns.RunsMatch | astexplorer/ast_comparer.py:32-39 | every run covers matching pairs only |
| CopypasteRuns.RunsOrdered | astexplorer/ast_comparer.py:32-39 | runs come in order, at least one mismatch apart |
| CopypasteRuns.RunsLeftMaximal | astexplorer/ast_comparer.py:32-39 | no run can be stretched to the left |
| CopypasteRuns.RunsRightMaximal | astexplorer/ast_comparer.py:32-39 | no run can be stretched to the right |
| CopypasteRuns.RunsCover | astexplorer/ast_comparer.py:32-39 | every matching pair lies in some run |
| CopypasteRuns.ScanStep | astexplorer/ast_comparer.py:32-39 | helper for the loop invariants, one step unfolded: one more pair leaves the records alone on a mismatch, updates the open record on a continued match, or appends a new one |
| CopypasteRuns.ScanIsRuns | astexplorer/ast_comparer.py:32-39 | the scan builds one record per run, anchored at its first pair, with the run's length as count and its a-nodes' summed weights as weight |
| CopypasteRuns.ScanAnchorsMatch | astexplorer/ast_comparer.py:32-35 | a record is only opened at a pair with equal hashes |
| CopypasteRuns.KeptOf | astexplorer/ast_comparer.py:52-55 | every kept record has count at least 2 and weight at least the minimum |
| CopypasteRuns.PairsStep | astexplorer/ast_comparer.py:30-31 | helper for the loop invariants, one step unfolded: one more pass of the outer loop appends the row of its a to the pairs visited |
| NodeSearch.FoundRowStep | astexplorer/ast_comparer.py:31-44 | helper for the loop invariants, one step unfolded: one more b of the inner loop appends the searches of its body lists to what `FoundRow` lists |
| NodeSearch.FoundRowsStep | astexplorer/ast_comparer.py:30-49 | helper for the loop invariants, one step unfolded: one more pass of the outer loop appends its inner loop's searches, then those of a's body lists |
| NodeSearch.FoundFrom | astexplorer/ast_comparer.py:27-57 | every record a search appends, its nested searches' included, has two pairs or more, at least the minimum weight and a matching anchor pair whose a-node lies in the trees of a_list and b-node in those of b_list |
| NodeSearch.OwnFrom | astexplorer/ast_comparer.py:30-55 | the search's own kept runs are anchored at pairs of a node of a_list and a node of b_list |
| NodeSearch.FlatFound | astexplorer/ast_comparer.py:27-57 | when no node has a body list, a search appends just its own kept runs |
| AstComparers.PreProcess | astexplorer/ast_comparer.py:10-13 | a function's statements become renamed, then weighed, then hashed; parameters are kept |
| AstComparers.PreProcessAt | astexplorer/ast_comparer.py:10-13 | one iteration preprocesses function k and no other |
| AstComparers.PartnersSpec | astexplorer/ast_comparer.py:17-21 | the inner loop visits (i, j) for each j from i + 1 to the end, in increasing order, and nothing else |
| AstComparers.CouplesSpec | astexplorer/ast_comparer.py:15-22 | `find_copypastes` visits exactly the pairs (i, j) with i < j, each once, in lexicographic order |
| AstComparers.CouplesBounds | astexplorer/ast_comparer.py:16-21 | every visited pair (i, j) has i < j < len(functions) |
| AstComparers.CouplesCover | astexplorer/ast_comparer.py:16-21 | every pair i < j is visited |
| AstComparers.CouplesOrdered | astexplorer/ast_comparer.py:16-21 | the visits are strictly ordered, so no pair is visited twice |
| AstComparers.AstComparer.constructor | astexplorer/ast_comparer.py:5-7 | no records, and a minimum weight of 20 |
| AstComparers.AstComparer.Visit | astexplorer/ast_comparer.py:32-39 | the pair opens a fresh record, extends the open one, or closes it, so that the records stand for the scan of all pairs so far |
| AstComparers.AstComparer.FindNodeCopypastes | astexplorer/ast_comparer.py:27-57 | records are only appended; the appended ones are reported for the two functions and are, one by one, the records `Found` lists: those of the nested searches in the order the loops start them, then this call's own kept runs |
| AstComparers.AstComparer.FindFuncCopypastes | astexplorer/ast_comparer.py:24-25 | the records appended are those `Found` lists for the two functions' statement lists |
| AstComparers.AstComparer.FindCopypastes | astexplorer/ast_comparer.py:15-22 | every pair i < j is compared once, in order; the records of each comparison form a consecutive segment, reported for its two functions, that is exactly what `Found` lists for their statements; the result is the grown record list |
| AstComparers.AstComparer.FindRowCopypastes | astexplorer/ast_comparer.py:17-21 | function i is compared with each later function, in order, each comparison appending the segment `Found` lists for the two functions |
| AstComparers.AstComparer.CompareAt | astexplorer/ast_comparer.py:19-21 | comparing functions i and j appends one segment: the records `Found` lists for their statements, reported for them |
| AstComparers.AstComparer.ComparePreProcessFunctions | astexplorer/ast_comparer.py:9-13 | every function's statements are renamed, weighed and hashed; parameters are kept |
| AstComparers.AstComparer.ScanAll | astexplorer/ast_comparer.py:28-49 | after the nested loops, the new open records stand for the scan of all pairs and the open one is last; the records appended meanwhile are those of all nested searches, as `FoundRows` lists them |
| AstComparers.AstComparer.VisitRow | astexplorer/ast_comparer.py:30-49 | one pass of the outer loop adds the row of a_list[ia] to the scan and appends the records of its nested searches, so the appended records become `FoundRows` of one more row |
| AstComparers.AstComparer.ScanRow | astexplorer/ast_comparer.py:31-44 | the inner loop adds the pairs of a with every b, in order, and appends the records of the searches of a_list against each b's body lists, as `FoundRow` lists them |
| AstComparers.AstComparer.Step | astexplorer/ast_comparer.py:32-44 | the pair (a, b) is scanned, then the records of the searches of a_list against b's body lists, as `FoundInB` lists them, are appended |
| AstComparers.AstComparer.DelveIntoB | astexplorer/ast_comparer.py:41-44 | each non-empty body list of b is searched against the whole a_list, in order; the records appended are those `FoundInB` lists |
| AstComparers.AstComparer.DelveIntoA | astexplorer/ast_comparer.py:46-49 | each non-empty body list of a is searched against the whole b_list, in order; the records appended are those `FoundInA` lists |
| AstComparers.AstComparer.Delve | astexplorer/ast_comparer.py:41-49 | one nested call of `find_node_copypastes` appends, after the records already there, those `Found` lists |
| AstComparers.AstComparer.Keep | astexplorer/ast_comparer.py:53-55 | record k is appended, and reported, exactly when its count is at least 2 and its weight at least the minimum; the appended records then stand for the kept ones among the first k + 1 |
| AstComparers.AstComparer.KeepRuns | astexplorer/ast_comparer.py:52-55 | the records appended are exactly the kept ones, in order, each reported |
| Utils.FindSubSequences | astexplorer/utils.py:32-54 | every run has count at least 1, lies within both lists, compares equal pairwise and cannot grow to the right; first positions in list_a never decrease; each run starts, in row-then-column order, at or after the point where the scan resumed (the start, or the row of the previous run's last pair, two columns after it) and at the first equal pair from there; no equal pair follows the last resume point; an empty list gives no runs. CompleteUnique shows these facts fix the result |
| Utils.CompleteUnique | astexplorer/utils.py:32-54 | two lists of runs that both meet FindSubSequences' contract are equal, so the contract determines the output for every input |
| Utils.CompleteAgree | astexplorer/utils.py:37-53 | two such lists agree run by run on their common length: the same start (the first equal pair from the same resume point) and the same count |
| Utils.NextRun | astexplorer/utils.py:39-46 | the run after a prefix of the result is maximal and starts at or after the prefix's resume point |
| Utils.NoRunAfter | astexplorer/utils.py:37-54 | no run can start at or after a point from which no pair compares equal |
| Utils.SameStart | astexplorer/utils.py:39-43 | two runs that start at the first equal pair from one point start at the same pair |
| Utils.SameCount | astexplorer/utils.py:46-53 | two maximal runs from the same pair have the same count |
| Utils.Pass | astexplorer/utils.py:37-53 | one pass of the outer loop only appends runs, never moves i back, leaves i unchanged when it finds no run, and keeps the runs maximal, ordered and greedy, with no equal pair from the last resume point to the next row |
| Utils.Run | astexplorer/utils.py:43-53 | the run opened at (i, j) grows while pairs compare equal and ends at the first unequal pair or a list end |
| Utils.Probe | astexplorer/utils.py:39-53 | one pass of the middle loop: an equal pair opens a run and the scan moves to its last pair; an unequal pair extends the range with no match; the scan position stays at or after the resume point |
| Utils.GreedyAppend | astexplorer/utils.py:39-46 | a run opened at the first equal pair at or after the resume point keeps the runs greedy |
| AstParser.FileLines.constructor | astexplorer/ast_parser.py:14-17 | the table holds the lines of the text |
| AstParser.FileLines.GetFileLines | astexplorer/ast_parser.py:19-34 | appends the lines of the text: one per line feed, then the rest when anything remains |
| AstParser.FileLines.ReadChar | astexplorer/ast_parser.py:22-31 | a line feed at offset i closes (start, i) and starts the next line at i + 1; a carriage return moves the start on |
| AstParser.Step | astexplorer/ast_parser.py:22-31 | reading one more character changes the closed lines and the start of the current line exactly as the loop body does |
| AstParser.RawStartAtEnd | astexplorer/ast_parser.py:33-34 | nothing remains after the last line feed exactly when the text is empty or ends with one |
| AstParser.SplitLinesAt | astexplorer/ast_parser.py:22-34 | line t is the one closed by line feed t, or the final line (start, len(data)) with start < len(data) |
| AstParser.LineAtNoCr | astexplorer/ast_parser.py:26-28 | without carriage returns, the line closed at offset i begins just after the previous line feed, or at 0 |
| AstParser.StartNoCr | astexplorer/ast_parser.py:30-31 | without carriage returns, the current line starts just after the last line feed |
| AstParser.SplitLinesNoCr | astexplorer/ast_parser.py:22-34 | without carriage returns, each line feed at offset i closes (previous feed + 1, i), and the last line runs from just after the last feed to the end |
| AstParser.LineCount | astexplorer/ast_parser.py:22-34 | without carriage returns, there are as many lines as line feeds, plus one when the text is non-empty and does not end with a line feed |
| AstParser.LineClear | astexplorer/ast_parser.py:22-34 | every line lies within the text, starts no later than it ends and holds no line feed |
| AstParser.LinesApart | astexplorer/ast_parser.py:22-34 | each line ends before the next one starts |
| AstParser.LinesOrdered | astexplorer/ast_parser.py:22-34 | the whole table is in increasing order, within the text and free of line feeds |
| AstParser.FileLines.GetLineStartEnd | astexplorer/ast_parser.py:46-48 | `get_line_start_end(n, col)`: line n counted from 1, its start moved by the column; LineLookup states what the span is |
| AstParser.LineLookup | astexplorer/ast_parser.py:46-48 | `get_line_start_end(n, col)` is 1-based and, less the column, returns a span of the text without line feeds |
| SourceTreeRenders.SourceTreeRender.constructor | vizualization/source_tree_render.py:14-23 | no functions, records, groups or folder tree yet |
| SourceTreeRenders.SourceTreeRender.SummarizeNodeStats | vizualization/source_tree_render.py:46-59 | the groups become the old groups with every function and record appended to the group of its file, and the folder tree becomes its summary over them |
| SourceTreeRenders.SourceTreeRender.SummarizeRoot | vizualization/source_tree_render.py:59 | the root is replaced by its summary |
| SourceTreeRenders.SourceTreeRender.GroupAll | vizualization/source_tree_render.py:47-57 | both grouping loops, leaving the record lengths unchanged |
| SourceTreeRenders.SourceTreeRender.GroupFunctions | vizualization/source_tree_render.py:47-51 | every function is appended, in order, to the group of its file |
| SourceTreeRenders.SourceTreeRender.AddFunction | vizualization/source_tree_render.py:48-51 | function i joins the group of its file, creating it if needed |
| SourceTreeRenders.SourceTreeRender.GroupCopypastes | vizualization/source_tree_render.py:53-57 | every record is appended, in order, to the group of its first function's file |
| SourceTreeRenders.SourceTreeRender.AddCopypaste | vizualization/source_tree_render.py:54-57 | record i joins the group of its first function's file, creating it if needed |
| SourceTreeRenders.SourceTreeRender.SummarizeNodeStatsIter | vizualization/source_tree_render.py:61-74 | returns the node with every statistic below it summarized |
| SourceTreeRenders.SourceTreeRender.SummarizeFolder | vizualization/source_tree_render.py:70-74 | the folder loop summarizes each child and rolls its statistics into the folder's |
| SourceTreeRenders.SourceTreeRender.SummarizeChild | vizualization/source_tree_render.py:71-74 | one child is summarized and added: counts summed, longest maximized |
| SourceTreeRenders.SourceTreeRender.SummarizeFile | vizualization/source_tree_render.py:63-69 | a file gets the sizes of its groups and the longest of its records |
| SourceTreeRenders.SourceTreeRender.Longest | vizualization/source_tree_render.py:68 | the largest count among the records: at least every count, and equal to one of them |
| SourceTreeRenders.FilterMembers | vizualization/source_tree_render.py:47-57 | an item is in a file's group exactly when its file is that one |
| SourceTreeRenders.FilterCount | vizualization/source_tree_render.py:47-57 | a group has one entry per item with its file: each item lands in its group exactly once |
| SourceTreeRenders.FilterAbsent | vizualization/source_tree_render.py:64-65 | a file no item belongs to has an empty group, as `.get(path) or []` gives |
| SourceTreeRenders.GroupingKeys | vizualization/source_tree_render.py:47-57 | the grouped files are the old ones plus the items' files |
| SourceTreeRenders.GroupingGet | vizualization/source_tree_render.py:47-57 | each group is its old items followed by the items of its file, in input order |
| SourceTreeRenders.SummarizedPrefixAll | vizualization/source_tree_render.py:70-74 | summarizing children one by one in the loop gives the children's summaries |
| SourceTreeRenders.RollStep | vizualization/source_tree_render.py:72-74 | adding one child adds its function and record counts and takes the larger longest |
| SourceTreeRenders.GroupLongestIsMax | vizualization/source_tree_render.py:68 | `max` of a non-empty group is at least each count and equals one of them |
| SourceTreeRenders.RollUp | vizualization/source_tree_render.py:61-74 | from zeroed statistics, each node's function and record counts are the summed group sizes of the files below it, and its longest is the largest record length below it (at least 0) |

## Left out

- AstComparers.AstComparer.FindNodeCopypastes: the source compares `a.hash == b.hash` (astexplorer/ast_comparer.py:32), but `BriefNode` neither defines nor assigns `hash`, so on any two non-empty lists the source raises AttributeError. The model compares instead the hash stored under the 'hash' naming mode (`hashes.usage`), which `calc_hashes` fills last.
- AstComparers.AstComparer.Visit: same substitution for the comparison at astexplorer/ast_comparer.py:32 and :38. The model does not model the AttributeError.
- `AstParser.go_down_*` and the rest of the parser (astexplorer/ast_parser.py:55-453): it calls Python's `ast` module and reads files. The model builds `Node` trees directly.
- `FileLines.get_file_lines2` (astexplorer/ast_parser.py:36-44): it uses a regular expression library.
- `FileLines.get_node_line_start_end` (astexplorer/ast_parser.py:50-52): it reads fields of Python `ast` nodes; `get_line_start_end` is its modelled counterpart.
- `get_hash` (astexplorer/brief_node.py:13-14): MD5 is the uninterpreted parameter `digest`. The model claims no collision-freedom.
- Debug text: `stringify_subtree`, `FuncTree.stringify` and `stringify_node` (both versions), and every `__str__`. These build display text only.
- `serialize` (astexplorer/utils.py:20-29): JSON support for dates.
- `SourceTreeRender.explore_sources`, `read_folder_tree`, `read_functions`, `should_parse`, `name_matches_pattern` and `find_copypastes` printing: file-system I/O, regular expressions and console output.
- vizualization/html_source_tree_render.py and astexplorer/ast_visualizer.py: HTML and JSON output.
- Folder nodes are values. `summarize_node_stats_iter` returns the summarized node, and the statistics are not updated in place.
- Tree passes are functions on values wrapped by `FuncTree` methods. They are not in-place updates of shared `BriefNode` objects.
- The intermediate `usage_hash` writes inside `calculate_variable_hashes` (astexplorer/func_tree.py:84): `propagate_var_hashes_down` overwrites every one of them, and the model keeps only the final values.
- FuncTrees.Lookup: `var_hashes.get(name)` yields None for a missing name, and the model yields "" instead. `HashifyCovers` proves that no name is missing.
- Copypastes.Copypaste: the ghost `updates` and `reported` fields record history. They are not part of the source's record.
- Utils.FindSubSequences: Python updates the `Sequence` object it has just appended. The model updates the last element of the list.
- Utils.FindSubSequences: `compare_f` is a total, side-effect-free function.
- AstComparers.AstComparer.ComparePreProcessFunctions: requires the function objects in the list to be distinct. The source would preprocess a repeated object twice, and the model does not cover that case.
- AstComparers.AstComparer.ComparePreProcessFunctions: requires every statement to be renderable with valid variable sets. The source raises a KeyError or IndexError on such a tree, and the model does not model the error path.
- Render.Stringify: requires every node to be renderable and its variable lookup to stay in range. The source raises a KeyError or IndexError otherwise, and the model does not model the error path.
- SourceTreeRenders.SourceTreeRender.SummarizeNodeStats: requires every file under the root to have at least one record. `max` of an empty list raises in the source, and the model does not model that error.
- SourceTreeRenders.SourceTreeRender.SummarizeNodeStatsIter: takes the ghost record lengths `cm` as a parameter. The source reads them from the groups directly.
