/** The Go syntax graph that the conversion walks, as produced by go/parser.
    Each node is named by its identity (`NodeId`, its address in Go); a node
    holds the ids of the sub-nodes in the fields the converter reads, plus the
    strings it copies into its output. */
module GoAst {
  import opened Wrappers

  type NodeId = nat

  /** One constructor per node kind of go/ast that the converter knows, with
      the fields it recurses into in the order it reads them, plus `Package`,
      a kind it does not handle. Go field names that clash with Dafny keywords
      or with a same-named field of another type are renamed (noted inline). */
  datatype SyntaxNode =
    | Ident(name: string)
    | BasicLit(literal: string)                   // BasicLit.Value
    | File(packageName: string)                   // File.Name.Name
    | Ellipsis(elt: Option<NodeId>)
    | GenDecl(specs: seq<NodeId>)
    | FuncDecl(name: string, recv: Option<NodeId>, typ: Option<NodeId>, body: Option<NodeId>)  // name = Name.Name
    | TypeSpec(name: string, typ: Option<NodeId>)                   // name = Name.Name
    | ValueSpec(names: seq<NodeId>, typ: Option<NodeId>, values: seq<NodeId>)
    | AssignStmt(lhs: seq<NodeId>, rhs: seq<NodeId>)
    | ReturnStmt(resultList: seq<NodeId>)         // ReturnStmt.Results
    | IfStmt(init: Option<NodeId>, cond: Option<NodeId>, body: Option<NodeId>, elseBranch: Option<NodeId>)
    | ForStmt(init: Option<NodeId>, cond: Option<NodeId>, post: Option<NodeId>, body: Option<NodeId>)
    | RangeStmt(key: Option<NodeId>, value: Option<NodeId>, x: Option<NodeId>, body: Option<NodeId>)
    | BlockStmt(list: seq<NodeId>)
    | ExprStmt(x: Option<NodeId>)
    | CallExpr(fun: Option<NodeId>, args: seq<NodeId>)
    | SelectorExpr(x: Option<NodeId>, sel: Option<NodeId>)
    | IndexListExpr(x: Option<NodeId>, indices: seq<NodeId>)
    | IndexExpr(x: Option<NodeId>, index: Option<NodeId>)
    | SliceExpr(x: Option<NodeId>, low: Option<NodeId>, high: Option<NodeId>, max: Option<NodeId>)
    | StructType(fields: Option<NodeId>)
    | FuncType(params: Option<NodeId>, results: Option<NodeId>)
    | InterfaceType(methods: Option<NodeId>)
    | ArrayType(elt: Option<NodeId>)
    | SelectStmt(body: Option<NodeId>)
    | CompositeLit(typ: Option<NodeId>, elts: seq<NodeId>)
    | ParenExpr(x: Option<NodeId>)
    | TypeAssertExpr(x: Option<NodeId>, typ: Option<NodeId>)
    | BadDecl
    | BadExpr
    | FuncLit(typ: Option<NodeId>, body: Option<NodeId>)
    | StarExpr(x: Option<NodeId>)
    | UnaryExpr(x: Option<NodeId>)
    | BinaryExpr(x: Option<NodeId>, y: Option<NodeId>)
    | KeyValueExpr(key: Option<NodeId>, value: Option<NodeId>)
    | BadStmt
    | DeclStmt(decl: Option<NodeId>)
    | EmptyStmt
    | LabeledStmt(labelIdent: Option<NodeId>, stmt: Option<NodeId>)   // LabeledStmt.Label
    | SendStmt(channel: Option<NodeId>, value: Option<NodeId>)         // SendStmt.Chan
    | IncDecStmt(x: Option<NodeId>)
    | GoStmt(call: Option<NodeId>)
    | DeferStmt(call: Option<NodeId>)
    | CaseClause(list: seq<NodeId>, stmts: seq<NodeId>)              // CaseClause.Body
    | CommentGroup(list: seq<NodeId>)
    | Comment(text: string)
    | TypeSwitchStmt(init: Option<NodeId>, assign: Option<NodeId>, body: Option<NodeId>)
    | CommClause(comm: Option<NodeId>, stmts: seq<NodeId>)           // CommClause.Body
    | ImportSpec(localName: Option<NodeId>, path: Option<NodeId>)    // ImportSpec.Name
    | Field(names: seq<NodeId>, typ: Option<NodeId>)
    | FieldList(list: seq<NodeId>)
    | MapType(key: Option<NodeId>, value: Option<NodeId>)
    | ChanType(value: Option<NodeId>)
    | BranchStmt(labelIdent: Option<NodeId>)                          // BranchStmt.Label
    | SwitchStmt(init: Option<NodeId>, tag: Option<NodeId>, body: Option<NodeId>)
    | Package(packageName: string)

  /** A parsed file: the nodes by identity, and for each node the sequence of
      nodes that ast.Inspect visits, in its order, when started at that node
      (its walk order lives in go/ast and is supplied here). */
  datatype SyntaxTree = SyntaxTree(nodes: map<NodeId, SyntaxNode>, inspect: map<NodeId, seq<NodeId>>)

  /** Every identity a node refers to exists: go/parser only links nodes that exist. */
  ghost predicate WellFormed(t: SyntaxTree) {
    (forall id :: id in t.nodes ==> id in t.inspect) &&
    (forall id {:trigger KindChildren(t.nodes[id])} :: id in t.nodes ==> AllIn(KindChildren(t.nodes[id]), t.nodes.Keys)) &&
    (forall id :: id in t.inspect ==> AllIn(t.inspect[id], t.nodes.Keys))
  }

  /** Every identity listed in `ids` belongs to `s`. */
  predicate AllIn(ids: seq<NodeId>, s: set<NodeId>) {
    forall i :: 0 <= i < |ids| ==> ids[i] in s
  }

  /** The kinds the converter's type switch has a case for: all but
      `Package`; for it the switch takes its default branch and panics. */
  predicate Handled(n: SyntaxNode)
  {
    !n.Package?
  }

  /** The dynamic type name `%T` prints for the node: every kind is `*ast.`
      followed by the name of a struct type of package go/ast. */
  function KindName(n: SyntaxNode): (k: string)
    ensures |k| > 5 && k[..5] == "*ast."
  {
    "*ast." + TypeName(n)
  }

  /** The name of the node's struct type in package go/ast. */
  function TypeName(n: SyntaxNode): (s: string)
    ensures |s| > 0
  {
    match n
    case Ident(_) => "Ident"
    case BasicLit(_) => "BasicLit"
    case File(_) => "File"
    case Ellipsis(_) => "Ellipsis"
    case GenDecl(_) => "GenDecl"
    case FuncDecl(_, _, _, _) => "FuncDecl"
    case TypeSpec(_, _) => "TypeSpec"
    case ValueSpec(_, _, _) => "ValueSpec"
    case AssignStmt(_, _) => "AssignStmt"
    case ReturnStmt(_) => "ReturnStmt"
    case IfStmt(_, _, _, _) => "IfStmt"
    case ForStmt(_, _, _, _) => "ForStmt"
    case RangeStmt(_, _, _, _) => "RangeStmt"
    case BlockStmt(_) => "BlockStmt"
    case ExprStmt(_) => "ExprStmt"
    case CallExpr(_, _) => "CallExpr"
    case SelectorExpr(_, _) => "SelectorExpr"
    case IndexListExpr(_, _) => "IndexListExpr"
    case IndexExpr(_, _) => "IndexExpr"
    case SliceExpr(_, _, _, _) => "SliceExpr"
    case StructType(_) => "StructType"
    case FuncType(_, _) => "FuncType"
    case InterfaceType(_) => "InterfaceType"
    case ArrayType(_) => "ArrayType"
    case SelectStmt(_) => "SelectStmt"
    case CompositeLit(_, _) => "CompositeLit"
    case ParenExpr(_) => "ParenExpr"
    case TypeAssertExpr(_, _) => "TypeAssertExpr"
    case BadDecl => "BadDecl"
    case BadExpr => "BadExpr"
    case FuncLit(_, _) => "FuncLit"
    case StarExpr(_) => "StarExpr"
    case UnaryExpr(_) => "UnaryExpr"
    case BinaryExpr(_, _) => "BinaryExpr"
    case KeyValueExpr(_, _) => "KeyValueExpr"
    case BadStmt => "BadStmt"
    case DeclStmt(_) => "DeclStmt"
    case EmptyStmt => "EmptyStmt"
    case LabeledStmt(_, _) => "LabeledStmt"
    case SendStmt(_, _) => "SendStmt"
    case IncDecStmt(_) => "IncDecStmt"
    case GoStmt(_) => "GoStmt"
    case DeferStmt(_) => "DeferStmt"
    case CaseClause(_, _) => "CaseClause"
    case CommentGroup(_) => "CommentGroup"
    case Comment(_) => "Comment"
    case TypeSwitchStmt(_, _, _) => "TypeSwitchStmt"
    case CommClause(_, _) => "CommClause"
    case ImportSpec(_, _) => "ImportSpec"
    case Field(_, _) => "Field"
    case FieldList(_) => "FieldList"
    case MapType(_, _) => "MapType"
    case ChanType(_) => "ChanType"
    case BranchStmt(_) => "BranchStmt"
    case SwitchStmt(_, _, _) => "SwitchStmt"
    case Package(_) => "Package"
  }

  /** The sub-nodes the kind's own case recurses into, in the order it reads
      them; an absent (nil) optional field contributes nothing. Leaf kinds and
      the placeholder kinds read no sub-node. */
  function KindChildren(n: SyntaxNode): (ids: seq<NodeId>)
  {
    match n
    case Ident(_) => []
    case BasicLit(_) => []
    case File(_) => []
    case Ellipsis(elt) => Present(elt)
    case GenDecl(specs) => specs
    case FuncDecl(_, recv, typ, body) => Present(recv) + Present(typ) + Present(body)
    case TypeSpec(_, typ) => Present(typ)
    case ValueSpec(names, typ, values) => names + Present(typ) + values
    case AssignStmt(lhs, rhs) => lhs + rhs
    case ReturnStmt(results) => results
    case IfStmt(init, cond, body, els) => Present(init) + Present(cond) + Present(body) + Present(els)
    case ForStmt(init, cond, post, body) => Present(init) + Present(cond) + Present(post) + Present(body)
    case RangeStmt(key, value, x, body) => Present(key) + Present(value) + Present(x) + Present(body)
    case BlockStmt(list) => list
    case ExprStmt(x) => Present(x)
    case CallExpr(fun, args) => Present(fun) + args
    case SelectorExpr(x, sel) => Present(x) + Present(sel)
    case IndexListExpr(x, indices) => Present(x) + indices
    case IndexExpr(x, index) => Present(x) + Present(index)
    case SliceExpr(x, low, high, max) => Present(x) + Present(low) + Present(high) + Present(max)
    case StructType(fields) => Present(fields)
    case FuncType(params, results) => Present(params) + Present(results)
    case InterfaceType(methods) => Present(methods)
    case ArrayType(elt) => Present(elt)
    case SelectStmt(body) => Present(body)
    case CompositeLit(typ, elts) => Present(typ) + elts
    case ParenExpr(x) => Present(x)
    case TypeAssertExpr(x, typ) => Present(x) + Present(typ)
    case BadDecl => []
    case BadExpr => []
    case FuncLit(typ, body) => Present(typ) + Present(body)
    case StarExpr(x) => Present(x)
    case UnaryExpr(x) => Present(x)
    case BinaryExpr(x, y) => Present(x) + Present(y)
    case KeyValueExpr(key, value) => Present(key) + Present(value)
    case BadStmt => []
    case DeclStmt(decl) => Present(decl)
    case EmptyStmt => []
    case LabeledStmt(labelIdent, stmt) => Present(labelIdent) + Present(stmt)
    case SendStmt(channel, value) => Present(channel) + Present(value)
    case IncDecStmt(x) => Present(x)
    case GoStmt(call) => Present(call)
    case DeferStmt(call) => Present(call)
    case CaseClause(list, stmts) => list + stmts
    case CommentGroup(list) => list
    case Comment(_) => []
    case TypeSwitchStmt(init, assign, body) => Present(init) + Present(assign) + Present(body)
    case CommClause(comm, stmts) => Present(comm) + stmts
    case ImportSpec(name, path) => Present(name) + Present(path)
    case Field(names, typ) => names + Present(typ)
    case FieldList(list) => list
    case MapType(key, value) => Present(key) + Present(value)
    case ChanType(value) => Present(value)
    case BranchStmt(labelIdent) => Present(labelIdent)
    case SwitchStmt(init, tag, body) => Present(init) + Present(tag) + Present(body)
    case Package(_) => []
  }

  /** The declared name copied into the output's Name: only function and type
      declarations set it; every other kind leaves Go's empty string. */
  function DeclaredName(n: SyntaxNode): (name: string)
    ensures name != "" ==> n.FuncDecl? || n.TypeSpec?
  {
    match n
    case FuncDecl(name, _, _, _) => name
    case TypeSpec(name, _) => name
    case _ => ""
  }

  /** The text copied into the output's Value: identifier text, literal text,
      and a file's package name. */
  function LeafValue(n: SyntaxNode): (val: Option<string>)
    ensures val.Some? <==> n.Ident? || n.BasicLit? || n.File?
  {
    match n
    case Ident(name) => Some(name)
    case BasicLit(literal) => Some(literal)
    case File(packageName) => Some(packageName)
    case _ => None
  }

  /** The output's Comments: the text of a single comment, nothing otherwise. */
  function CommentLines(n: SyntaxNode): (lines: seq<string>)
    ensures |lines| <= 1 && (lines != [] <==> n.Comment?)
  {
    if n.Comment? then [n.text] else []
  }

  /** Every node the conversion of `x` may pass to a nested call: its own
      kind's sub-nodes, then the nodes of its Inspect walk. */
  function Successors(t: SyntaxTree, x: NodeId): (ids: seq<NodeId>)
    requires x in t.nodes && x in t.inspect
  {
    KindChildren(t.nodes[x]) + t.inspect[x]
  }

  /** Every existing node of `claimed` has all its successors in `within`. */
  ghost predicate Expanded(t: SyntaxTree, claimed: set<NodeId>, within: set<NodeId>)
    requires WellFormed(t)
  {
    claimed <= t.nodes.Keys &&
    forall x {:trigger Successors(t, x)} :: x in claimed ==> AllIn(Successors(t, x), within)
  }

  /** A set of existing nodes closed under `Successors`: once the conversion
      enters it, it cannot leave it. */
  ghost predicate Closed(t: SyntaxTree, s: set<NodeId>)
    requires WellFormed(t)
  {
    Expanded(t, s, s)
  }

  /** A concatenation lies in `s` exactly when both its parts do. */
  lemma AllInAppend(a: seq<NodeId>, b: seq<NodeId>, s: set<NodeId>)
    ensures AllIn(a + b, s) <==> AllIn(a, s) && AllIn(b, s)
  {
    if AllIn(a + b, s) {
      forall i | 0 <= i < |a| ensures a[i] in s { assert a[i] == (a + b)[i]; }
      forall i | 0 <= i < |b| ensures b[i] in s { assert b[i] == (a + b)[|a| + i]; }
    }
  }

  /** Lying in a set survives growing the set. */
  lemma AllInGrow(ids: seq<NodeId>, s: set<NodeId>, s': set<NodeId>)
    requires AllIn(ids, s) && s <= s'
    ensures AllIn(ids, s')
  {
  }

  /** A list lies in `s` when all but its last id do and the last one does. */
  lemma AllInSnoc(ids: seq<NodeId>, s: set<NodeId>)
    requires ids != [] && AllIn(ids[..|ids| - 1], s) && ids[|ids| - 1] in s
    ensures AllIn(ids, s)
  {
    forall i | 0 <= i < |ids| - 1 ensures ids[i] in s {
      assert ids[i] == ids[..|ids| - 1][i];
    }
  }

  /** Expansion survives shrinking the claimed set and growing the target. */
  lemma ExpandedGrow(t: SyntaxTree, claimed: set<NodeId>, within: set<NodeId>, claimed': set<NodeId>, within': set<NodeId>)
    requires WellFormed(t) && Expanded(t, claimed, within) && claimed' <= claimed && within <= within'
    ensures Expanded(t, claimed', within')
  {
    forall x | x in claimed' ensures AllIn(Successors(t, x), within') {
      assert AllIn(Successors(t, x), within);
    }
  }

  /** Two expanded sets with the same target make an expanded union. */
  lemma ExpandedUnion(t: SyntaxTree, a: set<NodeId>, b: set<NodeId>, within: set<NodeId>)
    requires WellFormed(t) && Expanded(t, a, within) && Expanded(t, b, within)
    ensures Expanded(t, a + b, within)
  {
    forall x | x in a + b ensures AllIn(Successors(t, x), within) {
      if x in a {
        assert AllIn(Successors(t, x), within);
      } else {
        assert AllIn(Successors(t, x), within);
      }
    }
  }

  /** A single node is expanded once both kinds of its successors are in. */
  lemma ExpandedSingle(t: SyntaxTree, x: NodeId, within: set<NodeId>)
    requires WellFormed(t) && x in t.nodes
    requires AllIn(KindChildren(t.nodes[x]), within) && AllIn(t.inspect[x], within)
    ensures Expanded(t, {x}, within)
  {
    AllInAppend(KindChildren(t.nodes[x]), t.inspect[x], within);
    assert AllIn(Successors(t, x), within);
  }

  /** Both kinds of successor of a node of an expanded set lie in `within`. */
  lemma ExpandedSuccessors(t: SyntaxTree, claimed: set<NodeId>, within: set<NodeId>, x: NodeId)
    requires WellFormed(t) && Expanded(t, claimed, within) && x in claimed
    ensures x in t.nodes && AllIn(KindChildren(t.nodes[x]), within) && AllIn(t.inspect[x], within)
  {
    assert AllIn(Successors(t, x), within);
    AllInAppend(KindChildren(t.nodes[x]), t.inspect[x], within);
  }
}
