# go2json: the `marshalAST` conversion, modelled in Dafny

go2json parses a Go source file with go/parser and writes its syntax tree as
JSON. The heart of it is `marshalAST(node, visited)`. It turns one go/ast node
into an `ASTNode` record with these fields:
- `Type`: the node's `%T` text;
- `Name`: the declared name of a function or type declaration;
- `Value`: the text of an identifier, a literal or a file's package name;
- `Comments`: the text of a comment;
- `Children`: the converted sub-nodes.

A single `visited` map, shared by every call, makes sure no node is converted
twice. A call converts a node in two passes:
- it converts the sub-nodes that the node's own case of a type switch reads, in
  field order;
- it walks the node with `ast.Inspect` and converts every node the walk yields.

In both passes the non-nil results are appended to the node's children. A kind
without a case panics.

The project models this:

- `GoAst` is the syntax graph. A `SyntaxTree` holds the nodes by identity
  (a node's address in Go becomes a `NodeId`), one constructor per go/ast kind the type
  switch handles plus `Package`, which it does not. It also holds, per node,
  the sequence `ast.Inspect` visits from that node. `KindChildren` lists the
  sub-nodes each case reads. `KindName`, `DeclaredName`, `LeafValue` and
  `CommentLines` give the `Type`, `Name`, `Value` and `Comments` fields.
- `AstJson` is the output record and the panic.
- `MarshalSpec` defines the conversion as functions of the visited set:
  - `MarshalNode` converts one node;
  - `MarshalEach` converts a run of nodes in turn, threading the visited set.
- `Marshal` is the converter itself:
  - `MarshalAST` converts one node;
  - `AppendEach` is the append loop both passes use;
  - `MarshalFile` is `processFile`'s call on a fresh map.
  The visited map goes into each method and comes back out, and each method is
  proved equal to the functions of `MarshalSpec`.
- `MarshalProperties` proves what the conversion guarantees:
  - each identity is emitted at most once;
  - exactly the nodes reachable from the root are emitted;
  - the conversion panics exactly when it reaches an unsupported kind;
  - the output fields follow the node kind;
  - a kind's own sub-nodes come first, in field order, and the Inspect pass
    only adds nodes nobody has claimed yet.

A FuncDecl does not get just its receiver, signature and body as children.
Its case copies the text of the `Name` identifier but never converts that
node, so the Inspect pass meets it unclaimed and appends it after the other
three (`FuncDeclGainsItsNameIdentifier`).

The Inspect pass does not convert any subtree twice: the shared visited map
turns every second visit into nil (`NodeEmitsOnePerClaim`,
`ClaimedNodesAddNothing`, `InspectPassAddsOnlyUnclaimed`).

## Model

| member | source | states |
|---|---|---|
| Marshal.MarshalAST | go2json2.go:25-643 | A nil node gives nil and leaves visited unchanged. So does a node already visited. Otherwise the node is claimed, the result is a panic or a converted node (never nil), and the result and new visited set are those of `MarshalNode`. |
| Marshal.AppendEach | go2json2.go:633-641 | Converts the ids in order and appends each non-nil result after the children already present. The visited set is threaded through. The first panic ends the run. The result equals `MarshalEach`. |
| Marshal.MarshalFile | go2json2.go:675-676 | Converting the root from an empty visited map gives `MarshalNode(root, {})`. On success that is an output node whose Type is the root's kind name. |
| MarshalSpec.MarshalNode | go2json2.go:25-643 | The visited set only grows, and only by existing nodes. The converted node is in it afterwards, because it is claimed before anything else (line 34). |
| MarshalSpec.MarshalEach | go2json2.go:633-641 | A run over several nodes only adds existing nodes to the visited set. |
| GoAst.KindName | go2json2.go:36 | The Type text is `*ast.` followed by a non-empty go/ast struct type name. |
| GoAst.KindChildren | go2json2.go:40-626 | The sub-nodes each case of the type switch converts, in the order it reads its fields. An absent optional field contributes nothing. Ident, BasicLit, File, Comment and the placeholder kinds read none. This is a definition without a contract of its own; the properties of the children it yields are the lemmas below. |
| GoAst.Handled | go2json2.go:627-629 | Every kind but `Package` has a case. `Package` takes the default branch, which panics. This is a definition without a contract of its own; `PanicIffUnhandledNodeClaimed` and `ReachableUnhandledNodePanics` state what it decides. |
| GoAst.DeclaredName | go2json2.go:61-62 | A non-empty Name comes only from a FuncDecl or a TypeSpec (lines 62 and 82); every other kind keeps Go's empty string. |
| GoAst.LeafValue | go2json2.go:41-46 | A Value is present exactly for Ident, BasicLit and File. |
| GoAst.CommentLines | go2json2.go:505-506 | Comments hold at most one line, and hold one exactly for a Comment. |
| MarshalSpec.Emit | go2json2.go:36 | The record built for a node: Type is the kind name and Children the converted sub-nodes, so its size is one more than theirs. Name is set only for FuncDecl and TypeSpec (lines 62, 82). Value is set exactly for Ident, BasicLit and File (lines 41-46). Comments are set exactly for a Comment (lines 505-506). |
| MarshalProperties.NodeEmitsOnePerClaim | go2json2.go:31-34 | A successful conversion's output tree has exactly as many nodes as identities it newly claimed, so no identity is emitted twice. |
| MarshalProperties.EachEmitsOnePerClaim | go2json2.go:633-641 | The same for a run over several nodes: one output node per newly claimed identity. |
| MarshalProperties.NodeClaimsWithin | go2json2.go:25-643 | Converting a node inside a region closed under "sub-node or Inspect-walk node" claims nothing outside that region. |
| MarshalProperties.EachClaimsWithin | go2json2.go:633-641 | The same for a run over nodes of a closed region. |
| MarshalProperties.NodeExpandsClaims | go2json2.go:25-643 | After a successful conversion, every newly claimed node is of a handled kind, and its sub-nodes and Inspect-walk nodes are all claimed. |
| MarshalProperties.EachExpandsClaims | go2json2.go:633-641 | The same for a run, and every listed id ends up claimed. |
| MarshalProperties.RootConversionEmitsEachReachableNodeOnce | go2json2.go:675-676 | A successful conversion of a file from a fresh map claims a closed set containing the root and contained in every such set, that is, exactly the reachable nodes. It emits one output node per claimed node, no more than the file has. |
| MarshalProperties.NodePanicNamesUnhandledNode | go2json2.go:627-629 | A panic carries the `%T` name of a node this conversion claimed whose kind has no case. |
| MarshalProperties.EachPanicNamesUnhandledNode | go2json2.go:627-629 | The same for a run over several nodes. |
| MarshalProperties.PanicIffUnhandledNodeClaimed | go2json2.go:627-629 | A conversion panics if and only if it claims a node of an unsupported kind. |
| MarshalProperties.NoPanicWhenEveryKindHandled | go2json2.go:627-629 | A file whose nodes are all of handled kinds converts without a panic. |
| MarshalProperties.ReachableUnhandledNodePanics | go2json2.go:627-629 | A node of an unsupported kind that is reachable from the root (it lies in every closed set holding the root) makes the conversion of the file from a fresh map panic. |
| MarshalProperties.FreshNodeIsEmitted | go2json2.go:31-36 | An unvisited node that converts successfully is of a handled kind and is emitted, with its kind name as Type. |
| MarshalProperties.NodeFieldsFollowKind | go2json2.go:36-46 | The fields of an emitted node: Type is the kind name (line 36). Name is set only for FuncDecl and TypeSpec, to the declared name (lines 62, 82). Value is set exactly for Ident, BasicLit and File, to their text (lines 41-46). Comments hold exactly the text of a Comment (lines 505-506). |
| MarshalProperties.PlaceholderChildrenComeOnlyFromInspect | go2json2.go:369-372 | BadDecl, BadExpr, BadStmt and EmptyStmt read no sub-node (also lines 426-427, 435-436). Their children, their visited set and whether they panic are exactly those of their Inspect walk. |
| MarshalProperties.ClaimedNodesAddNothing | go2json2.go:31-33 | A run over nodes that are all visited already returns no children and leaves the visited set unchanged. |
| MarshalProperties.InspectPassAddsOnlyUnclaimed | go2json2.go:633-641 | The Inspect pass appends after the own pass and emits one node per identity it claims. It emits something exactly when its walk meets a node the own pass, or an earlier conversion, left unclaimed. |
| MarshalProperties.EachKeepsOrder | go2json2.go:54-60 | A run over nodes that share no structure emits one node per id, in the same order: its j-th result is the conversion of the j-th id, from the visited set the ids before it left. |
| MarshalProperties.KindChildrenComeFirstInFieldOrder | go2json2.go:38-641 | When the sub-nodes a kind's case reads share no structure, they are the node's first children, in the order the case reads its fields: the j-th child is the conversion of the j-th field read, from the visited set the earlier reads left, and carries that field's kind name. |
| MarshalProperties.FuncDeclChildrenOrder | go2json2.go:61-80 | A FuncDecl's Name is its declared name. Its first three children are the conversion of its receiver, then that of its signature from the visited set the receiver left, then that of its body from the set both left. |
| MarshalProperties.FuncDeclGainsItsNameIdentifier | go2json2.go:61-80 | A FuncDecl whose Inspect walk meets a node outside the region of its receiver, signature and body (its Name identifier) gets more than three children. |

## Left out

- `processFile`, `processFolder` and `main` are not part of this model. That covers walking a folder, parsing each file, deriving the output path, creating the output file and error handling on I/O. Only `processFile`'s fresh visited map and its call on the root are modelled (`MarshalFile`).
- JSON encoding (jsoniter, `omitempty`, indentation) is not modelled. The model ends at the `ASTNode` record.
- go/parser is not modelled. A syntax graph is any `SyntaxTree` that satisfies `WellFormed`, that is, every referenced identity exists.
- The order in which `ast.Inspect` walks a node lives in go/ast. The model takes each node's walk as a given sequence (`SyntaxTree.inspect`). The nil call `ast.Inspect` makes after each subtree is not listed, because the callback ignores it.
- `Value` is an `interface{}` in Go. Every case that sets it stores a string, so it is an `Option<string>` here.
- `%T` is written out per kind in `TypeName`. The model does not reflect on types.
- A panic is an `Err` result that propagates to the caller. Nothing in the program recovers from it. The model does not capture unwinding through the `ast.Inspect` callback.
- `MarshalAST`: the shared `visited` map is mutated in place in Go. Here it is a set that goes in and comes back out. Aliasing of the map is not modelled, since every call uses the same map in sequence.
- The per-kind field reads are flattened into one list (`KindChildren`). An absent optional field contributes nothing, matching the code's nil checks. TypeSpec's unchecked `marshalAST(n.Type)` gets the same treatment, since a nil `Type` returns nil before anything is claimed.
- `FuncDeclChildrenOrder`, `KindChildrenComeFirstInFieldOrder`, `EachKeepsOrder`: the order is proved only when the sub-nodes share no structure, each lying outside a closed region holding the earlier ones. With shared sub-nodes an earlier conversion may claim a later one, which is then missing from the children.
