/** The converter's output record and the panic that can abort a conversion. */
module AstJson {
  import opened Wrappers

  /** One output node. `name` is Go's string field (empty when unset);
      `value` is the optional literal text; `children` and `comments` are
      empty when the conversion appended nothing. */
  datatype ASTNode = ASTNode(
    name: string,
    nodeType: string,
    children: seq<ASTNode>,
    value: Option<string>,
    comments: seq<string>)

  /** The panic raised for a node kind the type switch has no case for; it
      carries the `%T` name of the offending node. */
  datatype Panic = UnsupportedNodeType(kind: string)

  /** The number of output nodes in a tree. */
  function Size(n: ASTNode): (s: nat)
    ensures s >= 1
    decreases n, 1
  {
    1 + SizeOf(n.children)
  }

  /** The number of output nodes in a list of trees. */
  function SizeOf(ns: seq<ASTNode>): (s: nat)
    ensures |ns| <= s
    decreases ns, 0
  {
    if ns == [] then 0 else SizeOf(ns[..|ns| - 1]) + Size(ns[|ns| - 1])
  }

  /** The number of output nodes an optional result contributes. */
  function OptSize(o: Option<ASTNode>): (s: nat) {
    if o.Some? then Size(o.value) else 0
  }

  lemma {:induction false} SizeOfAppend(a: seq<ASTNode>, b: seq<ASTNode>)
    ensures SizeOf(a + b) == SizeOf(a) + SizeOf(b)
    decreases |b|
  {
    if b == [] {
      assert a + b == a;
    } else {
      assert (a + b)[..|a + b| - 1] == a + b[..|b| - 1];
      SizeOfAppend(a, b[..|b| - 1]);
    }
  }
}
