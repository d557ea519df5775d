/** The conversion as functions of the visited set: what one call of the
    converter returns and which identities it has claimed when it returns.
    The imperative converter is proved equal to these. */
module MarshalSpec {
  import opened Wrappers
  import opened GoAst
  import opened AstJson

  /** What a conversion step returns, and the visited set after it. */
  datatype Outcome<T> = Outcome(result: Result<T, Panic>, visited: set<NodeId>)

  lemma {:induction false} SubsetCard<T>(a: set<T>, b: set<T>)
    requires a <= b
    ensures |a| <= |b|
    decreases a
  {
    if a != {} {
      var x :| x in a;
      SubsetCard(a - {x}, b - {x});
    }
  }

  /** Claiming more identities never increases the number left unclaimed. */
  lemma UnclaimedShrinks(keys: set<NodeId>, v: set<NodeId>, w: set<NodeId>)
    requires v <= w
    ensures |keys - w| <= |keys - v|
  {
    SubsetCard(keys - w, keys - v);
  }

  /** Claiming an unclaimed existing identity strictly decreases the number
      left unclaimed. */
  lemma ClaimShrinks(keys: set<NodeId>, v: set<NodeId>, id: NodeId, w: set<NodeId>)
    requires id in keys && id !in v && v + {id} <= w
    ensures |keys - w| < |keys - v|
  {
    SubsetCard(keys - w, (keys - v) - {id});
  }

  /** Identities claimed over two successive stretches add up. */
  lemma ClaimsAdd(a: set<NodeId>, b: set<NodeId>, c: set<NodeId>)
    requires a <= b <= c
    ensures |c - a| == |b - a| + |c - b|
  {
    assert c - a == (b - a) + (c - b);
    assert (b - a) * (c - b) == {};
  }

  /** The output node built for `n` once its children are known: Type is the
      kind name, and Name, Value and Comments are set as the kind's case sets
      them. */
  function Emit(n: SyntaxNode, children: seq<ASTNode>): (r: ASTNode)
    ensures r.nodeType == KindName(n) && r.children == children
    ensures Size(r) == 1 + SizeOf(children)
    ensures r.name != "" ==> n.FuncDecl? || n.TypeSpec?
    ensures r.value.Some? <==> n.Ident? || n.BasicLit? || n.File?
    ensures r.comments != [] <==> n.Comment?
  {
    ASTNode(DeclaredName(n), KindName(n), children, LeafValue(n), CommentLines(n))
  }

  /** The conversion of the existing node `id` when `v` is already claimed:
      nothing if `id` is claimed; otherwise `id` is claimed, an unhandled kind
      panics, and a handled kind converts its own sub-nodes and then every
      node of its Inspect walk, appending each result that is not nil. */
  ghost function MarshalNode(t: SyntaxTree, id: NodeId, v: set<NodeId>): (out: Outcome<Option<ASTNode>>)
    requires WellFormed(t) && id in t.nodes
    ensures v <= out.visited <= v + t.nodes.Keys
    ensures id in out.visited
    decreases |t.nodes.Keys - v|, 0, 0
  {
    if id in v then Outcome(Ok(None), v)
    else
      var claimed := v + {id};
      var n := t.nodes[id];
      if !Handled(n) then Outcome(Err(UnsupportedNodeType(KindName(n))), claimed)
      else
        ClaimShrinks(t.nodes.Keys, v, id, claimed);
        var own := MarshalEach(t, KindChildren(n), claimed);
        if own.result.Err? then Outcome(Err(own.result.error), own.visited)
        else
          ClaimShrinks(t.nodes.Keys, v, id, own.visited);
          var walked := MarshalEach(t, t.inspect[id], own.visited);
          if walked.result.Err? then Outcome(Err(walked.result.error), walked.visited)
          else
            Outcome(Ok(Some(Emit(n, own.result.value + walked.result.value))), walked.visited)
  }

  /** The conversion of each of `ids` in turn, threading the visited set and
      collecting the results that are not nil; the first panic ends it. */
  ghost function MarshalEach(t: SyntaxTree, ids: seq<NodeId>, v: set<NodeId>): (out: Outcome<seq<ASTNode>>)
    requires WellFormed(t) && AllIn(ids, t.nodes.Keys)
    ensures v <= out.visited <= v + t.nodes.Keys
    decreases |t.nodes.Keys - v|, 1, |ids|
  {
    if ids == [] then Outcome(Ok([]), v)
    else
      var last := ids[|ids| - 1];
      var before := MarshalEach(t, ids[..|ids| - 1], v);
      if before.result.Err? then before
      else
        UnclaimedShrinks(t.nodes.Keys, v, before.visited);
        var step := MarshalNode(t, last, before.visited);
        if step.result.Err? then Outcome(Err(step.result.error), step.visited)
        else Outcome(Ok(before.result.value + Present(step.result.value)), step.visited)
  }

  /** One more identity converted extends the run over a prefix of `ids`. */
  lemma EachStep(t: SyntaxTree, ids: seq<NodeId>, k: nat, v: set<NodeId>)
    requires WellFormed(t) && AllIn(ids, t.nodes.Keys) && k < |ids|
    requires MarshalEach(t, ids[..k], v).result.Ok?
    ensures var before := MarshalEach(t, ids[..k], v);
      var step := MarshalNode(t, ids[k], before.visited);
      MarshalEach(t, ids[..k + 1], v) ==
        if step.result.Err? then Outcome(Err(step.result.error), step.visited)
        else Outcome(Ok(before.result.value + Present(step.result.value)), step.visited)
  {
    assert ids[..k + 1][..k] == ids[..k];
  }
}
