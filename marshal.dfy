/** The converter itself: marshalAST, with the shared visited map threaded
    through every call, and the loop that appends the non-nil results of a
    run of sub-nodes to a node's children. */
module Marshal {
  import opened Wrappers
  import opened GoAst
  import opened AstJson
  import opened MarshalSpec

  /** Once a prefix of `ids` has panicked, the whole run has panicked with
      the same panic and the same visited set. */
  lemma {:induction false} PanicEndsEach(t: SyntaxTree, ids: seq<NodeId>, k: nat, v: set<NodeId>)
    requires WellFormed(t) && AllIn(ids, t.nodes.Keys) && k <= |ids|
    requires MarshalEach(t, ids[..k], v).result.Err?
    ensures MarshalEach(t, ids, v) == MarshalEach(t, ids[..k], v)
    decreases |ids|
  {
    if k < |ids| {
      assert ids[..|ids| - 1][..k] == ids[..k];
      PanicEndsEach(t, ids[..|ids| - 1], k, v);
    } else {
      assert ids[..k] == ids;
    }
  }

  /** marshalAST(node, visited): nil for a nil node or an identity already
      claimed; otherwise the identity is claimed before anything else, the
      kind's own sub-nodes and then the Inspect walk are converted, and the
      node is returned, or the unsupported-kind panic is raised. */
  method MarshalAST(t: SyntaxTree, node: Option<NodeId>, visited: set<NodeId>)
      returns (r: Result<Option<ASTNode>, Panic>, visited': set<NodeId>)
    requires WellFormed(t) && (node.Some? ==> node.value in t.nodes)
    ensures node.None? ==> r == Ok(None) && visited' == visited
    ensures node.Some? ==> Outcome(r, visited') == MarshalNode(t, node.value, visited)
    ensures node.Some? && node.value in visited ==> r == Ok(None) && visited' == visited
    ensures node.Some? && node.value !in visited ==> node.value in visited' && (r.Ok? ==> r.value.Some?)
    decreases |t.nodes.Keys - visited|, 0
  {
    if node.None? {
      return Ok(None), visited;
    }
    var id := node.value;
    if id in visited {
      return Ok(None), visited;
    }
    visited' := visited + {id};
    var n := t.nodes[id];
    if !Handled(n) {
      return Err(UnsupportedNodeType(KindName(n))), visited';
    }
    ClaimShrinks(t.nodes.Keys, visited, id, visited');
    ghost var ownSpec := MarshalEach(t, KindChildren(n), visited');
    var own;
    own, visited' := AppendEach(t, [], KindChildren(n), visited');
    if own.Err? {
      return Err(own.error), visited';
    }
    assert own.value == ownSpec.result.value;
    ClaimShrinks(t.nodes.Keys, visited, id, visited');
    ghost var walkedSpec := MarshalEach(t, t.inspect[id], visited');
    var all;
    all, visited' := AppendEach(t, own.value, t.inspect[id], visited');
    if all.Err? {
      return Err(all.error), visited';
    }
    r := Ok(Some(Emit(n, all.value)));
    assert all.value == ownSpec.result.value + walkedSpec.result.value;
  }

  /** Converts each of `ids` in order and appends every non-nil result to
      `children`; a panic in any of them ends the run. */
  method AppendEach(t: SyntaxTree, children: seq<ASTNode>, ids: seq<NodeId>, visited: set<NodeId>)
      returns (r: Result<seq<ASTNode>, Panic>, visited': set<NodeId>)
    requires WellFormed(t) && AllIn(ids, t.nodes.Keys)
    ensures var each := MarshalEach(t, ids, visited);
      visited' == each.visited &&
      r == (if each.result.Ok? then Ok(children + each.result.value) else Err(each.result.error))
    decreases |t.nodes.Keys - visited|, 1
  {
    var added: seq<ASTNode> := [];
    visited' := visited;
    var i := 0;
    while i < |ids|
      invariant 0 <= i <= |ids|
      invariant MarshalEach(t, ids[..i], visited) == Outcome(Ok(added), visited')
    {
      UnclaimedShrinks(t.nodes.Keys, visited, visited');
      var child, next := MarshalAST(t, Some(ids[i]), visited');
      EachStep(t, ids, i, visited);
      if child.Err? {
        PanicEndsEach(t, ids, i + 1, visited);
        return Err(child.error), next;
      }
      added := added + Present(child.value);
      visited' := next;
      i := i + 1;
    }
    assert ids[..i] == ids;
    r := Ok(children + added);
  }

  /** processFile's use of the converter: a fresh visited map, then the
      conversion of the file's root node. */
  method MarshalFile(t: SyntaxTree, root: NodeId) returns (r: Result<Option<ASTNode>, Panic>)
    requires WellFormed(t) && root in t.nodes
    ensures r == MarshalNode(t, root, {}).result
    ensures r.Ok? ==> r.value.Some? && r.value.value.nodeType == KindName(t.nodes[root])
  {
    var visited;
    r, visited := MarshalAST(t, Some(root), {});
  }
}
