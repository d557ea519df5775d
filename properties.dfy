/** What the conversion guarantees: each identity is emitted at most once and
    exactly the nodes reachable from the root are emitted, a panic happens
    exactly when an unsupported kind is reached, the output fields follow the
    node kind, and a kind's own sub-nodes come first, in field order. */
module MarshalProperties {
  import opened Wrappers
  import opened GoAst
  import opened AstJson
  import opened MarshalSpec

  // ---------------------------------------------------------------------
  // Single emission: one output node per newly claimed identity
  // ---------------------------------------------------------------------

  /** The identities a node's conversion claims: itself, those of its own
      pass and those of its Inspect pass. */
  lemma ClaimCount(v: set<NodeId>, id: NodeId, own: set<NodeId>, walked: set<NodeId>)
    requires id !in v && v + {id} <= own <= walked
    ensures |walked - v| == 1 + |own - (v + {id})| + |walked - own|
  {
    ClaimsAdd(v + {id}, own, walked);
    ClaimsAdd(v, v + {id}, walked);
    assert (v + {id}) - v == {id};
  }

  /** A converted node's output tree has exactly one node per identity the
      conversion claimed, so no identity is emitted twice. */
  lemma {:induction false} NodeEmitsOnePerClaim(t: SyntaxTree, id: NodeId, v: set<NodeId>)
    requires WellFormed(t) && id in t.nodes
    ensures var out := MarshalNode(t, id, v);
      out.result.Ok? ==> OptSize(out.result.value) == |out.visited - v|
    decreases |t.nodes.Keys - v|, 0, 0
  {
    var n := t.nodes[id];
    if id !in v && Handled(n) {
      var claimed := v + {id};
      ClaimShrinks(t.nodes.Keys, v, id, claimed);
      var own := MarshalEach(t, KindChildren(n), claimed);
      EachEmitsOnePerClaim(t, KindChildren(n), claimed);
      if own.result.Ok? {
        ClaimShrinks(t.nodes.Keys, v, id, own.visited);
        var walked := MarshalEach(t, t.inspect[id], own.visited);
        EachEmitsOnePerClaim(t, t.inspect[id], own.visited);
        if walked.result.Ok? {
          SizeOfAppend(own.result.value, walked.result.value);
          ClaimCount(v, id, own.visited, walked.visited);
        }
      }
    }
  }

  /** The same for a run over a list of nodes. */
  lemma {:induction false} EachEmitsOnePerClaim(t: SyntaxTree, ids: seq<NodeId>, v: set<NodeId>)
    requires WellFormed(t) && AllIn(ids, t.nodes.Keys)
    ensures var out := MarshalEach(t, ids, v);
      out.result.Ok? ==> SizeOf(out.result.value) == |out.visited - v|
    decreases |t.nodes.Keys - v|, 1, |ids|
  {
    if ids != [] {
      var last := ids[|ids| - 1];
      var before := MarshalEach(t, ids[..|ids| - 1], v);
      EachEmitsOnePerClaim(t, ids[..|ids| - 1], v);
      if before.result.Ok? {
        UnclaimedShrinks(t.nodes.Keys, v, before.visited);
        var step := MarshalNode(t, last, before.visited);
        NodeEmitsOnePerClaim(t, last, before.visited);
        if step.result.Ok? {
          var p := Present(step.result.value);
          assert MarshalEach(t, ids, v) == Outcome(Ok(before.result.value + p), step.visited);
          SizeOfAppend(before.result.value, p);
          assert SizeOf(p) == OptSize(step.result.value) by {
            if step.result.value.Some? { assert p[..0] == []; }
          }
          ClaimsAdd(v, before.visited, step.visited);
        }
      }
    }
  }

  // ---------------------------------------------------------------------
  // The conversion stays inside every closed region it starts in
  // ---------------------------------------------------------------------

  /** Converting a node of a closed region claims nothing outside it. */
  lemma {:induction false} NodeClaimsWithin(t: SyntaxTree, id: NodeId, v: set<NodeId>, s: set<NodeId>)
    requires WellFormed(t) && Closed(t, s) && id in s
    ensures id in t.nodes && MarshalNode(t, id, v).visited - v <= s
    decreases |t.nodes.Keys - v|, 0, 0
  {
    var n := t.nodes[id];
    if id !in v && Handled(n) {
      var claimed := v + {id};
      ClaimShrinks(t.nodes.Keys, v, id, claimed);
      ExpandedSuccessors(t, s, s, id);
      EachClaimsWithin(t, KindChildren(n), claimed, s);
      var own := MarshalEach(t, KindChildren(n), claimed);
      if own.result.Ok? {
        ClaimShrinks(t.nodes.Keys, v, id, own.visited);
        EachClaimsWithin(t, t.inspect[id], own.visited, s);
      }
    }
  }

  /** The same for a run over nodes of a closed region. */
  lemma {:induction false} EachClaimsWithin(t: SyntaxTree, ids: seq<NodeId>, v: set<NodeId>, s: set<NodeId>)
    requires WellFormed(t) && Closed(t, s) && AllIn(ids, s)
    ensures AllIn(ids, t.nodes.Keys) && MarshalEach(t, ids, v).visited - v <= s
    decreases |t.nodes.Keys - v|, 1, |ids|
  {
    if ids != [] {
      var last := ids[|ids| - 1];
      EachClaimsWithin(t, ids[..|ids| - 1], v, s);
      var before := MarshalEach(t, ids[..|ids| - 1], v);
      if before.result.Ok? {
        UnclaimedShrinks(t.nodes.Keys, v, before.visited);
        NodeClaimsWithin(t, last, before.visited, s);
      }
    }
  }

  // ---------------------------------------------------------------------
  // A successful conversion claims every node it meets, all of them handled
  // ---------------------------------------------------------------------

  /** Every node of `s` is of a kind the type switch has a case for. */
  ghost predicate AllHandled(t: SyntaxTree, s: set<NodeId>)
    requires s <= t.nodes.Keys
  {
    forall x {:trigger Handled(t.nodes[x])} :: x in s ==> Handled(t.nodes[x])
  }

  /** Two successive stretches of claims, each handled and expanded within
      what was claimed by its end, make one such stretch. */
  lemma ClaimsChain(t: SyntaxTree, a: set<NodeId>, b: set<NodeId>, c: set<NodeId>)
    requires WellFormed(t) && a <= b <= c <= a + t.nodes.Keys
    requires Expanded(t, b - a, b) && AllHandled(t, b - a)
    requires Expanded(t, c - b, c) && AllHandled(t, c - b)
    ensures Expanded(t, c - a, c) && AllHandled(t, c - a)
  {
    ExpandedGrow(t, b - a, b, b - a, c);
    ExpandedUnion(t, b - a, c - b, c);
    assert c - a == (b - a) + (c - b);
  }

  /** A handled node claimed first, whose successors are all claimed by the
      end, joins the stretch claimed after it. */
  lemma ClaimsRoot(t: SyntaxTree, v: set<NodeId>, id: NodeId, w: set<NodeId>)
    requires WellFormed(t) && id in t.nodes && id !in v && v + {id} <= w <= v + t.nodes.Keys
    requires Handled(t.nodes[id])
    requires AllIn(KindChildren(t.nodes[id]), w) && AllIn(t.inspect[id], w)
    requires Expanded(t, w - (v + {id}), w) && AllHandled(t, w - (v + {id}))
    ensures Expanded(t, w - v, w) && AllHandled(t, w - v)
  {
    ExpandedSingle(t, id, w);
    ExpandedUnion(t, {id}, w - (v + {id}), w);
    assert w - v == {id} + (w - (v + {id}));
  }

  /** After a successful conversion every newly claimed node is of a handled
      kind and all its successors are claimed too. */
  lemma {:induction false} NodeExpandsClaims(t: SyntaxTree, id: NodeId, v: set<NodeId>)
    requires WellFormed(t) && id in t.nodes
    ensures var out := MarshalNode(t, id, v);
      out.result.Ok? ==> Expanded(t, out.visited - v, out.visited) && AllHandled(t, out.visited - v)
    decreases |t.nodes.Keys - v|, 0, 0
  {
    var n := t.nodes[id];
    var out := MarshalNode(t, id, v);
    if id !in v && Handled(n) && out.result.Ok? {
      var claimed := v + {id};
      ClaimShrinks(t.nodes.Keys, v, id, claimed);
      var own := MarshalEach(t, KindChildren(n), claimed);
      EachExpandsClaims(t, KindChildren(n), claimed);
      ClaimShrinks(t.nodes.Keys, v, id, own.visited);
      var walked := MarshalEach(t, t.inspect[id], own.visited);
      EachExpandsClaims(t, t.inspect[id], own.visited);
      assert out.visited == walked.visited;
      AllInGrow(KindChildren(n), own.visited, walked.visited);
      ClaimsChain(t, claimed, own.visited, walked.visited);
      ClaimsRoot(t, v, id, walked.visited);
    }
  }

  /** The same for a run over a list of nodes; in addition every listed node
      ends up claimed. */
  lemma {:induction false} EachExpandsClaims(t: SyntaxTree, ids: seq<NodeId>, v: set<NodeId>)
    requires WellFormed(t) && AllIn(ids, t.nodes.Keys)
    ensures var out := MarshalEach(t, ids, v);
      out.result.Ok? ==>
        AllIn(ids, out.visited) && Expanded(t, out.visited - v, out.visited) && AllHandled(t, out.visited - v)
    decreases |t.nodes.Keys - v|, 1, |ids|
  {
    var out := MarshalEach(t, ids, v);
    if ids != [] && out.result.Ok? {
      var k := |ids| - 1;
      var before := MarshalEach(t, ids[..k], v);
      EachExpandsClaims(t, ids[..k], v);
      UnclaimedShrinks(t.nodes.Keys, v, before.visited);
      var step := MarshalNode(t, ids[k], before.visited);
      NodeExpandsClaims(t, ids[k], before.visited);
      assert out.visited == step.visited;
      AllInGrow(ids[..k], before.visited, out.visited);
      AllInSnoc(ids, out.visited);
      ClaimsChain(t, v, before.visited, out.visited);
    }
  }

  /** Converting a file from an empty visited set emits one node for each
      node reachable from the root and for no other: the claimed set is
      closed, contains the root, and lies inside every closed set that does;
      the output has exactly as many nodes as were claimed, hence no more
      than the file has. */
  lemma RootConversionEmitsEachReachableNodeOnce(t: SyntaxTree, root: NodeId)
    requires WellFormed(t) && root in t.nodes
    requires MarshalNode(t, root, {}).result.Ok?
    ensures var out := MarshalNode(t, root, {});
      out.result.value.Some? &&
      root in out.visited && Closed(t, out.visited) &&
      (forall s :: Closed(t, s) && root in s ==> out.visited <= s) &&
      Size(out.result.value.value) == |out.visited| <= |t.nodes|
  {
    var out := MarshalNode(t, root, {});
    NodeExpandsClaims(t, root, {});
    assert out.visited - {} == out.visited;
    NodeEmitsOnePerClaim(t, root, {});
    forall s | Closed(t, s) && root in s ensures out.visited <= s {
      NodeClaimsWithin(t, root, {}, s);
    }
    SubsetCard(out.visited, t.nodes.Keys);
  }

  // ---------------------------------------------------------------------
  // Panics: exactly when an unsupported kind is claimed
  // ---------------------------------------------------------------------

  /** A panic names the kind of a node the conversion claimed and has no case
      for. */
  lemma {:induction false} NodePanicNamesUnhandledNode(t: SyntaxTree, id: NodeId, v: set<NodeId>)
    requires WellFormed(t) && id in t.nodes
    ensures var out := MarshalNode(t, id, v);
      out.result.Err? ==>
        exists x :: x in out.visited - v && !Handled(t.nodes[x]) &&
          out.result.error == UnsupportedNodeType(KindName(t.nodes[x]))
    decreases |t.nodes.Keys - v|, 0, 0
  {
    var n := t.nodes[id];
    var out := MarshalNode(t, id, v);
    if id !in v && out.result.Err? {
      if !Handled(n) {
        assert id in out.visited - v;
      } else {
        var claimed := v + {id};
        ClaimShrinks(t.nodes.Keys, v, id, claimed);
        var own := MarshalEach(t, KindChildren(n), claimed);
        EachPanicNamesUnhandledNode(t, KindChildren(n), claimed);
        if own.result.Err? {
          var x :| x in own.visited - claimed && !Handled(t.nodes[x]) &&
            own.result.error == UnsupportedNodeType(KindName(t.nodes[x]));
          assert x in out.visited - v;
        } else {
          ClaimShrinks(t.nodes.Keys, v, id, own.visited);
          var walked := MarshalEach(t, t.inspect[id], own.visited);
          EachPanicNamesUnhandledNode(t, t.inspect[id], own.visited);
          var x :| x in walked.visited - own.visited && !Handled(t.nodes[x]) &&
            walked.result.error == UnsupportedNodeType(KindName(t.nodes[x]));
          assert x in out.visited - v;
        }
      }
    }
  }

  /** The same for a run over a list of nodes. */
  lemma {:induction false} EachPanicNamesUnhandledNode(t: SyntaxTree, ids: seq<NodeId>, v: set<NodeId>)
    requires WellFormed(t) && AllIn(ids, t.nodes.Keys)
    ensures var out := MarshalEach(t, ids, v);
      out.result.Err? ==>
        exists x :: x in out.visited - v && !Handled(t.nodes[x]) &&
          out.result.error == UnsupportedNodeType(KindName(t.nodes[x]))
    decreases |t.nodes.Keys - v|, 1, |ids|
  {
    var out := MarshalEach(t, ids, v);
    if ids != [] && out.result.Err? {
      var last := ids[|ids| - 1];
      var before := MarshalEach(t, ids[..|ids| - 1], v);
      EachPanicNamesUnhandledNode(t, ids[..|ids| - 1], v);
      if before.result.Err? {
        var x :| x in before.visited - v && !Handled(t.nodes[x]) &&
          before.result.error == UnsupportedNodeType(KindName(t.nodes[x]));
        assert x in out.visited - v;
      } else {
        UnclaimedShrinks(t.nodes.Keys, v, before.visited);
        var step := MarshalNode(t, last, before.visited);
        NodePanicNamesUnhandledNode(t, last, before.visited);
        var x :| x in step.visited - before.visited && !Handled(t.nodes[x]) &&
          step.result.error == UnsupportedNodeType(KindName(t.nodes[x]));
        assert x in out.visited - v;
      }
    }
  }

  /** A conversion panics if and only if it claims a node of a kind the type
      switch has no case for. */
  lemma PanicIffUnhandledNodeClaimed(t: SyntaxTree, id: NodeId, v: set<NodeId>)
    requires WellFormed(t) && id in t.nodes
    ensures var out := MarshalNode(t, id, v);
      out.result.Err? <==> exists x :: x in out.visited - v && !Handled(t.nodes[x])
  {
    NodePanicNamesUnhandledNode(t, id, v);
    NodeExpandsClaims(t, id, v);
  }

  /** A file whose nodes are all of handled kinds converts without a panic. */
  lemma NoPanicWhenEveryKindHandled(t: SyntaxTree, id: NodeId, v: set<NodeId>)
    requires WellFormed(t) && id in t.nodes
    requires AllHandled(t, t.nodes.Keys)
    ensures MarshalNode(t, id, v).result.Ok?
  {
    NodePanicNamesUnhandledNode(t, id, v);
  }

  /** A node of an unsupported kind that lies in every closed set holding
      the root, that is, one reachable from it, makes the conversion of a
      file from a fresh map panic. */
  lemma ReachableUnhandledNodePanics(t: SyntaxTree, root: NodeId, x: NodeId)
    requires WellFormed(t) && root in t.nodes && x in t.nodes && !Handled(t.nodes[x])
    requires forall s :: Closed(t, s) && root in s ==> x in s
    ensures MarshalNode(t, root, {}).result.Err?
  {
    var out := MarshalNode(t, root, {});
    NodeExpandsClaims(t, root, {});
    assert out.visited - {} == out.visited;
  }

  // ---------------------------------------------------------------------
  // The fields of an emitted node follow its kind
  // ---------------------------------------------------------------------

  /** A node claimed by this call is emitted, unless the run panics, and its
      Type is its kind name. */
  lemma FreshNodeIsEmitted(t: SyntaxTree, id: NodeId, v: set<NodeId>)
    requires WellFormed(t) && id in t.nodes && id !in v
    requires MarshalNode(t, id, v).result.Ok?
    ensures var r := MarshalNode(t, id, v).result.value;
      Handled(t.nodes[id]) && r.Some? && r.value.nodeType == KindName(t.nodes[id])
  {
  }

  /** A node claimed by this call is emitted (unless the run panics) with its
      kind name as Type; Name only for function and type declarations; Value
      only for identifiers, literals and files; Comments only for a comment,
      holding exactly its text. */
  lemma NodeFieldsFollowKind(t: SyntaxTree, id: NodeId, v: set<NodeId>)
    requires WellFormed(t) && id in t.nodes && id !in v
    requires MarshalNode(t, id, v).result.Ok?
    ensures var r := MarshalNode(t, id, v).result.value;
      var n := t.nodes[id];
      Handled(n) && r.Some? &&
      r.value.nodeType == KindName(n) &&
      ((n.FuncDecl? || n.TypeSpec?) ==> r.value.name == n.name) &&
      (!(n.FuncDecl? || n.TypeSpec?) ==> r.value.name == "") &&
      (r.value.value.Some? <==> n.Ident? || n.BasicLit? || n.File?) &&
      (n.Ident? ==> r.value.value == Some(n.name)) &&
      (n.BasicLit? ==> r.value.value == Some(n.literal)) &&
      (n.File? ==> r.value.value == Some(n.packageName)) &&
      r.value.comments == (if n.Comment? then [n.text] else [])
  {
  }

  /** The placeholder kinds and the empty statement add no sub-node of their
      own: their children are exactly what the Inspect walk yields. */
  lemma PlaceholderChildrenComeOnlyFromInspect(t: SyntaxTree, id: NodeId, v: set<NodeId>)
    requires WellFormed(t) && id in t.nodes && id !in v
    requires t.nodes[id].BadDecl? || t.nodes[id].BadExpr? || t.nodes[id].BadStmt? || t.nodes[id].EmptyStmt?
    ensures var out := MarshalNode(t, id, v);
      var walked := MarshalEach(t, t.inspect[id], v + {id});
      out.visited == walked.visited &&
      (out.result.Ok? <==> walked.result.Ok?) &&
      (out.result.Ok? ==> out.result.value.Some? && out.result.value.value.children == walked.result.value)
  {
    assert KindChildren(t.nodes[id]) == [];
    var own := MarshalEach(t, [], v + {id});
    assert own == Outcome(Ok([]), v + {id});
    var walked := MarshalEach(t, t.inspect[id], v + {id});
    if walked.result.Ok? {
      assert own.result.value + walked.result.value == walked.result.value;
    }
  }

  // ---------------------------------------------------------------------
  // The Inspect pass: already-claimed nodes contribute nothing
  // ---------------------------------------------------------------------

  /** A run over nodes that are all claimed already adds nothing and claims
      nothing: this is why the Inspect pass never re-adds a node that the
      kind's own pass, or any earlier conversion, emitted. */
  lemma {:induction false} ClaimedNodesAddNothing(t: SyntaxTree, ids: seq<NodeId>, v: set<NodeId>)
    requires WellFormed(t) && AllIn(ids, t.nodes.Keys)
    requires AllIn(ids, v)
    ensures MarshalEach(t, ids, v) == Outcome(Ok([]), v)
    decreases |ids|
  {
    if ids != [] {
      ClaimedNodesAddNothing(t, ids[..|ids| - 1], v);
      assert MarshalNode(t, ids[|ids| - 1], v) == Outcome(Ok(None), v);
      assert [] + Present<ASTNode>(None) == [];
    }
  }

  /** The Inspect pass appends its results after those of the kind's own
      pass; it emits one node per identity it claims, and it emits something
      exactly when its walk meets a node that the own pass, or an earlier
      conversion, has not claimed. */
  lemma InspectPassAddsOnlyUnclaimed(t: SyntaxTree, id: NodeId, v: set<NodeId>)
    requires WellFormed(t) && id in t.nodes && id !in v
    requires MarshalNode(t, id, v).result.Ok?
    ensures var own := MarshalEach(t, KindChildren(t.nodes[id]), v + {id});
      own.result.Ok? &&
      var walked := MarshalEach(t, t.inspect[id], own.visited);
      var r := MarshalNode(t, id, v).result.value;
      walked.result.Ok? && r.Some? &&
      r.value.children == own.result.value + walked.result.value &&
      SizeOf(walked.result.value) == |walked.visited - own.visited| &&
      (walked.result.value == [] <==> AllIn(t.inspect[id], own.visited))
  {
    var n := t.nodes[id];
    ClaimShrinks(t.nodes.Keys, v, id, v + {id});
    var own := MarshalEach(t, KindChildren(n), v + {id});
    ClaimShrinks(t.nodes.Keys, v, id, own.visited);
    var walked := MarshalEach(t, t.inspect[id], own.visited);
    EachEmitsOnePerClaim(t, t.inspect[id], own.visited);
    if AllIn(t.inspect[id], own.visited) {
      ClaimedNodesAddNothing(t, t.inspect[id], own.visited);
    } else {
      var i :| 0 <= i < |t.inspect[id]| && t.inspect[id][i] !in own.visited;
      EachExpandsClaims(t, t.inspect[id], own.visited);
      assert t.inspect[id][i] in walked.visited - own.visited;
    }
  }

  // ---------------------------------------------------------------------
  // A kind's own sub-nodes come first, in field order
  // ---------------------------------------------------------------------

  /** `ids` are unclaimed and each one lies outside a closed region holding
      all the ids before it: converting the earlier ones cannot claim it, as
      in a syntax tree without shared sub-nodes. */
  ghost predicate SeparatedInOrder(t: SyntaxTree, ids: seq<NodeId>, v: set<NodeId>, regions: seq<set<NodeId>>)
    requires WellFormed(t)
  {
    |regions| == |ids| &&
    forall j :: 0 <= j < |ids| ==>
      ids[j] !in v && ids[j] !in regions[j] && Closed(t, regions[j]) &&
      forall i :: 0 <= i < j ==> ids[i] in regions[j]
  }

  /** The first `k` ids of a separated list are separated by the first `k`
      regions, and they all lie in the region of the id after them. */
  lemma SeparatedPrefix(t: SyntaxTree, ids: seq<NodeId>, v: set<NodeId>, regions: seq<set<NodeId>>, k: nat)
    requires WellFormed(t) && SeparatedInOrder(t, ids, v, regions) && k < |ids|
    ensures SeparatedInOrder(t, ids[..k], v, regions[..k]) && AllIn(ids[..k], regions[k])
  {
  }

  /** What converting `ids[j]` returns when it comes right after the ids
      before it in a run starting from `v`. */
  ghost function ConversionAt(t: SyntaxTree, ids: seq<NodeId>, v: set<NodeId>, j: nat): (r: Result<Option<ASTNode>, Panic>)
    requires WellFormed(t) && AllIn(ids, t.nodes.Keys) && j < |ids|
  {
    MarshalNode(t, ids[j], MarshalEach(t, ids[..j], v).visited).result
  }

  /** The conversion at a position of a prefix is the conversion at that
      position of the whole list. */
  lemma ConversionAtPrefix(t: SyntaxTree, ids: seq<NodeId>, v: set<NodeId>, k: nat, j: nat)
    requires WellFormed(t) && AllIn(ids, t.nodes.Keys) && j < k <= |ids|
    ensures AllIn(ids[..k], t.nodes.Keys)
    ensures ConversionAt(t, ids[..k], v, j) == ConversionAt(t, ids, v, j)
  {
    assert ids[..k][..j] == ids[..j];
  }

  /** A run over separated nodes emits one node per id, in the same order:
      its j-th result is the conversion of the j-th id. */
  lemma {:induction false} EachKeepsOrder(t: SyntaxTree, ids: seq<NodeId>, v: set<NodeId>, regions: seq<set<NodeId>>)
    requires WellFormed(t) && AllIn(ids, t.nodes.Keys)
    requires SeparatedInOrder(t, ids, v, regions)
    requires MarshalEach(t, ids, v).result.Ok?
    ensures var rs := MarshalEach(t, ids, v).result.value;
      |rs| == |ids| && forall j {:trigger ConversionAt(t, ids, v, j)} :: 0 <= j < |ids| ==> ConversionAt(t, ids, v, j) == Ok(Some(rs[j]))
    decreases |ids|
  {
    if ids != [] {
      var k := |ids| - 1;
      var prefix := ids[..k];
      var before := MarshalEach(t, prefix, v);
      var step := MarshalNode(t, ids[k], before.visited);
      assert before.result.Ok? && step.result.Ok?;
      SeparatedPrefix(t, ids, v, regions, k);
      assert ids[k] !in before.visited by {
        EachClaimsWithin(t, prefix, v, regions[k]);
      }
      assert step.result.value.Some? by {
        FreshNodeIsEmitted(t, ids[k], before.visited);
      }
      var last := step.result.value.value;
      assert MarshalEach(t, ids, v).result.value == before.result.value + [last];
      assert ConversionAt(t, ids, v, k) == Ok(Some(last));
      EachKeepsOrder(t, prefix, v, regions[..k]);
      ConversionsSnoc(t, ids, v, before.result.value, last);
    }
  }

  /** The conversions at the positions of all but the last id, followed by
      the conversion at the last position, are the conversions at every
      position of the whole list. */
  lemma ConversionsSnoc(t: SyntaxTree, ids: seq<NodeId>, v: set<NodeId>, before: seq<ASTNode>, last: ASTNode)
    requires WellFormed(t) && AllIn(ids, t.nodes.Keys) && |before| == |ids| - 1
    requires AllIn(ids[..|before|], t.nodes.Keys)
    requires forall j {:trigger ConversionAt(t, ids[..|before|], v, j)} :: 0 <= j < |before| ==> ConversionAt(t, ids[..|before|], v, j) == Ok(Some(before[j]))
    requires ConversionAt(t, ids, v, |before|) == Ok(Some(last))
    ensures forall j {:trigger ConversionAt(t, ids, v, j)} :: 0 <= j < |ids| ==> ConversionAt(t, ids, v, j) == Ok(Some((before + [last])[j]))
  {
    forall j | 0 <= j < |ids| ensures ConversionAt(t, ids, v, j) == Ok(Some((before + [last])[j])) {
      if j < |before| {
        ConversionAtPrefix(t, ids, v, |before|, j);
      }
    }
  }

  /** A conversion that emits a node emits it with the node's kind name. */
  lemma EmittedHasKindName(t: SyntaxTree, x: NodeId, w: set<NodeId>, r: ASTNode)
    requires WellFormed(t) && x in t.nodes
    requires MarshalNode(t, x, w).result == Ok(Some(r))
    ensures r.nodeType == KindName(t.nodes[x])
  {
  }

  /** Results that are the conversions of `ids`, position by position, carry
      the kind names of `ids`. */
  lemma ConversionsNamed(t: SyntaxTree, ids: seq<NodeId>, w: set<NodeId>, rs: seq<ASTNode>)
    requires WellFormed(t) && AllIn(ids, t.nodes.Keys) && |rs| >= |ids|
    requires forall j {:trigger ConversionAt(t, ids, w, j)} :: 0 <= j < |ids| ==> ConversionAt(t, ids, w, j) == Ok(Some(rs[j]))
    ensures forall j :: 0 <= j < |ids| ==> rs[j].nodeType == KindName(t.nodes[ids[j]])
  {
    forall j | 0 <= j < |ids| ensures rs[j].nodeType == KindName(t.nodes[ids[j]]) {
      assert ConversionAt(t, ids, w, j) == Ok(Some(rs[j]));
      EmittedHasKindName(t, ids[j], MarshalEach(t, ids[..j], w).visited, rs[j]);
    }
  }

  /** The sub-nodes a kind reads itself come first among the children, in the
      order the kind's case reads them, when they do not share structure: the
      j-th child is the conversion of the j-th field read. Anything the
      Inspect walk adds comes after them. */
  lemma KindChildrenComeFirstInFieldOrder(t: SyntaxTree, id: NodeId, v: set<NodeId>, regions: seq<set<NodeId>>)
    requires WellFormed(t) && id in t.nodes && id !in v
    requires SeparatedInOrder(t, KindChildren(t.nodes[id]), v + {id}, regions)
    requires MarshalNode(t, id, v).result.Ok?
    ensures var r := MarshalNode(t, id, v).result.value;
      var ids := KindChildren(t.nodes[id]);
      r.Some? && |r.value.children| >= |ids| &&
      (forall j {:trigger ConversionAt(t, ids, v + {id}, j)} :: 0 <= j < |ids| ==> ConversionAt(t, ids, v + {id}, j) == Ok(Some(r.value.children[j]))) &&
      (forall j :: 0 <= j < |ids| ==> r.value.children[j].nodeType == KindName(t.nodes[ids[j]]))
  {
    var n := t.nodes[id];
    ClaimShrinks(t.nodes.Keys, v, id, v + {id});
    EachKeepsOrder(t, KindChildren(n), v + {id}, regions);
    ConversionsNamed(t, KindChildren(n), v + {id}, MarshalNode(t, id, v).result.value.value.children);
  }

  /** A function declaration with receiver, signature and body that share no
      structure: its first three children are the conversions of the
      receiver, of the signature after it and of the body after both, and
      its Name is the declared name. The Inspect walk may append more (the
      name identifier, for one). */
  lemma FuncDeclChildrenOrder(t: SyntaxTree, id: NodeId, v: set<NodeId>,
                              recv: NodeId, sig: NodeId, body: NodeId,
                              recvRegion: set<NodeId>, headRegion: set<NodeId>)
    requires WellFormed(t) && id in t.nodes && id !in v
    requires t.nodes[id].FuncDecl?
    requires t.nodes[id].recv == Some(recv) && t.nodes[id].typ == Some(sig) && t.nodes[id].body == Some(body)
    requires recv in t.nodes && sig in t.nodes && body in t.nodes
    requires recv !in v + {id} && sig !in v + {id} && body !in v + {id}
    requires Closed(t, recvRegion) && recv in recvRegion && sig !in recvRegion
    requires Closed(t, headRegion) && recv in headRegion && sig in headRegion && body !in headRegion
    requires MarshalNode(t, id, v).result.Ok?
    ensures var r := MarshalNode(t, id, v).result.value;
      var afterRecv := MarshalNode(t, recv, v + {id});
      var afterSig := MarshalNode(t, sig, afterRecv.visited);
      r.Some? && r.value.name == t.nodes[id].name && |r.value.children| >= 3 &&
      afterRecv.result == Ok(Some(r.value.children[0])) &&
      afterSig.result == Ok(Some(r.value.children[1])) &&
      MarshalNode(t, body, afterSig.visited).result == Ok(Some(r.value.children[2]))
  {
    FuncDeclSeparated(t, id, v, recv, sig, body, recvRegion, headRegion);
    KindChildrenComeFirstInFieldOrder(t, id, v, [{}, recvRegion, headRegion]);
    NodeFieldsFollowKind(t, id, v);
    var r := MarshalNode(t, id, v).result.value.value;
    ConversionsOfThree(t, recv, sig, body, v + {id}, r.children);
  }

  /** The conversions at the three positions of `[a, b, c]`, spelled out:
      `a` from `w`, `b` after `a`, `c` after both. */
  lemma ConversionsOfThree(t: SyntaxTree, a: NodeId, b: NodeId, c: NodeId, w: set<NodeId>, children: seq<ASTNode>)
    requires WellFormed(t) && a in t.nodes && b in t.nodes && c in t.nodes && |children| >= 3
    requires AllIn([a, b, c], t.nodes.Keys)
    requires forall j {:trigger ConversionAt(t, [a, b, c], w, j)} :: 0 <= j < 3 ==> ConversionAt(t, [a, b, c], w, j) == Ok(Some(children[j]))
    ensures var afterA := MarshalNode(t, a, w);
      var afterB := MarshalNode(t, b, afterA.visited);
      afterA.result == Ok(Some(children[0])) &&
      afterB.result == Ok(Some(children[1])) &&
      MarshalNode(t, c, afterB.visited).result == Ok(Some(children[2]))
  {
    var ids := [a, b, c];
    assert ConversionAt(t, ids, w, 0) == Ok(Some(children[0]));
    assert ConversionAt(t, ids, w, 1) == Ok(Some(children[1]));
    assert ConversionAt(t, ids, w, 2) == Ok(Some(children[2]));
    assert ids[..0] == [];
    EachStep(t, ids, 0, w);
    EachStep(t, ids, 1, w);
  }

  /** The receiver, signature and body a function declaration reads, in that
      order, are separated by the empty region, the receiver's region and the
      region of receiver and signature. */
  lemma FuncDeclSeparated(t: SyntaxTree, id: NodeId, v: set<NodeId>,
                          recv: NodeId, sig: NodeId, body: NodeId,
                          recvRegion: set<NodeId>, headRegion: set<NodeId>)
    requires WellFormed(t) && id in t.nodes && t.nodes[id].FuncDecl?
    requires t.nodes[id].recv == Some(recv) && t.nodes[id].typ == Some(sig) && t.nodes[id].body == Some(body)
    requires recv !in v + {id} && sig !in v + {id} && body !in v + {id}
    requires Closed(t, recvRegion) && recv in recvRegion && sig !in recvRegion
    requires Closed(t, headRegion) && recv in headRegion && sig in headRegion && body !in headRegion
    ensures KindChildren(t.nodes[id]) == [recv, sig, body]
    ensures SeparatedInOrder(t, [recv, sig, body], v + {id}, [{}, recvRegion, headRegion])
  {
    assert Closed(t, {});
  }

  /** A function declaration whose Inspect walk meets a node outside a closed
      region holding its receiver, signature and body (its Name identifier,
      which the FuncDecl case reads the text of but never converts) gets more
      than those three children: the walk appends that node after them. */
  lemma FuncDeclGainsItsNameIdentifier(t: SyntaxTree, id: NodeId, v: set<NodeId>,
                                       recv: NodeId, sig: NodeId, body: NodeId, nameId: NodeId,
                                       recvRegion: set<NodeId>, headRegion: set<NodeId>, declRegion: set<NodeId>)
    requires WellFormed(t) && id in t.nodes && id !in v
    requires t.nodes[id].FuncDecl?
    requires t.nodes[id].recv == Some(recv) && t.nodes[id].typ == Some(sig) && t.nodes[id].body == Some(body)
    requires recv !in v + {id} && sig !in v + {id} && body !in v + {id}
    requires Closed(t, recvRegion) && recv in recvRegion && sig !in recvRegion
    requires Closed(t, headRegion) && recv in headRegion && sig in headRegion && body !in headRegion
    requires Closed(t, declRegion) && recv in declRegion && sig in declRegion && body in declRegion
    requires nameId in t.inspect[id] && nameId !in v + {id} && nameId !in declRegion
    requires MarshalNode(t, id, v).result.Ok?
    ensures var r := MarshalNode(t, id, v).result.value;
      r.Some? && |r.value.children| > 3
  {
    FuncDeclSeparated(t, id, v, recv, sig, body, recvRegion, headRegion);
    var ids := KindChildren(t.nodes[id]);
    assert AllIn(ids, declRegion);
    EachClaimsWithin(t, ids, v + {id}, declRegion);
    var own := MarshalEach(t, ids, v + {id});
    assert |own.result.value| == 3 by {
      EachKeepsOrder(t, ids, v + {id}, [{}, recvRegion, headRegion]);
    }
    InspectPassAddsOnlyUnclaimed(t, id, v);
    assert nameId !in own.visited;
  }
}
