/** What the two searches find, said of the trees alone. */
module SearchMeaning {
  import opened Repo
  import NameOrder
  import TreeBuild
  import opened Search
  import opened Matching

  // ---------------------------------------------------------------- one path

  /** v is the first node of that name in the tree of u, which can be loaded. */
  ghost predicate ChildOf(ok: Loader, u: Node, name: Name, v: Node)
  {
    u.subtree.Some? && u.subtree.value.TreeBlob? && ok(u.subtree.value) && FirstNamed(u.subtree.value.nodes, name, v)
  }

  /** The node has no child of that name, and why. */
  ghost predicate Stuck(ok: Loader, u: Node, name: Name, w: Walk)
  {
    match w
    case Missing =>
      && u.subtree.Some? && u.subtree.value.TreeBlob? && ok(u.subtree.value)
      && forall n :: n in u.subtree.value.nodes ==> n.name != name
    case NotDir => u.subtree.None?
    case Broken => u.subtree.Some? && (!u.subtree.value.TreeBlob? || !ok(u.subtree.value))
    case _ => false
  }

  /** The nodes along the names. */
  ghost predicate Trail(ok: Loader, trail: seq<Node>, names: seq<Name>)
  {
    |trail| == |names| + 1 && forall k :: 0 <= k < |names| ==> ChildOf(ok, trail[k], names[k], trail[k + 1])
  }

  /** Where the names lead from the node: to a node, or to one where they get stuck. */
  ghost predicate LeadsTo(ok: Loader, node: Node, names: seq<Name>, w: Walk)
  {
    if w.Found? then exists trail :: Trail(ok, trail, names) && trail[0] == node && trail[|names|] == w.node
    else exists k, trail :: 0 <= k < |names| && Trail(ok, trail, names[..k]) && trail[0] == node &&
                              Stuck(ok, trail[k], names[k], w)
  }

  lemma {:induction false} TrailFirst(ok: Loader, trail: seq<Node>, names: seq<Name>)
    requires |trail| > 1 && names != []
    ensures Trail(ok, trail, names) <==> ChildOf(ok, trail[0], names[0], trail[1]) && Trail(ok, trail[1..], names[1..])
  {
    if ChildOf(ok, trail[0], names[0], trail[1]) && Trail(ok, trail[1..], names[1..]) {
      forall k | 0 <= k < |names| ensures ChildOf(ok, trail[k], names[k], trail[k + 1]) {
        if k > 0 { assert ChildOf(ok, trail[1..][k - 1], names[1..][k - 1], trail[1..][k - 1 + 1]); }
      }
    }
  }

  lemma {:induction false} LeadsFirst(ok: Loader, node: Node, names: seq<Name>, w: Walk, next: Node)
    requires names != [] && ChildOf(ok, node, names[0], next) && LeadsTo(ok, next, names[1..], w)
    ensures LeadsTo(ok, node, names, w)
  {
    if w.Found? {
      var trail :| Trail(ok, trail, names[1..]) && trail[0] == next && trail[|names[1..]|] == w.node;
      TrailFirst(ok, [node] + trail, names);
      assert ([node] + trail)[1..] == trail;
    } else {
      var k, trail :| 0 <= k < |names[1..]| && Trail(ok, trail, names[1..][..k]) && trail[0] == next &&
                      Stuck(ok, trail[k], names[1..][k], w);
      assert names[..k + 1][1..] == names[1..][..k] && ([node] + trail)[1..] == trail;
      TrailFirst(ok, [node] + trail, names[..k + 1]);
    }
  }

  lemma {:induction false} LeadsBack(ok: Loader, node: Node, names: seq<Name>, w: Walk)
    requires names != [] && LeadsTo(ok, node, names, w)
    ensures Stuck(ok, node, names[0], w) ||
              exists next :: ChildOf(ok, node, names[0], next) && LeadsTo(ok, next, names[1..], w)
  {
    if w.Found? {
      var trail :| Trail(ok, trail, names) && trail[0] == node && trail[|names|] == w.node;
      TrailFirst(ok, trail, names);
    } else {
      var k, trail :| 0 <= k < |names| && Trail(ok, trail, names[..k]) && trail[0] == node &&
                      Stuck(ok, trail[k], names[k], w);
      if k > 0 {
        assert names[..k][1..] == names[1..][..k - 1];
        TrailFirst(ok, trail, names[..k]);
        assert Stuck(ok, trail[1..][k - 1], names[1..][k - 1], w);
      }
    }
  }

  lemma {:induction false} DownIs(ok: Loader, node: Node, name: Name)
    ensures var w := Down(ok, node, name);
      && (forall v :: w == Found(v) <==> ChildOf(ok, node, name, v))
      && (forall x :: Stuck(ok, node, name, x) <==> x == w && !w.Found?)
  {
    if node.subtree.Some? && node.subtree.value.TreeBlob? { LookupIs(node.subtree.value.nodes, name); }
  }

  /** The plain walk gives w exactly if the names lead there: to a node through the first node of each name, or to the
      place where they get stuck, for the right reason. */
  lemma {:induction false} WalkIs(ok: Loader, node: Node, names: seq<Name>, w: Walk)
    ensures WalkFrom(ok, node, names) == w <==> LeadsTo(ok, node, names, w)
    decreases |names|
  {
    if names == [] {
      assert Trail(ok, [node], names);
    } else {
      DownIs(ok, node, names[0]);
      var next := Down(ok, node, names[0]);
      if next.Found? {
        WalkIs(ok, next.node, names[1..], w);
        if LeadsTo(ok, next.node, names[1..], w) { LeadsFirst(ok, node, names, w, next.node); }
      } else if next == w {
        assert Trail(ok, [node], names[..0]) && Stuck(ok, [node][0], names[0], w);
      }
      if LeadsTo(ok, node, names, w) { LeadsBack(ok, node, names, w); }
    }
  }

  /** The names of a path are its named components, up to the first `.` or `..`. */
  lemma {:induction false} LeadingIs(path: TreeBuild.Path, k: nat)
    requires k <= |path| && (forall j :: 0 <= j < k ==> !Dotted(path[j])) && (k < |path| ==> Dotted(path[k]))
    ensures Leading(path) == TreeBuild.Names(path[..k])
    decreases |path|
  {
    if k > 0 {
      LeadingIs(path[1..], k - 1);
      assert path[1..][..k - 1] == path[..k][1..];
      NamesFirst(path[..k]);
    }
  }

  lemma {:induction false} NamesFirst(path: TreeBuild.Path)
    requires path != []
    ensures TreeBuild.Names(path) == (if path[0].Normal? then [path[0].name] else []) + TreeBuild.Names(path[1..])
    decreases |path|
  {
    if |path| > 1 {
      NamesFirst(path[..|path| - 1]);
      assert path[1..][..|path| - 2] == path[..|path| - 1][1..];
      var last := path[|path| - 1];
      Assoc(if path[0].Normal? then [path[0].name] else [], TreeBuild.Names(path[1..][..|path| - 2]),
            if last.Normal? then [last.name] else []);
    } else {
      assert path[1..] == [] && path[..0] == [];
    }
  }

  // ---------------------------------------------------------------- matching nodes

  /** The node lies at the path in the tree: the names lead to it through directories. */
  ghost predicate Lies(nodes: seq<Node>, path: Path, n: Node)
    decreases |path|, 1
  {
    exists m :: m in nodes && LiesAt(m, path, n)
  }

  /** ... starting with the node m. */
  ghost predicate LiesAt(m: Node, path: Path, n: Node)
    decreases |path|, 0
  {
    && path != [] && m.name == path[0]
    && if |path| == 1 then m == n
       else m.nodeType.Dir? && m.subtree.Some? && m.subtree.value.TreeBlob? &&
              Lies(m.subtree.value.nodes, path[1..], n)
  }

  ghost predicate LiesBelow(id: BlobId, path: Path, n: Node) { id.TreeBlob? && Lies(id.nodes, path, n) }

  lemma {:induction false} LiesFirst(nodes: seq<Node>, path: Path, n: Node)
    requires nodes != []
    ensures Lies(nodes, path, n) <==> LiesAt(nodes[0], path, n) || Lies(nodes[1..], path, n)
  {
    assert nodes == [nodes[0]] + nodes[1..];
    assert nodes[0] in nodes && forall m :: m in nodes[1..] ==> m in nodes;
  }

  // ---------------------------------------------------------------- the hits

  /** The path leads on from `at`, and what lies there matches. */
  ghost predicate HitAt(test: Test, nodes: seq<Node>, at: Path, p: Path, n: Node)
  {
    at <= p && Lies(nodes, p[|at|..], n) && test(p, n)
  }

  lemma {:induction false} Deeper(at: Path, name: Name, p: Path)
    ensures at + [name] <= p <==> at <= p && |p| > |at| && p[|at|] == name
    ensures at + [name] <= p ==> p[|at + [name]|..] == p[|at|..][1..] && p[|at|..][0] == name
  {
  }

  /** The hits of one node: those inside it, and itself. */
  lemma {:induction false} OneNodeHits(ok: Loader, test: Test, m: Node, at: Path, p: Path, n: Node)
    requires InnerHits(ok, test, m, at + [m.name]).Some?
    requires m.nodeType.Dir? ==> m.subtree.Some? && m.subtree.value.TreeBlob?
    requires m.nodeType.Dir? ==> ((p, n) in TreeHits(ok, test, m.subtree.value, at + [m.name]).value <==>
                                    HitAt(test, m.subtree.value.nodes, at + [m.name], p, n))
    ensures (p, n) in InnerHits(ok, test, m, at + [m.name]).value + Here(test, at + [m.name], m) <==>
              at <= p && LiesAt(m, p[|at|..], n) && test(p, n)
  {
    var q := at + [m.name];
    Deeper(at, m.name, p);
    var inner := InnerHits(ok, test, m, q).value;
    assert (p, n) in inner + Here(test, q, m) <==> (p, n) in inner || (p, n) in Here(test, q, m);
    if q <= p {
      var rel := p[|at|..];
      if |rel| == 1 {
        assert p == q && p[|q|..] == [];
        assert m.nodeType.Dir? ==> !Lies(m.subtree.value.nodes, [], n);
        assert (p, n) !in inner;
      } else {
        assert p != q && p[|q|..] == rel[1..];
      }
    }
  }

  lemma {:induction false} NodeHitsAre(ok: Loader, test: Test, nodes: seq<Node>, at: Path, p: Path, n: Node)
    requires NodeHits(ok, test, nodes, at).Some?
    ensures (p, n) in NodeHits(ok, test, nodes, at).value <==> HitAt(test, nodes, at, p, n)
    decreases nodes, 0
  {
    if nodes != [] {
      var m := nodes[0];
      if m.nodeType.Dir? { HitsAre(ok, test, m.subtree.value, at + [m.name], p, n); }
      OneNodeHits(ok, test, m, at, p, n);
      NodeHitsAre(ok, test, nodes[1..], at, p, n);
      if at <= p { LiesFirst(nodes, p[|at|..], n); }
      var first := InnerHits(ok, test, m, at + [m.name]).value + Here(test, at + [m.name], m);
      assert NodeHits(ok, test, nodes, at).value == first + NodeHits(ok, test, nodes[1..], at).value;
    }
  }

  /** Without an error the search below a tree finds exactly the nodes that lie below it and match, each with its
      path. */
  lemma {:induction false} HitsAre(ok: Loader, test: Test, id: BlobId, at: Path, p: Path, n: Node)
    requires TreeHits(ok, test, id, at).Some?
    ensures (p, n) in TreeHits(ok, test, id, at).value <==>
              at <= p && LiesBelow(id, p[|at|..], n) && test(p, n)
    decreases id, 1
  {
    NodeHitsAre(ok, test, id.nodes, at, p, n);
  }

  // ---------------------------------------------------------------- errors

  /** A directory without a tree that can be loaded. */
  predicate Bad(ok: Loader, d: Node) { d.nodeType.Dir? && (d.subtree.None? || Load(ok, d.subtree.value).None?) }

  ghost predicate HasBad(ok: Loader, nodes: seq<Node>)
  {
    exists path, d :: Lies(nodes, path, d) && Bad(ok, d)
  }

  lemma {:induction false} BadFirst(ok: Loader, nodes: seq<Node>)
    requires nodes != []
    ensures var m := nodes[0];
      HasBad(ok, nodes) <==>
        Bad(ok, m) || (m.nodeType.Dir? && HasBad(ok, m.subtree.value.nodes)) || HasBad(ok, nodes[1..])
  {
    var m := nodes[0];
    if path, d :| Lies(nodes, path, d) && Bad(ok, d) {
      LiesFirst(nodes, path, d);
      if LiesAt(m, path, d) && |path| > 1 { assert Lies(m.subtree.value.nodes, path[1..], d); }
    }
    if Bad(ok, m) { LiesHere(nodes, m); }
    else if m.nodeType.Dir? && HasBad(ok, m.subtree.value.nodes) {
      var path, d :| Lies(m.subtree.value.nodes, path, d) && Bad(ok, d);
      LiesInside(nodes, m, path, d);
    }
    if path, d :| Lies(nodes[1..], path, d) && Bad(ok, d) { LiesFirst(nodes, path, d); }
  }

  lemma {:induction false} LiesHere(nodes: seq<Node>, m: Node)
    requires m in nodes
    ensures Lies(nodes, [m.name], m)
  {
    assert LiesAt(m, [m.name], m);
  }

  lemma {:induction false} LiesInside(nodes: seq<Node>, m: Node, path: Path, d: Node)
    requires m in nodes && m.nodeType.Dir? && m.subtree.Some? && m.subtree.value.TreeBlob?
    requires Lies(m.subtree.value.nodes, path, d)
    ensures Lies(nodes, [m.name] + path, d)
  {
    assert path != [] by { var x :| x in m.subtree.value.nodes && LiesAt(x, path, d); }
    assert ([m.name] + path)[1..] == path;
    assert LiesAt(m, [m.name] + path, d);
  }

  lemma {:induction false} NodesFailIff(ok: Loader, test: Test, nodes: seq<Node>, at: Path)
    ensures NodeHits(ok, test, nodes, at).None? <==> HasBad(ok, nodes)
    decreases nodes, 0
  {
    if nodes == [] {
      assert forall path, d :: !Lies(nodes, path, d);
    } else {
      BadFirst(ok, nodes);
      NodesFailIff(ok, test, nodes[1..], at);
      var m := nodes[0];
      if m.nodeType.Dir? && m.subtree.Some? { SearchFailsIff(ok, test, m.subtree.value, at + [m.name]); }
    }
  }

  /** The search fails if and only if the tree, or that of some directory below it, cannot be loaded or is not
      there. */
  lemma {:induction false} SearchFailsIff(ok: Loader, test: Test, id: BlobId, at: Path)
    ensures TreeHits(ok, test, id, at).None? <==> Load(ok, id).None? || HasBad(ok, id.nodes)
    decreases id, 1
  {
    if id.TreeBlob? { NodesFailIff(ok, test, id.nodes, at); }
  }

  // ---------------------------------------------------------------- order

  /** p comes before q: it goes through an earlier node, or they go through the same directory and p ends inside it,
      before q if q ends there too. */
  ghost predicate Precedes(nodes: seq<Node>, p: Path, q: Path)
    decreases |p|
  {
    && p != [] && q != []
    && exists a, b :: 0 <= a < |nodes| && 0 <= b < |nodes| && nodes[a].name == p[0] && nodes[b].name == q[0] &&
         (a < b || (a == b && PrecedesInside(nodes[a], p, q)))
  }

  ghost predicate PrecedesInside(m: Node, p: Path, q: Path)
    requires p != [] && q != []
    decreases |p|, 0
  {
    |p| > 1 && (|q| == 1 || (m.subtree.Some? && m.subtree.value.TreeBlob? &&
                               Precedes(m.subtree.value.nodes, p[1..], q[1..])))
  }

  /** Every hit goes on from `at` with the name of some node. */
  ghost predicate StartsIn(nodes: seq<Node>, at: Path, p: Path)
  {
    at <= p && |p| > |at| && exists k :: 0 <= k < |nodes| && nodes[k].name == p[|at|]
  }

  ghost predicate Sequenced(nodes: seq<Node>, at: Path, hits: Hits)
  {
    && (forall h :: h in hits ==> StartsIn(nodes, at, h.0))
    && forall i, j :: 0 <= i < j < |hits| ==> Precedes(nodes, hits[i].0[|at|..], hits[j].0[|at|..])
  }

  lemma {:induction false} Later(nodes: seq<Node>, at: Path, hits: Hits)
    requires nodes != [] && Sequenced(nodes[1..], at, hits)
    ensures Sequenced(nodes, at, hits)
  {
    forall h: (Path, Node) | h in hits ensures StartsIn(nodes, at, h.0) {
      var k :| 0 <= k < |nodes[1..]| && nodes[1..][k].name == h.0[|at|];
      assert nodes[k + 1].name == h.0[|at|];
    }
    forall i, j | 0 <= i < j < |hits| ensures Precedes(nodes, hits[i].0[|at|..], hits[j].0[|at|..]) {
      PrecedesLater(nodes, hits[i].0[|at|..], hits[j].0[|at|..]);
    }
  }

  lemma {:induction false} PrecedesLater(nodes: seq<Node>, p: Path, q: Path)
    requires nodes != [] && Precedes(nodes[1..], p, q)
    ensures Precedes(nodes, p, q)
  {
    var rest := nodes[1..];
    var a, b :| 0 <= a < |rest| && 0 <= b < |rest| && rest[a].name == p[0] && rest[b].name == q[0] &&
                (a < b || (a == b && PrecedesInside(rest[a], p, q)));
    assert nodes[a + 1] == rest[a] && nodes[b + 1] == rest[b];
  }

  /** The hits of the first node: those inside it in their order, then itself. */
  lemma {:induction false} FirstSequenced(ok: Loader, test: Test, nodes: seq<Node>, at: Path)
    requires nodes != [] && InnerHits(ok, test, nodes[0], at + [nodes[0].name]).Some?
    requires nodes[0].nodeType.Dir? ==> nodes[0].subtree.value.TreeBlob?
    requires var m, q := nodes[0], at + [nodes[0].name];
      m.nodeType.Dir? ==> Sequenced(m.subtree.value.nodes, q, TreeHits(ok, test, m.subtree.value, q).value)
    ensures var q := at + [nodes[0].name];
      Sequenced(nodes, at, InnerHits(ok, test, nodes[0], q).value + Here(test, q, nodes[0]))
    ensures var q := at + [nodes[0].name];
      forall h :: h in InnerHits(ok, test, nodes[0], q).value + Here(test, q, nodes[0]) ==>
        h.0[|at|] == nodes[0].name
  {
    var m, q := nodes[0], at + [nodes[0].name];
    var inner, here := InnerHits(ok, test, m, q).value, Here(test, q, m);
    var hits := inner + here;
    forall h: (Path, Node) | h in hits ensures StartsIn(nodes, at, h.0) && h.0[|at|] == m.name {
      if h in inner { assert StartsIn(m.subtree.value.nodes, q, h.0); }
      Deeper(at, m.name, h.0);
      assert nodes[0].name == h.0[|at|];
    }
    forall i, j | 0 <= i < j < |hits| ensures Precedes(nodes, hits[i].0[|at|..], hits[j].0[|at|..]) {
      assert hits[i] == inner[i] && hits[i] in inner && hits[j] in hits;
      Deeper(at, m.name, hits[i].0);
      Deeper(at, m.name, hits[j].0);
      assert StartsIn(m.subtree.value.nodes, q, hits[i].0);
      if j < |inner| { assert hits[j] == inner[j]; } else { assert hits[j] == here[0]; }
      assert PrecedesInside(nodes[0], hits[i].0[|at|..], hits[j].0[|at|..]);
    }
  }

  lemma {:induction false} Joined(nodes: seq<Node>, at: Path, first: Hits, rest: Hits)
    requires nodes != [] && Sequenced(nodes, at, first) && Sequenced(nodes[1..], at, rest)
    requires forall h :: h in first ==> h.0[|at|] == nodes[0].name
    ensures Sequenced(nodes, at, first + rest)
  {
    Later(nodes, at, rest);
    var hits := first + rest;
    forall i, j | 0 <= i < j < |hits| ensures Precedes(nodes, hits[i].0[|at|..], hits[j].0[|at|..]) {
      if i < |first| <= j {
        assert hits[i] in first && hits[j] in rest;
        var k :| 0 <= k < |nodes[1..]| && nodes[1..][k].name == hits[j].0[|at|];
        assert nodes[k + 1].name == hits[j].0[|at|..][0] && nodes[0].name == hits[i].0[|at|..][0];
      } else if j < |first| {
        assert hits[i] == first[i] && hits[j] == first[j];
      } else {
        assert hits[i] == rest[i - |first|] && hits[j] == rest[j - |first|];
      }
    }
  }

  lemma {:induction false} NodesSequenced(ok: Loader, test: Test, nodes: seq<Node>, at: Path)
    requires NodeHits(ok, test, nodes, at).Some?
    ensures Sequenced(nodes, at, NodeHits(ok, test, nodes, at).value)
    decreases nodes, 0
  {
    if nodes != [] {
      var m := nodes[0];
      if m.nodeType.Dir? { HitsInOrder(ok, test, m.subtree.value, at + [m.name]); }
      FirstSequenced(ok, test, nodes, at);
      NodesSequenced(ok, test, nodes[1..], at);
      Joined(nodes, at, InnerHits(ok, test, m, at + [m.name]).value + Here(test, at + [m.name], m),
             NodeHits(ok, test, nodes[1..], at).value);
    }
  }

  /** The hits come in the order of the trees, what is inside a directory before the directory. */
  lemma {:induction false} HitsInOrder(ok: Loader, test: Test, id: BlobId, at: Path)
    requires TreeHits(ok, test, id, at).Some?
    ensures id.TreeBlob? && Sequenced(id.nodes, at, TreeHits(ok, test, id, at).value)
    decreases id, 1
  {
    NodesSequenced(ok, test, id.nodes, at);
  }

  /** Names are different in every directory. */
  ghost predicate AllDistinct(nodes: seq<Node>)
    decreases nodes
  {
    && NameOrder.DistinctNames(nodes)
    && forall n :: n in nodes && n.subtree.Some? && n.subtree.value.TreeBlob? ==> AllDistinct(n.subtree.value.nodes)
  }

  /** With different names nothing comes before itself, nor a directory before what is inside it. */
  lemma {:induction false} NotBeforeInside(nodes: seq<Node>, p: Path, q: Path)
    requires AllDistinct(nodes) && p <= q
    ensures !Precedes(nodes, p, q)
    decreases |p|
  {
    if Precedes(nodes, p, q) {
      var a, b :| 0 <= a < |nodes| && 0 <= b < |nodes| && nodes[a].name == p[0] && nodes[b].name == q[0] &&
                  (a < b || (a == b && PrecedesInside(nodes[a], p, q)));
      assert p[0] == q[0] && a == b && nodes[a] in nodes;
      NotBeforeInside(nodes[a].subtree.value.nodes, p[1..], q[1..]);
    }
  }

  /** In trees with different names no path is found twice, and a directory is found after everything inside it. */
  lemma {:induction false} EachHitOnce(ok: Loader, test: Test, id: BlobId, i: nat, j: nat)
    requires TreeHits(ok, test, id, []).Some? && i < j < |TreeHits(ok, test, id, []).value|
    requires id.TreeBlob? && AllDistinct(id.nodes)
    ensures !(TreeHits(ok, test, id, []).value[i].0 <= TreeHits(ok, test, id, []).value[j].0)
  {
    HitsInOrder(ok, test, id, []);
    var hits := TreeHits(ok, test, id, []).value;
    assert hits[i].0[0..] == hits[i].0 && hits[j].0[0..] == hits[j].0;
    if hits[i].0 <= hits[j].0 { NotBeforeInside(id.nodes, hits[i].0, hits[j].0); }
  }
}
