/** `find_matching_nodes`: the memoised search for matching nodes, against the plain recursion. */
module Matching {
  import opened Repo
  import opened Search

  type Path = seq<Name>

  type Test = (Path, Node) -> bool

  // ---------------------------------------------------------------- the plain recursion

  type Hits = seq<(Path, Node)>

  function Here(test: Test, path: Path, n: Node): Hits { if test(path, n) then [(path, n)] else [] }

  /** All matching nodes below a tree, the contents of a directory before the directory itself; None
      if a tree cannot be loaded or a directory has no subtree. */
  function TreeHits(ok: Loader, test: Test, id: BlobId, path: Path): Option<Hits>
    decreases id, 1
  {
    if Load(ok, id).None? then None else NodeHits(ok, test, id.nodes, path)
  }

  function InnerHits(ok: Loader, test: Test, n: Node, path: Path): Option<Hits>
    decreases n, 0
  {
    if !n.nodeType.Dir? then Some([])
    else if n.subtree.None? then None
    else TreeHits(ok, test, n.subtree.value, path)
  }

  function NodeHits(ok: Loader, test: Test, nodes: seq<Node>, path: Path): Option<Hits>
    decreases nodes, 0
  {
    if nodes == [] then Some([])
    else
      var n, p := nodes[0], path + [nodes[0].name];
      var inner := InnerHits(ok, test, n, p);
      if inner.None? then None
      else Then(inner.value + Here(test, p, n), NodeHits(ok, test, nodes[1..], path))
  }

  function Then(hits: Hits, rest: Option<Hits>): Option<Hits>
  {
    if rest.None? then None else Some(hits + rest.value)
  }

  lemma {:induction false} ThenThen(a: Hits, b: Hits, rest: Option<Hits>)
    ensures Then(a, Then(b, rest)) == Then(a + b, rest)
  {
    if rest.Some? { assert a + (b + rest.value) == a + b + rest.value; }
  }

  // ---------------------------------------------------------------- numbered results

  type Found = seq<(nat, nat)>

  /** The numbers in `found` stand for the paths and nodes of `hits`. */
  ghost predicate Decodes(paths: seq<Path>, nodes: seq<Node>, found: Found, hits: Hits)
  {
    && |found| == |hits|
    && forall k :: 0 <= k < |found| ==>
         && found[k].0 < |paths| && paths[found[k].0] == hits[k].0
         && found[k].1 < |nodes| && nodes[found[k].1] == hits[k].1
  }

  lemma {:induction false} DecodesLater(paths: seq<Path>, nodes: seq<Node>, paths': seq<Path>, nodes': seq<Node>,
                                        found: Found, hits: Hits)
    requires Decodes(paths, nodes, found, hits) && paths <= paths' && nodes <= nodes'
    ensures Decodes(paths', nodes', found, hits)
  {
  }

  lemma {:induction false} DecodesConcat(paths: seq<Path>, nodes: seq<Node>, f: Found, g: Found, h: Hits, i: Hits)
    requires Decodes(paths, nodes, f, h) && Decodes(paths, nodes, g, i)
    ensures Decodes(paths, nodes, f + g, h + i)
  {
  }

  ghost predicate PathIn(found: Found, k: int) { exists f :: f in found && f.0 == k }

  ghost predicate NodeIn(found: Found, k: int) { exists f :: f in found && f.1 == k }

  /** Every number given out since there were p paths and n nodes is in use. */
  ghost predicate UsesNew(paths: seq<Path>, nodes: seq<Node>, p: nat, n: nat, found: Found)
  {
    && (forall k :: p <= k < |paths| ==> PathIn(found, k))
    && (forall k :: n <= k < |nodes| ==> NodeIn(found, k))
  }

  lemma {:induction false} NewIsLast<T>(order: seq<T>, x: T, k: nat)
    requires k < |Listed(order, x)| && Listed(order, x)[k] == x
    ensures |Listed(order, x)| > |order| ==> |Listed(order, x)| == |order| + 1 && k == |order|
  {
    assert forall j :: 0 <= j < |order| ==> order[j] in order;
  }

  lemma {:induction false} OneHit(paths: seq<Path>, nodes: seq<Node>, path: Path, node: Node, r: (nat, nat))
    requires r.0 < |Listed(paths, path)| && Listed(paths, path)[r.0] == path
    requires r.1 < |Listed(nodes, node)| && Listed(nodes, node)[r.1] == node
    ensures Decodes(Listed(paths, path), Listed(nodes, node), [r], [(path, node)])
    ensures UsesNew(Listed(paths, path), Listed(nodes, node), |paths|, |nodes|, [r])
  {
    assert r in [r];
    NewIsLast(paths, path, r.0);
    NewIsLast(nodes, node, r.1);
  }

  lemma {:induction false} InConcat(f: Found, g: Found, k: int)
    ensures PathIn(f, k) || PathIn(g, k) ==> PathIn(f + g, k)
    ensures NodeIn(f, k) || NodeIn(g, k) ==> NodeIn(f + g, k)
  {
    assert forall x :: x in f || x in g ==> x in f + g;
  }

  lemma {:induction false} UsesConcat(paths: seq<Path>, nodes: seq<Node>, paths': seq<Path>, nodes': seq<Node>, p: nat,
                                      n: nat, f: Found, g: Found)
    requires UsesNew(paths, nodes, p, n, f) && UsesNew(paths', nodes', |paths|, |nodes|, g)
    ensures UsesNew(paths', nodes', p, n, f + g)
  {
    forall k | p <= k < |paths'| ensures PathIn(f + g, k) { InConcat(f, g, k); }
    forall k | n <= k < |nodes'| ensures NodeIn(f + g, k) { InConcat(f, g, k); }
  }

  class MatchFinder {
    const ok: Loader
    const test: Test
    var cache: map<(BlobId, Path), Found>
    var nodes: map<Node, nat>
    var paths: map<Path, nat>
    ghost var nodeOrder: seq<Node>
    ghost var pathOrder: seq<Path>

    constructor (ok: Loader, test: Test)
      ensures Valid() && nodeOrder == [] && pathOrder == [] && this.ok == ok && this.test == test
    {
      this.ok, this.test := ok, test;
      cache, nodes, paths, nodeOrder, pathOrder := map[], map[], map[], [], [];
    }

    ghost predicate Remembers(pathOrder: seq<Path>, nodeOrder: seq<Node>)
      reads this`cache
    {
      forall id, path :: (id, path) in cache ==>
        && TreeHits(ok, test, id, path).Some?
        && Decodes(pathOrder, nodeOrder, cache[(id, path)], TreeHits(ok, test, id, path).value)
    }

    ghost predicate Valid()
      reads this
    {
      Numbers(nodes, nodeOrder) && Numbers(paths, pathOrder) && Remembers(pathOrder, nodeOrder)
    }

    lemma {:induction false} StillRemembers(paths: seq<Path>, nodes: seq<Node>, paths': seq<Path>, nodes': seq<Node>)
      requires Remembers(paths, nodes) && paths <= paths' && nodes <= nodes'
      ensures Remembers(paths', nodes')
    {
      forall id, p | (id, p) in cache ensures Decodes(paths', nodes', cache[(id, p)], TreeHits(ok, test, id, p).value) {
        DecodesLater(paths, nodes, paths', nodes', cache[(id, p)], TreeHits(ok, test, id, p).value);
      }
    }

    method InsertResult(path: Path, node: Node) returns (r: (nat, nat))
      requires Valid()
      modifies this`nodes, this`paths, this`nodeOrder, this`pathOrder
      ensures Valid() && old(pathOrder) <= pathOrder && old(nodeOrder) <= nodeOrder
      ensures Decodes(pathOrder, nodeOrder, [r], [(path, node)])
      ensures UsesNew(pathOrder, nodeOrder, |old(pathOrder)|, |old(nodeOrder)|, [r])
    {
      var n := NumberNode(node);
      var p := NumberPath(path);
      r := (p, n);
      OneHit(old(pathOrder), old(nodeOrder), path, node, r);
    }

    method NumberNode(node: Node) returns (n: nat)
      requires Valid()
      modifies this`nodes, this`nodeOrder
      ensures Valid() && nodeOrder == Listed(old(nodeOrder), node)
      ensures n < |nodeOrder| && nodeOrder[n] == node && old(nodeOrder) <= nodeOrder
    {
      InternNumbers(nodes, nodeOrder, node);
      StillRemembers(pathOrder, nodeOrder, pathOrder, Listed(nodeOrder, node));
      var r := Intern(nodes, node);
      nodes, nodeOrder, n := r.0, Listed(nodeOrder, node), r.1;
    }

    method NumberPath(path: Path) returns (p: nat)
      requires Valid()
      modifies this`paths, this`pathOrder
      ensures Valid() && pathOrder == Listed(old(pathOrder), path)
      ensures p < |pathOrder| && pathOrder[p] == path && old(pathOrder) <= pathOrder
    {
      InternNumbers(paths, pathOrder, path);
      StillRemembers(pathOrder, nodeOrder, Listed(pathOrder, path), nodeOrder);
      var r := Intern(paths, path);
      paths, pathOrder, p := r.0, Listed(pathOrder, path), r.1;
    }

    method Remember(id: BlobId, path: Path, found: Found)
      requires Valid() && TreeHits(ok, test, id, path).Some?
      requires Decodes(pathOrder, nodeOrder, found, TreeHits(ok, test, id, path).value)
      modifies this`cache
      ensures Valid()
    {
      cache := cache[(id, path) := found];
    }

    /** The contents of a node, if it is a directory, and then the node itself. */
    method AddNode(n: Node, path: Path) returns (r: Outcome<Found>)
      requires Valid()
      modifies this
      ensures Valid() && !r.Panic? && old(pathOrder) <= pathOrder && old(nodeOrder) <= nodeOrder
      ensures r.Ok? <==> InnerHits(ok, test, n, path).Some?
      ensures r.Ok? ==> Decodes(pathOrder, nodeOrder, r.value, InnerHits(ok, test, n, path).value + Here(test, path, n))
      ensures r.Ok? ==> UsesNew(pathOrder, nodeOrder, |old(pathOrder)|, |old(nodeOrder)|, r.value)
      decreases n, 0
    {
      var found: Found := [];
      if n.nodeType.Dir? {
        if n.subtree.None? { return Err; }
        r := FindTree(n.subtree.value, path);
        if !r.Ok? { return; }
        found := r.value;
      }
      if test(path, n) {
        ghost var po, no, inner := pathOrder, nodeOrder, InnerHits(ok, test, n, path).value;
        var x := InsertResult(path, n);
        DecodesLater(po, no, pathOrder, nodeOrder, found, inner);
        DecodesConcat(pathOrder, nodeOrder, found, [x], inner, [(path, n)]);
        UsesConcat(po, no, pathOrder, nodeOrder, |old(pathOrder)|, |old(nodeOrder)|, found, [x]);
        found := found + [x];
      } else {
        assert InnerHits(ok, test, n, path).value + [] == InnerHits(ok, test, n, path).value;
      }
      r := Ok(found);
    }

    /** `find_matching_nodes_recursive`. */
    method FindTree(id: BlobId, path: Path) returns (r: Outcome<Found>)
      requires Valid()
      modifies this
      ensures Valid() && !r.Panic? && old(pathOrder) <= pathOrder && old(nodeOrder) <= nodeOrder
      ensures r.Ok? <==> TreeHits(ok, test, id, path).Some?
      ensures r.Ok? ==> Decodes(pathOrder, nodeOrder, r.value, TreeHits(ok, test, id, path).value)
      ensures r.Ok? ==> UsesNew(pathOrder, nodeOrder, |old(pathOrder)|, |old(nodeOrder)|, r.value)
      decreases id, 1
    {
      if (id, path) in cache { return Ok(cache[(id, path)]); }
      var tree := Load(ok, id);
      if tree.None? { return Err; }
      r := FindNodes(id, path);
      if r.Ok? { Remember(id, path, r.value); }
    }

    method FindNodes(id: BlobId, path: Path) returns (r: Outcome<Found>)
      requires Valid() && id.TreeBlob?
      modifies this
      ensures Valid() && !r.Panic? && old(pathOrder) <= pathOrder && old(nodeOrder) <= nodeOrder
      ensures r.Ok? <==> NodeHits(ok, test, id.nodes, path).Some?
      ensures r.Ok? ==> Decodes(pathOrder, nodeOrder, r.value, NodeHits(ok, test, id.nodes, path).value)
      ensures r.Ok? ==> UsesNew(pathOrder, nodeOrder, |old(pathOrder)|, |old(nodeOrder)|, r.value)
      decreases id, 0
    {
      var found: Found, nodes := [], id.nodes;
      ghost var hits: Hits := [];
      ThenNothing(NodeHits(ok, test, nodes, path));
      assert nodes[0..] == nodes;
      for k := 0 to |nodes|
        invariant Valid() && old(pathOrder) <= pathOrder && old(nodeOrder) <= nodeOrder
        invariant NodeHits(ok, test, nodes, path) == Then(hits, NodeHits(ok, test, nodes[k..], path))
        invariant Decodes(pathOrder, nodeOrder, found, hits)
        invariant UsesNew(pathOrder, nodeOrder, |old(pathOrder)|, |old(nodeOrder)|, found)
      {
        var n := nodes[k];
        var p := path + [n.name];
        ghost var po, no, more := pathOrder, nodeOrder, InnerHits(ok, test, n, p);
        NextNode(ok, test, nodes, k, path, hits);
        r := AddNode(n, p);
        if !r.Ok? { return; }
        ghost var added := more.value + Here(test, p, n);
        DecodesLater(po, no, pathOrder, nodeOrder, found, hits);
        DecodesConcat(pathOrder, nodeOrder, found, r.value, hits, added);
        UsesConcat(po, no, pathOrder, nodeOrder, |old(pathOrder)|, |old(nodeOrder)|, found, r.value);
        found, hits := found + r.value, hits + added;
      }
      assert nodes[|nodes|..] == [] && hits + [] == hits;
      r := Ok(found);
    }
  }

  lemma {:induction false} ThenNothing(rest: Option<Hits>)
    ensures Then([], rest) == rest
  {
    if rest.Some? { assert [] + rest.value == rest.value; }
  }

  lemma {:induction false} NextNode(ok: Loader, test: Test, nodes: seq<Node>, k: nat, path: Path, hits: Hits)
    requires k < |nodes|
    ensures var n, p := nodes[k], path + [nodes[k].name];
      var inner := InnerHits(ok, test, n, p);
      Then(hits, NodeHits(ok, test, nodes[k..], path)) ==
        if inner.None? then None
        else Then(hits + (inner.value + Here(test, p, n)), NodeHits(ok, test, nodes[k + 1..], path))
  {
    assert nodes[k..][0] == nodes[k] && nodes[k..][1..] == nodes[k + 1..];
    var p := path + [nodes[k].name];
    var inner := InnerHits(ok, test, nodes[k], p);
    if inner.Some? { ThenThen(hits, inner.value + Here(test, p, nodes[k]), NodeHits(ok, test, nodes[k + 1..], path)); }
  }

  datatype FindMatches = FindMatches(paths: seq<Path>, nodes: seq<Node>, matches: seq<Found>)

  /** No path and no node twice, and every one of them belongs to some match. */
  ghost predicate Dense(r: FindMatches)
  {
    && (forall i, j :: 0 <= i < j < |r.paths| ==> r.paths[i] != r.paths[j])
    && (forall i, j :: 0 <= i < j < |r.nodes| ==> r.nodes[i] != r.nodes[j])
    && (forall k :: 0 <= k < |r.paths| ==> UsedPath(r.matches, k))
    && (forall k :: 0 <= k < |r.nodes| ==> UsedNode(r.matches, k))
  }

  ghost predicate UsedPath(matches: seq<Found>, k: int) { exists m :: m in matches && PathIn(m, k) }

  ghost predicate UsedNode(matches: seq<Found>, k: int) { exists m :: m in matches && NodeIn(m, k) }

  ghost predicate SoFar(ok: Loader, test: Test, ids: seq<BlobId>, paths: seq<Path>, nodes: seq<Node>,
                        matches: seq<Found>)
  {
    && |matches| == |ids|
    && (forall j :: 0 <= j < |ids| ==>
          TreeHits(ok, test, ids[j], []).Some? &&
              Decodes(paths, nodes, matches[j], TreeHits(ok, test, ids[j], []).value))
    && (forall k :: 0 <= k < |paths| ==> UsedPath(matches, k)) &&
        (forall k :: 0 <= k < |nodes| ==> UsedNode(matches, k))
  }

  lemma {:induction false} UsedMore(matches: seq<Found>, found: Found, k: int)
    ensures UsedPath(matches, k) || PathIn(found, k) ==> UsedPath(matches + [found], k)
    ensures UsedNode(matches, k) || NodeIn(found, k) ==> UsedNode(matches + [found], k)
  {
    assert found in matches + [found];
    assert forall m :: m in matches ==> m in matches + [found];
  }

  lemma {:induction false} OneMore(ok: Loader, test: Test, ids: seq<BlobId>, i: nat, paths: seq<Path>, nodes: seq<Node>,
                                   paths': seq<Path>, nodes': seq<Node>,
                                   matches: seq<Found>, found: Found)
    requires i < |ids| && SoFar(ok, test, ids[..i], paths, nodes, matches) && paths <= paths' && nodes <= nodes'
    requires TreeHits(ok, test, ids[i], []).Some? &&
               Decodes(paths', nodes', found, TreeHits(ok, test, ids[i], []).value)
    requires UsesNew(paths', nodes', |paths|, |nodes|, found)
    ensures SoFar(ok, test, ids[..i + 1], paths', nodes', matches + [found])
  {
    var all := matches + [found];
    forall j | 0 <= j < i + 1
      ensures TreeHits(ok, test, ids[..i + 1][j], []).Some?
      ensures Decodes(paths', nodes', all[j], TreeHits(ok, test, ids[..i + 1][j], []).value)
    {
      if j < i {
        assert ids[..i][j] == ids[j];
        DecodesLater(paths, nodes, paths', nodes', matches[j], TreeHits(ok, test, ids[j], []).value);
      }
    }
    forall k | 0 <= k < |paths'| ensures UsedPath(all, k) { UsedMore(matches, found, k); }
    forall k | 0 <= k < |nodes'| ensures UsedNode(all, k) { UsedMore(matches, found, k); }
  }

  /** `find_matching_nodes`: an error if and only if the plain recursion has one for some tree; else
      the numbers stand, tree by tree and in order, for what the plain recursion finds. */
  method FindMatchingNodes(ok: Loader, test: Test, ids: seq<BlobId>) returns (r: Outcome<FindMatches>)
    ensures !r.Panic? && (r.Ok? <==> forall i :: 0 <= i < |ids| ==> TreeHits(ok, test, ids[i], []).Some?)
    ensures r.Ok? ==> |r.value.matches| == |ids| && Dense(r.value)
    ensures r.Ok? ==> forall i :: 0 <= i < |ids| ==>
      Decodes(r.value.paths, r.value.nodes, r.value.matches[i], TreeHits(ok, test, ids[i], []).value)
  {
    var f := new MatchFinder(ok, test);
    var matches: seq<Found> := [];
    for i := 0 to |ids|
      invariant f.Valid() && f.ok == ok && f.test == test
      invariant SoFar(ok, test, ids[..i], f.pathOrder, f.nodeOrder, matches)
    {
      ghost var po, no := f.pathOrder, f.nodeOrder;
      var m := f.FindTree(ids[i], []);
      if !m.Ok? {
        assert TreeHits(ok, test, ids[i], []).None?;
        return Err;
      }
      OneMore(ok, test, ids, i, po, no, f.pathOrder, f.nodeOrder, matches, m.value);
      matches := matches + [m.value];
    }
    assert ids[..|ids|] == ids;
    NoRepeats(f.nodes, f.nodeOrder);
    NoRepeats(f.paths, f.pathOrder);
    var paths := ByNumber(f.paths, f.pathOrder);
    var nodes := ByNumber(f.nodes, f.nodeOrder);
    r := Ok(FindMatches(paths, nodes, matches));
  }
}
