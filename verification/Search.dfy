/** The two memoised searches over many snapshots, against the plain walk of each. */
module Search {
  import opened Repo
  import opened TreeBuild

  datatype Outcome<+T> = Ok(value: T) | Err | Panic

  type Loader = BlobId -> bool

  /** The nodes of a tree; None if the backend fails or the blob is no tree. */
  function Load(ok: Loader, id: BlobId): Option<seq<Node>>
  {
    if id.TreeBlob? && ok(id) then Some(id.nodes) else None
  }

  // ---------------------------------------------------------------- numbering

  /** `index` numbers the members of `order`, each once, by their place. */
  ghost predicate Numbers<T>(index: map<T, nat>, order: seq<T>)
  {
    && (forall x :: x in index ==> x in order) && (forall x :: x in order ==> x in index)
    && (forall k :: 0 <= k < |order| ==> order[k] in index && index[order[k]] == k)
    && |index| == |order|
  }

  lemma {:induction false} NoRepeats<T>(index: map<T, nat>, order: seq<T>)
    requires Numbers(index, order)
    ensures forall i, j :: 0 <= i < j < |order| ==> order[i] != order[j]
  {
  }

  /** `entry(x).or_insert(len)`: the number of x, a new one if it has none. */
  function Intern<T(==)>(index: map<T, nat>, x: T): (r: (map<T, nat>, nat))
  {
    if x in index then (index, index[x]) else (index[x := |index|], |index|)
  }

  ghost function Listed<T>(order: seq<T>, x: T): seq<T> { if x in order then order else order + [x] }

  lemma {:induction false} NewNumber<T>(index: map<T, nat>, order: seq<T>, x: T)
    requires Numbers(index, order) && x !in index
    ensures Numbers(index[x := |index|], order + [x])
  {
    var index', order' := index[x := |index|], order + [x];
    assert index'.Keys == index.Keys + {x};
    forall y | y in order' ensures y in index' { if y != x { assert y in order; } }
    forall k | 0 <= k < |order'| ensures order'[k] in index' && index'[order'[k]] == k {
      if k < |order| { assert order[k] in order; }
    }
  }

  lemma {:induction false} InternNumbers<T>(index: map<T, nat>, order: seq<T>, x: T)
    requires Numbers(index, order)
    ensures Numbers(Intern(index, x).0, Listed(order, x))
    ensures Intern(index, x).1 < |Listed(order, x)| && Listed(order, x)[Intern(index, x).1] == x
    ensures order <= Listed(order, x)
  {
    if x in index {
      var k :| 0 <= k < |order| && order[k] == x;
      assert index[order[k]] == k;
    } else {
      NewNumber(index, order, x);
    }
  }

  /** Sorting the entries by number. */
  method ByNumber<T(==)>(index: map<T, nat>, ghost order: seq<T>) returns (s: seq<T>)
    requires Numbers(index, order)
    ensures s == order
  {
    s := [];
    while |s| < |index|
      invariant |s| <= |index| && s == order[..|s|]
    {
      assert order[|s|] in index && index[order[|s|]] == |s|;
      var x :| x in index && index[x] == |s|;
      ghost var k: nat :| k < |order| && order[k] == x;
      assert k == |s|;
      s := s + [x];
    }
  }

  // ---------------------------------------------------------------- one path in many trees

  datatype Walk = Found(node: Node) | Missing | NotDir | Broken | Refused

  /** From a node to its child of that name. */
  function Down(ok: Loader, node: Node, name: Name): Walk
  {
    if node.subtree.None? then NotDir
    else
      var nodes := Load(ok, node.subtree.value);
      if nodes.None? then Broken
      else
        var next := Lookup(nodes.value, name);
        if next.None? then Missing else Found(next.value)
  }

  /** From a node down along the names. */
  function WalkFrom(ok: Loader, node: Node, names: seq<Name>): Walk
    decreases |names|
  {
    if names == [] then Found(node)
    else
      var next := Down(ok, node, names[0]);
      if next.Found? then WalkFrom(ok, next.node, names[1..]) else next
  }

  function Root(id: BlobId): Node { Node("", Dir, Meta(0, 0), None, Some(id)) }

  predicate Dotted(c: Component) { c.CurDir? || c.ParentDir? }

  predicate HasDot(path: Path) { exists k :: 0 <= k < |path| && Dotted(path[k]) }

  /** The names of a path up to the first `.` or `..`. */
  function Leading(path: Path): seq<Name>
  {
    if path == [] || Dotted(path[0]) then []
    else (if path[0].Normal? then [path[0].name] else []) + Leading(path[1..])
  }

  /** The loop of `node_from_path` goes on along the components; it refuses `.` and `..` when it gets there. */
  function WalkPath(ok: Loader, node: Node, path: Path): Walk
    decreases |path|
  {
    if path == [] then Found(node)
    else if Dotted(path[0]) then Refused
    else if !path[0].Normal? then WalkPath(ok, node, path[1..])
    else
      var next := Down(ok, node, path[0].name);
      if next.Found? then WalkPath(ok, next.node, path[1..]) else next
  }

  /** A path is the walk along its names; with a `.` or `..` it is refused exactly if the walk up to there finds a
      node. */
  lemma {:induction false} PathIsWalk(ok: Loader, node: Node, path: Path)
    ensures var w := WalkFrom(ok, node, Leading(path));
      WalkPath(ok, node, path) == if w.Found? && HasDot(path) then Refused else w
    decreases |path|
  {
    if path != [] && !Dotted(path[0]) {
      assert path == [path[0]] + path[1..];
      assert HasDot(path) <==> HasDot(path[1..]);
      if path[0].Normal? {
        assert Leading(path)[1..] == Leading(path[1..]);
        var next := Down(ok, node, path[0].name);
        if next.Found? { PathIsWalk(ok, next.node, path[1..]); }
      } else {
        assert Leading(path) == Leading(path[1..]);
        PathIsWalk(ok, node, path[1..]);
      }
    }
  }

  /** `node_from_path`. */
  method NodeFromPath(ok: Loader, id: BlobId, path: Path) returns (w: Walk)
    ensures w == WalkPath(ok, Root(id), path)
  {
    var node := Root(id);
    assert path[0..] == path;
    for k := 0 to |path|
      invariant WalkPath(ok, node, path[k..]) == WalkPath(ok, Root(id), path)
    {
      assert path[k..][1..] == path[k + 1..] && path[k..] != [];
      if Dotted(path[k]) { return Refused; }
      if path[k].Normal? {
        if node.subtree.None? { return NotDir; }
        var nodes := Load(ok, node.subtree.value);
        if nodes.None? { return Broken; }
        var next := Lookup(nodes.value, path[k].name);
        if next.None? { return Missing; }
        node := next.value;
      }
    }
    w := Found(node);
  }

  /** The names of a path; None if there is a `.` or `..` in it. */
  method PathNames(path: Path) returns (names: Option<seq<Name>>)
    ensures names == if HasDot(path) then None else Some(Leading(path))
  {
    var found: seq<Name> := [];
    assert path[0..] == path && [] + Leading(path) == Leading(path);
    for k := 0 to |path|
      invariant forall j :: 0 <= j < k ==> !Dotted(path[j])
      invariant Leading(path) == found + Leading(path[k..])
    {
      if Dotted(path[k]) { return None; }
      assert path[k..][1..] == path[k + 1..];
      if path[k].Normal? {
        Assoc(found, [path[k].name], Leading(path[k + 1..]));
        found := found + [path[k].name];
      } else {
        assert Leading(path[k..]) == Leading(path[k + 1..]);
      }
    }
    assert found + [] == found;
    names := Some(found);
  }

  /** What the memoised search may answer for a walk: the number of the node, or nothing. */
  ghost predicate Answers(order: seq<Node>, w: Walk, r: Option<nat>)
  {
    if r.Some? then w.Found? && r.value < |order| && order[r.value] == w.node else w.Missing?
  }

  lemma {:induction false} AnswersLater(order: seq<Node>, more: seq<Node>, w: Walk, r: Option<nat>)
    requires Answers(order, w, r) && order <= more
    ensures Answers(more, w, r)
  {
  }

  lemma {:induction false} WalkStep(ok: Loader, id: BlobId, names: seq<Name>, idx: nat)
    requires idx < |names|
    ensures var nodes := Load(ok, id);
      WalkFrom(ok, Root(id), names[idx..]) ==
        if nodes.None? then Broken
        else if Lookup(nodes.value, names[idx]).None? then Missing
        else WalkFrom(ok, Lookup(nodes.value, names[idx]).value, names[idx + 1..])
  {
    assert names[idx..][0] == names[idx] && names[idx..][1..] == names[idx + 1..];
  }

  class NodeFinder {
    const ok: Loader
    const names: seq<Name>
    var cache: seq<map<BlobId, Option<nat>>>
    var nodes: map<Node, nat>
    ghost var order: seq<Node>

    constructor (ok: Loader, names: seq<Name>)
      ensures Valid() && order == [] && this.ok == ok && this.names == names
    {
      this.ok, this.names := ok, names;
      cache, nodes, order := seq(|names|, i => map[]), map[], [];
    }

    ghost function Plain(id: BlobId, idx: nat): (w: Walk)
      requires idx <= |names|
    {
      WalkFrom(ok, Root(id), names[idx..])
    }

    ghost predicate Valid()
      reads this
    {
      && Numbers(nodes, order) && |cache| == |names|
      && forall idx, id :: 0 <= idx < |cache| && id in cache[idx] ==> Answers(order, Plain(id, idx), cache[idx][id])
    }

    /** Everything remembered stays right when the node of a walk gets a number. */
    method Note(node: Node) returns (n: nat)
      requires Valid()
      modifies this`nodes, this`order
      ensures Valid() && order == Listed(old(order), node) && n < |order| && order[n] == node
    {
      InternNumbers(nodes, order, node);
      forall idx, id | 0 <= idx < |cache| && id in cache[idx]
        ensures Answers(Listed(order, node), Plain(id, idx), cache[idx][id]) {
        AnswersLater(order, Listed(order, node), Plain(id, idx), cache[idx][id]);
      }
      var r := Intern(nodes, node);
      nodes, order, n := r.0, Listed(order, node), r.1;
    }

    method Remember(id: BlobId, idx: nat, r: Option<nat>)
      requires Valid() && idx < |names| && Answers(order, Plain(id, idx), r)
      modifies this`cache
      ensures Valid()
    {
      cache := cache[idx := cache[idx][id := r]];
    }

    /** `find_node_from_component`: an error exactly where the plain walk has one that is not about a
        missing name; otherwise the number of the node the plain walk reaches, or none. */
    method FindComponent(id: BlobId, idx: nat) returns (r: Outcome<Option<nat>>)
      requires Valid() && idx < |names|
      modifies this
      ensures Valid() && !r.Panic?
      ensures r.Ok? <==> Plain(id, idx).Found? || Plain(id, idx).Missing?
      ensures r.Ok? ==> Answers(order, Plain(id, idx), r.value)
      ensures order == if Plain(id, idx).Found? then Listed(old(order), Plain(id, idx).node) else old(order)
      decreases |names| - idx
    {
      if id in cache[idx] { return Ok(cache[idx][id]); }
      var nodes := Load(ok, id);
      if nodes.None? { WalkStep(ok, id, names, idx); return Err; }
      var node := Lookup(nodes.value, names[idx]);
      WalkStep(ok, id, names, idx);
      var result: Option<nat> := None;
      if node.Some? {
        assert names[|names|..] == [];
        if idx == |names| - 1 {
          var n := Note(node.value);
          result := Some(n);
        } else {
          if node.value.subtree.None? { return Err; }
          OnlySubtree(ok, node.value, Root(node.value.subtree.value), names[idx + 1..]);
          r := FindComponent(node.value.subtree.value, idx + 1);
          if !r.Ok? { return; }
          result := r.value;
        }
      }
      Remember(id, idx, result);
      r := Ok(result);
    }
  }

  /** Going on from a node depends on its subtree alone. */
  lemma {:induction false} OnlySubtree(ok: Loader, a: Node, b: Node, names: seq<Name>)
    requires names != [] && a.subtree == b.subtree
    ensures WalkFrom(ok, a, names) == WalkFrom(ok, b, names)
  {
  }

  datatype FindNode = FindNode(nodes: seq<Node>, matches: seq<Option<nat>>)

  /** No node twice, and every node is the answer for some tree. */
  ghost predicate Dense(r: FindNode)
  {
    && (forall i, j :: 0 <= i < j < |r.nodes| ==> r.nodes[i] != r.nodes[j])
    && forall k: nat :: k < |r.nodes| ==> Some(k) in r.matches
  }

  ghost predicate Resolved(w: Walk) { w.Found? || w.Missing? }

  /** Some plain walk along the names, of which there are some, fails for another reason than a missing name. */
  ghost predicate SomeFails(ok: Loader, ids: seq<BlobId>, names: seq<Name>)
  {
    names != [] && exists i :: 0 <= i < |ids| && !Resolved(WalkFrom(ok, Root(ids[i]), names))
  }

  /** `find_nodes_from_path`. A path with `.` or `..` is an error. With a path without names and at least one tree
      the cache is indexed out of bounds. Otherwise the result is an error if and only if some plain walk fails
      for another reason than a missing name, and else has for each tree what its plain walk gives. */
  method FindNodesFromPath(ok: Loader, ids: seq<BlobId>, path: Path) returns (r: Outcome<FindNode>)
    ensures r.Panic? <==> !HasDot(path) && Leading(path) == [] && ids != []
    ensures r.Err? <==> HasDot(path) || SomeFails(ok, ids, Leading(path))
    ensures r.Ok? ==> |r.value.matches| == |ids| && Dense(r.value)
    ensures r.Ok? ==> forall i :: 0 <= i < |ids| ==>
              Answers(r.value.nodes, WalkFrom(ok, Root(ids[i]), Leading(path)), r.value.matches[i])
  {
    var components := PathNames(path);
    if components.None? { return Err; }
    r := FindNodes(ok, ids, components.value);
  }

  method FindNodes(ok: Loader, ids: seq<BlobId>, names: seq<Name>) returns (r: Outcome<FindNode>)
    ensures r.Panic? <==> names == [] && ids != []
    ensures r.Err? <==> SomeFails(ok, ids, names)
    ensures r.Ok? ==> |r.value.matches| == |ids| && Dense(r.value)
    ensures r.Ok? ==> forall i :: 0 <= i < |ids| ==>
              Answers(r.value.nodes, WalkFrom(ok, Root(ids[i]), names), r.value.matches[i])
  {
    var f := new NodeFinder(ok, names);
    var matches: seq<Option<nat>> := [];
    assert names[0..] == names;
    for i := 0 to |ids|
      invariant f.Valid() && f.ok == ok && f.names == names
      invariant names == [] ==> i == 0
      invariant SoFar(ok, ids[..i], names, f.order, matches)
    {
      if names == [] { return Panic; }
      ghost var before := f.order;
      var m := f.FindComponent(ids[i], 0);
      if !m.Ok? {
        assert !Resolved(WalkFrom(ok, Root(ids[i]), names));
        return Err;
      }
      OneMore(ok, ids, i, names, before, f.order, matches, m.value);
      matches := matches + [m.value];
    }
    assert ids[..|ids|] == ids;
    NoRepeats(f.nodes, f.order);
    var nodes := ByNumber(f.nodes, f.order);
    r := Ok(FindNode(nodes, matches));
  }

  /** The answers for the trees searched so far. */
  ghost predicate SoFar(ok: Loader, ids: seq<BlobId>, names: seq<Name>, order: seq<Node>, matches: seq<Option<nat>>)
  {
    && |matches| == |ids|
    && (forall j :: 0 <= j < |ids| ==> Answers(order, WalkFrom(ok, Root(ids[j]), names), matches[j]))
    && forall k: nat :: k < |order| ==> Some(k) in matches
  }

  lemma {:induction false} OneMore(ok: Loader, ids: seq<BlobId>, i: nat, names: seq<Name>, before: seq<Node>,
                                   after: seq<Node>,
                                   matches: seq<Option<nat>>, r: Option<nat>)
    requires i < |ids| && SoFar(ok, ids[..i], names, before, matches)
    requires var w := WalkFrom(ok, Root(ids[i]), names);
      Answers(after, w, r) && after == if w.Found? then Listed(before, w.node) else before
    ensures SoFar(ok, ids[..i + 1], names, after, matches + [r])
  {
    var w := WalkFrom(ok, Root(ids[i]), names);
    StillDense(before, after, w, r, matches);
    forall j | 0 <= j < i + 1 ensures Answers(after, WalkFrom(ok, Root(ids[..i + 1][j]), names), (matches + [r])[j]) {
      if j < i {
        assert ids[..i][j] == ids[j];
        AnswersLater(before, after, WalkFrom(ok, Root(ids[j]), names), matches[j]);
      }
    }
  }

  lemma {:induction false} StillDense(before: seq<Node>, after: seq<Node>, w: Walk, r: Option<nat>,
                                      matches: seq<Option<nat>>)
    requires (forall k: nat :: k < |before| ==> Some(k) in matches) && Answers(after, w, r)
    requires after == if w.Found? then Listed(before, w.node) else before
    ensures forall k: nat :: k < |after| ==> Some(k) in matches + [r]
    ensures before <= after
  {
    if w.Found? && w.node !in before {
      forall k: nat | k < |before| ensures after[k] != w.node { assert after[k] == before[k] && before[k] in before; }
      assert r.value == |before| && r in matches + [r];
    }
  }
}
