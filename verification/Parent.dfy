/** `Parent`: looking up the nodes of earlier snapshots with one moving cursor per parent tree. */
module Parent {
  import opened Repo
  import opened NameOrder
  import opened TreeBuild

  /** What the lookups depend on: loading a tree (None if that fails), the data blobs of the index,
      the comparison of metadata, and the ids read as numbers, in which order they are sorted. */
  datatype Env = Env(
    load: BlobId -> Option<seq<Node>>,
    hasData: BlobId -> bool,
    sameMeta: (Meta, Meta) -> bool,
    rank: BlobId -> nat)

  /** A parent tree and the position in it. */
  datatype Cursor = Cursor(nodes: seq<Node>, idx: nat)

  datatype State = State(trees: seq<Cursor>, stack: seq<seq<Cursor>>)

  /** What `process` makes of an event. `Panics` is the `unwrap` of a missing subtree. */
  datatype Answer =
    | Opened(node: Node, tree: ParentResult<BlobId>)
    | Closed
    | Checked(node: Node, parent: ParentResult<()>)
    | StackEmpty
    | Panics

  predicate Failed(a: Answer) { a.StackEmpty? || a.Panics? }

  predicate Matches(env: Env, node: Node, p: Node)
  {
    p.nodeType == node.nodeType && env.sameMeta(p.meta, node.meta)
  }

  // ---------------------------------------------------------------- cursors

  function Seek(nodes: seq<Node>, idx: nat, name: Name): nat
    decreases |nodes| - idx
  {
    if idx < |nodes| && Less(nodes[idx].name, name) then Seek(nodes, idx + 1, name) else idx
  }

  function Moved(c: Cursor, name: Name): Cursor { c.(idx := Seek(c.nodes, c.idx, name)) }

  function Hit(c: Cursor, name: Name): Option<Node>
  {
    var i := Seek(c.nodes, c.idx, name);
    if i < |c.nodes| && c.nodes[i].name == name then Some(c.nodes[i]) else None
  }

  function MoveAll(cs: seq<Cursor>, name: Name): (r: seq<Cursor>)
    ensures |r| == |cs|
  {
    if cs == [] then [] else [Moved(cs[0], name)] + MoveAll(cs[1..], name)
  }

  function HitIds(cs: seq<Cursor>, name: Name): seq<BlobId>
  {
    if cs == [] then [] else SubtreeOf(Hit(cs[0], name)) + HitIds(cs[1..], name)
  }

  function SubtreeOf(n: Option<Node>): seq<BlobId>
  {
    if n.Some? && n.value.subtree.Some? then [n.value.subtree.value] else []
  }

  /** The search stops at the first match: the cursors behind it do not move. */
  function Scan(env: Env, node: Node, cs: seq<Cursor>, found: bool): (r: (ParentResult<Node>, seq<Cursor>))
  {
    if cs == [] then (if found then NotMatched else NotFound, [])
    else
      var hit := Hit(cs[0], node.name);
      if hit.Some? && Matches(env, node, hit.value) then (Matched(hit.value), [Moved(cs[0], node.name)] + cs[1..])
      else
        var r := Scan(env, node, cs[1..], found || hit.Some?);
        (r.0, [Moved(cs[0], node.name)] + r.1)
  }

  // ---------------------------------------------------------------- the trees of a subdirectory

  function InsertId(env: Env, id: BlobId, ids: seq<BlobId>): seq<BlobId>
  {
    if ids == [] then [id]
    else if env.rank(ids[0]) < env.rank(id) then [ids[0]] + InsertId(env, id, ids[1..])
    else [id] + ids
  }

  function SortIds(env: Env, ids: seq<BlobId>): seq<BlobId>
  {
    if ids == [] then [] else InsertId(env, ids[0], SortIds(env, ids[1..]))
  }

  function Dedup(ids: seq<BlobId>): seq<BlobId>
    decreases |ids|
  {
    if |ids| < 2 then ids
    else if ids[0] == ids[1] then Dedup(ids[1..])
    else [ids[0]] + Dedup(ids[1..])
  }

  function Load(env: Env, ids: seq<BlobId>): seq<seq<Node>>
  {
    if ids == [] then []
    else (if env.load(ids[0]).Some? then [env.load(ids[0]).value] else []) + Load(env, ids[1..])
  }

  function Loadable(env: Env, ids: seq<BlobId>): seq<BlobId>
  {
    if ids == [] then []
    else (if env.load(ids[0]).Some? then [ids[0]] else []) + Loadable(env, ids[1..])
  }

  lemma {:induction false} LoadsEach(env: Env, ids: seq<BlobId>)
    ensures |Load(env, ids)| == |Loadable(env, ids)|
    ensures forall i :: 0 <= i < |Load(env, ids)| ==> env.load(Loadable(env, ids)[i]) == Some(Load(env, ids)[i])
    decreases |ids|
  {
    if ids != [] { LoadsEach(env, ids[1..]); }
  }

  /** The parent trees one level down. */
  function TreesBelow(env: Env, ids: seq<BlobId>): seq<seq<Node>> { Load(env, Dedup(SortIds(env, ids))) }

  function Start(trees: seq<seq<Node>>): (r: seq<Cursor>)
    ensures |r| == |trees| && forall i :: 0 <= i < |r| ==> r[i] == Cursor(trees[i], 0)
  {
    seq(|trees|, i requires 0 <= i < |trees| => Cursor(trees[i], 0))
  }

  ghost predicate RankAscends(env: Env, ids: seq<BlobId>)
  {
    forall i, j :: 0 <= i < j < |ids| ==> env.rank(ids[i]) <= env.rank(ids[j])
  }

  ghost predicate RankInjective(env: Env)
  {
    forall x, y :: env.rank(x) == env.rank(y) ==> x == y
  }

  lemma {:induction false} InsertIdSorts(env: Env, id: BlobId, ids: seq<BlobId>)
    requires RankAscends(env, ids)
    ensures RankAscends(env, InsertId(env, id, ids))
    ensures forall x :: x in InsertId(env, id, ids) <==> x == id || x in ids
  {
    if ids != [] {
      assert ids == [ids[0]] + ids[1..];
      if env.rank(ids[0]) < env.rank(id) {
        InsertIdSorts(env, id, ids[1..]);
        var r := InsertId(env, id, ids[1..]);
        assert forall k :: 0 <= k < |r| ==> r[k] in r;
      }
    }
  }

  lemma {:induction false} SortIdsSorts(env: Env, ids: seq<BlobId>)
    ensures RankAscends(env, SortIds(env, ids))
    ensures forall x :: x in SortIds(env, ids) <==> x in ids
  {
    if ids != [] {
      SortIdsSorts(env, ids[1..]);
      InsertIdSorts(env, ids[0], SortIds(env, ids[1..]));
      assert ids == [ids[0]] + ids[1..];
    }
  }

  ghost predicate RankClimbs(env: Env, ids: seq<BlobId>)
  {
    forall i, j :: 0 <= i < j < |ids| ==> env.rank(ids[i]) < env.rank(ids[j])
  }

  lemma {:induction false} RankPrepend(env: Env, id: BlobId, ids: seq<BlobId>)
    requires RankClimbs(env, ids) && forall x :: x in ids ==> env.rank(id) < env.rank(x)
    ensures RankClimbs(env, [id] + ids)
  {
    var r := [id] + ids;
    forall i, j | 0 <= i < j < |r| ensures env.rank(r[i]) < env.rank(r[j]) {
      assert r[j] == ids[j - 1];
      if i > 0 { assert r[i] == ids[i - 1]; }
    }
  }

  lemma {:induction false} FirstIsLess(env: Env, ids: seq<BlobId>, x: BlobId)
    requires |ids| >= 2 && RankAscends(env, ids) && RankInjective(env) && ids[0] != ids[1] && x in ids[1..]
    ensures env.rank(ids[0]) < env.rank(x)
  {
    var j :| 0 <= j < |ids[1..]| && ids[1..][j] == x;
    assert ids[j + 1] == x && env.rank(ids[1]) <= env.rank(ids[j + 1]) && env.rank(ids[0]) <= env.rank(ids[1]);
  }

  lemma {:induction false} DedupDedups(env: Env, ids: seq<BlobId>)
    requires RankAscends(env, ids) && RankInjective(env)
    ensures forall x :: x in Dedup(ids) <==> x in ids
    ensures RankClimbs(env, Dedup(ids))
    decreases |ids|
  {
    if |ids| >= 2 {
      assert ids == [ids[0]] + ids[1..] && ids[1] in ids[1..];
      assert RankAscends(env, ids[1..]);
      DedupDedups(env, ids[1..]);
      if ids[0] != ids[1] {
        forall x | x in Dedup(ids[1..]) ensures env.rank(ids[0]) < env.rank(x) { FirstIsLess(env, ids, x); }
        RankPrepend(env, ids[0], Dedup(ids[1..]));
      }
    }
  }

  /** Sorting and removing repetitions leaves each id exactly once, in ascending order: what is
      opened below depends only on the set of ids found. */
  lemma {:induction false} IdsOnce(env: Env, ids: seq<BlobId>)
    requires RankInjective(env)
    ensures forall x :: x in Dedup(SortIds(env, ids)) <==> x in ids
    ensures forall i, j :: 0 <= i < j < |Dedup(SortIds(env, ids))| ==>
              Dedup(SortIds(env, ids))[i] != Dedup(SortIds(env, ids))[j]
  {
    SortIdsSorts(env, ids);
    DedupDedups(env, SortIds(env, ids));
    var r := Dedup(SortIds(env, ids));
    forall i, j | 0 <= i < j < |r| ensures r[i] != r[j] {
      assert env.rank(r[i]) < env.rank(r[j]);
    }
  }

  // ---------------------------------------------------------------- one event

  function WithContent(env: Env, node: Node, r: ParentResult<Node>): Answer
  {
    match r
    case Matched(p) =>
      if p.content.None? || forall id :: id in p.content.value ==> env.hasData(id)
      then Checked(node.(content := p.content), Matched(()))
      else Checked(node, NotFound)
    case NotFound => Checked(node, NotFound)
    case NotMatched => Checked(node, NotMatched)
  }

  function OpenAnswer(node: Node, r: ParentResult<Node>): Answer
  {
    match r
    case Matched(p) => if p.subtree.None? then Panics else Opened(node, Matched(p.subtree.value))
    case NotFound => Opened(node, NotFound)
    case NotMatched => Opened(node, NotMatched)
  }

  function Step(env: Env, s: State, e: Event): (r: (Answer, State))
  {
    match e
    case EndTree =>
      if s.stack == [] then (StackEmpty, s)
      else (Closed, State(s.stack[|s.stack| - 1], s.stack[..|s.stack| - 1]))
    case Other(_, node) =>
      var r := Scan(env, node, s.trees, false);
      (WithContent(env, node, r.0), s.(trees := r.1))
    case NewTree(_, node) =>
      var r := Scan(env, node, s.trees, false);
      var answer := OpenAnswer(node, r.0);
      if answer.Panics? then (Panics, s.(trees := r.1))
      else (answer, State(Start(TreesBelow(env, HitIds(r.1, node.name))), s.stack + [MoveAll(r.1, node.name)]))
  }

  /** How far the search over `before` has got: `done` is behind it, `rest` ahead. */
  ghost predicate Scanned(env: Env, node: Node, before: seq<Cursor>, done: seq<Cursor>, rest: seq<Cursor>, found: bool)
  {
    Scan(env, node, before, false) == (Scan(env, node, rest, found).0, done + Scan(env, node, rest, found).1)
  }

  lemma {:induction false} ScannedStep(env: Env, node: Node, before: seq<Cursor>, done: seq<Cursor>, rest: seq<Cursor>,
                                       found: bool)
    requires rest != [] && Scanned(env, node, before, done, rest, found)
    ensures var hit, c := Hit(rest[0], node.name), Moved(rest[0], node.name);
      if hit.Some? && Matches(env, node, hit.value)
      then Scan(env, node, before, false) == (Matched(hit.value), done + ([c] + rest[1..]))
      else Scanned(env, node, before, done + [c], rest[1..], found || hit.Some?)
  {
    var f := found || Hit(rest[0], node.name).Some?;
    Assoc(done, [Moved(rest[0], node.name)], Scan(env, node, rest[1..], f).1);
  }

  lemma {:induction false} Replaced(before: seq<Cursor>, trees: seq<Cursor>, i: nat, c: Cursor)
    requires i < |trees| == |before| && trees[i..] == before[i..]
    ensures before[i..][0] == trees[i] == before[i] && before[i..][1..] == before[i + 1..]
    ensures trees[i := c][i + 1..] == before[i + 1..]
    ensures trees[i := c][..i + 1] == trees[..i] + [c]
    ensures trees[i := c] == trees[..i] + ([c] + before[i + 1..])
  {
    assert trees[i] == trees[i..][0];
    assert forall k :: i <= k < |trees| ==> trees[k] == trees[i..][k - i];
  }

  class ParentTrees {
    var trees: seq<Cursor>
    var treeIds: seq<BlobId>
    var stack: seq<seq<Cursor>>

    ghost function Now(): (s: State)
      reads this
    {
      State(trees, stack)
    }

    /** The parent trees that can be loaded, with their ids; the others are ignored. */
    constructor (env: Env, ids: seq<BlobId>)
      ensures Now() == State(Start(Load(env, ids)), []) && treeIds == Loadable(env, ids)
      ensures |trees| == |treeIds|
      ensures forall i :: 0 <= i < |trees| ==> env.load(treeIds[i]) == Some(trees[i].nodes) && trees[i].idx == 0
    {
      LoadsEach(env, ids);
      trees, treeIds, stack := Start(Load(env, ids)), Loadable(env, ids), [];
    }

    /** One step of the lazy iterator `p_node`: the cursor of tree i moves on to the name. */
    method SeekTree(i: nat, name: Name) returns (p: Option<Node>)
      requires i < |trees|
      modifies this`trees
      ensures p == Hit(old(trees)[i], name)
      ensures trees == old(trees)[i := Moved(old(trees)[i], name)]
    {
      var nodes, idx := trees[i].nodes, trees[i].idx;
      while idx < |nodes| && Less(nodes[idx].name, name)
        invariant Seek(nodes, idx, name) == Seek(nodes, trees[i].idx, name)
      {
        idx := idx + 1;
      }
      trees := trees[i := Cursor(nodes, idx)];
      p := if idx < |nodes| && nodes[idx].name == name then Some(nodes[idx]) else None;
    }

    method IsParent(env: Env, node: Node) returns (r: ParentResult<Node>)
      modifies this`trees
      ensures (r, trees) == Scan(env, node, old(trees), false)
    {
      var i, found := 0, false;
      ghost var before := trees;
      assert before[0..] == before && before[..0] == [];
      assert [] + Scan(env, node, before, false).1 == Scan(env, node, before, false).1;
      while i < |trees|
        invariant i <= |trees| == |before| && trees[i..] == before[i..]
        invariant Scanned(env, node, before, trees[..i], before[i..], found)
      {
        ghost var done, was := trees[..i], trees;
        var p := SeekTree(i, node.name);
        Replaced(before, was, i, Moved(was[i], node.name));
        ScannedStep(env, node, before, done, before[i..], found);
        if p.Some? && Matches(env, node, p.value) { return Matched(p.value); }
        found := found || p.Some?;
        i := i + 1;
      }
      assert trees[..i] + [] == trees;
      r := if found then NotMatched else NotFound;
    }

    method SetDir(env: Env, name: Name)
      modifies this`trees, this`stack
      ensures Now() == State(Start(TreesBelow(env, HitIds(old(trees), name))), old(stack) + [MoveAll(old(trees), name)])
    {
      var i := 0;
      var ids: seq<BlobId> := [];
      ghost var before := trees;
      assert before[0..] == before && before[..0] == [];
      while i < |trees|
        invariant i <= |trees| == |before| && stack == old(stack)
        invariant trees[i..] == before[i..]
        invariant HitIds(before, name) == ids + HitIds(before[i..], name)
        invariant MoveAll(before, name) == trees[..i] + MoveAll(before[i..], name)
      {
        ghost var done, was := trees[..i], trees;
        var p := SeekTree(i, name);
        Replaced(before, was, i, Moved(was[i], name));
        Assoc(done, [Moved(before[i], name)], MoveAll(before[i + 1..], name));
        Assoc(ids, SubtreeOf(p), HitIds(before[i + 1..], name));
        ids := ids + SubtreeOf(p);
        i := i + 1;
      }
      assert trees[..i] + [] == trees && ids + [] == ids;
      stack := stack + [trees];
      trees := Start(TreesBelow(env, ids));
    }

    method FinishDir() returns (ok: bool)
      modifies this`trees, this`stack
      ensures ok <==> old(stack) != []
      ensures !ok ==> Now() == old(Now())
      ensures ok ==> trees == old(stack)[|old(stack)| - 1] && stack == old(stack)[..|old(stack)| - 1]
    {
      if stack == [] { return false; }
      trees := stack[|stack| - 1];
      stack := stack[..|stack| - 1];
      ok := true;
    }

    method Process(env: Env, e: Event) returns (a: Answer)
      modifies this`trees, this`stack
      ensures (a, Now()) == Step(env, old(Now()), e)
    {
      match e
      case EndTree =>
        var ok := FinishDir();
        a := if ok then Closed else StackEmpty;
      case NewTree(_, node) =>
        var r := IsParent(env, node);
        a := OpenAnswer(node, r);
        if !a.Panics? { SetDir(env, node.name); }
      case Other(_, node) =>
        var r := IsParent(env, node);
        a := WithContent(env, node, r);
    }
  }

  // ---------------------------------------------------------------- the plain lookup

  /** The same without cursors: at each level a list of whole trees. */
  datatype Plain = Plain(trees: seq<seq<Node>>, stack: seq<seq<seq<Node>>>)

  /** The namesakes in all trees, in the order of the trees. */
  function LookupAll(trees: seq<seq<Node>>, name: Name): seq<Node>
  {
    if trees == [] then []
    else (if Lookup(trees[0], name).Some? then [Lookup(trees[0], name).value] else []) + LookupAll(trees[1..], name)
  }

  function FirstMatch(env: Env, node: Node, ps: seq<Node>): ParentResult<Node>
  {
    if ps == [] then NotMatched
    else if Matches(env, node, ps[0]) then Matched(ps[0])
    else FirstMatch(env, node, ps[1..])
  }

  function PlainParent(env: Env, node: Node, trees: seq<seq<Node>>): ParentResult<Node>
  {
    var ps := LookupAll(trees, node.name);
    if ps == [] then NotFound else FirstMatch(env, node, ps)
  }

  function Subtrees(ps: seq<Node>): seq<BlobId>
  {
    if ps == [] then [] else SubtreeOf(Some(ps[0])) + Subtrees(ps[1..])
  }

  function PlainStep(env: Env, s: Plain, e: Event): (r: (Answer, Plain))
  {
    match e
    case EndTree =>
      if s.stack == [] then (StackEmpty, s)
      else (Closed, Plain(s.stack[|s.stack| - 1], s.stack[..|s.stack| - 1]))
    case Other(_, node) => (WithContent(env, node, PlainParent(env, node, s.trees)), s)
    case NewTree(_, node) =>
      (OpenAnswer(node, PlainParent(env, node, s.trees)),
       Plain(TreesBelow(env, Subtrees(LookupAll(s.trees, node.name))), s.stack + [s.trees]))
  }

  function Trace(env: Env, s: State, es: seq<Event>): seq<Answer>
    decreases |es|
  {
    if es == [] then []
    else
      var r := Step(env, s, es[0]);
      [r.0] + if Failed(r.0) then [] else Trace(env, r.1, es[1..])
  }

  function PlainTrace(env: Env, s: Plain, es: seq<Event>): seq<Answer>
    decreases |es|
  {
    if es == [] then []
    else
      var r := PlainStep(env, s, es[0]);
      [r.0] + if Failed(r.0) then [] else PlainTrace(env, r.1, es[1..])
  }

  // ---------------------------------------------------------------- the cursors agree with it

  /** A stored tree: names in ascending order, and a subtree for every directory. */
  ghost predicate GoodTree(nodes: seq<Node>)
  {
    Ascending(nodes) && forall n :: n in nodes && n.nodeType.Dir? ==> n.subtree.Some?
  }

  ghost predicate GoodEnv(env: Env)
  {
    forall id :: env.load(id).Some? ==> GoodTree(env.load(id).value)
  }

  /** The cursor has passed only names before `last`, the name asked for last. */
  ghost predicate Behind(c: Cursor, last: Option<Name>)
  {
    && c.idx <= |c.nodes|
    && forall k :: 0 <= k < c.idx ==> last.Some? && Less(c.nodes[k].name, last.value)
  }

  ghost predicate Fits(cs: seq<Cursor>, ts: seq<seq<Node>>, last: Option<Name>)
  {
    && |cs| == |ts|
    && forall i :: 0 <= i < |cs| ==> cs[i].nodes == ts[i] && GoodTree(ts[i]) && Behind(cs[i], last)
  }

  /** The names asked for last, at this level and at the levels outside it. */
  datatype Asked = Asked(last: Option<Name>, outer: seq<Option<Name>>)

  ghost predicate AllFit(s: State, p: Plain, asked: Asked)
  {
    && Fits(s.trees, p.trees, asked.last)
    && |s.stack| == |p.stack| == |asked.outer|
    && forall i :: 0 <= i < |s.stack| ==> Fits(s.stack[i], p.stack[i], asked.outer[i])
  }

  predicate NotBefore(name: Name, last: Option<Name>) { last.None? || !Less(name, last.value) }

  function Ask(asked: Asked, e: Event): Asked
  {
    match e
    case NewTree(_, node) => Asked(None, asked.outer + [Some(node.name)])
    case Other(_, node) => asked.(last := Some(node.name))
    case EndTree =>
      if asked.outer == [] then asked
      else Asked(asked.outer[|asked.outer| - 1], asked.outer[..|asked.outer| - 1])
  }

  predicate InTurn(asked: Asked, e: Event)
  {
    match e
    case NewTree(_, node) => NotBefore(node.name, asked.last) && node.nodeType.Dir?
    case Other(_, node) => NotBefore(node.name, asked.last)
    case EndTree => true
  }

  /** At every level the names come in order, and what is opened is a directory. */
  predicate Ordered(asked: Asked, es: seq<Event>)
    decreases |es|
  {
    es == [] || (InTurn(asked, es[0]) && Ordered(Ask(asked, es[0]), es[1..]))
  }

  lemma {:induction false} StillBefore(a: Name, last: Name, name: Name)
    requires Less(a, last) && !Less(name, last)
    ensures Less(a, name)
  {
    LessTotal(last, name);
    if last != name { LessTrans(a, last, name); }
  }

  lemma {:induction false} SeekStops(nodes: seq<Node>, idx: nat, name: Name)
    requires idx <= |nodes|
    ensures idx <= Seek(nodes, idx, name) <= |nodes|
    ensures forall k :: idx <= k < Seek(nodes, idx, name) ==> Less(nodes[k].name, name)
    ensures Seek(nodes, idx, name) < |nodes| ==> !Less(nodes[Seek(nodes, idx, name)].name, name)
    decreases |nodes| - idx
  {
    if idx < |nodes| && Less(nodes[idx].name, name) { SeekStops(nodes, idx + 1, name); }
  }

  /** In a tree in ascending order a node has its name alone. */
  lemma {:induction false} LookupAt(nodes: seq<Node>, i: nat)
    requires Ascending(nodes) && i < |nodes|
    ensures Lookup(nodes, nodes[i].name) == Some(nodes[i])
  {
    var r := Lookup(nodes, nodes[i].name);
    assert nodes[i] in nodes;
    var j :| 0 <= j < |nodes| && nodes[j] == r.value;
    LessIrreflexive(nodes[i].name);
    assert i == j;
  }

  lemma {:induction false} SeekFinds(c: Cursor, last: Option<Name>, name: Name)
    requires GoodTree(c.nodes) && Behind(c, last) && NotBefore(name, last)
    ensures Hit(c, name) == Lookup(c.nodes, name)
    ensures Behind(Moved(c, name), Some(name))
  {
    var i := Seek(c.nodes, c.idx, name);
    SeekStops(c.nodes, c.idx, name);
    forall k | 0 <= k < i ensures Less(c.nodes[k].name, name) {
      if k < c.idx { StillBefore(c.nodes[k].name, last.value, name); }
    }
    if i < |c.nodes| && c.nodes[i].name == name {
      LookupAt(c.nodes, i);
    } else {
      forall k | 0 <= k < |c.nodes| ensures c.nodes[k].name != name {
        LessIrreflexive(name);
        if k > i { assert Less(c.nodes[i].name, c.nodes[k].name); }
      }
      assert Lookup(c.nodes, name).None?;
    }
  }

  lemma {:induction false} FitsTail(cs: seq<Cursor>, ts: seq<seq<Node>>, last: Option<Name>)
    requires Fits(cs, ts, last) && cs != []
    ensures Fits(cs[1..], ts[1..], last)
  {
  }

  lemma {:induction false} FitsCons(c: Cursor, t: seq<Node>, cs: seq<Cursor>, ts: seq<seq<Node>>, last: Option<Name>)
    requires c.nodes == t && GoodTree(t) && Behind(c, last) && Fits(cs, ts, last)
    ensures Fits([c] + cs, [t] + ts, last)
  {
  }

  lemma {:induction false} LaterBehind(c: Cursor, last: Option<Name>, name: Name)
    requires Behind(c, last) && NotBefore(name, last)
    ensures Behind(c, Some(name))
  {
    forall k | 0 <= k < c.idx ensures Less(c.nodes[k].name, name) { StillBefore(c.nodes[k].name, last.value, name); }
  }

  lemma {:induction false} LaterFits(cs: seq<Cursor>, ts: seq<seq<Node>>, last: Option<Name>, name: Name)
    requires Fits(cs, ts, last) && NotBefore(name, last)
    ensures Fits(cs, ts, Some(name))
  {
    forall i | 0 <= i < |cs| ensures Behind(cs[i], Some(name)) { LaterBehind(cs[i], last, name); }
  }

  /** The lazy search over the cursors finds what the full search finds. */
  lemma {:induction false} ScanFinds(env: Env, node: Node, cs: seq<Cursor>, ts: seq<seq<Node>>, last: Option<Name>,
                                     found: bool)
    requires Fits(cs, ts, last) && NotBefore(node.name, last)
    ensures var ps := LookupAll(ts, node.name);
      Scan(env, node, cs, found).0 == if ps == [] && !found then NotFound else FirstMatch(env, node, ps)
    ensures Fits(Scan(env, node, cs, found).1, ts, Some(node.name))
    decreases |cs|
  {
    if cs != [] {
      var c, rest := cs[0], LookupAll(ts[1..], node.name);
      SeekFinds(c, last, node.name);
      FitsTail(cs, ts, last);
      assert ts == [ts[0]] + ts[1..];
      if Hit(c, node.name).Some? { assert LookupAll(ts, node.name)[1..] == rest; }
      else { assert LookupAll(ts, node.name) == rest; }
      if Hit(c, node.name).Some? && Matches(env, node, Hit(c, node.name).value) {
        LaterFits(cs[1..], ts[1..], last, node.name);
        FitsCons(Moved(c, node.name), ts[0], cs[1..], ts[1..], Some(node.name));
      } else {
        var f := found || Hit(c, node.name).Some?;
        ScanFinds(env, node, cs[1..], ts[1..], last, f);
        FitsCons(Moved(c, node.name), ts[0], Scan(env, node, cs[1..], f).1, ts[1..], Some(node.name));
      }
    }
  }

  lemma {:induction false} SubtreesConcat(p: Option<Node>, ps: seq<Node>)
    ensures Subtrees((if p.Some? then [p.value] else []) + ps) == SubtreeOf(p) + Subtrees(ps)
  {
    if p.Some? {
      assert ([p.value] + ps)[1..] == ps;
    } else {
      assert [] + ps == ps && SubtreeOf(p) + Subtrees(ps) == Subtrees(ps);
    }
  }

  lemma {:induction false} MoveAllFinds(cs: seq<Cursor>, ts: seq<seq<Node>>, last: Option<Name>, name: Name)
    requires Fits(cs, ts, last) && NotBefore(name, last)
    ensures HitIds(cs, name) == Subtrees(LookupAll(ts, name))
    ensures Fits(MoveAll(cs, name), ts, Some(name))
    decreases |cs|
  {
    if cs != [] {
      SeekFinds(cs[0], last, name);
      FitsTail(cs, ts, last);
      MoveAllFinds(cs[1..], ts[1..], last, name);
      SubtreesConcat(Lookup(ts[0], name), LookupAll(ts[1..], name));
      assert ts == [ts[0]] + ts[1..];
      FitsCons(Moved(cs[0], name), ts[0], MoveAll(cs[1..], name), ts[1..], Some(name));
    }
  }

  lemma {:induction false} LoadGood(env: Env, ids: seq<BlobId>)
    requires GoodEnv(env)
    ensures forall t :: t in Load(env, ids) ==> GoodTree(t)
  {
    if ids != [] { LoadGood(env, ids[1..]); }
  }

  lemma {:induction false} FirstMatchIs(env: Env, node: Node, ps: seq<Node>)
    ensures var r := FirstMatch(env, node, ps); r.Matched? ==> r.value in ps && r.value.nodeType == node.nodeType
    decreases |ps|
  {
    if ps != [] && !Matches(env, node, ps[0]) { FirstMatchIs(env, node, ps[1..]); }
  }

  lemma {:induction false} LookupAllIn(ts: seq<seq<Node>>, name: Name)
    ensures forall p :: p in LookupAll(ts, name) ==> exists i :: 0 <= i < |ts| && p in ts[i]
    decreases |ts|
  {
    if ts != [] {
      LookupAllIn(ts[1..], name);
      forall p | p in LookupAll(ts, name) ensures exists i :: 0 <= i < |ts| && p in ts[i] {
        if p in LookupAll(ts[1..], name) {
          var i :| 0 <= i < |ts[1..]| && p in ts[1..][i];
          assert p in ts[i + 1];
        } else {
          assert p in ts[0];
        }
      }
    }
  }

  /** Whatever matches a directory has a subtree. */
  lemma {:induction false} NoPanic(env: Env, node: Node, ts: seq<seq<Node>>)
    requires node.nodeType.Dir? && forall t :: t in ts ==> GoodTree(t)
    ensures !OpenAnswer(node, PlainParent(env, node, ts)).Panics?
  {
    var ps := LookupAll(ts, node.name);
    FirstMatchIs(env, node, ps);
    LookupAllIn(ts, node.name);
    if ps != [] && FirstMatch(env, node, ps).Matched? {
      var p := FirstMatch(env, node, ps).value;
      var i :| 0 <= i < |ts| && p in ts[i];
      assert ts[i] in ts;
    }
  }

  lemma {:induction false} OtherAgrees(env: Env, s: State, p: Plain, asked: Asked, e: Event)
    requires AllFit(s, p, asked) && e.Other? && InTurn(asked, e)
    ensures Step(env, s, e).0 == PlainStep(env, p, e).0 && !Failed(Step(env, s, e).0)
    ensures AllFit(Step(env, s, e).1, PlainStep(env, p, e).1, Ask(asked, e))
  {
    ScanFinds(env, e.node, s.trees, p.trees, asked.last, false);
  }

  lemma {:induction false} OpenAgrees(env: Env, s: State, p: Plain, asked: Asked, e: Event)
    requires GoodEnv(env) && AllFit(s, p, asked) && e.NewTree? && InTurn(asked, e)
    ensures Step(env, s, e).0 == PlainStep(env, p, e).0 && !Failed(Step(env, s, e).0)
    ensures AllFit(Step(env, s, e).1, PlainStep(env, p, e).1, Ask(asked, e))
  {
    var node := e.node;
    ScanFinds(env, node, s.trees, p.trees, asked.last, false);
    var cs := Scan(env, node, s.trees, false).1;
    LessIrreflexive(node.name);
    MoveAllFinds(cs, p.trees, Some(node.name), node.name);
    NoPanic(env, node, p.trees);
    var ids := HitIds(cs, node.name);
    LoadGood(env, Dedup(SortIds(env, ids)));
    assert Fits(Start(TreesBelow(env, ids)), TreesBelow(env, ids), None);
  }

  /** One event: the same answer, and the cursors are again behind the names asked for. */
  lemma {:induction false} StepAgrees(env: Env, s: State, p: Plain, asked: Asked, e: Event)
    requires GoodEnv(env) && AllFit(s, p, asked) && InTurn(asked, e)
    ensures Step(env, s, e).0 == PlainStep(env, p, e).0 && !Step(env, s, e).0.Panics?
    ensures !Failed(Step(env, s, e).0) ==> AllFit(Step(env, s, e).1, PlainStep(env, p, e).1, Ask(asked, e))
  {
    match e
    case NewTree(_, _) => OpenAgrees(env, s, p, asked, e);
    case Other(_, _) => OtherAgrees(env, s, p, asked, e);
    case EndTree =>
  }

  /** On every run in which the names of each directory come in order, the moving cursors give the
      answers of the full lookup by name in every parent tree, and nothing panics. */
  lemma {:induction false} CursorsAgree(env: Env, s: State, p: Plain, asked: Asked, es: seq<Event>)
    requires GoodEnv(env) && AllFit(s, p, asked) && Ordered(asked, es)
    ensures Trace(env, s, es) == PlainTrace(env, p, es)
    ensures Panics !in Trace(env, s, es)
    decreases |es|
  {
    if es != [] {
      StepAgrees(env, s, p, asked, es[0]);
      if !Failed(Step(env, s, es[0]).0) {
        CursorsAgree(env, Step(env, s, es[0]).1, PlainStep(env, p, es[0]).1, Ask(asked, es[0]), es[1..]);
      }
    }
  }

  /** Names out of order are missed: the cursor does not go back. */
  lemma {:induction false} OutOfOrderMisses(env: Env, a: Node, b: Node)
    requires a == Node("a", File, Meta(1, 1), None, None) && b == Node("b", File, Meta(1, 1), None, None)
    requires env.sameMeta(Meta(1, 1), Meta(1, 1))
    ensures GoodTree([a, b])
    ensures Trace(env, State([Cursor([a, b], 0)], []), [Other([], b), Other([], a)]) ==
              [Checked(b, Matched(())), Checked(a, NotFound)]
    ensures PlainTrace(env, Plain([[a, b]], []), [Other([], b), Other([], a)]) ==
              [Checked(b, Matched(())), Checked(a, Matched(()))]
  {
    var x, y, t := Other([], b), Other([], a), [a, b];
    assert [x, y][1..] == [y] && [y][1..] == [] && t[1..] == [b];
    assert Less("a", "b") && !Less("b", "b") && !Less("b", "a");
    var c0, c1 := Cursor(t, 0), Cursor(t, 1);
    assert Seek(t, 1, "b") == 1;
    assert Seek(t, 0, "b") == 1;
    assert Seek(t, 1, "a") == 1;
    assert Hit(c0, "b") == Some(b) && Moved(c0, "b") == c1 && Hit(c1, "a") == None;
    assert [c0][1..] == [] && [c1][1..] == [] && [c1] + [] == [c1];
    var s0, s1 := State([c0], []), State([c1], []);
    assert Scan(env, b, [c0], false) == (Matched(b), [c1]);
    assert Scan(env, a, [c1], false).0 == NotFound;
    assert Step(env, s0, x) == (Checked(b, Matched(())), s1);
    assert Step(env, s1, y).0 == Checked(a, NotFound);
    assert Trace(env, s1, [y]) == [Checked(a, NotFound)];
    PlainFindsBoth(env, a, b);
  }

  lemma {:induction false} PlainFindsBoth(env: Env, a: Node, b: Node)
    requires a == Node("a", File, Meta(1, 1), None, None) && b == Node("b", File, Meta(1, 1), None, None)
    requires env.sameMeta(Meta(1, 1), Meta(1, 1))
    ensures PlainTrace(env, Plain([[a, b]], []), [Other([], b), Other([], a)]) ==
              [Checked(b, Matched(())), Checked(a, Matched(()))]
  {
    var x, y, t := Other([], b), Other([], a), [a, b];
    assert [x, y][1..] == [y] && [y][1..] == [] && t[1..] == [b];
    assert Lookup([b], "b") == Some(b);
    assert Lookup(t, "b") == Some(b) && Lookup(t, "a") == Some(a);
    assert LookupAll([t], "b") == [b] && LookupAll([t], "a") == [a];
    var p := Plain([t], []);
    assert PlainStep(env, p, x) == (Checked(b, Matched(())), p);
    assert PlainStep(env, p, y) == (Checked(a, Matched(())), p);
    assert PlainTrace(env, p, [y]) == [Checked(a, Matched(()))];
  }

  // ---------------------------------------------------------------- the stack

  /** The stack never runs empty: no prefix closes more than it opens, starting d levels deep. */
  predicate WithinDepth(es: seq<Event>, d: nat)
    decreases |es|
  {
    es == [] ||
    match es[0]
    case NewTree(_, _) => WithinDepth(es[1..], d + 1)
    case EndTree => d > 0 && WithinDepth(es[1..], d - 1)
    case Other(_, _) => WithinDepth(es[1..], d)
  }

  /** What one event does to the stack. */
  lemma {:induction false} StepStack(env: Env, s: State, e: Event)
    ensures var r := Step(env, s, e);
      && (e.NewTree? ==> !r.0.StackEmpty?)
      && (e.NewTree? && !r.0.Panics? ==> |r.1.stack| == |s.stack| + 1 && r.1.stack[..|s.stack|] == s.stack)
      && (e.Other? ==> !Failed(r.0) && r.1.stack == s.stack)
      && (e.EndTree? ==> !r.0.Panics? && (r.0.StackEmpty? <==> s.stack == []))
      && (e.EndTree? && s.stack != [] ==> r.1.stack == s.stack[..|s.stack| - 1])
  {
  }

  lemma {:induction false} StackPrefix(env: Env, s: State, e: Event, k: nat)
    requires k <= |s.stack| && (e.EndTree? ==> k < |s.stack|) && !Step(env, s, e).0.Panics?
    ensures var d := if e.EndTree? then -1 else if e.NewTree? then 1 else 0;
      |Step(env, s, e).1.stack| == |s.stack| + d && Step(env, s, e).1.stack[..k] == s.stack[..k]
  {
    StepStack(env, s, e);
    var r := Step(env, s, e).1.stack;
    if e.NewTree? { assert r[..|s.stack|][..k] == r[..k]; }
  }

  lemma {:induction false} TraceFirst(env: Env, s: State, es: seq<Event>, a: Answer)
    requires es != []
    ensures var r := Step(env, s, es[0]);
      a in Trace(env, s, es) <==> a == r.0 || (!Failed(r.0) && a in Trace(env, r.1, es[1..]))
  {
  }

  lemma {:induction false} StackEmptyIff(env: Env, s: State, es: seq<Event>)
    requires Panics !in Trace(env, s, es)
    ensures StackEmpty in Trace(env, s, es) <==> !WithinDepth(es, |s.stack|)
    decreases |es|
  {
    if es != [] {
      var r := Step(env, s, es[0]);
      TraceFirst(env, s, es, StackEmpty);
      TraceFirst(env, s, es, Panics);
      StepStack(env, s, es[0]);
      if !Failed(r.0) { StackEmptyIff(env, r.1, es[1..]); }
    }
  }

  /** Everything that is opened is closed again, and nothing else. */
  predicate Balanced(es: seq<Event>, d: nat)
    decreases |es|
  {
    if es == [] then d == 0
    else match es[0]
      case NewTree(_, _) => Balanced(es[1..], d + 1)
      case EndTree => d > 0 && Balanced(es[1..], d - 1)
      case Other(_, _) => Balanced(es[1..], d)
  }

  function After(env: Env, s: State, es: seq<Event>): State
    decreases |es|
  {
    if es == [] then s else After(env, Step(env, s, es[0]).1, es[1..])
  }

  /** The open levels above `base` after one more event. */
  lemma {:induction false} DepthStep(env: Env, s: State, base: seq<seq<Cursor>>, es: seq<Event>, d: nat)
    returns (d': nat)
    requires es != [] && Balanced(es, d) && |s.stack| == |base| + d && s.stack[..|base|] == base
    requires Panics !in Trace(env, s, es)
    ensures Balanced(es[1..], d') && Panics !in Trace(env, Step(env, s, es[0]).1, es[1..])
    ensures |Step(env, s, es[0]).1.stack| == |base| + d' && Step(env, s, es[0]).1.stack[..|base|] == base
  {
    TraceFirst(env, s, es, Panics);
    StackPrefix(env, s, es[0], |base|);
    StepStack(env, s, es[0]);
    d' := if es[0].EndTree? then d - 1 else if es[0].NewTree? then d + 1 else d;
  }

  lemma {:induction false} StackKept(env: Env, s: State, base: seq<seq<Cursor>>, es: seq<Event>, d: nat)
    requires Balanced(es, d) && |s.stack| == |base| + d && s.stack[..|base|] == base
    requires Panics !in Trace(env, s, es)
    ensures After(env, s, es).stack == base
    decreases |es|
  {
    if es == [] {
      assert s.stack == base;
    } else {
      var d' := DepthStep(env, s, base, es, d);
      StackKept(env, Step(env, s, es[0]).1, base, es[1..], d');
    }
  }

  lemma {:induction false} AfterConcat(env: Env, s: State, a: seq<Event>, b: seq<Event>)
    ensures After(env, s, a + b) == After(env, After(env, s, a), b)
    decreases |a|
  {
    if a == [] { assert a + b == b; }
    else {
      assert (a + b)[1..] == a[1..] + b;
      AfterConcat(env, Step(env, s, a[0]).1, a[1..], b);
    }
  }

  /** Visiting a directory and whatever is below it leaves the outer cursors exactly where the
      lookup of the directory itself has put them, and the stack as it was. */
  lemma {:induction false} DirectoryRestores(env: Env, s: State, path: Path, node: Node, inner: seq<Event>)
    requires Balanced(inner, 0)
    requires !Step(env, s, NewTree(path, node)).0.Panics?
    requires Panics !in Trace(env, Step(env, s, NewTree(path, node)).1, inner)
    ensures After(env, s, [NewTree(path, node)] + inner + [EndTree])
         == State(MoveAll(Scan(env, node, s.trees, false).1, node.name), s.stack)
  {
    var s1 := Step(env, s, NewTree(path, node)).1;
    var es := inner + [EndTree];
    assert ([NewTree(path, node)] + es)[1..] == es;
    Assoc([NewTree(path, node)], inner, [EndTree]);
    assert s1.stack[..|s1.stack|] == s1.stack;
    StackKept(env, s1, s1.stack, inner, 0);
    AfterConcat(env, s1, inner, [EndTree]);
    var s2 := After(env, s1, inner);
    assert After(env, s2, [EndTree]) == Step(env, s2, EndTree).1;
    assert s1.stack[..|s.stack|] == s.stack;
  }
}
