/** `TreeStreamerOnce`: one consumer, four loader threads, a queue of tree ids to load and a
    bounded queue of loaded trees. Every interleaving is a sequence of `Action`s. */
module Streamer {
  import opened Repo

  const MAX_TREE_LOADER: nat := 4

  type Path = seq<Name>

  datatype Request = Request(path: Path, id: BlobId, count: nat)

  /** What a loader thread sends back: the tree of the request, or an error. */
  datatype Answer = Answer(req: Request, ok: bool)

  /** The fields of the streamer itself. `counter` is of type `usize` in the source; it is an
      `int` here, so that an underflow would be visible as a negative entry. */
  datatype Core = Core(visited: set<BlobId>, queueIn: seq<Request>, counter: seq<int>, finishedIds: nat)

  function Enqueue(k: Core, req: Request): (r: (Core, bool))
    requires req.count < |k.counter|
  {
    if req.id in k.visited then (k, false)
    else (k.(visited := k.visited + {req.id}, queueIn := k.queueIn + [req],
             counter := k.counter[req.count := k.counter[req.count] + 1]), true)
  }

  function AddSubtrees(k: Core, path: Path, nodes: seq<Node>, count: nat): (r: Core)
    requires count < |k.counter|
    ensures |r.counter| == |k.counter|
    decreases |nodes|
  {
    if nodes == [] then k
    else
      var k' := if nodes[0].subtree.Some?
                then Enqueue(k, Request(path + [nodes[0].name], nodes[0].subtree.value, count)).0 else k;
      AddSubtrees(k', path, nodes[1..], count)
  }

  /** The part of `next` that runs once a tree was received. */
  function Deliver(k: Core, req: Request): (r: Core)
    requires req.id.TreeBlob? && req.count < |k.counter|
  {
    var k1 := AddSubtrees(k, req.path, req.id.nodes, req.count);
    var left := k1.counter[req.count] - 1;
    k1.(counter := k1.counter[req.count := left], finishedIds := k1.finishedIds + if left == 0 then 1 else 0)
  }

  /** The streamer as the object of the source, proved against the functions above. */
  class TreeStreamerOnce {
    var visited: set<BlobId>
    var queueIn: seq<Request>
    var counter: seq<int>
    var finishedIds: nat

    ghost function State(): (k: Core)
      reads this
    {
      Core(visited, queueIn, counter, finishedIds)
    }

    method AddPending(path: Path, id: BlobId, count: nat) returns (added: bool)
      requires count < |counter|
      modifies this
      ensures (State(), added) == Enqueue(old(State()), Request(path, id, count))
    {
      added := id !in visited;
      if added {
        visited := visited + {id};
        queueIn := queueIn + [Request(path, id, count)];
        counter := counter[count := counter[count] + 1];
      }
    }

    method Received(path: Path, id: BlobId, count: nat)
      requires id.TreeBlob? && count < |counter|
      modifies this
      ensures State() == Deliver(old(State()), Request(path, id, count))
    {
      var nodes := id.nodes;
      for i := 0 to |nodes|
        invariant |counter| == old(|counter|)
        invariant AddSubtrees(State(), path, nodes[i..], count) == AddSubtrees(old(State()), path, nodes, count)
      {
        assert nodes[i..][1..] == nodes[i + 1..];
        if nodes[i].subtree.Some? {
          var _ := AddPending(path + [nodes[i].name], nodes[i].subtree.value, count);
        }
      }
      counter := counter[count := counter[count] - 1];
      if counter[count] == 0 {
        finishedIds := finishedIds + 1;
      }
    }
  }

  /** The whole system. `added` counts the roots the constructor has passed to `add_pending` (the
      loaders already run by then), `yielded` the trees handed to the caller. */
  datatype State = State(
    roots: seq<BlobId>,
    added: nat,
    core: Core,
    loading: seq<Request>,
    queueOut: seq<Answer>,
    yielded: seq<Request>,
    lost: seq<Request>,            // requests whose error went to the caller
    done: bool)
  {
    predicate Failed() { lost != [] }
  }

  datatype Action =
    | AddRoot                      // the constructor's loop
    | Take                         // an idle loader takes the next request
    | Send(i: nat, ok: bool)       // loader i sends its answer, when there is room
    | Next                         // the caller asks for the next tree

  function Init(roots: seq<BlobId>): (s: State)
  {
    State(roots, 0, Core({}, [], seq(|roots|, i => 0), 0), [], [], [], [], false)
  }

  ghost predicate Enabled(s: State, a: Action)
  {
    match a
    case AddRoot => s.added < |s.roots| && s.added < |s.core.counter|
    case Take => |s.loading| < MAX_TREE_LOADER && s.core.queueIn != []
    case Send(i, ok) =>
      && i < |s.loading| && |s.queueOut| < MAX_TREE_LOADER
      && (ok ==> s.loading[i].id.TreeBlob?)
    case Next =>
      && s.added == |s.roots| && !s.Failed() && !s.done
      && (|s.core.counter| != s.core.finishedIds ==>
            && s.queueOut != []                                // otherwise `recv` blocks
            && s.queueOut[0].req.count < |s.core.counter|      // otherwise indexing panics
            && (s.queueOut[0].ok ==> s.queueOut[0].req.id.TreeBlob?))
  }

  /** A root that was seen before counts as finished. */
  function WithRoot(k: Core, root: BlobId, n: nat): Core
    requires n < |k.counter|
  {
    var (k', isNew) := Enqueue(k, Request([], root, n));
    if isNew then k' else k'.(finishedIds := k'.finishedIds + 1)
  }

  ghost function Apply(s: State, a: Action): (t: State)
    requires Enabled(s, a)
  {
    match a
    case AddRoot =>
      s.(added := s.added + 1, core := WithRoot(s.core, s.roots[s.added], s.added))
    case Take =>
      s.(core := s.core.(queueIn := s.core.queueIn[1..]), loading := s.loading + [s.core.queueIn[0]])
    case Send(i, ok) =>
      s.(loading := s.loading[..i] + s.loading[i + 1..], queueOut := s.queueOut + [Answer(s.loading[i], ok)])
    case Next =>
      if |s.core.counter| == s.core.finishedIds then s.(done := true)
      else
        var ans := s.queueOut[0];
        if ans.ok then
          s.(core := Deliver(s.core, ans.req), queueOut := s.queueOut[1..], yielded := s.yielded + [ans.req])
        else s.(queueOut := s.queueOut[1..], lost := s.lost + [ans.req])
  }

  ghost predicate Runs(s: State, acts: seq<Action>, t: State)
    decreases |acts|
  {
    if acts == [] then s == t
    else Enabled(s, acts[0]) && Runs(Apply(s, acts[0]), acts[1..], t)
  }

  // ---------------------------------------------------------------- the invariant

  function Requests(out: seq<Answer>): (r: seq<Request>)
    ensures |r| == |out|
  {
    seq(|out|, i requires 0 <= i < |out| => out[i].req)
  }

  /** Everything asked for and not yet yielded: in the input queue, or past it. */
  function Outstanding(s: State): (r: seq<Request>)
  {
    s.core.queueIn + Others(s)
  }

  function Others(s: State): (r: seq<Request>)
  {
    s.loading + (Requests(s.queueOut) + s.lost)
  }

  function Ids(rs: seq<Request>): (r: seq<BlobId>)
    ensures |r| == |rs|
  {
    seq(|rs|, i requires 0 <= i < |rs| => rs[i].id)
  }

  function Counts(rs: seq<Request>): (r: seq<nat>)
    ensures |r| == |rs|
  {
    seq(|rs|, i requires 0 <= i < |rs| => rs[i].count)
  }

  /** `path` leads from the tree `root` to the tree `id`. */
  ghost predicate Leads(root: BlobId, path: Path, id: BlobId)
    decreases |path|
  {
    if path == [] then id == root
    else exists up: BlobId, n: Node ::
      && Leads(root, path[..|path| - 1], up)
      && up.TreeBlob? && n in up.nodes && n.name == path[|path| - 1] && n.subtree == Some(id)
  }

  ghost function ReachAll(roots: seq<BlobId>): set<BlobId>
  {
    if roots == [] then {} else ReachTrees(roots[0]) + ReachAll(roots[1..])
  }

  ghost function IdBag(rs: seq<Request>): multiset<BlobId> { multiset(Ids(rs)) }

  ghost function CountBag(rs: seq<Request>): multiset<nat> { multiset(Counts(rs)) }

  /** `counter[c]` is the number of outstanding requests of root c, and `finishedIds` the number
      of roots that have none. */
  ghost predicate Counted(k: Core, counts: multiset<nat>, added: nat)
  {
    && (forall c :: 0 <= c < |k.counter| ==> k.counter[c] == counts[c])
    && (forall c :: c in counts ==> c < added)
    && added <= |k.counter|
    && k.finishedIds == |Idle(k.counter, added)|
  }

  /** Every visited tree is outstanding or yielded, exactly once, and reachable. */
  ghost predicate Tracked(k: Core, ids: multiset<BlobId>, roots: seq<BlobId>, added: nat)
  {
    && ids == multiset(k.visited)
    && k.visited <= ReachAll(roots)
    && (forall c :: 0 <= c < added <= |roots| ==> roots[c] in k.visited)
  }

  ghost predicate Located(rs: seq<Request>, roots: seq<BlobId>, added: nat)
  {
    forall r :: r in rs ==> r.count < added <= |roots| && Leads(roots[r.count], r.path, r.id)
  }

  /** What `Inv` says of the core, the other outstanding requests `rest` and the yielded ids. */
  ghost predicate CoreInv(k: Core, rest: seq<Request>, yielded: multiset<BlobId>, roots: seq<BlobId>, added: nat)
  {
    && added <= |roots| == |k.counter|
    && Counted(k, CountBag(k.queueIn + rest), added)
    && Tracked(k, IdBag(k.queueIn + rest) + yielded, roots, added)
    && Located(k.queueIn + rest, roots, added)
  }

  /** The subtrees of every yielded tree are known. */
  ghost predicate Closed(k: Core, yielded: seq<Request>)
  {
    forall r, n :: r in yielded && r.id.TreeBlob? && n in r.id.nodes && n.subtree.Some? ==> n.subtree.value in k.visited
  }

  ghost function Idle(counter: seq<int>, added: nat): set<int>
  {
    set c | 0 <= c < added && c < |counter| && counter[c] == 0
  }

  ghost predicate Inv(s: State)
  {
    && CoreInv(s.core, Others(s), IdBag(s.yielded), s.roots, s.added)
    && Located(s.yielded, s.roots, s.added)
    && Closed(s.core, s.yielded)
    && (forall r :: r in s.yielded ==> r.id.TreeBlob?)
    && (forall a :: a in s.queueOut && a.ok ==> a.req.id.TreeBlob?)
    && |s.loading| <= MAX_TREE_LOADER && |s.queueOut| <= MAX_TREE_LOADER
    && (s.done ==> s.added == |s.roots| && s.core.finishedIds == |s.roots|)
  }

  // ---------------------------------------------------------------- every action keeps the invariant

  lemma {:induction false} BagConcat(a: seq<Request>, b: seq<Request>)
    ensures IdBag(a + b) == IdBag(a) + IdBag(b) && CountBag(a + b) == CountBag(a) + CountBag(b)
  {
    assert Ids(a + b) == Ids(a) + Ids(b);
    assert Counts(a + b) == Counts(a) + Counts(b);
  }

  lemma {:induction false} BagOne(x: Request)
    ensures IdBag([x]) == multiset{x.id} && CountBag([x]) == multiset{x.count}
  {
    assert Ids([x]) == [x.id];
    assert Counts([x]) == [x.count];
  }

  lemma {:induction false} BagSplit(a: seq<Request>, x: Request, b: seq<Request>)
    ensures IdBag(a + [x] + b) == IdBag(a + b) + multiset{x.id}
    ensures CountBag(a + [x] + b) == CountBag(a + b) + multiset{x.count}
  {
    BagConcat(a + [x], b); BagConcat(a, [x]); BagConcat(a, b); BagOne(x);
  }

  lemma {:induction false} LocatedConcat(a: seq<Request>, b: seq<Request>, roots: seq<BlobId>, added: nat)
    ensures Located(a + b, roots, added) <==> Located(a, roots, added) && Located(b, roots, added)
  {
    assert forall r :: r in a + b <==> r in a || r in b;
  }

  lemma {:induction false} LocatedSplit(a: seq<Request>, x: Request, b: seq<Request>, roots: seq<BlobId>, added: nat)
    ensures Located(a + [x] + b, roots, added) <==> Located(a + b, roots, added) && Located([x], roots, added)
  {
    LocatedConcat(a + [x], b, roots, added);
    LocatedConcat(a, [x], roots, added);
    LocatedConcat(a, b, roots, added);
  }

  lemma {:induction false} ReachAllHas(roots: seq<BlobId>, c: nat)
    requires c < |roots|
    ensures ReachTrees(roots[c]) <= ReachAll(roots)
  {
    if c > 0 { ReachAllHas(roots[1..], c - 1); }
  }

  lemma {:induction false} ReachAllFrom(roots: seq<BlobId>, id: BlobId) returns (c: nat)
    requires id in ReachAll(roots)
    ensures c < |roots| && id in ReachTrees(roots[c])
  {
    if id in ReachTrees(roots[0]) { c := 0; } else { var d := ReachAllFrom(roots[1..], id); c := d + 1; }
  }

  lemma {:induction false} ReachNodesHas(nodes: seq<Node>, n: Node)
    requires n in nodes && n.subtree.Some?
    ensures ReachTrees(n.subtree.value) <= ReachNodes(nodes)
    decreases |nodes|
  {
    if n != nodes[0] { ReachNodesHas(nodes[1..], n); }
  }

  lemma {:induction false} ReachTransitive(root: BlobId, mid: BlobId)
    requires mid in ReachTrees(root)
    ensures ReachTrees(mid) <= ReachTrees(root)
    decreases root, 1
  {
    if mid != root { ReachTransitiveNodes(root.nodes, mid); }
  }

  lemma {:induction false} ReachTransitiveNodes(nodes: seq<Node>, mid: BlobId)
    requires mid in ReachNodes(nodes)
    ensures ReachTrees(mid) <= ReachNodes(nodes)
    decreases nodes, 0
  {
    if nodes[0].subtree.Some? && mid in ReachTrees(nodes[0].subtree.value) {
      ReachTransitive(nodes[0].subtree.value, mid);
    } else {
      ReachTransitiveNodes(nodes[1..], mid);
    }
  }

  lemma {:induction false} ReachChild(id: BlobId, n: Node)
    requires id.TreeBlob? && n in id.nodes && n.subtree.Some?
    ensures n.subtree.value in ReachTrees(id)
  {
    ReachNodesHas(id.nodes, n);
    assert n.subtree.value in ReachTrees(n.subtree.value);
  }

  lemma {:induction false} LeadsChild(root: BlobId, path: Path, id: BlobId, n: Node)
    requires Leads(root, path, id) && id.TreeBlob? && n in id.nodes && n.subtree.Some?
    ensures Leads(root, path + [n.name], n.subtree.value)
  {
    assert (path + [n.name])[..|path|] == path;
  }

  /** One `add_pending` of a reachable tree for a root that still counts as unfinished. */
  lemma {:induction false} EnqueueCounted(k: Core, req: Request, counts: multiset<nat>, added: nat)
    requires Counted(k, counts, added) && req.count < added && req.count in counts && req.id !in k.visited
    ensures Counted(Enqueue(k, req).0, counts + multiset{req.count}, added)
  {
    var k' := Enqueue(k, req).0;
    assert Idle(k'.counter, added) == Idle(k.counter, added);
  }

  lemma {:induction false} EnqueueTracked(k: Core, req: Request, ids: multiset<BlobId>, roots: seq<BlobId>, added: nat)
    requires Tracked(k, ids, roots, added) && req.count < |k.counter|
    requires req.id !in k.visited && req.id in ReachAll(roots)
    ensures Tracked(Enqueue(k, req).0, ids + multiset{req.id}, roots, added)
  {
    var k' := Enqueue(k, req).0;
    assert multiset(k'.visited) == multiset(k.visited) + multiset{req.id};
  }

  lemma {:induction false} BagSwap<T>(a: multiset<T>, x: T, b: multiset<T>)
    ensures a + multiset{x} + b == a + b + multiset{x}
  {
  }

  /** What one more request in the input queue changes. */
  lemma {:induction false} Queued(q: seq<Request>, req: Request, rest: seq<Request>, yielded: multiset<BlobId>,
                                  roots: seq<BlobId>, added: nat)
    ensures IdBag(q + [req] + rest) + yielded == IdBag(q + rest) + yielded + multiset{req.id}
    ensures CountBag(q + [req] + rest) == CountBag(q + rest) + multiset{req.count}
    ensures Located(q + [req] + rest, roots, added) <==> Located(q + rest, roots, added) && Located([req], roots, added)
  {
    BagSplit(q, req, rest);
    BagSwap(IdBag(q + rest), req.id, yielded);
    LocatedSplit(q, req, rest, roots, added);
  }

  lemma {:induction false} EnqueueKeeps(k: Core, req: Request, rest: seq<Request>, yielded: multiset<BlobId>,
                                        roots: seq<BlobId>, added: nat)
    requires CoreInv(k, rest, yielded, roots, added)
    requires req.count < added && Leads(roots[req.count], req.path, req.id)
    requires req.id in ReachAll(roots) && req.count in CountBag(k.queueIn + rest)
    ensures var k' := Enqueue(k, req).0;
      && CoreInv(k', rest, yielded, roots, added)
      && req.id in k'.visited && k.visited <= k'.visited && req.count in CountBag(k'.queueIn + rest)
  {
    if req.id !in k.visited {
      EnqueueCounted(k, req, CountBag(k.queueIn + rest), added);
      EnqueueTracked(k, req, IdBag(k.queueIn + rest) + yielded, roots, added);
      Queued(k.queueIn, req, rest, yielded, roots, added);
    }
  }

  lemma {:induction false} AddSubtreesKeeps(k: Core, path: Path, id: BlobId, nodes: seq<Node>, count: nat,
      rest: seq<Request>, yielded: multiset<BlobId>, roots: seq<BlobId>, added: nat)
    requires CoreInv(k, rest, yielded, roots, added)
    requires count < added && Leads(roots[count], path, id) && ReachTrees(id) <= ReachAll(roots)
    requires id.TreeBlob? && (forall n :: n in nodes ==> n in id.nodes) && count in CountBag(k.queueIn + rest)
    ensures var k' := AddSubtrees(k, path, nodes, count);
      && CoreInv(k', rest, yielded, roots, added)
      && k.visited <= k'.visited
      && (forall n :: n in nodes && n.subtree.Some? ==> n.subtree.value in k'.visited)
    decreases |nodes|
  {
    if nodes != [] {
      var n := nodes[0];
      var k' := k;
      if n.subtree.Some? {
        LeadsChild(roots[count], path, id, n);
        ReachChild(id, n);
        var req := Request(path + [n.name], n.subtree.value, count);
        EnqueueKeeps(k, req, rest, yielded, roots, added);
        k' := Enqueue(k, req).0;
      }
      AddSubtreesKeeps(k', path, id, nodes[1..], count, rest, yielded, roots, added);
    }
  }

  lemma {:induction false} RootCounted(k: Core, req: Request, counts: multiset<nat>, added: nat)
    requires Counted(k, counts, added) && req.count == added < |k.counter|
    ensures req.id !in k.visited ==> Counted(Enqueue(k, req).0, counts + multiset{added}, added + 1)
    ensures req.id in k.visited ==> Counted(k.(finishedIds := k.finishedIds + 1), counts, added + 1)
  {
    var k' := Enqueue(k, req).0;
    assert counts[added] == 0;
    if req.id in k.visited {
      assert Idle(k.counter, added + 1) == Idle(k.counter, added) + {added as int};
    } else {
      assert Idle(k'.counter, added + 1) == Idle(k.counter, added);
    }
  }

  lemma {:induction false} RootKeeps(k: Core, root: BlobId, rest: seq<Request>, yielded: multiset<BlobId>,
                                     roots: seq<BlobId>, added: nat)
    requires CoreInv(k, rest, yielded, roots, added) && added < |roots| && root == roots[added]
    ensures CoreInv(WithRoot(k, root, added), rest, yielded, roots, added + 1)
    ensures k.visited <= WithRoot(k, root, added).visited
  {
    var req := Request([], root, added);
    RootReachable(roots, added);
    RootCounted(k, req, CountBag(k.queueIn + rest), added);
    LocatedMore(k.queueIn + rest, roots, added);
    if root !in k.visited {
      EnqueueTracked(k, req, IdBag(k.queueIn + rest) + yielded, roots, added);
      Queued(k.queueIn, req, rest, yielded, roots, added + 1);
      assert Located([req], roots, added + 1);
    }
  }

  lemma {:induction false} RootReachable(roots: seq<BlobId>, c: nat)
    requires c < |roots|
    ensures roots[c] in ReachAll(roots)
  {
    ReachAllHas(roots, c);
    assert roots[c] in ReachTrees(roots[c]);
  }

  lemma {:induction false} LocatedMore(rs: seq<Request>, roots: seq<BlobId>, added: nat)
    requires Located(rs, roots, added) && added < |roots|
    ensures Located(rs, roots, added + 1)
  {
  }

  lemma {:induction false} AddRootKeeps(s: State)
    requires Inv(s) && Enabled(s, AddRoot)
    ensures Inv(Apply(s, AddRoot))
  {
    RootKeeps(s.core, s.roots[s.added], Others(s), IdBag(s.yielded), s.roots, s.added);
    LocatedMore(s.yielded, s.roots, s.added);
    var t := Apply(s, AddRoot);
    StillClosed(s.core, t.core, s.yielded);
  }

  lemma {:induction false} StillClosed(k: Core, k': Core, yielded: seq<Request>)
    requires Closed(k, yielded) && k.visited <= k'.visited
    ensures Closed(k', yielded)
  {
  }

  /** A request that only moves from one queue to another changes nothing. */
  lemma {:induction false} Moved(a: seq<Request>, x: Request, b: seq<Request>, c: seq<Request>, roots: seq<BlobId>,
                                 added: nat)
    ensures Located(a + [x] + (b + c), roots, added) == Located(a + b + [x] + c, roots, added)
    ensures IdBag(a + [x] + (b + c)) == IdBag(a + b + [x] + c)
    ensures CountBag(a + [x] + (b + c)) == CountBag(a + b + [x] + c)
  {
    MovedBags(a, x, b, c);
    Assoc(a, b, c);
    LocatedSplit(a, x, b + c, roots, added);
    LocatedSplit(a + b, x, c, roots, added);
  }

  lemma {:induction false} MovedBags(a: seq<Request>, x: Request, b: seq<Request>, c: seq<Request>)
    ensures IdBag(a + [x] + (b + c)) == IdBag(a + b + [x] + c)
    ensures CountBag(a + [x] + (b + c)) == CountBag(a + b + [x] + c)
  {
    Assoc(a, b, c);
    BagSplit(a, x, b + c);
    BagSplit(a + b, x, c);
  }

  /** Each of these actions moves one request: into a loader, into the output queue, or out of it
      with an error. */
  lemma {:induction false} TakeMoves(q: seq<Request>, l: seq<Request>, c: seq<Request>)
    requires q != []
    ensures q + (l + c) == [] + [q[0]] + ((q[1..] + l) + c)
    ensures q[1..] + ((l + [q[0]]) + c) == [] + (q[1..] + l) + [q[0]] + c
  {
    assert q == [q[0]] + q[1..];
  }

  lemma {:induction false} SendMoves(q: seq<Request>, l: seq<Request>, i: nat, out: seq<Request>, lost: seq<Request>)
    requires i < |l|
    ensures q + (l + (out + lost)) == (q + l[..i]) + [l[i]] + ((l[i + 1..] + out) + lost)
    ensures q + ((l[..i] + l[i + 1..]) + ((out + [l[i]]) + lost)) == (q + l[..i]) + (l[i + 1..] + out) + [l[i]] + lost
  {
    assert l == l[..i] + [l[i]] + l[i + 1..];
  }

  lemma {:induction false} FailMoves(q: seq<Request>, l: seq<Request>, r: Request, out: seq<Request>,
                                     lost: seq<Request>)
    ensures q + (l + (([r] + out) + lost)) == (q + l) + [r] + ((out + lost) + [])
    ensures q + (l + (out + (lost + [r]))) == (q + l) + (out + lost) + [r] + []
  {
  }

  lemma {:induction false} ActionMoves(s: State, act: Action)
    returns (a: seq<Request>, x: Request, b: seq<Request>, c: seq<Request>)
    requires Enabled(s, act) &&
               (act.Take? || act.Send? || (act.Next? && |s.core.counter| != s.core.finishedIds && !s.queueOut[0].ok))
    ensures Outstanding(s) == a + [x] + (b + c) && Outstanding(Apply(s, act)) == a + b + [x] + c
  {
    var q, l, out := s.core.queueIn, s.loading, Requests(s.queueOut);
    match act
    case Take =>
      TakeMoves(q, l, out + s.lost);
      a, x, b, c := [], q[0], q[1..] + l, out + s.lost;
    case Send(i, ok) =>
      SendMoves(q, l, i, out, s.lost);
      assert Requests(s.queueOut + [Answer(l[i], ok)]) == out + [l[i]];
      a, x, b, c := q + l[..i], l[i], l[i + 1..] + out, s.lost;
    case Next =>
      var r, rest := s.queueOut[0].req, Requests(s.queueOut[1..]);
      assert out == [r] + rest;
      FailMoves(q, l, r, rest, s.lost);
      a, x, b, c := q + l, r, rest + s.lost, [];
  }

  lemma {:induction false} MoveKeeps(s: State, act: Action)
    requires Inv(s) && Enabled(s, act)
    requires act.Take? || act.Send? || (act.Next? && |s.core.counter| != s.core.finishedIds && !s.queueOut[0].ok)
    ensures Inv(Apply(s, act))
  {
    var a, x, b, c := ActionMoves(s, act);
    Moved(a, x, b, c, s.roots, s.added);
    var t := Apply(s, act);
    assert CoreInv(t.core, Others(t), IdBag(t.yielded), t.roots, t.added);
  }

  lemma {:induction false} IdleAfter(counter: seq<int>, c: nat, added: nat)
    requires c < added <= |counter| && counter[c] >= 1
    ensures |Idle(counter[c := counter[c] - 1], added)| == |Idle(counter, added)| + if counter[c] == 1 then 1 else 0
  {
    var after := counter[c := counter[c] - 1];
    if counter[c] == 1 {
      assert Idle(after, added) == Idle(counter, added) + {c as int};
    } else {
      assert Idle(after, added) == Idle(counter, added);
    }
  }

  /** The received tree leaves the outstanding requests and joins the yielded ones. */
  lemma {:induction false} Received(k: Core, counts: multiset<nat>, c: nat, added: nat)
    requires Counted(k, counts + multiset{c}, added)
    ensures c < |k.counter| && k.counter[c] >= 1
    ensures var left := k.counter[c] - 1;
      Counted(k.(counter := k.counter[c := left], finishedIds := k.finishedIds + if left == 0 then 1 else 0), counts,
          added)
  {
    assert c in counts + multiset{c};
    IdleAfter(k.counter, c, added);
    forall d | d in counts ensures d < added { assert d in counts + multiset{c}; }
    forall d | 0 <= d < |k.counter| && d != c ensures k.counter[d] == counts[d] {}
  }

  lemma {:induction false} Removed(k: Core, r: Request, a: seq<Request>, b: seq<Request>, yielded: seq<Request>,
                                   roots: seq<BlobId>, added: nat)
    requires CoreInv(k, a + ([r] + b), IdBag(yielded), roots, added)
    ensures r.count in CountBag(k.queueIn + (a + ([r] + b))) && r.count < added && r.id in k.visited
    ensures Leads(roots[r.count], r.path, r.id)
    ensures Counted(k, CountBag(k.queueIn + (a + b)) + multiset{r.count}, added)
    ensures Tracked(k, IdBag(k.queueIn + (a + b)) + IdBag(yielded + [r]), roots, added)
    ensures Located(k.queueIn + (a + b), roots, added)
  {
    var q := k.queueIn;
    assert q + (a + ([r] + b)) == (q + a) + [r] + b && q + (a + b) == (q + a) + b;
    Queued(q + a, r, b, IdBag(yielded), roots, added);
    assert [r][0] == r;
    YieldBag(yielded, r, IdBag((q + a) + b));
  }

  lemma {:induction false} YieldBag(yielded: seq<Request>, r: Request, ids: multiset<BlobId>)
    ensures ids + IdBag(yielded + [r]) == ids + IdBag(yielded) + multiset{r.id}
    ensures r.id in ids + IdBag(yielded + [r])
  {
    BagConcat(yielded, [r]);
    BagOne(r);
  }

  lemma {:induction false} DeliverKeeps(k: Core, r: Request, a: seq<Request>, b: seq<Request>, yielded: seq<Request>,
                                        roots: seq<BlobId>, added: nat)
    requires CoreInv(k, a + ([r] + b), IdBag(yielded), roots, added) && r.id.TreeBlob?
    ensures r.count < added
    ensures CoreInv(Deliver(k, r), a + b, IdBag(yielded + [r]), roots, added)
    ensures k.visited <= Deliver(k, r).visited
    ensures forall n :: n in r.id.nodes && n.subtree.Some? ==> n.subtree.value in Deliver(k, r).visited
    ensures Leads(roots[r.count], r.path, r.id)
  {
    Removed(k, r, a, b, yielded, roots, added);
    var c := ReachAllFrom(roots, r.id);
    ReachTransitive(roots[c], r.id);
    ReachAllHas(roots, c);
    AddSubtreesKeeps(k, r.path, r.id, r.id.nodes, r.count, a + ([r] + b), IdBag(yielded), roots, added);
    var k1 := AddSubtrees(k, r.path, r.id.nodes, r.count);
    Removed(k1, r, a, b, yielded, roots, added);
    Received(k1, CountBag(k1.queueIn + (a + b)), r.count, added);
  }

  lemma {:induction false} YieldKeeps(s: State)
    requires Inv(s) && Enabled(s, Next) && |s.core.counter| != s.core.finishedIds && s.queueOut[0].ok
    ensures Inv(Apply(s, Next))
  {
    var t, r, rest := Apply(s, Next), s.queueOut[0].req, Requests(s.queueOut[1..]) + s.lost;
    HeadSplits(s.queueOut, s.lost);
    DeliverKeeps(s.core, r, s.loading, rest, s.yielded, s.roots, s.added);
    LocatedConcat(s.yielded, [r], s.roots, s.added);
    ClosedAfter(s.core, t.core, s.yielded, r);
    assert Others(t) == s.loading + rest;
  }

  lemma {:induction false} HeadSplits(out: seq<Answer>, lost: seq<Request>)
    requires out != []
    ensures Requests(out) + lost == [out[0].req] + (Requests(out[1..]) + lost)
  {
    assert Requests(out) == [out[0].req] + Requests(out[1..]);
  }

  lemma {:induction false} ClosedAfter(k: Core, k': Core, yielded: seq<Request>, r: Request)
    requires Closed(k, yielded) && k.visited <= k'.visited && r.id.TreeBlob?
    requires forall n :: n in r.id.nodes && n.subtree.Some? ==> n.subtree.value in k'.visited
    ensures Closed(k', yielded + [r])
  {
  }

  lemma {:induction false} StepKeeps(s: State, a: Action)
    requires Inv(s) && Enabled(s, a)
    ensures Inv(Apply(s, a))
  {
    match a
    case AddRoot => AddRootKeeps(s);
    case Next =>
      if |s.core.counter| != s.core.finishedIds {
        if s.queueOut[0].ok { YieldKeeps(s); } else { MoveKeeps(s, a); }
      }
    case _ => MoveKeeps(s, a);
  }

  // ---------------------------------------------------------------- what every run does

  lemma {:induction false} InitInv(roots: seq<BlobId>)
    ensures Inv(Init(roots))
  {
    var s := Init(roots);
    assert Outstanding(s) == [];
    assert Idle(s.core.counter, 0) == {};
  }

  lemma {:induction false} RunKeeps(s: State, acts: seq<Action>, t: State)
    requires Inv(s) && Runs(s, acts, t)
    ensures Inv(t) && t.roots == s.roots
    decreases |acts|
  {
    if acts != [] {
      StepKeeps(s, acts[0]);
      RunKeeps(Apply(s, acts[0]), acts[1..], t);
    }
  }

  /** In every reachable state the counters are exact, nothing was requested or yielded twice, and
      every yielded path leads to its tree. */
  lemma {:induction false} CountersExact(roots: seq<BlobId>, acts: seq<Action>, s: State)
    requires Runs(Init(roots), acts, s)
    ensures forall c :: 0 <= c < |roots| ==>
              |s.core.counter| == |roots| && s.core.counter[c] == multiset(Counts(Outstanding(s)))[c]
    ensures multiset(Ids(Outstanding(s))) + multiset(Ids(s.yielded)) == multiset(s.core.visited)
    ensures forall r :: r in s.yielded ==> r.count < |roots| && Leads(roots[r.count], r.path, r.id)
  {
    InitInv(roots);
    RunKeeps(Init(roots), acts, s);
  }

  /** The end-of-work test is exact: once the roots are in, all roots count as finished if and only
      if no request is queued, being loaded or waiting to be received. */
  lemma {:induction false} EndIsExact(s: State)
    requires Inv(s) && s.added == |s.roots|
    ensures |s.core.counter| == s.core.finishedIds <==> Outstanding(s) == []
  {
    if Outstanding(s) == [] { NothingLeft(s); } else { SomethingLeft(s); }
  }

  lemma {:induction false} NothingLeft(s: State)
    requires Inv(s) && s.added == |s.roots| && Outstanding(s) == []
    ensures |s.core.counter| == s.core.finishedIds
  {
    assert CountBag(Outstanding(s)) == multiset{};
    assert Idle(s.core.counter, s.added) == Upto(|s.roots|);
  }

  lemma {:induction false} SomethingLeft(s: State)
    requires Inv(s) && s.added == |s.roots| && Outstanding(s) != []
    ensures s.core.finishedIds < |s.core.counter|
  {
    var rs := Outstanding(s);
    var c := Counts(rs)[0];
    assert c in CountBag(rs);
    var idle, all := Idle(s.core.counter, s.added), Upto(|s.roots|);
    assert c as int in all && c as int !in idle && idle <= all;
    SubsetSmaller(idle, all);
  }

  ghost function Upto(n: nat): (r: set<int>)
    ensures |r| == n && forall c :: c in r <==> 0 <= c < n
  {
    if n == 0 then {} else Upto(n - 1) + {n - 1}
  }

  lemma {:induction false} SubsetSmaller<T>(a: set<T>, b: set<T>)
    requires a < b
    ensures |a| < |b|
  {
    assert b == a + (b - a);
  }

  /** The trees of `ids` and every tree below them are visited, when the visited set is closed. */
  lemma {:induction false} ClosureReaches(visited: set<BlobId>, id: BlobId)
    requires id in visited
    requires forall v, n :: v in visited && v.TreeBlob? && n in v.nodes && n.subtree.Some? ==>
               n.subtree.value in visited
    ensures ReachTrees(id) <= visited
    decreases id, 1
  {
    if id.TreeBlob? { ClosureReachesNodes(visited, id.nodes); }
  }

  lemma {:induction false} ClosureReachesNodes(visited: set<BlobId>, nodes: seq<Node>)
    requires forall n :: n in nodes && n.subtree.Some? ==> n.subtree.value in visited
    requires forall v, n :: v in visited && v.TreeBlob? && n in v.nodes && n.subtree.Some? ==>
               n.subtree.value in visited
    ensures ReachNodes(nodes) <= visited
    decreases nodes, 0
  {
    if nodes != [] {
      if nodes[0].subtree.Some? { ClosureReaches(visited, nodes[0].subtree.value); }
      ClosureReachesNodes(visited, nodes[1..]);
    }
  }

  /** An error-free run that ends has yielded every tree reachable from a root, each exactly once. */
  lemma {:induction false} YieldsReachableOnce(roots: seq<BlobId>, acts: seq<Action>, s: State)
    requires Runs(Init(roots), acts, s) && s.done && !s.Failed()
    ensures multiset(Ids(s.yielded)) == multiset(ReachAll(roots))
  {
    InitInv(roots);
    RunKeeps(Init(roots), acts, s);
    EndIsExact(s);
    assert Ids(Outstanding(s)) == [];
    assert multiset(Ids(Outstanding(s))) == multiset{};
    var visited := s.core.visited;
    forall v, n | v in visited && v.TreeBlob? && n in v.nodes && n.subtree.Some?
      ensures n.subtree.value in visited
    {
      assert v in multiset(visited);
      assert v in multiset(Ids(s.yielded));
      var i :| 0 <= i < |s.yielded| && Ids(s.yielded)[i] == v;
      assert s.yielded[i] in s.yielded;
    }
    forall id | id in ReachAll(roots) ensures id in visited {
      var c := ReachAllFrom(roots, id);
      ClosureReaches(visited, roots[c]);
    }
    assert visited == ReachAll(roots);
  }

  lemma {:induction false} HeadIsFit(s: State)
    requires Inv(s) && s.queueOut != []
    ensures s.queueOut[0].req.count < |s.core.counter| && (s.queueOut[0].ok ==> s.queueOut[0].req.id.TreeBlob?)
  {
    assert Outstanding(s)[|s.core.queueIn| + |s.loading|] == Requests(s.queueOut)[0];
    assert s.queueOut[0] in s.queueOut;
  }

  /** No run blocks for ever: as long as the caller has neither got `None` nor an error, some
      action is possible, and a caller that waits on an empty output queue is waiting for a loader
      that can move. */
  lemma {:induction false} NeverBlocks(roots: seq<BlobId>, acts: seq<Action>, s: State)
    requires Runs(Init(roots), acts, s) && !s.done && !s.Failed()
    ensures exists a :: Enabled(s, a)
    ensures s.added == |roots| && !Enabled(s, Next) ==>
      s.queueOut == [] && (Enabled(s, Take) || exists ok :: Enabled(s, Send(0, ok)))
  {
    InitInv(roots);
    RunKeeps(Init(roots), acts, s);
    if s.added < |roots| {
      assert Enabled(s, AddRoot);
    } else if !Enabled(s, Next) {
      EndIsExact(s);
      if s.queueOut != [] { HeadIsFit(s); }
      assert Requests(s.queueOut) == [];
      if s.loading != [] { assert Enabled(s, Send(0, false)); } else { assert Enabled(s, Take); }
    } else {
      assert Enabled(s, Next);
    }
  }

  /** An upper bound on the number of actions still possible. */
  ghost function Work(s: State): nat
    requires s.added <= |s.roots|
  {
    (|s.roots| - s.added) + 4 * |ReachAll(s.roots) - s.core.visited|
      + 3 * |s.core.queueIn| + 2 * |s.loading| + |s.queueOut| + if s.done then 0 else 1
  }

  lemma {:induction false} EnqueueWork(k: Core, req: Request, all: set<BlobId>)
    requires req.count < |k.counter| && req.id in all
    ensures var k' := Enqueue(k, req).0;
      4 * |all - k'.visited| + 3 * |k'.queueIn| <= 4 * |all - k.visited| + 3 * |k.queueIn|
  {
    if req.id !in k.visited {
      var k' := Enqueue(k, req).0;
      assert all - k.visited == (all - k'.visited) + {req.id};
    }
  }

  lemma {:induction false} AddSubtreesWork(k: Core, path: Path, nodes: seq<Node>, count: nat, all: set<BlobId>)
    requires count < |k.counter| && forall n :: n in nodes && n.subtree.Some? ==> n.subtree.value in all
    ensures var k' := AddSubtrees(k, path, nodes, count);
      4 * |all - k'.visited| + 3 * |k'.queueIn| <= 4 * |all - k.visited| + 3 * |k.queueIn|
    decreases |nodes|
  {
    if nodes != [] {
      var k' := k;
      if nodes[0].subtree.Some? {
        assert nodes[0] in nodes;
        var req := Request(path + [nodes[0].name], nodes[0].subtree.value, count);
        EnqueueWork(k, req, all);
        k' := Enqueue(k, req).0;
      }
      AddSubtreesWork(k', path, nodes[1..], count, all);
    }
  }

  lemma {:induction false} StepWorks(s: State, a: Action)
    requires Inv(s) && Enabled(s, a)
    ensures Apply(s, a).added <= |s.roots| && Work(Apply(s, a)) < Work(s)
  {
    var all := ReachAll(s.roots);
    match a
    case AddRoot =>
      ReachAllHas(s.roots, s.added);
      assert s.roots[s.added] in ReachTrees(s.roots[s.added]);
      EnqueueWork(s.core, Request([], s.roots[s.added], s.added), all);
    case Take =>
    case Send(i, ok) =>
    case Next =>
      if |s.core.counter| != s.core.finishedIds && s.queueOut[0].ok {
        var r := s.queueOut[0].req;
        YieldKeeps(s);
        var k := Deliver(s.core, r);
        assert r in Apply(s, Next).yielded;
        AddSubtreesWork(s.core, r.path, r.id.nodes, r.count, all);
      }
  }

  /** Every run is finite, whatever the loaders do: its length is bounded by the roots and the
      trees reachable from them. */
  lemma {:induction false} RunsEnd(s: State, acts: seq<Action>, t: State)
    requires Inv(s) && Runs(s, acts, t)
    ensures |acts| <= Work(s)
    decreases |acts|
  {
    if acts != [] {
      StepKeeps(s, acts[0]);
      StepWorks(s, acts[0]);
      RunsEnd(Apply(s, acts[0]), acts[1..], t);
    }
  }
}
