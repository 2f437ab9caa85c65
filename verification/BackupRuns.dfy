/** Every backup can happen: for any source, and any chunks of its files, some run of the pipeline takes in the
    events of the walk and publishes. */
module BackupRuns {
  import opened Repo
  import TB = TreeBuild
  import PreOrder
  import ListWalk
  import WalkTree
  import opened Publish
  import opened Progress
  import opened History
  import opened Backup

  /** Between two events: the pipeline works, and no file is being read or waits. */
  ghost predicate Waiting(s: State)
  {
    Healthy(s) && Flow(s) && s.phase == Walking && s.jobs == [] && s.ready == []
  }

  /** The events so far are the same in a longer run. */
  lemma {:induction false} EventsStay(trace: seq<State>, acts: seq<Action>, t: seq<State>, b: seq<Action>, n: nat)
    requires n <= |acts| && n <= |trace| && trace <= t && acts <= b
    ensures EventsUpTo(t, b, n) == EventsUpTo(trace, acts, n)
  {
    if n > 0 { EventsStay(trace, acts, t, b, n - 1); }
  }

  lemma {:induction false} OneMore(trace: seq<State>, acts: seq<Action>, a: Action)
    returns (t: seq<State>, b: seq<Action>)
    requires BackupRun(trace, acts) && Enabled(trace[|acts|], a) && Flow(trace[|acts|])
    ensures t == trace + [Apply(trace[|acts|], a)] && b == acts + [a]
    ensures BackupRun(t, b) && Flow(t[|b|])
    ensures EventsUpTo(t, b, |b|) == EventsUpTo(trace, acts, |acts|) + EventOf(t, b, |acts|)
  {
    t, b := trace + [Apply(trace[|acts|], a)], acts + [a];
    EventsStay(trace, acts, t, b, |acts|);
    FlowStep(trace[|acts|], a);
  }

  // ---------------------------------------------------------------- one event

  function Given(gives: Node -> seq<BlobId>, w: TB.Event): TB.Event
  {
    match w
    case Other(_, node) => TB.Other([], if node.nodeType.File? then node.(content := Some(gives(node))) else node)
    case NewTree(_, node) => TB.NewTree([], node)
    case EndTree => TB.EndTree
  }

  /** The events with the contents that the workers give to files. */
  function AllGiven(gives: Node -> seq<BlobId>, ws: seq<TB.Event>): (r: seq<TB.Event>)
    ensures |r| == |ws|
  {
    seq(|ws|, i requires 0 <= i < |ws| => Given(gives, ws[i]))
  }

  /** The node of the event comes without content and subtree. */
  predicate PlainEvent(w: TB.Event)
  {
    !w.EndTree? ==> w.node.subtree == None && w.node.content == None
  }

  /** The only open file is read. */
  ghost predicate Reading(s: State, job: Job)
  {
    Healthy(s) && Flow(s) && s.phase == Walking && s.jobs == [job] && s.ready == []
  }

  /** It has been read. */
  ghost predicate HasRead(s: State, node: Node)
  {
    Healthy(s) && Flow(s) && s.phase == Walking && s.jobs == [] && s.ready == [node]
  }

  /** All chunks of the file. */
  function Whole(job: Job): seq<BlobId> { job.done + job.todo }

  lemma {:induction false} SameWhole(job: Job)
    requires job.todo != []
    ensures Whole(Job(job.node, job.todo[1..], job.done + [job.todo[0]])) == Whole(job)
  {
  }

  lemma {:induction false} ChunkIsRead(s: State, job: Job)
    requires Reading(s, job) && job.todo != []
    ensures Enabled(s, NextChunk(0))
    ensures Reading(Apply(s, NextChunk(0)), Job(job.node, job.todo[1..], job.done + [job.todo[0]]))
  {
    FlowStep(s, NextChunk(0));
  }

  lemma {:induction false} FileIsRead(s: State, job: Job)
    requires Reading(s, job) && job.todo == []
    ensures Enabled(s, FileDone(0)) && HasRead(Apply(s, FileDone(0)), job.node.(content := Some(Whole(job))))
  {
    assert Whole(job) == job.done;
    FlowStep(s, FileDone(0));
  }

  lemma {:induction false} ReadChunk(trace: seq<State>, acts: seq<Action>, job: Job)
    returns (t: seq<State>, b: seq<Action>, next: Job)
    requires BackupRun(trace, acts) && Reading(trace[|acts|], job) && job.todo != []
    ensures BackupRun(t, b) && t[0] == trace[0] && EventsUpTo(t, b, |b|) == EventsUpTo(trace, acts, |acts|)
    ensures Reading(t[|b|], next) && next.node == job.node && Whole(next) == Whole(job) && |next.todo| < |job.todo|
  {
    ChunkIsRead(trace[|acts|], job);
    t, b := OneMore(trace, acts, NextChunk(0));
    SameWhole(job);
    next := Job(job.node, job.todo[1..], job.done + [job.todo[0]]);
  }

  lemma {:induction false} EndFile(trace: seq<State>, acts: seq<Action>, job: Job)
    returns (t: seq<State>, b: seq<Action>)
    requires BackupRun(trace, acts) && Reading(trace[|acts|], job) && job.todo == []
    ensures BackupRun(t, b) && t[0] == trace[0] && EventsUpTo(t, b, |b|) == EventsUpTo(trace, acts, |acts|)
    ensures HasRead(t[|b|], job.node.(content := Some(Whole(job))))
  {
    FileIsRead(trace[|acts|], job);
    t, b := OneMore(trace, acts, FileDone(0));
  }

  lemma {:induction false} ReadFile(trace: seq<State>, acts: seq<Action>, job: Job)
    returns (t: seq<State>, b: seq<Action>)
    requires BackupRun(trace, acts) && Reading(trace[|acts|], job)
    ensures BackupRun(t, b) && t[0] == trace[0] && EventsUpTo(t, b, |b|) == EventsUpTo(trace, acts, |acts|)
    ensures HasRead(t[|b|], job.node.(content := Some(Whole(job))))
    decreases |job.todo|
  {
    if job.todo == [] {
      t, b := EndFile(trace, acts, job);
    } else {
      var u, c, next := ReadChunk(trace, acts, job);
      t, b := ReadFile(u, c, next);
    }
  }

  lemma {:induction false} FileBegins(s: State, node: Node, chunks: seq<BlobId>)
    requires Waiting(s) && node.subtree == None
    ensures Enabled(s, StartFile(node, chunks)) && Reading(Apply(s, StartFile(node, chunks)), Job(node, chunks, []))
  {
    FlowStep(s, StartFile(node, chunks));
  }

  lemma {:induction false} PlainIsRead(s: State, node: Node)
    requires Waiting(s) && node.subtree == None && node.content == None
    ensures Enabled(s, PlainNode(node)) && HasRead(Apply(s, PlainNode(node)), node)
  {
    FlowStep(s, PlainNode(node));
  }

  lemma {:induction false} NodeIsAdded(s: State, node: Node)
    requires HasRead(s, node)
    ensures Enabled(s, AddNode(0)) && Waiting(Apply(s, AddNode(0)))
  {
    FlowStep(s, AddNode(0));
  }

  lemma {:induction false} TakeFile(trace: seq<State>, acts: seq<Action>, node: Node, chunks: seq<BlobId>)
    returns (t: seq<State>, b: seq<Action>)
    requires BackupRun(trace, acts) && Waiting(trace[|acts|]) && node.subtree == None
    ensures BackupRun(t, b) && t[0] == trace[0] && HasRead(t[|b|], node.(content := Some(chunks)))
    ensures EventsUpTo(t, b, |b|) == EventsUpTo(trace, acts, |acts|)
  {
    FileBegins(trace[|acts|], node, chunks);
    t, b := OneMore(trace, acts, StartFile(node, chunks));
    assert Whole(Job(node, chunks, [])) == chunks;
    t, b := ReadFile(t, b, Job(node, chunks, []));
  }

  lemma {:induction false} TakePlain(trace: seq<State>, acts: seq<Action>, node: Node)
    returns (t: seq<State>, b: seq<Action>)
    requires BackupRun(trace, acts) && Waiting(trace[|acts|]) && node.subtree == None && node.content == None
    ensures BackupRun(t, b) && t[0] == trace[0] && HasRead(t[|b|], node)
    ensures EventsUpTo(t, b, |b|) == EventsUpTo(trace, acts, |acts|)
  {
    PlainIsRead(trace[|acts|], node);
    t, b := OneMore(trace, acts, PlainNode(node));
  }

  lemma {:induction false} AddRead(trace: seq<State>, acts: seq<Action>, node: Node)
    returns (t: seq<State>, b: seq<Action>)
    requires BackupRun(trace, acts) && HasRead(trace[|acts|], node)
    ensures BackupRun(t, b) && t[0] == trace[0] && Waiting(t[|b|])
    ensures EventsUpTo(t, b, |b|) == EventsUpTo(trace, acts, |acts|) + [TB.Other([], node)]
  {
    NodeIsAdded(trace[|acts|], node);
    t, b := OneMore(trace, acts, AddNode(0));
  }

  lemma {:induction false} TakeNode(gives: Node -> seq<BlobId>, trace: seq<State>, acts: seq<Action>, node: Node)
    returns (t: seq<State>, b: seq<Action>)
    requires BackupRun(trace, acts) && Waiting(trace[|acts|]) && node.subtree == None && node.content == None
    ensures BackupRun(t, b) && t[0] == trace[0] && Waiting(t[|b|])
    ensures EventsUpTo(t, b, |b|) == EventsUpTo(trace, acts, |acts|) + [Given(gives, TB.Other([], node))]
  {
    if node.nodeType.File? {
      t, b := TakeFile(trace, acts, node, gives(node));
    } else {
      t, b := TakePlain(trace, acts, node);
    }
    t, b := AddRead(t, b, Given(gives, TB.Other([], node)).node);
  }

  lemma {:induction false} TakeEvent(gives: Node -> seq<BlobId>, trace: seq<State>, acts: seq<Action>, w: TB.Event)
    returns (t: seq<State>, b: seq<Action>)
    requires BackupRun(trace, acts) && Waiting(trace[|acts|]) && PlainEvent(w)
    requires w.EndTree? ==> trace[|acts|].stack != []
    ensures BackupRun(t, b) && t[0] == trace[0] && Waiting(t[|b|])
    ensures EventsUpTo(t, b, |b|) == EventsUpTo(trace, acts, |acts|) + [Given(gives, w)]
  {
    match w
    case NewTree(_, node) => t, b := OneMore(trace, acts, OpenDir(node, NotFound));
    case EndTree => t, b := OneMore(trace, acts, CloseDir);
    case Other(_, node) => t, b := TakeNode(gives, trace, acts, node);
  }

  // ---------------------------------------------------------------- a whole run

  /** Events that never close too much are taken in one by one. */
  lemma {:induction false} TakeAll(gives: Node -> seq<BlobId>, s0: State, ws: seq<TB.Event>)
    returns (t: seq<State>, b: seq<Action>)
    requires s0 == Init(s0.startData, s0.startTrees)
    requires (forall w :: w in ws ==> PlainEvent(w)) && TB.AddAll(EMPTY, AllGiven(gives, ws)).Some?
    ensures BackupRun(t, b) && t[0] == s0 && Waiting(t[|b|]) && EventsUpTo(t, b, |b|) == AllGiven(gives, ws)
    decreases |ws|
  {
    if ws == [] {
      t, b := [s0], [];
    } else {
      var front, w := ws[..|ws| - 1], ws[|ws| - 1];
      assert AllGiven(gives, ws) == AllGiven(gives, front) + [Given(gives, w)];
      AddAllMore(EMPTY, AllGiven(gives, front), Given(gives, w));
      t, b := TakeAll(gives, s0, front);
      TreeIsOfEvents(t, b, |b|);
      t, b := TakeEvent(gives, t, b, w);
    }
  }

  /** The walk has ended, or only its end is missing. */
  ghost predicate Settled(s: State)
  {
    Healthy(s) && Flow(s) && (s.phase == Walking ==> s.jobs == [] && s.ready == [] && s.stack == [])
  }

  lemma {:induction false} SettledMoves(s: State)
    requires Settled(s)
    ensures var a := Move(s, NotFound);
      && Nearer(s, a) && !a.AddNode? && !a.OpenDir? && !a.CloseDir?
      && if a == SaveSnapshot(false) then Published(Apply(s, a)) else Settled(Apply(s, a))
  {
    var a := Move(s, NotFound);
    MoveWorks(s, NotFound);
    if IsPacking(a) { PackingFrame(s, a); }
    if a == SaveSnapshot(false) { assert Late(s.phase); }
  }

  /** From there no more events come, and the snapshot is published. */
  lemma {:induction false} Drain(trace: seq<State>, acts: seq<Action>) returns (t: seq<State>, b: seq<Action>)
    requires BackupRun(trace, acts) && Settled(trace[|acts|])
    ensures BackupRun(t, b) && t[0] == trace[0] && Published(t[|b|])
    ensures EventsUpTo(t, b, |b|) == EventsUpTo(trace, acts, |acts|)
    decreases Work(trace[|acts|])
  {
    SettledMoves(trace[|acts|]);
    t, b := OneMore(trace, acts, Move(trace[|acts|], NotFound));
    if b[|acts|] != SaveSnapshot(false) { t, b := Drain(t, b); }
  }

  // ---------------------------------------------------------------- the events of a walk

  lemma {:induction false} EventsArePlain(it: TB.Iter)
    requires TB.Chained(TB.Lead(it.path), it.items)
    requires forall e :: e in it.items ==> e.node.subtree == None && e.node.content == None
    ensures forall w :: w in TB.Events(it) ==> PlainEvent(w)
    decreases TB.Rank(it).0, TB.Rank(it).1, TB.Rank(it).2
  {
    if TB.Next(it).0.Some? {
      TB.NextKeepsChain(it);
      TB.NextProgress(it);
      EventsArePlain(TB.Next(it).1);
    }
  }

  /** A listing of directories without contents has plain entries only. */
  lemma {:induction false} ListingIsPlain(dir: TB.Path, nodes: seq<Node>)
    requires PreOrder.Forest(nodes) && Emptied(nodes) == nodes
    ensures forall e :: e in PreOrder.Listing(dir, nodes) ==> e.node.subtree == None && e.node.content == None
    decreases nodes
  {
    if nodes != [] {
      var n := nodes[0];
      assert nodes == [n] + nodes[1..] && n in nodes;
      assert Emptied(nodes)[0] == EmptiedNode(n) && Emptied(nodes)[1..] == Emptied(nodes[1..]);
      if n.subtree.Some? { ListingIsPlain(PreOrder.Child(dir, n.name), n.subtree.value.nodes); }
      ListingIsPlain(dir, nodes[1..]);
    }
  }

  lemma {:induction false} WalkIsPlain(be: ListWalk.Backend, root: TB.Path)
    requires WalkTree.GoodSource(be)
    ensures forall w :: w in WalkEvents(be, root) ==> PlainEvent(w)
  {
    WalkTree.BackupStoresSource(be, root);
    WalkTree.RootIsListed(be, root);
    WalkTree.TreeIsForest(be, root, 0);
    SourceIsEmptied(be, root, 0);
    ListingIsPlain(root, WalkTree.SourceTree(be, root, 0));
    EventsArePlain(TB.Iter([], WalkTree.Entries(ListWalk.WalkRoots(be, [root], {root}).items)));
  }

  /** For every source and start, and any chunks of its files, some run takes in exactly the events of the walk, each
      file with its chunks as content, and publishes a snapshot; by `BackupPublishesSource` that is the source. */
  lemma {:induction false} BackupHappens(be: ListWalk.Backend, root: TB.Path, gives: Node -> seq<BlobId>,
                                         startData: set<BlobId>, startTrees: set<BlobId>)
    returns (trace: seq<State>, acts: seq<Action>)
    requires WalkTree.GoodSource(be)
    ensures BackupRun(trace, acts) && trace[0] == Init(startData, startTrees) && Published(trace[|acts|])
    ensures EventsUpTo(trace, acts, |acts|) == AllGiven(gives, WalkEvents(be, root))
    ensures SameEvents(EventsUpTo(trace, acts, |acts|), WalkEvents(be, root))
  {
    var ws := WalkEvents(be, root);
    WalkIsPlain(be, root);
    forall i | 0 <= i < |ws| ensures SameEvent(AllGiven(gives, ws)[i], ws[i]) { assert ws[i] in ws; }
    WalkTree.BackupStoresSource(be, root);
    AddAllSame(EMPTY, EMPTY, AllGiven(gives, ws), ws);
    trace, acts := TakeAll(gives, Init(startData, startTrees), ws);
    TreeIsOfEvents(trace, acts, |acts|);
    trace, acts := Drain(trace, acts);
  }
}
