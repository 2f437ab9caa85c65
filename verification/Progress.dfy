/** What runs of the pipeline can do: the stages never block each other, so that a run without a failure
    can always end with a published snapshot; and where the conditions of publish safety fail, it can
    end with a snapshot that is not complete. */
module Progress {
  import opened Repo
  import opened Publish

  // ---------------------------------------------------------------- runs

  /** Some run leads from s to t. */
  ghost predicate Reaches(s: State, t: State)
  {
    exists trace, acts :: Run(trace, acts) && trace[0] == s && trace[|trace| - 1] == t
  }

  lemma {:induction false} ReachesSelf(s: State)
    ensures Reaches(s, s)
  {
    assert Run([s], []) && [s][0] == s;
  }

  lemma {:induction false} Then(s0: State, s: State, a: Action)
    requires Reaches(s0, s) && Enabled(s, a)
    ensures Reaches(s0, Apply(s, a))
  {
    var trace, acts :| Run(trace, acts) && trace[0] == s0 && trace[|trace| - 1] == s;
    var trace', acts' := trace + [Apply(s, a)], acts + [a];
    assert Run(trace', acts') && trace'[0] == s0 && trace'[|trace'| - 1] == Apply(s, a);
  }

  /** No stage has failed, and the backup is still running. */
  predicate Healthy(s: State)
  {
    && !s.data.broken && !s.data.writerBroken && !s.tree.broken && !s.tree.writerBroken
    && s.phase != Aborted && s.phase != Done
  }

  /** How the phases go with the channels. */
  ghost predicate Flow(s: State)
  {
    && (s.data.finished ==> Drained(s.data)) && (s.tree.finished ==> Drained(s.tree))
    && (s.phase == Walking ==> !s.data.closed)
    && (s.phase == ClosingData ==> s.data.closed)
    && (s.phase == Walking || s.phase == ClosingData ==> s.root == None)
    && (s.phase == Walking || s.phase == ClosingData || s.phase == ClosingTree ==> (s.tree.closed <==> s.root.Some?))
    && (Late(s.phase) ==> s.root.Some?)
  }

  lemma {:induction false} PackingFlow(s: State, a: Action)
    requires Flow(s) && Enabled(s, a) && IsPacking(a)
    ensures Flow(Apply(s, a))
  {
    PackingFrame(s, a);
    assert s.P(a.k).finished ==> Drained(s.P(a.k));
    FinishedStays(s.P(a.k), s.indexed, a);
    ClosedStays(s.P(a.k), s.indexed, a);
  }

  lemma {:induction false} ClosedStays(p: Packer, indexed: set<BlobId>, a: Action)
    requires IsPacking(a) && PackingEnabled(p, a)
    ensures PackingStep(p, indexed, a).closed == p.closed
  {
  }

  lemma {:induction false} FlowStep(s: State, a: Action)
    requires Flow(s) && Enabled(s, a)
    ensures Flow(Apply(s, a))
  {
    if IsPacking(a) { PackingFlow(s, a); }
    else if a.WritePack? || a.IndexPack? || a.NextChunk? { QueueFlow(s, a); }
    else { WorkFlow(s, a); }
  }

  lemma {:induction false} QueueFlow(s: State, a: Action)
    requires Flow(s) && Enabled(s, a) && (a.WritePack? || a.IndexPack? || a.NextChunk?)
    ensures Flow(Apply(s, a))
  {
  }

  lemma {:induction false} WorkFlow(s: State, a: Action)
    requires Flow(s) && Enabled(s, a) && !IsPacking(a) && !a.WritePack? && !a.IndexPack? && !a.NextChunk?
    ensures Flow(Apply(s, a))
  {
  }

  lemma {:induction false} FlowRun(trace: seq<State>, acts: seq<Action>, i: nat)
    requires Run(trace, acts) && i < |trace| && Flow(trace[0])
    ensures Flow(trace[i])
  {
    if i > 0 {
      FlowRun(trace, acts, i - 1);
      FlowStep(trace[i - 1], acts[i - 1]);
    }
  }

  lemma {:induction false} FlowReached(startData: set<BlobId>, startTrees: set<BlobId>, s: State)
    requires Reaches(Init(startData, startTrees), s)
    ensures Flow(s)
  {
    var trace, acts :| Run(trace, acts) && trace[0] == Init(startData, startTrees) && trace[|trace| - 1] == s;
    FlowRun(trace, acts, |trace| - 1);
  }

  // ---------------------------------------------------------------- a step that is always possible

  /** The next step of one packer and its writer; None if it waits for more. */
  function Advance(p: Packer, k: Kind): Option<Action>
  {
    if p.unindexed != [] then Some(IndexPack(k, false))
    else if p.unwritten != [] then Some(WritePack(k))
    else if p.checked != [] then Some(LateCheck(k, false))
    else if p.sent != [] then Some(EarlyCheck(k))
    else if p.closed && p.current != [] then Some(LastPack(k))
    else if p.closed && !p.finished then Some(Finish(k))
    else None
  }

  /** The next step of the archivers, with the packers idle. `parent` is that of the root tree. */
  function Walk(s: State, parent: ParentResult<BlobId>): Action
  {
    match s.phase
    case Walking =>
      if s.jobs != [] then
        if s.jobs[|s.jobs| - 1].todo != [] then NextChunk(|s.jobs| - 1) else FileDone(|s.jobs| - 1)
      else if s.ready != [] then AddNode(0)
      else if s.stack != [] then CloseDir
      else EndWalk
    case ClosingData => DataDone
    case ClosingTree => if s.root == None then CloseRoot(parent) else TreeDone
    case SavingIndex => SaveIndex
    case _ => SaveSnapshot(false)
  }

  function Move(s: State, parent: ParentResult<BlobId>): Action
  {
    if Advance(s.data, Data).Some? then Advance(s.data, Data).value
    else if Advance(s.tree, Tree).Some? then Advance(s.tree, Tree).value
    else Walk(s, parent)
  }

  function PackerWork(p: Packer): nat
  {
    5 * |p.sent| + 4 * |p.checked| + (if p.current != [] then 3 else 0) + 2 * |p.unwritten| + |p.unindexed|
      + if p.finished then 0 else 1
  }

  function JobsWork(jobs: seq<Job>): nat
  {
    if jobs == [] then 0 else JobsWork(jobs[..|jobs| - 1]) + 2 + 6 * |jobs[|jobs| - 1].todo|
  }

  function PhaseWork(ph: Phase): nat
  {
    match ph
    case Walking => 5
    case ClosingData => 4
    case ClosingTree => 3
    case SavingIndex => 2
    case SavingSnapshot => 1
    case _ => 0
  }

  /** A bound on the steps that are left. */
  function Work(s: State): nat
  {
    PackerWork(s.data) + PackerWork(s.tree) + JobsWork(s.jobs) + |s.ready| + 6 * |s.stack|
      + (if s.root == None then 6 else 0) + PhaseWork(s.phase)
  }

  /** The step is possible, nothing fails by it, and it leaves less to do. */
  ghost predicate Nearer(s: State, a: Action)
  {
    Enabled(s, a) && (Healthy(Apply(s, a)) || a == SaveSnapshot(false)) && Work(Apply(s, a)) < Work(s)
  }

  lemma {:induction false} AdvanceWorks(p: Packer, k: Kind, indexed: set<BlobId>)
    requires Advance(p, k).Some? && IsPacking(Advance(p, k).value) && !p.broken && !p.writerBroken
    requires p.finished ==> Drained(p)
    ensures var a := Advance(p, k).value;
      PackingEnabled(p, a) && PackerWork(PackingStep(p, indexed, a)) < PackerWork(p)
      && !PackingStep(p, indexed, a).broken && !PackingStep(p, indexed, a).writerBroken
  {
  }

  lemma {:induction false} WithWorks(s: State, k: Kind, q: Packer)
    requires Healthy(s) && PackerWork(q) < PackerWork(s.P(k)) && !q.broken && !q.writerBroken
    ensures Healthy(s.With(k, q)) && Work(s.With(k, q)) < Work(s)
  {
  }

  lemma {:induction false} WriteWorks(s: State, k: Kind)
    requires Healthy(s) && s.P(k).unwritten != []
    ensures Nearer(s, WritePack(k))
  {
  }

  lemma {:induction false} IndexWorks(s: State, k: Kind)
    requires Healthy(s) && s.P(k).unindexed != []
    ensures Nearer(s, IndexPack(k, false))
  {
  }

  lemma {:induction false} PackerMoves(s: State, k: Kind)
    requires Healthy(s) && (s.P(k).finished ==> Drained(s.P(k))) && Advance(s.P(k), k).Some?
    ensures Nearer(s, Advance(s.P(k), k).value)
  {
    var a := Advance(s.P(k), k).value;
    if IsPacking(a) {
      AdvanceWorks(s.P(k), k, s.indexed);
      PackingFrame(s, a);
      WithWorks(s, k, PackingStep(s.P(k), s.indexed, a));
    } else {
      if s.P(k).unindexed != [] { IndexWorks(s, k); } else { WriteWorks(s, k); }
    }
  }

  lemma {:induction false} LastJob(jobs: seq<Job>, job: Job)
    requires jobs != []
    ensures JobsWork(jobs[|jobs| - 1 := job]) == JobsWork(jobs[..|jobs| - 1]) + 2 + 6 * |job.todo|
    ensures Remove(jobs, |jobs| - 1) == jobs[..|jobs| - 1]
  {
    assert jobs[|jobs| - 1 := job][..|jobs| - 1] == jobs[..|jobs| - 1];
  }

  lemma {:induction false} JobMoves(s: State)
    requires Healthy(s) && Flow(s) && s.phase == Walking && s.jobs != []
    ensures var j := |s.jobs| - 1;
      Nearer(s, if s.jobs[j].todo != [] then NextChunk(j) else FileDone(j))
  {
    var job := s.jobs[|s.jobs| - 1];
    LastJob(s.jobs, if job.todo == [] then job else Job(job.node, job.todo[1..], job.done + [job.todo[0]]));
  }

  lemma {:induction false} TreeMoves(s: State)
    requires Healthy(s) && Flow(s) && s.phase == Walking && s.jobs == []
    ensures Nearer(s, if s.ready != [] then AddNode(0) else if s.stack != [] then CloseDir else EndWalk)
  {
  }

  lemma {:induction false} EndMoves(s: State, parent: ParentResult<BlobId>)
    requires Healthy(s) && Flow(s) && s.phase != Walking
    requires Advance(s.data, Data).None? && Advance(s.tree, Tree).None?
    ensures Nearer(s, Walk(s, parent))
  {
    if s.phase == ClosingTree && s.root == None { RootMoves(s, parent); }
  }

  lemma {:induction false} RootMoves(s: State, parent: ParentResult<BlobId>)
    requires Healthy(s) && Flow(s) && s.phase == ClosingTree && s.root == None
    ensures Nearer(s, CloseRoot(parent))
  {
    var t := Apply(s, CloseRoot(parent));
    assert t.tree.closed && |t.tree.sent| <= |s.tree.sent| + 1;
    assert PackerWork(t.tree) <= PackerWork(s.tree) + 5;
  }

  lemma {:induction false} WalkMoves(s: State, parent: ParentResult<BlobId>)
    requires Healthy(s) && Flow(s) && Advance(s.data, Data).None? && Advance(s.tree, Tree).None?
    ensures Nearer(s, Walk(s, parent))
  {
    if s.phase != Walking { EndMoves(s, parent); }
    else if s.jobs != [] { JobMoves(s); }
    else { TreeMoves(s); }
  }

  /** The stages never block each other: in every state without a failure some step is possible that
      brings the backup nearer to its end. */
  lemma {:induction false} MoveWorks(s: State, parent: ParentResult<BlobId>)
    requires Healthy(s) && Flow(s)
    ensures Nearer(s, Move(s, parent)) && Flow(Apply(s, Move(s, parent)))
  {
    if Advance(s.data, Data).Some? { PackerMoves(s, Data); }
    else if Advance(s.tree, Tree).Some? { PackerMoves(s, Tree); }
    else { WalkMoves(s, parent); }
    FlowStep(s, Move(s, parent));
  }

  /** The backup has ended with its root tree as a snapshot. */
  predicate Published(s: State) { s.root.Some? && s.root.value in s.snapshots }

  lemma {:induction false} RunsToEnd(s0: State, s: State, parent: ParentResult<BlobId>) returns (t: State)
    requires Reaches(s0, s) && Healthy(s) && Flow(s)
    ensures Reaches(s0, t) && Published(t)
    decreases Work(s)
  {
    var a := Move(s, parent);
    MoveWorks(s, parent);
    Then(s0, s, a);
    if a == SaveSnapshot(false) {
      t := Apply(s, a);
      assert Late(s.phase);
    } else {
      t := RunsToEnd(s0, Apply(s, a), parent);
    }
  }

  /** From every reachable state without a failure, whatever is in the queues, some run drains the
      pipeline and publishes the snapshot. */
  lemma {:induction false} CanPublish(startData: set<BlobId>, startTrees: set<BlobId>, s: State,
                                      parent: ParentResult<BlobId>)
    requires Reaches(Init(startData, startTrees), s) && Healthy(s)
    ensures exists t :: Reaches(Init(startData, startTrees), t) && Published(t)
  {
    FlowReached(startData, startTrees, s);
    var t := RunsToEnd(Init(startData, startTrees), s, parent);
  }

  // ---------------------------------------------------------------- losing a blob

  ghost predicate NodeMentions(n: Node, k: Kind, id: BlobId)
    decreases n, 1
  {
    || (k.Data? && n.content.Some? && id in n.content.value)
    || (k.Tree? && n.subtree == Some(id))
    || (n.subtree.Some? && TreeMentions(n.subtree.value, k, id))
  }

  ghost predicate TreeMentions(tree: BlobId, k: Kind, id: BlobId)
    decreases tree, 0
  {
    tree.TreeBlob? && exists n :: n in tree.nodes && NodeMentions(n, k, id)
  }

  /** The tree under construction, or the finished root, refers to the blob. */
  ghost predicate Mentioned(s: State, k: Kind, id: BlobId)
  {
    if s.root == None then exists n :: n in s.nodes && NodeMentions(n, k, id)
    else (k.Tree? && s.root.value == id) || TreeMentions(s.root.value, k, id)
  }

  /** The blob is in no pack, and if it is on its way the indexer takes it for known. */
  ghost predicate Lost(s: State, k: Kind, id: BlobId)
  {
    && id !in s.Start(k) && !InPacks(s.file + s.saved, k, id) && Unpacked(s.P(k), id)
    && (id in s.indexed || (id !in s.P(k).sent && id !in s.P(k).checked))
  }

  ghost predicate Unpacked(p: Packer, id: BlobId)
  {
    && id !in p.current
    && (forall u :: u in p.unwritten ==> id !in u) && (forall u :: u in p.unindexed ==> id !in u)
  }

  /** Nothing that the run still does brings the blob back. */
  ghost predicate Doomed(s: State, k: Kind, id: BlobId)
  {
    Lost(s, k, id) && Mentioned(s, k, id) && (k.Data? ==> id in s.indexed)
  }

  ghost function Height(tree: BlobId): nat
    decreases tree, 2
  {
    if tree.TreeBlob? then 1 + NodesHeight(tree.nodes) else 0
  }

  ghost function NodesHeight(nodes: seq<Node>): nat
    decreases nodes, 1
  {
    if nodes == [] then 0
    else
      var a, b := if nodes[0].subtree.Some? then Height(nodes[0].subtree.value) else 0, NodesHeight(nodes[1..]);
      if a <= b then b else a
  }

  lemma {:induction false} HeightOfNode(nodes: seq<Node>, n: Node)
    requires n in nodes && n.subtree.Some?
    ensures Height(n.subtree.value) <= NodesHeight(nodes)
    decreases |nodes|
  {
    if n != nodes[0] { HeightOfNode(nodes[1..], n); }
  }

  /** A tree is lower than the trees that refer to it, so none refers to itself. */
  lemma {:induction false} MentionedIsLower(tree: BlobId, id: BlobId)
    requires TreeMentions(tree, Tree, id)
    ensures Height(id) < Height(tree)
    decreases tree
  {
    var n :| n in tree.nodes && NodeMentions(n, Tree, id);
    HeightOfNode(tree.nodes, n);
    if n.subtree != Some(id) { MentionedIsLower(n.subtree.value, id); }
  }

  lemma {:induction false} RestorableHas(s: State, tree: BlobId, k: Kind, id: BlobId)
    requires Restorable(s, tree) && TreeMentions(tree, k, id)
    ensures Stored(s, k, id)
    decreases tree
  {
    var n :| n in tree.nodes && NodeMentions(n, k, id);
    assert RestorableNode(s, n);
    if n.subtree.Some? && TreeMentions(n.subtree.value, k, id) { RestorableHas(s, n.subtree.value, k, id); }
  }

  lemma {:induction false} LostIsNotStored(s: State, k: Kind, id: BlobId)
    requires Lost(s, k, id)
    ensures !Stored(s, k, id)
  {
    forall p | p in s.saved && p.kind == k ensures id !in p.ids { assert p in s.file + s.saved; }
  }

  /** A packing step of any packer loses no pack and packs nothing that is lost. */
  lemma {:induction false} PackingLoses(p: Packer, indexed: set<BlobId>, a: Action, id: BlobId)
    requires IsPacking(a) && PackingEnabled(p, a) && Unpacked(p, id)
    requires id in indexed || (id !in p.sent && id !in p.checked)
    ensures var q := PackingStep(p, indexed, a);
      Unpacked(q, id) && (id in indexed || (id !in q.sent && id !in q.checked))
  {
  }

  lemma {:induction false} PackingDooms(s: State, a: Action, k: Kind, id: BlobId)
    requires Enabled(s, a) && IsPacking(a) && Doomed(s, k, id)
    ensures Doomed(Apply(s, a), k, id)
  {
    PackingFrame(s, a);
    if a.k == k { PackingLoses(s.P(k), s.indexed, a, id); }
    ReplacedDooms(s, a.k, PackingStep(s.P(a.k), s.indexed, a), k, id);
  }

  lemma {:induction false} ReplacedDooms(s: State, j: Kind, q: Packer, k: Kind, id: BlobId)
    requires Doomed(s, k, id)
    requires j == k ==> Unpacked(q, id) && (id in s.indexed || (id !in q.sent && id !in q.checked))
    ensures Doomed(s.With(j, q), k, id)
  {
  }

  lemma {:induction false} WritingDooms(s: State, a: Action, k: Kind, id: BlobId)
    requires Enabled(s, a) && (a.WritePack? || a.IndexPack?) && Doomed(s, k, id)
    ensures Doomed(Apply(s, a), k, id)
  {
    var t, p := Apply(s, a), s.P(a.k);
    if a.IndexPack? {
      assert t.file + t.saved == s.file + s.saved + {Pack(a.k, p.unindexed[0])};
      MorePacks(s.file + s.saved, Pack(a.k, p.unindexed[0]), k, id);
      assert p.unindexed[0] in p.unindexed;
    } else {
      assert p.unwritten[0] in p.unwritten;
    }
  }

  /** Sending any other blob, or one that the indexer knows, does not help. */
  lemma {:induction false} SendingLoses(s: State, k: Kind, id: BlobId, j: Kind, other: BlobId, t: State)
    requires Lost(s, k, id) && (j == k && other == id ==> id in s.indexed)
    requires t.P(j) == s.P(j).(sent := s.P(j).sent + [other]) && (k != j ==> t.P(k) == s.P(k))
    requires t.file == s.file && t.saved == s.saved && t.indexed == s.indexed
    requires t.startData == s.startData && t.startTrees == s.startTrees
    ensures Lost(t, k, id)
  {
  }

  lemma {:induction false} SameLost(s: State, k: Kind, id: BlobId, t: State)
    requires Lost(s, k, id) && t.file + t.saved == s.file + s.saved && t.indexed == s.indexed
    requires t.startData == s.startData && t.startTrees == s.startTrees
    requires Unpacked(t.P(k), id) && t.P(k).sent == s.P(k).sent && t.P(k).checked == s.P(k).checked
    ensures Lost(t, k, id)
  {
  }

  lemma {:induction false} ChunkDooms(s: State, j: nat, k: Kind, id: BlobId)
    requires Enabled(s, NextChunk(j)) && Doomed(s, k, id)
    ensures Doomed(Apply(s, NextChunk(j)), k, id)
  {
    var t, chunk := Apply(s, NextChunk(j)), s.jobs[j].todo[0];
    if chunk in s.startData { SameLost(s, k, id, t); } else { SendingLoses(s, k, id, Data, chunk, t); }
  }

  /** The tree that is finished refers to the blob, so it is another one. */
  lemma {:induction false} StoreDooms(s: State, parent: ParentResult<BlobId>, k: Kind, id: BlobId)
    requires Lost(s, k, id) && (k.Tree? && id == TreeBlob(s.nodes) ==> parent == Matched(id) || id in s.indexed)
    ensures Lost(Store(s, TreeBlob(s.nodes), parent), k, id)
  {
    var t := Store(s, TreeBlob(s.nodes), parent);
    if MustStore(s, TreeBlob(s.nodes), parent) { SendingLoses(s, k, id, Tree, TreeBlob(s.nodes), t); }
  }

  lemma {:induction false} NotItself(s: State, k: Kind, id: BlobId)
    requires s.root == None && Mentioned(s, k, id) && k.Tree?
    ensures id != TreeBlob(s.nodes)
  {
    assert TreeMentions(TreeBlob(s.nodes), k, id);
    MentionedIsLower(TreeBlob(s.nodes), id);
  }

  lemma {:induction false} CloseDirDooms(s: State, k: Kind, id: BlobId)
    requires Enabled(s, CloseDir) && s.root == None && Lost(s, k, id) && (k.Data? ==> id in s.indexed)
    requires Mentioned(s, k, id) || (k.Tree? && id == TreeBlob(s.nodes) &&
               (id in s.indexed || s.stack[|s.stack| - 1].parent == Matched(id)))
    ensures Doomed(Apply(s, CloseDir), k, id)
  {
    var top, t := s.stack[|s.stack| - 1], Apply(s, CloseDir);
    if k.Tree? && Mentioned(s, k, id) { NotItself(s, k, id); }
    StoreDooms(s, top.parent, k, id);
    SameLost(Store(s, TreeBlob(s.nodes), top.parent), k, id, t);
    var n := top.node.(subtree := Some(TreeBlob(s.nodes)));
    assert n in t.nodes;
    assert NodeMentions(n, k, id) by { if Mentioned(s, k, id) { assert TreeMentions(TreeBlob(s.nodes), k, id); } }
  }

  lemma {:induction false} CloseRootDooms(s: State, parent: ParentResult<BlobId>, k: Kind, id: BlobId)
    requires Enabled(s, CloseRoot(parent)) && Lost(s, k, id) && (k.Data? ==> id in s.indexed)
    requires Mentioned(s, k, id) || (k.Tree? && id == TreeBlob(s.nodes) && (id in s.indexed || parent == Matched(id)))
    ensures Doomed(Apply(s, CloseRoot(parent)), k, id)
  {
    var t := Apply(s, CloseRoot(parent));
    if k.Tree? && Mentioned(s, k, id) { NotItself(s, k, id); }
    StoreDooms(s, parent, k, id);
    SameLost(Store(s, TreeBlob(s.nodes), parent), k, id, t);
    if Mentioned(s, k, id) { assert TreeMentions(TreeBlob(s.nodes), k, id); }
  }

  lemma {:induction false} WalkDooms(s: State, parent: ParentResult<BlobId>, k: Kind, id: BlobId)
    requires Flow(s) && Healthy(s) && Enabled(s, Walk(s, parent)) && Doomed(s, k, id)
    ensures Doomed(Apply(s, Walk(s, parent)), k, id)
  {
    var a := Walk(s, parent);
    if a.NextChunk? {
      ChunkDooms(s, a.j, k, id);
    } else if a.CloseDir? {
      CloseDirDooms(s, k, id);
    } else if a.CloseRoot? {
      CloseRootDooms(s, parent, k, id);
    } else {
      SameLost(s, k, id, Apply(s, a));
      assert forall n :: n in s.nodes ==> n in Apply(s, a).nodes;
    }
  }

  lemma {:induction false} MoveDooms(s: State, parent: ParentResult<BlobId>, k: Kind, id: BlobId)
    requires Flow(s) && Healthy(s) && Enabled(s, Move(s, parent)) && Doomed(s, k, id)
    ensures Doomed(Apply(s, Move(s, parent)), k, id)
  {
    var a := Move(s, parent);
    if IsPacking(a) { PackingDooms(s, a, k, id); }
    else if a.WritePack? || a.IndexPack? { WritingDooms(s, a, k, id); }
    else { WalkDooms(s, parent, k, id); }
  }

  lemma {:induction false} PublishedButLost(s: State, k: Kind, id: BlobId)
    requires Published(s) && Doomed(s, k, id)
    ensures !Restorable(s, s.root.value)
  {
    LostIsNotStored(s, k, id);
    if Restorable(s, s.root.value) && TreeMentions(s.root.value, k, id) { RestorableHas(s, s.root.value, k, id); }
  }

  lemma {:induction false} DoomedToEnd(s0: State, s: State, parent: ParentResult<BlobId>, k: Kind, id: BlobId)
    returns (t: State)
    requires Reaches(s0, s) && Healthy(s) && Flow(s) && Doomed(s, k, id)
    ensures Reaches(s0, t) && Published(t) && !Restorable(t, t.root.value)
    decreases Work(s)
  {
    var a := Move(s, parent);
    MoveWorks(s, parent);
    MoveDooms(s, parent, k, id);
    Then(s0, s, a);
    if a == SaveSnapshot(false) {
      t := Apply(s, a);
      assert Late(s.phase);
      PublishedButLost(t, k, id);
    } else {
      t := DoomedToEnd(s0, Apply(s, a), parent, k, id);
    }
  }

  /** Some run publishes a snapshot that is not complete. */
  ghost predicate Unsafe(s0: State)
  {
    exists t :: Reaches(s0, t) && Published(t) && !Restorable(t, t.root.value)
  }

  // ---------------------------------------------------------------- the conditions are needed

  /** A tree that is missed for its parent, or that the indexer knows as something else, stays away from
      the backend: from every reachable state without a failure in which a step finishes such a tree,
      some run publishes an incomplete snapshot. */
  lemma {:induction false} MissingTreeLoses(startData: set<BlobId>, startTrees: set<BlobId>, s: State, a: Action,
                                            parent: ParentResult<BlobId>)
    requires Reaches(Init(startData, startTrees), s) && Healthy(s) && Enabled(s, a) && Closes(s, a, parent)
    requires var id := TreeBlob(s.nodes); Lost(s, Tree, id) && (parent == Matched(id) || id in s.indexed)
    ensures Unsafe(Init(startData, startTrees))
  {
    var s0, id := Init(startData, startTrees), TreeBlob(s.nodes);
    FlowReached(startData, startTrees, s);
    if a.CloseDir? { CloseDirDooms(s, Tree, id); } else { CloseRootDooms(s, parent, Tree, id); }
    Then(s0, s, a);
    FlowStep(s, a);
    var t := DoomedToEnd(s0, Apply(s, a), NotFound, Tree, id);
  }

  /** In particular every tree that is missed in the sense of publish safety. */
  lemma {:induction false} MissedTreeLoses(startData: set<BlobId>, startTrees: set<BlobId>, s: State, a: Action)
    requires Reaches(Init(startData, startTrees), s) && Healthy(s) && Enabled(s, a) && MissesTree(s, a)
    ensures Unsafe(Init(startData, startTrees))
  {
    var id := TreeBlob(s.nodes);
    assert Lost(s, Tree, id);
    MissingTreeLoses(startData, startTrees, s, a, Matched(id));
  }

  /** A file of one chunk is read and its node added. */
  lemma {:induction false} FileIsAdded(s0: State, s: State, f: Node, e: BlobId) returns (t: State)
    requires Reaches(s0, s) && s.phase == Walking && Flow(s) && Healthy(s) && f.subtree == None && e !in s.startData
    ensures Reaches(s0, t) && t == s.(data := t.data, nodes := t.nodes)
    ensures t.data == s.data.(sent := s.data.sent + [e]) && t.nodes == s.nodes + [f.(content := Some([e]))]
  {
    var f', j := f.(content := Some([e])), |s.jobs|;
    var s1 := s.(jobs := s.jobs + [Job(f, [e], [])]);
    Then(s0, s, StartFile(f, [e]));
    var s2 := s.(jobs := s.jobs + [Job(f, [], [e])], data := s.data.(sent := s.data.sent + [e]));
    assert [e][1..] == [] && [] + [e] == [e];
    assert s1.jobs[j := Job(f, [], [e])] == s2.jobs;
    Then(s0, s1, NextChunk(j));
    var s3 := s2.(jobs := s.jobs, ready := s.ready + [f']);
    assert Remove(s2.jobs, j) == s.jobs;
    Then(s0, s2, FileDone(j));
    assert Remove(s3.ready, |s.ready|) == s.ready;
    Then(s0, s3, AddNode(|s.ready|));
    t := Apply(s3, AddNode(|s.ready|));
  }

  /** A chunk whose id the indexer knows as that of a tree is never packed: from every reachable state
      of the walk without a failure some run publishes an incomplete snapshot. */
  lemma {:induction false} CollisionLosesData(startData: set<BlobId>, startTrees: set<BlobId>, s: State, f: Node,
                                              e: BlobId)
    requires Reaches(Init(startData, startTrees), s) && Healthy(s) && s.phase == Walking && f.subtree == None
    requires e in s.indexed && Lost(s, Data, e)
    ensures Unsafe(Init(startData, startTrees))
  {
    var s0 := Init(startData, startTrees);
    FlowReached(startData, startTrees, s);
    var t := FileIsAdded(s0, s, f, e);
    SendingLoses(s, Data, e, Data, e, t);
    var f' := f.(content := Some([e]));
    assert f' in t.nodes && NodeMentions(f', Data, e);
    FlowReached(startData, startTrees, t);
    var u := DoomedToEnd(s0, t, NotFound, Data, e);
  }

  // ---------------------------------------------------------------- both happen

  const EMPTY_TREE: BlobId := TreeBlob([])

  /** From the start a directory is opened whose parent is matched, but is not in the index. */
  lemma {:induction false} MissedTreeHappens(d: Node)
    requires d.content == None
    ensures Unsafe(Init({}, {}))
  {
    var s0 := Init({}, {});
    ReachesSelf(s0);
    Then(s0, s0, OpenDir(d, Matched(EMPTY_TREE)));
    MissedTreeLoses({}, {}, Apply(s0, OpenDir(d, Matched(EMPTY_TREE))), CloseDir);
  }

  /** From the start an empty directory is archived, and its tree sent. */
  lemma {:induction false} EmptyDirIsSent(d: Node) returns (s: State)
    requires d.content == None
    ensures Reaches(Init({}, {}), s)
    ensures s == Init({}, {}).(nodes := [d.(subtree := Some(EMPTY_TREE))], tree := NewPacker().(sent := [EMPTY_TREE]))
  {
    var s0 := Init({}, {});
    ReachesSelf(s0);
    Then(s0, s0, OpenDir(d, NotFound));
    var s1 := s0.(stack := [Open(d, NotFound, [])]);
    Then(s0, s1, CloseDir);
    s := s0.(nodes := [d.(subtree := Some(EMPTY_TREE))], tree := NewPacker().(sent := [EMPTY_TREE]));
  }

  /** A tree that is alone in its packer is packed. */
  lemma {:induction false} TreeIsPacked(s0: State, s: State, e: BlobId) returns (t: State)
    requires Reaches(s0, s) && s.tree == NewPacker().(sent := [e]) && e !in s.indexed
    ensures Reaches(s0, t) && t == s.(tree := NewPacker().(unwritten := [[e]]))
  {
    var p, q := NewPacker().(checked := [e]), NewPacker().(unwritten := [[e]]);
    assert [e][1..] == [] && [] + [e] == [e];
    assert PackingStep(s.tree, s.indexed, EarlyCheck(Tree)) == p;
    assert PackingStep(p, s.indexed, LateCheck(Tree, true)) == q;
    PackingFrame(s, EarlyCheck(Tree));
    Then(s0, s, EarlyCheck(Tree));
    var s1 := s.With(Tree, p);
    PackingFrame(s1, LateCheck(Tree, true));
    Then(s0, s1, LateCheck(Tree, true));
    t := s1.With(Tree, q);
  }

  /** ... and written. */
  lemma {:induction false} TreeIsWritten(s0: State, s: State, e: BlobId) returns (t: State)
    requires Reaches(s0, s) && s.tree == NewPacker().(sent := [e]) && e !in s.indexed
    ensures Reaches(s0, t)
    ensures t == s.(tree := NewPacker().(unindexed := [[e]]), packs := s.packs + {Pack(Tree, [e])})
  {
    var u := TreeIsPacked(s0, s, e);
    Then(s0, u, WritePack(Tree));
    assert [[e]][1..] == [] && [] + [[e]] == [[e]];
    t := s.(tree := NewPacker().(unindexed := [[e]]), packs := s.packs + {Pack(Tree, [e])});
    assert Apply(u, WritePack(Tree)) == t;
  }

  /** The tree is indexed, and a file whose only chunk is the serialization of the empty tree follows. */
  lemma {:induction false} CollisionHappens(d: Node, f: Node)
    requires d.content == None && f.subtree == None
    ensures Unsafe(Init({}, {}))
  {
    var sent := EmptyDirIsSent(d);
    var s := TreeIsWritten(Init({}, {}), sent, EMPTY_TREE);
    Then(Init({}, {}), s, IndexPack(Tree, false));
    CollisionLosesData({}, {}, Apply(s, IndexPack(Tree, false)), f, EMPTY_TREE);
  }
}
