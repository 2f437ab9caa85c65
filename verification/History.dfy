/** What a run of the pipeline makes of its input, told from the steps of the run alone: which content a
    file gets, which tree the nodes form, which snapshot is saved, and which blobs are packed. */
module History {
  import opened Repo
  import opened Publish
  import TreeBuild
  import opened Progress

  /** The run starts at the beginning of a backup. */
  ghost predicate BackupRun(trace: seq<State>, acts: seq<Action>)
  {
    Run(trace, acts) && trace[0] == Init(trace[0].startData, trace[0].startTrees)
  }

  // ---------------------------------------------------------------- the content of files

  /** The steps that began the files that are still being read after n steps, oldest first. */
  function Begun(acts: seq<Action>, n: nat): (r: seq<nat>)
    requires n <= |acts|
    ensures forall k :: 0 <= k < |r| ==> r[k] < n && acts[r[k]].StartFile?
  {
    if n == 0 then []
    else
      var before, a := Begun(acts, n - 1), acts[n - 1];
      if a.StartFile? then before + [n - 1]
      else if (a.DropFile? || a.FileDone?) && a.j < |before| then before[..a.j] + before[a.j + 1..]
      else before
  }

  /** Every open file is the one its step began: what is handled and what is to come are the chunks of the
      file, in order. */
  ghost predicate JobsTold(jobs: seq<Job>, acts: seq<Action>, n: nat)
    requires n <= |acts|
  {
    && |jobs| == |Begun(acts, n)|
    && forall j :: 0 <= j < |jobs| ==>
         acts[Begun(acts, n)[j]] == StartFile(jobs[j].node, jobs[j].done + jobs[j].todo)
  }

  /** What a step may do to the open files. */
  ghost predicate JobsFollow(jobs: seq<Job>, a: Action, t: seq<Job>)
  {
    match a
    case StartFile(node, chunks) => t == jobs + [Job(node, chunks, [])]
    case NextChunk(j) =>
      && j < |jobs| == |t| && t[j].node == jobs[j].node && t[j].done + t[j].todo == jobs[j].done + jobs[j].todo
      && forall k :: 0 <= k < |t| && k != j ==> t[k] == jobs[k]
    case DropFile(j) => j < |jobs| && t == jobs[..j] + jobs[j + 1..]
    case FileDone(j) => j < |jobs| && t == jobs[..j] + jobs[j + 1..]
    case _ => t == jobs
  }

  lemma {:induction false} JobsMove(s: State, a: Action)
    requires Enabled(s, a)
    ensures JobsFollow(s.jobs, a, Apply(s, a).jobs)
  {
    if a.NextChunk? {
      var job := s.jobs[a.j];
      assert job.done + job.todo == job.done + [job.todo[0]] + job.todo[1..];
    } else if IsPacking(a) {
      PackingFrame(s, a);
    }
  }

  lemma {:induction false} JobsStep(jobs: seq<Job>, acts: seq<Action>, n: nat, t: seq<Job>)
    requires n < |acts| && JobsTold(jobs, acts, n) && JobsFollow(jobs, acts[n], t)
    ensures JobsTold(t, acts, n + 1)
  {
    if acts[n].StartFile? { assert [] + acts[n].chunks == acts[n].chunks; }
  }

  /** In every reachable state the chunks handled and the chunks to come of every open file are, in order,
      the chunks of the file that the worker began. */
  lemma {:induction false} FilesAreWhole(trace: seq<State>, acts: seq<Action>, n: nat)
    requires BackupRun(trace, acts) && n < |trace|
    ensures JobsTold(trace[n].jobs, acts, n)
  {
    if n > 0 {
      FilesAreWhole(trace, acts, n - 1);
      JobsMove(trace[n - 1], acts[n - 1]);
      JobsStep(trace[n - 1].jobs, acts, n - 1, trace[n].jobs);
    }
  }

  /** The nodes that step n hands to the tree archiver. */
  function Handed(acts: seq<Action>, n: nat): seq<Node>
    requires n < |acts|
  {
    match acts[n]
    case FileDone(j) =>
      var begun := Begun(acts, n);
      if j < |begun| then [acts[begun[j]].node.(content := Some(acts[begun[j]].chunks))] else []
    case KeepFile(node) => [node]
    case PlainNode(node) => [node]
    case _ => []
  }

  /** A file that is done goes to the tree archiver with exactly its chunks, in order, as content. */
  lemma {:induction false} ContentInOrder(trace: seq<State>, acts: seq<Action>, n: nat, j: nat)
    requires BackupRun(trace, acts) && n < |acts| && acts[n] == FileDone(j)
    ensures j < |Begun(acts, n)|
    ensures var start := acts[Begun(acts, n)[j]];
      trace[n + 1].ready == trace[n].ready + [start.node.(content := Some(start.chunks))]
  {
    FilesAreWhole(trace, acts, n);
    var job := trace[n].jobs[j];
    assert job.done + job.todo == job.done;
    assert trace[n + 1] == Apply(trace[n], acts[n]);
  }

  // ---------------------------------------------------------------- the tree

  /** What step n is for the tree archiver. */
  function EventOf(trace: seq<State>, acts: seq<Action>, n: nat): seq<TreeBuild.Event>
    requires n < |acts| && n < |trace|
  {
    match acts[n]
    case AddNode(i) => if i < |trace[n].ready| then [TreeBuild.Other([], trace[n].ready[i])] else []
    case OpenDir(node, _) => [TreeBuild.NewTree([], node)]
    case CloseDir => [TreeBuild.EndTree]
    case _ => []
  }

  function EventsUpTo(trace: seq<State>, acts: seq<Action>, n: nat): seq<TreeBuild.Event>
    requires n <= |acts| && n <= |trace|
  {
    if n == 0 then [] else EventsUpTo(trace, acts, n - 1) + EventOf(trace, acts, n - 1)
  }

  /** All nodes handed to the tree archiver. */
  function AllHanded(acts: seq<Action>, n: nat): seq<Node>
    requires n <= |acts|
  {
    if n == 0 then [] else AllHanded(acts, n - 1) + Handed(acts, n - 1)
  }

  /** The nodes among the events that are no directories to open. */
  function Added(es: seq<TreeBuild.Event>): seq<Node>
  {
    if es == [] then []
    else Added(es[..|es| - 1]) + if es[|es| - 1].Other? then [es[|es| - 1].node] else []
  }

  lemma {:induction false} AddedMore(es: seq<TreeBuild.Event>, e: TreeBuild.Event)
    ensures Added(es + [e]) == Added(es) + if e.Other? then [e.node] else []
  {
    assert (es + [e])[..|es|] == es;
  }

  /** Every node that was handed over is with the archiver or on its way, once. */
  ghost predicate NodesTold(trace: seq<State>, acts: seq<Action>, n: nat)
    requires n <= |acts| && n < |trace|
  {
    multiset(AllHanded(acts, n)) == multiset(Added(EventsUpTo(trace, acts, n))) + multiset(trace[n].ready)
  }

  lemma {:induction false} ReadyStays(s: State, a: Action)
    requires Enabled(s, a) && !a.FileDone? && !a.KeepFile? && !a.PlainNode? && !a.AddNode?
    ensures Apply(s, a).ready == s.ready
  {
    if IsPacking(a) { PackingFrame(s, a); }
  }

  lemma {:induction false} HandedIsReady(trace: seq<State>, acts: seq<Action>, n: nat)
    requires BackupRun(trace, acts) && n < |acts| && !acts[n].AddNode?
    ensures trace[n + 1].ready == trace[n].ready + Handed(acts, n)
  {
    assert trace[n + 1] == Apply(trace[n], acts[n]);
    if acts[n].FileDone? { ContentInOrder(trace, acts, n, acts[n].j); }
    else if !acts[n].KeepFile? && !acts[n].PlainNode? { ReadyStays(trace[n], acts[n]); }
  }

  /** Both sides of the account after one more step. */
  lemma {:induction false} Account(handed: seq<Node>, more: seq<Node>, added: seq<Node>, next: seq<Node>,
                                   ready: seq<Node>, ready': seq<Node>)
    requires multiset(handed) == multiset(added) + multiset(ready)
    requires multiset(ready) + multiset(more) == multiset(next) + multiset(ready')
    ensures multiset(handed + more) == multiset(added + next) + multiset(ready')
  {
    var a, r, r' := multiset(added), multiset(ready), multiset(ready');
    assert multiset(handed + more) == a + r + multiset(more) == a + (r + multiset(more));
    assert multiset(added + next) + r' == a + (multiset(next) + r');
  }

  lemma {:induction false} NodeTaken(ready: seq<Node>, i: nat)
    requires i < |ready|
    ensures multiset(ready) == multiset([ready[i]]) + multiset(Remove(ready, i))
  {
    assert ready == ready[..i] + [ready[i]] + ready[i + 1..];
  }

  lemma {:induction false} NodesStep(trace: seq<State>, acts: seq<Action>, n: nat)
    requires BackupRun(trace, acts) && n < |acts| && NodesTold(trace, acts, n)
    ensures NodesTold(trace, acts, n + 1)
  {
    var es, ready, handed := EventsUpTo(trace, acts, n), trace[n].ready, AllHanded(acts, n);
    assert trace[n + 1] == Apply(trace[n], acts[n]);
    var next := AddedBy(trace, acts, n);
    if acts[n].AddNode? {
      NodeTaken(ready, acts[n].i);
    } else {
      HandedIsReady(trace, acts, n);
    }
    Account(handed, Handed(acts, n), Added(es), next, ready, trace[n + 1].ready);
  }

  /** What a step adds to the added nodes. */
  lemma {:induction false} AddedBy(trace: seq<State>, acts: seq<Action>, n: nat) returns (next: seq<Node>)
    requires n < |acts| && n < |trace|
    ensures Added(EventsUpTo(trace, acts, n + 1)) == Added(EventsUpTo(trace, acts, n)) + next
    ensures next ==
      match acts[n] case AddNode(i) => if i < |trace[n].ready| then [trace[n].ready[i]] else [] case _ => []
  {
    var es, e := EventsUpTo(trace, acts, n), EventOf(trace, acts, n);
    if e == [] {
      assert es + [] == es;
      next := [];
    } else {
      AddedMore(es, e[0]);
      next := if e[0].Other? then [e[0].node] else [];
    }
  }

  /** In every reachable state: each file and each other node handed over is in the tree archiver or waits
      for it, none is lost and none is doubled. */
  lemma {:induction false} NodesConserved(trace: seq<State>, acts: seq<Action>, n: nat)
    requires BackupRun(trace, acts) && n < |trace|
    ensures NodesTold(trace, acts, n)
  {
    if n > 0 {
      NodesConserved(trace, acts, n - 1);
      NodesStep(trace, acts, n - 1);
    }
  }

  function Strip(stack: seq<Open<ParentResult<BlobId>>>): (r: seq<Open<()>>)
    ensures |r| == |stack|
  {
    seq(|stack|, i requires 0 <= i < |stack| => Open(stack[i].node, (), stack[i].outer))
  }

  lemma {:induction false} StripEnds(stack: seq<Open<ParentResult<BlobId>>>, o: Open<ParentResult<BlobId>>)
    ensures Strip(stack + [o]) == Strip(stack) + [Open(o.node, (), o.outer)]
    ensures stack != [] ==> Strip(stack[..|stack| - 1]) == Strip(stack)[..|stack| - 1]
  {
  }

  lemma {:induction false} AddAllMore(a: TreeBuild.Archiver, es: seq<TreeBuild.Event>, e: TreeBuild.Event)
    ensures TreeBuild.AddAll(a, es + [e]) ==
      if TreeBuild.AddAll(a, es).None? then None else TreeBuild.Add(TreeBuild.AddAll(a, es).value, e)
    decreases |es|
  {
    var all := es + [e];
    if es == [] {
      assert all[1..] == [];
    } else {
      assert all[1..] == es[1..] + [e];
      if TreeBuild.Add(a, es[0]).Some? { AddAllMore(TreeBuild.Add(a, es[0]).value, es[1..], e); }
    }
  }

  const EMPTY: TreeBuild.Archiver := TreeBuild.Archiver([], [])

  /** The tree under construction is what the events make. */
  ghost predicate TreeTold(trace: seq<State>, acts: seq<Action>, n: nat)
    requires n <= |acts| && n < |trace|
  {
    TreeBuild.AddAll(EMPTY, EventsUpTo(trace, acts, n)) ==
      Some(TreeBuild.Archiver(trace[n].nodes, Strip(trace[n].stack)))
  }

  lemma {:induction false} TreeStays(s: State, a: Action)
    requires Enabled(s, a) && !a.AddNode? && !a.OpenDir? && !a.CloseDir?
    ensures Apply(s, a).nodes == s.nodes && Apply(s, a).stack == s.stack
  {
    if IsPacking(a) { PackingFrame(s, a); }
  }

  /** One step on the tree is one event. */
  lemma {:induction false} TreeMoves(s: State, a: Action, e: TreeBuild.Event)
    requires Enabled(s, a)
    requires match a
      case AddNode(i) => e == TreeBuild.Other([], s.ready[i])
      case OpenDir(node, _) => e == TreeBuild.NewTree([], node)
      case CloseDir => e == TreeBuild.EndTree
      case _ => false
    ensures TreeBuild.Add(TreeBuild.Archiver(s.nodes, Strip(s.stack)), e) ==
              Some(TreeBuild.Archiver(Apply(s, a).nodes, Strip(Apply(s, a).stack)))
  {
    if a.OpenDir? { StripEnds(s.stack, Open(a.node, a.parent, s.nodes)); }
    else if a.CloseDir? { StripEnds(s.stack, s.stack[0]); }
  }

  lemma {:induction false} TreeStep(trace: seq<State>, acts: seq<Action>, n: nat)
    requires BackupRun(trace, acts) && n < |acts| && TreeTold(trace, acts, n)
    ensures TreeTold(trace, acts, n + 1)
  {
    var es, es' := EventsUpTo(trace, acts, n), EventOf(trace, acts, n);
    assert trace[n + 1] == Apply(trace[n], acts[n]);
    if es' == [] {
      assert es + [] == es;
      TreeStays(trace[n], acts[n]);
    } else {
      TreeMoves(trace[n], acts[n], es'[0]);
      AddAllMore(EMPTY, es, es'[0]);
    }
  }

  /** In every reachable state the finished and unfinished trees are what the plain tree archiver makes of the
      nodes added and the directories opened and closed so far. */
  lemma {:induction false} TreeIsOfEvents(trace: seq<State>, acts: seq<Action>, n: nat)
    requires BackupRun(trace, acts) && n < |trace|
    ensures TreeTold(trace, acts, n)
  {
    if n > 0 {
      TreeIsOfEvents(trace, acts, n - 1);
      TreeStep(trace, acts, n - 1);
    } else {
      assert Strip([]) == [];
    }
  }

  // ---------------------------------------------------------------- the snapshot

  /** Some step before n saves the snapshot. */
  ghost predicate Saves(acts: seq<Action>, n: nat)
  {
    exists m :: 0 <= m < n && m < |acts| && acts[m] == SaveSnapshot(false)
  }

  predicate Closing(ph: Phase) { ph == ClosingTree || Late(ph) }

  /** The root is that of the nodes, nothing is under way any more, and it is the snapshot once it is saved. */
  ghost predicate RootTold(s: State, saved: bool)
  {
    && (s.root.Some? ==> s.root.value == TreeBlob(s.nodes) && s.phase != Walking)
    && (s.phase != Walking && s.phase != Aborted ==> s.jobs == [] && s.ready == [])
    && (s.root.Some? ==> s.jobs == [] && s.ready == [])
    && (Late(s.phase) ==> s.root.Some?)
    && (saved ==> s.root.Some?)
    && s.snapshots == if saved then {s.root.value} else {}
  }

  lemma {:induction false} RootStep(s: State, a: Action, saved: bool)
    requires RootTold(s, saved) && Enabled(s, a)
    ensures RootTold(Apply(s, a), saved || a == SaveSnapshot(false))
  {
    if IsPacking(a) { PackingFrame(s, a); }
  }

  lemma {:induction false} RootIsTold(trace: seq<State>, acts: seq<Action>, n: nat)
    requires BackupRun(trace, acts) && n < |trace|
    ensures RootTold(trace[n], Saves(acts, n))
  {
    if n > 0 {
      RootIsTold(trace, acts, n - 1);
      RootStep(trace[n - 1], acts[n - 1], Saves(acts, n - 1));
      assert Saves(acts, n) <==> Saves(acts, n - 1) || acts[n - 1] == SaveSnapshot(false);
    }
  }

  /** What is published: a snapshot is there if and only if a step saved one; it is then the tree that the plain
      tree archiver makes of the events of the run, and the nodes in it are exactly those handed over. */
  lemma {:induction false} PublishedIsTree(trace: seq<State>, acts: seq<Action>, n: nat, root: BlobId)
    requires BackupRun(trace, acts) && n < |trace|
    ensures root in trace[n].snapshots <==>
      && Saves(acts, n)
      && var r := TreeBuild.AddAll(EMPTY, EventsUpTo(trace, acts, n));
         r.Some? && root == TreeBlob(r.value.nodes)
    ensures Saves(acts, n) ==>
              multiset(Added(EventsUpTo(trace, acts, n))) == multiset(AllHanded(acts, n))
  {
    RootIsTold(trace, acts, n);
    TreeIsOfEvents(trace, acts, n);
    NodesConserved(trace, acts, n);
  }

  // ---------------------------------------------------------------- what is packed

  /** Step m sends the blob to the packer of its kind. */
  ghost predicate Sends(s: State, a: Action, k: Kind, id: BlobId)
  {
    if k.Data? then SendsData(s, a, id) else SendsTree(s, a, id)
  }

  ghost predicate Sent(trace: seq<State>, acts: seq<Action>, n: nat, k: Kind, id: BlobId)
  {
    exists m :: 0 <= m < n && m < |acts| && m < |trace| && Sends(trace[m], acts[m], k, id)
  }

  /** No blob twice, and at least one. */
  predicate Once(ids: seq<BlobId>)
  {
    ids != [] && forall i, j :: 0 <= i < j < |ids| ==> ids[i] != ids[j]
  }

  ghost predicate PacksOnce(p: Packer)
  {
    (p.current != [] ==> Once(p.current)) && (forall u :: u in p.unwritten + p.unindexed ==> Once(u))
  }

  /** Where a step gets the blobs in a packer, and the packs, from. */
  ghost predicate Flows(s: State, a: Action, t: State)
  {
    && (forall k, id :: InPacker(t.P(k), id) ==> InPacker(s.P(k), id) || Sends(s, a, k, id))
    && (forall p :: p in t.packs ==> p in s.packs || p.ids in s.P(p.kind).unwritten)
    && (PacksOnce(s.data) && PacksOnce(s.tree) ==> PacksOnce(t.data) && PacksOnce(t.tree))
  }

  lemma {:induction false} AddRawOnce(current: seq<BlobId>, id: BlobId)
    requires current != [] ==> Once(current)
    ensures Once(AddRaw(current, id))
  {
  }

  lemma {:induction false} PackingOnce(p: Packer, indexed: set<BlobId>, a: Action)
    requires IsPacking(a) && PackingEnabled(p, a) && PacksOnce(p)
    ensures PacksOnce(PackingStep(p, indexed, a))
  {
    if a.LateCheck? { AddRawOnce(p.current, p.checked[0]); }
    var q := PackingStep(p, indexed, a);
    assert forall u :: u in q.unwritten ==> u in p.unwritten || u == q.unwritten[|q.unwritten| - 1];
  }

  lemma {:induction false} PackingFlows(s: State, a: Action)
    requires Enabled(s, a) && IsPacking(a)
    ensures Flows(s, a, Apply(s, a))
  {
    PackingFrame(s, a);
    var q := PackingStep(s.P(a.k), s.indexed, a);
    if PacksOnce(s.P(a.k)) { PackingOnce(s.P(a.k), s.indexed, a); }
    forall id | InPacker(q, id) ensures InPacker(s.P(a.k), id) { PackingMoves(s.P(a.k), s.indexed, a, id); }
  }

  lemma {:induction false} WritingFlows(s: State, a: Action)
    requires Enabled(s, a) && (a.WritePack? || a.IndexPack?)
    ensures Flows(s, a, Apply(s, a))
  {
    var t, p := Apply(s, a), s.P(a.k);
    forall id | InPacker(t.P(a.k), id) ensures InPacker(p, id) { WriterMoves(p, id); }
    if a.WritePack? { assert p.unwritten[0] in p.unwritten; }
    assert forall u :: u in t.P(a.k).unwritten + t.P(a.k).unindexed ==> u in p.unwritten + p.unindexed;
  }

  lemma {:induction false} ChunkFlows(s: State, a: Action)
    requires Enabled(s, a) && a.NextChunk?
    ensures Flows(s, a, Apply(s, a))
  {
    var t, id := Apply(s, a), s.jobs[a.j].todo[0];
    assert id !in s.startData ==> SendsData(s, a, id);
    forall x | InPacker(t.data, x) ensures InPacker(s.data, x) || SendsData(s, a, x) {}
  }

  lemma {:induction false} StoreFlows(s: State, a: Action, parent: ParentResult<BlobId>)
    requires Closes(s, a, parent)
    ensures var u := Store(s, TreeBlob(s.nodes), parent);
      forall x :: InPacker(u.tree, x) ==> InPacker(s.tree, x) || SendsTree(s, a, x)
  {
    var id := TreeBlob(s.nodes);
    assert MustStore(s, id, parent) ==> SendsTree(s, a, id);
  }

  lemma {:induction false} WorkFlows(s: State, a: Action)
    requires Enabled(s, a) && !IsPacking(a) && !a.WritePack? && !a.IndexPack? && !a.NextChunk?
    ensures Flows(s, a, Apply(s, a))
  {
    var t := Apply(s, a);
    if a.CloseDir? { StoreFlows(s, a, s.stack[|s.stack| - 1].parent); }
    if a.CloseRoot? { StoreFlows(s, a, a.parent); }
  }

  lemma {:induction false} StepFlows(s: State, a: Action)
    requires Enabled(s, a)
    ensures Flows(s, a, Apply(s, a))
  {
    if IsPacking(a) { PackingFlows(s, a); }
    else if a.WritePack? || a.IndexPack? { WritingFlows(s, a); }
    else if a.NextChunk? { ChunkFlows(s, a); }
    else { WorkFlows(s, a); }
  }

  /** Every blob in a packer and in a pack was sent, and packs hold no blob twice. */
  ghost predicate PacksTold(trace: seq<State>, acts: seq<Action>, n: nat)
    requires n < |trace|
  {
    && (forall k, id :: InPacker(trace[n].P(k), id) ==> Sent(trace, acts, n, k, id))
    && (forall p, id :: p in trace[n].packs && id in p.ids ==> Sent(trace, acts, n, p.kind, id))
    && PacksOnce(trace[n].data) && PacksOnce(trace[n].tree)
    && (forall p :: p in trace[n].packs ==> Once(p.ids))
  }

  lemma {:induction false} PacksStep(trace: seq<State>, acts: seq<Action>, n: nat)
    requires BackupRun(trace, acts) && n < |acts| && PacksTold(trace, acts, n)
    ensures PacksTold(trace, acts, n + 1)
  {
    StepFlows(trace[n], acts[n]);
    assert trace[n + 1] == Apply(trace[n], acts[n]);
    forall k, id | Sent(trace, acts, n, k, id) || Sends(trace[n], acts[n], k, id)
      ensures Sent(trace, acts, n + 1, k, id) {}
    forall p | p in trace[n + 1].packs && p !in trace[n].packs
      ensures Once(p.ids) && forall id :: id in p.ids ==> InPacker(trace[n].P(p.kind), id) {
      assert p.ids in trace[n].P(p.kind).unwritten + trace[n].P(p.kind).unindexed;
    }
  }

  lemma {:induction false} PacksAreTold(trace: seq<State>, acts: seq<Action>, n: nat)
    requires BackupRun(trace, acts) && n < |trace|
    ensures PacksTold(trace, acts, n)
  {
    if n > 0 {
      PacksAreTold(trace, acts, n - 1);
      PacksStep(trace, acts, n - 1);
    }
  }

  /** The starting index is never touched. */
  lemma {:induction false} StartStays(trace: seq<State>, acts: seq<Action>, n: nat)
    requires Run(trace, acts) && n < |trace|
    ensures trace[n].startData == trace[0].startData && trace[n].startTrees == trace[0].startTrees
  {
    if n > 0 {
      StartStays(trace, acts, n - 1);
      if IsPacking(acts[n - 1]) { PackingFrame(trace[n - 1], acts[n - 1]); }
    }
  }

  /** The blob is a chunk of a file that was begun, or the tree of nodes that was finished. */
  ghost predicate Made(trace: seq<State>, acts: seq<Action>, n: nat, k: Kind, id: BlobId)
  {
    if k.Data? then exists m :: 0 <= m < n && m < |acts| && acts[m].StartFile? && id in acts[m].chunks
    else exists m :: 0 <= m < n && m < |acts| && m < |trace| && (acts[m].CloseDir? || acts[m].CloseRoot?) &&
                     id == TreeBlob(trace[m].nodes)
  }

  lemma {:induction false} SentIsMade(trace: seq<State>, acts: seq<Action>, n: nat, k: Kind, id: BlobId)
    requires BackupRun(trace, acts) && n < |trace| && Sent(trace, acts, n, k, id)
    ensures Made(trace, acts, n, k, id) && id !in trace[0].Start(k)
  {
    var m :| 0 <= m < n && m < |acts| && m < |trace| && Sends(trace[m], acts[m], k, id);
    StartStays(trace, acts, m);
    if k.Data? {
      FilesAreWhole(trace, acts, m);
      var j := acts[m].j;
      var job := trace[m].jobs[j];
      assert job.todo[0] in job.todo && id in job.done + job.todo;
      assert acts[Begun(acts, m)[j]].StartFile?;
    }
  }

  /** A backup writes only what is new: every blob in a pack, in every reachable state, is a chunk of a file that
      was read or a tree that was finished, it is not in the index of the start, and no pack holds it twice. */
  lemma {:induction false} OnlyNewIsPacked(trace: seq<State>, acts: seq<Action>, n: nat, p: Pack)
    requires BackupRun(trace, acts) && n < |trace| && p in trace[n].packs
    ensures Once(p.ids)
    ensures forall id :: id in p.ids ==> Made(trace, acts, n, p.kind, id) && id !in trace[0].Start(p.kind)
  {
    PacksAreTold(trace, acts, n);
    forall id | id in p.ids ensures Made(trace, acts, n, p.kind, id) && id !in trace[0].Start(p.kind) {
      SentIsMade(trace, acts, n, p.kind, id);
    }
  }

  /** What the indexer knows, and the packer does not hold any more, goes into no further pack. */
  ghost predicate StaysOut(s: State, t: State, k: Kind, id: BlobId)
  {
    && id in t.indexed && Unpacked(t.P(k), id)
    && forall p :: p in t.packs && p.kind == k && id in p.ids ==> p in s.packs
  }

  lemma {:induction false} OutStep(s: State, t: State, a: Action, k: Kind, id: BlobId)
    requires Enabled(t, a) && StaysOut(s, t, k, id)
    ensures StaysOut(s, Apply(t, a), k, id)
  {
    if IsPacking(a) { PackingOut(s, t, a, k, id); }
    else if a.WritePack? || a.IndexPack? { WriterOut(s, t, a, k, id); }
    else { WorkOut(s, t, a, k, id); }
  }

  lemma {:induction false} PackingOut(s: State, t: State, a: Action, k: Kind, id: BlobId)
    requires Enabled(t, a) && IsPacking(a) && StaysOut(s, t, k, id)
    ensures StaysOut(s, Apply(t, a), k, id)
  {
    PackingFrame(t, a);
    if a.k == k { PackingLoses(t.P(k), t.indexed, a, id); }
  }

  /** All other steps leave packs and index alone, and send at most. */
  lemma {:induction false} WorkOut(s: State, t: State, a: Action, k: Kind, id: BlobId)
    requires Enabled(t, a) && !IsPacking(a) && !a.WritePack? && !a.IndexPack? && StaysOut(s, t, k, id)
    ensures StaysOut(s, Apply(t, a), k, id)
  {
    var p, q := t.P(k), Apply(t, a).P(k);
    assert q.current == p.current && q.unwritten == p.unwritten && q.unindexed == p.unindexed;
  }

  lemma {:induction false} WriterOut(s: State, t: State, a: Action, k: Kind, id: BlobId)
    requires Enabled(t, a) && (a.WritePack? || a.IndexPack?) && StaysOut(s, t, k, id)
    ensures StaysOut(s, Apply(t, a), k, id)
  {
    if a.WritePack? { assert t.P(a.k).unwritten[0] in t.P(a.k).unwritten; }
  }

  /** No blob is packed again once the indexer knows it: from any state of a run on, unless the packer holds it
      then, no further pack has it. */
  lemma {:induction false} KnownIsNotRepacked(trace: seq<State>, acts: seq<Action>, i: nat, n: nat, k: Kind, id: BlobId)
    requires Run(trace, acts) && i <= n < |trace| && id in trace[i].indexed && Unpacked(trace[i].P(k), id)
    ensures StaysOut(trace[i], trace[n], k, id)
  {
    if i < n {
      KnownIsNotRepacked(trace, acts, i, n - 1, k, id);
      OutStep(trace[i], trace[n - 1], acts[n - 1], k, id);
    }
  }
}
