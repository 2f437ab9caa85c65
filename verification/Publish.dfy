/** The backup pipeline as a step system: file workers, the tree archiver, one packer thread and one
    file writer per blob type, the shared indexer, and the backend. Steps of different stages
    interleave freely, every stage may fail, and the run may be cancelled at any point. */
module Publish {
  import opened Repo

  datatype Kind = Data | Tree

  /** A pack by the blobs it holds. */
  datatype Pack = Pack(kind: Kind, ids: seq<BlobId>)

  /** One `Packer` with its `RawPacker` and `Actor`. */
  datatype Packer = Packer(
    sent: seq<BlobId>,            // in the channel
    checked: seq<BlobId>,         // past the early check, being compressed and encrypted
    current: seq<BlobId>,         // in the open pack
    unwritten: seq<seq<BlobId>>,  // packs with the file writer
    unindexed: seq<seq<BlobId>>,  // packs written, not yet given to the indexer
    closed: bool,                 // the sender is dropped
    finished: bool,               // the status Ok was reported
    broken: bool,                 // the packer thread ended with an error
    writerBroken: bool)           // the file writer ended with an error

  /** A file that a worker is reading: chunks still to come and chunks handled. */
  datatype Job = Job(node: Node, todo: seq<BlobId>, done: seq<BlobId>)

  datatype Phase = Walking | ClosingData | ClosingTree | SavingIndex | SavingSnapshot | Done | Aborted

  datatype State = State(
    startData: set<BlobId>,       // blobs of the index loaded at the start
    startTrees: set<BlobId>,
    data: Packer,
    tree: Packer,
    indexed: set<BlobId>,         // `Indexer::indexed`, without blob types
    file: set<Pack>,              // the index file under construction
    saved: set<Pack>,             // packs in saved index files
    packs: set<Pack>,             // packs in the backend
    snapshots: set<BlobId>,       // root trees of saved snapshots
    jobs: seq<Job>,
    ready: seq<Node>,             // file nodes on their way to the tree archiver
    nodes: seq<Node>,             // `TreeArchiver::tree`
    stack: seq<Open<ParentResult<BlobId>>>,
    phase: Phase,
    root: Option<BlobId>)
  {
    function P(k: Kind): Packer { if k.Data? then data else tree }
    function With(k: Kind, p: Packer): State { if k.Data? then this.(data := p) else this.(tree := p) }
    function Start(k: Kind): set<BlobId> { if k.Data? then startData else startTrees }
  }

  function NewPacker(): Packer { Packer([], [], [], [], [], false, false, false, false) }

  function Init(startData: set<BlobId>, startTrees: set<BlobId>): State
  {
    State(startData, startTrees, NewPacker(), NewPacker(), {}, {}, {}, {}, {}, [], [], [], [], Walking, None)
  }

  datatype Action =
    // workers
    | StartFile(node: Node, chunks: seq<BlobId>)
    | NextChunk(j: nat)
    | DropFile(j: nat)                        // any error while reading or sending: the file is left out
    | FileDone(j: nat)
    | KeepFile(node: Node)                    // unchanged: content of the parent, all of it in the index
    | PlainNode(node: Node)                   // neither file nor directory
    // main thread
    | AddNode(i: nat)
    | OpenDir(node: Node, parent: ParentResult<BlobId>)
    | CloseDir
    | EndWalk
    | DataDone
    | CloseRoot(parent: ParentResult<BlobId>)
    | TreeDone
    | SaveIndex
    | SaveSnapshot(skip: bool)
    | Abort
    // packer threads
    | EarlyCheck(k: Kind)
    | LateCheck(k: Kind, save: bool)
    | LastPack(k: Kind)
    | Finish(k: Kind)
    | PackerFails(k: Kind)
    // file writers
    | WritePack(k: Kind)
    | IndexPack(k: Kind, save: bool)
    | WriterFails(k: Kind)

  /** `Packer::add` succeeds: the receiving thread is alive. */
  predicate CanSend(p: Packer) { !p.closed && !p.broken }

  /** `backup_tree` for the tree with the given nodes: is the tree to be sent to the packer? */
  predicate MustStore(s: State, id: BlobId, parent: ParentResult<BlobId>)
  {
    parent != Matched(id) && id !in s.startTrees
  }

  ghost predicate Enabled(s: State, a: Action)
  {
    match a
    case StartFile(node, chunks) => s.phase == Walking && node.subtree == None
    case NextChunk(j) =>
      && j < |s.jobs| && s.jobs[j].todo != []
      && (s.jobs[j].todo[0] in s.startData || CanSend(s.data))
    case DropFile(j) => j < |s.jobs|
    case FileDone(j) => j < |s.jobs| && s.jobs[j].todo == []
    case KeepFile(node) =>
      && s.phase == Walking && node.subtree == None
      && (node.content.Some? ==> forall id :: id in node.content.value ==> id in s.startData)
    case PlainNode(node) => s.phase == Walking && node.subtree == None && node.content == None
    case AddNode(i) => s.phase == Walking && i < |s.ready|
    case OpenDir(node, parent) => s.phase == Walking && node.content == None
    case CloseDir =>
      && s.phase == Walking && s.stack != []
      && (MustStore(s, TreeBlob(s.nodes), s.stack[|s.stack| - 1].parent) ==> CanSend(s.tree))
    case EndWalk => s.phase == Walking && s.jobs == [] && s.ready == []
    case DataDone => s.phase == ClosingData && s.data.finished
    case CloseRoot(parent) =>
      s.phase == ClosingTree && s.root == None && (MustStore(s, TreeBlob(s.nodes), parent) ==> CanSend(s.tree))
    case TreeDone => s.phase == ClosingTree && s.root.Some? && s.tree.finished
    case SaveIndex => s.phase == SavingIndex
    case SaveSnapshot(skip) => s.phase == SavingSnapshot
    case Abort => s.phase != Done
    case WritePack(k) => !s.P(k).writerBroken && s.P(k).unwritten != []
    case IndexPack(k, save) => !s.P(k).writerBroken && s.P(k).unindexed != []
    case _ => PackingEnabled(s.P(a.k), a)
  }

  /** The steps that concern one packer and its file writer only. */
  predicate IsPacking(a: Action)
  {
    a.EarlyCheck? || a.LateCheck? || a.LastPack? || a.Finish? || a.PackerFails? || a.WriterFails?
  }

  predicate PackingEnabled(p: Packer, a: Action)
    requires IsPacking(a)
  {
    match a
    case EarlyCheck(_) => !p.broken && p.sent != []
    case LateCheck(_, save) => !p.broken && p.checked != [] && (save ==> !p.writerBroken)
    case LastPack(_) => !p.broken && !p.writerBroken && p.closed && p.sent == [] && p.checked == [] && p.current != []
    case Finish(_) => !p.broken && !p.writerBroken && Drained(p)
    case _ => !p.finished
  }

  function PackingStep(p: Packer, indexed: set<BlobId>, a: Action): Packer
    requires IsPacking(a) && PackingEnabled(p, a)
  {
    match a
    case EarlyCheck(_) =>
      var id := p.sent[0];
      var drop := id in indexed || id in p.current;
      p.(sent := p.sent[1..], checked := if drop then p.checked else p.checked + [id])
    case LateCheck(_, save) =>
      var id := p.checked[0];
      var p1 := p.(checked := p.checked[1..]);
      if id in indexed then p1
      else if save then p1.(current := [], unwritten := p.unwritten + [AddRaw(p.current, id)])
      else p1.(current := AddRaw(p.current, id))
    case LastPack(_) => p.(current := [], unwritten := p.unwritten + [p.current])
    case Finish(_) => p.(finished := true)
    case PackerFails(_) => p.(broken := true)
    case WriterFails(_) => p.(writerBroken := true)
  }

  predicate Drained(p: Packer)
  {
    p.closed && p.sent == [] && p.checked == [] && p.current == [] && p.unwritten == [] && p.unindexed == []
  }

  function Remove<T>(s: seq<T>, i: nat): seq<T>
    requires i < |s|
  {
    s[..i] + s[i + 1..]
  }

  function Store(s: State, id: BlobId, parent: ParentResult<BlobId>): State
  {
    if MustStore(s, id, parent) then s.(tree := s.tree.(sent := s.tree.sent + [id])) else s
  }

  /** `BasicPacker::add_raw`: a blob that the open pack holds already is not added again. */
  function AddRaw(current: seq<BlobId>, id: BlobId): seq<BlobId>
  {
    if id in current then current else current + [id]
  }

  ghost function Apply(s: State, a: Action): State
    requires Enabled(s, a)
  {
    match a
    case StartFile(node, chunks) => s.(jobs := s.jobs + [Job(node, chunks, [])])
    case NextChunk(j) =>
      var job := s.jobs[j];
      var s' := s.(jobs := s.jobs[j := Job(job.node, job.todo[1..], job.done + [job.todo[0]])]);
      if job.todo[0] in s.startData then s' else s'.(data := s.data.(sent := s.data.sent + [job.todo[0]]))
    case DropFile(j) => s.(jobs := Remove(s.jobs, j))
    case FileDone(j) =>
      s.(jobs := Remove(s.jobs, j), ready := s.ready + [s.jobs[j].node.(content := Some(s.jobs[j].done))])
    case KeepFile(node) => s.(ready := s.ready + [node])
    case PlainNode(node) => s.(ready := s.ready + [node])
    case AddNode(i) => s.(ready := Remove(s.ready, i), nodes := s.nodes + [s.ready[i]])
    case OpenDir(node, parent) => s.(stack := s.stack + [Open(node, parent, s.nodes)], nodes := [])
    case CloseDir =>
      var top, id := s.stack[|s.stack| - 1], TreeBlob(s.nodes);
      Store(s, id, top.parent)
        .(stack := s.stack[..|s.stack| - 1], nodes := top.outer + [top.node.(subtree := Some(id))])
    case EndWalk => s.(phase := ClosingData, data := s.data.(closed := true))
    case DataDone => s.(phase := ClosingTree)
    case CloseRoot(parent) =>
      var t := Store(s, TreeBlob(s.nodes), parent);
      t.(root := Some(TreeBlob(s.nodes)), tree := t.tree.(closed := true))
    case TreeDone => s.(phase := SavingIndex)
    case SaveIndex => s.(phase := SavingSnapshot, saved := s.saved + s.file)
    case SaveSnapshot(skip) =>
      s.(phase := Done, snapshots := if skip || s.root == None then s.snapshots else s.snapshots + {s.root.value})
    case Abort => s.(phase := Aborted)
    case WritePack(k) =>
      var p := s.P(k);
      s.With(k, p.(unwritten := p.unwritten[1..], unindexed := p.unindexed + [p.unwritten[0]]))
       .(packs := s.packs + {Pack(k, p.unwritten[0])})
    case IndexPack(k, save) =>
      var p := s.P(k);
      var pack := p.unindexed[0];
      var file := s.file + {Pack(k, pack)};
      s.With(k, p.(unindexed := p.unindexed[1..]))
       .(indexed := s.indexed + (set id | id in pack),
         file := if save then {} else file,
         saved := if save then s.saved + file else s.saved)
    case _ => s.With(a.k, PackingStep(s.P(a.k), s.indexed, a))
  }

  ghost predicate Run(trace: seq<State>, acts: seq<Action>)
  {
    && |trace| == |acts| + 1
    && forall i :: 0 <= i < |acts| ==> Enabled(trace[i], acts[i]) && trace[i + 1] == Apply(trace[i], acts[i])
  }

  // ---------------------------------------------------------------- what is to be proved

  /** A saved index maps the blob to a pack that is in the backend. */
  ghost predicate Stored(s: State, k: Kind, id: BlobId)
  {
    id in s.Start(k) || exists p :: p in s.saved && p in s.packs && p.kind == k && id in p.ids
  }

  /** The tree, and everything it reaches, is stored. */
  ghost predicate Restorable(s: State, id: BlobId)
    decreases id
  {
    id.TreeBlob? && Stored(s, Tree, id) && forall n :: n in id.nodes ==> RestorableNode(s, n)
  }

  ghost predicate RestorableNode(s: State, n: Node)
    decreases n
  {
    && (n.content.Some? ==> forall id :: id in n.content.value ==> Stored(s, Data, id))
    && (n.subtree.Some? ==> Restorable(s, n.subtree.value))
  }

  // ---------------------------------------------------------------- what has to be provided

  /** The step sends the chunk to the data packer. */
  predicate SendsData(s: State, a: Action, id: BlobId)
  {
    && a.NextChunk? && a.j < |s.jobs| && s.jobs[a.j].todo != []
    && id == s.jobs[a.j].todo[0] && id !in s.startData
  }

  /** The step finishes the tree under construction, whose parent is `parent`. */
  predicate Closes(s: State, a: Action, parent: ParentResult<BlobId>)
  {
    || (a.CloseDir? && s.stack != [] && parent == s.stack[|s.stack| - 1].parent)
    || (a.CloseRoot? && parent == a.parent)
  }

  /** The step sends the tree to the tree packer. */
  ghost predicate SendsTree(s: State, a: Action, id: BlobId)
  {
    id == TreeBlob(s.nodes) && exists parent :: Closes(s, a, parent) && MustStore(s, id, parent)
  }

  /** The step takes the tree for stored because it equals its parent, though it is neither in the
      index nor on its way there. */
  ghost predicate MissesTree(s: State, a: Action)
  {
    Closes(s, a, Matched(TreeBlob(s.nodes))) && !Covered(s, Tree, TreeBlob(s.nodes))
  }

  /** Chunks that are sent have ids in `ids`, trees that are sent have not, and no tree is missed. */
  ghost predicate Fit(ids: set<BlobId>, s: State, a: Action)
  {
    && (forall id :: SendsData(s, a, id) ==> id in ids)
    && (forall id :: SendsTree(s, a, id) ==> id !in ids)
    && !MissesTree(s, a)
  }

  // ---------------------------------------------------------------- the invariant

  ghost predicate InPacker(p: Packer, id: BlobId)
  {
    || id in p.sent || id in p.checked || id in p.current
    || (exists u :: u in p.unwritten && id in u) || (exists u :: u in p.unindexed && id in u)
  }

  ghost predicate InPacks(ps: set<Pack>, k: Kind, id: BlobId)
  {
    exists p :: p in ps && p.kind == k && id in p.ids
  }

  /** The blob is stored or on its way: nothing but a failure can lose it. */
  ghost predicate Covered(s: State, k: Kind, id: BlobId)
  {
    id in s.Start(k) || InPacker(s.P(k), id) || InPacks(s.file + s.saved, k, id)
  }

  ghost predicate TreeOk(s: State, id: BlobId)
    decreases id
  {
    id.TreeBlob? && Covered(s, Tree, id) && forall n :: n in id.nodes ==> NodeOk(s, n)
  }

  ghost predicate NodeOk(s: State, n: Node)
    decreases n
  {
    && (n.content.Some? ==> forall id :: id in n.content.value ==> Covered(s, Data, id))
    && (n.subtree.Some? ==> TreeOk(s, n.subtree.value))
  }

  predicate KindOk(ids: set<BlobId>, k: Kind, id: BlobId) { k.Data? <==> id in ids }

  /** Blob types can be told from the ids alone: `ids` are those of data blobs. */
  ghost predicate KindsOk(ids: set<BlobId>, s: State)
  {
    && (forall k, id :: InPacker(s.P(k), id) ==> KindOk(ids, k, id))
    && (forall p, id :: p in s.file + s.saved && id in p.ids ==> KindOk(ids, p.kind, id))
  }

  /** A pack is written before it is indexed, and the indexer knows only blobs of such packs. */
  ghost predicate PacksOk(s: State)
  {
    && (forall k, u :: u in s.P(k).unindexed ==> Pack(k, u) in s.packs)
    && s.file + s.saved <= s.packs
    && (forall id :: id in s.indexed ==> InPacks(s.file + s.saved, Data, id) || InPacks(s.file + s.saved, Tree, id))
  }

  /** Everything the trees under construction refer to is covered. */
  ghost predicate WorkOk(s: State)
  {
    && (forall j :: j in s.jobs ==> j.node.subtree == None && forall id :: id in j.done ==> Covered(s, Data, id))
    && (forall n :: n in s.ready || n in s.nodes ==> NodeOk(s, n))
    && (forall o :: o in s.stack ==>
          o.node.content == None && forall n :: n in o.outer ==> NodeOk(s, n))
    && (s.root.Some? ==> TreeOk(s, s.root.value))
  }

  predicate Late(ph: Phase) { ph == SavingIndex || ph == SavingSnapshot || ph == Done }

  ghost predicate PhaseOk(s: State)
  {
    && (s.data.finished ==> Drained(s.data)) && (s.tree.finished ==> Drained(s.tree))
    && (s.phase == ClosingTree || Late(s.phase) ==> s.data.finished)
    && (Late(s.phase) ==> s.tree.finished && s.root.Some?)
    && (s.phase == SavingSnapshot || s.phase == Done ==> s.file <= s.saved)
  }

  ghost predicate Inv(ids: set<BlobId>, s: State)
  {
    && KindsOk(ids, s) && PacksOk(s) && WorkOk(s) && PhaseOk(s)
    && forall r :: r in s.snapshots ==> Restorable(s, r)
  }

  /** No step loses a blob or a stored pack. */
  ghost predicate Grows(s: State, t: State)
  {
    && (forall k, id :: Covered(s, k, id) ==> Covered(t, k, id))
    && s.startData == t.startData && s.startTrees == t.startTrees
    && s.saved <= t.saved && s.packs <= t.packs
  }

  lemma {:induction false} GrowsTree(s: State, t: State, id: BlobId)
    requires Grows(s, t) && TreeOk(s, id)
    ensures TreeOk(t, id)
    decreases id
  {
    forall n | n in id.nodes ensures NodeOk(t, n) { GrowsNode(s, t, n); }
  }

  lemma {:induction false} GrowsNode(s: State, t: State, n: Node)
    requires Grows(s, t) && NodeOk(s, n)
    ensures NodeOk(t, n)
    decreases n
  {
    if n.subtree.Some? { GrowsTree(s, t, n.subtree.value); }
  }

  lemma {:induction false} GrowsRestorable(s: State, t: State, id: BlobId)
    requires Grows(s, t) && Restorable(s, id)
    ensures Restorable(t, id)
    decreases id
  {
    forall n | n in id.nodes ensures RestorableNode(t, n) { GrowsRestorableNode(s, t, n); }
  }

  lemma {:induction false} GrowsRestorableNode(s: State, t: State, n: Node)
    requires Grows(s, t) && RestorableNode(s, n)
    ensures RestorableNode(t, n)
    decreases n
  {
    if n.subtree.Some? { GrowsRestorable(s, t, n.subtree.value); }
    if n.content.Some? {
      forall id | id in n.content.value ensures Stored(t, Data, id) {
        assert Stored(s, Data, id);
      }
    }
  }

  /** When both packers are drained and the index is saved, covered means stored. */
  lemma {:induction false} CoveredIsStored(s: State, id: BlobId)
    requires PacksOk(s) && Drained(s.data) && Drained(s.tree) && s.file <= s.saved && TreeOk(s, id)
    ensures Restorable(s, id)
    decreases id
  {
    forall n | n in id.nodes ensures RestorableNode(s, n) { CoveredIsStoredNode(s, n); }
    CoveredOneIsStored(s, Tree, id);
  }

  lemma {:induction false} CoveredIsStoredNode(s: State, n: Node)
    requires PacksOk(s) && Drained(s.data) && Drained(s.tree) && s.file <= s.saved && NodeOk(s, n)
    ensures RestorableNode(s, n)
    decreases n
  {
    if n.subtree.Some? { CoveredIsStored(s, n.subtree.value); }
    if n.content.Some? {
      forall id | id in n.content.value ensures Stored(s, Data, id) { CoveredOneIsStored(s, Data, id); }
    }
  }

  lemma {:induction false} CoveredOneIsStored(s: State, k: Kind, id: BlobId)
    requires PacksOk(s) && Drained(s.data) && Drained(s.tree) && s.file <= s.saved && Covered(s, k, id)
    ensures Stored(s, k, id)
  {
    if id !in s.Start(k) {
      var p :| p in s.file + s.saved && p.kind == k && id in p.ids;
      assert p in s.saved && p in s.packs;
    }
  }

  // ---------------------------------------------------------------- every step keeps the invariant

  /** What a packing step does to the blobs in the packer: none comes in, and one leaves only if
      the indexer has it. */
  lemma {:induction false} PackingMoves(p: Packer, indexed: set<BlobId>, a: Action, id: BlobId)
    requires IsPacking(a) && PackingEnabled(p, a)
    ensures InPacker(p, id) ==> InPacker(PackingStep(p, indexed, a), id) || id in indexed
    ensures InPacker(PackingStep(p, indexed, a), id) ==> InPacker(p, id)
  {
    var q := PackingStep(p, indexed, a);
    var pack := if a.LateCheck? then AddRaw(p.current, p.checked[0]) else p.current;
    assert forall u :: u in p.unwritten + [pack] <==> u in p.unwritten || u == pack;
    assert q.unwritten == p.unwritten || (q.unwritten == p.unwritten + [pack] && q.current == []);
    if q.unwritten != p.unwritten { assert pack in q.unwritten; }
    assert q.unindexed == p.unindexed;
    if p.sent != [] { assert p.sent == [p.sent[0]] + p.sent[1..]; }
    if p.checked != [] { assert p.checked == [p.checked[0]] + p.checked[1..]; }
  }

  lemma {:induction false} WorkCarries(s: State, t: State)
    requires WorkOk(s) && Grows(s, t)
    requires t.jobs == s.jobs && t.ready == s.ready && t.nodes == s.nodes && t.stack == s.stack && t.root == s.root
    ensures WorkOk(t)
  {
    forall n | NodeOk(s, n) ensures NodeOk(t, n) { GrowsNode(s, t, n); }
    if s.root.Some? { GrowsTree(s, t, s.root.value); }
  }

  lemma {:induction false} SnapshotsCarry(s: State, t: State)
    requires Grows(s, t) && t.snapshots == s.snapshots
    requires forall r :: r in s.snapshots ==> Restorable(s, r)
    ensures forall r :: r in t.snapshots ==> Restorable(t, r)
  {
    forall r | r in t.snapshots ensures Restorable(t, r) { GrowsRestorable(s, t, r); }
  }

  /** Everything but the coverage of the work in progress, which carries over by itself. */
  lemma {:induction false} Carries(ids: set<BlobId>, s: State, t: State)
    requires Inv(ids, s) && Grows(s, t) && KindsOk(ids, t) && PacksOk(t) && PhaseOk(t) && t.snapshots == s.snapshots
    requires t.jobs == s.jobs && t.ready == s.ready && t.nodes == s.nodes && t.stack == s.stack && t.root == s.root
    ensures Inv(ids, t)
  {
    WorkCarries(s, t);
    SnapshotsCarry(s, t);
  }

  lemma {:induction false} IndexedIsPacked(ids: set<BlobId>, s: State, k: Kind, id: BlobId)
    requires KindsOk(ids, s) && PacksOk(s) && id in s.indexed && KindOk(ids, k, id)
    ensures InPacks(s.file + s.saved, k, id)
  {
  }

  /** One packer is replaced: what it held is still there or in the index. */
  lemma {:induction false} Replaced(ids: set<BlobId>, s: State, k: Kind, t: State)
    requires KindsOk(ids, s) && t == s.With(k, t.P(k))
    requires forall id :: InPacker(s.P(k), id) ==> InPacker(t.P(k), id) || InPacks(s.file + s.saved, k, id)
    requires forall id :: InPacker(t.P(k), id) ==> KindOk(ids, k, id)
    ensures Grows(s, t) && KindsOk(ids, t)
  {
  }

  lemma {:induction false} PackingGrows(ids: set<BlobId>, s: State, a: Action)
    requires KindsOk(ids, s) && PacksOk(s) && Enabled(s, a) && IsPacking(a)
    ensures Grows(s, Apply(s, a)) && KindsOk(ids, Apply(s, a))
  {
    var t, q := Apply(s, a), PackingStep(s.P(a.k), s.indexed, a);
    assert t.P(a.k) == q;
    forall id | InPacker(s.P(a.k), id) ensures InPacker(q, id) || InPacks(s.file + s.saved, a.k, id) {
      PackingMoves(s.P(a.k), s.indexed, a, id);
      if id in s.indexed { IndexedIsPacked(ids, s, a.k, id); }
    }
    forall id | InPacker(q, id) ensures KindOk(ids, a.k, id) { PackingMoves(s.P(a.k), s.indexed, a, id); }
    Replaced(ids, s, a.k, t);
  }

  /** Nothing of what `PacksOk` speaks of has changed. */
  lemma {:induction false} SamePacks(s: State, t: State)
    requires PacksOk(s) && t.file == s.file && t.saved == s.saved && t.packs == s.packs && t.indexed == s.indexed
    requires t.data.unindexed == s.data.unindexed && t.tree.unindexed == s.tree.unindexed
    ensures PacksOk(t)
  {
    forall k, u | u in t.P(k).unindexed ensures Pack(k, u) in t.packs { assert u in s.P(k).unindexed; }
  }

  lemma {:induction false} PackingPacks(s: State, a: Action)
    requires PacksOk(s) && IsPacking(a) && PackingEnabled(s.P(a.k), a)
    ensures PacksOk(s.With(a.k, PackingStep(s.P(a.k), s.indexed, a)))
  {
    UnindexedStays(s.P(a.k), s.indexed, a);
    SamePacks(s, s.With(a.k, PackingStep(s.P(a.k), s.indexed, a)));
  }

  /** One packer is replaced, and the other stays. */
  lemma {:induction false} PhaseStays(s: State, k: Kind, q: Packer)
    requires PhaseOk(s) && (q.finished ==> Drained(q)) && (s.P(k).finished ==> q.finished)
    ensures PhaseOk(s.With(k, q))
  {
  }

  lemma {:induction false} PackingPhase(s: State, a: Action)
    requires PhaseOk(s) && IsPacking(a) && PackingEnabled(s.P(a.k), a)
    ensures PhaseOk(s.With(a.k, PackingStep(s.P(a.k), s.indexed, a)))
  {
    assert s.P(a.k).finished ==> Drained(s.P(a.k));
    FinishedStays(s.P(a.k), s.indexed, a);
    PhaseStays(s, a.k, PackingStep(s.P(a.k), s.indexed, a));
  }

  /** A packing step changes its packer and nothing else. */
  lemma {:induction false} PackingFrame(s: State, a: Action)
    requires Enabled(s, a) && IsPacking(a)
    ensures Apply(s, a) == s.With(a.k, PackingStep(s.P(a.k), s.indexed, a))
  {
  }

  lemma {:induction false} PackingKeeps(ids: set<BlobId>, s: State, a: Action)
    requires Inv(ids, s) && Enabled(s, a) && IsPacking(a)
    ensures Inv(ids, Apply(s, a))
  {
    PackingGrows(ids, s, a);
    PackingPacks(s, a);
    PackingPhase(s, a);
    PackingFrame(s, a);
    Carries(ids, s, Apply(s, a));
  }

  lemma {:induction false} FinishedStays(p: Packer, indexed: set<BlobId>, a: Action)
    requires IsPacking(a) && PackingEnabled(p, a) && (p.finished ==> Drained(p))
    ensures PackingStep(p, indexed, a).finished ==> Drained(PackingStep(p, indexed, a))
    ensures p.finished ==> PackingStep(p, indexed, a).finished
  {
  }

  lemma {:induction false} UnindexedStays(p: Packer, indexed: set<BlobId>, a: Action)
    requires IsPacking(a) && PackingEnabled(p, a)
    ensures PackingStep(p, indexed, a).unindexed == p.unindexed
  {
  }

  /** Writing passes a pack on; indexing lets it leave the packer. */
  lemma {:induction false} WriterMoves(p: Packer, id: BlobId)
    ensures p.unwritten != [] ==>
      var q := p.(unwritten := p.unwritten[1..], unindexed := p.unindexed + [p.unwritten[0]]);
      InPacker(p, id) <==> InPacker(q, id)
    ensures p.unindexed != [] ==>
      var q := p.(unindexed := p.unindexed[1..]);
      InPacker(p, id) <==> InPacker(q, id) || id in p.unindexed[0]
  {
    if p.unwritten != [] {
      assert p.unwritten == [p.unwritten[0]] + p.unwritten[1..];
      assert forall u :: u in p.unindexed + [p.unwritten[0]] <==> u in p.unindexed || u == p.unwritten[0];
    }
    if p.unindexed != [] { assert p.unindexed == [p.unindexed[0]] + p.unindexed[1..]; }
  }

  lemma {:induction false} WriteGrows(ids: set<BlobId>, s: State, k: Kind)
    requires KindsOk(ids, s) && PacksOk(s) && Enabled(s, WritePack(k))
    ensures var t := Apply(s, WritePack(k)); Grows(s, t) && KindsOk(ids, t) && PacksOk(t)
  {
    var t := Apply(s, WritePack(k));
    forall id ensures InPacker(s.P(k), id) <==> InPacker(t.P(k), id) { WriterMoves(s.P(k), id); }
    forall j, u | u in t.P(j).unindexed ensures Pack(j, u) in t.packs {
      assert (j == k && u == s.P(k).unwritten[0]) || u in s.P(j).unindexed;
    }
  }

  lemma {:induction false} MorePacks(ps: set<Pack>, q: Pack, k: Kind, id: BlobId)
    ensures InPacks(ps + {q}, k, id) <==> InPacks(ps, k, id) || (q.kind == k && id in q.ids)
  {
    if InPacks(ps, k, id) {
      var w :| w in ps && w.kind == k && id in w.ids;
      assert w in ps + {q};
    }
    assert q in ps + {q};
  }

  lemma {:induction false} IndexGrows(ids: set<BlobId>, s: State, k: Kind, save: bool)
    requires KindsOk(ids, s) && PacksOk(s) && Enabled(s, IndexPack(k, save))
    ensures var t := Apply(s, IndexPack(k, save)); Grows(s, t) && KindsOk(ids, t)
  {
    var t, pack := Apply(s, IndexPack(k, save)), s.P(k).unindexed[0];
    assert t.file + t.saved == s.file + s.saved + {Pack(k, pack)};
    forall id ensures InPacker(s.P(k), id) <==> InPacker(t.P(k), id) || id in pack { WriterMoves(s.P(k), id); }
    forall j, id
      ensures InPacks(t.file + t.saved, j, id) <==> InPacks(s.file + s.saved, j, id) || (j == k && id in pack) {
      MorePacks(s.file + s.saved, Pack(k, pack), j, id);
    }
  }

  lemma {:induction false} IndexPacks(ids: set<BlobId>, s: State, k: Kind, save: bool)
    requires KindsOk(ids, s) && PacksOk(s) && Enabled(s, IndexPack(k, save))
    ensures PacksOk(Apply(s, IndexPack(k, save)))
  {
    var t, pack := Apply(s, IndexPack(k, save)), s.P(k).unindexed[0];
    assert t.file + t.saved == s.file + s.saved + {Pack(k, pack)};
    forall j, id
      ensures InPacks(t.file + t.saved, j, id) <==> InPacks(s.file + s.saved, j, id) || (j == k && id in pack) {
      MorePacks(s.file + s.saved, Pack(k, pack), j, id);
    }
  }

  lemma {:induction false} WritingFrame(s: State, a: Action)
    requires PhaseOk(s) && Enabled(s, a) && (a.WritePack? || a.IndexPack?)
    ensures var t := Apply(s, a);
      && PhaseOk(t) && t.snapshots == s.snapshots
      && t.jobs == s.jobs && t.ready == s.ready && t.nodes == s.nodes && t.stack == s.stack && t.root == s.root
  {
  }

  lemma {:induction false} WritingKeeps(ids: set<BlobId>, s: State, a: Action)
    requires Inv(ids, s) && Enabled(s, a) && (a.WritePack? || a.IndexPack?)
    ensures Inv(ids, Apply(s, a))
  {
    WritingFrame(s, a);
    if a.WritePack? {
      WriteGrows(ids, s, a.k);
    } else {
      IndexGrows(ids, s, a.k, a.save);
      IndexPacks(ids, s, a.k, a.save);
    }
    Carries(ids, s, Apply(s, a));
  }

  /** Sending a blob covers it, and takes nothing away. */
  lemma {:induction false} SendGrows(ids: set<BlobId>, s: State, k: Kind, id: BlobId, t: State)
    requires KindsOk(ids, s) && PacksOk(s) && KindOk(ids, k, id)
    requires t == s.With(k, s.P(k).(sent := s.P(k).sent + [id]))
    ensures Grows(s, t) && KindsOk(ids, t) && PacksOk(t) && Covered(t, k, id)
  {
    forall x ensures InPacker(t.P(k), x) <==> InPacker(s.P(k), x) || x == id {}
  }

  /** Workers: a chunk is skipped if the index has it and sent otherwise. */
  lemma {:induction false} ChunkKeeps(ids: set<BlobId>, s: State, j: nat)
    requires Inv(ids, s) && Enabled(s, NextChunk(j)) && Fit(ids, s, NextChunk(j))
    ensures Inv(ids, Apply(s, NextChunk(j)))
  {
    var t, job := Apply(s, NextChunk(j)), s.jobs[j];
    var id := job.todo[0];
    var u := if id in s.startData then s else s.(data := s.data.(sent := s.data.sent + [id]));
    assert job in s.jobs && id in job.todo;
    if id !in s.startData {
      assert SendsData(s, NextChunk(j), id);
      SendGrows(ids, s, Data, id, u);
    }
    WorkCarries(s, u);
    SnapshotsCarry(s, u);
    assert t == u.(jobs := t.jobs);
    SameNodes(u, t);
  }

  /** A state that differs only in the work in progress. */
  lemma {:induction false} SameNodes(u: State, t: State)
    requires t == u.(jobs := t.jobs, ready := t.ready, nodes := t.nodes, stack := t.stack, phase := t.phase)
    requires forall r :: r in u.snapshots ==> Restorable(u, r)
    ensures Grows(u, t)
    ensures forall n :: NodeOk(u, n) ==> NodeOk(t, n)
    ensures forall id :: TreeOk(u, id) ==> TreeOk(t, id)
    ensures forall r :: r in t.snapshots ==> Restorable(t, r)
  {
    forall n | NodeOk(u, n) ensures NodeOk(t, n) { GrowsNode(u, t, n); }
    forall id | TreeOk(u, id) ensures TreeOk(t, id) { GrowsTree(u, t, id); }
    SnapshotsCarry(u, t);
  }

  predicate IsWork(a: Action)
  {
    a.StartFile? || a.DropFile? || a.FileDone? || a.KeepFile? || a.PlainNode? || a.AddNode? || a.OpenDir?
  }

  lemma {:induction false} WorkKeeps(ids: set<BlobId>, s: State, a: Action)
    requires Inv(ids, s) && Enabled(s, a) && Fit(ids, s, a) && IsWork(a)
    ensures Inv(ids, Apply(s, a))
  {
    var t := Apply(s, a);
    SameNodes(s, t);
    assert WorkOk(t) by {
      match a {
        case FileDone(j) => assert s.jobs[j] in s.jobs;
        case AddNode(i) => assert s.ready[i] in s.ready;
        case _ =>
      }
    }
  }

  /** After `backup_tree` the tree is covered. */
  lemma {:induction false} StoreCovers(ids: set<BlobId>, s: State, a: Action, id: BlobId, parent: ParentResult<BlobId>)
    requires Inv(ids, s) && id == TreeBlob(s.nodes) && Closes(s, a, parent) && Fit(ids, s, a)
    requires MustStore(s, id, parent) ==> CanSend(s.tree)
    ensures var u := Store(s, id, parent); Inv(ids, u) && TreeOk(u, id)
  {
    var u := Store(s, id, parent);
    if MustStore(s, id, parent) {
      assert SendsTree(s, a, id);
      SendGrows(ids, s, Tree, id, u);
    }
    WorkCarries(s, u);
    SnapshotsCarry(s, u);
  }

  lemma {:induction false} CloseDirKeeps(ids: set<BlobId>, s: State)
    requires Inv(ids, s) && Enabled(s, CloseDir) && Fit(ids, s, CloseDir)
    ensures Inv(ids, Apply(s, CloseDir))
  {
    var t, top, id := Apply(s, CloseDir), s.stack[|s.stack| - 1], TreeBlob(s.nodes);
    assert top in s.stack;
    StoreCovers(ids, s, CloseDir, id, top.parent);
    var u := Store(s, id, top.parent);
    SameNodes(u, t);
    assert NodeOk(u, top.node.(subtree := Some(id)));
  }

  lemma {:induction false} CloseRootKeeps(ids: set<BlobId>, s: State, parent: ParentResult<BlobId>)
    requires Inv(ids, s) && Enabled(s, CloseRoot(parent)) && Fit(ids, s, CloseRoot(parent))
    ensures Inv(ids, Apply(s, CloseRoot(parent)))
  {
    var t, id := Apply(s, CloseRoot(parent)), TreeBlob(s.nodes);
    StoreCovers(ids, s, CloseRoot(parent), id, parent);
    var u := Store(s, id, parent).(root := Some(id));
    var w := Store(s, id, parent);
    assert Grows(w, t) && KindsOk(ids, t) && PacksOk(t);
    GrowsTree(w, t, id);
    forall n | NodeOk(w, n) ensures NodeOk(t, n) { GrowsNode(w, t, n); }
    SnapshotsCarry(w, t);
  }

  /** The end of the run: phases change, the index and the snapshot are saved. */
  lemma {:induction false} EndingKeeps(ids: set<BlobId>, s: State, a: Action)
    requires Inv(ids, s) && Enabled(s, a)
    requires a.EndWalk? || a.DataDone? || a.TreeDone? || a.SaveIndex? || a.Abort?
    ensures Inv(ids, Apply(s, a))
  {
    var t := Apply(s, a);
    assert t.file + t.saved == s.file + s.saved;
    assert Grows(s, t);
    Carries(ids, s, t);
  }

  lemma {:induction false} SnapshotKeeps(ids: set<BlobId>, s: State, skip: bool)
    requires Inv(ids, s) && Enabled(s, SaveSnapshot(skip))
    ensures Inv(ids, Apply(s, SaveSnapshot(skip)))
  {
    var t := Apply(s, SaveSnapshot(skip));
    assert Grows(s, t);
    WorkCarries(s, t);
    CoveredIsStored(s, s.root.value);
    forall r | r in t.snapshots ensures Restorable(t, r) { GrowsRestorable(s, t, r); }
  }

  lemma {:induction false} StepKeeps(ids: set<BlobId>, s: State, a: Action)
    requires Inv(ids, s) && Enabled(s, a) && Fit(ids, s, a)
    ensures Inv(ids, Apply(s, a))
  {
    if IsPacking(a) { PackingKeeps(ids, s, a); }
    else if IsWork(a) { WorkKeeps(ids, s, a); }
    else if a.WritePack? || a.IndexPack? { WritingKeeps(ids, s, a); }
    else if a.NextChunk? || a.CloseDir? || a.CloseRoot? || a.SaveSnapshot? { StoringKeeps(ids, s, a); }
    else { EndingKeeps(ids, s, a); }
  }

  lemma {:induction false} StoringKeeps(ids: set<BlobId>, s: State, a: Action)
    requires Inv(ids, s) && Enabled(s, a) && Fit(ids, s, a) &&
               (a.NextChunk? || a.CloseDir? || a.CloseRoot? || a.SaveSnapshot?)
    ensures Inv(ids, Apply(s, a))
  {
    match a
    case NextChunk(j) => ChunkKeeps(ids, s, j);
    case CloseDir => CloseDirKeeps(ids, s);
    case CloseRoot(parent) => CloseRootKeeps(ids, s, parent);
    case SaveSnapshot(skip) => SnapshotKeeps(ids, s, skip);
  }

  lemma {:induction false} RunKeeps(ids: set<BlobId>, trace: seq<State>, acts: seq<Action>, i: nat)
    requires Run(trace, acts) && i < |trace| && Inv(ids, trace[0])
    requires forall j :: 0 <= j < |acts| ==> Fit(ids, trace[j], acts[j])
    ensures Inv(ids, trace[i])
  {
    if i > 0 {
      RunKeeps(ids, trace, acts, i - 1);
      StepKeeps(ids, trace[i - 1], acts[i - 1]);
    }
  }

  /** The chunks that a run sends to the data packer. */
  ghost function DataSent(trace: seq<State>, acts: seq<Action>): (r: set<BlobId>)
    requires |trace| == |acts| + 1
    ensures forall id :: id in r <==> exists n :: 0 <= n < |acts| && SendsData(trace[n], acts[n], id)
  {
    set n, id | 0 <= n < |acts| && id in Chunks(trace[n], acts[n]) && SendsData(trace[n], acts[n], id) :: id
  }

  /** The chunk that a step takes up, if it does. */
  function Chunks(s: State, a: Action): seq<BlobId>
  {
    if a.NextChunk? && a.j < |s.jobs| then s.jobs[a.j].todo else []
  }

  /** Publish safety: at every point of every run, whatever the interleaving and whichever stages
      fail, every snapshot in the backend reaches only blobs that a saved index maps to a pack in
      the backend. This needs that no chunk sent has the id of a tree sent (the indexer's `has` does
      not look at the blob type), and that no tree is missed for its parent. */
  lemma {:induction false} PublishSafety(trace: seq<State>, acts: seq<Action>, i: nat, startData: set<BlobId>,
                                         startTrees: set<BlobId>, root: BlobId)
    requires Run(trace, acts) && trace[0] == Init(startData, startTrees)
    requires forall m, n, id :: 0 <= m < |acts| && 0 <= n < |acts| && SendsData(trace[m], acts[m], id) ==>
                                  !SendsTree(trace[n], acts[n], id)
    requires forall n :: 0 <= n < |acts| ==> !MissesTree(trace[n], acts[n])
    requires i < |trace| && root in trace[i].snapshots
    ensures Restorable(trace[i], root)
  {
    var ids := DataSent(trace, acts);
    forall n | 0 <= n < |acts| ensures Fit(ids, trace[n], acts[n]) {
      forall id | SendsTree(trace[n], acts[n], id) ensures id !in ids {}
    }
    assert Inv(ids, trace[0]);
    RunKeeps(ids, trace, acts, i);
  }
}
