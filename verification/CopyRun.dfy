/** `copy` as a step system: the needed data blobs go through one packer, then the needed trees through
    another, with one shared indexer; any number of workers send blobs in any order. */
module CopyRun {
  import opened Repo
  import opened Publish
  import Copy
  import Progress
  import Streamer

  datatype CopyPhase = CopyingData | CopyingTrees | IndexSaved | Failed

  datatype CopyState = CopyState(
    todo: set<BlobId>,      // blobs of the present kind that no worker has sent yet
    later: set<BlobId>,     // the trees, while data is copied
    kind: Kind,
    packer: Packer,
    indexed: set<BlobId>,
    file: set<Pack>,
    saved: set<Pack>,
    packs: set<Pack>,
    phase: CopyPhase)
  {
    function All(): set<Pack> { file + saved }
  }

  function Start(data: set<BlobId>, trees: set<BlobId>): CopyState
  {
    CopyState(data, trees, Data, NewPacker(), {}, {}, {}, {}, CopyingData)
  }

  datatype CopyAction =
    | Send(id: BlobId)
    | CloseSender           // the copier is finalized
    | StartTrees
    | SaveIndex
    | Packing(step: Action)
    | Write
    | Index(save: bool)
    | Fail                  // any error, of a worker, a packer, a writer or the indexer

  predicate Copying(s: CopyState) { s.phase == CopyingData || s.phase == CopyingTrees }

  predicate CanDo(s: CopyState, a: CopyAction)
  {
    match a
    case Send(id) => Copying(s) && id in s.todo && CanSend(s.packer)
    case CloseSender => Copying(s) && s.todo == {} && !s.packer.closed
    case StartTrees => s.phase == CopyingData && s.packer.finished
    case SaveIndex => s.phase == CopyingTrees && s.packer.finished
    case Packing(b) => IsPacking(b) && b.k == s.kind && PackingEnabled(s.packer, b)
    case Write => !s.packer.writerBroken && s.packer.unwritten != []
    case Index(save) => !s.packer.writerBroken && s.packer.unindexed != []
    case Fail => true
  }

  ghost function Do(s: CopyState, a: CopyAction): CopyState
    requires CanDo(s, a)
  {
    var p := s.packer;
    match a
    case Send(id) => s.(todo := s.todo - {id}, packer := p.(sent := p.sent + [id]))
    case CloseSender => s.(packer := p.(closed := true))
    case StartTrees => s.(todo := s.later, later := {}, kind := Tree, packer := NewPacker(), phase := CopyingTrees)
    case SaveIndex => s.(saved := s.saved + s.file, phase := IndexSaved)
    case Packing(b) => s.(packer := PackingStep(p, s.indexed, b))
    case Write =>
      s.(packer := p.(unwritten := p.unwritten[1..], unindexed := p.unindexed + [p.unwritten[0]]),
         packs := s.packs + {Pack(s.kind, p.unwritten[0])})
    case Index(save) =>
      var file := s.file + {Pack(s.kind, p.unindexed[0])};
      s.(packer := p.(unindexed := p.unindexed[1..]),
         indexed := s.indexed + (set id | id in p.unindexed[0]),
         file := if save then {} else file,
         saved := if save then s.saved + file else s.saved)
    case Fail => s.(phase := Failed)
  }

  ghost predicate Runs(trace: seq<CopyState>, acts: seq<CopyAction>)
  {
    && |trace| == |acts| + 1
    && forall i :: 0 <= i < |acts| ==> CanDo(trace[i], acts[i]) && trace[i + 1] == Do(trace[i], acts[i])
  }

  // ---------------------------------------------------------------- the invariant

  /** In the packer and past the early check. */
  ghost predicate Past(p: Packer, id: BlobId)
  {
    || id in p.checked || id in p.current
    || (exists u :: u in p.unwritten && id in u) || (exists u :: u in p.unindexed && id in u)
  }

  /** What is sent of the present kind, and what of it ends in a pack: a tree with the id of a copied data
      blob is dropped, since the indexer does not look at the type. */
  function Sent(data: set<BlobId>, trees: set<BlobId>, k: Kind): set<BlobId> { if k.Data? then data else trees }

  function Packed(data: set<BlobId>, trees: set<BlobId>, k: Kind): set<BlobId>
  {
    if k.Data? then data else trees - data
  }

  /** The blobs of the present kind: sent ones only, and none that belongs into a pack is lost. */
  ghost predicate BlobsOk(data: set<BlobId>, trees: set<BlobId>, s: CopyState)
  {
    && (forall id :: id in s.todo || InPacker(s.packer, id) ==> id in Sent(data, trees, s.kind))
    && (forall id :: Past(s.packer, id) || InPacks(s.All(), s.kind, id) ==> id in Packed(data, trees, s.kind))
    && (forall id :: id in Packed(data, trees, s.kind) ==>
          id in s.todo || InPacker(s.packer, id) || InPacks(s.All(), s.kind, id))
  }

  /** The packs of the other kind, and what the indexer knows. */
  ghost predicate IndexOk(data: set<BlobId>, s: CopyState)
  {
    && (s.kind.Tree? ==> forall id :: InPacks(s.All(), Data, id) <==> id in data)
    && (s.kind.Data? ==> forall p :: p in s.All() ==> p.kind.Data?)
    && (forall id :: id in s.indexed <==> InPacks(s.All(), Data, id) || InPacks(s.All(), Tree, id))
  }

  ghost predicate WrittenOk(s: CopyState)
  {
    s.All() <= s.packs && forall u :: u in s.packer.unindexed ==> Pack(s.kind, u) in s.packs
  }

  ghost predicate StageOk(trees: set<BlobId>, s: CopyState)
  {
    && (s.packer.closed ==> s.todo == {}) && (s.packer.finished ==> Drained(s.packer))
    && (s.kind.Data? ==> s.later == trees)
    && (s.phase == CopyingData ==> s.kind == Data) && (s.phase == CopyingTrees ==> s.kind == Tree)
    && (s.phase == IndexSaved ==> s.kind == Tree && s.packer.finished && s.file <= s.saved)
  }

  ghost predicate Good(data: set<BlobId>, trees: set<BlobId>, s: CopyState)
  {
    BlobsOk(data, trees, s) && IndexOk(data, s) && WrittenOk(s) && StageOk(trees, s)
  }

  lemma {:induction false} PastMoves(p: Packer, indexed: set<BlobId>, a: Action, id: BlobId)
    requires IsPacking(a) && PackingEnabled(p, a)
    ensures Past(PackingStep(p, indexed, a), id) ==> Past(p, id) || (id in p.sent && id !in indexed)
  {
    var q := PackingStep(p, indexed, a);
    var pack := if a.LateCheck? then AddRaw(p.current, p.checked[0]) else p.current;
    assert forall u :: u in p.unwritten + [pack] <==> u in p.unwritten || u == pack;
    assert q.unwritten == p.unwritten || (q.unwritten == p.unwritten + [pack] && q.current == []);
    assert q.unindexed == p.unindexed;
  }

  lemma {:induction false} KnownIsPacked(data: set<BlobId>, trees: set<BlobId>, s: CopyState, id: BlobId)
    requires IndexOk(data, s) && id in Sent(data, trees, s.kind)
    ensures id in s.indexed && id in Packed(data, trees, s.kind) ==> InPacks(s.All(), s.kind, id)
    ensures id !in s.indexed ==> id in Packed(data, trees, s.kind)
  {
  }

  lemma {:induction false} PackingGood(data: set<BlobId>, trees: set<BlobId>, s: CopyState, b: Action)
    requires Good(data, trees, s) && CanDo(s, Packing(b))
    ensures Good(data, trees, Do(s, Packing(b)))
  {
    var t, q := Do(s, Packing(b)), PackingStep(s.packer, s.indexed, b);
    forall id ensures
      && (InPacker(q, id) ==> InPacker(s.packer, id))
      && (InPacker(s.packer, id) ==> InPacker(q, id) || id in s.indexed)
    {
      PackingMoves(s.packer, s.indexed, b, id);
    }
    forall id | Past(q, id) ensures id in Packed(data, trees, s.kind) {
      PastMoves(s.packer, s.indexed, b, id);
      if !Past(s.packer, id) { KnownIsPacked(data, trees, s, id); }
    }
    forall id | id in Packed(data, trees, s.kind)
      ensures id in t.todo || InPacker(q, id) || InPacks(t.All(), s.kind, id) {
      KnownIsPacked(data, trees, s, id);
    }
    UnindexedStays(s.packer, s.indexed, b);
    FinishedStays(s.packer, s.indexed, b);
    Progress.ClosedStays(s.packer, s.indexed, b);
  }

  lemma {:induction false} WriterPasses(p: Packer, id: BlobId)
    ensures p.unwritten != [] ==>
      var q := p.(unwritten := p.unwritten[1..], unindexed := p.unindexed + [p.unwritten[0]]);
      Past(p, id) <==> Past(q, id)
    ensures p.unindexed != [] ==>
      var q := p.(unindexed := p.unindexed[1..]);
      Past(p, id) <==> Past(q, id) || id in p.unindexed[0]
  {
    if p.unwritten != [] {
      assert p.unwritten == [p.unwritten[0]] + p.unwritten[1..];
      assert forall u :: u in p.unindexed + [p.unwritten[0]] <==> u in p.unindexed || u == p.unwritten[0];
    }
    if p.unindexed != [] { assert p.unindexed == [p.unindexed[0]] + p.unindexed[1..]; }
  }

  lemma {:induction false} WriteGood(data: set<BlobId>, trees: set<BlobId>, s: CopyState)
    requires Good(data, trees, s) && CanDo(s, Write)
    ensures Good(data, trees, Do(s, Write))
  {
    var t := Do(s, Write);
    forall id ensures
      && (InPacker(s.packer, id) <==> InPacker(t.packer, id))
      && (Past(s.packer, id) <==> Past(t.packer, id))
    {
      WriterMoves(s.packer, id);
      WriterPasses(s.packer, id);
    }
    forall u | u in t.packer.unindexed ensures Pack(s.kind, u) in t.packs {
      assert u == s.packer.unwritten[0] || u in s.packer.unindexed;
    }
  }

  lemma {:induction false} IndexGood(data: set<BlobId>, trees: set<BlobId>, s: CopyState, save: bool)
    requires Good(data, trees, s) && CanDo(s, Index(save))
    ensures Good(data, trees, Do(s, Index(save)))
  {
    var t, pack := Do(s, Index(save)), s.packer.unindexed[0];
    assert t.All() == s.All() + {Pack(s.kind, pack)};
    forall id ensures
      && (InPacker(s.packer, id) <==> InPacker(t.packer, id) || id in pack)
      && (Past(s.packer, id) <==> Past(t.packer, id) || id in pack)
    {
      WriterMoves(s.packer, id);
      WriterPasses(s.packer, id);
    }
    forall k, id ensures InPacks(t.All(), k, id) <==> InPacks(s.All(), k, id) || (k == s.kind && id in pack) {
      MorePacks(s.All(), Pack(s.kind, pack), k, id);
    }
  }

  lemma {:induction false} SendGood(data: set<BlobId>, trees: set<BlobId>, s: CopyState, id: BlobId)
    requires Good(data, trees, s) && CanDo(s, Send(id))
    ensures Good(data, trees, Do(s, Send(id)))
  {
    var t := Do(s, Send(id));
    forall x ensures InPacker(t.packer, x) <==> InPacker(s.packer, x) || x == id {}
    forall x ensures Past(t.packer, x) <==> Past(s.packer, x) {}
  }

  lemma {:induction false} DrainedIsEmpty(p: Packer, id: BlobId)
    requires Drained(p)
    ensures !InPacker(p, id)
  {
  }

  lemma {:induction false} StartTreesGood(data: set<BlobId>, trees: set<BlobId>, s: CopyState)
    requires Good(data, trees, s) && CanDo(s, StartTrees)
    ensures Good(data, trees, Do(s, StartTrees))
  {
    forall id ensures !InPacker(s.packer, id) { DrainedIsEmpty(s.packer, id); }
    var t := Do(s, StartTrees);
    assert forall id :: !InPacker(t.packer, id) && !Past(t.packer, id);
    assert t.All() == s.All();
  }

  lemma {:induction false} EndGood(data: set<BlobId>, trees: set<BlobId>, s: CopyState, a: CopyAction)
    requires Good(data, trees, s) && CanDo(s, a) && (a.CloseSender? || a.SaveIndex? || a.Fail?)
    ensures Good(data, trees, Do(s, a))
  {
    var t := Do(s, a);
    assert t.All() == s.All();
    forall id ensures
      && (InPacker(t.packer, id) <==> InPacker(s.packer, id))
      && (Past(t.packer, id) <==> Past(s.packer, id))
    {}
  }

  lemma {:induction false} StepGood(data: set<BlobId>, trees: set<BlobId>, s: CopyState, a: CopyAction)
    requires Good(data, trees, s) && CanDo(s, a)
    ensures Good(data, trees, Do(s, a))
  {
    match a
    case Send(id) => SendGood(data, trees, s, id);
    case StartTrees => StartTreesGood(data, trees, s);
    case Packing(b) => PackingGood(data, trees, s, b);
    case Write => WriteGood(data, trees, s);
    case Index(save) => IndexGood(data, trees, s, save);
    case _ => EndGood(data, trees, s, a);
  }

  lemma {:induction false} RunGood(data: set<BlobId>, trees: set<BlobId>, trace: seq<CopyState>, acts: seq<CopyAction>,
                                   i: nat)
    requires Runs(trace, acts) && trace[0] == Start(data, trees) && i < |trace|
    ensures Good(data, trees, trace[i])
  {
    if i > 0 {
      RunGood(data, trees, trace, acts, i - 1);
      StepGood(data, trees, trace[i - 1], acts[i - 1]);
    }
  }

  // ---------------------------------------------------------------- what a copy leaves

  /** Whatever the order of the steps: once the index is saved, exactly the data blobs, and exactly the trees
      whose id is not that of a copied data blob, are in indexed packs, and all these packs are written. */
  lemma {:induction false} SavedExactly(data: set<BlobId>, trees: set<BlobId>, trace: seq<CopyState>,
                                        acts: seq<CopyAction>, i: nat)
    requires Runs(trace, acts) && trace[0] == Start(data, trees) && i < |trace| && trace[i].phase == IndexSaved
    ensures trace[i].saved <= trace[i].packs
    ensures forall id :: InPacks(trace[i].saved, Data, id) <==> id in data
    ensures forall id :: InPacks(trace[i].saved, Tree, id) <==> id in trees - data
  {
    RunGood(data, trees, trace, acts, i);
    var s := trace[i];
    assert s.All() == s.saved;
    forall id ensures !InPacker(s.packer, id) { DrainedIsEmpty(s.packer, id); }
  }

  /** The blobs in the packs of a kind. */
  ghost function Ids(packs: set<Pack>, k: Kind): set<BlobId>
  {
    set p, id | p in packs && p.kind == k && id in p.ids :: id
  }

  lemma {:induction false} IdsAreInPacks(packs: set<Pack>, k: Kind, id: BlobId)
    ensures id in Ids(packs, k) <==> InPacks(packs, k, id)
  {
  }

  /** A copy that found the needed blobs by streaming all trees, and ran through to the saved index, leaves
      complete snapshots in the destination if and only if the source index has all missing data blobs and
      none of these has the id of a missing tree; and it has added only reachable blobs that were missing. */
  lemma {:induction false} CopyCompleteIff(src: Copy.Index, dest: Copy.Index, roots: seq<BlobId>,
                                           stream: seq<Streamer.Action>, end: Streamer.State,
                                           trace: seq<CopyState>, acts: seq<CopyAction>, i: nat)
    requires Streamer.Runs(Streamer.Init(roots), stream, end) && end.done && !end.Failed()
    requires Copy.WellTyped(Streamer.ReachAll(roots)) && Copy.SetOf(Streamer.Ids(end.yielded)) <= src.trees
    requires var trees, data := Copy.NeededTrees(dest, roots, end.yielded), Copy.NeededData(dest, end.yielded);
      Runs(trace, acts) && trace[0] == Start(data * src.data, trees * src.trees)
    requires i < |trace| && trace[i].phase == IndexSaved
    ensures var reach := Streamer.ReachAll(roots);
      var after := Copy.Index(dest.trees + Ids(trace[i].saved, Tree), dest.data + Ids(trace[i].saved, Data));
      && (Copy.Complete(after, reach) <==>
            && Copy.AllContents(reach) - dest.data <= src.data
            && (reach - dest.trees) !! (Copy.AllContents(reach) - dest.data))
      && after.trees - dest.trees <= reach && after.data - dest.data <= Copy.AllContents(reach)
  {
    var trees, data := Copy.NeededTrees(dest, roots, end.yielded), Copy.NeededData(dest, end.yielded);
    SavedExactly(data * src.data, trees * src.trees, trace, acts, i);
    forall id ensures id in Ids(trace[i].saved, Tree) <==> id in (trees * src.trees) - (data * src.data) {
      IdsAreInPacks(trace[i].saved, Tree, id);
    }
    forall id ensures id in Ids(trace[i].saved, Data) <==> id in data * src.data {
      IdsAreInPacks(trace[i].saved, Data, id);
    }
    assert Ids(trace[i].saved, Tree) == Copy.CopiedTrees(src, trees, data);
    assert Ids(trace[i].saved, Data) == Copy.CopiedData(src, data);
    Copy.NeededCompleteIff(src, dest, roots, stream, end);
  }

  // ---------------------------------------------------------------- a copy can always end

  ghost predicate Reaches(s: CopyState, t: CopyState)
  {
    exists trace, acts :: Runs(trace, acts) && trace[0] == s && trace[|trace| - 1] == t
  }

  lemma {:induction false} Then(s0: CopyState, s: CopyState, a: CopyAction)
    requires Reaches(s0, s) && CanDo(s, a)
    ensures Reaches(s0, Do(s, a))
  {
    var trace, acts :| Runs(trace, acts) && trace[0] == s0 && trace[|trace| - 1] == s;
    var trace', acts' := trace + [Do(s, a)], acts + [a];
    assert Runs(trace', acts') && trace'[0] == s0 && trace'[|trace'| - 1] == Do(s, a);
  }

  /** Nothing has failed. */
  predicate Healthy(s: CopyState) { Copying(s) && !s.packer.broken && !s.packer.writerBroken }

  function Work(s: CopyState): nat
  {
    Progress.PackerWork(s.packer) + 6 * |s.todo| + (if s.packer.closed then 0 else 1)
      + (if s.phase == CopyingData then 6 * |s.later| + 5 else if s.phase == CopyingTrees then 1 else 0)
  }

  ghost predicate Nearer(s: CopyState, a: CopyAction)
  {
    CanDo(s, a) && (Healthy(Do(s, a)) || Do(s, a).phase == IndexSaved) && Work(Do(s, a)) < Work(s)
  }

  lemma {:induction false} PackerMoves(trees: set<BlobId>, s: CopyState) returns (a: CopyAction)
    requires Healthy(s) && StageOk(trees, s) && Progress.Advance(s.packer, s.kind).Some?
    ensures Nearer(s, a)
  {
    var b := Progress.Advance(s.packer, s.kind).value;
    if IsPacking(b) {
      Progress.AdvanceWorks(s.packer, s.kind, s.indexed);
      Progress.ClosedStays(s.packer, s.indexed, b);
      a := Packing(b);
    } else {
      a := if b.WritePack? then Write else Index(false);
    }
  }

  lemma {:induction false} StageMoves(trees: set<BlobId>, s: CopyState) returns (a: CopyAction)
    requires Healthy(s) && StageOk(trees, s) && Progress.Advance(s.packer, s.kind).None?
    ensures Nearer(s, a)
  {
    if s.todo != {} {
      var id :| id in s.todo;
      a := Send(id);
    } else {
      a := if !s.packer.closed then CloseSender
           else if s.phase == CopyingData then StartTrees
           else CopyAction.SaveIndex;
    }
  }

  lemma {:induction false} RunsToEnd(data: set<BlobId>, trees: set<BlobId>, s: CopyState) returns (t: CopyState)
    requires Reaches(Start(data, trees), s) && Healthy(s) && Good(data, trees, s)
    ensures Reaches(Start(data, trees), t) && t.phase == IndexSaved
    decreases Work(s)
  {
    var a;
    if Progress.Advance(s.packer, s.kind).Some? { a := PackerMoves(trees, s); } else { a := StageMoves(trees, s); }
    Then(Start(data, trees), s, a);
    StepGood(data, trees, s, a);
    t := Do(s, a);
    if t.phase != IndexSaved { t := RunsToEnd(data, trees, t); }
  }

  /** From every reachable state without a failure some run ends with the index saved. */
  lemma {:induction false} CopyCanEnd(data: set<BlobId>, trees: set<BlobId>, s: CopyState)
    requires Reaches(Start(data, trees), s) && Healthy(s)
    ensures exists t :: Reaches(Start(data, trees), t) && t.phase == IndexSaved
  {
    var trace, acts :| Runs(trace, acts) && trace[0] == Start(data, trees) && trace[|trace| - 1] == s;
    RunGood(data, trees, trace, acts, |trace| - 1);
    var t := RunsToEnd(data, trees, s);
  }
}
