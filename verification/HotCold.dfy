/** `HotColdBackend`: two stores written and removed in an order that survives a failure in between. */
module HotCold {
  import opened Repo

  datatype FileType = Config | Index | Key | Snapshot | Pack

  /** A file: its type, its id, and whether it is cacheable. Packs are called with the same flag every time. */
  datatype Target = Target(tpe: FileType, id: nat, cacheable: bool)

  type Store = map<(FileType, nat), nat>

  /** How an operation of one store ends; an error may hide that it has taken effect. */
  datatype End = Done | NotDone | DoneUnseen

  predicate Effective(e: End) { !e.NotDone? }

  /** The files that are kept in both stores. */
  predicate InBoth(f: Target) { f.tpe != Config && (f.cacheable || f.tpe != Pack) }

  predicate ReadsHot(f: Target) { f.cacheable || f.tpe != Pack }

  function Key(f: Target): (FileType, nat) { (f.tpe, f.id) }

  /** Both stores. What is written for an id is always the same: `bytes` gives it. */
  datatype Stores = Stores(cold: Store, hot: Store)

  datatype Op = Write(file: Target, hotEnd: End, coldEnd: End) | Remove(file: Target, hotEnd: End, coldEnd: End)

  function Put(s: Store, f: Target, bytes: ((FileType, nat)) -> nat, e: End): Store
  {
    if Effective(e) then s[Key(f) := bytes(Key(f))] else s
  }

  function Drop(s: Store, f: Target, e: End): Store { if Effective(e) then s - {Key(f)} else s }

  function Apply(bytes: ((FileType, nat)) -> nat, s: Stores, op: Op): (r: (Stores, bool))
  {
    match op
    case Write(f, hotEnd, coldEnd) =>
      var hot := if InBoth(f) then Put(s.hot, f, bytes, hotEnd) else s.hot;
      if InBoth(f) && !hotEnd.Done? then (s.(hot := hot), false)
      else (Stores(Put(s.cold, f, bytes, coldEnd), hot), coldEnd.Done?)
    case Remove(f, hotEnd, coldEnd) =>
      var cold := Drop(s.cold, f, coldEnd);
      if !coldEnd.Done? then (s.(cold := cold), false)
      else if ReadsHot(f) then (Stores(cold, Drop(s.hot, f, hotEnd)), hotEnd.Done?)
      else (s.(cold := cold), true)
  }

  class HotColdBackend {
    var cold: Store
    var hot: Store
    const bytes: ((FileType, nat)) -> nat

    ghost function State(): (s: Stores)
      reads this
    {
      Stores(cold, hot)
    }

    constructor (bytes: ((FileType, nat)) -> nat)
      ensures State() == Stores(map[], map[]) && this.bytes == bytes
    {
      this.bytes, cold, hot := bytes, map[], map[];
    }

    method WriteBytes(f: Target, hotEnd: End, coldEnd: End) returns (ok: bool)
      modifies this
      ensures (State(), ok) == Apply(bytes, old(State()), Write(f, hotEnd, coldEnd))
    {
      if InBoth(f) {
        hot := Put(hot, f, bytes, hotEnd);
        if !hotEnd.Done? { return false; }
      }
      cold := Put(cold, f, bytes, coldEnd);
      ok := coldEnd.Done?;
    }

    method Remove(f: Target, hotEnd: End, coldEnd: End) returns (ok: bool)
      modifies this
      ensures (State(), ok) == Apply(bytes, old(State()), Op.Remove(f, hotEnd, coldEnd))
    {
      cold := Drop(cold, f, coldEnd);
      if !coldEnd.Done? { return false; }
      if ReadsHot(f) {
        hot := Drop(hot, f, hotEnd);
        return hotEnd.Done?;
      }
      ok := true;
    }
  }

  // ---------------------------------------------------------------- every run

  /** Packs have one flag each: the one that `cacheable` says. */
  predicate Consistent(cacheable: nat -> bool, ops: seq<Op>)
  {
    forall op :: op in ops && op.file.tpe == Pack ==> op.file.cacheable == cacheable(op.file.id)
  }

  function Run(bytes: ((FileType, nat)) -> nat, s: Stores, ops: seq<Op>): Stores
    decreases |ops|
  {
    if ops == [] then s else Run(bytes, Apply(bytes, s, ops[0]).0, ops[1..])
  }

  predicate Mirrored(cacheable: nat -> bool, k: (FileType, nat)) { k.0 != Config && (k.0 != Pack || cacheable(k.1)) }

  /** What belongs into both stores and is in the cold one is in the hot one; nothing else is there; and
      all contents are those of the ids. */
  ghost predicate Inv(bytes: ((FileType, nat)) -> nat, cacheable: nat -> bool, s: Stores)
  {
    && (forall k :: k in s.cold && Mirrored(cacheable, k) ==> k in s.hot)
    && (forall k :: k in s.hot ==> Mirrored(cacheable, k))
    && (forall k :: k in s.cold ==> s.cold[k] == bytes(k))
    && (forall k :: k in s.hot ==> s.hot[k] == bytes(k))
  }

  lemma {:induction false} ApplyKeeps(bytes: ((FileType, nat)) -> nat, cacheable: nat -> bool, s: Stores, op: Op)
    requires Inv(bytes, cacheable, s) && (op.file.tpe == Pack ==> op.file.cacheable == cacheable(op.file.id))
    ensures Inv(bytes, cacheable, Apply(bytes, s, op).0)
  {
    assert InBoth(op.file) <==> Mirrored(cacheable, Key(op.file));
  }

  lemma {:induction false} RunKeeps(bytes: ((FileType, nat)) -> nat, cacheable: nat -> bool, s: Stores, ops: seq<Op>)
    requires Inv(bytes, cacheable, s) && Consistent(cacheable, ops)
    ensures Inv(bytes, cacheable, Run(bytes, s, ops))
    decreases |ops|
  {
    if ops != [] {
      assert ops[0] in ops;
      ApplyKeeps(bytes, cacheable, s, ops[0]);
      RunKeeps(bytes, cacheable, Apply(bytes, s, ops[0]).0, ops[1..]);
    }
  }

  /** What is reported: success exactly if every store that the operation touches reports it; then a written file is
      in every store that it belongs to, with its contents, and a removed one is in none. Other files stay. */
  lemma {:induction false} SuccessMeansDone(bytes: ((FileType, nat)) -> nat, cacheable: nat -> bool, s: Stores, op: Op)
    requires Inv(bytes, cacheable, s) && (op.file.tpe == Pack ==> op.file.cacheable == cacheable(op.file.id))
    ensures var (t, ok) := Apply(bytes, s, op);
      && (ok <==>
            op.coldEnd.Done? && ((if op.Write? then InBoth(op.file) else ReadsHot(op.file)) ==> op.hotEnd.Done?))
      && (op.Write? && ok ==> Key(op.file) in t.cold && t.cold[Key(op.file)] == bytes(Key(op.file)))
      && (op.Write? && ok && Mirrored(cacheable, Key(op.file)) ==>
            Key(op.file) in t.hot && t.hot[Key(op.file)] == bytes(Key(op.file)))
      && (op.Remove? && ok ==> Key(op.file) !in t.cold && Key(op.file) !in t.hot)
      && forall k :: k != Key(op.file) ==> (k in t.cold <==> k in s.cold) && (k in t.hot <==> k in s.hot)
  {
    assert InBoth(op.file) <==> Mirrored(cacheable, Key(op.file));
  }

  /** `list_with_size` lists the cold store; `read_full` reads the hot one. */
  predicate Listed(s: Stores, k: (FileType, nat)) { k in s.cold }

  function ReadFull(s: Stores, k: (FileType, nat)): Option<nat> { if k in s.hot then Some(s.hot[k]) else None }

  function ReadPartial(s: Stores, f: Target): Option<nat>
  {
    if ReadsHot(f) then ReadFull(s, Key(f)) else if Key(f) in s.cold then Some(s.cold[Key(f)]) else None
  }

  /** After any run of writes and removes, each ending or failing at any point: a listed file can be read
      in full if and only if it belongs into both stores, and in part, with its own flag, if and only
      if it is not the config file; and what is read is what belongs to the id. */
  lemma {:induction false} ListedIsReadable(bytes: ((FileType, nat)) -> nat, cacheable: nat -> bool, ops: seq<Op>,
                                            f: Target)
    requires Consistent(cacheable, ops) && (f.tpe == Pack ==> f.cacheable == cacheable(f.id))
    requires Listed(Run(bytes, Stores(map[], map[]), ops), Key(f))
    ensures var s := Run(bytes, Stores(map[], map[]), ops);
      && ReadFull(s, Key(f)) == (if InBoth(f) then Some(bytes(Key(f))) else None)
      && ReadPartial(s, f) == (if f.tpe != Config then Some(bytes(Key(f))) else None)
  {
    RunKeeps(bytes, cacheable, Stores(map[], map[]), ops);
    assert InBoth(f) <==> Mirrored(cacheable, Key(f));
  }

  /** Any pack that is once called cacheable and once not can be listed and yet be gone from the hot store. */
  lemma {:induction false} MixedFlagsLoseHotCopy(bytes: ((FileType, nat)) -> nat, id: nat)
    ensures var c, n := Target(Pack, id, true), Target(Pack, id, false);
      var s := Run(bytes, Stores(map[], map[]), [Write(c, Done, Done), Remove(c, Done, Done), Write(n, Done, Done)]);
      Listed(s, Key(c)) && ReadPartial(s, c) == None
  {
    var c, n := Target(Pack, id, true), Target(Pack, id, false);
    var s0 := Stores(map[], map[]);
    var a, b, d := Write(c, Done, Done), Remove(c, Done, Done), Write(n, Done, Done);
    assert [a, b, d][1..] == [b, d] && [b, d][1..] == [d];
    var s1 := Apply(bytes, s0, a).0;
    var s2 := Apply(bytes, s1, b).0;
    assert Run(bytes, s0, [a, b, d]) == Run(bytes, s2, [d]) == Apply(bytes, s2, d).0;
  }

  // ---------------------------------------------------------------- operations that overlap

  /** An operation between its two steps: the hot copy is written, or the cold copy removed. */
  datatype Half = Writing(file: Target) | Removing(file: Target)

  /** Both stores, and the operations under way by number. */
  datatype Shared = Shared(stores: Stores, running: map<nat, Half>)

  datatype Step =
    | BeginWrite(i: nat, file: Target, end: End)
    | EndWrite(i: nat, end: End)
    | BeginRemove(i: nat, file: Target, end: End)
    | EndRemove(i: nat, end: End)

  predicate Enabled(x: Shared, step: Step)
  {
    match step
    case BeginWrite(i, f, e) => i !in x.running
    case BeginRemove(i, f, e) => i !in x.running
    case EndWrite(i, e) => i in x.running && x.running[i].Writing?
    case EndRemove(i, e) => i in x.running && x.running[i].Removing?
  }

  /** One step on one store. Files that are in one store only need a single step. */
  function Take(bytes: ((FileType, nat)) -> nat, x: Shared, step: Step): Shared
    requires Enabled(x, step)
  {
    var s := x.stores;
    match step
    case BeginWrite(i, f, e) =>
      if !InBoth(f) then x.(stores := s.(cold := Put(s.cold, f, bytes, e)))
      else Shared(s.(hot := Put(s.hot, f, bytes, e)), if e.Done? then x.running[i := Writing(f)] else x.running)
    case EndWrite(i, e) => Shared(s.(cold := Put(s.cold, x.running[i].file, bytes, e)), x.running - {i})
    case BeginRemove(i, f, e) =>
      Shared(s.(cold := Drop(s.cold, f, e)), if e.Done? && ReadsHot(f) then x.running[i := Removing(f)] else x.running)
    case EndRemove(i, e) => Shared(s.(hot := Drop(s.hot, x.running[i].file, e)), x.running - {i})
  }

  /** The two steps of an operation one after the other are the operation. */
  lemma {:induction false} StepsAreOp(bytes: ((FileType, nat)) -> nat, x: Shared, i: nat, op: Op)
    requires i !in x.running
    ensures var first := if op.Write? then BeginWrite(i, op.file, if InBoth(op.file) then op.hotEnd else op.coldEnd)
                         else BeginRemove(i, op.file, op.coldEnd);
      var y := Take(bytes, x, first);
      var z := if i !in y.running then y
               else Take(bytes, y, if op.Write? then EndWrite(i, op.coldEnd) else EndRemove(i, op.hotEnd));
      z == Shared(Apply(bytes, x.stores, op).0, x.running)
  {
    assert x.running[i := Writing(op.file)] - {i} == x.running == x.running[i := Removing(op.file)] - {i};
  }

  /** No write starts during a remove of the same file, and no remove during a write of it. */
  ghost predicate Apart(x: Shared, step: Step)
  {
    && (step.BeginWrite? ==> forall j :: j in x.running && x.running[j].Removing? ==>
        Key(x.running[j].file) != Key(step.file))
    && (step.BeginRemove? ==> forall j :: j in x.running && x.running[j].Writing? ==>
        Key(x.running[j].file) != Key(step.file))
  }

  predicate Flagged(cacheable: nat -> bool, f: Target) { f.tpe == Pack ==> f.cacheable == cacheable(f.id) }

  ghost predicate StepFlagged(cacheable: nat -> bool, step: Step)
  {
    step.BeginWrite? || step.BeginRemove? ==> Flagged(cacheable, step.file)
  }

  /** What is being written is in the hot store, what is being removed is not in the cold one, and nothing is both. */
  ghost predicate HalvesOk(cacheable: nat -> bool, x: Shared)
  {
    && (forall i :: i in x.running ==> Flagged(cacheable, x.running[i].file) && ReadsHot(x.running[i].file))
    && (forall i :: i in x.running && x.running[i].Writing? ==>
          Key(x.running[i].file) in x.stores.hot && InBoth(x.running[i].file))
    && (forall i :: i in x.running && x.running[i].Removing? ==> Key(x.running[i].file) !in x.stores.cold)
    && (forall i, j :: i in x.running && j in x.running && x.running[i].Writing? && x.running[j].Removing? ==>
          Key(x.running[i].file) != Key(x.running[j].file))
  }

  ghost predicate Safe(bytes: ((FileType, nat)) -> nat, cacheable: nat -> bool, x: Shared)
  {
    Inv(bytes, cacheable, x.stores) && HalvesOk(cacheable, x)
  }

  lemma {:induction false} BeginWriteKeeps(bytes: ((FileType, nat)) -> nat, cacheable: nat -> bool, x: Shared,
                                           step: Step)
    requires Safe(bytes, cacheable, x) && step.BeginWrite?
    requires Enabled(x, step) && Apart(x, step) && StepFlagged(cacheable, step)
    ensures Safe(bytes, cacheable, Take(bytes, x, step))
  {
    assert InBoth(step.file) <==> Mirrored(cacheable, Key(step.file));
    PutKeeps(bytes, cacheable, x.stores, step.file, step.end);
  }

  /** A write of the hot copy, or of the only copy. */
  lemma {:induction false} PutKeeps(bytes: ((FileType, nat)) -> nat, cacheable: nat -> bool, s: Stores, f: Target,
                                    e: End)
    requires Inv(bytes, cacheable, s) && Flagged(cacheable, f)
    ensures Inv(bytes, cacheable,
                if InBoth(f) then s.(hot := Put(s.hot, f, bytes, e)) else s.(cold := Put(s.cold, f, bytes, e)))
  {
    assert InBoth(f) <==> Mirrored(cacheable, Key(f));
  }

  lemma {:induction false} BeginRemoveKeeps(bytes: ((FileType, nat)) -> nat, cacheable: nat -> bool, x: Shared,
                                            step: Step)
    requires Safe(bytes, cacheable, x) && step.BeginRemove?
    requires Enabled(x, step) && Apart(x, step) && StepFlagged(cacheable, step)
    ensures Safe(bytes, cacheable, Take(bytes, x, step))
  {
  }

  lemma {:induction false} EndKeeps(bytes: ((FileType, nat)) -> nat, cacheable: nat -> bool, x: Shared, step: Step)
    requires Safe(bytes, cacheable, x) && (step.EndWrite? || step.EndRemove?) && Enabled(x, step)
    ensures Safe(bytes, cacheable, Take(bytes, x, step))
  {
    var f := x.running[step.i].file;
    assert InBoth(f) <==> Mirrored(cacheable, Key(f));
  }

  lemma {:induction false} StepKeeps(bytes: ((FileType, nat)) -> nat, cacheable: nat -> bool, x: Shared, step: Step)
    requires Safe(bytes, cacheable, x) && Enabled(x, step) && Apart(x, step) && StepFlagged(cacheable, step)
    ensures Safe(bytes, cacheable, Take(bytes, x, step))
  {
    if step.BeginWrite? { BeginWriteKeeps(bytes, cacheable, x, step); }
    else if step.BeginRemove? { BeginRemoveKeeps(bytes, cacheable, x, step); }
    else { EndKeeps(bytes, cacheable, x, step); }
  }

  ghost predicate SharedRun(bytes: ((FileType, nat)) -> nat, trace: seq<Shared>, steps: seq<Step>)
  {
    && |trace| == |steps| + 1 && trace[0] == Shared(Stores(map[], map[]), map[])
    && forall n :: 0 <= n < |steps| ==> Enabled(trace[n], steps[n]) && trace[n + 1] == Take(bytes, trace[n], steps[n])
  }

  lemma {:induction false} SharedRunKeeps(bytes: ((FileType, nat)) -> nat, cacheable: nat -> bool, trace: seq<Shared>,
                                          steps: seq<Step>, n: nat)
    requires SharedRun(bytes, trace, steps) && n < |trace|
    requires forall m :: 0 <= m < |steps| ==> Apart(trace[m], steps[m]) && StepFlagged(cacheable, steps[m])
    ensures Safe(bytes, cacheable, trace[n])
  {
    if n > 0 {
      SharedRunKeeps(bytes, cacheable, trace, steps, n - 1);
      StepKeeps(bytes, cacheable, trace[n - 1], steps[n - 1]);
    }
  }

  /** At every point of every run of overlapping operations, as long as no write of a file overlaps a remove of
      it: a listed file that belongs into both stores is read as what belongs to its id. */
  lemma {:induction false} ListedWhileRunning(bytes: ((FileType, nat)) -> nat, cacheable: nat -> bool,
                                              trace: seq<Shared>,
                                              steps: seq<Step>, n: nat, f: Target)
    requires SharedRun(bytes, trace, steps) && n < |trace|
    requires forall m :: 0 <= m < |steps| ==> Apart(trace[m], steps[m]) && StepFlagged(cacheable, steps[m])
    requires Flagged(cacheable, f) && InBoth(f) && Listed(trace[n].stores, Key(f))
    ensures ReadFull(trace[n].stores, Key(f)) == Some(bytes(Key(f))) == ReadPartial(trace[n].stores, f)
  {
    SharedRunKeeps(bytes, cacheable, trace, steps, n);
    assert Mirrored(cacheable, Key(f));
  }

  /** If a write and a remove of the same file overlap and both succeed, in whatever order they end, the file is
      listed and cannot be read. */
  lemma {:induction false} OverlapLoses(bytes: ((FileType, nat)) -> nat, x: Shared, i: nat, j: nat, writeFirst: bool)
    requires i in x.running && j in x.running && x.running[i].Writing? && x.running[j].Removing?
    requires Key(x.running[i].file) == Key(x.running[j].file)
    ensures var k := Key(x.running[i].file);
      var first, second := if writeFirst then EndWrite(i, Done) else EndRemove(j, Done),
                           if writeFirst then EndRemove(j, Done) else EndWrite(i, Done);
      var y := Take(bytes, x, first);
      Enabled(y, second) && var z := Take(bytes, y, second);
      Listed(z.stores, k) && ReadFull(z.stores, k) == None
  {
    assert i != j;
  }
}
