/** `KeepOptions::apply`: the loop with its counters, against the rule it implements. */
module Retention {
  import opened Repo

  datatype DeleteOption = NotSet | Never | After(time: int)

  datatype Snapshot = Snapshot(id: nat, time: int, tree: nat, delete: DeleteOption)

  predicate MustKeep(sn: Snapshot, now: int) { sn.delete.Never? || (sn.delete.After? && sn.delete.time >= now) }

  predicate MustDelete(sn: Snapshot, now: int) { sn.delete.After? && sn.delete.time < now }

  /** One period: when two snapshots fall into the same one, how many to keep (any number if negative),
      and how close to the latest snapshot (None if not asked for). */
  datatype Rule = Rule(same: (Snapshot, Snapshot) -> bool, keep: Option<int>, within: Option<(Snapshot, int) -> bool>)

  datatype Options = Options(
    rules: seq<Rule>,
    keepIds: Option<Snapshot -> bool>,
    keepTags: Option<Snapshot -> bool>,
    keepNone: bool,
    deleteUnchanged: bool)

  datatype Reason = Id | Tags | Count(rule: nat) | Within(rule: nat) | Forced | Unchanged

  datatype Decision = Decision(snapshot: Snapshot, keep: bool, reasons: seq<Reason>)

  predicate IsValid(o: Options)
  {
    || o.keepIds.Some? || o.keepTags.Some? || o.keepNone
    || exists r :: 0 <= r < |o.rules| && (o.rules[r].keep.Some? || o.rules[r].within.Some?)
  }

  // ---------------------------------------------------------------- the rule

  /** The snapshot is looked at by the keep-* options: newest first in s. */
  predicate Evaluated(o: Options, s: seq<Snapshot>, now: int, i: nat)
    requires i < |s|
  {
    && !MustKeep(s[i], now) && !MustDelete(s[i], now)
    && !(o.deleteUnchanged && i + 1 < |s| && s[i + 1].tree == s[i].tree)
  }

  /** It starts a period: the next newer one is in another period, or there is none, or none is older. */
  predicate Starts(rule: Rule, s: seq<Snapshot>, i: nat)
    requires i < |s|
  {
    i + 1 == |s| || i == 0 || !rule.same(s[i], s[i - 1])
  }

  /** How many evaluated snapshots newer than the i-th start a period of the rule. */
  function Starters(o: Options, s: seq<Snapshot>, now: int, r: nat, i: nat): nat
    requires r < |o.rules| && i <= |s|
  {
    if i == 0 then 0
    else Starters(o, s, now, r, i - 1) + if Evaluated(o, s, now, i - 1) && Starts(o.rules[r], s, i - 1) then 1 else 0
  }

  /** A limit leaves room for one more after `used`. */
  predicate Allows(keep: Option<int>, used: nat) { keep.Some? && (keep.value < 0 || used < keep.value) }

  predicate ByCount(o: Options, s: seq<Snapshot>, now: int, r: nat, i: nat)
    requires r < |o.rules| && i < |s|
  {
    Evaluated(o, s, now, i) && Starts(o.rules[r], s, i) && Allows(o.rules[r].keep, Starters(o, s, now, r, i))
  }

  predicate ByWithin(o: Options, s: seq<Snapshot>, now: int, r: nat, i: nat)
    requires r < |o.rules| && i < |s|
  {
    Evaluated(o, s, now, i) && Starts(o.rules[r], s, i) && o.rules[r].within.Some? &&
        o.rules[r].within.value(s[i], s[0].time)
  }

  predicate ById(o: Options, sn: Snapshot) { o.keepIds.Some? && o.keepIds.value(sn) }

  predicate ByTags(o: Options, sn: Snapshot) { o.keepTags.Some? && o.keepTags.value(sn) }

  /** What is kept. */
  ghost predicate Kept(o: Options, s: seq<Snapshot>, now: int, i: nat)
    requires i < |s|
  {
    || MustKeep(s[i], now)
    || (Evaluated(o, s, now, i) && (ById(o, s[i]) || ByTags(o, s[i])))
    || exists r :: 0 <= r < |o.rules| && (ByCount(o, s, now, r, i) || ByWithin(o, s, now, r, i))
  }

  // ---------------------------------------------------------------- the counters

  /** A counter after `used` periods were counted. */
  function Left(keep: Option<int>, used: nat): Option<int>
  {
    if keep.None? || keep.value < 0 then keep else Some(if used <= keep.value then keep.value - used else 0)
  }

  function Spent(counter: Option<int>): Option<int>
  {
    if counter.Some? && counter.value > 0 then Some(counter.value - 1) else counter
  }

  lemma {:induction false} LeftSpent(keep: Option<int>, used: nat)
    ensures Spent(Left(keep, used)) == Left(keep, used + 1)
    ensures Allows(keep, used) <==> Left(keep, used).Some? && Left(keep, used).value != 0
  {
  }

  function RuleReasons(rule: Rule, r: nat, starts: bool, counter: Option<int>, sn: Snapshot, latest: int): seq<Reason>
  {
    if !starts then []
    else
      (if counter.Some? && counter.value != 0 then [Count(r)] else [])
        + (if rule.within.Some? && rule.within.value(sn, latest) then [Within(r)] else [])
  }

  predicate StartsHere(rule: Rule, sn: Snapshot, last: Option<Snapshot>, hasNext: bool)
  {
    !hasNext || last.None? || !rule.same(sn, last.value)
  }

  function Basic(o: Options, sn: Snapshot): seq<Reason>
  {
    (if ById(o, sn) then [Id] else []) + (if ByTags(o, sn) then [Tags] else [])
  }

  /** The reasons of the periods, one list for each. */
  function Parts(o: Options, counters: seq<Option<int>>, sn: Snapshot, last: Option<Snapshot>, hasNext: bool,
                 latest: int): (p: seq<seq<Reason>>)
    requires |counters| == |o.rules|
    ensures |p| == |o.rules|
    ensures forall r :: 0 <= r < |p| ==>
              p[r] == RuleReasons(o.rules[r], r, StartsHere(o.rules[r], sn, last, hasNext), counters[r], sn, latest)
  {
    seq(|o.rules|, r requires 0 <= r < |o.rules| =>
      RuleReasons(o.rules[r], r, StartsHere(o.rules[r], sn, last, hasNext), counters[r], sn, latest))
  }

  function Flat(parts: seq<seq<Reason>>): seq<Reason>
  {
    if parts == [] then [] else Flat(parts[..|parts| - 1]) + parts[|parts| - 1]
  }

  lemma {:induction false} FlatMore(parts: seq<seq<Reason>>, k: nat)
    requires k < |parts|
    ensures Flat(parts[..k + 1]) == Flat(parts[..k]) + parts[k]
  {
    assert parts[..k + 1][..k] == parts[..k];
  }

  lemma {:induction false} InFlat(parts: seq<seq<Reason>>, x: Reason)
    ensures x in Flat(parts) <==> exists r :: 0 <= r < |parts| && x in parts[r]
    decreases |parts|
  {
    if parts != [] {
      var init, n := parts[..|parts| - 1], |parts| - 1;
      InFlat(init, x);
      if r :| 0 <= r < |init| && x in init[r] { assert parts[r] == init[r]; }
      if r :| 0 <= r < |parts| && x in parts[r] { assert r < n ==> init[r] == parts[r]; }
    }
  }

  function MatchReasons(o: Options, counters: seq<Option<int>>, sn: Snapshot, last: Option<Snapshot>, hasNext: bool,
                        latest: int): seq<Reason>
    requires |counters| == |o.rules|
  {
    Basic(o, sn) + Flat(Parts(o, counters, sn, last, hasNext, latest))
  }

  /** The counters of the first k periods have gone down where the snapshot starts a period. */
  ghost predicate SpentUpTo(o: Options, before: seq<Option<int>>, after: seq<Option<int>>, sn: Snapshot,
                            last: Option<Snapshot>, hasNext: bool, k: nat)
  {
    && |before| == |after| == |o.rules|
    && forall r :: 0 <= r < |after| ==>
         after[r] == if r < k && StartsHere(o.rules[r], sn, last, hasNext) then Spent(before[r]) else before[r]
  }

  class Keeper {
    const o: Options
    var counters: seq<Option<int>>

    constructor (o: Options)
      ensures this.o == o && |counters| == |o.rules|
      ensures forall r :: 0 <= r < |counters| ==> counters[r] == o.rules[r].keep
    {
      this.o := o;
      counters := seq(|o.rules|, r requires 0 <= r < |o.rules| => o.rules[r].keep);
    }

    /** `matches`: the reasons to keep a snapshot; the counters of the periods it starts go down. */
    method Matches(sn: Snapshot, last: Option<Snapshot>, hasNext: bool, latest: int) returns (reasons: seq<Reason>)
      requires |counters| == |o.rules|
      modifies this
      ensures |counters| == |o.rules|
      ensures reasons == MatchReasons(o, old(counters), sn, last, hasNext, latest)
      ensures forall r :: 0 <= r < |counters| ==>
        counters[r] == if StartsHere(o.rules[r], sn, last, hasNext) then Spent(old(counters)[r]) else old(counters)[r]
    {
      reasons := CheckBasic(sn);
      ghost var parts := Parts(o, counters, sn, last, hasNext, latest);
      assert parts[..0] == [] && reasons + [] == reasons;
      for r := 0 to |o.rules|
        invariant reasons == Basic(o, sn) + Flat(parts[..r])
        invariant SpentUpTo(o, old(counters), counters, sn, last, hasNext, r)
      {
        var more := CheckRule(r, sn, StartsHere(o.rules[r], sn, last, hasNext), latest);
        FlatMore(parts, r);
        Assoc(Basic(o, sn), Flat(parts[..r]), parts[r]);
        reasons := reasons + more;
      }
      assert parts[..|parts|] == parts;
    }

    method CheckBasic(sn: Snapshot) returns (reasons: seq<Reason>)
      ensures reasons == Basic(o, sn)
    {
      reasons := [];
      if ById(o, sn) { reasons := reasons + [Id]; }
      if ByTags(o, sn) { reasons := reasons + [Tags]; }
    }

    /** One turn of the loop over the periods. */
    method CheckRule(r: nat, sn: Snapshot, starts: bool, latest: int) returns (reasons: seq<Reason>)
      requires |counters| == |o.rules| && r < |counters|
      modifies this
      ensures reasons == RuleReasons(o.rules[r], r, starts, old(counters)[r], sn, latest)
      ensures counters == if starts then old(counters)[r := Spent(old(counters)[r])] else old(counters)
    {
      reasons := [];
      if starts {
        var counter := counters[r];
        if counter.Some? && counter.value != 0 {
          reasons := [Count(r)];
          if counter.value > 0 { counters := counters[r := Some(counter.value - 1)]; }
        }
        if o.rules[r].within.Some? && o.rules[r].within.value(sn, latest) { reasons := reasons + [Within(r)]; }
      }
    }
  }

  /** What is decided about the i-th snapshot, with the counters as the rule says they are. */
  function Decide(o: Options, s: seq<Snapshot>, now: int, i: nat): Decision
    requires i < |s|
  {
    if MustKeep(s[i], now) then Decision(s[i], true, [Forced])
    else if MustDelete(s[i], now) then Decision(s[i], false, [Forced])
    else if !Evaluated(o, s, now, i) then Decision(s[i], false, [Unchanged])
    else
      var reasons := MatchReasons(o, Counters(o, s, now, i), s[i], Newer(s, i), i + 1 < |s|, s[0].time);
      Decision(s[i], reasons != [], reasons)
  }

  function Counters(o: Options, s: seq<Snapshot>, now: int, i: nat): (c: seq<Option<int>>)
    requires i <= |s|
    ensures |c| == |o.rules| && forall r :: 0 <= r < |c| ==> c[r] == Left(o.rules[r].keep, Starters(o, s, now, r, i))
  {
    seq(|o.rules|, r requires 0 <= r < |o.rules| => Left(o.rules[r].keep, Starters(o, s, now, r, i)))
  }

  function Newer(s: seq<Snapshot>, i: nat): Option<Snapshot>
    requires i <= |s|
  {
    if i == 0 then None else Some(s[i - 1])
  }

  ghost predicate NewestFirst(s: seq<Snapshot>)
  {
    forall i, j :: 0 <= i < j < |s| ==> s[i].time >= s[j].time
  }

  lemma {:induction false} StartsHereIs(rule: Rule, s: seq<Snapshot>, i: nat)
    requires i < |s|
    ensures StartsHere(rule, s[i], Newer(s, i), i + 1 < |s|) <==> Starts(rule, s, i)
  {
  }

  lemma {:induction false} CountersStep(o: Options, s: seq<Snapshot>, now: int, i: nat, r: nat)
    requires i < |s| && r < |o.rules|
    ensures Counters(o, s, now, i + 1)[r] ==
      if Evaluated(o, s, now, i) && Starts(o.rules[r], s, i) then Spent(Counters(o, s, now, i)[r])
      else Counters(o, s, now, i)[r]
  {
    LeftSpent(o.rules[r].keep, Starters(o, s, now, r, i));
  }

  /** One turn of the loop of `apply`. */
  method DecideOne(k: Keeper, s: seq<Snapshot>, now: int, i: nat) returns (d: Decision)
    requires i < |s| && k.counters == Counters(k.o, s, now, i)
    modifies k
    ensures d == Decide(k.o, s, now, i) && k.counters == Counters(k.o, s, now, i + 1)
  {
    var sn := s[i];
    forall r | 0 <= r < |k.o.rules| ensures
      && Counters(k.o, s, now, i + 1)[r] == (if Evaluated(k.o, s, now, i) && Starts(k.o.rules[r], s, i)
                                             then Spent(Counters(k.o, s, now, i)[r]) else Counters(k.o, s, now, i)[r])
      && (StartsHere(k.o.rules[r], s[i], Newer(s, i), i + 1 < |s|) <==> Starts(k.o.rules[r], s, i))
    {
      CountersStep(k.o, s, now, i, r);
      StartsHereIs(k.o.rules[r], s, i);
    }
    if MustKeep(sn, now) {
      d := Decision(sn, true, [Forced]);
    } else if MustDelete(sn, now) {
      d := Decision(sn, false, [Forced]);
    } else if k.o.deleteUnchanged && i + 1 < |s| && s[i + 1].tree == sn.tree {
      d := Decision(sn, false, [Unchanged]);
    } else {
      var reasons := k.Matches(sn, Newer(s, i), i + 1 < |s|, s[0].time);
      d := Decision(sn, reasons != [], reasons);
    }
    assert k.counters == Counters(k.o, s, now, i + 1);
  }

  /** `apply`; None is the error for options without any keep-* option. `sorted` is any order of the
      snapshots with the newest first. */
  method Apply(o: Options, snapshots: seq<Snapshot>, sorted: seq<Snapshot>, now: int) returns (r: Option<seq<Decision>>)
    requires multiset(sorted) == multiset(snapshots) && NewestFirst(sorted)
    ensures r.Some? <==> IsValid(o)
    ensures r.Some? ==> |r.value| == |sorted|
    ensures r.Some? ==> forall i :: 0 <= i < |sorted| ==> r.value[i] == Decide(o, sorted, now, i)
  {
    if !IsValid(o) { return None; }
    var k := new Keeper(o);
    assert k.counters == Counters(o, sorted, now, 0);
    var snaps: seq<Decision> := [];
    for i := 0 to |sorted|
      invariant k.o == o && k.counters == Counters(o, sorted, now, i) && |snaps| == i
      invariant forall j :: 0 <= j < i ==> snaps[j] == Decide(o, sorted, now, j)
    {
      var d := DecideOne(k, sorted, now, i);
      snaps := snaps + [d];
    }
    r := Some(snaps);
  }

  // ---------------------------------------------------------------- what the loop decides

  function OneList(count: bool, within: bool, r: nat): seq<Reason>
  {
    (if count then [Count(r)] else []) + (if within then [Within(r)] else [])
  }

  lemma {:induction false} InOneList(count: bool, within: bool, r: nat, x: Reason)
    ensures x in OneList(count, within, r) <==> (x == Count(r) && count) || (x == Within(r) && within)
  {
  }

  lemma {:induction false} InBasic(o: Options, sn: Snapshot, x: Reason)
    ensures x in Basic(o, sn) <==> (x == Id && ById(o, sn)) || (x == Tags && ByTags(o, sn))
  {
  }

  /** A turn of `matches` collects what the rule says. */
  lemma {:induction false} ReasonsOfRule(o: Options, s: seq<Snapshot>, now: int, i: nat, r: nat)
    requires i < |s| && r < |o.rules| && Evaluated(o, s, now, i)
    ensures RuleReasons(o.rules[r], r, StartsHere(o.rules[r], s[i], Newer(s, i), i + 1 < |s|),
              Counters(o, s, now, i)[r], s[i], s[0].time)
         == OneList(ByCount(o, s, now, r, i), ByWithin(o, s, now, r, i), r)
  {
    StartsHereIs(o.rules[r], s, i);
    LeftSpent(o.rules[r].keep, Starters(o, s, now, r, i));
  }

  /** The reasons the rule gives to an evaluated snapshot. */
  ghost predicate Deserves(o: Options, s: seq<Snapshot>, now: int, i: nat, x: Reason)
    requires i < |s|
  {
    || (x == Id && ById(o, s[i])) || (x == Tags && ByTags(o, s[i]))
    || exists r: nat :: r < |o.rules| && DeservesFor(o, s, now, i, r, x)
  }

  predicate DeservesFor(o: Options, s: seq<Snapshot>, now: int, i: nat, r: nat, x: Reason)
    requires i < |s| && r < |o.rules|
  {
    (x == Count(r) && ByCount(o, s, now, r, i)) || (x == Within(r) && ByWithin(o, s, now, r, i))
  }

  lemma {:induction false} PartDeserved(o: Options, s: seq<Snapshot>, now: int, i: nat, r: nat, x: Reason)
    requires i < |s| && r < |o.rules| && Evaluated(o, s, now, i)
    ensures x in Parts(o, Counters(o, s, now, i), s[i], Newer(s, i), i + 1 < |s|, s[0].time)[r] <==>
              DeservesFor(o, s, now, i, r, x)
  {
    ReasonsOfRule(o, s, now, i, r);
    InOneList(ByCount(o, s, now, r, i), ByWithin(o, s, now, r, i), r, x);
  }

  lemma {:induction false} ReasonsOfRules(o: Options, s: seq<Snapshot>, now: int, i: nat, x: Reason)
    requires i < |s| && Evaluated(o, s, now, i)
    ensures x in Decide(o, s, now, i).reasons <==> Deserves(o, s, now, i, x)
  {
    var parts := Parts(o, Counters(o, s, now, i), s[i], Newer(s, i), i + 1 < |s|, s[0].time);
    InBasic(o, s[i], x);
    InFlat(parts, x);
    forall r: nat | r < |o.rules|
      ensures x in parts[r] <==> DeservesFor(o, s, now, i, r, x) { PartDeserved(o, s, now, i, r, x); }
  }

  lemma {:induction false} CountOrWithin(o: Options, s: seq<Snapshot>, now: int, i: nat, r: nat)
    requires i < |s| && Evaluated(o, s, now, i)
    ensures Count(r) in Decide(o, s, now, i).reasons <==> r < |o.rules| && ByCount(o, s, now, r, i)
    ensures Within(r) in Decide(o, s, now, i).reasons <==> r < |o.rules| && ByWithin(o, s, now, r, i)
  {
    ReasonsOfRules(o, s, now, i, Count(r));
    ReasonsOfRules(o, s, now, i, Within(r));
    if r < |o.rules| {
      assert DeservesFor(o, s, now, i, r, Count(r)) <==> ByCount(o, s, now, r, i);
      assert DeservesFor(o, s, now, i, r, Within(r)) <==> ByWithin(o, s, now, r, i);
    }
  }

  lemma {:induction false} DeservesIsKept(o: Options, s: seq<Snapshot>, now: int, i: nat, x: Reason)
    requires i < |s| && Evaluated(o, s, now, i) && Deserves(o, s, now, i, x)
    ensures Kept(o, s, now, i)
  {
    if r: nat :| r < |o.rules| && DeservesFor(o, s, now, i, r, x) {
      assert ByCount(o, s, now, r, i) || ByWithin(o, s, now, r, i);
    }
  }

  lemma {:induction false} KeptHasReason(o: Options, s: seq<Snapshot>, now: int, i: nat) returns (x: Reason)
    requires i < |s| && Evaluated(o, s, now, i) && Kept(o, s, now, i)
    ensures Deserves(o, s, now, i, x)
  {
    if ById(o, s[i]) {
      x := Id;
    } else if ByTags(o, s[i]) {
      x := Tags;
    } else {
      var r :| 0 <= r < |o.rules| && (ByCount(o, s, now, r, i) || ByWithin(o, s, now, r, i));
      x := if ByCount(o, s, now, r, i) then Count(r) else Within(r);
      assert DeservesFor(o, s, now, i, r, x);
    }
  }

  lemma {:induction false} KeepsByRule(o: Options, s: seq<Snapshot>, now: int, i: nat)
    requires i < |s| && Evaluated(o, s, now, i)
    ensures Decide(o, s, now, i).keep <==> Kept(o, s, now, i)
  {
    var all := Decide(o, s, now, i).reasons;
    if all != [] {
      ReasonsOfRules(o, s, now, i, all[0]);
      DeservesIsKept(o, s, now, i, all[0]);
    }
    if Kept(o, s, now, i) {
      var x := KeptHasReason(o, s, now, i);
      ReasonsOfRules(o, s, now, i, x);
    }
  }

  /** The loop refines the rule: a snapshot is kept if and only if the rule keeps it, and it has a
      period's reason if and only if it is evaluated, starts a period, and fewer newer evaluated
      snapshots than the limit start one (or lies within the time asked for). */
  lemma {:induction false} DecidesByRule(o: Options, s: seq<Snapshot>, now: int, i: nat, r: nat)
    requires i < |s|
    ensures var d := Decide(o, s, now, i);
      && d.snapshot == s[i] && (d.keep <==> Kept(o, s, now, i))
      && (Count(r) in d.reasons <==> r < |o.rules| && ByCount(o, s, now, r, i))
      && (Within(r) in d.reasons <==> r < |o.rules| && ByWithin(o, s, now, r, i))
  {
    if Evaluated(o, s, now, i) {
      KeepsByRule(o, s, now, i);
      CountOrWithin(o, s, now, i, r);
    }
  }

  function SnapshotsOf(ds: seq<Decision>): (r: seq<Snapshot>)
    ensures |r| == |ds| && forall i :: 0 <= i < |r| ==> r[i] == ds[i].snapshot
  {
    seq(|ds|, i requires 0 <= i < |ds| => ds[i].snapshot)
  }

  /** The decisions are about the given snapshots, each once. */
  lemma {:induction false} DecisionsPermute(o: Options, snapshots: seq<Snapshot>, sorted: seq<Snapshot>, now: int,
                                            ds: seq<Decision>)
    requires multiset(sorted) == multiset(snapshots) && |ds| == |sorted|
    requires forall i :: 0 <= i < |sorted| ==> ds[i] == Decide(o, sorted, now, i)
    ensures multiset(SnapshotsOf(ds)) == multiset(snapshots)
  {
    assert SnapshotsOf(ds) == sorted;
  }

  // ---------------------------------------------------------------- limits

  /** b keeps at least as many as a. */
  predicate AtLeast(b: Option<int>, a: Option<int>)
  {
    a.None? || a.value == 0 || (b.Some? && (b.value < 0 || 0 < a.value <= b.value))
  }

  /** The same options but for larger limits. */
  ghost predicate Raised(o: Options, p: Options)
  {
    && |p.rules| == |o.rules| && p == o.(rules := p.rules)
    && forall r :: 0 <= r < |o.rules| ==>
        p.rules[r] == o.rules[r].(keep := p.rules[r].keep) && AtLeast(p.rules[r].keep, o.rules[r].keep)
  }

  lemma {:induction false} SameStarters(o: Options, p: Options, s: seq<Snapshot>, now: int, r: nat, i: nat)
    requires Raised(o, p) && r < |o.rules| && i <= |s|
    ensures Starters(o, s, now, r, i) == Starters(p, s, now, r, i)
  {
    if i > 0 { SameStarters(o, p, s, now, r, i - 1); }
  }

  /** Raising any limit never turns a kept snapshot into a forgotten one. */
  lemma {:induction false} RaisingKeeps(o: Options, p: Options, s: seq<Snapshot>, now: int, i: nat)
    requires Raised(o, p) && i < |s| && Kept(o, s, now, i)
    ensures Kept(p, s, now, i)
  {
    if r :| 0 <= r < |o.rules| && (ByCount(o, s, now, r, i) || ByWithin(o, s, now, r, i)) {
      SameStarters(o, p, s, now, r, i);
      assert ByCount(p, s, now, r, i) || ByWithin(p, s, now, r, i);
    }
  }

  /** How many of the first i snapshots are kept by the count of a rule. */
  function Counted(o: Options, s: seq<Snapshot>, now: int, r: nat, i: nat): nat
    requires r < |o.rules| && i <= |s|
  {
    if i == 0 then 0 else Counted(o, s, now, r, i - 1) + if ByCount(o, s, now, r, i - 1) then 1 else 0
  }

  /** A limit N gives its reason to exactly N snapshots, or to all that start a period if these are fewer
      or N is negative. */
  lemma {:induction false} CountsExactly(o: Options, s: seq<Snapshot>, now: int, r: nat, i: nat)
    requires r < |o.rules| && i <= |s| && o.rules[r].keep.Some?
    ensures var n, all := o.rules[r].keep.value, Starters(o, s, now, r, i);
      Counted(o, s, now, r, i) == if n < 0 || all <= n then all else n
  {
    if i > 0 { CountsExactly(o, s, now, r, i - 1); }
  }
}
