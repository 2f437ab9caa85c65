/** What the keep rules mean: periods by their newest snapshots, and marks on single snapshots. */
module RetentionRule {
  import opened Repo
  import opened Retention

  /** Falling into one period is an equivalence, and the snapshots of a period are next to each other. */
  ghost predicate Periods(rule: Rule, s: seq<Snapshot>)
  {
    && (forall i :: 0 <= i < |s| ==> rule.same(s[i], s[i]))
    && (forall i, j :: 0 <= i < |s| && 0 <= j < |s| && rule.same(s[i], s[j]) ==> rule.same(s[j], s[i]))
    && (forall i, j, k :: 0 <= i <= j <= k < |s| && rule.same(s[k], s[i]) ==> rule.same(s[k], s[j]))
  }

  /** A snapshot starts its period if and only if it is the newest in it, or the oldest of all. */
  lemma {:induction false} StartsIsNewest(rule: Rule, s: seq<Snapshot>, i: nat)
    requires i < |s| && Periods(rule, s)
    ensures Starts(rule, s, i) <==> i + 1 == |s| || forall j :: 0 <= j < i ==> !rule.same(s[i], s[j])
  {
    forall j | 0 <= j < i && rule.same(s[i], s[j]) ensures rule.same(s[i], s[i - 1]) {
      assert 0 <= j <= i - 1 <= i;
    }
  }

  /** The next older snapshot has the same tree, and such ones are to be given up. */
  predicate Repeats(o: Options, s: seq<Snapshot>, i: nat)
    requires i < |s|
  {
    o.deleteUnchanged && i + 1 < |s| && s[i + 1].tree == s[i].tree
  }

  predicate Wanted(o: Options, sn: Snapshot)
  {
    (o.keepIds.Some? && o.keepIds.value(sn)) || (o.keepTags.Some? && o.keepTags.value(sn))
  }

  /** The mark on a snapshot comes before all options: never to be deleted, or not before a time, and to be deleted from
      then on. An unmarked one that repeats the next older is given up; one with a wanted id or tag is otherwise
      kept. */
  lemma {:induction false} MarksDecide(o: Options, s: seq<Snapshot>, now: int, i: nat)
    requires i < |s|
    ensures s[i].delete == Never ==> Decide(o, s, now, i).keep
    ensures s[i].delete.After? ==> (Decide(o, s, now, i).keep <==> now <= s[i].delete.time)
    ensures s[i].delete == NotSet && Repeats(o, s, i) ==> !Decide(o, s, now, i).keep
    ensures s[i].delete == NotSet && !Repeats(o, s, i) && Wanted(o, s[i]) ==> Decide(o, s, now, i).keep
  {
  }
}
