/** The order of names: lexicographic, as for `OsStr` and `String`. */
module NameOrder {
  import opened Repo

  predicate Less(a: Name, b: Name)
  {
    b != [] && (a == [] || a[0] < b[0] || (a[0] == b[0] && Less(a[1..], b[1..])))
  }

  /** The place at which b turns out larger: a ends before it, or has the smaller character there. */
  ghost predicate LargerAt(a: Name, b: Name, k: int)
  {
    && 0 <= k <= |a| && k < |b| && a[..k] == b[..k]
    && (k == |a| || a[k] < b[k])
  }

  /** The order is lexicographic. */
  lemma {:induction false} LessIs(a: Name, b: Name)
    ensures Less(a, b) <==> exists k :: LargerAt(a, b, k)
    decreases |a|
  {
    forall k | LargerAt(a, b, k) && k > 0 ensures a != [] && b != [] && a[0] == b[0] { assert a[..k][0] == b[..k][0]; }
    if a != [] && b != [] && a[0] == b[0] {
      LessIs(a[1..], b[1..]);
      assert a == [a[0]] + a[1..] && b == [b[0]] + b[1..];
      if k :| LargerAt(a[1..], b[1..], k) {
        assert a[..k + 1] == [a[0]] + a[1..][..k] && b[..k + 1] == [b[0]] + b[1..][..k];
        assert LargerAt(a, b, k + 1);
      }
      if k :| LargerAt(a, b, k) {
        assert k > 0 && a[1..][..k - 1] == a[..k][1..] && b[1..][..k - 1] == b[..k][1..];
        assert LargerAt(a[1..], b[1..], k - 1);
      }
    } else if Less(a, b) {
      assert LargerAt(a, b, 0);
    }
  }

  lemma {:induction false} LessTrans(a: Name, b: Name, c: Name)
    requires Less(a, b) && Less(b, c)
    ensures Less(a, c)
  {
    if a != [] && a[0] == b[0] && b[0] == c[0] { LessTrans(a[1..], b[1..], c[1..]); }
  }

  lemma {:induction false} LessIrreflexive(a: Name)
    ensures !Less(a, a)
  {
    if a != [] { LessIrreflexive(a[1..]); }
  }

  lemma {:induction false} LessTotal(a: Name, b: Name)
    ensures Less(a, b) || a == b || Less(b, a)
    ensures !(Less(a, b) && Less(b, a)) && !Less(a, a)
  {
    LessIrreflexive(a);
    if a != [] && b != [] {
      LessTotal(a[1..], b[1..]);
      if a[0] == b[0] && a[1..] == b[1..] {
        assert a == [a[0]] + a[1..] && b == [b[0]] + b[1..];
      }
    }
  }

  /** Strictly ascending names. */
  ghost predicate Ascending(nodes: seq<Node>)
  {
    forall i, j :: 0 <= i < j < |nodes| ==> Less(nodes[i].name, nodes[j].name)
  }

  /** Ascending, with equal names allowed. */
  ghost predicate InOrder(nodes: seq<Node>)
  {
    forall i, j :: 0 <= i < j < |nodes| ==> !Less(nodes[j].name, nodes[i].name)
  }

  ghost predicate DistinctNames(nodes: seq<Node>)
  {
    forall i, j :: 0 <= i < j < |nodes| ==> nodes[i].name != nodes[j].name
  }

  function Insert(n: Node, nodes: seq<Node>): (r: seq<Node>)
    ensures multiset(r) == multiset(nodes) + multiset{n} && |r| == |nodes| + 1
  {
    if nodes == [] then [n]
    else if Less(nodes[0].name, n.name) then
      assert nodes == [nodes[0]] + nodes[1..];
      [nodes[0]] + Insert(n, nodes[1..])
    else [n] + nodes
  }

  /** Sorting by name. */
  function SortNodes(nodes: seq<Node>): (r: seq<Node>)
    ensures multiset(r) == multiset(nodes) && |r| == |nodes|
  {
    if nodes == [] then []
    else
      assert nodes == [nodes[0]] + nodes[1..];
      Insert(nodes[0], SortNodes(nodes[1..]))
  }

  /** `x` is not above any of the nodes. */
  ghost predicate Below(x: Name, nodes: seq<Node>)
  {
    forall n :: n in nodes ==> !Less(n.name, x)
  }

  lemma {:induction false} Prepended(n: Node, nodes: seq<Node>)
    requires InOrder(nodes) && Below(n.name, nodes)
    ensures InOrder([n] + nodes)
  {
  }

  lemma {:induction false} InsertMembers(n: Node, nodes: seq<Node>, m: Node)
    ensures m in Insert(n, nodes) <==> m in nodes || m == n
  {
    assert m in Insert(n, nodes) <==> m in multiset(Insert(n, nodes));
    assert m in nodes <==> m in multiset(nodes);
  }

  lemma {:induction false} HeadIsBelow(nodes: seq<Node>, x: Name)
    requires nodes != [] && InOrder(nodes) && !Less(nodes[0].name, x)
    ensures Below(x, nodes)
  {
    forall k | 0 <= k < |nodes| ensures !Less(nodes[k].name, x) {
      if k > 0 && Less(nodes[k].name, x) {
        LessTotal(nodes[0].name, nodes[k].name);
        if nodes[0].name != nodes[k].name { LessTrans(nodes[0].name, nodes[k].name, x); }
      }
    }
  }

  lemma {:induction false} InsertSorts(n: Node, nodes: seq<Node>)
    requires InOrder(nodes)
    ensures InOrder(Insert(n, nodes))
  {
    if nodes != [] {
      if Less(nodes[0].name, n.name) {
        InsertSorts(n, nodes[1..]);
        forall m | m in Insert(n, nodes[1..]) ensures !Less(m.name, nodes[0].name) {
          InsertMembers(n, nodes[1..], m);
          LessTotal(n.name, nodes[0].name);
        }
        Prepended(nodes[0], Insert(n, nodes[1..]));
      } else {
        HeadIsBelow(nodes, n.name);
        Prepended(n, nodes);
      }
    }
  }

  lemma {:induction false} InsertDistinct(n: Node, nodes: seq<Node>)
    requires DistinctNames(nodes) && forall m :: m in nodes ==> m.name != n.name
    ensures DistinctNames(Insert(n, nodes))
  {
    if nodes != [] && Less(nodes[0].name, n.name) {
      InsertDistinct(n, nodes[1..]);
      forall m | m in Insert(n, nodes[1..]) ensures m.name != nodes[0].name {
        InsertMembers(n, nodes[1..], m);
      }
    }
  }

  /** Sorting gives a permutation in order; distinct names come out strictly ascending. */
  lemma {:induction false} SortSorts(nodes: seq<Node>)
    ensures InOrder(SortNodes(nodes)) && multiset(SortNodes(nodes)) == multiset(nodes)
    ensures DistinctNames(nodes) ==> DistinctNames(SortNodes(nodes)) && Ascending(SortNodes(nodes))
  {
    if nodes != [] {
      var rest := SortNodes(nodes[1..]);
      SortSorts(nodes[1..]);
      InsertSorts(nodes[0], rest);
      if DistinctNames(nodes) {
        forall m | m in rest ensures m.name != nodes[0].name {
          assert m in multiset(nodes[1..]);
          var k :| 0 <= k < |nodes[1..]| && nodes[1..][k] == m;
          assert nodes[k + 1] == m;
        }
        InsertDistinct(nodes[0], rest);
        DistinctAscends(SortNodes(nodes));
      }
    }
  }

  lemma {:induction false} DistinctAscends(nodes: seq<Node>)
    requires InOrder(nodes) && DistinctNames(nodes)
    ensures Ascending(nodes)
  {
    forall i, j | 0 <= i < j < |nodes| ensures Less(nodes[i].name, nodes[j].name) {
      LessTotal(nodes[i].name, nodes[j].name);
    }
  }
}
