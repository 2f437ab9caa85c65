/** The archived tree of a pre-order listing is the listed tree itself, below its root's ancestors. */
module PreOrder {
  import opened Repo
  import opened TreeBuild

  /** A forest as a walk finds it: the directories, and no other nodes, have a subtree, and no two
      directories side by side have the same name. */
  ghost predicate Forest(nodes: seq<Node>)
    decreases nodes
  {
    && (forall n :: n in nodes ==> (n.nodeType.Dir? <==> n.subtree.Some?))
    && (forall n :: n in nodes && n.subtree.Some? ==> n.subtree.value.TreeBlob? && Forest(n.subtree.value.nodes))
    && (forall i, j :: 0 <= i < j < |nodes| && nodes[i].nodeType.Dir? && nodes[j].nodeType.Dir? ==>
        nodes[i].name != nodes[j].name)
  }

  function Child(dir: Path, name: Name): Path { dir + [Normal(name)] }

  /** The entries of a forest below `dir`: a directory with its own path, followed by its contents; a
      file with the path of its directory. */
  function Listing(dir: Path, nodes: seq<Node>): seq<Entry>
    decreases nodes, 0
  {
    if nodes == [] then [] else NodeListing(dir, nodes[0]) + Listing(dir, nodes[1..])
  }

  function NodeListing(dir: Path, n: Node): seq<Entry>
    decreases n, 1
  {
    if n.subtree.Some? && n.subtree.value.TreeBlob? then
      [Entry(Child(dir, n.name), Bare(n))] + Listing(Child(dir, n.name), n.subtree.value.nodes)
    else [Entry(dir, n)]
  }

  /** The path of the last entry of a listing, `path` if it has none. */
  function LastPath(path: Path, dir: Path, nodes: seq<Node>): Path
    decreases nodes, 0
  {
    if nodes == [] then path else LastPath(NodeLastPath(dir, nodes[0]), dir, nodes[1..])
  }

  function NodeLastPath(dir: Path, n: Node): Path
    decreases n, 1
  {
    if n.subtree.Some? && n.subtree.value.TreeBlob?
    then LastPath(Child(dir, n.name), Child(dir, n.name), n.subtree.value.nodes)
    else dir
  }

  /** `path` is dir, or lies in a subdirectory of dir that is not among the directories of `nodes`. */
  ghost predicate Beside(path: Path, dir: Path, nodes: seq<Node>)
  {
    && dir <= path
    && (|path| > |dir| ==>
          path[|dir|].Normal? && forall n :: n in nodes && n.nodeType.Dir? ==> n.name != path[|dir|].name)
  }

  /** The walk comes back to dir. */
  lemma {:induction false} KeepDir(path: Path, dir: Path, q: Path)
    requires dir <= path && dir <= q
    requires |path| > |dir| ==> path[|dir|].Normal? && (|q| > |dir| ==> q[|dir|] != path[|dir|])
    ensures Keep(path, q) == dir
    decreases |path|
  {
    if |path| > |dir| {
      var i := LastNormal(path);
      assert |dir| <= i;
      assert !(path <= q) by { assert |q| > |dir| ==> path[|dir|] != q[|dir|]; }
      assert path[..i][..|dir|] == dir;
      KeepDir(path[..i], dir, q);
    } else {
      assert path == dir;
    }
  }

  lemma {:induction false} FileRows(dir: Path, n: Node)
    requires n.subtree == None && !n.nodeType.Dir?
    ensures EntryRows(Entry(dir, n), |dir|) == FlattenNode(Names(dir), n)
  {
    assert dir[..|dir|] == dir;
    assert Bare(n) == n;
  }

  lemma {:induction false} DirRows(dir: Path, n: Node)
    requires n.nodeType.Dir?
    ensures EntryRows(Entry(Child(dir, n.name), Bare(n)), |dir|) == [Row(Names(dir), Bare(n), true)]
  {
    assert Child(dir, n.name)[..|dir|] == dir;
  }

  lemma {:induction false} ChildNames(dir: Path, name: Name)
    ensures Names(Child(dir, name)) == Names(dir) + [name]
  {
    assert Child(dir, name)[..|dir|] == dir;
  }

  lemma {:induction false} NodeLastPathIn(dir: Path, n: Node)
    ensures dir <= NodeLastPath(dir, n)
    ensures n.subtree.Some? && n.subtree.value.TreeBlob? ==> Child(dir, n.name) <= NodeLastPath(dir, n)
    ensures !(n.subtree.Some? && n.subtree.value.TreeBlob?) ==> NodeLastPath(dir, n) == dir
    decreases n, 1
  {
    if n.subtree.Some? && n.subtree.value.TreeBlob? {
      LastPathIn(Child(dir, n.name), Child(dir, n.name), n.subtree.value.nodes);
    }
  }

  lemma {:induction false} LastPathIn(path: Path, dir: Path, nodes: seq<Node>)
    requires dir <= path
    ensures dir <= LastPath(path, dir, nodes)
    decreases nodes, 0
  {
    if nodes != [] {
      NodeLastPathIn(dir, nodes[0]);
      LastPathIn(NodeLastPath(dir, nodes[0]), dir, nodes[1..]);
    }
  }

  /** After the first node the iterator is beside the others. */
  lemma {:induction false} StaysBeside(dir: Path, nodes: seq<Node>)
    requires nodes != [] && Forest(nodes)
    ensures Beside(NodeLastPath(dir, nodes[0]), dir, nodes[1..])
  {
    var n := nodes[0];
    assert n in nodes;
    NodeLastPathIn(dir, n);
    if n.subtree.Some? {
      var path := NodeLastPath(dir, n);
      assert Child(dir, n.name)[|dir|] == Normal(n.name) && path[|dir|] == Normal(n.name);
      forall m | m in nodes[1..] && m.nodeType.Dir? ensures m.name != n.name {
        var k :| 0 <= k < |nodes[1..]| && nodes[1..][k] == m;
        assert nodes[k + 1] == m;
      }
    }
  }

  /** The rows of a listing are those of the forest: no directory is made up in between, and none is
      opened twice. */
  lemma {:induction false} ListingRows(path: Path, dir: Path, nodes: seq<Node>, more: seq<Entry>)
    requires Forest(nodes) && Beside(path, dir, nodes)
    ensures ExpectedRows(path, Listing(dir, nodes) + more)
         == Flatten(Names(dir), nodes) + ExpectedRows(LastPath(path, dir, nodes), more)
    decreases nodes, 0
  {
    if nodes == [] {
      assert Listing(dir, nodes) + more == more;
    } else {
      var n, rest := nodes[0], Listing(dir, nodes[1..]) + more;
      assert n in nodes;
      Assoc(NodeListing(dir, n), Listing(dir, nodes[1..]), more);
      NodeListingRows(path, dir, n, rest);
      StaysBeside(dir, nodes);
      ListingRows(NodeLastPath(dir, n), dir, nodes[1..], more);
      Assoc(FlattenNode(Names(dir), n), Flatten(Names(dir), nodes[1..]),
          ExpectedRows(LastPath(path, dir, nodes), more));
    }
  }

  lemma {:induction false} NodeListingRows(path: Path, dir: Path, n: Node, more: seq<Entry>)
    requires n.nodeType.Dir? <==> n.subtree.Some?
    requires n.subtree.Some? ==> n.subtree.value.TreeBlob? && Forest(n.subtree.value.nodes)
    requires Beside(path, dir, [n])
    ensures ExpectedRows(path, NodeListing(dir, n) + more)
         == FlattenNode(Names(dir), n) + ExpectedRows(NodeLastPath(dir, n), more)
    decreases n, 1
  {
    assert n in [n];
    if n.subtree == None {
      KeepDir(path, dir, dir);
      FileRows(dir, n);
      assert ([Entry(dir, n)] + more)[1..] == more;
    } else {
      var sub, nodes := Child(dir, n.name), n.subtree.value.nodes;
      var e, rest := Entry(sub, Bare(n)), Listing(sub, nodes) + more;
      KeepDir(path, dir, sub);
      DirRows(dir, n);
      Assoc([e], Listing(sub, nodes), more);
      assert ([e] + rest)[1..] == rest;
      ListingRows(sub, sub, nodes, more);
      ChildNames(dir, n.name);
      Assoc([Row(Names(dir), Bare(n), true)], Flatten(Names(sub), nodes), ExpectedRows(NodeLastPath(dir, n), more));
    }
  }

  // ---------------------------------------------------------------- the ancestors of the root

  /** The forest below the directories named by the components of root from i on. */
  function Wrap(root: Path, i: nat, nodes: seq<Node>): seq<Node>
    requires i <= |root|
    decreases |root| - i
  {
    if i == |root| then nodes
    else if root[i].Normal? then [Missing(root[i].name).(subtree := Some(TreeBlob(Wrap(root, i + 1, nodes))))]
    else Wrap(root, i + 1, nodes)
  }

  function AncestorRows(root: Path, i: nat): seq<Row>
    requires i <= |root|
    decreases |root| - i
  {
    if i == |root| then []
    else if root[i].Normal? then [Row(Names(root[..i]), Missing(root[i].name), true)] + AncestorRows(root, i + 1)
    else AncestorRows(root, i + 1)
  }

  lemma {:induction false} NamesStep(path: Path, i: nat)
    requires i < |path|
    ensures path[i].Normal? ==> Names(path[..i + 1]) == Names(path[..i]) + [path[i].name]
    ensures !path[i].Normal? ==> Names(path[..i + 1]) == Names(path[..i])
  {
    assert path[..i + 1][..i] == path[..i];
  }

  lemma {:induction false} WrapRows(root: Path, i: nat, nodes: seq<Node>)
    requires i <= |root|
    ensures Flatten(Names(root[..i]), Wrap(root, i, nodes)) == AncestorRows(root, i) + Flatten(Names(root), nodes)
    decreases |root| - i
  {
    if i == |root| {
      assert root[..i] == root;
    } else {
      WrapRows(root, i + 1, nodes);
      NamesStep(root, i);
      if root[i].Normal? {
        var at, inner := Names(root[..i]), Wrap(root, i + 1, nodes);
        var n := Missing(root[i].name).(subtree := Some(TreeBlob(inner)));
        FlattenOne(at, n);
        assert Bare(n) == Missing(root[i].name);
        Assoc([Row(at, Missing(root[i].name), true)], AncestorRows(root, i + 1), Flatten(Names(root), nodes));
      }
    }
  }

  lemma {:induction false} EntrySkips(e: Entry, i: nat)
    requires i < |e.path| && !e.path[i].Normal?
    ensures EntryRows(e, i) == EntryRows(e, i + 1)
  {
    NamesStep(e.path, i);
  }

  lemma {:induction false} EntryAdds(e: Entry, i: nat)
    requires i < |e.path| && e.path[i].Normal? && !(e.node.nodeType.Dir? && i + 1 == |e.path|)
    ensures EntryRows(e, i) == [Row(Names(e.path[..i]), Missing(e.path[i].name), true)] + EntryRows(e, i + 1)
  {
  }

  /** An entry below root has the ancestors of root as its first rows. */
  lemma {:induction false} EntryBelow(e: Entry, root: Path, i: nat)
    requires root <= e.path && i <= |root| && (e.node.nodeType.Dir? ==> |root| < |e.path|)
    ensures EntryRows(e, i) == AncestorRows(root, i) + EntryRows(e, |root|)
    decreases |root| - i
  {
    if i < |root| {
      EntryBelow(e, root, i + 1);
      assert e.path[..i] == root[..i] && e.path[i] == root[i];
      if root[i].Normal? {
        EntryAdds(e, i);
        Assoc([Row(Names(root[..i]), Missing(root[i].name), true)], AncestorRows(root, i + 1), EntryRows(e, |root|));
      } else {
        EntrySkips(e, i);
      }
    }
  }

  lemma {:induction false} FromNowhere(root: Path, items: seq<Entry>)
    requires items != [] && root <= items[0].path && (items[0].node.nodeType.Dir? ==> |root| < |items[0].path|)
    ensures ExpectedRows([], items) == AncestorRows(root, 0) + ExpectedRows(root, items)
  {
    var e := items[0];
    ExpectedFrom([], items);
    ExpectedFrom(root, items);
    EntryBelow(e, root, 0);
    Assoc(AncestorRows(root, 0), EntryRows(e, |root|), ExpectedRows(e.path, items[1..]));
  }

  /** The root or a path that goes on with a name. */
  ghost predicate Under(root: Path, path: Path)
  {
    root <= path && (|path| > |root| ==> path[|root|].Normal?)
  }

  lemma {:induction false} ListingUnder(root: Path, dir: Path, nodes: seq<Node>)
    requires Under(root, dir) && Forest(nodes)
    ensures forall e :: e in Listing(dir, nodes) ==> Under(root, e.path)
    ensures Source(Listing(dir, nodes))
    ensures forall e :: e in Listing(dir, nodes) && e.node.nodeType.Dir? ==> |root| < |e.path|
    decreases nodes, 0
  {
    if nodes != [] {
      var n := nodes[0];
      assert n in nodes;
      if n.subtree.Some? {
        ListingUnder(root, Child(dir, n.name), n.subtree.value.nodes);
      }
      TailForest(nodes);
      ListingUnder(root, dir, nodes[1..]);
      assert Listing(dir, nodes) == NodeListing(dir, n) + Listing(dir, nodes[1..]);
      assert forall e :: e in NodeListing(dir, n) ==>
          Under(root, e.path) && (e.node.nodeType.Dir? ==> |root| < |e.path|);
      assert Source(NodeListing(dir, n));
    }
  }

  lemma {:induction false} TailForest(nodes: seq<Node>)
    requires nodes != [] && Forest(nodes)
    ensures Forest(nodes[1..])
  {
  }

  lemma {:induction false} LeadUnder(root: Path, path: Path)
    requires Under(root, path)
    ensures Lead(path) == Lead(root)
  {
    LeadPrefix(root, path);
    if LastNormal(root) < 0 { LeadAll(root); }
  }

  lemma {:induction false} ListingChained(root: Path, lead: Path, items: seq<Entry>)
    requires lead <= Lead(root) && forall e :: e in items ==> Under(root, e.path)
    ensures Chained(lead, items)
    decreases |items|
  {
    if items != [] {
      assert items[0] in items;
      LeadUnder(root, items[0].path);
      ListingChained(root, Lead(root), items[1..]);
    }
  }

  lemma {:induction false} ForestIsTrees(nodes: seq<Node>)
    requires Forest(nodes)
    ensures AllTrees(nodes)
    decreases nodes
  {
    forall n | n in nodes && n.subtree.Some? ensures n.subtree.value.TreeBlob? && AllTrees(n.subtree.value.nodes) {
      ForestIsTrees(n.subtree.value.nodes);
    }
  }

  lemma {:induction false} WrapIsTrees(root: Path, i: nat, nodes: seq<Node>)
    requires i <= |root| && AllTrees(nodes)
    ensures AllTrees(Wrap(root, i, nodes))
    decreases |root| - i
  {
    if i < |root| { WrapIsTrees(root, i + 1, nodes); }
  }

  /** The forest below the directories on the way to its root, which only something to archive brings into being. */
  function Archived(root: Path, nodes: seq<Node>): seq<Node>
  {
    if nodes == [] then [] else Wrap(root, 0, nodes)
  }

  /** Archiving the listing of a forest gives back the forest, below the directories on the way to
      its root: nothing is lost, nothing is added, and everything is in its place and order. */
  lemma {:induction false} ListingRoundTrip(root: Path, nodes: seq<Node>)
    requires Forest(nodes)
    ensures Chained(Lead([]), Listing(root, nodes))
    ensures AddAll(Archiver([], []), Events(Iter([], Listing(root, nodes)))) ==
              Some(Archiver(Archived(root, nodes), []))
  {
    if nodes == [] {
      assert Next(Iter([], [])).0.None?;
    } else {
      SomeListingRoundTrip(root, nodes);
    }
  }

  lemma {:induction false} SomeListingRoundTrip(root: Path, nodes: seq<Node>)
    requires Forest(nodes) && nodes != []
    ensures Chained(Lead([]), Listing(root, nodes))
    ensures AddAll(Archiver([], []), Events(Iter([], Listing(root, nodes)))) == Some(Archiver(Wrap(root, 0, nodes), []))
  {
    var items := Listing(root, nodes);
    ListingUnder(root, root, nodes);
    ListingChained(root, [], items);
    assert nodes[0] in nodes && NodeListing(root, nodes[0]) != [];
    assert |items| == |NodeListing(root, nodes[0])| + |Listing(root, nodes[1..])|;
    assert items[0] in items;
    TreeHoldsEntries(items);
    var r := AddAll(Archiver([], []), Events(Iter([], items))).value;
    assert Flatten([], r.nodes) == Flatten([], Wrap(root, 0, nodes)) by {
      FromNowhere(root, items);
      ListingRows(root, root, nodes, []);
      assert items + [] == items;
      assert ExpectedRows(root, items) == Flatten(Names(root), nodes);
      WrapRows(root, 0, nodes);
      assert root[..0] == [];
    }
    OtherEventsAreBare(Iter([], items));
    AddKeepsTrees(Archiver([], []), Events(Iter([], items)));
    ForestIsTrees(nodes);
    WrapIsTrees(root, 0, nodes);
    FlattenInjective([], r.nodes, Wrap(root, 0, nodes));
  }
}
