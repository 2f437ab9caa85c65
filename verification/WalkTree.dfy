/** What the walk as a whole delivers: no directory twice, and the tree of the source. */
module WalkTree {
  import opened Repo
  import opened NameOrder
  import TreeBuild
  import opened PreOrder
  import opened ListWalk

  type Path = TreeBuild.Path

  // ---------------------------------------------------------------- no directory is expanded twice

  ghost predicate NoDuplicates(s: seq<Path>)
  {
    forall i, j :: 0 <= i < j < |s| ==> s[i] != s[j]
  }

  /** The expanded directories are new, pairwise different, and known afterwards. */
  ghost predicate ExpandsOnce(o: Out, visited: set<Path>)
  {
    && visited <= o.visited
    && NoDuplicates(o.expanded)
    && forall p :: p in o.expanded ==> p !in visited && p in o.visited
  }

  lemma {:induction false} JoinOnce(a: Out, b: Out, visited: set<Path>)
    requires ExpandsOnce(a, visited) && ExpandsOnce(b, a.visited)
    ensures ExpandsOnce(Join(a, b), visited)
  {
    var s := a.expanded + b.expanded;
    forall i, j | 0 <= i < j < |s| ensures s[i] != s[j] {
      if i < |a.expanded| <= j { assert s[i] in a.expanded && s[j] in b.expanded; }
    }
  }

  lemma {:induction false} WalkOnce(be: Backend, dir: Path, depth: nat, visited: set<Path>)
    requires depth <= MAX_DEPTH && dir !in visited
    ensures ExpandsOnce(Walk(be, dir, depth, visited + {dir}), visited)
    decreases MAX_DEPTH - depth, 1, 0
  {
    var cs := Children(be, dir);
    if cs.Some? {
      var o := WalkChildren(be, dir, depth, cs.value, visited + {dir});
      WalkChildrenOnce(be, dir, depth, cs.value, visited + {dir});
      HeadOnce(dir, o, visited);
    } else {
      HeadOnce(dir, Yield(Failure, Nothing(visited + {dir})), visited);
    }
  }

  lemma {:induction false} HeadOnce(dir: Path, o: Out, visited: set<Path>)
    requires dir !in visited && ExpandsOnce(o, visited + {dir})
    ensures ExpandsOnce(Expand(dir, o), visited)
  {
    var s := [dir] + o.expanded;
    forall i, j | 0 <= i < j < |s| ensures s[i] != s[j] {
      assert s[j] in o.expanded;
      if i > 0 { assert s[i] == o.expanded[i - 1] && s[j] == o.expanded[j - 1]; }
    }
  }

  lemma {:induction false} WalkChildrenOnce(be: Backend, dir: Path, depth: nat, cs: seq<Node>, visited: set<Path>)
    requires depth <= MAX_DEPTH
    ensures ExpandsOnce(WalkChildren(be, dir, depth, cs, visited), visited)
    decreases MAX_DEPTH - depth, 0, |cs|
  {
    if cs != [] {
      match ChildTurn(be, Pending(dir, depth), cs[0], visited)
      case Descend(item, d) =>
        WalkOnce(be, d.path, d.depth, visited);
        var inside := Walk(be, d.path, d.depth, visited + {d.path});
        WalkChildrenOnce(be, dir, depth, cs[1..], inside.visited);
        JoinOnce(inside, WalkChildren(be, dir, depth, cs[1..], inside.visited), visited);
      case _ => WalkChildrenOnce(be, dir, depth, cs[1..], visited);
    }
  }

  /** Whatever the roots, nested in one another or not: the walk lists no directory twice. */
  lemma {:induction false} RootsOnce(be: Backend, dirs: seq<Path>, visited: set<Path>)
    requires NoDuplicates(dirs) && forall p :: p in dirs ==> p in visited
    ensures NoDuplicates(WalkRoots(be, dirs, visited).expanded)
    ensures forall p :: p in WalkRoots(be, dirs, visited).expanded ==> p in dirs || p !in visited
    decreases |dirs|
  {
    if dirs != [] {
      var dir := dirs[0];
      var o := Walk(be, dir, 0, visited);
      assert dir in dirs && visited == (visited - {dir}) + {dir};
      WalkOnce(be, dir, 0, visited - {dir});
      RootsOnce(be, dirs[1..], o.visited);
      var rest := WalkRoots(be, dirs[1..], o.visited).expanded;
      var s := o.expanded + rest;
      forall i, j | 0 <= i < j < |s| ensures s[i] != s[j] {
        if i < |o.expanded| <= j {
          assert s[i] in o.expanded && s[j] in rest;
          if s[j] in dirs[1..] { assert s[j] in visited && s[j] != dir; }
        }
      }
    }
  }

  // ---------------------------------------------------------------- the tree of the source

  /** The source below `dir` as a forest: filtered, sorted, cut off at the depth limit, and empty where
      a directory cannot be listed. */
  function SourceTree(be: Backend, dir: Path, depth: nat): seq<Node>
    requires depth <= MAX_DEPTH
    decreases MAX_DEPTH - depth, 1, 0
  {
    match Children(be, dir)
    case None => []
    case Some(cs) => SourceNodes(be, dir, depth, cs)
  }

  function SourceNodes(be: Backend, dir: Path, depth: nat, cs: seq<Node>): seq<Node>
    requires depth <= MAX_DEPTH
    decreases MAX_DEPTH - depth, 0, |cs|
  {
    if cs == [] then []
    else
      var c, p := cs[0], Child(dir, cs[0].name);
      var rest := SourceNodes(be, dir, depth, cs[1..]);
      if !be.wanted(p, c) then rest
      else if !c.nodeType.Dir? then [c] + rest
      else if !be.recursive then [c.(subtree := Some(TreeBlob([])))] + rest
      else if depth + 1 > MAX_DEPTH then rest
      else [c.(subtree := Some(TreeBlob(SourceTree(be, p, depth + 1))))] + rest
  }

  /** What the archiver makes of the items: failures are left out, a directory keeps its path, a file
      gets the path of its directory. */
  function Entries(items: seq<Item>): seq<TreeBuild.Entry>
  {
    if items == [] then [] else EntryOf(items[0]) + Entries(items[1..])
  }

  function EntryOf(item: Item): seq<TreeBuild.Entry>
  {
    match item
    case Failure => []
    case Found(p, n) => [TreeBuild.Entry(if n.nodeType.Dir? || p == [] then p else p[..|p| - 1], n)]
  }

  lemma {:induction false} EntriesConcat(a: seq<Item>, b: seq<Item>)
    ensures Entries(a + b) == Entries(a) + Entries(b)
  {
    if a == [] {
      assert a + b == b;
    } else {
      EntriesConcat(a[1..], b);
      assert (a + b)[1..] == a[1..] + b;
      Assoc(EntryOf(a[0]), Entries(a[1..]), Entries(b));
    }
  }

  lemma {:induction false} EntriesYield(item: Item, o: Out)
    ensures Entries(Yield(item, o).items) == EntryOf(item) + Entries(o.items)
  {
    assert ([item] + o.items)[1..] == o.items;
  }

  /** Names are pairwise different and nothing has a subtree or a content yet. */
  ghost predicate Plain(cs: seq<Node>)
  {
    DistinctNames(cs) && forall c :: c in cs ==> c.subtree == None && c.content == None
  }

  /** The source lists every name of a directory once. */
  ghost predicate GoodSource(be: Backend)
  {
    forall dir :: be.readdir(dir).Some? ==> DistinctNames(be.readdir(dir).value)
  }

  lemma {:induction false} FilterPlain(be: Backend, nodes: seq<Node>)
    requires DistinctNames(nodes)
    ensures Plain(Filter(be, nodes))
    ensures forall c :: c in Filter(be, nodes) ==> exists n :: n in nodes && n.name == c.name
  {
    if nodes != [] {
      FilterPlain(be, nodes[1..]);
      var rest := Filter(be, nodes[1..]);
      forall c | c in rest ensures c.name != nodes[0].name {
        var n :| n in nodes[1..] && n.name == c.name;
        var k :| 0 <= k < |nodes[1..]| && nodes[1..][k] == n;
        assert nodes[k + 1] == n;
      }
      forall c | c in Filter(be, nodes) ensures exists n :: n in nodes && n.name == c.name {
        if c in rest {
          var n :| n in nodes[1..] && n.name == c.name;
          assert n in nodes;
        } else {
          assert nodes[0] in nodes && c.name == nodes[0].name;
        }
      }
    }
  }

  lemma {:induction false} ChildrenPlain(be: Backend, dir: Path)
    requires GoodSource(be) && Children(be, dir).Some?
    ensures Plain(Children(be, dir).value) && Ascending(Children(be, dir).value)
  {
    if Marked(be, dir, be.markers) == Some(false) {
      var kept := Filter(be, be.readdir(dir).value);
      FilterPlain(be, be.readdir(dir).value);
      SortSorts(kept);
      forall c | c in SortNodes(kept) ensures c in kept { assert c in multiset(SortNodes(kept)); }
    }
  }

  /** Nothing at or below a child of `dir` has been visited. */
  ghost predicate Unseen(dir: Path, cs: seq<Node>, visited: set<Path>)
  {
    forall c, v :: c in cs && v in visited ==> !(Child(dir, c.name) <= v)
  }

  /** The walk of `dir` adds only paths below it to the visited ones. */
  lemma {:induction false} WalkVisits(be: Backend, dir: Path, depth: nat, visited: set<Path>)
    requires depth <= MAX_DEPTH
    ensures forall v :: v in Walk(be, dir, depth, visited).visited ==> v in visited || (dir <= v && |dir| < |v|)
    decreases MAX_DEPTH - depth, 1, 0
  {
    var cs := Children(be, dir);
    if cs.Some? { ChildrenVisit(be, dir, depth, cs.value, visited); }
  }

  lemma {:induction false} ChildrenVisit(be: Backend, dir: Path, depth: nat, cs: seq<Node>, visited: set<Path>)
    requires depth <= MAX_DEPTH
    ensures forall v :: v in WalkChildren(be, dir, depth, cs, visited).visited ==>
              v in visited || (dir <= v && |dir| < |v|)
    decreases MAX_DEPTH - depth, 0, |cs|
  {
    if cs != [] {
      match ChildTurn(be, Pending(dir, depth), cs[0], visited)
      case Descend(item, d) =>
        WalkVisits(be, d.path, d.depth, visited + {d.path});
        var inside := Walk(be, d.path, d.depth, visited + {d.path});
        ChildrenVisit(be, dir, depth, cs[1..], inside.visited);
        assert dir <= d.path;
      case _ => ChildrenVisit(be, dir, depth, cs[1..], visited);
    }
  }

  lemma {:induction false} StillUnseen(dir: Path, cs: seq<Node>, visited: set<Path>, after: set<Path>)
    requires cs != [] && DistinctNames(cs) && Unseen(dir, cs, visited)
    requires forall v :: v in after ==> v in visited || Child(dir, cs[0].name) <= v
    ensures Unseen(dir, cs[1..], after)
  {
    forall c, v | c in cs[1..] && v in after ensures !(Child(dir, c.name) <= v) {
      var k :| 0 <= k < |cs[1..]| && cs[1..][k] == c;
      assert cs[k + 1] == c && c in cs;
      if v !in visited {
        assert Child(dir, cs[0].name)[|dir|] == v[|dir|];
        assert Child(dir, c.name)[|dir|] == TreeBuild.Normal(c.name);
      }
    }
  }

  /** The items of the walk are the listing of the source tree. */
  lemma {:induction false} WalkLists(be: Backend, dir: Path, depth: nat, visited: set<Path>)
    requires depth <= MAX_DEPTH && GoodSource(be)
    requires forall v :: v in visited ==> !(dir <= v && |dir| < |v|)
    ensures Entries(Walk(be, dir, depth, visited).items) == Listing(dir, SourceTree(be, dir, depth))
    decreases MAX_DEPTH - depth, 1, 0
  {
    var cs := Children(be, dir);
    if cs.Some? {
      ChildrenPlain(be, dir);
      ChildrenList(be, dir, depth, cs.value, visited);
    } else {
      EntriesYield(Failure, Nothing(visited));
    }
  }

  lemma {:induction false} ChildrenList(be: Backend, dir: Path, depth: nat, cs: seq<Node>, visited: set<Path>)
    requires depth <= MAX_DEPTH && GoodSource(be) && Plain(cs) && Unseen(dir, cs, visited)
    ensures Entries(WalkChildren(be, dir, depth, cs, visited).items) == Listing(dir, SourceNodes(be, dir, depth, cs))
    decreases MAX_DEPTH - depth, 0, |cs|
  {
    if cs != [] {
      var c, p := cs[0], Child(dir, cs[0].name);
      assert c in cs;
      StillUnseen(dir, cs, visited, visited);
      match ChildTurn(be, Pending(dir, depth), c, visited)
      case Skip => ChildrenList(be, dir, depth, cs[1..], visited);
      case Emit(item) =>
        assert p !in visited;
        ChildrenList(be, dir, depth, cs[1..], visited);
        EntriesYield(item, WalkChildren(be, dir, depth, cs[1..], visited));
        EmitLists(be, dir, depth, cs, item);
      case Descend(item, d) =>
        DescendLists(be, dir, depth, cs, visited, item, d);
    }
  }

  lemma {:induction false} ListingFirst(dir: Path, n: Node, rest: seq<Node>)
    ensures Listing(dir, [n] + rest) == NodeListing(dir, n) + Listing(dir, rest)
  {
    assert ([n] + rest)[1..] == rest;
  }

  /** A directory with its contents, and what comes after it. */
  lemma {:induction false} ListingDir(dir: Path, c: Node, sub: seq<Node>, rest: seq<Node>)
    requires c.subtree == None
    ensures Listing(dir, [c.(subtree := Some(TreeBlob(sub)))] + rest)
         == [TreeBuild.Entry(Child(dir, c.name), c)] + (Listing(Child(dir, c.name), sub) + Listing(dir, rest))
  {
    var n := c.(subtree := Some(TreeBlob(sub)));
    assert TreeBuild.Bare(n) == c;
    ListingFirst(dir, n, rest);
    Assoc([TreeBuild.Entry(Child(dir, c.name), c)], Listing(Child(dir, c.name), sub), Listing(dir, rest));
  }

  lemma {:induction false} EmitLists(be: Backend, dir: Path, depth: nat, cs: seq<Node>, item: Item)
    requires depth <= MAX_DEPTH && cs != [] && cs[0].subtree == None
    requires ChildTurn(be, Pending(dir, depth), cs[0], {}) == Emit(item)
    ensures Listing(dir, SourceNodes(be, dir, depth, cs)) ==
              EntryOf(item) + Listing(dir, SourceNodes(be, dir, depth, cs[1..]))
  {
    var c, rest := cs[0], SourceNodes(be, dir, depth, cs[1..]);
    assert Child(dir, c.name)[..|dir|] == dir;
    if !c.nodeType.Dir? {
      ListingFirst(dir, c, rest);
    } else if !be.recursive {
      ListingDir(dir, c, [], rest);
      assert [] + Listing(dir, rest) == Listing(dir, rest);
    } else {
      assert [] + Listing(dir, rest) == Listing(dir, rest);
    }
  }

  /** The entries of a descent, in the shape of the listing. */
  lemma {:induction false} DescendEntries(inside: Out, after: Out, item: Item, dir: Path, c: Node, sub: seq<Node>,
                                          rest: seq<Node>)
    requires c.subtree == None && EntryOf(item) == [TreeBuild.Entry(Child(dir, c.name), c)]
    requires Entries(inside.items) == Listing(Child(dir, c.name), sub) && Entries(after.items) == Listing(dir, rest)
    ensures Entries(Yield(item, Join(inside, after)).items) == Listing(dir, [c.(subtree := Some(TreeBlob(sub)))] + rest)
  {
    EntriesYield(item, Join(inside, after));
    EntriesConcat(inside.items, after.items);
    ListingDir(dir, c, sub, rest);
  }

  lemma {:induction false} DescendShape(be: Backend, dir: Path, depth: nat, cs: seq<Node>, visited: set<Path>,
                                        item: Item, d: Pending)
    requires depth <= MAX_DEPTH && cs != []
    requires ChildTurn(be, Pending(dir, depth), cs[0], visited) == Descend(item, d)
    ensures depth < MAX_DEPTH && d == Pending(Child(dir, cs[0].name), depth + 1) && d.path !in visited
    ensures EntryOf(item) == [TreeBuild.Entry(d.path, cs[0])]
    ensures SourceNodes(be, dir, depth, cs)
         == [cs[0].(subtree := Some(TreeBlob(SourceTree(be, d.path, d.depth))))] + SourceNodes(be, dir, depth, cs[1..])
  {
  }

  lemma {:induction false} DescendLists(be: Backend, dir: Path, depth: nat, cs: seq<Node>, visited: set<Path>,
                                        item: Item, d: Pending)
    requires depth <= MAX_DEPTH && GoodSource(be) && cs != [] && Plain(cs) && Unseen(dir, cs, visited)
    requires ChildTurn(be, Pending(dir, depth), cs[0], visited) == Descend(item, d)
    ensures Entries(WalkChildren(be, dir, depth, cs, visited).items) == Listing(dir, SourceNodes(be, dir, depth, cs))
    decreases MAX_DEPTH - depth, 0, |cs|, 0
  {
    var v := visited + {d.path};
    assert cs[0] in cs;
    DescendShape(be, dir, depth, cs, visited, item, d);
    WalkLists(be, d.path, d.depth, v);
    WalkVisits(be, d.path, d.depth, v);
    var inside := Walk(be, d.path, d.depth, v);
    StillUnseen(dir, cs, visited, inside.visited);
    ChildrenList(be, dir, depth, cs[1..], inside.visited);
    var after := WalkChildren(be, dir, depth, cs[1..], inside.visited);
    DescendEntries(inside, after, item, dir, cs[0], SourceTree(be, d.path, d.depth),
        SourceNodes(be, dir, depth, cs[1..]));
    ChildrenDescend(be, Pending(dir, depth), cs, visited, item, d);
  }

  // ---------------------------------------------------------------- the archived tree

  /** The source tree has one node per name, in ascending order, at every level. */
  ghost predicate Sorted(nodes: seq<Node>)
    decreases nodes
  {
    Ascending(nodes) && forall n :: n in nodes && n.subtree.Some? && n.subtree.value.TreeBlob? ==>
        Sorted(n.subtree.value.nodes)
  }

  lemma {:induction false} TreeIsForest(be: Backend, dir: Path, depth: nat)
    requires depth <= MAX_DEPTH && GoodSource(be)
    ensures Forest(SourceTree(be, dir, depth)) && Sorted(SourceTree(be, dir, depth))
    decreases MAX_DEPTH - depth, 1, 0
  {
    if Children(be, dir).Some? {
      ChildrenPlain(be, dir);
      NodesAreForest(be, dir, depth, Children(be, dir).value);
    }
  }

  lemma {:induction false} NodesAreForest(be: Backend, dir: Path, depth: nat, cs: seq<Node>)
    requires depth <= MAX_DEPTH && GoodSource(be) && Plain(cs) && Ascending(cs)
    ensures Forest(SourceNodes(be, dir, depth, cs)) && Sorted(SourceNodes(be, dir, depth, cs))
    ensures forall n :: n in SourceNodes(be, dir, depth, cs) ==> exists c :: c in cs && c.name == n.name
    decreases MAX_DEPTH - depth, 0, |cs|
  {
    if cs != [] {
      var c, p, rest := cs[0], Child(dir, cs[0].name), SourceNodes(be, dir, depth, cs[1..]);
      assert c in cs;
      NodesAreForest(be, dir, depth, cs[1..]);
      var all := SourceNodes(be, dir, depth, cs);
      if all != rest {
        if c.nodeType.Dir? && be.recursive { TreeIsForest(be, p, depth + 1); }
        assert all == [all[0]] + rest && all[0].name == c.name;
        forall n | n in rest ensures Less(c.name, n.name) && n.name != c.name {
          var m :| m in cs[1..] && m.name == n.name;
          var k :| 0 <= k < |cs[1..]| && cs[1..][k] == m;
          assert cs[k + 1] == m;
        }
        FirstOfForest(all[0], rest);
      }
      forall n | n in all ensures exists m :: m in cs && m.name == n.name {
        if n in rest {
          var m :| m in cs[1..] && m.name == n.name;
          assert m in cs;
        }
      }
    }
  }

  lemma {:induction false} FirstOfForest(n: Node, rest: seq<Node>)
    requires Forest(rest) && Sorted(rest) && (n.nodeType.Dir? <==> n.subtree.Some?)
    requires n.subtree.Some? ==>
               n.subtree.value.TreeBlob? && Forest(n.subtree.value.nodes) && Sorted(n.subtree.value.nodes)
    requires forall m :: m in rest ==> Less(n.name, m.name) && m.name != n.name
    ensures Forest([n] + rest) && Sorted([n] + rest)
  {
    var all := [n] + rest;
    forall i, j | 0 <= i < j < |all| ensures Less(all[i].name, all[j].name) {
      assert all[j] == rest[j - 1];
      if i > 0 { assert all[i] == rest[i - 1]; }
    }
    forall i, j | 0 <= i < j < |all| && all[i].nodeType.Dir? && all[j].nodeType.Dir?
      ensures all[i].name != all[j].name {
      assert all[j] == rest[j - 1];
      if i > 0 { assert all[i] == rest[i - 1]; }
    }
  }

  lemma {:induction false} RootIsListed(be: Backend, root: Path)
    requires GoodSource(be)
    ensures Entries(WalkRoots(be, [root], {root}).items) == Listing(root, SourceTree(be, root, 0))
  {
    var o := Walk(be, root, 0, {root});
    assert [root][1..] == [];
    assert WalkRoots(be, [root], {root}) == Join(o, Nothing(o.visited));
    assert o.items + [] == o.items;
    WalkLists(be, root, 0, {root});
  }

  /** From one root: the walk, the tree iterator and the tree archiver together store exactly the
      tree of the source, sorted by name, below the directories on the way to the root. */
  lemma {:induction false} BackupStoresSource(be: Backend, root: Path)
    requires GoodSource(be)
    ensures var entries := Entries(WalkRoots(be, [root], {root}).items);
      && TreeBuild.Chained(TreeBuild.Lead([]), entries)
      && TreeBuild.AddAll(TreeBuild.Archiver([], []), TreeBuild.Events(TreeBuild.Iter([], entries)))
           == Some(TreeBuild.Archiver(Archived(root, SourceTree(be, root, 0)), []))
    ensures Sorted(SourceTree(be, root, 0))
  {
    RootIsListed(be, root);
    TreeIsForest(be, root, 0);
    ListingRoundTrip(root, SourceTree(be, root, 0));
  }
}
