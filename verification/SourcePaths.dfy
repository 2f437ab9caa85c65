/** What the walk finds, said of the source alone: which entries a directory is listed with, and which paths are in
    the tree that is stored. */
module SourcePaths {
  import opened Repo
  import opened NameOrder
  import TreeBuild
  import opened PreOrder
  import opened ListWalk
  import opened WalkTree

  // ---------------------------------------------------------------- one directory

  /** The marker k decides: it is the first that is not known to be absent. */
  ghost predicate Decides(be: Backend, dir: TreeBuild.Path, k: int)
  {
    && 0 <= k < |be.markers| && be.stat(Child(dir, be.markers[k])) != Some(false)
    && forall j :: 0 <= j < k ==> be.stat(Child(dir, be.markers[j])) == Some(false)
  }

  ghost predicate Unmarked(be: Backend, dir: TreeBuild.Path)
  {
    forall j :: 0 <= j < |be.markers| ==> be.stat(Child(dir, be.markers[j])) == Some(false)
  }

  /** The entry is to be listed: it is not the directory itself, and passes the tests. */
  predicate Qualifies(be: Backend, n: Node) { !Nameless(n.name) && be.listed(n) }

  /** An entry of the source as a node: with its name, type and metadata, no content and no subtree. */
  function AsNode(n: Node): Node { Node(n.name, n.nodeType, n.meta, None, None) }

  /** How often the source has the entry. */
  function Times(be: Backend, entries: seq<Node>, c: Node): nat
  {
    if entries == [] then 0
    else (if Qualifies(be, entries[0]) && AsNode(entries[0]) == c then 1 else 0) + Times(be, entries[1..], c)
  }

  lemma {:induction false} MarkedFrom(be: Backend, dir: TreeBuild.Path, i: nat)
    requires i <= |be.markers| && forall j :: 0 <= j < i ==> be.stat(Child(dir, be.markers[j])) == Some(false)
    ensures Unmarked(be, dir) ==> Marked(be, dir, be.markers[i..]) == Some(false)
    ensures forall k :: Decides(be, dir, k) ==> Marked(be, dir, be.markers[i..]) == be.stat(Child(dir, be.markers[k]))
    ensures Unmarked(be, dir) || exists k :: Decides(be, dir, k)
    decreases |be.markers| - i
  {
    if i < |be.markers| {
      assert be.markers[i..][0] == be.markers[i] && be.markers[i..][1..] == be.markers[i + 1..];
      if be.stat(Child(dir, be.markers[i])) == Some(false) {
        MarkedFrom(be, dir, i + 1);
      } else {
        assert Decides(be, dir, i);
        assert forall k :: Decides(be, dir, k) ==> k == i;
      }
    }
  }

  /** The first marker that is not absent decides, if there is one. */
  lemma {:induction false} MarkedIs(be: Backend, dir: TreeBuild.Path)
    ensures Unmarked(be, dir) ==> Marked(be, dir, be.markers) == Some(false)
    ensures forall k :: Decides(be, dir, k) ==> Marked(be, dir, be.markers) == be.stat(Child(dir, be.markers[k]))
    ensures Unmarked(be, dir) <==> !exists k :: Decides(be, dir, k)
  {
    MarkedFrom(be, dir, 0);
    assert be.markers[0..] == be.markers;
  }

  lemma {:induction false} FilterCounts(be: Backend, entries: seq<Node>, c: Node)
    ensures multiset(Filter(be, entries))[c] == Times(be, entries, c)
  {
    if entries != [] { FilterCounts(be, entries[1..], c); }
  }

  /** What a directory is listed with: nothing if the first marker that is not absent is there; an error if its
      test fails, or if there is none and the directory cannot be read; else every entry that has a name and
      passes the tests, exactly as often as the source has it, in the order of names. */
  lemma {:induction false} ChildrenIff(be: Backend, dir: TreeBuild.Path)
    ensures Children(be, dir).None? <==>
      || (exists k :: Decides(be, dir, k) && be.stat(Child(dir, be.markers[k])).None?)
      || (Unmarked(be, dir) && be.readdir(dir).None?)
    ensures Children(be, dir) == Some([]) <==>
      || (exists k :: Decides(be, dir, k) && be.stat(Child(dir, be.markers[k])) == Some(true))
      || (Unmarked(be, dir) && be.readdir(dir).Some? && forall n :: n in be.readdir(dir).value ==> !Qualifies(be, n))
    ensures Unmarked(be, dir) && be.readdir(dir).Some? ==>
      && Children(be, dir).Some? && InOrder(Children(be, dir).value)
      && forall c :: multiset(Children(be, dir).value)[c] == Times(be, be.readdir(dir).value, c)
  {
    MarkedIs(be, dir);
    if Unmarked(be, dir) && be.readdir(dir).Some? { UnmarkedChildren(be, dir); }
  }

  lemma {:induction false} UnmarkedChildren(be: Backend, dir: TreeBuild.Path)
    requires Unmarked(be, dir) && be.readdir(dir).Some?
    ensures Children(be, dir).Some? && InOrder(Children(be, dir).value)
    ensures forall c :: multiset(Children(be, dir).value)[c] == Times(be, be.readdir(dir).value, c)
    ensures Children(be, dir).value == [] <==> forall n :: n in be.readdir(dir).value ==> !Qualifies(be, n)
  {
    MarkedIs(be, dir);
    var entries, cs := be.readdir(dir).value, Children(be, dir).value;
    SortSorts(Filter(be, entries));
    forall c ensures multiset(cs)[c] == Times(be, entries, c) { FilterCounts(be, entries, c); }
    if cs == [] { NothingQualifies(be, entries); } else { FilterHas(be, entries, cs[0]); assert cs[0] in multiset(cs); }
  }

  lemma {:induction false} NothingQualifies(be: Backend, entries: seq<Node>)
    requires Filter(be, entries) == []
    ensures forall n :: n in entries ==> !Qualifies(be, n)
  {
    forall n | n in entries ensures !Qualifies(be, n) { FilterHas(be, entries, AsNode(n)); }
  }

  lemma {:induction false} FilterHas(be: Backend, entries: seq<Node>, c: Node)
    ensures c in Filter(be, entries) <==> exists n :: n in entries && Qualifies(be, n) && c == AsNode(n)
    decreases |entries|
  {
    if entries != [] {
      FilterHas(be, entries[1..], c);
      assert entries == [entries[0]] + entries[1..];
      assert entries[0] in entries && forall n :: n in entries[1..] ==> n in entries;
    }
  }

  /** Which entries are found, without counting them. */
  lemma {:induction false} ChildIff(be: Backend, dir: TreeBuild.Path, c: Node)
    ensures (Children(be, dir).Some? && c in Children(be, dir).value) <==>
      && Unmarked(be, dir) && be.readdir(dir).Some?
      && exists n :: n in be.readdir(dir).value && Qualifies(be, n) && c == AsNode(n)
  {
    MarkedIs(be, dir);
    if Unmarked(be, dir) && be.readdir(dir).Some? {
      var kept := Filter(be, be.readdir(dir).value);
      FilterHas(be, be.readdir(dir).value, c);
      assert c in SortNodes(kept) <==> c in multiset(kept);
    }
  }

  // ---------------------------------------------------------------- the whole tree

  /** The source shows the entry in the directory: it is listed, and wanted. */
  ghost predicate Shows(be: Backend, dir: TreeBuild.Path, n: Node)
  {
    && Unmarked(be, dir) && be.readdir(dir).Some? && n in be.readdir(dir).value
    && Qualifies(be, n) && be.wanted(Child(dir, n.name), AsNode(n))
  }

  function Under(dir: TreeBuild.Path, names: seq<Name>): TreeBuild.Path
    decreases |names|
  {
    if names == [] then dir else Under(Child(dir, names[0]), names[1..])
  }

  /** Component k of the path is shown as a directory that is entered. */
  ghost predicate Entered(be: Backend, dir: TreeBuild.Path, depth: nat, names: seq<Name>, k: nat)
    requires k < |names|
  {
    && be.recursive && depth + k + 1 <= MAX_DEPTH
    && exists m :: Shows(be, Under(dir, names[..k]), m) && m.name == names[k] && m.nodeType.Dir?
  }

  /** The last component of the path is shown as the entry n, not beyond the depth limit, and all components before
      it are entered. */
  ghost predicate PathShows(be: Backend, dir: TreeBuild.Path, depth: nat, names: seq<Name>, n: Node)
  {
    && names != []
    && Shows(be, Under(dir, names[..|names| - 1]), n) && n.name == names[|names| - 1]
    && (n.nodeType.Dir? && be.recursive ==> depth + |names| <= MAX_DEPTH)
    && forall k :: 0 <= k < |names| - 1 ==> Entered(be, dir, depth, names, k)
  }

  /** The names lead to the node, taken without its subtree. */
  ghost predicate InTree(nodes: seq<Node>, names: seq<Name>, c: Node)
    decreases |names|
  {
    && names != []
    && exists m :: m in nodes && m.name == names[0] &&
         if |names| == 1 then TreeBuild.Bare(m) == c
         else m.subtree.Some? && m.subtree.value.TreeBlob? && InTree(m.subtree.value.nodes, names[1..], c)
  }

  /** What is stored for a child. */
  function StoredAs(be: Backend, dir: TreeBuild.Path, depth: nat, c: Node): Option<Node>
    requires depth <= MAX_DEPTH
  {
    if !be.wanted(Child(dir, c.name), c) then None
    else if !c.nodeType.Dir? then Some(c)
    else if !be.recursive then Some(c.(subtree := Some(TreeBlob([]))))
    else if depth == MAX_DEPTH then None
    else Some(c.(subtree := Some(TreeBlob(SourceTree(be, Child(dir, c.name), depth + 1)))))
  }

  lemma {:induction false} SourceNodesHas(be: Backend, dir: TreeBuild.Path, depth: nat, cs: seq<Node>, m: Node)
    requires depth <= MAX_DEPTH
    ensures m in SourceNodes(be, dir, depth, cs) <==> exists c :: c in cs && StoredAs(be, dir, depth, c) == Some(m)
    decreases |cs|
  {
    if cs != [] {
      SourceNodesHas(be, dir, depth, cs[1..], m);
      assert cs == [cs[0]] + cs[1..];
      var rest := SourceNodes(be, dir, depth, cs[1..]);
      var first := StoredAs(be, dir, depth, cs[0]);
      assert SourceNodes(be, dir, depth, cs) == (if first.Some? then [first.value] else []) + rest;
      assert cs[0] in cs && forall c :: c in cs[1..] ==> c in cs;
    }
  }

  lemma {:induction false} SourceTreeHas(be: Backend, dir: TreeBuild.Path, depth: nat, m: Node)
    requires depth <= MAX_DEPTH
    ensures m in SourceTree(be, dir, depth) <==>
              exists n :: Shows(be, dir, n) && StoredAs(be, dir, depth, AsNode(n)) == Some(m)
  {
    var cs := Children(be, dir);
    if cs.Some? { SourceNodesHas(be, dir, depth, cs.value, m); }
    if m in SourceTree(be, dir, depth) {
      var c :| c in cs.value && StoredAs(be, dir, depth, c) == Some(m);
      ChildIff(be, dir, c);
      var n :| n in be.readdir(dir).value && Qualifies(be, n) && c == AsNode(n);
      assert Shows(be, dir, n);
    }
    if n :| Shows(be, dir, n) && StoredAs(be, dir, depth, AsNode(n)) == Some(m) { ChildIff(be, dir, AsNode(n)); }
  }

  lemma {:induction false} EnteredLater(be: Backend, dir: TreeBuild.Path, depth: nat, names: seq<Name>, k: nat)
    requires 0 < k < |names|
    ensures Under(dir, names[..k]) == Under(Child(dir, names[0]), names[1..][..k - 1])
    ensures Entered(be, dir, depth, names, k) <==> Entered(be, Child(dir, names[0]), depth + 1, names[1..], k - 1)
  {
    assert names[..k][1..] == names[1..][..k - 1];
  }

  /** The first component, and the rest of the path from there. */
  lemma {:induction false} PathFirst(be: Backend, dir: TreeBuild.Path, depth: nat, names: seq<Name>, n: Node)
    requires |names| > 1
    ensures PathShows(be, dir, depth, names, n) <==>
              Entered(be, dir, depth, names, 0) && PathShows(be, Child(dir, names[0]), depth + 1, names[1..], n)
  {
    var rest, sub, d := names[1..], Child(dir, names[0]), depth + 1;
    EnteredLater(be, dir, depth, names, |names| - 1);
    if PathShows(be, dir, depth, names, n) {
      forall k | 0 <= k < |rest| - 1 ensures Entered(be, sub, d, rest, k) {
        EnteredLater(be, dir, depth, names, k + 1);
      }
    }
    if Entered(be, dir, depth, names, 0) && PathShows(be, sub, depth + 1, rest, n) {
      forall k | 0 <= k < |names| - 1 ensures Entered(be, dir, depth, names, k) {
        if k > 0 { EnteredLater(be, dir, depth, names, k); }
      }
    }
  }

  /** A path is in the tree of the source if and only if its components are shown, the inner ones as directories,
      within the depth limit; and what is there has name, type and metadata of the entry. */
  lemma {:induction false} InSourceIff(be: Backend, dir: TreeBuild.Path, depth: nat, names: seq<Name>, c: Node)
    requires depth <= MAX_DEPTH
    ensures InTree(SourceTree(be, dir, depth), names, c) <==>
              exists n :: PathShows(be, dir, depth, names, n) && c == AsNode(n)
    decreases |names|
  {
    if |names| == 1 { LastInSource(be, dir, depth, names, c); }
    else if |names| > 1 { InnerInSource(be, dir, depth, names, c); }
  }

  lemma {:induction false} LastInSource(be: Backend, dir: TreeBuild.Path, depth: nat, names: seq<Name>, c: Node)
    requires depth <= MAX_DEPTH && |names| == 1
    ensures InTree(SourceTree(be, dir, depth), names, c) <==>
              exists n :: PathShows(be, dir, depth, names, n) && c == AsNode(n)
  {
    var nodes := SourceTree(be, dir, depth);
    assert names[..0] == [] && Under(dir, []) == dir;
    if InTree(nodes, names, c) {
      var m :| m in nodes && m.name == names[0] && TreeBuild.Bare(m) == c;
      SourceTreeHas(be, dir, depth, m);
      var n :| Shows(be, dir, n) && StoredAs(be, dir, depth, AsNode(n)) == Some(m);
      assert PathShows(be, dir, depth, names, n) && c == AsNode(n);
    }
    if n :| PathShows(be, dir, depth, names, n) && c == AsNode(n) {
      var m := StoredAs(be, dir, depth, AsNode(n)).value;
      SourceTreeHas(be, dir, depth, m);
      assert m in nodes && m.name == names[0] && TreeBuild.Bare(m) == c;
    }
  }

  lemma {:induction false} InnerInSource(be: Backend, dir: TreeBuild.Path, depth: nat, names: seq<Name>, c: Node)
    requires depth <= MAX_DEPTH && |names| > 1
    ensures InTree(SourceTree(be, dir, depth), names, c) <==>
              exists n :: PathShows(be, dir, depth, names, n) && c == AsNode(n)
    decreases |names|, 0
  {
    var sub := Child(dir, names[0]);
    if depth < MAX_DEPTH { InSourceIff(be, sub, depth + 1, names[1..], c); }
    if InTree(SourceTree(be, dir, depth), names, c) {
      InnerIsEntered(be, dir, depth, names, c);
      var n :| PathShows(be, sub, depth + 1, names[1..], n) && c == AsNode(n);
      PathFirst(be, dir, depth, names, n);
    }
    if n :| PathShows(be, dir, depth, names, n) && c == AsNode(n) {
      PathFirst(be, dir, depth, names, n);
      EnteredIsInner(be, dir, depth, names, c);
    }
  }

  lemma {:induction false} InnerIsEntered(be: Backend, dir: TreeBuild.Path, depth: nat, names: seq<Name>, c: Node)
    requires depth <= MAX_DEPTH && |names| > 1 && InTree(SourceTree(be, dir, depth), names, c)
    ensures Entered(be, dir, depth, names, 0) && InTree(SourceTree(be, Child(dir, names[0]), depth + 1), names[1..], c)
  {
    var m :| m in SourceTree(be, dir, depth) && m.name == names[0] && m.subtree.Some? && m.subtree.value.TreeBlob? &&
             InTree(m.subtree.value.nodes, names[1..], c);
    SourceTreeHas(be, dir, depth, m);
    var d :| Shows(be, dir, d) && StoredAs(be, dir, depth, AsNode(d)) == Some(m);
    assert names[..0] == [] && Under(dir, []) == dir;
  }

  lemma {:induction false} EnteredIsInner(be: Backend, dir: TreeBuild.Path, depth: nat, names: seq<Name>, c: Node)
    requires depth <= MAX_DEPTH && |names| > 1 && Entered(be, dir, depth, names, 0)
    requires InTree(SourceTree(be, Child(dir, names[0]), depth + 1), names[1..], c)
    ensures InTree(SourceTree(be, dir, depth), names, c)
  {
    assert names[..0] == [] && Under(dir, []) == dir;
    var d :| Shows(be, Under(dir, names[..0]), d) && d.name == names[0] && d.nodeType.Dir?;
    var m := StoredAs(be, dir, depth, AsNode(d)).value;
    SourceTreeHas(be, dir, depth, m);
    assert m in SourceTree(be, dir, depth);
  }

  // ---------------------------------------------------------------- errors

  /** The directory at the end of the path is entered and cannot be listed. */
  ghost predicate Unlisted(be: Backend, dir: TreeBuild.Path, depth: nat, names: seq<Name>)
  {
    && Children(be, Under(dir, names)).None?
    && forall k :: 0 <= k < |names| ==> Entered(be, dir, depth, names, k)
  }

  /** At the end of the path there is a directory beyond the depth limit. */
  ghost predicate TooDeep(be: Backend, dir: TreeBuild.Path, depth: nat, names: seq<Name>)
  {
    && names != [] && be.recursive && depth + |names| > MAX_DEPTH
    && (exists n :: Shows(be, Under(dir, names[..|names| - 1]), n) && n.name == names[|names| - 1] && n.nodeType.Dir?)
    && forall k :: 0 <= k < |names| - 1 ==> Entered(be, dir, depth, names, k)
  }

  ghost predicate Troubled(be: Backend, dir: TreeBuild.Path, depth: nat)
  {
    exists names :: Unlisted(be, dir, depth, names) || TooDeep(be, dir, depth, names)
  }

  /** The entry is a directory to be entered, which is too deep or has an error inside. */
  ghost predicate TroubledChild(be: Backend, dir: TreeBuild.Path, depth: nat, c: Node)
  {
    && be.wanted(Child(dir, c.name), c) && c.nodeType.Dir? && be.recursive
    && (depth >= MAX_DEPTH || Troubled(be, Child(dir, c.name), depth + 1))
  }

  lemma {:induction false} UnlistedFirst(be: Backend, dir: TreeBuild.Path, depth: nat, names: seq<Name>)
    requires names != []
    ensures Unlisted(be, dir, depth, names) <==>
              Entered(be, dir, depth, names, 0) && Unlisted(be, Child(dir, names[0]), depth + 1, names[1..])
  {
    var rest, sub, d := names[1..], Child(dir, names[0]), depth + 1;
    if Unlisted(be, dir, depth, names) {
      forall k | 0 <= k < |rest| ensures Entered(be, sub, d, rest, k) { EnteredLater(be, dir, depth, names, k + 1); }
    }
    if Entered(be, dir, depth, names, 0) && Unlisted(be, sub, d, rest) {
      forall k | 0 <= k < |names| ensures Entered(be, dir, depth, names, k) {
        if k > 0 { EnteredLater(be, dir, depth, names, k); }
      }
    }
  }

  lemma {:induction false} TooDeepFirst(be: Backend, dir: TreeBuild.Path, depth: nat, names: seq<Name>)
    requires |names| > 1
    ensures TooDeep(be, dir, depth, names) <==>
              Entered(be, dir, depth, names, 0) && TooDeep(be, Child(dir, names[0]), depth + 1, names[1..])
  {
    var rest, sub, d := names[1..], Child(dir, names[0]), depth + 1;
    EnteredLater(be, dir, depth, names, |names| - 1);
    if TooDeep(be, dir, depth, names) {
      forall k | 0 <= k < |rest| - 1 ensures Entered(be, sub, d, rest, k) {
        EnteredLater(be, dir, depth, names, k + 1);
      }
    }
    if Entered(be, dir, depth, names, 0) && TooDeep(be, sub, d, rest) {
      forall k | 0 <= k < |names| - 1 ensures Entered(be, dir, depth, names, k) {
        if k > 0 { EnteredLater(be, dir, depth, names, k); }
      }
    }
  }

  lemma {:induction false} ChildOf(be: Backend, dir: TreeBuild.Path, name: Name) returns (c: Node)
    requires exists n :: Shows(be, dir, n) && n.name == name && n.nodeType.Dir?
    ensures Children(be, dir).Some? && c in Children(be, dir).value && c.name == name && c.nodeType.Dir?
    ensures be.wanted(Child(dir, name), c)
  {
    var n :| Shows(be, dir, n) && n.name == name && n.nodeType.Dir?;
    c := AsNode(n);
    ChildIff(be, dir, c);
  }

  lemma {:induction false} ShownBy(be: Backend, dir: TreeBuild.Path, c: Node)
    requires Children(be, dir).Some? && c in Children(be, dir).value && be.wanted(Child(dir, c.name), c)
    ensures exists n :: Shows(be, dir, n) && n.name == c.name && (n.nodeType.Dir? <==> c.nodeType.Dir?)
  {
    ChildIff(be, dir, c);
    var n :| n in be.readdir(dir).value && Qualifies(be, n) && c == AsNode(n);
    assert Shows(be, dir, n);
  }

  /** An error at or below a directory is one of the directory itself or one of a child. */
  lemma {:induction false} TroubleFirst(be: Backend, dir: TreeBuild.Path, depth: nat)
    requires depth <= MAX_DEPTH
    ensures Troubled(be, dir, depth) <==>
      || Children(be, dir).None?
      || exists c :: c in Children(be, dir).value && TroubledChild(be, dir, depth, c)
  {
    if Children(be, dir).None? {
      assert Unlisted(be, dir, depth, []);
    } else {
      if Troubled(be, dir, depth) { TroubleInside(be, dir, depth); }
      if c :| c in Children(be, dir).value && TroubledChild(be, dir, depth, c) { TroubleOfChild(be, dir, depth, c); }
    }
  }

  lemma {:induction false} TroubleInside(be: Backend, dir: TreeBuild.Path, depth: nat)
    requires depth <= MAX_DEPTH && Children(be, dir).Some? && Troubled(be, dir, depth)
    ensures exists c :: c in Children(be, dir).value && TroubledChild(be, dir, depth, c)
  {
    var names :| Unlisted(be, dir, depth, names) || TooDeep(be, dir, depth, names);
    assert names != [];
    assert names[..0] == [] && Under(dir, []) == dir;
    if Unlisted(be, dir, depth, names) {
      UnlistedFirst(be, dir, depth, names);
    } else if |names| > 1 {
      TooDeepFirst(be, dir, depth, names);
    }
    var c := ChildOf(be, dir, names[0]);
    assert TroubledChild(be, dir, depth, c);
  }

  lemma {:induction false} TroubleOfChild(be: Backend, dir: TreeBuild.Path, depth: nat, c: Node)
    requires depth <= MAX_DEPTH && Children(be, dir).Some? && c in Children(be, dir).value
    requires TroubledChild(be, dir, depth, c)
    ensures Troubled(be, dir, depth)
  {
    ShownBy(be, dir, c);
    assert Under(dir, []) == dir;
    if depth == MAX_DEPTH {
      assert [c.name][..0] == [];
      assert TooDeep(be, dir, depth, [c.name]);
    } else {
      var rest :| Unlisted(be, Child(dir, c.name), depth + 1, rest) || TooDeep(be, Child(dir, c.name), depth + 1, rest);
      var names := [c.name] + rest;
      assert names[1..] == rest && names[..0] == [];
      assert Entered(be, dir, depth, names, 0);
      UnlistedFirst(be, dir, depth, names);
      if rest != [] { TooDeepFirst(be, dir, depth, names); }
    }
  }

  lemma {:induction false} JoinFails(a: Out, b: Out)
    ensures Failure in Join(a, b).items <==> Failure in a.items || Failure in b.items
  {
  }

  lemma {:induction false} YieldFails(item: Item, o: Out)
    ensures Failure in Yield(item, o).items <==> item == Failure || Failure in o.items
  {
  }

  /** The walk reports an error if and only if a directory that it enters cannot be listed, or there is one beyond
      the depth limit. */
  lemma {:induction false} ReportsIff(be: Backend, dir: TreeBuild.Path, depth: nat, visited: set<TreeBuild.Path>)
    requires depth <= MAX_DEPTH && GoodSource(be)
    requires forall v :: v in visited ==> !(dir <= v && |dir| < |v|)
    ensures Failure in Walk(be, dir, depth, visited).items <==> Troubled(be, dir, depth)
    decreases MAX_DEPTH - depth, 1, 0
  {
    TroubleFirst(be, dir, depth);
    if Children(be, dir).Some? {
      ChildrenPlain(be, dir);
      ChildrenReport(be, dir, depth, Children(be, dir).value, visited);
    } else {
      YieldFails(Failure, Nothing(visited));
    }
  }

  lemma {:induction false} ChildrenReport(be: Backend, dir: TreeBuild.Path, depth: nat, cs: seq<Node>,
                                          visited: set<TreeBuild.Path>)
    requires depth <= MAX_DEPTH && GoodSource(be) && Plain(cs) && Unseen(dir, cs, visited)
    ensures Failure in WalkChildren(be, dir, depth, cs, visited).items <==>
              exists c :: c in cs && TroubledChild(be, dir, depth, c)
    decreases MAX_DEPTH - depth, 0, |cs|
  {
    if cs != [] {
      var c, p := cs[0], Child(dir, cs[0].name);
      assert c in cs && cs == [c] + cs[1..];
      assert forall x :: x in cs <==> x == c || x in cs[1..];
      match ChildTurn(be, Pending(dir, depth), c, visited)
      case Skip =>
        StillUnseen(dir, cs, visited, visited);
        ChildrenReport(be, dir, depth, cs[1..], visited);
      case Emit(item) =>
        assert p !in visited;
        StillUnseen(dir, cs, visited, visited);
        ChildrenReport(be, dir, depth, cs[1..], visited);
        YieldFails(item, WalkChildren(be, dir, depth, cs[1..], visited));
      case Descend(item, d) =>
        DescendReports(be, dir, depth, cs, visited, item, d);
    }
  }

  lemma {:induction false} DescendReports(be: Backend, dir: TreeBuild.Path, depth: nat, cs: seq<Node>,
                                          visited: set<TreeBuild.Path>, item: Item, d: Pending)
    requires depth <= MAX_DEPTH && GoodSource(be) && cs != [] && Plain(cs) && Unseen(dir, cs, visited)
    requires ChildTurn(be, Pending(dir, depth), cs[0], visited) == Descend(item, d)
    ensures Failure in WalkChildren(be, dir, depth, cs, visited).items <==>
              TroubledChild(be, dir, depth, cs[0]) || exists c :: c in cs[1..] && TroubledChild(be, dir, depth, c)
    decreases MAX_DEPTH - depth, 0, |cs|, 0
  {
    var v := visited + {d.path};
    assert cs[0] in cs;
    DescendShape(be, dir, depth, cs, visited, item, d);
    ReportsIff(be, d.path, d.depth, v);
    WalkVisits(be, d.path, d.depth, v);
    var inside := Walk(be, d.path, d.depth, v);
    StillUnseen(dir, cs, visited, inside.visited);
    ChildrenReport(be, dir, depth, cs[1..], inside.visited);
    var after := WalkChildren(be, dir, depth, cs[1..], inside.visited);
    ChildrenDescend(be, Pending(dir, depth), cs, visited, item, d);
    YieldFails(item, Join(inside, after));
    JoinFails(inside, after);
  }
}
