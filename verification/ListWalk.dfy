/** `ListAdapter`: the walk over a source, as an iterator with a stack of open directories, proved
    against a recursive walk. */
module ListWalk {
  import opened Repo
  import opened NameOrder
  import opened TreeBuild
  import opened PreOrder

  const MAX_DEPTH: nat := 10_000

  /** What the walk reads and how it is configured. `readdir` gives the entries of a directory, or an error
      if there is any; `stat` says whether a path exists, or fails; a directory that holds one of the marker
      files is listed as empty; `listed` stands for the tests on attributes, size and device; `wanted` for
      glob and gitignore rules. Nothing bounds the nesting: a symlink cycle that the source reports as
      directories goes on for ever. */
  datatype Backend = Backend(
    readdir: Path -> Option<seq<Node>>,
    stat: Path -> Option<bool>,
    markers: seq<Name>,
    listed: Node -> bool,
    wanted: (Path, Node) -> bool,
    recursive: bool)

  datatype Item = Found(path: Path, node: Node) | Failure

  /** The name has no component but the directory itself: it is made of slashes, and of dots that stand alone. */
  predicate Nameless(name: Name)
  {
    forall i :: 0 <= i < |name| ==>
      || name[i] == '/'
      || (name[i] == '.' && (i == 0 || name[i - 1] == '/') && (i == |name| - 1 || name[i + 1] == '/'))
  }

  function Filter(be: Backend, nodes: seq<Node>): seq<Node>
  {
    if nodes == [] then []
    else
      var n := nodes[0];
      (if !Nameless(n.name) && be.listed(n) then [Node(n.name, n.nodeType, n.meta, None, None)] else []) +
          Filter(be, nodes[1..])
  }

  /** Whether one of the markers is in the directory: the first that is there, or whose test fails, decides. */
  function Marked(be: Backend, dir: Path, markers: seq<Name>): Option<bool>
  {
    if markers == [] then Some(false)
    else if be.stat(Child(dir, markers[0])) == Some(false) then Marked(be, dir, markers[1..])
    else be.stat(Child(dir, markers[0]))
  }

  /** The children of a directory as they are walked. */
  function Children(be: Backend, dir: Path): Option<seq<Node>>
  {
    var marked := Marked(be, dir, be.markers);
    if marked.None? then None
    else if marked.value then Some([])
    else if be.readdir(dir).None? then None
    else Some(SortNodes(Filter(be, be.readdir(dir).value)))
  }

  lemma {:induction false} FilterMore(be: Backend, nodes: seq<Node>, n: Node)
    ensures Filter(be, nodes + [n]) == Filter(be, nodes) + Filter(be, [n])
  {
    if nodes == [] {
      assert [] + [n] == [n];
    } else {
      assert (nodes + [n])[1..] == nodes[1..] + [n];
      FilterMore(be, nodes[1..], n);
      Assoc(Filter(be, [nodes[0]]), Filter(be, nodes[1..]), Filter(be, [n]));
    }
  }

  /** `list_dir_children`. */
  method ListDirChildren(be: Backend, dir: Path) returns (children: Option<seq<Node>>)
    ensures children == Children(be, dir)
  {
    for i := 0 to |be.markers|
      invariant Marked(be, dir, be.markers[i..]) == Marked(be, dir, be.markers)
    {
      var there := be.stat(Child(dir, be.markers[i]));
      if there.None? { return None; }
      if there.value { return Some([]); }
    }
    var entries := be.readdir(dir);
    if entries.None? { return None; }
    var out: seq<Node> := [];
    for i := 0 to |entries.value|
      invariant out == Filter(be, entries.value[..i])
    {
      var n := entries.value[i];
      FilterMore(be, entries.value[..i], n);
      assert entries.value[..i] + [n] == entries.value[..i + 1];
      if !Nameless(n.name) && be.listed(n) {
        out := out + [Node(n.name, n.nodeType, n.meta, None, None)];
      }
    }
    assert entries.value[..|entries.value|] == entries.value;
    return Some(SortNodes(out));
  }

  // ---------------------------------------------------------------- the recursive walk

  /** Items in order, directories expanded in order, and the paths of all directories seen. */
  datatype Out = Out(items: seq<Item>, expanded: seq<Path>, visited: set<Path>)

  function Join(a: Out, b: Out): Out { Out(a.items + b.items, a.expanded + b.expanded, b.visited) }

  function Nothing(visited: set<Path>): Out { Out([], [], visited) }

  function Yield(item: Item, o: Out): Out { o.(items := [item] + o.items) }

  function Expand(dir: Path, o: Out): Out { o.(expanded := [dir] + o.expanded) }

  function Walk(be: Backend, dir: Path, depth: nat, visited: set<Path>): Out
    requires depth <= MAX_DEPTH
    decreases MAX_DEPTH - depth, 1, 0
  {
    match Children(be, dir)
    case None => Expand(dir, Yield(Failure, Nothing(visited)))
    case Some(cs) => Expand(dir, WalkChildren(be, dir, depth, cs, visited))
  }

  function WalkChildren(be: Backend, dir: Path, depth: nat, cs: seq<Node>, visited: set<Path>): Out
    requires depth <= MAX_DEPTH
    decreases MAX_DEPTH - depth, 0, |cs|
  {
    if cs == [] then Nothing(visited)
    else
      var c, p := cs[0], Child(dir, cs[0].name);
      if !be.wanted(p, c) then WalkChildren(be, dir, depth, cs[1..], visited)
      else if !c.nodeType.Dir? || !be.recursive then Yield(Found(p, c), WalkChildren(be, dir, depth, cs[1..], visited))
      else if depth + 1 > MAX_DEPTH then Yield(Failure, WalkChildren(be, dir, depth, cs[1..], visited))
      else if p in visited then Yield(Found(p, c), WalkChildren(be, dir, depth, cs[1..], visited))
      else
        var inside := Walk(be, p, depth + 1, visited + {p});
        Yield(Found(p, c), Join(inside, WalkChildren(be, dir, depth, cs[1..], inside.visited)))
  }

  // ---------------------------------------------------------------- what is ahead of the iterator

  datatype Pending = Pending(path: Path, depth: nat)

  datatype Frame = Frame(dir: Pending, children: seq<Node>)

  /** The fields of the iterator. */
  datatype Cursor = Cursor(dirs: seq<Path>, stack: seq<Frame>, descend: Option<Pending>, visited: set<Path>)
  {
    ghost predicate Valid()
    {
      && (forall f :: f in stack ==> f.dir.depth <= MAX_DEPTH)
      && (descend.Some? ==> descend.value.depth <= MAX_DEPTH)
    }
  }

  function WalkStack(be: Backend, stack: seq<Frame>, visited: set<Path>): Out
    requires forall f :: f in stack ==> f.dir.depth <= MAX_DEPTH
  {
    if stack == [] then Nothing(visited)
    else
      var top := stack[|stack| - 1];
      assert top in stack;
      var o := WalkChildren(be, top.dir.path, top.dir.depth, top.children, visited);
      Join(o, WalkStack(be, stack[..|stack| - 1], o.visited))
  }

  function WalkRoots(be: Backend, dirs: seq<Path>, visited: set<Path>): Out
  {
    if dirs == [] then Nothing(visited)
    else
      var o := Walk(be, dirs[0], 0, visited);
      Join(o, WalkRoots(be, dirs[1..], o.visited))
  }

  function AfterDescend(be: Backend, dirs: seq<Path>, stack: seq<Frame>, visited: set<Path>): Out
    requires forall f :: f in stack ==> f.dir.depth <= MAX_DEPTH
  {
    var o := WalkStack(be, stack, visited);
    Join(o, WalkRoots(be, dirs, o.visited))
  }

  /** Everything the iterator still has to yield. */
  function Ahead(be: Backend, c: Cursor): Out
    requires c.Valid()
  {
    if c.descend.None? then AfterDescend(be, c.dirs, c.stack, c.visited)
    else
      var o := Walk(be, c.descend.value.path, c.descend.value.depth, c.visited);
      Join(o, AfterDescend(be, c.dirs, c.stack, o.visited))
  }

  lemma {:induction false} JoinAssoc(a: Out, b: Out, c: Out)
    ensures Join(a, Join(b, c)) == Join(Join(a, b), c)
  {
    Assoc(a.items, b.items, c.items);
    Assoc(a.expanded, b.expanded, c.expanded);
  }

  lemma {:induction false} JoinYield(item: Item, a: Out, b: Out)
    ensures Join(Yield(item, a), b) == Yield(item, Join(a, b))
  {
    Assoc([item], a.items, b.items);
  }

  lemma {:induction false} JoinExpand(dir: Path, a: Out, b: Out)
    ensures Join(Expand(dir, a), b) == Expand(dir, Join(a, b))
  {
    Assoc([dir], a.expanded, b.expanded);
  }

  lemma {:induction false} JoinNothing(v: set<Path>, o: Out)
    ensures Join(Nothing(v), o) == o
  {
    assert [] + o.items == o.items && [] + o.expanded == o.expanded;
  }

  /** A frame on top of the stack comes before the rest. */
  lemma {:induction false} StackPush(be: Backend, dirs: seq<Path>, stack: seq<Frame>, f: Frame, visited: set<Path>)
    requires f.dir.depth <= MAX_DEPTH && forall g :: g in stack ==> g.dir.depth <= MAX_DEPTH
    ensures forall g :: g in stack + [f] ==> g.dir.depth <= MAX_DEPTH
    ensures var o := WalkChildren(be, f.dir.path, f.dir.depth, f.children, visited);
      AfterDescend(be, dirs, stack + [f], visited) == Join(o, AfterDescend(be, dirs, stack, o.visited))
  {
    var o := WalkChildren(be, f.dir.path, f.dir.depth, f.children, visited);
    assert (stack + [f])[..|stack|] == stack;
    var below := WalkStack(be, stack, o.visited);
    JoinAssoc(o, below, WalkRoots(be, dirs, below.visited));
  }

  /** The pending directory is listed. */
  lemma {:induction false} OpenAhead(be: Backend, c: Cursor)
    requires c.Valid() && c.descend.Some?
    ensures var d, cs := c.descend.value, Children(be, c.descend.value.path);
      var c0 := c.(descend := None);
      && (cs.None? ==> Ahead(be, c) == Expand(d.path, Yield(Failure, Ahead(be, c0))))
      && (cs.Some? ==>
            var c1 := c0.(stack := c.stack + [Frame(d, cs.value)]);
            c1.Valid() && Ahead(be, c) == Expand(d.path, Ahead(be, c1)))
  {
    var d, cs := c.descend.value, Children(be, c.descend.value.path);
    var after := AfterDescend(be, c.dirs, c.stack, c.visited);
    if cs.None? {
      JoinExpand(d.path, Yield(Failure, Nothing(c.visited)), after);
      JoinYield(Failure, Nothing(c.visited), after);
      JoinNothing(c.visited, after);
    } else {
      StackPush(be, c.dirs, c.stack, Frame(d, cs.value), c.visited);
      var o := WalkChildren(be, d.path, d.depth, cs.value, c.visited);
      JoinExpand(d.path, o, AfterDescend(be, c.dirs, c.stack, o.visited));
    }
  }

  /** With no directory open the next root is next. */
  lemma {:induction false} RootAhead(be: Backend, c: Cursor)
    requires c.Valid() && c.descend.None? && c.stack == [] && c.dirs != []
    ensures var c1 := c.(dirs := c.dirs[1..], descend := Some(Pending(c.dirs[0], 0)));
      c1.Valid() && Ahead(be, c) == Ahead(be, c1)
  {
    JoinNothing(c.visited, WalkRoots(be, c.dirs, c.visited));
    var o := Walk(be, c.dirs[0], 0, c.visited);
    JoinNothing(o.visited, WalkRoots(be, c.dirs[1..], o.visited));
  }

  lemma {:induction false} EmptyAhead(be: Backend, c: Cursor)
    requires c.Valid() && c.descend.None? && c.stack == [] && c.dirs == []
    ensures Ahead(be, c) == Nothing(c.visited)
  {
    JoinNothing(c.visited, Nothing(c.visited));
  }

  /** The innermost open directory. */
  lemma {:induction false} FrameAhead(be: Backend, c: Cursor)
    requires c.Valid() && c.descend.None? && c.stack != []
    ensures var below, top := c.stack[..|c.stack| - 1], c.stack[|c.stack| - 1];
      && (forall g :: g in below ==> g.dir.depth <= MAX_DEPTH) && top.dir.depth <= MAX_DEPTH
      && var o := WalkChildren(be, top.dir.path, top.dir.depth, top.children, c.visited);
         Ahead(be, c) == Join(o, AfterDescend(be, c.dirs, below, o.visited))
  {
    var below, top := c.stack[..|c.stack| - 1], c.stack[|c.stack| - 1];
    assert top in c.stack && c.stack == below + [top];
    StackPush(be, c.dirs, below, top, c.visited);
  }

  lemma {:induction false} FrameDone(be: Backend, c: Cursor)
    requires c.Valid() && c.descend.None? && c.stack != [] && c.stack[|c.stack| - 1].children == []
    ensures var c1 := c.(stack := c.stack[..|c.stack| - 1]); c1.Valid() && Ahead(be, c) == Ahead(be, c1)
  {
    FrameAhead(be, c);
    JoinNothing(c.visited, AfterDescend(be, c.dirs, c.stack[..|c.stack| - 1], c.visited));
  }

  /** What happens to the next child: nothing, an item, or an item and a directory to descend into. */
  datatype Turn = Skip | Emit(item: Item) | Descend(item: Item, dir: Pending)

  function ChildTurn(be: Backend, dir: Pending, child: Node, visited: set<Path>): Turn
  {
    var p := Child(dir.path, child.name);
    if !be.wanted(p, child) then Skip
    else if !child.nodeType.Dir? || !be.recursive then Emit(Found(p, child))
    else if dir.depth + 1 > MAX_DEPTH then Emit(Failure)
    else if p in visited then Emit(Found(p, child))
    else Descend(Found(p, child), Pending(p, dir.depth + 1))
  }

  /** The cursor without the next child of the innermost directory. */
  function DropChild(c: Cursor): Cursor
    requires c.stack != [] && c.stack[|c.stack| - 1].children != []
  {
    var top := c.stack[|c.stack| - 1];
    c.(stack := c.stack[..|c.stack| - 1] + [Frame(top.dir, top.children[1..])])
  }

  /** The rest of the innermost directory, from the child on that was dropped. */
  lemma {:induction false} DroppedAhead(be: Backend, c: Cursor, visited: set<Path>)
    requires c.Valid() && c.descend.None? && c.stack != [] && c.stack[|c.stack| - 1].children != []
    ensures var below, top, c1 := c.stack[..|c.stack| - 1], c.stack[|c.stack| - 1], DropChild(c);
      && c1.Valid() && (forall g :: g in below ==> g.dir.depth <= MAX_DEPTH) && top.dir.depth <= MAX_DEPTH
      && var o := WalkChildren(be, top.dir.path, top.dir.depth, top.children[1..], visited);
         AfterDescend(be, c1.dirs, c1.stack, visited) == Join(o, AfterDescend(be, c.dirs, below, o.visited))
  {
    var below, top := c.stack[..|c.stack| - 1], c.stack[|c.stack| - 1];
    assert top in c.stack;
    StackPush(be, c.dirs, below, Frame(top.dir, top.children[1..]), visited);
  }

  lemma {:induction false} ChildAhead(be: Backend, c: Cursor)
    requires c.Valid() && c.descend.None? && c.stack != [] && c.stack[|c.stack| - 1].children != []
    ensures var (t, c') := Taken(be, c);
      c'.Valid() && Ahead(be, c) == if t.Skip? then Ahead(be, c') else Yield(t.item, Ahead(be, c'))
  {
    var below, top := c.stack[..|c.stack| - 1], c.stack[|c.stack| - 1];
    FrameAhead(be, c);
    DroppedAhead(be, c, c.visited);
    var o := WalkChildren(be, top.dir.path, top.dir.depth, top.children[1..], c.visited);
    match ChildTurn(be, top.dir, top.children[0], c.visited)
    case Skip =>
    case Emit(item) => JoinYield(item, o, AfterDescend(be, c.dirs, below, o.visited));
    case Descend(item, d) => DescendAhead(be, c, item, d);
  }

  lemma {:induction false} DescendAhead(be: Backend, c: Cursor, item: Item, d: Pending)
    requires c.Valid() && c.descend.None? && c.stack != [] && c.stack[|c.stack| - 1].children != []
    requires Taken(be, c).0 == Descend(item, d)
    ensures Taken(be, c).1.Valid() && Ahead(be, c) == Yield(item, Ahead(be, Taken(be, c).1))
  {
    var below, top, c' := c.stack[..|c.stack| - 1], c.stack[|c.stack| - 1], Taken(be, c).1;
    FrameAhead(be, c);
    var inside := Walk(be, d.path, d.depth, c.visited + {d.path});
    DroppedAhead(be, c, inside.visited);
    var rest := WalkChildren(be, top.dir.path, top.dir.depth, top.children[1..], inside.visited);
    var tail := AfterDescend(be, c.dirs, below, rest.visited);
    calc {
      Ahead(be, c);
      { ChildrenDescend(be, top.dir, top.children, c.visited, item, d); }
      Join(Yield(item, Join(inside, rest)), tail);
      { JoinYield(item, Join(inside, rest), tail); JoinAssoc(inside, rest, tail); }
      Yield(item, Join(inside, Join(rest, tail)));
      Yield(item, Ahead(be, c'));
    }
  }

  lemma {:induction false} ChildrenDescend(be: Backend, dir: Pending, cs: seq<Node>, visited: set<Path>, item: Item,
                                           d: Pending)
    requires cs != [] && dir.depth <= MAX_DEPTH && ChildTurn(be, dir, cs[0], visited) == Descend(item, d)
    ensures var inside := Walk(be, d.path, d.depth, visited + {d.path});
      WalkChildren(be, dir.path, dir.depth, cs, visited)
        == Yield(item, Join(inside, WalkChildren(be, dir.path, dir.depth, cs[1..], inside.visited)))
  {
  }

  function Size(stack: seq<Frame>): nat
  {
    if stack == [] then 0 else |stack[|stack| - 1].children| + Size(stack[..|stack| - 1])
  }

  /** The order in which the loop makes progress. */
  ghost predicate Shrinks(c: Cursor, before: Cursor)
  {
    || |c.dirs| < |before.dirs|
    || (c.dirs == before.dirs && c.descend.None? &&
        (Size(c.stack) < Size(before.stack) || (Size(c.stack) == Size(before.stack) && |c.stack| < |before.stack|)))
  }

  /** What was ahead is ahead still, up to the directories listed since. */
  ghost predicate Agrees(be: Backend, c: Cursor, log: seq<Path>, goal: Out)
  {
    && c.Valid()
    && var a := Ahead(be, c);
       a.items == goal.items && a.visited == goal.visited && log + a.expanded == goal.expanded
  }

  /** `item` was next, and the rest is ahead. */
  ghost predicate Yields(be: Backend, c: Cursor, log: seq<Path>, item: Item, goal: Out)
  {
    && c.Valid()
    && var a := Ahead(be, c);
       [item] + a.items == goal.items && a.visited == goal.visited && log + a.expanded == goal.expanded
  }

  /** The cursor after listing the pending directory. */
  function Listed(be: Backend, c: Cursor): Cursor
    requires c.descend.Some?
  {
    var cs := Children(be, c.descend.value.path);
    c.(descend := None, stack := if cs.None? then c.stack else c.stack + [Frame(c.descend.value, cs.value)])
  }

  /** The cursor after taking the next child. */
  function Taken(be: Backend, c: Cursor): (Turn, Cursor)
    requires c.stack != [] && c.stack[|c.stack| - 1].children != []
  {
    var top, c1 := c.stack[|c.stack| - 1], DropChild(c);
    var t := ChildTurn(be, top.dir, top.children[0], c.visited);
    (t, if t.Descend? then c1.(descend := Some(t.dir), visited := c.visited + {t.dir.path}) else c1)
  }

  lemma {:induction false} ListStep(be: Backend, c: Cursor, log: seq<Path>, goal: Out)
    requires Agrees(be, c, log, goal) && c.descend.Some?
    ensures var d, cs := c.descend.value, Children(be, c.descend.value.path);
      && (cs.None? ==> Yields(be, Listed(be, c), log + [d.path], Failure, goal))
      && (cs.Some? ==> Agrees(be, Listed(be, c), log + [d.path], goal))
  {
    OpenAhead(be, c);
    var d, c0 := c.descend.value, c.(descend := None);
    var cs := Children(be, d.path);
    var rest := if cs.None? then Ahead(be, c0).expanded
        else Ahead(be, c0.(stack := c.stack + [Frame(d, cs.value)])).expanded;
    Assoc(log, [d.path], rest);
  }

  lemma {:induction false} RootStep(be: Backend, c: Cursor, log: seq<Path>, goal: Out)
    requires Agrees(be, c, log, goal) && c.descend.None? && c.stack == [] && c.dirs != []
    ensures Agrees(be, c.(dirs := c.dirs[1..], descend := Some(Pending(c.dirs[0], 0))), log, goal)
  {
    RootAhead(be, c);
  }

  lemma {:induction false} DoneStep(be: Backend, c: Cursor, log: seq<Path>, goal: Out)
    requires Agrees(be, c, log, goal) && c.descend.None? && c.stack != [] && c.stack[|c.stack| - 1].children == []
    ensures Agrees(be, c.(stack := c.stack[..|c.stack| - 1]), log, goal)
    ensures Size(c.stack[..|c.stack| - 1]) == Size(c.stack)
  {
    FrameDone(be, c);
  }

  lemma {:induction false} ChildStep(be: Backend, c: Cursor, log: seq<Path>, goal: Out)
    requires Agrees(be, c, log, goal) && c.descend.None? && c.stack != [] && c.stack[|c.stack| - 1].children != []
    ensures var (t, c') := Taken(be, c);
      if t.Skip? then Agrees(be, c', log, goal) else Yields(be, c', log, t.item, goal)
  {
    ChildAhead(be, c);
  }

  /** What one turn of the loop achieves. */
  ghost predicate Progress(be: Backend, before: Cursor, after: Cursor, log: seq<Path>, goal: Out, done: bool,
                           r: Option<Item>)
  {
    if !done then Agrees(be, after, log, goal) && Shrinks(after, before)
    else if r.None? then Agrees(be, after, log, goal) && Ahead(be, after) == Nothing(after.visited)
    else Yields(be, after, log, r.value, goal)
  }

  lemma {:induction false} EndTurn(be: Backend, c: Cursor, log: seq<Path>, goal: Out)
    requires Agrees(be, c, log, goal) && c.descend.None? && c.stack == [] && c.dirs == []
    ensures Progress(be, c, c, log, goal, true, None)
  {
    EmptyAhead(be, c);
  }

  lemma {:induction false} RootTurn(be: Backend, c: Cursor, log: seq<Path>, goal: Out)
    requires Agrees(be, c, log, goal) && c.descend.None? && c.stack == [] && c.dirs != []
    ensures Progress(be, c, c.(dirs := c.dirs[1..], descend := Some(Pending(c.dirs[0], 0))), log, goal, false, None)
  {
    RootStep(be, c, log, goal);
  }

  lemma {:induction false} DoneTurn(be: Backend, c: Cursor, log: seq<Path>, goal: Out)
    requires Agrees(be, c, log, goal) && c.descend.None? && c.stack != [] && c.stack[|c.stack| - 1].children == []
    ensures Progress(be, c, c.(stack := c.stack[..|c.stack| - 1]), log, goal, false, None)
  {
    DoneStep(be, c, log, goal);
  }

  lemma {:induction false} NextChildTurn(be: Backend, c: Cursor, log: seq<Path>, goal: Out)
    requires Agrees(be, c, log, goal) && c.descend.None? && c.stack != [] && c.stack[|c.stack| - 1].children != []
    ensures var (t, c') := Taken(be, c);
      Progress(be, c, c', log, goal, !t.Skip?, if t.Skip? then None else Some(t.item))
  {
    ChildStep(be, c, log, goal);
    DropChildSize(c);
  }

  // ---------------------------------------------------------------- the iterator

  lemma {:induction false} DropChildSize(c: Cursor)
    requires c.stack != [] && c.stack[|c.stack| - 1].children != []
    ensures Size(DropChild(c).stack) < Size(c.stack)
  {
    var below := c.stack[..|c.stack| - 1];
    var stack := DropChild(c).stack;
    assert stack[..|stack| - 1] == below;
  }

  /** The first place of a is before any place of b. */
  ghost predicate ComesFirst(roots: seq<Path>, a: Path, b: Path)
  {
    exists k :: 0 <= k < |roots| && roots[k] == a && b !in roots[..k + 1]
  }

  lemma {:induction false} FirstStays(roots: seq<Path>, next: Path)
    ensures forall a, b :: ComesFirst(roots, a, b) ==> ComesFirst(roots + [next], a, b)
    ensures forall a :: a in roots && next !in roots ==> ComesFirst(roots + [next], a, next)
  {
    var all := roots + [next];
    assert forall k :: 0 <= k < |roots| ==> all[..k + 1] == roots[..k + 1] && all[k] == roots[k];
  }

  class ListAdapter {
    const be: Backend
    var dirs: seq<Path>
    var stack: seq<Frame>
    var descend: Option<Pending>
    var visited: set<Path>
    ghost var expanded: seq<Path>   // the directories listed so far

    ghost function State(): (c: Cursor)
      reads this
    {
      Cursor(dirs, stack, descend, visited)
    }

    /** `ListBuilder::build`: every root once, in the order of their first places. */
    constructor (be: Backend, roots: seq<Path>)
      ensures this.be == be && State().Valid() && expanded == []
      ensures forall p :: p in visited <==> p in roots
      ensures Ahead(be, State()) == WalkRoots(be, dirs, visited)
      ensures (forall i, j :: 0 <= i < j < |dirs| ==> dirs[i] != dirs[j]) && forall p :: p in dirs <==> p in roots
      ensures forall i, j :: 0 <= i < j < |dirs| ==> ComesFirst(roots, dirs[i], dirs[j])
    {
      var queue: seq<Path>, seen: set<Path> := [], {};
      for i := 0 to |roots|
        invariant forall p :: p in seen <==> p in roots[..i]
        invariant forall p :: p in queue <==> p in roots[..i]
        invariant forall j, k :: 0 <= j < k < |queue| ==> queue[j] != queue[k]
        invariant forall j, k :: 0 <= j < k < |queue| ==> ComesFirst(roots[..i], queue[j], queue[k])
      {
        assert roots[..i + 1] == roots[..i] + [roots[i]];
        FirstStays(roots[..i], roots[i]);
        if roots[i] !in seen {
          seen := seen + {roots[i]};
          queue := queue + [roots[i]];
        }
      }
      assert roots[..|roots|] == roots;
      this.be := be;
      dirs, stack, descend, visited := queue, [], None, seen;
      expanded := [];
      new;
      JoinNothing(visited, WalkRoots(be, dirs, visited));
    }

    /** The directory that was yielded last is listed. */
    method ListPending() returns (failed: bool)
      requires descend.Some?
      modifies this
      ensures failed <==> Children(be, old(descend).value.path).None?
      ensures State() == Listed(be, old(State())) && expanded == old(expanded) + [old(descend).value.path]
    {
      var dir := descend.value;
      var children := ListDirChildren(be, dir.path);
      descend := None;
      expanded := expanded + [dir.path];
      failed := children.None?;
      if !failed {
        stack := stack + [Frame(dir, children.value)];
      }
    }

    /** The next child of the innermost directory. */
    method TakeChild() returns (t: Turn)
      requires descend.None? && stack != [] && stack[|stack| - 1].children != []
      modifies this`stack, this`descend, this`visited
      ensures (t, State()) == Taken(be, old(State()))
      ensures Size(stack) < old(Size(stack))
    {
      DropChildSize(State());
      var top := stack[|stack| - 1];
      t := ChildTurn(be, top.dir, top.children[0], visited);
      stack := stack[..|stack| - 1] + [Frame(top.dir, top.children[1..])];
      if t.Descend? {
        visited := visited + {t.dir.path};
        descend := Some(t.dir);
      }
    }

    method TakeRoot()
      requires dirs != []
      modifies this`dirs, this`descend
      ensures State() == old(State()).(dirs := old(dirs)[1..], descend := Some(Pending(old(dirs)[0], 0)))
    {
      descend := Some(Pending(dirs[0], 0));
      dirs := dirs[1..];
    }

    method CloseDir()
      requires stack != []
      modifies this`stack
      ensures State() == old(State()).(stack := old(stack)[..|old(stack)| - 1])
    {
      stack := stack[..|stack| - 1];
    }

    /** One turn of the loop, with no directory pending: the next root, the end of a directory or the
        next child. `done` says that the call returns r. */
    method Proceed(ghost goal: Out) returns (done: bool, r: Option<Item>)
      requires descend.None? && Agrees(be, State(), expanded, goal)
      modifies this`dirs, this`stack, this`descend, this`visited
      ensures Progress(be, old(State()), State(), expanded, goal, done, r)
    {
      if stack == [] {
        done := NextRoot(goal);
        return done, None;
      }
      done, r := NextInside(goal);
    }

    method NextRoot(ghost goal: Out) returns (done: bool)
      requires descend.None? && stack == [] && Agrees(be, State(), expanded, goal)
      modifies this`dirs, this`descend
      ensures Progress(be, old(State()), State(), expanded, goal, done, None)
    {
      if dirs == [] {
        EndTurn(be, State(), expanded, goal);
        return true;
      }
      RootTurn(be, State(), expanded, goal);
      TakeRoot();
      return false;
    }

    method NextInside(ghost goal: Out) returns (done: bool, r: Option<Item>)
      requires descend.None? && stack != [] && Agrees(be, State(), expanded, goal)
      modifies this`stack, this`descend, this`visited
      ensures Progress(be, old(State()), State(), expanded, goal, done, r)
    {
      if stack[|stack| - 1].children == [] {
        DoneTurn(be, State(), expanded, goal);
        CloseDir();
        return false, None;
      }
      NextChildTurn(be, State(), expanded, goal);
      var t := TakeChild();
      done, r := !t.Skip?, if t.Skip? then None else Some(t.item);
    }

    /** One item of the recursive walk per call, in its order, until nothing is left. */
    method Next() returns (r: Option<Item>)
      requires State().Valid()
      modifies this
      ensures var goal := old(Ahead(be, State())).(expanded := old(expanded) + old(Ahead(be, State())).expanded);
        && (r.None? ==> Agrees(be, State(), expanded, goal) && Ahead(be, State()) == Nothing(visited))
        && (r.Some? ==> Yields(be, State(), expanded, r.value, goal))
    {
      ghost var goal := Ahead(be, State()).(expanded := expanded + Ahead(be, State()).expanded);
      while true
        invariant Agrees(be, State(), expanded, goal)
        decreases |dirs|, descend.Some?, Size(stack), |stack|
      {
        if descend.Some? {
          ListStep(be, State(), expanded, goal);
          var failed := ListPending();
          if failed { return Some(Failure); }
        }
        var done;
        done, r := Proceed(goal);
        if done { return; }
      }
    }

    /** The whole walk ends, with exactly the items and the expansions of the recursive walk. */
    method Collect() returns (items: seq<Item>)
      requires State().Valid()
      modifies this
      ensures items == old(Ahead(be, State()).items)
      ensures expanded == old(expanded) + old(Ahead(be, State()).expanded)
    {
      items := [];
      ghost var goal := Ahead(be, State()).(expanded := expanded + Ahead(be, State()).expanded);
      while true
        invariant Collected(be, State(), expanded, items, goal)
        decreases |Ahead(be, State()).items|
      {
        ghost var c, log := State(), expanded;
        var r := Next();
        if r.None? { return; }
        CollectStep(be, c, log, items, State(), expanded, r.value, goal);
        items := items + [r.value];
      }
    }
  }

  ghost predicate Collected(be: Backend, c: Cursor, log: seq<Path>, items: seq<Item>, goal: Out)
  {
    c.Valid() && items + Ahead(be, c).items == goal.items && log + Ahead(be, c).expanded == goal.expanded
  }

  lemma {:induction false} CollectStep(be: Backend, c: Cursor, log: seq<Path>, items: seq<Item>, c': Cursor,
                                       log': seq<Path>, item: Item, goal: Out)
    requires Collected(be, c, log, items, goal)
    requires Yields(be, c', log', item, Ahead(be, c).(expanded := log + Ahead(be, c).expanded))
    ensures Collected(be, c', log', items + [item], goal) && |Ahead(be, c').items| < |Ahead(be, c).items|
  {
    Assoc(items, [item], Ahead(be, c').items);
  }
}
