/** From a list of entries to a tree: `TreeIterator` turns paths into open and close events, and
    `TreeArchiver` turns the events into nested trees. */
module TreeBuild {
  import opened Repo

  /** Path components as `Path::components` yields them on Unix. */
  datatype Component = RootDir | CurDir | ParentDir | Normal(name: Name)

  type Path = seq<Component>

  /** One item of the source: the directory itself, or a file with the path of its directory. */
  datatype Entry = Entry(path: Path, node: Node)

  datatype Event = NewTree(path: Path, node: Node) | EndTree | Other(path: Path, node: Node)

  const MISSING_META: Meta := Meta(0, 0)

  /** The node made up for a directory that the source did not list. */
  function Missing(name: Name): Node { Node(name, Dir, MISSING_META, None, None) }

  // ---------------------------------------------------------------- TreeIterator

  /** The index of the last named component, or -1. */
  function LastNormal(path: Path): (i: int)
    ensures -1 <= i < |path|
    ensures i >= 0 ==> path[i].Normal?
    ensures forall j :: i < j < |path| ==> !path[j].Normal?
  {
    if path == [] then -1
    else if path[|path| - 1].Normal? then |path| - 1
    else LastNormal(path[..|path| - 1])
  }

  /** The first named component at or after i, or the length. */
  function NextNormal(path: Path, i: nat): (j: nat)
    requires i <= |path|
    ensures i <= j <= |path| && (j < |path| ==> path[j].Normal?)
    ensures forall k :: i <= k < j ==> !path[k].Normal?
    decreases |path| - i
  {
    if i == |path| || path[i].Normal? then i else NextNormal(path, i + 1)
  }

  lemma {:induction false} TakeMore(path: Path, i: nat)
    requires i < |path|
    ensures path[..i] + [path[i]] == path[..i + 1] && path[..|path|] == path
  {
  }

  datatype Iter = Iter(path: Path, items: seq<Entry>)

  /** One call of `next`. */
  function Next(it: Iter): (r: (Option<Event>, Iter))
  {
    var i := LastNormal(it.path);
    if it.items == [] then
      if i < 0 then (None, it) else (Some(EndTree), it.(path := it.path[..i]))
    else
      var e := it.items[0];
      if !(it.path <= e.path) then
        (Some(EndTree), if i < 0 then it else it.(path := it.path[..i]))
      else
        var j := NextNormal(e.path, |it.path|);
        if j == |e.path| then (Some(Other(e.path, e.node)), Iter(e.path, it.items[1..]))
        else if e.node.nodeType.Dir? && j + 1 == |e.path| then
          (Some(NewTree(e.path, e.node)), Iter(e.path, it.items[1..]))
        else (Some(NewTree(e.path[..j + 1], Missing(e.path[j].name))), it.(path := e.path[..j + 1]))
  }

  class TreeIterator {
    var path: Path
    var items: seq<Entry>

    constructor (entries: seq<Entry>)
      ensures path == [] && items == entries
    {
      path, items := [], entries;
    }

    ghost function State(): (s: Iter)
      reads this
    {
      Iter(path, items)
    }

    /** Drop everything from the last named component on; nothing if there is none. */
    method Pop() returns (popped: bool)
      modifies this`path
      ensures popped <==> LastNormal(old(path)) >= 0
      ensures path == if popped then old(path)[..LastNormal(old(path))] else old(path)
    {
      var i := |path|;
      while i > 0
        invariant 0 <= i <= |path| && path == old(path)
        invariant LastNormal(path[..i]) == LastNormal(path)
      {
        i := i - 1;
        assert path[..i + 1][..i] == path[..i];
        if path[i].Normal? {
          path := path[..i];
          return true;
        }
      }
      popped := false;
      assert path[..0] == [];
    }

    method NextEvent() returns (event: Option<Event>)
      modifies this
      ensures (event, State()) == Next(old(State()))
    {
      if items == [] {
        var popped := Pop();
        return if popped then Some(EndTree) else None;
      }
      var e := items[0];
      if !(path <= e.path) {
        var _ := Pop();
        return Some(EndTree);
      }
      event := Descend(e);
    }

    /** The components of the next entry that the path still lacks are pushed, up to the first named one. */
    method Descend(e: Entry) returns (event: Option<Event>)
      requires items != [] && items[0] == e && path <= e.path
      modifies this
      ensures (event, State()) == Next(old(State()))
    {
      ghost var before := path;
      assert e.path[..|e.path|] == e.path;
      for i := |path| to |e.path|
        invariant path == e.path[..i] && items == old(items)
        invariant NextNormal(e.path, |before|) == NextNormal(e.path, i)
      {
        TakeMore(e.path, i);
        path := path + [e.path[i]];
        if e.path[i].Normal? {
          if e.node.nodeType.Dir? && path == e.path {
            items := items[1..];
            return Some(NewTree(e.path, e.node));
          }
          return Some(NewTree(path, Missing(e.path[i].name)));
        }
      }
      items := items[1..];
      return Some(Other(e.path, e.node));
    }
  }

  // ---------------------------------------------------------------- when the iterator ends

  /** The components before the first named one. */
  function Lead(path: Path): Path { path[..NextNormal(path, 0)] }

  /** Each path starts with the lead of the path before it: for instance all paths are absolute, or
      all are relative. */
  predicate Chained(lead: Path, items: seq<Entry>)
    decreases |items|
  {
    items == [] || (lead <= items[0].path && Chained(Lead(items[0].path), items[1..]))
  }

  ghost function Rank(it: Iter): (nat, nat, nat)
  {
    if it.items == [] then (0, 0, |it.path|)
    else if it.path <= it.items[0].path then (|it.items|, 0, |it.items[0].path| - |it.path|)
    else (|it.items|, 1, |it.path|)
  }

  ghost predicate Below(a: (nat, nat, nat), b: (nat, nat, nat))
  {
    a.0 < b.0 || (a.0 == b.0 && (a.1 < b.1 || (a.1 == b.1 && a.2 < b.2)))
  }

  lemma {:induction false} LeadPrefix(p: Path, q: Path)
    requires p <= q
    ensures Lead(p) <= Lead(q)
    ensures LastNormal(p) >= 0 ==> Lead(p) == Lead(q)
  {
    var i, j := NextNormal(p, 0), NextNormal(q, 0);
    assert forall k :: 0 <= k < |p| ==> p[k] == q[k];
    if i < |p| { assert j == i; } else { assert i <= j; }
  }

  lemma {:induction false} LeadPop(p: Path)
    requires LastNormal(p) >= 0
    ensures Lead(p[..LastNormal(p)]) == Lead(p)
  {
    var i := LastNormal(p);
    LeadPrefix(p[..i], p);
    var j, k := NextNormal(p, 0), NextNormal(p[..i], 0);
    assert j <= i;
    if k < i { assert p[k].Normal?; } else { assert forall x :: 0 <= x < i ==> !p[..i][x].Normal?; }
  }

  lemma {:induction false} LeadAll(p: Path)
    requires LastNormal(p) < 0
    ensures Lead(p) == p
  {
  }

  /** Every call keeps the chain if there is one, and makes none if there is none. */
  lemma {:induction false} NextKeepsChain(it: Iter)
    ensures Chained(Lead(it.path), it.items) <==> Chained(Lead(Next(it).1.path), Next(it).1.items)
  {
    if LastNormal(it.path) >= 0 { LeadPop(it.path); }
    if it.items != [] && it.path <= it.items[0].path {
      var q := it.items[0].path;
      LeadPrefix(it.path, q);
      var j := NextNormal(q, |it.path|);
      if j < |q| {
        LeadPrefix(q[..j + 1], q);
      }
    }
  }

  /** On chained paths every call makes progress. */
  lemma {:induction false} NextProgress(it: Iter)
    requires Chained(Lead(it.path), it.items) && Next(it).0.Some?
    ensures Below(Rank(Next(it).1), Rank(it))
  {
    if LastNormal(it.path) < 0 { LeadAll(it.path); }
  }

  function Calls(it: Iter, n: nat): Iter
    decreases n
  {
    if n == 0 then it else Calls(Next(it).1, n - 1)
  }

  /** The iterator ends after finitely many calls if and only if the paths are chained; otherwise it
      yields events for ever. */
  ghost predicate Ends(it: Iter) { exists n :: Next(Calls(it, n)).0 == None }

  lemma {:induction false} EndsIffChained(it: Iter)
    ensures Ends(it) <==> Chained(Lead(it.path), it.items)
  {
    if Chained(Lead(it.path), it.items) {
      var n := ChainedEnds(it);
    } else {
      forall n ensures Next(Calls(it, n)).0.Some? { UnchainedRunsOn(it, n); }
    }
  }

  lemma {:induction false} ChainedEnds(it: Iter) returns (n: nat)
    requires Chained(Lead(it.path), it.items)
    ensures Next(Calls(it, n)).0 == None
    decreases Rank(it).0, Rank(it).1, Rank(it).2
  {
    if Next(it).0 == None {
      n := 0;
    } else {
      NextKeepsChain(it);
      NextProgress(it);
      var m := ChainedEnds(Next(it).1);
      n := m + 1;
    }
  }

  lemma {:induction false} UnchainedRunsOn(it: Iter, n: nat)
    requires !Chained(Lead(it.path), it.items)
    ensures Next(Calls(it, n)).0.Some?
    decreases n
  {
    if n > 0 {
      NextKeepsChain(it);
      UnchainedRunsOn(Next(it).1, n - 1);
    }
  }

  /** All events of a run. */
  ghost function Events(it: Iter): seq<Event>
    requires Chained(Lead(it.path), it.items)
    decreases Rank(it).0, Rank(it).1, Rank(it).2
  {
    if Next(it).0 == None then []
    else
      NextKeepsChain(it);
      NextProgress(it);
      [Next(it).0.value] + Events(Next(it).1)
  }

  // ---------------------------------------------------------------- TreeArchiver

  datatype Archiver = Archiver(nodes: seq<Node>, stack: seq<Open<()>>)

  /** `add` and the tree it leaves; None is the error "Tree stack is empty". */
  function Add(a: Archiver, e: Event): (r: Option<Archiver>)
  {
    match e
    case NewTree(_, node) => Some(Archiver([], a.stack + [Open(node, (), a.nodes)]))
    case Other(_, node) => Some(a.(nodes := a.nodes + [node]))
    case EndTree =>
      if a.stack == [] then None
      else
        var top := a.stack[|a.stack| - 1];
        Some(Archiver(top.outer + [top.node.(subtree := Some(TreeBlob(a.nodes)))], a.stack[..|a.stack| - 1]))
  }

  class TreeArchiver {
    var nodes: seq<Node>
    var stack: seq<Open<()>>

    constructor ()
      ensures nodes == [] && stack == []
    {
      nodes, stack := [], [];
    }

    ghost function State(): (a: Archiver)
      reads this
    {
      Archiver(nodes, stack)
    }

    /** The id of the finished tree is the hash of its nodes. */
    method AddEvent(e: Event) returns (ok: bool)
      modifies this
      ensures ok <==> Add(old(State()), e).Some?
      ensures State() == if ok then Add(old(State()), e).value else old(State())
    {
      match e
      case NewTree(_, node) =>
        stack := stack + [Open(node, (), nodes)];
        nodes := [];
        ok := true;
      case EndTree =>
        if stack == [] { return false; }
        var top := stack[|stack| - 1];
        stack := stack[..|stack| - 1];
        var id := TreeBlob(nodes);
        nodes := top.outer + [top.node.(subtree := Some(id))];
        ok := true;
      case Other(_, node) =>
        nodes := nodes + [node];
        ok := true;
    }
  }

  function AddAll(a: Archiver, es: seq<Event>): (r: Option<Archiver>)
    decreases |es|
  {
    if es == [] then Some(a)
    else if Add(a, es[0]).None? then None
    else AddAll(Add(a, es[0]).value, es[1..])
  }

  // ---------------------------------------------------------------- what the tree contains

  /** A node with the names of the directories it lies in, and whether it has a subtree itself. */
  datatype Row = Row(at: seq<Name>, node: Node, tree: bool)

  function Bare(n: Node): Node { n.(subtree := None) }

  /** The nodes of a tree and of everything below it, in pre-order. */
  function Flatten(at: seq<Name>, nodes: seq<Node>): seq<Row>
    decreases nodes, 0
  {
    if nodes == [] then [] else FlattenNode(at, nodes[0]) + Flatten(at, nodes[1..])
  }

  function FlattenNode(at: seq<Name>, n: Node): seq<Row>
    decreases n, 1
  {
    [Row(at, Bare(n), n.subtree.Some?)] + Inside(at, n)
  }

  function Inside(at: seq<Name>, n: Node): seq<Row>
    decreases n, 0
  {
    if n.subtree.Some? && n.subtree.value.TreeBlob? then Flatten(at + [n.name], n.subtree.value.nodes) else []
  }

  lemma {:induction false} FlattenConcat(at: seq<Name>, a: seq<Node>, b: seq<Node>)
    ensures Flatten(at, a + b) == Flatten(at, a) + Flatten(at, b)
    decreases |a|
  {
    if a == [] {
      assert a + b == b;
    } else {
      FlattenConcat(at, a[1..], b);
      assert (a + b)[1..] == a[1..] + b;
      Assoc(FlattenNode(at, a[0]), Flatten(at, a[1..]), Flatten(at, b));
    }
  }

  lemma {:induction false} FlattenOne(at: seq<Name>, n: Node)
    ensures Flatten(at, [n]) == FlattenNode(at, n)
  {
    assert [n][1..] == [];
    assert FlattenNode(at, n) + [] == FlattenNode(at, n);
  }

  function OpenNames(stack: seq<Open<()>>): (r: seq<Name>)
    ensures |r| == |stack|
  {
    seq(|stack|, i requires 0 <= i < |stack| => stack[i].node.name)
  }

  /** The rows of the directories that are still open. */
  function StackRows(stack: seq<Open<()>>): seq<Row>
  {
    if stack == [] then []
    else
      var below, top := stack[..|stack| - 1], stack[|stack| - 1];
      StackRows(below) + (Flatten(OpenNames(below), top.outer) + [Row(OpenNames(below), Bare(top.node), true)])
  }

  /** Everything the archiver has taken in, closed or not. */
  function Rows(a: Archiver): seq<Row>
  {
    StackRows(a.stack) + Flatten(OpenNames(a.stack), a.nodes)
  }

  lemma {:induction false} RowsNewTree(a: Archiver, node: Node)
    ensures Rows(Archiver([], a.stack + [Open(node, (), a.nodes)])) ==
              Rows(a) + [Row(OpenNames(a.stack), Bare(node), true)]
  {
    var stack := a.stack + [Open(node, (), a.nodes)];
    assert stack[..|stack| - 1] == a.stack;
    Assoc(StackRows(a.stack), Flatten(OpenNames(a.stack), a.nodes), [Row(OpenNames(a.stack), Bare(node), true)]);
    assert StackRows(stack) + [] == StackRows(stack);
  }

  lemma {:induction false} RowsOther(a: Archiver, node: Node)
    requires node.subtree == None
    ensures Rows(a.(nodes := a.nodes + [node])) == Rows(a) + [Row(OpenNames(a.stack), node, false)]
  {
    var at := OpenNames(a.stack);
    FlattenConcat(at, a.nodes, [node]);
    FlattenOne(at, node);
    assert FlattenNode(at, node) == [Row(at, node, false)];
    Assoc(StackRows(a.stack), Flatten(at, a.nodes), [Row(at, node, false)]);
  }

  /** Closing a directory moves its rows, and changes none. */
  lemma {:induction false} RowsEndTree(a: Archiver)
    requires a.stack != []
    ensures Rows(Add(a, EndTree).value) == Rows(a)
  {
    var below, top := a.stack[..|a.stack| - 1], a.stack[|a.stack| - 1];
    var at := OpenNames(below);
    var n := top.node.(subtree := Some(TreeBlob(a.nodes)));
    assert OpenNames(a.stack) == at + [n.name];
    var outer, row, inner := Flatten(at, top.outer), [Row(at, Bare(top.node), true)], Flatten(at + [n.name], a.nodes);
    FlattenConcat(at, top.outer, [n]);
    FlattenOne(at, n);
    assert FlattenNode(at, n) == row + inner;
    Assoc(outer, row, inner);
    Assoc(StackRows(below), outer + row, inner);
  }

  // ---------------------------------------------------------------- the entries and missing ancestors

  function Names(path: Path): seq<Name>
  {
    if path == [] then []
    else
      var last := path[|path| - 1];
      Names(path[..|path| - 1]) + if last.Normal? then [last.name] else []
  }

  /** What stays open of `path` when the entry at q comes next. */
  function Keep(path: Path, q: Path): (r: Path)
    decreases |path|
  {
    if path <= q || LastNormal(path) < 0 then path else Keep(path[..LastNormal(path)], q)
  }

  /** The rows of an entry of which the first i components are open: one for every directory that
      is missing, then the entry itself. */
  function EntryRows(e: Entry, i: nat): seq<Row>
    requires i <= |e.path|
    decreases |e.path| - i
  {
    var j, at := NextNormal(e.path, i), Names(e.path[..i]);
    if j == |e.path| then [Row(at, e.node, false)]
    else if e.node.nodeType.Dir? && j + 1 == |e.path| then [Row(at, e.node, true)]
    else [Row(at, Missing(e.path[j].name), true)] + EntryRows(e, j + 1)
  }

  function ExpectedRows(path: Path, items: seq<Entry>): seq<Row>
    decreases |items|
  {
    if items == [] then []
    else
      var k := Keep(path, items[0].path);
      (if k <= items[0].path then EntryRows(items[0], |k|) else []) + ExpectedRows(items[0].path, items[1..])
  }

  /** The nodes come from the source: no subtree yet, and a directory is called as its path says. */
  ghost predicate Source(items: seq<Entry>)
  {
    forall e :: e in items ==>
      && e.node.subtree == None
      && (e.node.nodeType.Dir? && e.path != [] && e.path[|e.path| - 1].Normal? ==>
          e.node.name == e.path[|e.path| - 1].name)
  }

  lemma {:induction false} NamesSkip(path: Path, i: nat, j: nat)
    requires i <= j <= |path| && forall k :: i <= k < j ==> !path[k].Normal?
    ensures Names(path[..j]) == Names(path[..i])
    decreases j
  {
    if i < j {
      NamesSkip(path, i, j - 1);
      assert path[..j][..j - 1] == path[..j - 1];
    }
  }

  lemma {:induction false} NamesPush(path: Path, j: nat)
    requires j < |path| && path[j].Normal?
    ensures Names(path[..j + 1]) == Names(path[..j]) + [path[j].name]
  {
    assert path[..j + 1][..j] == path[..j];
  }

  lemma {:induction false} NamesPop(path: Path)
    requires LastNormal(path) >= 0
    ensures Names(path) == Names(path[..LastNormal(path)]) + [path[LastNormal(path)].name]
  {
    var i := LastNormal(path);
    NamesPush(path, i);
    NamesSkip(path, i + 1, |path|);
    assert path[..|path|] == path;
  }

  lemma {:induction false} NamesNone(path: Path)
    requires LastNormal(path) < 0
    ensures Names(path) == []
  {
    NamesSkip(path, 0, |path|);
    assert path[..|path|] == path && path[..0] == [];
  }

  // ---------------------------------------------------------------- iterator and archiver together

  /** The open directories are those on the iterator's path. */
  ghost predicate InStep(it: Iter, a: Archiver)
  {
    Chained(Lead(it.path), it.items) && Source(it.items) && OpenNames(a.stack) == Names(it.path)
  }

  lemma {:induction false} OpenNamesEnds(stack: seq<Open<()>>, o: Open<()>)
    ensures OpenNames(stack + [o]) == OpenNames(stack) + [o.node.name]
    ensures stack != [] ==> OpenNames(stack[..|stack| - 1]) == OpenNames(stack)[..|stack| - 1]
  {
  }

  lemma {:induction false} CloseStep(it: Iter, a: Archiver)
    requires InStep(it, a) && Next(it).0 == Some(EndTree)
    ensures Add(a, EndTree).Some? && InStep(Next(it).1, Add(a, EndTree).value)
    ensures Rows(Add(a, EndTree).value) == Rows(a)
    ensures ExpectedRows(Next(it).1.path, Next(it).1.items) == ExpectedRows(it.path, it.items)
  {
    NextKeepsChain(it);
    if LastNormal(it.path) < 0 { LeadAll(it.path); }
    NamesPop(it.path);
    RowsEndTree(a);
    OpenNamesEnds(a.stack, a.stack[|a.stack| - 1]);
    var names := Names(it.path[..LastNormal(it.path)]);
    assert (names + [it.path[LastNormal(it.path)].name])[..|names|] == names;
  }

  /** A new directory lies one level below the iterator's path and bears the last name of its own. */
  lemma {:induction false} OpenPath(it: Iter, path: Path, node: Node)
    requires Next(it).0 == Some(NewTree(path, node)) && Source(it.items)
    ensures Next(it).1.path == path && Names(path) == Names(it.path) + [node.name]
    ensures Source(Next(it).1.items)
  {
    var e := it.items[0];
    var j := NextNormal(e.path, |it.path|);
    assert e in it.items;
    assert e.path[..|it.path|] == it.path;
    NamesSkip(e.path, |it.path|, j);
    NamesPush(e.path, j);
    assert path == e.path[..j + 1];
  }

  lemma {:induction false} OpenStep(it: Iter, a: Archiver, path: Path, node: Node)
    requires InStep(it, a) && Next(it).0 == Some(NewTree(path, node))
    ensures var a' := Add(a, NewTree(path, node)).value;
      InStep(Next(it).1, a') && Rows(a') == Rows(a) + [Row(Names(it.path), Bare(node), true)]
  {
    NextKeepsChain(it);
    RowsNewTree(a, node);
    OpenPath(it, path, node);
    OpenNamesEnds(a.stack, Open(node, (), a.nodes));
  }

  lemma {:induction false} ExpectedFrom(path: Path, items: seq<Entry>)
    requires items != [] && path <= items[0].path
    ensures ExpectedRows(path, items) == EntryRows(items[0], |path|) + ExpectedRows(items[0].path, items[1..])
  {
  }

  lemma {:induction false} FirstRow(all: seq<Row>, rows: seq<Row>, row: Row, more: seq<Row>, rest: seq<Row>,
                                    tail: seq<Row>)
    requires all == rows + rest && rows == [row] + more && tail == more + rest
    ensures all == [row] + tail
  {
    Assoc([row], more, rest);
  }

  /** The next directory is the entry itself. */
  lemma {:induction false} OpenListed(path: Path, items: seq<Entry>)
    requires items != [] && path <= items[0].path && items[0].node.nodeType.Dir?
    requires NextNormal(items[0].path, |path|) + 1 == |items[0].path|
    ensures ExpectedRows(path, items) ==
              [Row(Names(path), items[0].node, true)] + ExpectedRows(items[0].path, items[1..])
  {
    ExpectedFrom(path, items);
    assert items[0].path[..|path|] == path;
  }

  /** The next directory has to be made up. */
  lemma {:induction false} OpenMissing(path: Path, items: seq<Entry>, j: nat)
    requires items != [] && path <= items[0].path && j == NextNormal(items[0].path, |path|) < |items[0].path|
    requires !(items[0].node.nodeType.Dir? && j + 1 == |items[0].path|)
    ensures ExpectedRows(path, items) ==
      [Row(Names(path), Missing(items[0].path[j].name), true)] + ExpectedRows(items[0].path[..j + 1], items)
  {
    var e := items[0];
    ExpectedFrom(path, items);
    ExpectedFrom(e.path[..j + 1], items);
    EntryMissing(e, path, j);
    var open := e.path[..j + 1];
    FirstRow(ExpectedRows(path, items), EntryRows(e, |path|), Row(Names(path), Missing(e.path[j].name), true),
             EntryRows(e, |open|), ExpectedRows(e.path, items[1..]), ExpectedRows(open, items));
  }

  lemma {:induction false} EntryMissing(e: Entry, path: Path, j: nat)
    requires path <= e.path && j == NextNormal(e.path, |path|) < |e.path| &&
               !(e.node.nodeType.Dir? && j + 1 == |e.path|)
    ensures EntryRows(e, |path|) == [Row(Names(path), Missing(e.path[j].name), true)] + EntryRows(e, |e.path[..j + 1]|)
  {
    assert e.path[..|path|] == path;
  }

  /** The two ways in which a directory is opened. */
  ghost predicate Opens(it: Iter, path: Path, node: Node, t: Iter)
  {
    && it.items != [] && it.path <= it.items[0].path
    && var e := it.items[0];
       var j := NextNormal(e.path, |it.path|);
       && j < |e.path| && path == e.path[..j + 1] && t.path == path
       && if e.node.nodeType.Dir? && j + 1 == |e.path| then node == e.node && t.items == it.items[1..]
          else node == Missing(e.path[j].name) && t.items == it.items
  }

  lemma {:induction false} NextOpens(it: Iter, path: Path, node: Node)
    requires Next(it).0 == Some(NewTree(path, node))
    ensures Opens(it, path, node, Next(it).1)
  {
    var e := it.items[0];
    assert e.path[..|e.path|] == e.path;
  }

  ghost predicate ListedNext(it: Iter)
  {
    && it.items != [] && it.path <= it.items[0].path && it.items[0].node.nodeType.Dir?
    && NextNormal(it.items[0].path, |it.path|) + 1 == |it.items[0].path|
  }

  lemma {:induction false} OpenRowsListed(it: Iter, path: Path, node: Node, t: Iter)
    requires Opens(it, path, node, t) && ListedNext(it) && Source(it.items)
    ensures ExpectedRows(it.path, it.items) == [Row(Names(it.path), Bare(node), true)] + ExpectedRows(t.path, t.items)
  {
    var e := it.items[0];
    assert e in it.items;
    assert node == e.node && Bare(node) == node;
    assert t == Iter(e.path, it.items[1..]) by { TakeAll(e.path); }
    OpenListed(it.path, it.items);
  }

  lemma {:induction false} TakeAll(path: Path)
    ensures path[..|path|] == path
  {
  }

  lemma {:induction false} OpenRowsMissing(it: Iter, path: Path, node: Node, t: Iter)
    requires Opens(it, path, node, t) && !ListedNext(it)
    ensures ExpectedRows(it.path, it.items) == [Row(Names(it.path), Bare(node), true)] + ExpectedRows(t.path, t.items)
  {
    var j := NextNormal(it.items[0].path, |it.path|);
    assert node == Missing(it.items[0].path[j].name) && Bare(node) == node;
    assert t == Iter(it.items[0].path[..j + 1], it.items);
    OpenMissing(it.path, it.items, j);
  }

  lemma {:induction false} OpenRows(it: Iter, path: Path, node: Node, t: Iter)
    requires Opens(it, path, node, t) && Source(it.items)
    ensures ExpectedRows(it.path, it.items) == [Row(Names(it.path), Bare(node), true)] + ExpectedRows(t.path, t.items)
  {
    if ListedNext(it) { OpenRowsListed(it, path, node, t); } else { OpenRowsMissing(it, path, node, t); }
  }

  lemma {:induction false} OtherRows(it: Iter, path: Path, node: Node)
    requires Next(it).0 == Some(Other(path, node)) && Source(it.items)
    ensures ExpectedRows(it.path, it.items) ==
              [Row(Names(it.path), node, false)] + ExpectedRows(Next(it).1.path, Next(it).1.items)
    ensures Names(Next(it).1.path) == Names(it.path) && Source(Next(it).1.items) && node.subtree == None
  {
    var e := it.items[0];
    assert e in it.items;
    NamesSkip(e.path, |it.path|, |e.path|);
    assert e.path[..|it.path|] == it.path && e.path[..|e.path|] == e.path;
    assert Keep(it.path, e.path) == it.path;
  }

  lemma {:induction false} OtherStep(it: Iter, a: Archiver, path: Path, node: Node)
    requires InStep(it, a) && Next(it).0 == Some(Other(path, node))
    ensures var a' := Add(a, Other(path, node)).value;
      InStep(Next(it).1, a') && Rows(a') == Rows(a) + [Row(Names(it.path), node, false)]
  {
    NextKeepsChain(it);
    OtherRows(it, path, node);
    RowsOther(a, node);
  }

  /** The whole run: no event finds the stack empty, all directories are closed at the end, and the
      tree holds exactly the entries and their missing ancestors, in the order of the list. */
  lemma {:induction false} Rebuild(it: Iter, a: Archiver)
    requires InStep(it, a)
    ensures var r := AddAll(a, Events(it));
      r.Some? && r.value.stack == [] && Rows(r.value) == Rows(a) + ExpectedRows(it.path, it.items)
    decreases Rank(it).0, Rank(it).1, Rank(it).2
  {
    var (e, t) := Next(it);
    if e == None {
      NamesNone(it.path);
    } else {
      NextKeepsChain(it);
      NextProgress(it);
      assert Events(it)[0] == e.value && Events(it)[1..] == Events(t);
      match e.value {
        case EndTree => CloseStep(it, a);
        case NewTree(path, node) =>
          OpenStep(it, a, path, node);
          NextOpens(it, path, node);
          OpenRows(it, path, node, t);
          Assoc(Rows(a), [Row(Names(it.path), Bare(node), true)], ExpectedRows(t.path, t.items));
        case Other(path, node) =>
          OtherStep(it, a, path, node);
          OtherRows(it, path, node);
          Assoc(Rows(a), [Row(Names(it.path), node, false)], ExpectedRows(t.path, t.items));
      }
      Rebuild(t, Add(a, e.value).value);
    }
  }

  /** For every chained list of entries: the events are balanced and the finished root tree, read in
      pre-order, is the list of entries with the missing directories put in. */
  lemma {:induction false} TreeHoldsEntries(items: seq<Entry>)
    requires Chained([], items) && Source(items)
    ensures var r := AddAll(Archiver([], []), Events(Iter([], items)));
      r.Some? && r.value.stack == [] && Flatten([], r.value.nodes) == ExpectedRows([], items)
  {
    assert Lead([]) == [];
    var it, a := Iter([], items), Archiver([], []);
    Rebuild(it, a);
    var r := AddAll(a, Events(it)).value;
    assert OpenNames([]) == [];
    assert Rows(a) == [];
    assert Rows(r) == Flatten([], r.nodes);
  }

  // ---------------------------------------------------------------- pre-order lists

  /** Every subtree is a tree, all the way down. */
  ghost predicate AllTrees(nodes: seq<Node>)
    decreases nodes
  {
    forall n :: n in nodes && n.subtree.Some? ==> n.subtree.value.TreeBlob? && AllTrees(n.subtree.value.nodes)
  }

  lemma {:induction false} AddKeepsTrees(a: Archiver, es: seq<Event>)
    requires AllTrees(a.nodes) && forall o :: o in a.stack ==> AllTrees(o.outer)
    requires forall e :: e in es && e.Other? ==> e.node.subtree == None
    ensures AddAll(a, es).Some? ==> AllTrees(AddAll(a, es).value.nodes)
    decreases |es|
  {
    if es != [] && Add(a, es[0]).Some? {
      assert es[0] in es;
      if es[0].EndTree? { assert a.stack[|a.stack| - 1] in a.stack; }
      AddKeepsTrees(Add(a, es[0]).value, es[1..]);
    }
  }

  lemma {:induction false} OtherEventsAreBare(it: Iter)
    requires Chained(Lead(it.path), it.items) && Source(it.items)
    ensures forall e :: e in Events(it) && e.Other? ==> e.node.subtree == None
    decreases Rank(it).0, Rank(it).1, Rank(it).2
  {
    if Next(it).0.Some? {
      NextKeepsChain(it);
      NextProgress(it);
      if it.items != [] { assert it.items[0] in it.items; }
      OtherEventsAreBare(Next(it).1);
    }
  }

  /** Rows further in than depth d, followed by rows that start at depth d, split in one way only. */
  lemma {:induction false} SplitUnique(x: seq<Row>, y: seq<Row>, x': seq<Row>, y': seq<Row>, d: nat)
    requires x + y == x' + y'
    requires forall r :: r in x || r in x' ==> |r.at| > d
    requires (y == [] || |y[0].at| == d) && (y' == [] || |y'[0].at| == d)
    ensures x == x' && y == y'
  {
    NotShorter(x, y, x', y', d);
    NotShorter(x', y', x, y, d);
    assert x == (x + y)[..|x|] && y == (x + y)[|x|..];
    assert x' == (x' + y')[..|x'|] && y' == (x' + y')[|x'|..];
  }

  lemma {:induction false} NotShorter(x: seq<Row>, y: seq<Row>, x': seq<Row>, y': seq<Row>, d: nat)
    requires x + y == x' + y' && (y == [] || |y[0].at| == d) && forall r :: r in x' ==> |r.at| > d
    ensures |x| >= |x'|
  {
    assert |x + y| == |x| + |y| && |x' + y'| == |x'| + |y'|;
    assert forall k :: 0 <= k < |x'| ==> (x' + y')[k] == x'[k] && x'[k] in x';
    if y != [] { assert (x + y)[|x|] == y[0]; }
  }

  lemma {:induction false} FirstOfFlatten(at: seq<Name>, nodes: seq<Node>)
    requires nodes != []
    ensures Flatten(at, nodes) ==
              [Row(at, Bare(nodes[0]), nodes[0].subtree.Some?)] + (Inside(at, nodes[0]) + Flatten(at, nodes[1..]))
  {
    Assoc([Row(at, Bare(nodes[0]), nodes[0].subtree.Some?)], Inside(at, nodes[0]), Flatten(at, nodes[1..]));
  }

  lemma {:induction false} RowsLieInside(at: seq<Name>, nodes: seq<Node>)
    ensures forall r :: r in Flatten(at, nodes) ==> |r.at| >= |at|
    decreases nodes
  {
    if nodes != [] {
      var n := nodes[0];
      if n.subtree.Some? && n.subtree.value.TreeBlob? { RowsLieInside(at + [n.name], n.subtree.value.nodes); }
      RowsLieInside(at, nodes[1..]);
      FirstOfFlatten(at, nodes);
    }
  }

  /** A tree is determined by its rows. */
  lemma {:induction false} FlattenInjective(at: seq<Name>, a: seq<Node>, b: seq<Node>)
    requires Flatten(at, a) == Flatten(at, b) && AllTrees(a) && AllTrees(b)
    ensures a == b
    decreases a
  {
    if a != [] && b != [] {
      var n, m := a[0], b[0];
      assert n in a && m in b;
      InsideIsDeeper(at, n); InsideIsDeeper(at, m);
      FirstOfFlatten(at, a); FirstOfFlatten(at, b);
      if a[1..] != [] { FirstOfFlatten(at, a[1..]); }
      if b[1..] != [] { FirstOfFlatten(at, b[1..]); }
      assert Flatten(at, a)[0] == Flatten(at, b)[0];
      assert Flatten(at, a)[1..] == Inside(at, n) + Flatten(at, a[1..]);
      assert Flatten(at, b)[1..] == Inside(at, m) + Flatten(at, b[1..]);
      SplitUnique(Inside(at, n), Flatten(at, a[1..]), Inside(at, m), Flatten(at, b[1..]), |at|);
      FlattenInjective(at, a[1..], b[1..]);
      assert Bare(n) == Bare(m);
      if n.subtree.Some? {
        FlattenInjective(at + [n.name], n.subtree.value.nodes, m.subtree.value.nodes);
      }
      assert n == m;
    }
  }

  lemma {:induction false} InsideIsDeeper(at: seq<Name>, n: Node)
    ensures forall r :: r in Inside(at, n) ==> |r.at| > |at|
  {
    if n.subtree.Some? && n.subtree.value.TreeBlob? { RowsLieInside(at + [n.name], n.subtree.value.nodes); }
  }
}
