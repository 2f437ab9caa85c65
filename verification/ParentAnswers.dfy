/** What the lookups in earlier snapshots answer, said of the parent trees and the index alone. */
module ParentAnswers {
  import opened Repo
  import opened TreeBuild
  import NameOrder
  import opened Parent
  import Publish

  /** The node has not changed: same type, and metadata that count as the same. */
  ghost predicate Unchanged(env: Env, node: Node, q: Node)
  {
    q.nodeType == node.nodeType && env.sameMeta(q.meta, node.meta)
  }

  /** All content is in the index. */
  ghost predicate Known(env: Env, q: Node)
  {
    q.content.Some? ==> forall id :: id in q.content.value ==> env.hasData(id)
  }

  /** The first parent tree whose node of that name is unchanged. */
  ghost predicate FirstUnchanged(env: Env, node: Node, ts: seq<seq<Node>>, q: Node)
  {
    exists i :: 0 <= i < |ts| && FirstNamed(ts[i], node.name, q) &&
                  Unchanged(env, node, q) && NoneBefore(env, node, ts, i)
  }

  ghost predicate NoneBefore(env: Env, node: Node, ts: seq<seq<Node>>, i: int)
    requires i <= |ts|
  {
    forall j, p :: 0 <= j < i && FirstNamed(ts[j], node.name, p) ==> !Unchanged(env, node, p)
  }

  ghost predicate NameKnown(ts: seq<seq<Node>>, name: Name)
  {
    exists j, p :: 0 <= j < |ts| && FirstNamed(ts[j], name, p)
  }

  /** The search over the trees from i on, with none unchanged before. */
  lemma {:induction false} SearchFrom(env: Env, node: Node, ts: seq<seq<Node>>, i: nat)
    requires i <= |ts| && NoneBefore(env, node, ts, i)
    ensures var r := FirstMatch(env, node, LookupAll(ts[i..], node.name));
      && !r.NotFound? && (r.Matched? ==> FirstUnchanged(env, node, ts, r.value))
      && (r.NotMatched? ==> NoneBefore(env, node, ts, |ts|))
    ensures LookupAll(ts[i..], node.name) == [] <==> forall j, p :: i <= j < |ts| ==> !FirstNamed(ts[j], node.name, p)
    decreases |ts| - i
  {
    if i < |ts| {
      LookupIs(ts[i], node.name);
      assert ts[i..][0] == ts[i] && ts[i..][1..] == ts[i + 1..];
      var q, rest := Lookup(ts[i], node.name), LookupAll(ts[i + 1..], node.name);
      if q.Some? && Matches(env, node, q.value) {
        assert LookupAll(ts[i..], node.name) == [q.value] + rest;
        assert FirstNamed(ts[i], node.name, q.value);
      } else {
        SearchFrom(env, node, ts, i + 1);
        if q.Some? {
          assert FirstNamed(ts[i], node.name, q.value);
          assert ([q.value] + rest)[1..] == rest;
        } else {
          assert LookupAll(ts[i..], node.name) == rest;
        }
      }
    }
  }

  lemma {:induction false} OneNamesake(t: seq<Node>, name: Name, p: Node, q: Node)
    requires FirstNamed(t, name, p) && FirstNamed(t, name, q)
    ensures p == q
  {
    LookupIs(t, name);
  }

  /** The full lookup: unchanged if and only if some tree has an unchanged namesake, and then the one of the first
      such tree; not found if and only if no tree has the name; else changed. */
  lemma {:induction false} LookupMeans(env: Env, node: Node, ts: seq<seq<Node>>)
    ensures var r := PlainParent(env, node, ts);
      && (r.NotFound? <==> !NameKnown(ts, node.name))
      && (r.NotMatched? <==> NameKnown(ts, node.name) && NoneBefore(env, node, ts, |ts|))
      && (forall q :: r == Matched(q) <==> FirstUnchanged(env, node, ts, q))
  {
    SearchFrom(env, node, ts, 0);
    assert ts[0..] == ts;
    forall p, q | FirstUnchanged(env, node, ts, p) && FirstUnchanged(env, node, ts, q) ensures p == q {
      FirstIsOne(env, node, ts, p, q);
    }
  }

  lemma {:induction false} FirstIsOne(env: Env, node: Node, ts: seq<seq<Node>>, p: Node, q: Node)
    requires FirstUnchanged(env, node, ts, p) && FirstUnchanged(env, node, ts, q)
    ensures p == q
  {
    var i :| 0 <= i < |ts| && FirstNamed(ts[i], node.name, p) &&
             Unchanged(env, node, p) && NoneBefore(env, node, ts, i);
    var j :| 0 <= j < |ts| && FirstNamed(ts[j], node.name, q) &&
             Unchanged(env, node, q) && NoneBefore(env, node, ts, j);
    assert i == j;
    OneNamesake(ts[i], node.name, p, q);
  }

  // ---------------------------------------------------------------- files

  /** What is answered for a file: it is taken for unchanged if and only if the first unchanged namesake has all
      its content in the index, and then it gets exactly that content; otherwise the node stays as it is, and
      is new if there is no namesake or some content is missing, else changed. */
  lemma {:induction false} FileAnswer(env: Env, s: State, p: Plain, asked: Asked, path: Path, node: Node)
    requires AllFit(s, p, asked) && InTurn(asked, Other(path, node))
    ensures var a := Step(env, s, Other(path, node)).0;
      && a.Checked?
      && (a.parent == Matched(()) <==> exists q :: FirstUnchanged(env, node, p.trees, q) && Known(env, q))
      && (forall q :: FirstUnchanged(env, node, p.trees, q) && Known(env, q) ==> a.node == node.(content := q.content))
      && (a.parent != Matched(()) ==> a.node == node)
      && (a.parent == NotMatched <==> NameKnown(p.trees, node.name) && NoneBefore(env, node, p.trees, |p.trees|))
  {
    OtherAgrees(env, s, p, asked, Other(path, node));
    LookupMeans(env, node, p.trees);
  }

  /** A file that is taken for unchanged may be passed on with the content of its parent: all of it is in the
      index from which the backup starts. */
  lemma {:induction false} UnchangedIsKept(env: Env, s: State, p: Plain, asked: Asked, path: Path, node: Node,
                                           b: Publish.State)
    requires AllFit(s, p, asked) && InTurn(asked, Other(path, node)) && node.subtree == None
    requires b.phase == Publish.Walking && forall id :: env.hasData(id) <==> id in b.startData
    ensures var a := Step(env, s, Other(path, node)).0;
      a.parent == Matched(()) ==>
        && Publish.Enabled(b, Publish.KeepFile(a.node))
        && exists q :: FirstUnchanged(env, node, p.trees, q) &&
             Publish.Apply(b, Publish.KeepFile(a.node)).ready == b.ready + [node.(content := q.content)]
  {
    FileAnswer(env, s, p, asked, path, node);
  }

  // ---------------------------------------------------------------- directories

  /** A namesake in some parent tree refers to the subtree. */
  ghost predicate RefersTo(ts: seq<seq<Node>>, name: Name, id: BlobId)
  {
    exists i, q :: 0 <= i < |ts| && FirstNamed(ts[i], name, q) && q.subtree == Some(id)
  }

  lemma {:induction false} SubtreesRefer(ts: seq<seq<Node>>, name: Name, id: BlobId)
    ensures id in Subtrees(LookupAll(ts, name)) <==> RefersTo(ts, name, id)
    decreases |ts|
  {
    if ts != [] {
      SubtreesRefer(ts[1..], name, id);
      LookupIs(ts[0], name);
      var q := Lookup(ts[0], name);
      SubtreesConcat(q, LookupAll(ts[1..], name));
      if RefersTo(ts[1..], name, id) {
        var i, p :| 0 <= i < |ts[1..]| && FirstNamed(ts[1..][i], name, p) && p.subtree == Some(id);
        assert FirstNamed(ts[i + 1], name, p);
      }
      if RefersTo(ts, name, id) {
        var i, p :| 0 <= i < |ts| && FirstNamed(ts[i], name, p) && p.subtree == Some(id);
        if i > 0 { assert FirstNamed(ts[1..][i - 1], name, p); }
      }
      if q.Some? { assert FirstNamed(ts[0], name, q.value); }
    }
  }

  lemma {:induction false} LoadHas(env: Env, ids: seq<BlobId>, t: seq<Node>)
    ensures t in Load(env, ids) <==> exists id :: id in ids && env.load(id) == Some(t)
    decreases |ids|
  {
    if ids != [] {
      LoadHas(env, ids[1..], t);
      assert ids == [ids[0]] + ids[1..];
      assert ids[0] in ids && forall id :: id in ids[1..] ==> id in ids;
    }
  }

  /** What is answered for a directory: the subtree of the first unchanged namesake. */
  lemma {:induction false} DirAnswer(env: Env, s: State, p: Plain, asked: Asked, path: Path, node: Node)
    requires GoodEnv(env) && AllFit(s, p, asked) && InTurn(asked, NewTree(path, node))
    ensures var a := Step(env, s, NewTree(path, node)).0;
      && a.Opened? && a.node == node
      && (forall id :: a.tree == Matched(id) <==>
            exists q :: FirstUnchanged(env, node, p.trees, q) && q.subtree == Some(id))
      && (a.tree.NotFound? <==> !NameKnown(p.trees, node.name))
      && (a.tree.NotMatched? <==> NameKnown(p.trees, node.name) && NoneBefore(env, node, p.trees, |p.trees|))
  {
    OpenAgrees(env, s, p, asked, NewTree(path, node));
    LookupMeans(env, node, p.trees);
  }

  /** Where the search goes on in a directory: at the start of the trees of all namesakes, unchanged or not, that
      can be loaded. */
  lemma {:induction false} OpensBelow(env: Env, s: State, p: Plain, asked: Asked, path: Path, node: Node, x: seq<Node>)
    requires GoodEnv(env) && RankInjective(env) && AllFit(s, p, asked) && InTurn(asked, NewTree(path, node))
    ensures var t := Step(env, s, NewTree(path, node)).1.trees;
      && (forall c :: c in t ==> c.idx == 0)
      && ((exists c :: c in t && c.nodes == x) <==>
            exists id :: RefersTo(p.trees, node.name, id) && env.load(id) == Some(x))
  {
    var ids := Subtrees(LookupAll(p.trees, node.name));
    OpenedTrees(env, s, p, asked, path, node);
    IdsOnce(env, ids);
    LoadHas(env, Dedup(SortIds(env, ids)), x);
    forall id ensures id in ids <==> RefersTo(p.trees, node.name, id) { SubtreesRefer(p.trees, node.name, id); }
    StartHas(TreesBelow(env, ids), x);
  }

  lemma {:induction false} StartHas(ts: seq<seq<Node>>, x: seq<Node>)
    ensures (exists c :: c in Start(ts) && c.nodes == x) <==> x in ts
  {
    if x in ts {
      var i :| 0 <= i < |ts| && ts[i] == x;
      assert Start(ts)[i] in Start(ts);
    }
  }

  lemma {:induction false} OpenedTrees(env: Env, s: State, p: Plain, asked: Asked, path: Path, node: Node)
    requires GoodEnv(env) && AllFit(s, p, asked) && InTurn(asked, NewTree(path, node))
    ensures Step(env, s, NewTree(path, node)).1.trees ==
              Start(TreesBelow(env, Subtrees(LookupAll(p.trees, node.name))))
  {
    ScanFinds(env, node, s.trees, p.trees, asked.last, false);
    NameOrder.LessIrreflexive(node.name);
    MoveAllFinds(Scan(env, node, s.trees, false).1, p.trees, Some(node.name), node.name);
    NoPanic(env, node, p.trees);
  }

  /** The trees of the start: exactly those that can be loaded, each as often as it is given, in their order. */
  lemma {:induction false} StartTrees(env: Env, ids: seq<BlobId>, id: BlobId)
    ensures multiset(Loadable(env, ids))[id] == if env.load(id).Some? then multiset(ids)[id] else 0
    ensures ids != [] && env.load(ids[0]).Some? ==> Loadable(env, ids) != [] && Loadable(env, ids)[0] == ids[0]
    decreases |ids|
  {
    if ids != [] {
      StartTrees(env, ids[1..], id);
      assert ids == [ids[0]] + ids[1..];
    }
  }
}
