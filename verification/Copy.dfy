/** `copy`: which blobs are copied, and that the copied snapshots are complete. */
module Copy {
  import opened Repo
  import opened Streamer

  /** The blobs of an index, by type. */
  datatype Index = Index(trees: set<BlobId>, data: set<BlobId>)

  // ---------------------------------------------------------------- finding the needed blobs

  ghost function Subtrees(nodes: seq<Node>): set<BlobId>
  {
    set n | n in nodes && n.nodeType.Dir? && n.subtree.Some? :: n.subtree.value
  }

  ghost function Contents(nodes: seq<Node>): set<BlobId>
  {
    set n, id | n in nodes && n.nodeType.File? && n.content.Some? && id in n.content.value :: id
  }

  ghost function AllSubtrees(trees: set<BlobId>): set<BlobId>
  {
    set t, id | t in trees && t.TreeBlob? && id in Subtrees(t.nodes) :: id
  }

  ghost function AllContents(trees: set<BlobId>): set<BlobId>
  {
    set t, id | t in trees && t.TreeBlob? && id in Contents(t.nodes) :: id
  }

  ghost function SetOf(ids: seq<BlobId>): set<BlobId> { set id | id in ids }

  method AddNode(n: Node, dest: Index, trees: set<BlobId>, data: set<BlobId>)
    returns (trees': set<BlobId>, data': set<BlobId>)
    ensures trees' == trees + (Subtrees([n]) - dest.trees)
    ensures data' == data + (Contents([n]) - dest.data)
  {
    trees', data' := trees, data;
    assert n in [n];
    match n.nodeType
    case File =>
      if n.content.Some? {
        data' := data + set id | id in n.content.value && id !in dest.data;
      }
    case Dir =>
      if n.subtree.Some? && n.subtree.value !in dest.trees {
        trees' := trees + {n.subtree.value};
      }
    case Special =>
  }

  lemma {:induction false} NodesSplit(nodes: seq<Node>, k: nat)
    requires k < |nodes|
    ensures Subtrees(nodes[..k + 1]) == Subtrees(nodes[..k]) + Subtrees([nodes[k]])
    ensures Contents(nodes[..k + 1]) == Contents(nodes[..k]) + Contents([nodes[k]])
  {
    assert nodes[..k + 1] == nodes[..k] + [nodes[k]];
  }

  method AddTree(nodes: seq<Node>, dest: Index, trees: set<BlobId>, data: set<BlobId>)
    returns (trees': set<BlobId>, data': set<BlobId>)
    ensures trees' == trees + (Subtrees(nodes) - dest.trees)
    ensures data' == data + (Contents(nodes) - dest.data)
  {
    trees', data' := trees, data;
    for k := 0 to |nodes|
      invariant trees' == trees + (Subtrees(nodes[..k]) - dest.trees)
      invariant data' == data + (Contents(nodes[..k]) - dest.data)
    {
      NodesSplit(nodes, k);
      trees', data' := AddNode(nodes[k], dest, trees', data');
    }
    assert nodes[..|nodes|] == nodes;
  }

  lemma {:induction false} TreesSplit(ids: seq<BlobId>, k: nat)
    requires k < |ids| && ids[k].TreeBlob?
    ensures AllSubtrees(SetOf(ids[..k + 1])) == AllSubtrees(SetOf(ids[..k])) + Subtrees(ids[k].nodes)
    ensures AllContents(SetOf(ids[..k + 1])) == AllContents(SetOf(ids[..k])) + Contents(ids[k].nodes)
  {
    assert ids[..k + 1] == ids[..k] + [ids[k]];
    assert SetOf(ids[..k + 1]) == SetOf(ids[..k]) + {ids[k]};
  }

  /** The loop over the streamed trees. */
  method FindNeeded(roots: seq<BlobId>, streamed: seq<BlobId>, dest: Index)
    returns (trees: set<BlobId>, data: set<BlobId>)
    requires forall id :: id in streamed ==> id.TreeBlob?
    ensures trees == (SetOf(roots) + AllSubtrees(SetOf(streamed))) - dest.trees
    ensures data == AllContents(SetOf(streamed)) - dest.data
  {
    trees, data := set id | id in roots && id !in dest.trees, {};
    for k := 0 to |streamed|
      invariant trees == (SetOf(roots) + AllSubtrees(SetOf(streamed[..k]))) - dest.trees
      invariant data == AllContents(SetOf(streamed[..k])) - dest.data
    {
      assert streamed[k] in streamed;
      TreesSplit(streamed, k);
      trees, data := AddTree(streamed[k].nodes, dest, trees, data);
    }
    assert streamed[..|streamed|] == streamed;
  }

  // ---------------------------------------------------------------- what is copied

  /** Needed blobs that the source index does not know are dropped without an error. All data blobs are
      in the shared indexer before the first tree is copied, and the packer skips every id that the
      indexer knows, of whatever type. */
  function CopiedData(src: Index, data: set<BlobId>): set<BlobId> { data * src.data }

  function CopiedTrees(src: Index, trees: set<BlobId>, data: set<BlobId>): set<BlobId>
  {
    (trees * src.trees) - CopiedData(src, data)
  }

  function After(src: Index, dest: Index, trees: set<BlobId>, data: set<BlobId>): Index
  {
    Index(dest.trees + CopiedTrees(src, trees, data), dest.data + CopiedData(src, data))
  }

  // ---------------------------------------------------------------- reachability

  /** Subtrees hang on directories only. */
  ghost predicate WellTyped(trees: set<BlobId>)
  {
    forall t, n :: t in trees && t.TreeBlob? && n in t.nodes && n.subtree.Some? ==> n.nodeType.Dir?
  }

  lemma {:induction false} ReachedByParent(id: BlobId, t: BlobId)
    requires t in ReachTrees(id)
    ensures t == id || exists p, n :: p in ReachTrees(id) && p.TreeBlob? && n in p.nodes && n.subtree == Some(t)
    decreases id, 1
  {
    if t != id {
      var p, n := ReachedInNodes(id, id.nodes, t);
    }
  }

  lemma {:induction false} ReachedInNodes(id: BlobId, nodes: seq<Node>, t: BlobId) returns (p: BlobId, n: Node)
    requires id.TreeBlob? && forall m :: m in nodes ==> m in id.nodes
    requires t in ReachNodes(nodes)
    ensures p in ReachTrees(id) && p.TreeBlob? && n in p.nodes && n.subtree == Some(t)
    decreases nodes, 0
  {
    var first := nodes[0];
    assert first in nodes;
    if first.subtree.Some? && t in ReachTrees(first.subtree.value) {
      var s := first.subtree.value;
      if t == s {
        p, n := id, first;
      } else {
        p, n := ReachedInNodes(s, s.nodes, t);
        ReachChild(id, first);
        ReachTransitive(id, s);
      }
    } else {
      p, n := ReachedInNodes(id, nodes[1..], t);
    }
  }

  /** What hangs on the streamed trees, and the roots, are all the trees there are. */
  lemma {:induction false} NeededIsReachable(roots: seq<BlobId>, reach: set<BlobId>)
    requires reach == ReachAll(roots) && WellTyped(reach)
    ensures SetOf(roots) + AllSubtrees(reach) == reach
  {
    forall id | id in roots ensures id in reach {
      var c :| 0 <= c < |roots| && roots[c] == id;
      ReachAllHas(roots, c);
    }
    forall id | id in AllSubtrees(reach) ensures id in reach {
      var t, n :| t in reach && t.TreeBlob? && n in t.nodes && n.nodeType.Dir? && n.subtree == Some(id);
      var c := ReachAllFrom(roots, t);
      ReachChild(t, n);
      ReachTransitive(roots[c], t);
      ReachAllHas(roots, c);
    }
    forall t | t in reach ensures t in SetOf(roots) + AllSubtrees(reach) {
      var c := ReachAllFrom(roots, t);
      ReachedByParent(roots[c], t);
      if t != roots[c] {
        var p, n :| p in ReachTrees(roots[c]) && p.TreeBlob? && n in p.nodes && n.subtree == Some(t);
        ReachAllHas(roots, c);
        assert p in reach && n.nodeType.Dir? && t in Subtrees(p.nodes);
      } else {
        assert roots[c] in roots;
      }
    }
  }

  /** Every tree and every file content that can be reached is there. */
  ghost predicate Complete(i: Index, reach: set<BlobId>)
  {
    reach <= i.trees && AllContents(reach) <= i.data
  }

  // What that means, tree by tree.

  /** The tree, and everything below it, is in the index. */
  ghost predicate Held(i: Index, id: BlobId)
    decreases id
  {
    id in i.trees && (id.TreeBlob? ==> forall n :: n in id.nodes ==> HeldNode(i, n))
  }

  ghost predicate HeldNode(i: Index, n: Node)
    decreases n
  {
    && (n.content.Some? ==> forall d :: d in n.content.value ==> d in i.data)
    && (n.subtree.Some? ==> Held(i, n.subtree.value))
  }

  /** Only files have content. */
  ghost predicate FilesOnly(trees: set<BlobId>)
  {
    forall t, n :: t in trees && t.TreeBlob? && n in t.nodes && n.content.Some? ==> n.nodeType.File?
  }

  lemma {:induction false} HeldBelow(i: Index, id: BlobId, t: BlobId)
    requires Held(i, id) && t in ReachTrees(id)
    ensures Held(i, t)
    decreases id, 1
  {
    if t != id { HeldInside(i, id.nodes, t); }
  }

  lemma {:induction false} HeldInside(i: Index, nodes: seq<Node>, t: BlobId)
    requires (forall n :: n in nodes ==> HeldNode(i, n)) && t in ReachNodes(nodes)
    ensures Held(i, t)
    decreases nodes, 0
  {
    var n := nodes[0];
    assert n in nodes;
    if n.subtree.Some? && t in ReachTrees(n.subtree.value) { HeldBelow(i, n.subtree.value, t); }
    else { HeldInside(i, nodes[1..], t); }
  }

  lemma {:induction false} CompleteHolds(i: Index, reach: set<BlobId>, id: BlobId)
    requires Complete(i, reach) && FilesOnly(reach) && ReachTrees(id) <= reach
    ensures Held(i, id)
    decreases id
  {
    assert id in ReachTrees(id);
    if id.TreeBlob? {
      forall n | n in id.nodes ensures HeldNode(i, n) {
        if n.content.Some? { assert n.nodeType.File? && forall d :: d in n.content.value ==> d in Contents(id.nodes); }
        if n.subtree.Some? {
          ReachChild(id, n);
          ReachTransitive(id, n.subtree.value);
          CompleteHolds(i, reach, n.subtree.value);
        }
      }
    }
  }

  /** Complete snapshots: every root, with every node below it, has its trees and contents in the index. */
  lemma {:induction false} CompleteMeans(i: Index, roots: seq<BlobId>)
    requires FilesOnly(ReachAll(roots))
    ensures Complete(i, ReachAll(roots)) <==> forall r :: r in roots ==> Held(i, r)
  {
    if Complete(i, ReachAll(roots)) {
      forall r | r in roots ensures Held(i, r) {
        var c :| 0 <= c < |roots| && roots[c] == r;
        ReachAllHas(roots, c);
        CompleteHolds(i, ReachAll(roots), r);
      }
    }
    if forall r :: r in roots ==> Held(i, r) {
      forall t | t in ReachAll(roots) ensures Held(i, t) {
        var c := ReachAllFrom(roots, t);
        assert roots[c] in roots;
        HeldBelow(i, roots[c], t);
      }
      forall d | d in AllContents(ReachAll(roots)) ensures d in i.data {
        var t :| t in ReachAll(roots) && t.TreeBlob? && d in Contents(t.nodes);
        var n :| n in t.nodes && n.content.Some? && d in n.content.value;
        assert Held(i, t) && HeldNode(i, n);
      }
    }
  }

  lemma {:induction false} SameMembers(ids: seq<BlobId>, all: set<BlobId>)
    requires multiset(ids) == multiset(all)
    ensures SetOf(ids) == all
  {
    forall id ensures id in SetOf(ids) <==> id in all {
      assert id in ids <==> id in multiset(ids);
      assert id in all <==> id in multiset(all);
    }
  }

  lemma {:induction false} StreamedAreTrees(roots: seq<BlobId>, acts: seq<Action>, s: State)
    requires Runs(Init(roots), acts, s)
    ensures forall id :: id in Ids(s.yielded) ==> id.TreeBlob?
  {
    InitInv(roots);
    RunKeeps(Init(roots), acts, s);
    forall k | 0 <= k < |s.yielded| ensures Ids(s.yielded)[k].TreeBlob? {
      assert s.yielded[k] in s.yielded;
    }
  }

  /** What the loop over the streamed trees collects. */
  ghost function NeededTrees(dest: Index, roots: seq<BlobId>, yielded: seq<Request>): set<BlobId>
  {
    (SetOf(roots) + AllSubtrees(SetOf(Ids(yielded)))) - dest.trees
  }

  ghost function NeededData(dest: Index, yielded: seq<Request>): set<BlobId>
  {
    AllContents(SetOf(Ids(yielded))) - dest.data
  }

  /** Copying the needed blobs adds only blobs that are reachable and were missing, and the copied snapshots are
      complete in the destination if and only if the source index has all the missing data blobs and none
      of these has the id of a missing tree. The trees were loaded through the source index. */
  lemma {:induction false} NeededCompleteIff(src: Index, dest: Index, roots: seq<BlobId>, acts: seq<Action>, s: State)
    requires Runs(Init(roots), acts, s) && s.done && !s.Failed()
    requires WellTyped(ReachAll(roots)) && SetOf(Ids(s.yielded)) <= src.trees
    ensures var reach := ReachAll(roots);
      var after := After(src, dest, NeededTrees(dest, roots, s.yielded), NeededData(dest, s.yielded));
      && (Complete(after, reach) <==>
            AllContents(reach) - dest.data <= src.data && (reach - dest.trees) !! (AllContents(reach) - dest.data))
      && after.trees - dest.trees <= reach && after.data - dest.data <= AllContents(reach)
  {
    YieldsReachableOnce(roots, acts, s);
    SameMembers(Ids(s.yielded), ReachAll(roots));
    var reach := ReachAll(roots);
    NeededIsReachable(roots, reach);
    var trees, data := reach - dest.trees, AllContents(reach) - dest.data;
    CompleteIff(src, dest, reach, trees, data);
  }

  lemma {:induction false} CompleteIff(src: Index, dest: Index, reach: set<BlobId>, trees: set<BlobId>,
                                       data: set<BlobId>)
    requires trees == reach - dest.trees && data == AllContents(reach) - dest.data && reach <= src.trees
    ensures var after := After(src, dest, trees, data);
      && (Complete(after, reach) <==> data <= src.data && trees !! data)
      && after.trees - dest.trees <= reach && after.data - dest.data <= AllContents(reach)
  {
    var after := After(src, dest, trees, data);
    if Complete(after, reach) {
      forall d | d in data ensures d in src.data { assert d in after.data; }
      forall t | t in trees ensures t !in data { assert t in after.trees; }
    }
    if data <= src.data && trees !! data {
      forall t | t in reach ensures t in after.trees {}
      forall d | d in AllContents(reach) ensures d in after.data {}
    }
  }
}
