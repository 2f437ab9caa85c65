/** Values shared by every part of the model: names, nodes, trees and blob ids. */
module Repo {
  datatype Option<+T> = None | Some(value: T)

  type Byte = b: int | 0 <= b < 256

  type Name = string

  datatype NodeType = File | Dir | Special

  datatype Meta = Meta(size: nat, mtime: int)

  datatype Node = Node(
    name: Name,
    nodeType: NodeType,
    meta: Meta,
    content: Option<seq<BlobId>>,
    subtree: Option<BlobId>)

  /** The hash of a blob's bytes, taken as ideal: two blobs with one id have the same bytes.
      The bytes are the serialization of a tree, or anything else. Nothing keeps a file from
      holding the serialization of a tree, so a data id may be a TreeBlob. */
  datatype BlobId = TreeBlob(nodes: seq<Node>) | RawBlob(key: nat)

  /** What the lookup in earlier snapshots says about a node. */
  datatype ParentResult<+T> = Matched(value: T) | NotFound | NotMatched

  /** An unfinished directory on the stack of the tree archiver: its node, its parent if that matters,
      and the nodes before it in the tree outside. */
  datatype Open<+P> = Open(node: Node, parent: P, outer: seq<Node>)

  /** The node with the given name. */
  function Lookup(nodes: seq<Node>, name: Name): (r: Option<Node>)
    ensures r.Some? ==> r.value in nodes && r.value.name == name
    ensures r.None? ==> forall n :: n in nodes ==> n.name != name
  {
    if nodes == [] then None
    else if nodes[0].name == name then Some(nodes[0])
    else Lookup(nodes[1..], name)
  }

  /** The first of the nodes with that name. */
  ghost predicate FirstNamed(nodes: seq<Node>, name: Name, n: Node)
  {
    n.name == name && exists k :: 0 <= k < |nodes| && nodes[k] == n && forall j :: 0 <= j < k ==> nodes[j].name != name
  }

  lemma {:induction false} LookupIs(nodes: seq<Node>, name: Name)
    ensures forall n :: Lookup(nodes, name) == Some(n) <==> FirstNamed(nodes, name, n)
    decreases |nodes|
  {
    if nodes != [] {
      LookupIs(nodes[1..], name);
      if nodes[0].name == name {
        assert FirstNamed(nodes, name, nodes[0]);
      } else {
        forall n ensures FirstNamed(nodes, name, n) <==> FirstNamed(nodes[1..], name, n) {
          FirstNamedLater(nodes, name, n);
        }
      }
    }
  }

  lemma {:induction false} FirstNamedLater(nodes: seq<Node>, name: Name, n: Node)
    requires nodes != [] && nodes[0].name != name
    ensures FirstNamed(nodes, name, n) <==> FirstNamed(nodes[1..], name, n)
  {
    if FirstNamed(nodes, name, n) {
      var k :| 0 <= k < |nodes| && nodes[k] == n && forall j :: 0 <= j < k ==> nodes[j].name != name;
      assert nodes[1..][k - 1] == n;
    }
    if FirstNamed(nodes[1..], name, n) {
      var k :| 0 <= k < |nodes[1..]| && nodes[1..][k] == n && forall j :: 0 <= j < k ==> nodes[1..][j].name != name;
      assert nodes[k + 1] == n && forall j :: 1 <= j < k + 1 ==> nodes[j] == nodes[1..][j - 1];
    }
  }

  /** Trees reachable from a tree id. */
  ghost function ReachTrees(id: BlobId): set<BlobId>
    decreases id, 1
  {
    {id} + if id.TreeBlob? then ReachNodes(id.nodes) else {}
  }
  ghost function ReachNodes(nodes: seq<Node>): set<BlobId>
    decreases nodes, 0
  {
    if nodes == [] then {} else
      (if nodes[0].subtree.Some? then ReachTrees(nodes[0].subtree.value) else {}) + ReachNodes(nodes[1..])
  }

  lemma {:induction false} Assoc<T>(a: seq<T>, b: seq<T>, c: seq<T>)
    ensures a + (b + c) == (a + b) + c
  {
  }
}
