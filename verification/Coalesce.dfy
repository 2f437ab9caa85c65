/** Joining nearby blobs of a pack into one read and cutting the read up again. */
module Coalesce {
  import opened Repo
  import opened PackFormat

  const MAX_HOLESIZE: nat := 256 * 1024
  const LIMIT_PACK_READ: nat := 40 * 1024 * 1024

  type PackId = nat

  datatype Part = Part(location: Location, id: Bytes)
  {
    function End(): nat { location.offset + location.length }
  }

  /** One read of a pack file and the blobs it is for. */
  datatype Read = Read(pack: PackId, offset: nat, length: nat, blobs: seq<Part>)
  {
    function End(): nat { offset + length }
  }

  function Single(pack: PackId, p: Part): Read { Read(pack, p.location.offset, p.location.length, [p]) }

  function Minus(a: nat, b: nat): nat
    requires a < U32 && b < U32
  {
    (a + U32 - b) % U32
  }

  /** `can_coalesce` on 32-bit numbers. */
  predicate CanCoalesce(a: Read, b: Read)
    requires a.offset < U32
  {
    && b.offset <= Add32(Add32(a.offset, a.length), MAX_HOLESIZE)
    && b.offset >= Add32(a.offset, a.length)
    && Minus(Add32(b.offset, b.length), a.offset) <= LIMIT_PACK_READ
  }

  /** What it is meant to decide. */
  predicate Near(a: Read, b: Read)
  {
    && a.End() <= b.offset <= a.End() + MAX_HOLESIZE
    && b.End() - a.offset <= LIMIT_PACK_READ
  }

  lemma {:induction false} WrapOnce(a: nat, b: nat)
    requires a < U32 && b < U32
    ensures Add32(a, b) == if a + b < U32 then a + b else a + b - U32
    ensures Minus(a, b) == if a >= b then a - b else a + U32 - b
  {
  }

  /** For reads inside a pack of less than 4 GiB the 32-bit test says what is meant, except that it
      never joins anything to a read that ends in the last 256 KiB below 4 GiB. */
  lemma {:induction false} CanCoalesceIff(a: Read, b: Read)
    requires a.End() < U32 && b.End() < U32
    ensures CanCoalesce(a, b) <==> Near(a, b) && a.End() + MAX_HOLESIZE < U32
  {
    WrapOnce(a.offset, a.length);
    WrapOnce(a.End(), MAX_HOLESIZE);
    WrapOnce(b.offset, b.length);
    WrapOnce(b.End(), a.offset);
  }

  /** In the test and in `append` one addition can overflow, and does so exactly if the first read ends in the
      last 256 KiB below 2^32; otherwise the test is the meant one. */
  lemma {:induction false} NoOverflow(a: Read, b: Read)
    requires a.End() < U32 && b.End() < U32
    ensures Add32(a.offset, a.length) == a.End() && Add32(b.offset, b.length) == b.End()
    ensures Add32(Add32(a.offset, a.length), MAX_HOLESIZE) == a.End() + MAX_HOLESIZE <==> a.End() + MAX_HOLESIZE < U32
    ensures a.End() <= b.offset ==> Minus(Add32(b.offset, b.length), a.offset) == b.End() - a.offset
    ensures a.End() + MAX_HOLESIZE < U32 ==> (CanCoalesce(a, b) <==> Near(a, b))
  {
    CanCoalesceIff(a, b);
    WrapOnce(a.offset, a.length);
    WrapOnce(a.End(), MAX_HOLESIZE);
    WrapOnce(b.offset, b.length);
    WrapOnce(b.End(), a.offset);
  }

  function Append(a: Read, b: Read): Read
    requires a.offset < U32
  {
    Read(a.pack, a.offset, Minus(Add32(b.offset, b.length), a.offset), a.blobs + b.blobs)
  }

  /** The fold of `coalesce` over the sorted reads. */
  function CoalesceAll(cur: Read, rest: seq<Read>): seq<Read>
    requires cur.offset < U32 && forall r :: r in rest ==> r.offset < U32
    decreases |rest|
  {
    if rest == [] then [cur]
    else
      assert rest[0] in rest;
      if cur.pack == rest[0].pack && CanCoalesce(cur, rest[0]) then CoalesceAll(Append(cur, rest[0]), rest[1..])
      else [cur] + CoalesceAll(rest[0], rest[1..])
  }

  function Joined(rs: seq<Read>): seq<Read>
    requires forall r :: r in rs ==> r.offset < U32
  {
    if rs == [] then [] else CoalesceAll(rs[0], rs[1..])
  }

  // ---------------------------------------------------------------- what a read is

  /** Each blob starts behind the one before it, at most a hole of the allowed size away. */
  ghost predicate Linked(blobs: seq<Part>)
  {
    forall i :: 0 < i < |blobs| ==> blobs[i - 1].End() <= blobs[i].location.offset <= blobs[i - 1].End() + MAX_HOLESIZE
  }

  ghost predicate GoodRead(files: PackId -> Bytes, r: Read)
  {
    && r.blobs != [] && Linked(r.blobs)
    && r.offset == r.blobs[0].location.offset && r.End() == r.blobs[|r.blobs| - 1].End()
    && (|r.blobs| > 1 ==> r.length <= LIMIT_PACK_READ)
    && r.End() <= |files(r.pack)| < U32
  }

  lemma {:induction false} Between(blobs: seq<Part>, i: nat)
    requires Linked(blobs) && i < |blobs|
    ensures blobs[0].location.offset <= blobs[i].location.offset
    decreases i
  {
    if i > 0 { Between(blobs, i - 1); }
  }

  lemma {:induction false} EndsBetween(blobs: seq<Part>, i: nat)
    requires Linked(blobs) && i < |blobs|
    ensures blobs[i].End() <= blobs[|blobs| - 1].End()
    decreases |blobs| - i
  {
    if i + 1 < |blobs| { EndsBetween(blobs, i + 1); }
  }

  lemma {:induction false} LinkedConcat(a: seq<Part>, b: seq<Part>)
    requires a != [] && b != [] && Linked(a) && Linked(b)
    requires a[|a| - 1].End() <= b[0].location.offset <= a[|a| - 1].End() + MAX_HOLESIZE
    ensures Linked(a + b)
  {
    var all := a + b;
    forall i | 0 < i < |all| ensures all[i - 1].End() <= all[i].location.offset <= all[i - 1].End() + MAX_HOLESIZE {
      if i > |a| { assert all[i] == b[i - |a|] && all[i - 1] == b[i - |a| - 1]; }
    }
  }

  lemma {:induction false} AppendGood(files: PackId -> Bytes, a: Read, b: Read)
    requires GoodRead(files, a) && GoodRead(files, b) && a.pack == b.pack && CanCoalesce(a, b)
    ensures GoodRead(files, Append(a, b))
  {
    CanCoalesceIff(a, b);
    WrapOnce(b.offset, b.length);
    WrapOnce(b.End(), a.offset);
    LinkedConcat(a.blobs, b.blobs);
  }

  /** All requests, with their packs, in the order of the reads. */
  function Requests(rs: seq<Read>): seq<(PackId, Part)>
  {
    if rs == [] then [] else Of(rs[0].pack, rs[0].blobs) + Requests(rs[1..])
  }

  function Of(pack: PackId, blobs: seq<Part>): (r: seq<(PackId, Part)>)
    ensures |r| == |blobs| && forall i :: 0 <= i < |r| ==> r[i] == (pack, blobs[i])
  {
    seq(|blobs|, i requires 0 <= i < |blobs| => (pack, blobs[i]))
  }

  lemma {:induction false} OfConcat(pack: PackId, a: seq<Part>, b: seq<Part>)
    ensures Of(pack, a + b) == Of(pack, a) + Of(pack, b)
  {
  }

  ghost predicate AllGood(files: PackId -> Bytes, rs: seq<Read>)
  {
    forall r :: r in rs ==> GoodRead(files, r)
  }

  /** Two reads that follow each other are not joined, because they may not be. */
  ghost predicate Apart(rs: seq<Read>)
  {
    forall i :: 0 <= i < |rs| - 1 ==> MayNotJoin(rs[i], rs[i + 1])
  }

  ghost predicate MayNotJoin(a: Read, b: Read)
  {
    a.offset < U32 && !(a.pack == b.pack && CanCoalesce(a, Head(b)))
  }

  /** The first blob of a read, alone. */
  function Head(r: Read): Read
  {
    if r.blobs == [] then r else Single(r.pack, r.blobs[0])
  }

  lemma {:induction false} CoalesceKeeps(files: PackId -> Bytes, cur: Read, rest: seq<Read>)
    requires GoodRead(files, cur) && AllGood(files, rest)
    ensures cur.offset < U32 && forall r :: r in rest ==> r.offset < U32
    ensures AllGood(files, CoalesceAll(cur, rest))
    ensures Requests(CoalesceAll(cur, rest)) == Of(cur.pack, cur.blobs) + Requests(rest)
    decreases |rest|
  {
    forall r | r in rest ensures r.offset < U32 { assert GoodRead(files, r); }
    if rest == [] {
      assert [cur][1..] == [];
    } else {
      var next := rest[0];
      assert next in rest;
      if cur.pack == next.pack && CanCoalesce(cur, next) {
        AppendGood(files, cur, next);
        CoalesceKeeps(files, Append(cur, next), rest[1..]);
        OfConcat(cur.pack, cur.blobs, next.blobs);
        Assoc(Of(cur.pack, cur.blobs), Of(cur.pack, next.blobs), Requests(rest[1..]));
      } else {
        CoalesceKeeps(files, next, rest[1..]);
        var tail := CoalesceAll(next, rest[1..]);
        assert ([cur] + tail)[1..] == tail;
      }
    }
  }

  /** The first read of the result starts with the blobs of the current one. */
  lemma {:induction false} FirstRead(files: PackId -> Bytes, cur: Read, rest: seq<Read>)
    requires GoodRead(files, cur) && AllGood(files, rest)
    ensures cur.offset < U32 && (forall r :: r in rest ==> r.offset < U32)
    ensures var out := CoalesceAll(cur, rest); out != [] && out[0].pack == cur.pack && cur.blobs <= out[0].blobs
    decreases |rest|
  {
    forall r | r in rest ensures r.offset < U32 { assert GoodRead(files, r); }
    if rest != [] {
      assert rest[0] in rest;
      if cur.pack == rest[0].pack && CanCoalesce(cur, rest[0]) {
        AppendGood(files, cur, rest[0]);
        FirstRead(files, Append(cur, rest[0]), rest[1..]);
      }
    }
  }

  ghost predicate Singles(rs: seq<Read>)
  {
    forall r :: r in rs ==> |r.blobs| == 1 && r == Single(r.pack, r.blobs[0])
  }

  lemma {:induction false} CoalesceApart(files: PackId -> Bytes, cur: Read, rest: seq<Read>)
    requires GoodRead(files, cur) && AllGood(files, rest) && Singles(rest)
    ensures cur.offset < U32 && (forall r :: r in rest ==> r.offset < U32)
    ensures Apart(CoalesceAll(cur, rest))
    decreases |rest|
  {
    forall r | r in rest ensures r.offset < U32 { assert GoodRead(files, r); }
    if rest != [] {
      var next := rest[0];
      assert next in rest;
      if cur.pack == next.pack && CanCoalesce(cur, next) {
        AppendGood(files, cur, next);
        CoalesceApart(files, Append(cur, next), rest[1..]);
      } else {
        var tail := CoalesceAll(next, rest[1..]);
        CoalesceApart(files, next, rest[1..]);
        FirstRead(files, next, rest[1..]);
        assert Head(tail[0]) == next by { assert tail[0].blobs[0] == next.blobs[0]; }
        ApartCons(cur, tail);
      }
    }
  }

  lemma {:induction false} ApartCons(r: Read, tail: seq<Read>)
    requires tail != [] && Apart(tail) && MayNotJoin(r, tail[0])
    ensures Apart([r] + tail)
  {
    var all := [r] + tail;
    forall i | 0 <= i < |all| - 1 ensures MayNotJoin(all[i], all[i + 1]) {
      if i > 0 { assert all[i] == tail[i - 1] && all[i + 1] == tail[i]; }
    }
  }

  // ---------------------------------------------------------------- cutting up

  function ReadPartial(file: Bytes, offset: nat, length: nat): Bytes
    requires offset + length <= |file|
  {
    file[offset..offset + length]
  }

  function OwnBytes(file: Bytes, p: Part): Bytes
    requires p.End() <= |file|
  {
    file[p.location.offset..p.End()]
  }

  lemma {:induction false} SliceOfSlice(file: Bytes, a: nat, b: nat, i: nat, j: nat)
    requires a <= i <= j <= b <= |file|
    ensures file[a..b][i - a..j - a] == file[i..j]
  {
    var s := file[a..b];
    forall k | 0 <= k < j - i ensures s[i - a..j - a][k] == file[i..j][k] {
      assert s[i - a..j - a][k] == s[i - a + k];
    }
  }

  lemma {:induction false} BlobInRead(files: PackId -> Bytes, r: Read, i: nat)
    requires GoodRead(files, r) && i < |r.blobs|
    ensures r.offset <= r.blobs[i].location.offset && r.blobs[i].End() <= r.End() <= |files(r.pack)|
  {
    Between(r.blobs, i);
    EndsBetween(r.blobs, i);
  }

  /** The loop of `copy_fast`: what is handed to the packer for each blob of a read. All slices are in
      bounds, and each holds exactly the bytes of its blob. */
  method CopyRead(files: PackId -> Bytes, r: Read) returns (out: seq<(Bytes, Bytes)>)
    requires GoodRead(files, r)
    ensures |out| == |r.blobs|
    ensures forall i :: 0 <= i < |out| ==>
      r.blobs[i].End() <= |files(r.pack)| && out[i] == (r.blobs[i].id, OwnBytes(files(r.pack), r.blobs[i]))
  {
    var data := ReadPartial(files(r.pack), r.offset, r.length);
    out := [];
    for k := 0 to |r.blobs|
      invariant |out| == k
      invariant forall i :: 0 <= i < k ==>
        r.blobs[i].End() <= |files(r.pack)| && out[i] == (r.blobs[i].id, OwnBytes(files(r.pack), r.blobs[i]))
    {
      var blob := r.blobs[k];
      BlobInRead(files, r, k);
      var start, end := blob.location.offset - r.offset, blob.End() - r.offset;
      SliceOfSlice(files(r.pack), r.offset, r.End(), blob.location.offset, blob.End());
      out := out + [(blob.id, data[start..end])];
    }
  }

  // ---------------------------------------------------------------- the whole of copy_blobs

  /** A request is made as often as there are blobs that ask for it. */
  lemma {:induction false} RequestCount(rs: seq<Read>, q: (PackId, Part))
    requires Singles(rs)
    ensures multiset(Requests(rs))[q] == multiset(rs)[Single(q.0, q.1)]
    decreases |rs|
  {
    if rs != [] {
      var r := rs[0];
      assert r in rs && rs == [r] + rs[1..];
      RequestCount(rs[1..], q);
      assert Of(r.pack, r.blobs) == [(r.pack, r.blobs[0])];
      assert r == Single(q.0, q.1) <==> (r.pack, r.blobs[0]) == q;
    }
  }

  lemma {:induction false} SameRequests(requests: seq<Read>, sorted: seq<Read>)
    requires Singles(requests) && Singles(sorted) && multiset(requests) == multiset(sorted)
    ensures multiset(Requests(requests)) == multiset(Requests(sorted))
  {
    forall q | q in multiset(Requests(requests)) || q in multiset(Requests(sorted))
      ensures multiset(Requests(requests))[q] == multiset(Requests(sorted))[q]
    {
      RequestCount(requests, q);
      RequestCount(sorted, q);
    }
  }

  lemma {:induction false} SortedToo(files: PackId -> Bytes, requests: seq<Read>, sorted: seq<Read>)
    requires Singles(requests) && AllGood(files, requests) && multiset(requests) == multiset(sorted)
    ensures Singles(sorted) && AllGood(files, sorted) && forall r :: r in sorted ==> r.offset < U32
  {
    forall r | r in sorted ensures r in requests && r.offset < U32 {
      assert r in multiset(sorted);
      assert GoodRead(files, r);
    }
  }

  /** Requests for blobs inside their packs, put into any order and joined: every request is in the reads exactly
      as often as it was made; every read lies inside its pack, its blobs do not overlap, its holes are at
      most 256 KiB, and unless it is for one blob it is at most 40 MiB long; and no read could take in the
      blob that comes after it. */
  lemma {:induction false} CopyReadsAll(files: PackId -> Bytes, requests: seq<Read>, sorted: seq<Read>)
    requires Singles(requests) && AllGood(files, requests)
    requires multiset(requests) == multiset(sorted)
    ensures forall r :: r in sorted ==> r.offset < U32
    ensures AllGood(files, Joined(sorted)) && Apart(Joined(sorted))
    ensures multiset(Requests(Joined(sorted))) == multiset(Requests(requests))
  {
    SortedToo(files, requests, sorted);
    SameRequests(requests, sorted);
    if sorted != [] {
      assert sorted[0] in sorted;
      CoalesceKeeps(files, sorted[0], sorted[1..]);
      CoalesceApart(files, sorted[0], sorted[1..]);
    }
  }

  // ---------------------------------------------------------------- what the sorting is for

  /** Sorted by pack, then by offset; equal ones in any order. */
  ghost predicate InOrder(rs: seq<Read>)
  {
    forall i, j :: 0 <= i < j < |rs| ==>
      rs[i].pack < rs[j].pack || (rs[i].pack == rs[j].pack && rs[i].offset <= rs[j].offset)
  }

  predicate Overlap(a: Read, b: Read) { a.pack == b.pack && a.offset < b.End() && b.offset < a.End() }

  /** a lies before b, without a byte in common. */
  predicate Precedes(a: Read, b: Read) { a.pack < b.pack || (a.pack == b.pack && a.End() <= b.offset) }

  ghost predicate OneAfterAnother(rs: seq<Read>)
  {
    forall i, j :: 0 <= i < j < |rs| ==> Precedes(rs[i], rs[j])
  }

  lemma {:induction false} SortedSeparates(rs: seq<Read>)
    requires InOrder(rs) && (forall r :: r in rs ==> r.length > 0)
    requires forall i, j :: 0 <= i < j < |rs| ==> !Overlap(rs[i], rs[j])
    ensures OneAfterAnother(rs)
  {
    forall i, j | 0 <= i < j < |rs| ensures Precedes(rs[i], rs[j]) {
      assert rs[i] in rs && rs[j] in rs && !Overlap(rs[i], rs[j]);
    }
  }

  lemma {:induction false} ConsAfterAnother(r: Read, tail: seq<Read>)
    requires OneAfterAnother(tail) && (tail != [] ==> Precedes(r, tail[0]))
    ensures OneAfterAnother([r] + tail)
  {
    var all := [r] + tail;
    forall i, j | 0 <= i < j < |all| ensures Precedes(all[i], all[j]) {
      assert all[j] == tail[j - 1];
      if i > 0 { assert all[i] == tail[i - 1]; }
      else if j > 1 { assert Precedes(tail[0], tail[j - 1]); }
    }
  }

  lemma {:induction false} JoinedInOrder(files: PackId -> Bytes, cur: Read, rest: seq<Read>)
    requires GoodRead(files, cur) && AllGood(files, rest)
    requires OneAfterAnother(rest) && (rest != [] ==> Precedes(cur, rest[0]))
    ensures cur.offset < U32 && (forall r :: r in rest ==> r.offset < U32)
    ensures var out := CoalesceAll(cur, rest);
      OneAfterAnother(out) && out != [] && out[0].pack == cur.pack && out[0].offset == cur.offset
    decreases |rest|
  {
    forall r | r in rest ensures r.offset < U32 { assert GoodRead(files, r); }
    if rest != [] {
      var next, more := rest[0], rest[1..];
      assert next in rest;
      assert more != [] ==> Precedes(next, more[0]);
      assert OneAfterAnother(more);
      if cur.pack == next.pack && CanCoalesce(cur, next) {
        AppendGood(files, cur, next);
        assert Append(cur, next).End() == next.End();
        JoinedInOrder(files, Append(cur, next), more);
      } else {
        JoinedInOrder(files, next, more);
        ConsAfterAnother(cur, CoalesceAll(next, more));
      }
    }
  }

  /** If no two blobs overlap, sorting makes sure that no byte of a pack is read twice, the bytes in
      the holes included. */
  lemma {:induction false} NoByteTwice(files: PackId -> Bytes, requests: seq<Read>, sorted: seq<Read>)
    requires Singles(requests) && AllGood(files, requests) && (forall r :: r in requests ==> r.length > 0)
    requires multiset(requests) == multiset(sorted) && InOrder(sorted)
    requires forall i, j :: 0 <= i < j < |sorted| ==> !Overlap(sorted[i], sorted[j])
    ensures forall r :: r in sorted ==> r.offset < U32
    ensures var out := Joined(sorted); forall i, j :: 0 <= i < j < |out| ==> !Overlap(out[i], out[j])
  {
    SortedToo(files, requests, sorted);
    forall r | r in sorted ensures r.length > 0 { assert r in multiset(requests); }
    SortedSeparates(sorted);
    if sorted != [] {
      assert sorted[0] in sorted;
      if |sorted| > 1 { assert sorted[1..][0] == sorted[1] && Precedes(sorted[0], sorted[1]); }
      JoinedInOrder(files, sorted[0], sorted[1..]);
      var out := Joined(sorted);
      forall i, j | 0 <= i < j < |out| ensures !Overlap(out[i], out[j]) { assert Precedes(out[i], out[j]); }
    }
  }
}
