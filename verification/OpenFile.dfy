/** Random access to a file stored as a list of blobs (`OpenFile::read_at`). */
module OpenFile {
  import opened Repo

  const USIZE_MAX: nat := 0xFFFF_FFFF_FFFF_FFFF

  function Flat(blobs: seq<seq<Byte>>): seq<Byte>
  {
    if blobs == [] then [] else blobs[0] + Flat(blobs[1..])
  }

  /** The file offset at which blob i starts. */
  function Start(blobs: seq<seq<Byte>>, i: nat): nat
    requires i <= |blobs|
  {
    |Flat(blobs[..i])|
  }

  lemma {:induction false} FlatConcat(a: seq<seq<Byte>>, b: seq<seq<Byte>>)
    ensures Flat(a + b) == Flat(a) + Flat(b)
  {
    if a == [] {
      assert a + b == b;
    } else {
      FlatConcat(a[1..], b);
      assert (a + b)[1..] == a[1..] + b;
      Assoc(a[0], Flat(a[1..]), Flat(b));
    }
  }

  /** Blob i is the part of the file between its start and the next one. */
  lemma {:induction false} BlobInFile(blobs: seq<seq<Byte>>, i: nat)
    requires i < |blobs|
    ensures Start(blobs, i + 1) == Start(blobs, i) + |blobs[i]| <= |Flat(blobs)|
    ensures Flat(blobs)[Start(blobs, i)..Start(blobs, i + 1)] == blobs[i]
  {
    var a, b := blobs[..i], blobs[i + 1..];
    assert blobs[..i + 1] == a + [blobs[i]] && blobs == (a + [blobs[i]]) + b;
    assert Flat([blobs[i]]) == blobs[i] + Flat([blobs[i]][1..]);
    FlatConcat(a, [blobs[i]]);
    FlatConcat(a + [blobs[i]], b);
  }

  lemma {:induction false} StartsOrdered(blobs: seq<seq<Byte>>, i: nat, j: nat)
    requires i <= j <= |blobs|
    ensures Start(blobs, i) <= Start(blobs, j) <= |Flat(blobs)|
    decreases j - i
  {
    if i < j {
      StartsOrdered(blobs, i, j - 1);
      BlobInFile(blobs, j - 1);
    } else {
      FlatConcat(blobs[..i], blobs[i..]);
      assert blobs == blobs[..i] + blobs[i..];
    }
  }

  /** `ContentStartpoints::from_sizes`: the start of every blob and, unless there is none, a last
      entry that no offset below it reaches. A missing size is an error. */
  method FromSizes(sizes: seq<Option<nat>>, ghost blobs: seq<seq<Byte>>) returns (r: Option<seq<nat>>)
    requires |sizes| == |blobs| && |Flat(blobs)| <= USIZE_MAX
    requires forall i :: 0 <= i < |sizes| ==> sizes[i].None? || sizes[i] == Some(|blobs[i]|)
    ensures r.None? <==> None in sizes
    ensures r.Some? ==> Startpoints(r.value, blobs)
  {
    var start, offsets := 0, [];
    for i := 0 to |sizes|
      invariant |offsets| == i && start == Start(blobs, i)
      invariant None !in sizes[..i]
      invariant forall j :: 0 <= j < i ==> offsets[j] == Start(blobs, j)
    {
      if sizes[i].None? { return None; }
      BlobInFile(blobs, i);
      offsets := offsets + [start];
      start := start + sizes[i].value;
    }
    if offsets != [] {
      offsets := offsets + [USIZE_MAX];
    }
    r := Some(offsets);
  }

  ghost predicate Startpoints(points: seq<nat>, blobs: seq<seq<Byte>>)
  {
    && |points| == (if blobs == [] then 0 else |blobs| + 1)
    && (forall i :: 0 <= i < |blobs| ==> points[i] == Start(blobs, i))
    && (blobs != [] ==> points[|blobs|] == USIZE_MAX)
  }

  /** `partition_point(|o| o <= offset)` of the points. */
  function CountUpTo(points: seq<nat>, offset: nat): (n: nat)
    ensures n <= |points| && (forall i :: 0 <= i < n ==> points[i] <= offset)
    ensures n < |points| ==> points[n] > offset
  {
    if points == [] || points[0] > offset then 0 else 1 + CountUpTo(points[1..], offset)
  }

  /** The blob in which to start reading, and the offset in it: the last blob that starts at or
      before the offset (for the largest offset of all, the end of the list). */
  function ComputeStart(points: seq<nat>, offset: nat): (r: (nat, nat))
    requires points != [] ==> points[0] == 0
  {
    if points == [] then (0, 0)
    else
      var i := CountUpTo(points, offset) - 1;
      (i, offset - points[i])
  }

  lemma {:induction false} ComputeStartFinds(points: seq<nat>, blobs: seq<seq<Byte>>, offset: nat)
    requires Startpoints(points, blobs) && blobs != [] && |Flat(blobs)| <= USIZE_MAX && offset <= USIZE_MAX
    ensures points[0] == 0
    ensures var (i, o) := ComputeStart(points, offset);
      && i <= |blobs|
      && (i == |blobs| ==> offset == USIZE_MAX && o == 0)
      && (i < |blobs| ==> o == offset - Start(blobs, i) && (i + 1 < |blobs| ==> offset < Start(blobs, i + 1)))
  {
    assert blobs[..0] == [];
  }

  function Min(a: nat, b: nat): nat { if a < b then a else b }

  /** The bytes `read_at` promises: up to `length` bytes from `offset`, cut at the end of the file. */
  function Slice(file: seq<Byte>, offset: nat, length: nat): seq<Byte>
  {
    file[Min(offset, |file|)..Min(offset + length, |file|)]
  }

  /** Where the loop of `read_at` stands: `got` are the bytes of the file from `from` up to `to`, and
      while there is more to read, blob i at offset o is where they end. */
  ghost predicate Reading(blobs: seq<seq<Byte>>, from: nat, to: nat, got: seq<Byte>, i: nat, o: nat, left: nat)
  {
    && i <= |blobs| && from <= to
    && if to <= |Flat(blobs)| then
         got == Flat(blobs)[from..to] && (left > 0 ==> to == Start(blobs, i) + o && (i < |blobs| ==> o <= |blobs[i]|))
       else from == to && got == [] && (i < |blobs| ==> o > |blobs[i]|)
  }

  lemma {:induction false} ReadBlob(blobs: seq<seq<Byte>>, from: nat, to: nat, got: seq<Byte>, i: nat, o: nat,
                                    left: nat)
    requires Reading(blobs, from, to, got, i, o, left) && left > 0 && i < |blobs| && o <= |blobs[i]|
    ensures var n := Min(|blobs[i]| - o, left);
      Reading(blobs, from, to + n, got + blobs[i][o..o + n], i + 1, 0, left - n)
  {
    var n, file := Min(|blobs[i]| - o, left), Flat(blobs);
    BlobInFile(blobs, i);
    assert to <= |file|;
    assert file[to..to + n] == file[Start(blobs, i)..Start(blobs, i + 1)][o..o + n];
    assert file[from..to + n] == file[from..to] + file[to..to + n];
  }

  /** What the loop of `read_at` keeps. */
  ghost predicate Going(blobs: seq<seq<Byte>>, offset: nat, length: nat, to: nat, got: seq<Byte>, i: nat, o: nat,
                        left: nat)
  {
    && i <= |blobs| && to + left == offset + length
    && if blobs == [] then got == [] else Reading(blobs, offset, to, got, i, o, left)
  }

  lemma {:induction false} Begin(blobs: seq<seq<Byte>>, points: seq<nat>, offset: nat, length: nat)
    requires Startpoints(points, blobs) && |Flat(blobs)| <= USIZE_MAX && offset <= USIZE_MAX
    ensures points != [] ==> points[0] == 0
    ensures var (i, o) := ComputeStart(points, offset); Going(blobs, offset, length, offset, [], i, o, length)
  {
    if blobs != [] {
      ComputeStartFinds(points, blobs, offset);
      var (i, o) := ComputeStart(points, offset);
      if i < |blobs| { BlobInFile(blobs, i); StartsOrdered(blobs, i + 1, |blobs|); }
      if i + 1 < |blobs| { StartsOrdered(blobs, i + 1, |blobs|); }
      assert blobs[..|blobs|] == blobs;
    }
  }

  lemma {:induction false} Done(blobs: seq<seq<Byte>>, offset: nat, length: nat, to: nat, got: seq<Byte>, i: nat,
                                o: nat, left: nat)
    requires Going(blobs, offset, length, to, got, i, o, left)
    requires left == 0 || i == |blobs| || o > |blobs[i]|
    ensures got == Slice(Flat(blobs), offset, length)
  {
    assert blobs[..|blobs|] == blobs;
  }

  /** `read_at` over the blobs of a file (`blobs[i]` is the content of blob i). */
  method ReadAt(blobs: seq<seq<Byte>>, points: seq<nat>, offset: nat, length: nat) returns (result: seq<Byte>)
    requires Startpoints(points, blobs) && |Flat(blobs)| <= USIZE_MAX && offset <= USIZE_MAX
    ensures result == Slice(Flat(blobs), offset, length)
  {
    Begin(blobs, points, offset, length);
    var start := ComputeStart(points, offset);
    var i: nat, o: nat, left: nat := start.0, start.1, length;
    result := [];
    ghost var to: nat := offset;
    while left > 0 && i < |blobs|
      invariant Going(blobs, offset, length, to, result, i, o, left)
      decreases |blobs| - i
    {
      var data := blobs[i];
      if o > |data| {
        break;
      }
      ReadBlob(blobs, offset, to, result, i, o, left);
      var toCopy := if |data| - o < left then |data| - o else left;
      result := result + data[o..o + toCopy];
      o := 0;
      left := left - toCopy;
      i := i + 1;
      to := to + toCopy;
    }
    Done(blobs, offset, length, to, result, i, o, left);
  }
}
