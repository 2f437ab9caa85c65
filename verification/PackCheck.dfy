/** What the checker asks of a pack: the offsets in the index, and the pack file down to its single blobs. */
module PackCheck {
  import opened Repo
  import opened PackFormat

  // ---------------------------------------------------------------- blobs

  /** Encryption, the hash of contents, and compression. */
  datatype Codec = Codec(key: Key, hash: Bytes -> Bytes, compress: Bytes -> Bytes, decompress: Bytes -> Option<Bytes>)

  ghost predicate GoodCodec(codec: Codec)
  {
    GoodKey(codec.key) && forall x :: |codec.hash(x)| == 32 && codec.decompress(codec.compress(x)) == Some(x)
  }

  /** `encrypt_data`: the item for a blob, with its hash as id; None if its length does not fit 32 bits. A
      length of 0 cannot be recorded as the length before compression. */
  function Process(codec: Codec, zstd: bool, plain: Bytes): Option<Item>
  {
    if |plain| >= U32 then None
    else if zstd then
      var length := if plain == [] then None else Some(|plain|);
      Some(Item(codec.hash(plain), codec.key.encrypt(codec.compress(plain)), length))
    else Some(Item(codec.hash(plain), codec.key.encrypt(plain), None))
  }

  /** `read_encrypted_from_partial`: None is any error. */
  function ReadBlob(codec: Codec, data: Bytes, uncompressed: Option<nat>): Option<Bytes>
  {
    var plain := codec.key.decrypt(data);
    if plain.None? || uncompressed.None? then plain
    else
      var whole := codec.decompress(plain.value);
      if whole.None? || |whole.value| != uncompressed.value then None else whole
  }

  /** The blob can be read, and what is read has the id. */
  ghost predicate Genuine(codec: Codec, data: Bytes, uncompressed: Option<nat>, id: Bytes)
  {
    var plain := ReadBlob(codec, data, uncompressed);
    plain.Some? && codec.hash(plain.value) == id
  }

  /** A blob is read back as it was, except for the empty blob under compression, which comes back as the
      compressed form of nothing. */
  lemma {:induction false} ReadBackIff(codec: Codec, zstd: bool, plain: Bytes)
    requires GoodCodec(codec) && |plain| < U32
    ensures var x := Process(codec, zstd, plain).value;
      && Typed(x) && x.id == codec.hash(plain)
      && (ReadBlob(codec, x.data, x.uncompressed) == Some(plain) <==>
            !zstd || plain != [] || codec.compress([]) == [])
  {
    assert codec.key.decrypt(codec.key.encrypt(if zstd then codec.compress(plain) else plain)).Some?;
    assert codec.decompress(codec.compress(plain)) == Some(plain);
  }

  // ---------------------------------------------------------------- the offsets in the index

  datatype PackError =
    | TypeMismatch(id: Bytes) | OffsetMismatch(id: Bytes, offset: nat, expected: nat)
    | SizeMismatch | HashMismatch | HeaderLengthMismatch | HeaderMismatchIndex
    | BlobLengthMismatch(id: Bytes) | BlobHashMismatch(id: Bytes)

  function BlobErrors(b: IndexBlob, tpe: BlobType, expected: nat): seq<PackError>
  {
    (if b.tpe != tpe then [TypeMismatch(b.id)] else [])
      + (if b.location.offset != expected then [OffsetMismatch(b.id, b.location.offset, expected)] else [])
  }

  function OffsetErrors(blobs: seq<IndexBlob>, tpe: BlobType, expected: nat): seq<PackError>
  {
    if blobs == [] then []
    else
      BlobErrors(blobs[0], tpe, expected) + OffsetErrors(blobs[1..], tpe, Add32(expected, blobs[0].location.length))
  }

  /** The blobs sorted by offset: blobs with the same offset may come in any order. */
  ghost predicate SortedByOffset(blobs: seq<IndexBlob>, sorted: seq<IndexBlob>)
  {
    multiset(blobs) == multiset(sorted) && OffsetsAscend(sorted)
  }

  ghost predicate OffsetsAscend(blobs: seq<IndexBlob>)
  {
    forall i, j :: 0 <= i < j < |blobs| ==> blobs[i].location.offset <= blobs[j].location.offset
  }

  /** The offset loop of `check_packs` over one pack of the index. */
  method CheckOffsets(tpe: BlobType, sorted: seq<IndexBlob>) returns (errors: seq<PackError>)
    ensures errors == OffsetErrors(sorted, tpe, 0)
  {
    errors := [];
    var i: nat, expected: nat := 0, 0;
    assert sorted[0..] == sorted && [] + OffsetErrors(sorted, tpe, 0) == OffsetErrors(sorted, tpe, 0);
    while i < |sorted|
      invariant i <= |sorted| && ErrorsSoFar(sorted, tpe, i, expected, errors)
    {
      var blob := sorted[i];
      ErrorsStep(sorted, tpe, i, expected, errors);
      var found := CheckBlob(tpe, blob, expected);
      errors := errors + found;
      expected := Add32(expected, blob.location.length);
      i := i + 1;
    }
    assert sorted[i..] == [] && errors + [] == errors;
  }

  method CheckBlob(tpe: BlobType, blob: IndexBlob, expected: nat) returns (errors: seq<PackError>)
    ensures errors == BlobErrors(blob, tpe, expected)
  {
    errors := [];
    if blob.tpe != tpe { errors := errors + [TypeMismatch(blob.id)]; }
    if blob.location.offset != expected {
      errors := errors + [OffsetMismatch(blob.id, blob.location.offset, expected)];
    }
  }

  ghost predicate ErrorsSoFar(sorted: seq<IndexBlob>, tpe: BlobType, i: nat, expected: nat, errors: seq<PackError>)
    requires i <= |sorted|
  {
    OffsetErrors(sorted, tpe, 0) == errors + OffsetErrors(sorted[i..], tpe, expected)
  }

  lemma {:induction false} ErrorsStep(sorted: seq<IndexBlob>, tpe: BlobType, i: nat, expected: nat,
                                      errors: seq<PackError>)
    requires i < |sorted| && ErrorsSoFar(sorted, tpe, i, expected, errors)
    ensures ErrorsSoFar(sorted, tpe, i + 1, Add32(expected, sorted[i].location.length),
                        errors + BlobErrors(sorted[i], tpe, expected))
  {
    assert sorted[i..][0] == sorted[i] && sorted[i..][1..] == sorted[i + 1..];
    Assoc(errors, BlobErrors(sorted[i], tpe, expected),
          OffsetErrors(sorted[i + 1..], tpe, Add32(expected, sorted[i].location.length)));
  }

  /** The loop finds nothing if and only if the blobs tile the pack from the start and have one type. */
  lemma {:induction false} OffsetsRightIff(blobs: seq<IndexBlob>, tpe: BlobType, expected: nat)
    ensures OffsetErrors(blobs, tpe, expected) == [] <==>
              TilesFrom(blobs, expected) && forall b :: b in blobs ==> b.tpe == tpe
    decreases |blobs|
  {
    if blobs != [] {
      assert blobs == [blobs[0]] + blobs[1..];
      OffsetsRightIff(blobs[1..], tpe, Add32(expected, blobs[0].location.length));
    }
  }

  // ---------------------------------------------------------------- the pack file

  datatype End = Done | Failed | Panicked

  /** What was reported, and how the check ended. */
  datatype Verdict = Verdict(errors: seq<PackError>, end: End)

  /** The check of one blob. */
  function CheckPart(codec: Codec, b: IndexBlob, part: Bytes): Verdict
  {
    var plain := codec.key.decrypt(part);
    if plain.None? then Verdict([], Failed)
    else if b.location.uncompressed.None? then Verdict(WrongHash(codec, b, plain.value), Done)
    else
      var whole := codec.decompress(plain.value);
      if whole.None? then Verdict([], Panicked)
      else
        Verdict((if |whole.value| != b.location.uncompressed.value then [BlobLengthMismatch(b.id)] else [])
                  + WrongHash(codec, b, whole.value), Done)
  }

  function WrongHash(codec: Codec, b: IndexBlob, plain: Bytes): seq<PackError>
  {
    if codec.hash(plain) != b.id then [BlobHashMismatch(b.id)] else []
  }

  /** The blobs, cut off the front of the data one after the other. */
  function CheckParts(codec: Codec, blobs: seq<IndexBlob>, data: Bytes): Verdict
  {
    if blobs == [] then Verdict([], Done)
    else
      var n := blobs[0].location.length;
      if n > |data| then Verdict([], Panicked)
      else
        var first := CheckPart(codec, blobs[0], data[..n]);
        if !first.end.Done? then first
        else
          var rest := CheckParts(codec, blobs[1..], data[n..]);
          rest.(errors := first.errors + rest.errors)
  }

  /** `check_pack`: `blobs` is the index entry of the pack, and `sorted` the same blobs sorted. */
  function CheckPack(codec: Codec, id: Bytes, blobs: seq<IndexBlob>, sorted: seq<IndexBlob>, data: Bytes): Verdict
  {
    var headerLen := HeaderSize(blobs) % U32;
    if |data| != PackSize(blobs) % U32 then Verdict([SizeMismatch], Done)
    else if codec.hash(data) != id then Verdict([HashMismatch], Done)
    else if |data| < LENGTH_LEN then Verdict([], Panicked)
    else if FromLe32(data[|data| - LENGTH_LEN..]) != headerLen then Verdict([HeaderLengthMismatch], Done)
    else if |data| - LENGTH_LEN < headerLen then Verdict([], Panicked)
    else
      var body := data[..|data| - LENGTH_LEN];
      CheckBody(codec, sorted, body[|body| - headerLen..], body[..|body| - headerLen])
  }

  /** The encrypted header, and the blobs in front of it. */
  function CheckBody(codec: Codec, sorted: seq<IndexBlob>, encrypted: Bytes, parts: Bytes): Verdict
  {
    var header := codec.key.decrypt(encrypted);
    if header.None? || FromBinary(header.value, 0).None? then Verdict([], Failed)
    else if FromBinary(header.value, 0).value != sorted then Verdict([HeaderMismatchIndex], Done)
    else CheckParts(codec, sorted, parts)
  }

  // ---------------------------------------------------------------- what a passed check means

  /** The range of the blob lies in the file and holds bytes that are read back with the right id. */
  ghost predicate Readable(codec: Codec, b: IndexBlob, at: nat, file: Bytes)
  {
    && at + b.location.length <= |file|
    && Genuine(codec, file[at..at + b.location.length], b.location.uncompressed, b.id)
  }

  /** A blob passes if and only if it is read back with the right id. */
  lemma {:induction false} PartIff(codec: Codec, b: IndexBlob, part: Bytes)
    ensures CheckPart(codec, b, part) == Verdict([], Done) <==> Genuine(codec, part, b.location.uncompressed, b.id)
  {
  }

  lemma {:induction false} PartsFirst(codec: Codec, blobs: seq<IndexBlob>, data: Bytes)
    requires blobs != [] && CheckParts(codec, blobs, data) == Verdict([], Done)
    ensures var n := blobs[0].location.length;
      && n <= |data| && CheckPart(codec, blobs[0], data[..n]) == Verdict([], Done)
      && CheckParts(codec, blobs[1..], data[n..]) == Verdict([], Done)
  {
    var n := blobs[0].location.length;
    var first, rest := CheckPart(codec, blobs[0], data[..n]), CheckParts(codec, blobs[1..], data[n..]);
    assert first.end.Done?;
    assert |first.errors + rest.errors| == |first.errors| + |rest.errors|;
    assert first.errors == [] && rest.errors == [];
  }

  lemma {:induction false} ReadableLater(codec: Codec, b: IndexBlob, at: nat, data: Bytes, n: nat)
    requires n <= |data| && Readable(codec, b, at, data[n..])
    ensures Readable(codec, b, n + at, data)
  {
    assert data[n..][at..at + b.location.length] == data[n + at..n + at + b.location.length];
  }

  /** Where the blob at position k starts if each starts where the one before it ends. */
  function Ends(blobs: seq<IndexBlob>, k: nat): nat
    requires k <= |blobs|
  {
    if k == 0 then 0 else blobs[0].location.length + Ends(blobs[1..], k - 1)
  }

  lemma {:induction false} PartsReadable(codec: Codec, blobs: seq<IndexBlob>, data: Bytes, k: nat)
    requires CheckParts(codec, blobs, data) == Verdict([], Done) && k < |blobs|
    ensures Readable(codec, blobs[k], Ends(blobs, k), data)
    decreases |blobs|
  {
    PartsFirst(codec, blobs, data);
    var n := blobs[0].location.length;
    if k == 0 {
      PartIff(codec, blobs[0], data[..n]);
      assert data[0..n] == data[..n];
    } else {
      PartsReadable(codec, blobs[1..], data[n..], k - 1);
      ReadableLater(codec, blobs[k], Ends(blobs[1..], k - 1), data, n);
    }
  }

  lemma {:induction false} TileAt(blobs: seq<IndexBlob>, offset: nat, k: nat)
    requires TilesFrom(blobs, offset) && k < |blobs| && offset + Ends(blobs, k) < U32
    ensures blobs[k].location.offset == offset + Ends(blobs, k)
    decreases |blobs|
  {
    if k > 0 {
      NoWrap(offset, blobs[0].location.length);
      TileAt(blobs[1..], offset + blobs[0].location.length, k - 1);
    }
  }

  lemma {:induction false} PassedFile(codec: Codec, id: Bytes, blobs: seq<IndexBlob>, sorted: seq<IndexBlob>,
                                      file: Bytes)
    returns (n: nat)
    requires CheckPack(codec, id, blobs, sorted, file) == Verdict([], Done)
    ensures n <= |file| < U32 && CheckParts(codec, sorted, file[..n]) == Verdict([], Done)
    ensures codec.hash(file) == id
  {
    var headerLen := HeaderSize(blobs) % U32;
    var m := |file| - LENGTH_LEN;
    n := m - headerLen;
    assert file[..m][..n] == file[..n];
  }

  lemma {:induction false} ReadableInFile(codec: Codec, b: IndexBlob, at: nat, file: Bytes, n: nat)
    requires n <= |file| && Readable(codec, b, at, file[..n])
    ensures Readable(codec, b, at, file) && at + b.location.length <= n
  {
    assert file[..n][at..at + b.location.length] == file[at..at + b.location.length];
  }

  lemma {:induction false} NotReadable(codec: Codec, b: IndexBlob, at: nat, data: Bytes, n: nat)
    requires n <= |data| && Readable(codec, b, n + at, data)
    ensures Readable(codec, b, at, data[n..])
  {
    assert data[n..][at..at + b.location.length] == data[n + at..n + at + b.location.length];
  }

  /** The blobs pass if and only if each is read back with its id where the one before it ends. */
  lemma {:induction false} PartsIff(codec: Codec, blobs: seq<IndexBlob>, data: Bytes)
    ensures CheckParts(codec, blobs, data) == Verdict([], Done) <==>
              forall k :: 0 <= k < |blobs| ==> Readable(codec, blobs[k], Ends(blobs, k), data)
    decreases |blobs|
  {
    if CheckParts(codec, blobs, data) == Verdict([], Done) {
      forall k | 0 <= k < |blobs| ensures Readable(codec, blobs[k], Ends(blobs, k), data) {
        PartsReadable(codec, blobs, data, k);
      }
    } else if forall k :: 0 <= k < |blobs| ==> Readable(codec, blobs[k], Ends(blobs, k), data) {
      ReadablePass(codec, blobs, data);
    }
  }

  lemma {:induction false} ReadablePass(codec: Codec, blobs: seq<IndexBlob>, data: Bytes)
    requires forall k :: 0 <= k < |blobs| ==> Readable(codec, blobs[k], Ends(blobs, k), data)
    ensures CheckParts(codec, blobs, data) == Verdict([], Done)
    decreases |blobs|
  {
    if blobs != [] {
      var n := blobs[0].location.length;
      assert Readable(codec, blobs[0], Ends(blobs, 0), data) && data[0..n] == data[..n];
      PartIff(codec, blobs[0], data[..n]);
      forall k | 0 <= k < |blobs[1..]| ensures Readable(codec, blobs[1..][k], Ends(blobs[1..], k), data[n..]) {
        assert Readable(codec, blobs[k + 1], Ends(blobs, k + 1), data);
        NotReadable(codec, blobs[1..][k], Ends(blobs[1..], k), data, n);
      }
      ReadablePass(codec, blobs[1..], data[n..]);
    }
  }

  /** What comes before the blobs. */
  ghost predicate HeadPasses(codec: Codec, id: Bytes, blobs: seq<IndexBlob>, sorted: seq<IndexBlob>, file: Bytes)
  {
    var h := HeaderSize(blobs) % U32;
    && |file| == PackSize(blobs) % U32 && codec.hash(file) == id
    && h + LENGTH_LEN <= |file| && LengthAtEnd(file) == h && HeaderDecodes(codec.key, file, h, sorted)
  }

  lemma {:induction false} Split(file: Bytes, m: nat, h: nat)
    requires h <= m <= |file|
    ensures file[..m][|file[..m]| - h..] == file[m - h..m] && file[..m][..|file[..m]| - h] == file[..m - h]
  {
  }

  lemma {:induction false} BodyPasses(codec: Codec, sorted: seq<IndexBlob>, encrypted: Bytes, parts: Bytes)
    ensures CheckBody(codec, sorted, encrypted, parts) == Verdict([], Done) <==>
              var header := codec.key.decrypt(encrypted);
              header.Some? && FromBinary(header.value, 0) == Some(sorted) &&
              CheckParts(codec, sorted, parts) == Verdict([], Done)
  {
  }

  /** Once sizes, hash and length field are right, header and blobs decide. */
  lemma {:induction false} BodyDecides(codec: Codec, id: Bytes, blobs: seq<IndexBlob>, sorted: seq<IndexBlob>,
                                       file: Bytes, h: nat)
    requires h == HeaderSize(blobs) % U32 && h + LENGTH_LEN <= |file| && LengthAtEnd(file) == h
    requires |file| == PackSize(blobs) % U32 && codec.hash(file) == id
    ensures var m := |file| - LENGTH_LEN;
      CheckPack(codec, id, blobs, sorted, file) == CheckBody(codec, sorted, file[m - h..m], file[..m - h])
  {
    Split(file, |file| - LENGTH_LEN, h);
  }

  lemma {:induction false} HeadFirst(codec: Codec, id: Bytes, blobs: seq<IndexBlob>, sorted: seq<IndexBlob>,
                                     file: Bytes)
    ensures CheckPack(codec, id, blobs, sorted, file) == Verdict([], Done) <==>
      && HeadPasses(codec, id, blobs, sorted, file)
      && CheckParts(codec, sorted, file[..|file| - LENGTH_LEN - HeaderSize(blobs) % U32]) == Verdict([], Done)
  {
    var h := HeaderSize(blobs) % U32;
    if |file| == PackSize(blobs) % U32 && codec.hash(file) == id && h + LENGTH_LEN <= |file| && LengthAtEnd(file) == h {
      BodyDecides(codec, id, blobs, sorted, file, h);
      BodyPasses(codec, sorted, file[|file| - LENGTH_LEN - h..|file| - LENGTH_LEN], file[..|file| - LENGTH_LEN - h]);
    }
  }

  /** What the check of a pack is: it passes if and only if the file has the size and the hash that the index gives, the
      length field is that of its header, the header decodes to the sorted blobs of the index, and each blob is read
      back with its id, one behind the other in front of the header. */
  lemma {:induction false} CheckPackIff(codec: Codec, id: Bytes, blobs: seq<IndexBlob>, sorted: seq<IndexBlob>,
                                        file: Bytes)
    ensures CheckPack(codec, id, blobs, sorted, file) == Verdict([], Done) <==>
      && HeadPasses(codec, id, blobs, sorted, file)
      && forall k :: 0 <= k < |sorted| ==>
           Readable(codec, sorted[k], Ends(sorted, k), file[..|file| - LENGTH_LEN - HeaderSize(blobs) % U32])
  {
    HeadFirst(codec, id, blobs, sorted, file);
    if HeadPasses(codec, id, blobs, sorted, file) {
      PartsIff(codec, sorted, file[..|file| - LENGTH_LEN - HeaderSize(blobs) % U32]);
    }
  }

  /** The check is sound: if the index passes the offset loop and the pack file passes its check, the index
      range of every blob holds what is read back with the id of the blob. */
  lemma {:induction false} CheckIsSound(codec: Codec, id: Bytes, tpe: BlobType, blobs: seq<IndexBlob>,
                                        sorted: seq<IndexBlob>, file: Bytes, k: nat)
    requires OffsetErrors(sorted, tpe, 0) == [] && k < |sorted|
    requires CheckPack(codec, id, blobs, sorted, file) == Verdict([], Done)
    ensures Readable(codec, sorted[k], sorted[k].location.offset, file) && sorted[k].tpe == tpe
    ensures codec.hash(file) == id
  {
    OffsetsRightIff(sorted, tpe, 0);
    var n := PassedFile(codec, id, blobs, sorted, file);
    PartsReadable(codec, sorted, file[..n], k);
    ReadableInFile(codec, sorted[k], Ends(sorted, k), file, n);
    TileAt(sorted, 0, k);
    assert sorted[k].location.offset == Ends(sorted, k) && sorted[k] in sorted;
  }

  // ---------------------------------------------------------------- every pack passes

  /** Every blob of the pack can be read back with its id. */
  ghost predicate AllGenuine(codec: Codec, items: seq<Item>)
  {
    forall x :: x in items ==> Genuine(codec, x.data, x.uncompressed, x.id)
  }

  lemma {:induction false} PartsPass(codec: Codec, tpe: BlobType, items: seq<Item>, offset: nat)
    requires AllGenuine(codec, items)
    ensures CheckParts(codec, Layout(tpe, items, offset), Contents(items)) == Verdict([], Done)
    decreases |items|
  {
    if items != [] {
      var d, rest := items[0].data, Contents(items[1..]);
      assert items[0] in items;
      LayoutRest(tpe, items, offset);
      assert (d + rest)[|d|..] == rest && (d + rest)[..|d|] == d;
      PartIff(codec, Entry(tpe, items[0], offset), d);
      PartsPass(codec, tpe, items[1..], Add32(offset, |d|));
    }
  }

  lemma {:induction false} LayoutClimbs(tpe: BlobType, items: seq<Item>, offset: nat)
    requires (forall x :: x in items ==> x.data != []) && offset + |Contents(items)| < U32
    ensures forall i, j :: 0 <= i < j < |items| ==>
              Layout(tpe, items, offset)[i].location.offset < Layout(tpe, items, offset)[j].location.offset
    ensures forall k :: 0 <= k < |items| ==> Layout(tpe, items, offset)[k].location.offset >= offset
    decreases |items|
  {
    if items != [] {
      assert items[0] in items;
      NoWrap(offset, |items[0].data|);
      LayoutClimbs(tpe, items[1..], offset + |items[0].data|);
    }
  }

  /** Sorting what is strictly ascending changes nothing, whatever the sorting does with ties. */
  lemma {:induction false} SortKeeps(blobs: seq<IndexBlob>, sorted: seq<IndexBlob>)
    requires SortedByOffset(blobs, sorted)
    requires forall i, j :: 0 <= i < j < |blobs| ==> blobs[i].location.offset < blobs[j].location.offset
    ensures sorted == blobs
    decreases |blobs|
  {
    assert |multiset(blobs)| == |blobs| && |multiset(sorted)| == |sorted|;
    if blobs != [] {
      SameFirst(blobs, sorted);
      RestOf(blobs);
      RestOf(sorted);
      assert OffsetsAscend(sorted[1..]);
      SortKeeps(blobs[1..], sorted[1..]);
      assert blobs == [blobs[0]] + blobs[1..] && sorted == [sorted[0]] + sorted[1..];
    }
  }

  lemma {:induction false} RestOf(blobs: seq<IndexBlob>)
    requires blobs != []
    ensures multiset(blobs[1..]) == multiset(blobs) - multiset{blobs[0]}
  {
    assert blobs == [blobs[0]] + blobs[1..];
  }

  lemma {:induction false} SameFirst(blobs: seq<IndexBlob>, sorted: seq<IndexBlob>)
    requires blobs != [] && sorted != [] && SortedByOffset(blobs, sorted)
    requires forall i, j :: 0 <= i < j < |blobs| ==> blobs[i].location.offset < blobs[j].location.offset
    ensures blobs[0] == sorted[0]
  {
    assert sorted[0] in multiset(sorted) && blobs[0] in multiset(blobs);
    assert sorted[0] in multiset(blobs) && blobs[0] in multiset(sorted);
    var i :| 0 <= i < |blobs| && blobs[i] == sorted[0];
    var j :| 0 <= j < |sorted| && sorted[j] == blobs[0];
    assert j > 0 ==> sorted[0].location.offset <= sorted[j].location.offset;
    assert i > 0 ==> blobs[0].location.offset < blobs[i].location.offset;
  }

  lemma {:induction false} CutOff(a: Bytes, h: Bytes, l: Bytes)
    requires |l| == LENGTH_LEN
    ensures var data := a + h + l;
      && data[|data| - LENGTH_LEN..] == l
      && data[..|data| - LENGTH_LEN] == a + h
      && (a + h)[|a + h| - |h|..] == h && (a + h)[..|a + h| - |h|] == a
  {
  }

  lemma {:induction false} PartsOfFile(codec: Codec, blobs: seq<IndexBlob>, a: Bytes, h: Bytes, l: Bytes)
    requires HeaderFor(codec.key, blobs, h) && |a| + |h| + LENGTH_LEN == PackSize(blobs) < U32
    requires |l| == LENGTH_LEN && FromLe32(l) == |h|
    ensures var file := a + h + l;
      CheckPack(codec, codec.hash(file), blobs, blobs, file) == CheckParts(codec, blobs, a)
  {
    CutOff(a, h, l);
  }

  /** Every pack of genuine blobs passes the offset loop and the check of its file without an error, whatever
      the sort does with ties, as long as its size fits 32 bits. */
  lemma {:induction false} PackPasses(codec: Codec, tpe: BlobType, items: seq<Item>, sorted: seq<IndexBlob>)
    requires GoodCodec(codec) && AllSized(items) && (forall x :: x in items ==> x.data != [])
    requires AllGenuine(codec, items) && PackSize(Layout(tpe, items, 0)) < U32
    requires SortedByOffset(Layout(tpe, items, 0), sorted)
    ensures HeaderSize(Layout(tpe, items, 0)) < U32 && OffsetErrors(sorted, tpe, 0) == []
    ensures var pack := PackOf(codec.key, tpe, items);
      CheckPack(codec, codec.hash(pack), Layout(tpe, items, 0), sorted, pack) == Verdict([], Done)
  {
    var l := Layout(tpe, items, 0);
    LayoutTiles(tpe, items, 0);
    LayoutClimbs(tpe, items, 0);
    SortKeeps(l, sorted);
    OffsetsRightIff(l, tpe, 0);
    WrittenHeader(codec.key, tpe, items);
    var h := codec.key.encrypt(ToBinary(l));
    LeRoundTrip(|h|);
    PartsPass(codec, tpe, items, 0);
    PartsOfFile(codec, l, Contents(items), h, Le32(|h|));
  }

  /** A pack whose size does not fit 32 bits never passes: the index gives its size modulo 2^32. */
  lemma {:induction false} OversizedFails(codec: Codec, id: Bytes, tpe: BlobType, items: seq<Item>,
                                          sorted: seq<IndexBlob>)
    requires GoodCodec(codec) && AllSized(items) && HeaderSize(Layout(tpe, items, 0)) < U32
    requires PackSize(Layout(tpe, items, 0)) >= U32
    ensures CheckPack(codec, id, Layout(tpe, items, 0), sorted, PackOf(codec.key, tpe, items)) ==
              Verdict([SizeMismatch], Done)
  {
    WrittenHeader(codec.key, tpe, items);
  }

  /** A pack of genuine blobs passes exactly if its size fits 32 bits. */
  lemma {:induction false} PackPassesIff(codec: Codec, tpe: BlobType, items: seq<Item>, sorted: seq<IndexBlob>)
    requires GoodCodec(codec) && AllSized(items) && (forall x :: x in items ==> x.data != [])
    requires AllGenuine(codec, items) && HeaderSize(Layout(tpe, items, 0)) < U32
    requires SortedByOffset(Layout(tpe, items, 0), sorted)
    ensures var pack := PackOf(codec.key, tpe, items);
      CheckPack(codec, codec.hash(pack), Layout(tpe, items, 0), sorted, pack) == Verdict([], Done) <==>
        PackSize(Layout(tpe, items, 0)) < U32
  {
    if PackSize(Layout(tpe, items, 0)) < U32 { PackPasses(codec, tpe, items, sorted); }
    else { OversizedFails(codec, codec.hash(PackOf(codec.key, tpe, items)), tpe, items, sorted); }
  }
}
