/** The layout of a pack file and its binary header. Offsets and sizes are 32-bit numbers, and adding them
    wraps around. */
module PackFormat {
  import opened Repo

  type Bytes = seq<Byte>

  const U32: nat := 0x1_0000_0000

  /** Unsigned 32-bit addition, which wraps around. */
  function Add32(a: nat, b: nat): (r: nat)
    ensures r < U32
  {
    (a + b) % U32
  }

  lemma {:induction false} NoWrap(a: nat, b: nat)
    requires a + b < U32
    ensures Add32(a, b) == a + b
  {
  }

  lemma {:induction false} AddTwice(a: nat, b: nat, c: nat)
    ensures Add32(Add32(a, b), c) == Add32(a, b + c)
  {
  }

  datatype BlobType = Data | Tree

  datatype Location = Location(offset: nat, length: nat, uncompressed: Option<nat>)

  /** Ids are the 32 bytes of a hash. */
  datatype IndexBlob = IndexBlob(id: Bytes, tpe: BlobType, location: Location)

  /** Encryption; decryption answers None for what was not encrypted with the key. */
  datatype Key = Key(encrypt: Bytes -> Bytes, decrypt: Bytes -> Option<Bytes>)

  const COMP_OVERHEAD: nat := 32
  const LENGTH_LEN: nat := 4
  const ENTRY_LEN: nat := 37
  const ENTRY_LEN_COMPRESSED: nat := 41

  ghost predicate GoodKey(key: Key)
  {
    forall x :: |key.encrypt(x)| == |x| + COMP_OVERHEAD && key.decrypt(key.encrypt(x)) == Some(x)
  }

  // ---------------------------------------------------------------- numbers

  function Low(n: nat): Byte
  {
    var r: nat := n % 256;
    r
  }

  function Le32(n: nat): (r: Bytes)
    requires n < U32
    ensures |r| == 4
  {
    [Low(n), Low(n / 256), Low(n / 65536), Low(n / 16777216)]
  }

  function FromLe32(b: Bytes): (n: nat)
    requires |b| == 4
    ensures n < U32
  {
    var b0: int, b1: int, b2: int, b3: int := b[0], b[1], b[2], b[3];
    b0 + 256 * b1 + 65536 * b2 + 16777216 * b3
  }

  lemma {:induction false} LeRoundTrip(n: nat)
    requires n < U32
    ensures FromLe32(Le32(n)) == n
  {
    var a, b, c := n / 256, n / 65536, n / 16777216;
    assert n == 256 * a + n % 256;
    assert a / 256 == b && a == 256 * b + a % 256;
    assert b / 256 == c && b == 256 * c + b % 256 && c < 256;
  }

  /** The least significant byte comes first. */
  lemma {:induction false} LeIs(n: nat)
    requires n < U32
    ensures Le32(n)[0] == n % 256 && Le32(n)[1] == n / 256 % 256
    ensures Le32(n)[2] == n / 65536 % 256 && Le32(n)[3] == n / 16777216
  {
    assert n / 16777216 < 256;
  }

  // ---------------------------------------------------------------- the header

  function EntryLen(b: IndexBlob): nat
  {
    if b.location.uncompressed.Some? then ENTRY_LEN_COMPRESSED else ENTRY_LEN
  }

  /** The size of the header; `PackHeaderRef::size` adds in 32 bits and gives it modulo 2^32. */
  function HeaderSize(blobs: seq<IndexBlob>): nat
  {
    if blobs == [] then COMP_OVERHEAD else EntryLen(blobs[0]) + HeaderSize(blobs[1..])
  }

  /** The size of the pack; `PackHeaderRef::pack_size` gives it modulo 2^32. */
  function PackSize(blobs: seq<IndexBlob>): nat
  {
    if blobs == [] then COMP_OVERHEAD + LENGTH_LEN
    else blobs[0].location.length + EntryLen(blobs[0]) + PackSize(blobs[1..])
  }

  /** What fits the fields of an index entry. */
  predicate InRange(b: IndexBlob)
  {
    && |b.id| == 32 && b.location.length < U32
    && (b.location.uncompressed.Some? ==> 0 < b.location.uncompressed.value < U32)
  }

  function Tag(b: IndexBlob): Byte
  {
    (if b.tpe.Data? then 0 else 1) + (if b.location.uncompressed.Some? then 2 else 0)
  }

  function EntryBytes(b: IndexBlob): (r: Bytes)
    requires InRange(b)
    ensures |r| == EntryLen(b)
  {
    [Tag(b)] + Le32(b.location.length)
      + (if b.location.uncompressed.Some? then Le32(b.location.uncompressed.value) else [])
      + b.id
  }

  function ToBinary(blobs: seq<IndexBlob>): (r: Bytes)
    requires forall b :: b in blobs ==> InRange(b)
    ensures |r| + COMP_OVERHEAD == HeaderSize(blobs)
  {
    if blobs == [] then [] else
      assert blobs[0] in blobs;
      EntryBytes(blobs[0]) + ToBinary(blobs[1..])
  }

  /** An entry of the header, byte by byte: 0 for data, 1 for a tree, 2 and 3 for the same compressed; the length; the
      uncompressed length of a compressed blob; the id. */
  lemma {:induction false} EntryIs(b: IndexBlob)
    requires InRange(b)
    ensures var e, zipped := EntryBytes(b), b.location.uncompressed.Some?;
      && |e| == (if zipped then 41 else 37)
      && (e[0] == 0 <==> b.tpe.Data? && !zipped) && (e[0] == 1 <==> b.tpe.Tree? && !zipped)
      && (e[0] == 2 <==> b.tpe.Data? && zipped) && (e[0] == 3 <==> b.tpe.Tree? && zipped)
      && e[1..5] == Le32(b.location.length) && e[|e| - 32..] == b.id
      && (zipped ==> e[5..9] == Le32(b.location.uncompressed.value))
  {
  }

  /** One header entry, read as a blob at `offset`. */
  function ReadEntry(bytes: Bytes, offset: nat): (r: Option<IndexBlob>)
  {
    if bytes == [] || bytes[0] > 3 then None
    else
      var tpe := if bytes[0] % 2 == 0 then Data else Tree;
      if bytes[0] < 2 then
        if |bytes| < ENTRY_LEN then None
        else Some(IndexBlob(bytes[5..37], tpe, Location(offset, FromLe32(bytes[1..5]), None)))
      else
        if |bytes| < ENTRY_LEN_COMPRESSED then None
        else
          var n := FromLe32(bytes[5..9]);
          Some(IndexBlob(bytes[9..41], tpe, Location(offset, FromLe32(bytes[1..5]), if n == 0 then None else Some(n))))
  }

  /** The bytes that the entry at the front takes. */
  function FrontLen(bytes: Bytes): (n: nat)
    requires bytes != []
    ensures n > 0
  {
    if bytes[0] < 2 then ENTRY_LEN else ENTRY_LEN_COMPRESSED
  }

  /** The blobs of a header; None if it is malformed. Offsets are the running sum of the lengths modulo 2^32. */
  function FromBinary(bytes: Bytes, offset: nat): (r: Option<seq<IndexBlob>>)
    decreases |bytes|
  {
    if bytes == [] then Some([])
    else
      var b := ReadEntry(bytes, offset);
      if b.None? || |bytes| < FrontLen(bytes) then None
      else
        var rest := FromBinary(bytes[FrontLen(bytes)..], Add32(offset, b.value.location.length));
        if rest.None? then None else Some([b.value] + rest.value)
  }

  /** The loop of `from_binary`. */
  method ParseHeader(bytes: Bytes) returns (r: Option<seq<IndexBlob>>)
    ensures r == FromBinary(bytes, 0)
  {
    var at: nat, offset: nat := 0, 0;
    var blobs: seq<IndexBlob> := [];
    ParseStarts(bytes);
    while at < |bytes|
      invariant at <= |bytes| && ParsedTo(bytes, at, offset, blobs)
      decreases |bytes| - at
    {
      var front := bytes[at..];
      var b := ReadEntry(front, offset);
      if b.None? || |front| < FrontLen(front) { return None; }
      ParseStep(bytes, at, offset, blobs);
      at := at + FrontLen(front);
      offset := Add32(offset, b.value.location.length);
      blobs := blobs + [b.value];
    }
    assert bytes[at..] == [] && blobs + [] == blobs;
    r := Some(blobs);
  }

  ghost predicate ParsedTo(bytes: Bytes, at: nat, offset: nat, blobs: seq<IndexBlob>)
    requires at <= |bytes|
  {
    FromBinary(bytes, 0) == Follow(blobs, FromBinary(bytes[at..], offset))
  }

  lemma {:induction false} ParseStarts(bytes: Bytes)
    ensures ParsedTo(bytes, 0, 0, [])
  {
    assert bytes[0..] == bytes;
    var r := FromBinary(bytes, 0);
    if r.Some? { assert [] + r.value == r.value; }
  }

  lemma {:induction false} ParseStep(bytes: Bytes, at: nat, offset: nat, blobs: seq<IndexBlob>)
    requires at < |bytes| && ParsedTo(bytes, at, offset, blobs)
    requires ReadEntry(bytes[at..], offset).Some? && |bytes[at..]| >= FrontLen(bytes[at..])
    ensures var b, n := ReadEntry(bytes[at..], offset).value, FrontLen(bytes[at..]);
      at + n <= |bytes| && ParsedTo(bytes, at + n, Add32(offset, b.location.length), blobs + [b])
  {
    var front := bytes[at..];
    var b, n := ReadEntry(front, offset).value, FrontLen(front);
    assert front[n..] == bytes[at + n..];
    FollowMore(blobs, b, FromBinary(front[n..], Add32(offset, b.location.length)));
  }

  ghost function Follow(blobs: seq<IndexBlob>, rest: Option<seq<IndexBlob>>): Option<seq<IndexBlob>>
  {
    if rest.None? then None else Some(blobs + rest.value)
  }

  lemma {:induction false} FollowMore(blobs: seq<IndexBlob>, b: IndexBlob, rest: Option<seq<IndexBlob>>)
    ensures Follow(blobs, Follow([b], rest)) == Follow(blobs + [b], rest)
  {
    if rest.Some? { assert blobs + ([b] + rest.value) == blobs + [b] + rest.value; }
  }

  lemma {:induction false} EntryParts(b: IndexBlob, rest: Bytes)
    requires InRange(b)
    ensures var all := EntryBytes(b) + rest;
      && all[0] == Tag(b) && all[1..5] == Le32(b.location.length) && all[EntryLen(b)..] == rest
      && (b.location.uncompressed.None? ==> all[5..37] == b.id)
      && (b.location.uncompressed.Some? ==> all[5..9] == Le32(b.location.uncompressed.value) && all[9..41] == b.id)
  {
  }

  lemma {:induction false} ReadBack(b: IndexBlob, rest: Bytes)
    requires InRange(b)
    ensures ReadEntry(EntryBytes(b) + rest, b.location.offset) == Some(b)
    ensures FrontLen(EntryBytes(b) + rest) == EntryLen(b) && (EntryBytes(b) + rest)[EntryLen(b)..] == rest
  {
    EntryParts(b, rest);
    LeRoundTrip(b.location.length);
    if b.location.uncompressed.Some? { LeRoundTrip(b.location.uncompressed.value); }
  }

  /** The blobs lie one behind the other, the first at `offset`; positions are counted modulo 2^32. */
  predicate TilesFrom(blobs: seq<IndexBlob>, offset: nat)
  {
    || blobs == []
    || (blobs[0].location.offset == offset && TilesFrom(blobs[1..], Add32(offset, blobs[0].location.length)))
  }

  /** Reading a header gives back the blobs it was written for, offsets included, if and only if the
      blobs tile the pack: the offsets themselves are not stored. */
  lemma {:induction false} HeaderRoundTrip(blobs: seq<IndexBlob>, offset: nat)
    requires forall b :: b in blobs ==> InRange(b)
    ensures FromBinary(ToBinary(blobs), offset).Some?
    ensures FromBinary(ToBinary(blobs), offset).value == blobs <==> TilesFrom(blobs, offset)
    decreases |blobs|
  {
    if blobs != [] {
      var b := blobs[0];
      assert b in blobs;
      HeaderRoundTrip(blobs[1..], Add32(offset, b.location.length));
      FirstEntry(b, ToBinary(blobs[1..]), offset);
      var parsed := FromBinary(ToBinary(blobs[1..]), Add32(offset, b.location.length)).value;
      SameSplit(At(b, offset), parsed, blobs);
    }
  }

  function At(b: IndexBlob, offset: nat): IndexBlob { b.(location := b.location.(offset := offset)) }

  lemma {:induction false} SameSplit(b: IndexBlob, rest: seq<IndexBlob>, blobs: seq<IndexBlob>)
    requires blobs != []
    ensures [b] + rest == blobs <==> b == blobs[0] && rest == blobs[1..]
  {
    assert ([b] + rest)[0] == b && ([b] + rest)[1..] == rest;
    assert blobs == [blobs[0]] + blobs[1..];
  }

  lemma {:induction false} FirstEntry(b: IndexBlob, rest: Bytes, offset: nat)
    requires InRange(b)
    ensures FromBinary(EntryBytes(b) + rest, offset) ==
              Follow([At(b, offset)], FromBinary(rest, Add32(offset, b.location.length)))
  {
    assert EntryBytes(b) == EntryBytes(At(b, offset));
    ReadBack(At(b, offset), rest);
  }

  // ---------------------------------------------------------------- contents

  /** What is put into a pack: id, packed bytes, length before compression. */
  datatype Item = Item(id: Bytes, data: Bytes, uncompressed: Option<nat>)

  /** What the types of the fields allow: 32 bytes, and a nonzero 32-bit number. */
  predicate Typed(x: Item)
  {
    |x.id| == 32 && (x.uncompressed.Some? ==> 0 < x.uncompressed.value < U32)
  }

  /** A blob that fits an index entry. */
  predicate Sized(x: Item) { Typed(x) && |x.data| < U32 }

  ghost predicate AllSized(items: seq<Item>)
  {
    forall x :: x in items ==> Sized(x)
  }

  function Contents(items: seq<Item>): Bytes
  {
    if items == [] then [] else items[0].data + Contents(items[1..])
  }

  function Entry(tpe: BlobType, x: Item, offset: nat): IndexBlob
  {
    IndexBlob(x.id, tpe, Location(offset, |x.data|, x.uncompressed))
  }

  function Layout(tpe: BlobType, items: seq<Item>, offset: nat): (r: seq<IndexBlob>)
    ensures |r| == |items|
  {
    if items == [] then []
    else [Entry(tpe, items[0], offset)] + Layout(tpe, items[1..], Add32(offset, |items[0].data|))
  }

  function PackOf(key: Key, tpe: BlobType, items: seq<Item>): Bytes
    requires AllSized(items) && HeaderSize(Layout(tpe, items, 0)) < U32
  {
    LayoutInRange(tpe, items, 0);
    Contents(items) + key.encrypt(ToBinary(Layout(tpe, items, 0))) + Le32(HeaderSize(Layout(tpe, items, 0)))
  }

  ghost predicate DistinctIds(items: seq<Item>)
  {
    forall i, j :: 0 <= i < j < |items| ==> items[i].id != items[j].id
  }

  lemma {:induction false} LayoutRest(tpe: BlobType, items: seq<Item>, offset: nat)
    requires items != []
    ensures var l := Layout(tpe, items, offset);
      l != [] && l[0] == Entry(tpe, items[0], offset) &&
          l[1..] == Layout(tpe, items[1..], Add32(offset, |items[0].data|))
  {
  }

  lemma {:induction false} LayoutInRange(tpe: BlobType, items: seq<Item>, offset: nat)
    requires AllSized(items)
    ensures forall b :: b in Layout(tpe, items, offset) ==> InRange(b)
    decreases |items|
  {
    if items != [] {
      assert items[0] in items;
      LayoutInRange(tpe, items[1..], Add32(offset, |items[0].data|));
    }
  }

  /** The layout tiles, has the ids in order and one type, and its length is that of the contents. */
  lemma {:induction false} LayoutTiles(tpe: BlobType, items: seq<Item>, offset: nat)
    ensures TilesFrom(Layout(tpe, items, offset), offset)
    ensures forall k :: 0 <= k < |items| ==>
              Layout(tpe, items, offset)[k].id == items[k].id && Layout(tpe, items, offset)[k].tpe == tpe
    ensures PackSize(Layout(tpe, items, offset)) ==
              |Contents(items)| + HeaderSize(Layout(tpe, items, offset)) + LENGTH_LEN
    decreases |items|
  {
    if items != [] {
      LayoutTiles(tpe, items[1..], Add32(offset, |items[0].data|));
      LayoutRest(tpe, items, offset);
    }
  }

  /** The bytes from `offset` on are the data. */
  ghost predicate HoldsAt(contents: Bytes, offset: nat, data: Bytes)
  {
    offset + |data| <= |contents| && contents[offset..offset + |data|] == data
  }

  lemma {:induction false} HoldsFirst(d: Bytes, rest: Bytes)
    ensures HoldsAt(d + rest, 0, d)
  {
  }

  lemma {:induction false} HoldsLater(d: Bytes, rest: Bytes, offset: nat, data: Bytes)
    requires HoldsAt(rest, offset, data)
    ensures HoldsAt(d + rest, |d| + offset, data)
  {
    var all, from := d + rest, |d| + offset;
    forall k | 0 <= k < |data| ensures all[from + k] == data[k] { assert rest[offset..offset + |data|][k] == data[k]; }
    assert all[from..from + |data|] == data;
  }

  /** Where the blob at position k starts. */
  function Start(items: seq<Item>, k: nat): (n: nat)
    requires k <= |items|
  {
    if k == 0 then 0 else |items[0].data| + Start(items[1..], k - 1)
  }

  lemma {:induction false} StartHolds(items: seq<Item>, k: nat)
    requires k < |items|
    ensures HoldsAt(Contents(items), Start(items, k), items[k].data)
    decreases |items|
  {
    var d, rest := items[0].data, Contents(items[1..]);
    if k == 0 {
      HoldsFirst(d, rest);
    } else {
      StartHolds(items[1..], k - 1);
      HoldsLater(d, rest, Start(items[1..], k - 1), items[k].data);
    }
  }

  lemma {:induction false} LayoutAt(tpe: BlobType, items: seq<Item>, offset: nat, k: nat)
    requires k < |items| && offset < U32
    ensures Layout(tpe, items, offset)[k] == Entry(tpe, items[k], Add32(offset, Start(items, k)))
    decreases |items|
  {
    LayoutRest(tpe, items, offset);
    if k > 0 {
      var next := Add32(offset, |items[0].data|);
      LayoutAt(tpe, items[1..], next, k - 1);
      AddTwice(offset, |items[0].data|, Start(items[1..], k - 1));
      assert Layout(tpe, items, offset)[k] == Layout(tpe, items[1..], next)[k - 1];
    }
  }

  /** The range that the index gives for a blob has the length of the added bytes, and it is where they are in
      the contents if and only if they start below 2^32. */
  lemma {:induction false} RangeHoldsBlob(tpe: BlobType, items: seq<Item>, k: nat)
    requires k < |items|
    ensures var at := Layout(tpe, items, 0)[k].location;
      && at.length == |items[k].data| && HoldsAt(Contents(items), Start(items, k), items[k].data)
      && (at.offset == Start(items, k) <==> Start(items, k) < U32)
  {
    LayoutAt(tpe, items, 0, k);
    StartHolds(items, k);
  }

  lemma {:induction false} LayoutMore(tpe: BlobType, items: seq<Item>, offset: nat, x: Item)
    requires offset < U32
    ensures Layout(tpe, items + [x], offset) ==
              Layout(tpe, items, offset) + [Entry(tpe, x, Add32(offset, |Contents(items)|))]
    ensures Contents(items + [x]) == Contents(items) + x.data
    decreases |items|
  {
    if items == [] {
      assert [x][1..] == [] && x.data + [] == x.data;
    } else {
      var next := Add32(offset, |items[0].data|);
      assert (items + [x])[1..] == items[1..] + [x];
      LayoutMore(tpe, items[1..], next, x);
      AddTwice(offset, |items[0].data|, |Contents(items[1..])|);
      Assoc(items[0].data, Contents(items[1..]), x.data);
      Assoc([Entry(tpe, items[0], offset)], Layout(tpe, items[1..], next),
            [Entry(tpe, x, Add32(offset, |Contents(items)|))]);
    }
  }

  lemma {:induction false} HeaderBound(blobs: seq<IndexBlob>)
    ensures COMP_OVERHEAD <= HeaderSize(blobs) <= COMP_OVERHEAD + ENTRY_LEN_COMPRESSED * |blobs|
    decreases |blobs|
  {
    if blobs != [] { HeaderBound(blobs[1..]); }
  }

  /** `h` is a header for the blobs, encrypted. */
  ghost predicate HeaderFor(key: Key, blobs: seq<IndexBlob>, h: Bytes)
  {
    && |h| == HeaderSize(blobs) < U32
    && key.decrypt(h).Some? && FromBinary(key.decrypt(h).value, 0) == Some(blobs)
  }

  lemma {:induction false} WrittenHeader(key: Key, tpe: BlobType, items: seq<Item>)
    requires GoodKey(key) && AllSized(items) && HeaderSize(Layout(tpe, items, 0)) < U32
    ensures var l := Layout(tpe, items, 0);
      && (forall b :: b in l ==> InRange(b))
      && HeaderFor(key, l, key.encrypt(ToBinary(l)))
      && PackSize(l) == |Contents(items)| + HeaderSize(l) + LENGTH_LEN
  {
    var l := Layout(tpe, items, 0);
    LayoutTiles(tpe, items, 0);
    LayoutInRange(tpe, items, 0);
    HeaderRoundTrip(l, 0);
  }

  // ---------------------------------------------------------------- reading the header with a guess

  /** The blobs, an error, or a subtraction that underflows. */
  datatype Header = Blobs(blobs: seq<IndexBlob>) | TooLong | Malformed | WrongLength | WrongSize | Underflow

  function ReadHeader(key: Key, data: Bytes, size: nat, packSize: nat): Header
  {
    var header := key.decrypt(data);
    if header.None? || FromBinary(header.value, 0).None? then Malformed
    else
      var blobs := FromBinary(header.value, 0).value;
      if HeaderSize(blobs) % U32 != size then WrongLength
      else if PackSize(blobs) % U32 != packSize then WrongSize
      else Blobs(blobs)
  }

  /** The last bytes of the file, as many as asked for. */
  function Tail(file: Bytes, n: nat): (r: Bytes)
    requires n <= |file|
    ensures |r| == n
  {
    file[|file| - n..]
  }

  /** The header bytes: from those already read, or read again if the guess was too small. */
  function HeaderBytes(file: Bytes, guess: nat, size: nat): Bytes
    requires guess + LENGTH_LEN <= |file| && size + LENGTH_LEN <= |file|
  {
    if size <= guess then Tail(file, guess + LENGTH_LEN)[..guess][guess - size..]
    else Tail(file, size + LENGTH_LEN)[..size]
  }

  /** `from_file`: reads `guess` bytes and the length field from the end, and once more if the guess was
      too small. */
  function FromFile(key: Key, file: Bytes, guess: nat): Header
  {
    if guess + LENGTH_LEN > |file| then Underflow
    else
      var size := FromLe32(Tail(file, guess + LENGTH_LEN)[guess..]);
      if Add32(size, LENGTH_LEN) > |file| then TooLong
      else if size + LENGTH_LEN > |file| then Underflow
      else ReadHeader(key, HeaderBytes(file, guess, size), size, |file|)
  }

  /** The length field at the end of the file. */
  function LengthAtEnd(file: Bytes): nat
    requires LENGTH_LEN <= |file|
  {
    FromLe32(file[|file| - LENGTH_LEN..])
  }

  /** The header in front of the length field decodes to the blobs. */
  ghost predicate HeaderDecodes(key: Key, file: Bytes, n: nat, blobs: seq<IndexBlob>)
    requires n + LENGTH_LEN <= |file|
  {
    var header := key.decrypt(file[|file| - LENGTH_LEN - n..|file| - LENGTH_LEN]);
    header.Some? && FromBinary(header.value, 0) == Some(blobs)
  }

  lemma {:induction false} HeaderBytesAre(file: Bytes, guess: nat, size: nat)
    requires guess + LENGTH_LEN <= |file| && size + LENGTH_LEN <= |file|
    ensures HeaderBytes(file, guess, size) == file[|file| - LENGTH_LEN - size..|file| - LENGTH_LEN]
    ensures Tail(file, guess + LENGTH_LEN)[guess..] == file[|file| - LENGTH_LEN..]
  {
    if size <= guess {
      var t := Tail(file, guess + LENGTH_LEN)[..guess];
      assert t == file[|file| - LENGTH_LEN - guess..|file| - LENGTH_LEN];
      assert t[guess - size..] == file[|file| - LENGTH_LEN - size..|file| - LENGTH_LEN];
    }
  }

  /** For any file and any guess: blobs are answered exactly if the guess fits the file, the length field is that of a
      header that fits it too, the header decodes to these blobs, and their header and pack sizes are those of the
      file. */
  lemma {:induction false} FromFileIff(key: Key, file: Bytes, guess: nat, blobs: seq<IndexBlob>)
    ensures FromFile(key, file, guess) == Blobs(blobs) <==>
      && guess + LENGTH_LEN <= |file| && LengthAtEnd(file) + LENGTH_LEN <= |file|
      && Add32(LengthAtEnd(file), LENGTH_LEN) <= |file|
      && HeaderDecodes(key, file, LengthAtEnd(file), blobs)
      && HeaderSize(blobs) % U32 == LengthAtEnd(file) && PackSize(blobs) % U32 == |file|
  {
    if guess + LENGTH_LEN <= |file| {
      HeaderBytesAre(file, guess, 0);
      if LengthAtEnd(file) + LENGTH_LEN <= |file| { HeaderBytesAre(file, guess, LengthAtEnd(file)); }
    }
  }

  lemma {:induction false} LengthField(a: Bytes, l: Bytes, guess: nat)
    requires |l| == LENGTH_LEN && guess + LENGTH_LEN <= |a + l|
    ensures Tail(a + l, guess + LENGTH_LEN)[guess..] == l
    ensures Tail(a + l, guess + LENGTH_LEN)[..guess] == Tail(a, guess)
  {
  }

  lemma {:induction false} HeaderFound(a: Bytes, h: Bytes, l: Bytes, guess: nat)
    requires |l| == LENGTH_LEN && guess + LENGTH_LEN <= |a + h + l|
    ensures HeaderBytes(a + h + l, guess, |h|) == h
  {
    if |h| <= guess {
      LengthField(a + h, l, guess);
      assert Tail(a + h, guess)[guess - |h|..] == h;
    } else {
      LengthField(a + h, l, |h|);
    }
  }

  lemma {:induction false} HeaderRead(key: Key, blobs: seq<IndexBlob>, h: Bytes)
    requires HeaderFor(key, blobs, h) && PackSize(blobs) < U32
    ensures ReadHeader(key, h, |h|, PackSize(blobs)) == Blobs(blobs)
  {
  }

  lemma {:induction false} FileParts(key: Key, blobs: seq<IndexBlob>, a: Bytes, h: Bytes, l: Bytes, guess: nat)
    requires HeaderFor(key, blobs, h) && |a| + |h| + LENGTH_LEN == PackSize(blobs) < U32
    requires |l| == LENGTH_LEN && FromLe32(l) == |h| && guess + LENGTH_LEN <= |a + h + l|
    ensures FromFile(key, a + h + l, guess) == Blobs(blobs)
  {
    LengthField(a + h, l, guess);
    HeaderFound(a, h, l, guess);
    NoWrap(|h|, LENGTH_LEN);
    HeaderRead(key, blobs, h);
    assert |a + h + l| == PackSize(blobs);
  }

  /** The header read from a pack is its index for every guess that leaves room for the length field in the
      file; any other guess underflows. */
  lemma {:induction false} HeaderFromFile(key: Key, tpe: BlobType, items: seq<Item>, guess: nat)
    requires GoodKey(key) && AllSized(items) && PackSize(Layout(tpe, items, 0)) < U32
    ensures HeaderSize(Layout(tpe, items, 0)) < U32
    ensures var pack := PackOf(key, tpe, items);
      FromFile(key, pack, guess) == if guess + LENGTH_LEN <= |pack| then Blobs(Layout(tpe, items, 0)) else Underflow
  {
    var l := Layout(tpe, items, 0);
    LayoutTiles(tpe, items, 0);
    WrittenHeader(key, tpe, items);
    var h := key.encrypt(ToBinary(l));
    LeRoundTrip(|h|);
    if guess + LENGTH_LEN <= |PackOf(key, tpe, items)| { FileParts(key, l, Contents(items), h, Le32(|h|), guess); }
  }
}
