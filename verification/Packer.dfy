/** `BasicPacker` and `RawPacker`: collecting packed blobs and cutting them into pack files. */
module Packer {
  import opened Repo
  import opened PackFormat
  import opened PackCheck

  const MB: nat := 1024 * 1024
  const MAX_SIZE: nat := 4076 * MB
  const MAX_COUNT: nat := 10_000
  const U64: nat := 0x1_0000_0000_0000_0000

  // ---------------------------------------------------------------- pack sizes

  function Isqrt(n: nat): (r: nat)
    ensures r * r <= n < (r + 1) * (r + 1)
  {
    if n == 0 then 0
    else
      var r := Isqrt(n - 1);
      if (r + 1) * (r + 1) <= n then r + 1 else r
  }

  datatype PackSizer = PackSizer(defaultSize: nat, growFactor: nat, sizeLimit: nat, currentSize: nat)

  function PackLimit(p: PackSizer): (n: nat)
    ensures n <= MAX_SIZE && n <= p.sizeLimit
  {
    var size := if p.growFactor == 0 then p.defaultSize
                else Add32(Isqrt(p.currentSize) % U32 * p.growFactor % U32, p.defaultSize);
    var limited := if size <= p.sizeLimit then size else p.sizeLimit;
    if limited <= MAX_SIZE then limited else MAX_SIZE
  }

  /** The cast of the root to 32 bits loses nothing. */
  lemma {:induction false} RootFits(p: PackSizer)
    requires p.currentSize < U64
    ensures Isqrt(p.currentSize) % U32 == Isqrt(p.currentSize)
  {
    var r := Isqrt(p.currentSize);
    if r >= U32 {
      assert r * r >= U32 * U32 by { SquareGrows(U32, r); }
    }
  }

  lemma {:induction false} SquareGrows(a: nat, b: nat)
    requires a <= b
    ensures a * a <= b * b
  {
  }

  function Min(a: nat, b: nat): nat { if a <= b then a else b }

  /** The size that is meant, without overflow. */
  function Meant(p: PackSizer): nat { Isqrt(p.currentSize) * p.growFactor + p.defaultSize }

  /** The 32-bit sum, for a product that is cut to 32 bits first. */
  lemma {:induction false} SumWraps(product: nat, d: nat)
    ensures Add32(product % U32, d) == (product + d) % U32
  {
    AddTwice(0, product, d);
  }

  lemma {:induction false} SizeWraps(p: PackSizer)
    requires p.currentSize < U64 && p.defaultSize < U32
    ensures PackLimit(p) == Min(Min(Meant(p) % U32, p.sizeLimit), MAX_SIZE)
  {
    var root := Isqrt(p.currentSize);
    RootFits(p);
    SumWraps(root * p.growFactor, p.defaultSize);
    if p.growFactor == 0 { assert root * p.growFactor == 0; }
  }

  /** Cutting to 32 bits first makes no difference if and only if nothing is cut off or the limit is reached anyway. */
  lemma {:induction false} LimitAnyway(meant: nat, limit: nat)
    requires limit <= MAX_SIZE
    ensures Min(meant % U32, limit) == Min(meant, limit) <==> meant < U32 || limit <= meant % U32
  {
  }

  lemma {:induction false} MinMin(a: nat, b: nat, c: nat)
    ensures Min(Min(a, b), c) == Min(a, Min(b, c))
  {
  }

  /** The size is the meant one, cut off at the limits, if and only if the 32-bit sum does not overflow or what is left
      of it still reaches the limits. */
  lemma {:induction false} LimitIsMeant(p: PackSizer)
    requires p.currentSize < U64 && p.defaultSize < U32
    ensures PackLimit(p) == Min(Meant(p), Min(p.sizeLimit, MAX_SIZE)) <==>
              Meant(p) < U32 || Min(p.sizeLimit, MAX_SIZE) <= Meant(p) % U32
  {
    SizeWraps(p);
    MinMin(Meant(p) % U32, p.sizeLimit, MAX_SIZE);
    LimitAnyway(Meant(p), Min(p.sizeLimit, MAX_SIZE));
  }

  lemma {:induction false} RootGrows(m: nat, n: nat)
    requires m <= n
    ensures Isqrt(m) <= Isqrt(n)
  {
    if Isqrt(m) > Isqrt(n) { SquareGrows(Isqrt(n) + 1, Isqrt(m)); }
  }

  lemma {:induction false} TimesGrows(a: nat, b: nat, g: nat)
    requires a <= b
    ensures a * g <= b * g
  {
  }

  /** Without overflow a larger repository never has smaller packs, and none are smaller than the default size or the
      limits demand. */
  lemma {:induction false} LimitGrows(p: PackSizer, q: PackSizer)
    requires q == p.(currentSize := q.currentSize) && p.currentSize <= q.currentSize < U64 && Meant(q) < U32
    ensures Min(Min(p.defaultSize, p.sizeLimit), MAX_SIZE) <= PackLimit(p) <= PackLimit(q)
  {
    RootGrows(p.currentSize, q.currentSize);
    TimesGrows(Isqrt(p.currentSize), Isqrt(q.currentSize), p.growFactor);
    TimesGrows(0, Isqrt(p.currentSize), p.growFactor);
    LimitIsMeant(p);
    LimitIsMeant(q);
  }

  // ---------------------------------------------------------------- the packer as a state

  /** The items of the pack under construction, the items of the packs sent off, and the sizer. */
  datatype Packing = Packing(items: seq<Item>, packs: seq<seq<Item>>, sizer: PackSizer)

  predicate HasId(items: seq<Item>, id: Bytes)
  {
    exists k :: 0 <= k < |items| && items[k].id == id
  }

  function Added(items: seq<Item>, x: Item): seq<Item>
  {
    if HasId(items, x.id) then items else items + [x]
  }

  predicate Full(items: seq<Item>, sizer: PackSizer, expired: bool)
  {
    |items| >= MAX_COUNT || |Contents(items)| % U32 >= PackLimit(sizer) || expired
  }

  function Saved(tpe: BlobType, s: Packing): Packing
  {
    Packing([], s.packs + [s.items],
            s.sizer.(currentSize := (s.sizer.currentSize + PackSize(Layout(tpe, s.items, 0)) % U32) % U64))
  }

  /** One `add_raw`; `expired` says whether the pack under construction is older than the maximum age. */
  function AddItem(tpe: BlobType, s: Packing, x: Item, expired: bool): Packing
  {
    var t := s.(items := Added(s.items, x));
    if Full(t.items, t.sizer, expired) then Saved(tpe, t) else t
  }

  function Finished(tpe: BlobType, s: Packing): Packing { if s.items == [] then s else Saved(tpe, s) }

  datatype Call = Call(item: Item, expired: bool)

  function Run(tpe: BlobType, s: Packing, calls: seq<Call>): Packing
    decreases |calls|
  {
    if calls == [] then s
    else Run(tpe, AddItem(tpe, s, calls[0].item, calls[0].expired), calls[1..])
  }

  /** Everything packed, in order. */
  function Flat(packs: seq<seq<Item>>): seq<Item>
  {
    if packs == [] then [] else Flat(packs[..|packs| - 1]) + packs[|packs| - 1]
  }

  /** A blob with an entry in the index that is not empty: encryption adds 32 bytes. */
  predicate Storable(x: Item) { Sized(x) && x.data != [] }

  /** A sound pack: some blobs, no id twice, and a total size that fits 32 bits. */
  ghost predicate GoodPack(tpe: BlobType, items: seq<Item>)
  {
    && items != [] && DistinctIds(items) && (forall x :: x in items ==> Storable(x))
    && PackSize(Layout(tpe, items, 0)) < U32
  }

  /** The pack under construction has room left. */
  ghost predicate HasRoom(items: seq<Item>)
  {
    && DistinctIds(items) && (forall x :: x in items ==> Storable(x))
    && |items| < MAX_COUNT && |Contents(items)| < MAX_SIZE
  }

  ghost predicate Inv(tpe: BlobType, s: Packing)
  {
    HasRoom(s.items) && forall p :: p in s.packs ==> GoodPack(tpe, p)
  }

  /** The largest packed blob that is sure to fit behind whatever is already in the pack. */
  const MAX_BLOB: nat := 20_561_484

  predicate Fits(x: Item) { Storable(x) && |x.data| <= MAX_BLOB }

  lemma {:induction false} AddedDistinct(items: seq<Item>, x: Item)
    requires DistinctIds(items) && !HasId(items, x.id)
    ensures DistinctIds(items + [x])
  {
    var all := items + [x];
    forall i, j | 0 <= i < j < |all| ensures all[i].id != all[j].id {
      assert all[i] == items[i];
    }
  }

  /** With one more blob the pack still fits, header and all. In particular a blob of 16 MiB fits. */
  lemma {:induction false} RoomForOne(tpe: BlobType, items: seq<Item>, x: Item)
    requires HasRoom(items) && Fits(x)
    ensures GoodPack(tpe, Added(items, x))
    ensures |Contents(Added(items, x))| <= |Contents(items)| + |x.data| && |Added(items, x)| <= |items| + 1
    ensures 16 * MB <= MAX_BLOB
  {
    var t := Added(items, x);
    if !HasId(items, x.id) {
      AddedDistinct(items, x);
      LayoutMore(tpe, items, 0, x);
    }
    LayoutTiles(tpe, t, 0);
    HeaderBound(Layout(tpe, t, 0));
  }

  lemma {:induction false} AddKeeps(tpe: BlobType, s: Packing, x: Item, expired: bool)
    requires Inv(tpe, s) && Fits(x)
    ensures Inv(tpe, AddItem(tpe, s, x, expired))
  {
    RoomForOne(tpe, s.items, x);
    LayoutTiles(tpe, Added(s.items, x), 0);
  }

  lemma {:induction false} RunKeeps(tpe: BlobType, s: Packing, calls: seq<Call>)
    requires Inv(tpe, s) && forall c :: c in calls ==> Fits(c.item)
    ensures Inv(tpe, Run(tpe, s, calls))
    decreases |calls|
  {
    if calls != [] {
      assert calls[0] in calls;
      AddKeeps(tpe, s, calls[0].item, calls[0].expired);
      RunKeeps(tpe, AddItem(tpe, s, calls[0].item, calls[0].expired), calls[1..]);
    }
  }

  lemma {:induction false} FinishKeeps(tpe: BlobType, s: Packing)
    requires Inv(tpe, s)
    ensures Inv(tpe, Finished(tpe, s)) && Finished(tpe, s).items == []
  {
    if s.items != [] {
      LayoutTiles(tpe, s.items, 0);
      HeaderBound(Layout(tpe, s.items, 0));
    }
  }

  // ---------------------------------------------------------------- nothing is lost, nothing is added

  /** All items, packed or waiting. */
  function All(s: Packing): seq<Item> { Flat(s.packs) + s.items }

  lemma {:induction false} SavedKeepsAll(tpe: BlobType, s: Packing)
    ensures All(Saved(tpe, s)) == All(s)
  {
    assert (s.packs + [s.items])[..|s.packs|] == s.packs;
  }

  lemma {:induction false} AddItemAll(tpe: BlobType, s: Packing, x: Item, expired: bool)
    ensures All(AddItem(tpe, s, x, expired)) == if HasId(s.items, x.id) then All(s) else All(s) + [x]
  {
    var t := s.(items := Added(s.items, x));
    SavedKeepsAll(tpe, t);
    assert Flat(s.packs) + (s.items + [x]) == Flat(s.packs) + s.items + [x];
  }

  /** The blobs in the packs are, in order, the added ones, but for those whose id was already there. */
  ghost predicate Conserves(before: seq<Item>, added: seq<Call>, after: seq<Item>)
    decreases |added|
  {
    if added == [] then after == before
    else
      || Conserves(before + [added[0].item], added[1..], after)
      || (HasId(before, added[0].item.id) && Conserves(before, added[1..], after))
  }

  lemma {:induction false} RunConserves(tpe: BlobType, s: Packing, calls: seq<Call>)
    ensures Conserves(All(s), calls, All(Run(tpe, s, calls)))
    decreases |calls|
  {
    if calls != [] {
      var x := calls[0].item;
      AddItemAll(tpe, s, x, calls[0].expired);
      RunConserves(tpe, AddItem(tpe, s, x, calls[0].expired), calls[1..]);
      if HasId(s.items, x.id) {
        var k :| 0 <= k < |s.items| && s.items[k].id == x.id;
        assert All(s)[|Flat(s.packs)| + k].id == x.id;
      }
    }
  }

  lemma {:induction false} ConservesIds(before: seq<Item>, added: seq<Call>, after: seq<Item>)
    requires Conserves(before, added, after)
    ensures before <= after
    ensures forall c :: c in added ==> HasId(after, c.item.id)
    ensures forall x :: x in after ==> x in before || exists c :: c in added && c.item == x
    decreases |added|
  {
    if added != [] {
      var c := added[0];
      var more := before + [c.item];
      if Conserves(more, added[1..], after) {
        ConservesIds(more, added[1..], after);
        assert more[|before|] == c.item && after[|before|] == c.item;
        forall x | x in after && x !in before ensures exists d :: d in added && d.item == x {
          if x in more { assert c in added && x == c.item; }
          else {
            var d :| d in added[1..] && d.item == x;
            assert d in added;
          }
        }
      } else {
        ConservesIds(before, added[1..], after);
        var k :| 0 <= k < |before| && before[k].id == c.item.id;
        assert after[k].id == c.item.id;
        forall x | x in after && x !in before ensures exists d :: d in added && d.item == x {
          var d :| d in added[1..] && d.item == x;
          assert d in added;
        }
      }
      forall d | d in added ensures HasId(after, d.item.id) {
        if d != c { assert d in added[1..]; }
      }
    }
  }

  /** The sizes of the packs, as the index gives them. */
  function TotalSize(tpe: BlobType, packs: seq<seq<Item>>): nat
  {
    if packs == [] then 0
    else TotalSize(tpe, packs[..|packs| - 1]) + PackSize(Layout(tpe, packs[|packs| - 1], 0)) % U32
  }

  lemma {:induction false} SizeOfOneMore(tpe: BlobType, packs: seq<seq<Item>>, items: seq<Item>)
    ensures TotalSize(tpe, packs + [items]) == TotalSize(tpe, packs) + PackSize(Layout(tpe, items, 0)) % U32
  {
    assert (packs + [items])[..|packs|] == packs;
  }

  lemma {:induction false} PacksAddUp(tpe: BlobType, s: Packing, calls: seq<Call>)
    ensures TotalSize(tpe, s.packs) <= TotalSize(tpe, Run(tpe, s, calls).packs)
    decreases |calls|
  {
    if calls != [] {
      SizeOfOneMore(tpe, s.packs, Added(s.items, calls[0].item));
      PacksAddUp(tpe, AddItem(tpe, s, calls[0].item, calls[0].expired), calls[1..]);
    }
  }

  lemma {:induction false} SavedCounts(tpe: BlobType, s: Packing, start: nat)
    requires s.sizer.currentSize == start + TotalSize(tpe, s.packs)
    requires start + TotalSize(tpe, Saved(tpe, s).packs) < U64
    ensures Saved(tpe, s).sizer.currentSize == start + TotalSize(tpe, Saved(tpe, s).packs)
  {
    SizeOfOneMore(tpe, s.packs, s.items);
  }

  /** In every run the sizer has grown by the sizes of the packs sent off, as long as they fit 64 bits. */
  lemma {:induction false} SizerCounts(tpe: BlobType, s: Packing, calls: seq<Call>, start: nat)
    requires s.sizer.currentSize == start + TotalSize(tpe, s.packs)
    requires start + TotalSize(tpe, Run(tpe, s, calls).packs) < U64
    ensures Run(tpe, s, calls).sizer.currentSize == start + TotalSize(tpe, Run(tpe, s, calls).packs)
    decreases |calls|
  {
    if calls != [] {
      var t, u := s.(items := Added(s.items, calls[0].item)), AddItem(tpe, s, calls[0].item, calls[0].expired);
      PacksAddUp(tpe, u, calls[1..]);
      if u != t { SavedCounts(tpe, t, start); }
      SizerCounts(tpe, u, calls[1..], start);
    }
  }

  /** The packs after all calls and the end. */
  function Packs(tpe: BlobType, sizer: PackSizer, calls: seq<Call>): seq<seq<Item>>
  {
    Finished(tpe, Run(tpe, Packing([], [], sizer), calls)).packs
  }

  /** Any sequence of `add_raw` calls with blobs that fit, then `finalize`: every pack has distinct ids
      and fits 32 bits, every added id is in some pack, and every packed blob was added. */
  lemma {:induction false} PacksAreSound(tpe: BlobType, sizer: PackSizer, calls: seq<Call>)
    requires forall c :: c in calls ==> Fits(c.item)
    ensures var packs := Packs(tpe, sizer, calls);
      && (forall p :: p in packs ==> GoodPack(tpe, p))
      && (forall c :: c in calls ==> HasId(Flat(packs), c.item.id))
      && (forall x :: x in Flat(packs) ==> exists c :: c in calls && c.item == x)
  {
    var s0 := Packing([], [], sizer);
    var s := Run(tpe, s0, calls);
    RunKeeps(tpe, s0, calls);
    FinishKeeps(tpe, s);
    RunConserves(tpe, s0, calls);
    assert All(s0) == [];
    ConservesIds([], calls, All(s));
    SavedKeepsAll(tpe, s);
    assert Flat(Finished(tpe, s).packs) + [] == Flat(Finished(tpe, s).packs);
    assert All(s) == Flat(Finished(tpe, s).packs);
  }

  /** The pack was closed for its size or its count. */
  predicate Filled(items: seq<Item>, sizer: PackSizer)
  {
    |items| >= MAX_COUNT || |Contents(items)| >= Min(Min(sizer.defaultSize, sizer.sizeLimit), MAX_SIZE)
  }

  lemma {:induction false} FullIsFilled(tpe: BlobType, items: seq<Item>, sizer: PackSizer, top: nat)
    requires GoodPack(tpe, items) && Full(items, sizer, false)
    requires sizer.currentSize <= top < U64 && Meant(sizer.(currentSize := top)) < U32
    ensures Filled(items, sizer)
  {
    LayoutTiles(tpe, items, 0);
    LimitGrows(sizer, sizer.(currentSize := top));
  }

  /** One call without expiry sends a pack only if it is filled. */
  lemma {:induction false} SentIsFilled(tpe: BlobType, s: Packing, x: Item, top: nat)
    requires Inv(tpe, s) && Fits(x) && Meant(s.sizer.(currentSize := top)) < U32 && s.sizer.currentSize <= top < U64
    ensures var t := AddItem(tpe, s, x, false);
      && (t.packs == s.packs || (t.packs == s.packs + [Added(s.items, x)] && Filled(Added(s.items, x), s.sizer)))
      && t.sizer == s.sizer.(currentSize := t.sizer.currentSize) && t.sizer.currentSize <= s.sizer.currentSize + U32
  {
    var items := Added(s.items, x);
    assert GoodPack(tpe, items) by { RoomForOne(tpe, s.items, x); }
    if Full(items, s.sizer, false) { FullIsFilled(tpe, items, s.sizer, top); }
  }

  /** As long as no pack expires and the size does not overflow, every pack that is sent before the end has the largest
      number of blobs, or at least the size that default and limits demand. */
  lemma {:induction false} PacksAreFilled(tpe: BlobType, s: Packing, calls: seq<Call>, top: nat)
    requires Inv(tpe, s) && forall c :: c in calls ==> Fits(c.item) && !c.expired
    requires s.sizer.currentSize + |calls| * U32 <= top < U64 && Meant(s.sizer.(currentSize := top)) < U32
    requires forall p :: p in s.packs ==> Filled(p, s.sizer)
    ensures forall p :: p in Run(tpe, s, calls).packs ==> Filled(p, s.sizer)
    decreases |calls|
  {
    if calls != [] {
      var x := calls[0].item;
      assert calls[0] in calls;
      SentIsFilled(tpe, s, x, top);
      AddKeeps(tpe, s, x, false);
      forall p | p in AddItem(tpe, s, x, false).packs ensures Filled(p, s.sizer) {}
      PacksAreFilled(tpe, AddItem(tpe, s, x, false), calls[1..], top);
    }
  }

  /** A pack that has expired is sent with the next blob, whatever its size; otherwise it stays open as long as it has
      room by count and by size. */
  lemma {:induction false} ExpiredIsSent(tpe: BlobType, s: Packing, x: Item, expired: bool)
    requires Inv(tpe, s) && Fits(x)
    ensures var t, items := AddItem(tpe, s, x, expired), Added(s.items, x);
      && (expired ==> t.items == [] && t.packs == s.packs + [items])
      && (!expired && |items| < MAX_COUNT && |Contents(items)| < PackLimit(s.sizer) ==>
            t.items == items && t.packs == s.packs)
  {
    RoomForOne(tpe, s.items, x);
    LayoutTiles(tpe, Added(s.items, x), 0);
  }

  /** Each of these packs passes the checker and can be read back from its own header. */
  lemma {:induction false} GoodPackPasses(codec: Codec, tpe: BlobType, items: seq<Item>, sorted: seq<IndexBlob>)
    requires GoodCodec(codec) && GoodPack(tpe, items) && AllGenuine(codec, items)
    requires SortedByOffset(Layout(tpe, items, 0), sorted)
    ensures HeaderSize(Layout(tpe, items, 0)) < U32 && OffsetErrors(sorted, tpe, 0) == []
    ensures var pack := PackOf(codec.key, tpe, items);
      && |pack| == PackSize(Layout(tpe, items, 0)) < U32
      && CheckPack(codec, codec.hash(pack), Layout(tpe, items, 0), sorted, pack) == Verdict([], Done)
      && FromFile(codec.key, pack, 0) == Blobs(Layout(tpe, items, 0))
  {
    LayoutTiles(tpe, items, 0);
    PackPasses(codec, tpe, items, sorted);
    HeaderFromFile(codec.key, tpe, items, 0);
  }

  // ---------------------------------------------------------------- the bound is exact

  predicate AllCompressed(items: seq<Item>) { forall x :: x in items ==> x.uncompressed.Some? }

  lemma {:induction false} CompressedHeader(tpe: BlobType, items: seq<Item>, offset: nat)
    requires AllCompressed(items)
    ensures HeaderSize(Layout(tpe, items, offset)) == COMP_OVERHEAD + ENTRY_LEN_COMPRESSED * |items|
    decreases |items|
  {
    if items != [] {
      assert items[0] in items;
      LayoutRest(tpe, items, offset);
      CompressedHeader(tpe, items[1..], Add32(offset, |items[0].data|));
    }
  }

  /** Behind the fullest pack that is still open, one byte more overflows. */
  lemma {:induction false} BoundIsTight(tpe: BlobType, items: seq<Item>, x: Item)
    requires |items| == MAX_COUNT - 1 && |Contents(items)| == MAX_SIZE - 1 && AllCompressed(items + [x])
    ensures PackSize(Layout(tpe, items + [x], 0)) < U32 <==> |x.data| <= MAX_BLOB
  {
    LayoutMore(tpe, items, 0, x);
    LayoutTiles(tpe, items + [x], 0);
    CompressedHeader(tpe, items + [x], 0);
  }

  /** The first id is the number k. */
  function Numbered(k: nat, size: nat): (x: Item)
    requires k < U32
  {
    Item(Le32(k) + seq(28, _ => 0), seq(size, _ => 0), Some(1))
  }

  lemma {:induction false} NumbersDiffer(j: nat, k: nat, m: nat, n: nat)
    requires j < k < U32
    ensures Numbered(j, m).id != Numbered(k, n).id
  {
    LeRoundTrip(j);
    LeRoundTrip(k);
    assert Numbered(j, m).id[..4] == Le32(j) && Numbered(k, n).id[..4] == Le32(k);
  }

  const SMALL: nat := 427_442

  /** n blobs of the same size. */
  function Many(n: nat): (items: seq<Item>)
    requires n < MAX_COUNT
    ensures |items| == n
  {
    seq(n, k requires 0 <= k < n => Numbered(k, SMALL))
  }

  lemma {:induction false} ManyMore(tpe: BlobType, n: nat)
    requires n + 1 < MAX_COUNT
    ensures Many(n + 1) == Many(n) + [Numbered(n, SMALL)] && !HasId(Many(n), Numbered(n, SMALL).id)
    ensures Contents(Many(n + 1)) == Contents(Many(n)) + Numbered(n, SMALL).data
  {
    LayoutMore(tpe, Many(n), 0, Numbered(n, SMALL));
    if HasId(Many(n), Numbered(n, SMALL).id) {
      var k :| 0 <= k < n && Many(n)[k].id == Numbered(n, SMALL).id;
      NumbersDiffer(k, n, SMALL, SMALL);
    }
  }

  function ManyCalls(n: nat): (calls: seq<Call>)
    requires n < MAX_COUNT
  {
    seq(n, k requires 0 <= k < n => Call(Numbered(k, SMALL), false))
  }

  lemma {:induction false} RunMore(tpe: BlobType, s: Packing, calls: seq<Call>, c: Call)
    ensures Run(tpe, s, calls + [c]) == AddItem(tpe, Run(tpe, s, calls), c.item, c.expired)
    decreases |calls|
  {
    if calls == [] {
      assert ([c])[1..] == [];
    } else {
      assert (calls + [c])[1..] == calls[1..] + [c];
      RunMore(tpe, AddItem(tpe, s, calls[0].item, calls[0].expired), calls[1..], c);
    }
  }

  /** A packer with the largest size limit. */
  function Start0(): Packing { Packing([], [], PackSizer(MAX_SIZE, 0, MAX_SIZE, 0)) }

  lemma {:induction false} OneMoreOpen(tpe: BlobType, items: seq<Item>, x: Item)
    requires !HasId(items, x.id) && |items| + 1 < MAX_COUNT && |Contents(items + [x])| < MAX_SIZE
    ensures AddItem(tpe, Start0().(items := items), x, false) == Start0().(items := items + [x])
  {
  }

  /** Blobs of this size stay in one open pack. */
  lemma {:induction false} ManyStayOpen(tpe: BlobType, n: nat)
    requires n < MAX_COUNT - 1
    ensures Run(tpe, Start0(), ManyCalls(n)) == Start0().(items := Many(n))
    ensures |Contents(Many(n))| == n * SMALL
    decreases n
  {
    if n > 0 {
      ManyStayOpen(tpe, n - 1);
      ManyMore(tpe, n - 1);
      OneMoreOpen(tpe, Many(n - 1), Numbered(n - 1, SMALL));
      assert ManyCalls(n) == ManyCalls(n - 1) + [Call(Numbered(n - 1, SMALL), false)];
      RunMore(tpe, Start0(), ManyCalls(n - 1), Call(Numbered(n - 1, SMALL), false));
    } else {
      assert Many(0) == [];
    }
  }

  const LAST: nat := MAX_SIZE - 1 - (MAX_COUNT - 2) * SMALL

  /** The fullest open pack is reached. */
  function Fullest(): (items: seq<Item>) { Many(MAX_COUNT - 2) + [Numbered(MAX_COUNT - 2, LAST)] }

  function FullestCalls(): seq<Call> { ManyCalls(MAX_COUNT - 2) + [Call(Numbered(MAX_COUNT - 2, LAST), false)] }

  lemma {:induction false} ManyLacks(n: nat, k: nat, size: nat)
    requires n < MAX_COUNT && n <= k < U32
    ensures !HasId(Many(n), Numbered(k, size).id)
  {
    if HasId(Many(n), Numbered(k, size).id) {
      var j :| 0 <= j < n && Many(n)[j].id == Numbered(k, size).id;
      NumbersDiffer(j, k, SMALL, size);
    }
  }

  lemma {:induction false} FullestLacks(k: nat, size: nat)
    requires MAX_COUNT - 1 <= k < U32
    ensures !HasId(Fullest(), Numbered(k, size).id)
  {
    var n := MAX_COUNT - 2;
    ManyLacks(n, k, size);
    NumbersDiffer(n, k, LAST, size);
    forall j | 0 <= j < |Fullest()| ensures Fullest()[j].id != Numbered(k, size).id {
      if j < n { assert Fullest()[j] == Many(n)[j]; }
    }
  }

  lemma {:induction false} FullestFits()
    ensures AllCompressed(Fullest()) && forall x :: x in Fullest() ==> Fits(x)
  {
    assert 0 < SMALL <= MAX_BLOB && 0 < LAST <= MAX_BLOB;
  }

  lemma {:induction false} FullestSize(tpe: BlobType)
    ensures |Fullest()| == MAX_COUNT - 1 && |Contents(Fullest())| == MAX_SIZE - 1
  {
    ManyStayOpen(tpe, MAX_COUNT - 2);
    LayoutMore(tpe, Many(MAX_COUNT - 2), 0, Numbered(MAX_COUNT - 2, LAST));
  }

  lemma {:induction false} FullestIsReached(tpe: BlobType)
    ensures Run(tpe, Start0(), FullestCalls()) == Start0().(items := Fullest())
  {
    var n, x := MAX_COUNT - 2, Numbered(MAX_COUNT - 2, LAST);
    ManyStayOpen(tpe, n);
    RunMore(tpe, Start0(), ManyCalls(n), Call(x, false));
    ManyLacks(n, n, LAST);
    FullestSize(tpe);
    OneMoreOpen(tpe, Many(n), x);
  }

  lemma {:induction false} OneTooMany(tpe: BlobType, items: seq<Item>, x: Item)
    requires !HasId(items, x.id) && |items| + 1 == MAX_COUNT
    ensures items + [x] in Finished(tpe, AddItem(tpe, Start0().(items := items), x, false)).packs
  {
  }

  ghost predicate UpTo(calls: seq<Call>, n: nat)
  {
    forall c :: c in calls ==> Storable(c.item) && |c.item.data| <= n
  }

  /** Whatever the blobs of at most n bytes, all packs are sound. */
  ghost predicate AllRunsSound(n: nat)
  {
    forall tpe, sizer, calls, p :: UpTo(calls, n) && p in Packs(tpe, sizer, calls) ==> GoodPack(tpe, p)
  }

  lemma {:induction false} FullestUpTo(x: Item)
    requires Storable(x) && |x.data| > MAX_BLOB
    ensures UpTo(FullestCalls() + [Call(x, false)], |x.data|)
  {
    assert 0 < SMALL <= MAX_BLOB && 0 < LAST <= MAX_BLOB;
    forall c | c in FullestCalls() + [Call(x, false)] ensures Storable(c.item) && |c.item.data| <= |x.data| {}
  }

  lemma {:induction false} TooBig(tpe: BlobType, size: nat) returns (calls: seq<Call>, p: seq<Item>)
    requires MAX_BLOB < size < U32
    ensures UpTo(calls, size) && p in Packs(tpe, Start0().sizer, calls) && !GoodPack(tpe, p)
  {
    var x := Numbered(MAX_COUNT - 1, size);
    calls, p := FullestCalls() + [Call(x, false)], Fullest() + [x];
    FullestUpTo(x);
    FullestIsReached(tpe);
    FullestLacks(MAX_COUNT - 1, size);
    FullestSize(tpe);
    FullestFits();
    RunMore(tpe, Start0(), FullestCalls(), Call(x, false));
    OneTooMany(tpe, Fullest(), x);
    BoundIsTight(tpe, Fullest(), x);
  }

  /** The bound is exact: all packs of all runs are sound if and only if no blob has more bytes. */
  lemma {:induction false} BoundIsExact(n: nat)
    ensures AllRunsSound(n) <==> n <= MAX_BLOB
  {
    if n <= MAX_BLOB {
      forall tpe, sizer, calls, p | UpTo(calls, n) && p in Packs(tpe, sizer, calls) ensures GoodPack(tpe, p) {
        PacksAreSound(tpe, sizer, calls);
      }
    } else {
      var calls, p := TooBig(Data, MAX_BLOB + 1);
    }
  }

  // ---------------------------------------------------------------- the packer as an object

  datatype Pack = Pack(file: Bytes, blobs: seq<IndexBlob>)

  datatype Stats = Stats(blobs: nat, data: nat, dataPacked: nat)

  ghost predicate Describes(tpe: BlobType, items: seq<Item>, file: Bytes, blobs: seq<IndexBlob>)
  {
    file == Contents(items) && blobs == Layout(tpe, items, 0)
  }

  lemma {:induction false} DescribesMore(tpe: BlobType, items: seq<Item>, file: Bytes, blobs: seq<IndexBlob>, x: Item)
    requires Describes(tpe, items, file, blobs)
    ensures Describes(tpe, items + [x], file + x.data, blobs + [Entry(tpe, x, |file| % U32)])
    ensures Add32(|file| % U32, |x.data|) == |file + x.data| % U32
  {
    LayoutMore(tpe, items, 0, x);
    AddTwice(0, |file|, |x.data|);
  }

  /** A pack whose header can be written. */
  ghost predicate Savable(items: seq<Item>) { AllSized(items) && |items| <= MAX_COUNT }

  ghost predicate IsPack(key: Key, tpe: BlobType, items: seq<Item>, pack: Pack)
  {
    && AllSized(items) && HeaderSize(Layout(tpe, items, 0)) < U32
    && pack == Pack(PackOf(key, tpe, items), Layout(tpe, items, 0))
  }

  class RawPacker {
    const key: Key
    const tpe: BlobType
    var file: Bytes
    var size: nat
    var count: nat
    var blobs: seq<IndexBlob>
    var sizer: PackSizer
    var stats: Stats
    /** What was handed to the file writer. */
    var sent: seq<Pack>
    ghost var items: seq<Item>
    ghost var packs: seq<seq<Item>>

    ghost function State(): (s: Packing)
      reads this
    {
      Packing(items, packs, sizer)
    }

    /** The fields describe the items, and what was sent are the packs of the items. */
    ghost predicate Valid()
      reads this
    {
      && GoodKey(key) && Described() && Savable(items) && |sent| == |packs|
      && forall i :: 0 <= i < |packs| ==> Savable(packs[i]) && IsPack(key, tpe, packs[i], sent[i])
    }

    ghost predicate Described()
      reads this
    {
      Describes(tpe, items, file, blobs) && size == |file| % U32 && count == |items|
    }

    constructor (key: Key, tpe: BlobType, sizer: PackSizer)
      requires GoodKey(key)
      ensures Valid() && State() == Packing([], [], sizer) && stats == Stats(0, 0, 0)
      ensures this.key == key && this.tpe == tpe
    {
      this.key, this.tpe, this.sizer := key, tpe, sizer;
      file, size, count, blobs, stats, sent, items, packs := [], 0, 0, [], Stats(0, 0, 0), [], [], [];
    }

    method Has(id: Bytes) returns (r: bool)
      requires Described()
      ensures r <==> HasId(items, id)
    {
      LayoutTiles(tpe, items, 0);
      r := exists k :: 0 <= k < |blobs| && blobs[k].id == id;
    }

    /** False is the failed conversion of the length to 32 bits. */
    method WriteData(data: Bytes) returns (ok: bool)
      modifies this`file, this`size
      ensures ok <==> |data| < U32
      ensures file == if ok then old(file) + data else old(file)
      ensures size == if ok then Add32(old(size), |data|) else old(size)
    {
      if |data| >= U32 { return false; }
      file := file + data;
      size := Add32(size, |data|);
      ok := true;
    }

    /** `BasicPacker::add_raw`. */
    method Collect(x: Item, dataLen: nat) returns (ok: bool)
      requires Described()
      modifies this`file, this`size, this`count, this`blobs, this`stats, this`items
      ensures Described()
      ensures ok <==> HasId(old(items), x.id) || |x.data| < U32
      ensures items == if ok then Added(old(items), x) else old(items)
      ensures stats == if HasId(old(items), x.id) then old(stats)
                       else Stats(old(stats).blobs + 1, old(stats).data + dataLen, old(stats).dataPacked + |x.data|)
    {
      var known := Has(x.id);
      if known { return true; }
      stats := Stats(stats.blobs + 1, stats.data + dataLen, stats.dataPacked + |x.data|);
      var offset := size;
      DescribesMore(tpe, items, file, blobs, x);
      ok := WriteData(x.data);
      if !ok { return; }
      blobs := blobs + [Entry(tpe, x, offset)];
      count := count + 1;
      items := items + [x];
    }

    /** Encrypts and appends the header, and appends its length. */
    method WriteHeader()
      requires Valid()
      modifies this`file, this`size
      ensures IsPack(key, tpe, items, Pack(file, blobs))
    {
      HeaderBound(blobs);
      LayoutInRange(tpe, items, 0);
      var header := key.encrypt(ToBinary(blobs));
      var ok := WriteData(header);
      ok := WriteData(Le32(|header|));
    }

    /** The pack is completed and sent off. */
    method Save()
      requires Valid()
      modifies this
      ensures Valid() && State() == Saved(tpe, old(State())) && stats == old(stats)
    {
      WriteHeader();
      packs := packs + [items];
      var pack := TakeData();
      sent := sent + [pack];
    }

    /** The finished pack, and the start of an empty one; the sizer learns the size that the index gives. */
    method TakeData() returns (pack: Pack)
      modifies this`file, this`size, this`count, this`blobs, this`sizer, this`items
      ensures pack == Pack(old(file), old(blobs)) && Described() && items == []
      ensures sizer == old(sizer).(currentSize := (old(sizer).currentSize + PackSize(old(blobs)) % U32) % U64)
    {
      sizer := sizer.(currentSize := (sizer.currentSize + PackSize(blobs) % U32) % U64);
      pack := Pack(file, blobs);
      file, size, count, blobs, items := [], 0, 0, [], [];
    }

    /** `RawPacker::add_raw`; false is the failed conversion of the length. */
    method AddRaw(x: Item, dataLen: nat, expired: bool) returns (ok: bool)
      requires Valid() && |items| < MAX_COUNT && Typed(x)
      modifies this
      ensures Valid() && |items| < MAX_COUNT
      ensures ok <==> HasId(old(items), x.id) || |x.data| < U32
      ensures State() == if ok then AddItem(tpe, old(State()), x, expired) else old(State())
    {
      ok := Collect(x, dataLen);
      if !ok { return; }
      if count >= MAX_COUNT || size >= PackLimit(sizer) || expired { Save(); }
    }

    method Finalize() returns (r: Stats)
      requires Valid()
      modifies this
      ensures Valid() && State() == Finished(tpe, old(State()))
      ensures r == old(stats) && stats == Stats(0, 0, 0)
    {
      if count != 0 {
        Save();
      }
      r, stats := stats, Stats(0, 0, 0);
    }
  }
}
