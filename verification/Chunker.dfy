/** The chunkers: readers that may return any short read, the buffered Rabin chunker and the
    fixed-size chunker, both proved against a function of the bytes alone. */
module Chunker {
  import opened Repo

  const BUF_SIZE: nat := 4096
  const WINDOW: nat := 64

  // ---------------------------------------------------------------- readers

  datatype ReadResult = Data(bytes: seq<Byte>) | Interrupted | Failed

  /** A reader over `rest`. Each read returns a nonempty prefix of any length, is interrupted (at
      most `interrupts` times more), or fails. */
  class Reader {
    var rest: seq<Byte>
    var interrupts: nat

    constructor (data: seq<Byte>, n: nat)
      ensures rest == data && interrupts == n
    {
      rest := data;
      interrupts := n;
    }

    method Read(limit: nat) returns (r: ReadResult)
      modifies this
      ensures r.Data? ==> old(rest) == r.bytes + rest && |r.bytes| <= limit && interrupts == old(interrupts)
      ensures r.Data? && r.bytes == [] ==> limit == 0 || old(rest) == []
      ensures r.Interrupted? ==> rest == old(rest) && interrupts < old(interrupts)
    {
      var outcome :| 0 <= outcome < 3;
      if outcome == 0 {
        return Failed;
      } else if outcome == 1 && interrupts > 0 {
        interrupts := interrupts - 1;
        return Interrupted;
      }
      var most := if limit < |rest| then limit else |rest|;
      var n :| 0 <= n <= most && (most > 0 ==> n > 0);
      r := Data(rest[..n]);
      rest := rest[n..];
    }

    /** `take(limit).read_to_end`: all bytes up to the limit, or an error. */
    method ReadToEnd(limit: nat) returns (r: ReadResult)
      modifies this
      ensures !r.Interrupted?
      ensures r.Data? ==> old(rest) == r.bytes + rest
      ensures r.Data? ==> |r.bytes| == limit || (|r.bytes| < limit && rest == [])
    {
      var bytes := [];
      while |bytes| < limit
        invariant |bytes| <= limit && old(rest) == bytes + rest
        decreases limit - |bytes|, interrupts
      {
        var step := Read(limit - |bytes|);
        match step
        case Failed => return Failed;
        case Interrupted =>
        case Data(more) =>
          if more == [] { return Data(bytes); }
          bytes := bytes + more;
      }
      return Data(bytes);
    }
  }

  // ---------------------------------------------------------------- the function of the bytes

  /** The rolling hash of the crate `rustic_cdc`, with states of type H about which nothing is
      assumed, and the sizes of the chunker. */
  datatype Params<!H(!new)> = Params(
    prefill: seq<Byte> -> H,
    slide: (H, Byte) -> H,
    splits: H -> bool,      // no bit of the split mask is set in the hash
    chunkSize: nat,
    minSize: nat,
    maxSize: nat)
  {
    /** The order of sizes that `check_rabin_params` demands, a minimum that covers the window, and the
        condition for the left-over bytes never to exceed the minimum. */
    predicate Valid()
    {
      WINDOW <= minSize <= chunkSize <= maxSize && SafeSizes(minSize, maxSize)
    }
  }

  /** The minimum covers one buffer less the byte that ended the chunk, or no byte is ever taken from the
      buffer. */
  predicate SafeSizes(minSize: nat, maxSize: nat) { BUF_SIZE - 1 <= minSize || minSize == maxSize }

  /** The end of the chunk that has reached length n with hash state h. */
  function CutFrom<H(!new)>(p: Params<H>, data: seq<Byte>, n: nat, h: H): (r: nat)
    requires n <= |data|
    ensures n <= r <= |data|
    ensures n <= p.maxSize ==> r <= p.maxSize
    decreases |data| - n
  {
    if n >= p.maxSize || p.splits(h) || n == |data| then n
    else CutFrom(p, data, n + 1, p.slide(h, data[n]))
  }

  /** The length of the first chunk of `data`. */
  function Cut<H(!new)>(p: Params<H>, data: seq<Byte>): (r: nat)
    requires p.Valid()
    ensures r <= |data| && r <= p.maxSize && (data != [] ==> r > 0)
    ensures r < |data| ==> r >= p.minSize
  {
    if |data| < p.minSize then |data|
    else CutFrom(p, data, p.minSize, p.prefill(data[p.minSize - WINDOW..p.minSize]))
  }

  function Chunks<H(!new)>(p: Params<H>, data: seq<Byte>): seq<seq<Byte>>
    requires p.Valid()
    decreases |data|
  {
    if data == [] then [] else [data[..Cut(p, data)]] + Chunks(p, data[Cut(p, data)..])
  }

  // ---------------------------------------------------------------- the buffered chunker

  datatype Step = End | Chunk(bytes: seq<Byte>) | Error

  lemma {:induction false} SplitAt(all: seq<Byte>, a: seq<Byte>, b: seq<Byte>)
    requires all == a + b
    ensures a == all[..|a|] && b == all[|a|..]
  {
  }

  lemma {:induction false} SameWindow(all: seq<Byte>, vec: seq<Byte>, rest: seq<Byte>)
    requires all == vec + rest && |vec| >= WINDOW
    ensures vec[|vec| - WINDOW..] == all[|vec| - WINDOW..|vec|]
  {
  }

  lemma {:induction false} PushByte(all: seq<Byte>, vec: seq<Byte>, buf: seq<Byte>, pos: nat, rest: seq<Byte>)
    requires pos < |buf| && all == vec + (buf[pos..] + rest)
    ensures |vec| < |all| && all[|vec|] == buf[pos]
    ensures all == vec + [buf[pos]] + (buf[pos + 1..] + rest)
  {
    assert buf[pos..] == [buf[pos]] + buf[pos + 1..];
  }

  // ---------------------------------------------------------------- the loop as a relation

  /** A state of the loop: length of the chunk, hash state, buffer, position, and the rest of the reader. */
  datatype Loop<H> = Loop(len: nat, h: H, buf: seq<Byte>, pos: nat, rest: seq<Byte>)

  predicate Stops<H(!new)>(p: Params<H>, l: Loop<H>) { l.len >= p.maxSize || p.splits(l.h) }

  /** The buffer as it is, or, if it is used up, filled by a read of n bytes. */
  ghost predicate Fills<H(!new)>(l: Loop<H>, m: Loop<H>)
  {
    if l.pos < |l.buf| then m == l
    else exists n :: 0 < n <= |l.buf| && n <= |l.rest| && m == l.(buf := l.rest[..n], pos := 0, rest := l.rest[n..])
  }

  function Take<H(!new)>(p: Params<H>, l: Loop<H>): Loop<H>
    requires l.pos < |l.buf|
  {
    l.(len := l.len + 1, h := p.slide(l.h, l.buf[l.pos]), pos := l.pos + 1)
  }

  /** One turn of the loop: the next byte goes from the buffer to the chunk. */
  ghost predicate Turn<H(!new)>(p: Params<H>, l: Loop<H>, m: Loop<H>)
  {
    !Stops(p, l) && exists f :: Fills(l, f) && f.pos < |f.buf| && m == Take(p, f)
  }

  ghost predicate LoopRun<H(!new)>(p: Params<H>, l: Loop<H>, trace: seq<Loop<H>>)
  {
    && trace != [] && trace[0] == l
    && forall i :: 0 <= i < |trace| - 1 ==> Turn(p, trace[i], trace[i + 1])
  }

  lemma {:induction false} TakesByte<H(!new)>(p: Params<H>, l: Loop<H>, f: Loop<H>)
    requires !Stops(p, l) && f.pos < |f.buf|
    requires f == l || (l.pos >= |l.buf| && f.buf != [] && |f.buf| <= |l.buf| && |f.buf| <= |l.rest| &&
                        f == l.(buf := l.rest[..|f.buf|], pos := 0, rest := l.rest[|f.buf|..]))
    ensures Turn(p, l, Take(p, f))
  {
    assert Fills(l, f);
  }

  lemma {:induction false} RunMore<H(!new)>(p: Params<H>, l: Loop<H>, trace: seq<Loop<H>>, m: Loop<H>)
    requires trace != [] && LoopRun(p, trace[0], trace) && trace[|trace| - 1] == l && Turn(p, l, m)
    ensures LoopRun(p, trace[0], trace + [m])
  {
  }

  class ChunkIter<H(!new)> {
    const p: Params<H>
    const reader: Reader
    var buf: seq<Byte>
    var pos: nat
    var finished: bool

    /** The bytes not yet handed out. */
    ghost function Pending(): (r: seq<Byte>)
      requires pos <= |buf|
      reads this, reader
    {
      buf[pos..] + reader.rest
    }

    ghost predicate Valid()
      reads this, reader
    {
      && p.Valid() && BufferOk()
      && (finished ==> Pending() == [])
    }

    constructor (p: Params<H>, reader: Reader)
      requires p.Valid()
      ensures Valid() && Pending() == reader.rest && this.p == p && this.reader == reader
    {
      this.p := p;
      this.reader := reader;
      buf := seq(BUF_SIZE, _ => 0);
      pos := BUF_SIZE;
      finished := false;
    }

    /** The next chunk is the prefix that `Cut` determines, however the reader splits its data. */
    method Next() returns (r: Step)
      requires Valid()
      modifies this, reader
      ensures !r.Error? ==> Valid()
      ensures !r.Error? ==> r == if old(Pending()) == [] then End else Chunk(old(Pending())[..Cut(p, old(Pending()))])
      ensures !r.Error? ==> Pending() == old(Pending())[Cut(p, old(Pending()))..]
    {
      if finished {
        return End;
      }
      ghost var all := Pending();
      var got := FillMinimum();
      if got.Failed? { return Error; }
      var vec := got.bytes;
      if |vec| < p.minSize {
        finished := true;
        SplitAt(all, vec, []);
        assert Cut(p, all) == |all|;
        return if vec == [] then End else Chunk(vec);
      }
      var h := p.prefill(vec[|vec| - WINDOW..]);
      SameWindow(all, vec, Pending());
      assert Cut(p, all) == CutFrom(p, all, |vec|, h);
      ghost var trace;
      r, trace := Extend(vec, h, all);
      if r.Chunk? { SplitAt(all, r.bytes, Pending()); }
    }

    /** The bytes left in the buffer, and enough of the reader to make up the minimum size. */
    method FillMinimum() returns (r: ReadResult)
      requires Valid() && !finished
      modifies this, reader
      ensures !r.Interrupted? && (r.Data? ==> Valid() && !finished)
      ensures r.Data? ==> old(Pending()) == r.bytes + Pending() && buf[pos..] == []
      ensures r.Data? ==> |r.bytes| == p.minSize || (|r.bytes| < p.minSize && Pending() == [])
    {
      var open := |buf| - pos;
      var vec := buf[pos..];
      pos := |buf|;
      // no underflow: the open bytes are no more than the minimum
      var minSize: nat := p.minSize - open;
      r := reader.ReadToEnd(minSize);
      if r.Data? {
        Assoc(vec, r.bytes, reader.rest);
        r := Data(vec + r.bytes);
        assert Pending() == reader.rest;
      }
    }

    /** The state of the loop when the chunk has length n and hash state h. */
    ghost function At(n: nat, h: H): Loop<H>
      reads this, reader
    {
      Loop(n, h, buf, pos, reader.rest)
    }

    /** The loop has `vec` and `h`; its turns since `first` are recorded and the end of the chunk is still `cut`. */
    ghost predicate Going(first: Loop<H>, all: seq<Byte>, cut: nat, vec: seq<Byte>, h: H, trace: seq<Loop<H>>)
      reads this, reader
    {
      && BufferOk() && |vec| >= p.minSize && all == vec + Pending() && CutFrom(p, all, |vec|, h) == cut
      && LoopRun(p, first, trace) && trace[|trace| - 1] == At(|vec|, h)
    }

    /** The loop that adds bytes until the chunk ends, for any sizes; its turns are recorded. */
    method Extend(start: seq<Byte>, hash: H, ghost all: seq<Byte>) returns (r: Step, ghost trace: seq<Loop<H>>)
      requires BufferOk() && !finished && all == start + Pending() && |start| >= p.minSize
      modifies this, reader
      ensures r.Error? || r.Chunk?
      ensures r.Chunk? ==> BufferOk() && (finished ==> Pending() == [])
      ensures r.Chunk? ==> all == r.bytes + Pending() && |r.bytes| == CutFrom(p, all, |start|, hash)
      ensures r.Chunk? ==> LoopRun(p, old(At(|start|, hash)), trace)
      ensures r.Chunk? ==> trace[|trace| - 1] == At(|r.bytes|, trace[|trace| - 1].h)
      ensures r.Chunk? && !finished ==> Stops(p, trace[|trace| - 1])
    {
      var vec, h := start, hash;
      ghost var first, cut := At(|vec|, h), CutFrom(p, all, |vec|, h);
      trace := [first];
      while true
        invariant !finished && Going(first, all, cut, vec, h, trace)
        decreases |all| - |vec|, reader.interrupts
      {
        if |vec| >= p.maxSize || p.splits(h) {
          break;
        }
        ghost var before := At(|vec|, h);
        if |buf| == pos {
          var more := FillBuffer(all, before, vec);
          if more.Interrupted? {
            continue;
          } else if more.Failed? {
            return Error, trace;
          } else if more.bytes == [] {
            finished := true;
            break;
          }
        }
        vec, h := TakeByte(vec, h, all, first, trace);
        trace := trace + [At(|vec|, h)];
      }
      return Chunk(vec), trace;
    }

    /** The next byte of the buffer goes to the chunk and into the hash: with the read before it, one turn. */
    method TakeByte(vec: seq<Byte>, h: H, ghost all: seq<Byte>, ghost first: Loop<H>, ghost trace: seq<Loop<H>>)
      returns (longer: seq<Byte>, next: H)
      requires pos < |buf| <= BUF_SIZE && all == vec + Pending() && p.minSize <= |vec|
      requires LoopRun(p, first, trace) && !Stops(p, trace[|trace| - 1])
      requires trace[|trace| - 1].len == |vec| && trace[|trace| - 1].h == h
      requires Fills(trace[|trace| - 1], At(|vec|, h))
      modifies this`pos
      ensures |longer| == |vec| + 1
      ensures Going(first, all, CutFrom(p, all, |vec|, h), longer, next, trace + [At(|longer|, next)])
    {
      ghost var f := At(|vec|, h);
      var byte := buf[pos];
      PushByte(all, vec, buf, pos, reader.rest);
      longer := vec + [byte];
      pos := pos + 1;
      next := p.slide(h, byte);
      assert At(|longer|, next) == Take(p, f);
      RunMore(p, trace[|trace| - 1], trace, Take(p, f));
    }

    /** The buffer between two turns of the loop. */
    ghost predicate BufferOk()
      reads this
    {
      && pos <= |buf| && 0 < |buf| <= BUF_SIZE && (pos == |buf| || pos > 0)
      && (p.minSize == p.maxSize ==> pos == |buf|)
    }

    /** One read into the buffer, which is used up. */
    method FillBuffer(ghost all: seq<Byte>, ghost l: Loop<H>, ghost vec: seq<Byte>) returns (r: ReadResult)
      requires BufferOk() && pos == |buf| && all == vec + Pending() && l == At(|vec|, l.h)
      modifies this`buf, this`pos, reader
      ensures r.Interrupted? ==> reader.interrupts < old(reader.interrupts)
      ensures r.Interrupted? || (r.Data? && r.bytes == []) ==> BufferOk() && At(|vec|, l.h) == l
      ensures r.Data? ==> reader.interrupts == old(reader.interrupts)
      ensures r.Data? && r.bytes == [] ==> Pending() == []
      ensures r.Data? && r.bytes != [] ==> pos < |buf| <= BUF_SIZE && Fills(l, At(|vec|, l.h))
      ensures !r.Failed? ==> all == vec + Pending()
    {
      r := reader.Read(|buf|);
      if r.Data? && r.bytes != [] {
        SplitAt(old(reader.rest), r.bytes, reader.rest);
        pos, buf := 0, r.bytes;
      }
    }

    /** `collect`: all chunks, or the first error. */
    method Collect() returns (ok: bool, chunks: seq<seq<Byte>>)
      requires Valid()
      modifies this, reader
      ensures ok ==> chunks == Chunks(p, old(Pending()))
    {
      chunks := [];
      while true
        invariant Valid()
        invariant chunks + Chunks(p, Pending()) == Chunks(p, old(Pending()))
        decreases |Pending()|
      {
        ghost var before := Pending();
        var step := Next();
        match step {
          case Error => return false, [];
          case End => return true, chunks;
          case Chunk(bytes) => chunks := chunks + [bytes];
        }
      }
    }
  }

  // ---------------------------------------------------------------- properties of the chunks

  function Concat(chunks: seq<seq<Byte>>): seq<Byte>
  {
    if chunks == [] then [] else chunks[0] + Concat(chunks[1..])
  }

  lemma {:induction false} ConcatFirst(chunk: seq<Byte>, chunks: seq<seq<Byte>>)
    ensures Concat([chunk] + chunks) == chunk + Concat(chunks)
  {
    assert ([chunk] + chunks)[1..] == chunks;
  }

  lemma {:induction false} ChunksConcat<H(!new)>(p: Params<H>, data: seq<Byte>)
    requires p.Valid()
    ensures Concat(Chunks(p, data)) == data
    decreases |data|
  {
    if data != [] {
      var n := Cut(p, data);
      ChunksConcat(p, data[n..]);
      ConcatFirst(data[..n], Chunks(p, data[n..]));
      assert data == data[..n] + data[n..];
    }
  }

  /** Every chunk is nonempty and at most the maximum, all but the last at least the minimum. */
  lemma {:induction false} ChunkSizes<H(!new)>(p: Params<H>, data: seq<Byte>, i: nat)
    requires p.Valid() && i < |Chunks(p, data)|
    ensures 0 < |Chunks(p, data)[i]| <= p.maxSize
    ensures i < |Chunks(p, data)| - 1 ==> |Chunks(p, data)[i]| >= p.minSize
    decreases |data|
  {
    var n := Cut(p, data);
    var tail := Chunks(p, data[n..]);
    assert Chunks(p, data) == [data[..n]] + tail;
    if i > 0 {
      ChunkSizes(p, data[n..], i - 1);
    } else if |tail| > 0 {
      assert n < |data|;
    }
  }

  lemma {:induction false} CutFromShared<H(!new)>(p: Params<H>, x: seq<Byte>, y: seq<Byte>, z: seq<Byte>, n: nat, h: H)
    requires n <= |x| && CutFrom(p, x + y, n, h) < |x|
    ensures CutFrom(p, x + z, n, h) == CutFrom(p, x + y, n, h)
    decreases |x| - n
  {
    if !(n >= p.maxSize || p.splits(h) || n == |x + y|) {
      assert (x + y)[n] == x[n] == (x + z)[n];
      CutFromShared(p, x, y, z, n + 1, p.slide(h, x[n]));
    }
  }

  /** A chunk that ends inside a common prefix is found in both inputs. */
  lemma {:induction false} CutShared<H(!new)>(p: Params<H>, x: seq<Byte>, y: seq<Byte>, z: seq<Byte>)
    requires p.Valid() && Cut(p, x + y) < |x|
    ensures Cut(p, x + z) == Cut(p, x + y)
  {
    var m := p.minSize;
    assert |x + y| >= m && |x| > m;
    assert (x + y)[m - WINDOW..m] == x[m - WINDOW..m] == (x + z)[m - WINDOW..m];
    CutFromShared(p, x, y, z, m, p.prefill(x[m - WINDOW..m]));
  }

  /** Deduplication, first half: two inputs with a common prefix have in common every chunk that
      ends inside it. */
  lemma {:induction false} SharedPrefix<H(!new)>(p: Params<H>, x: seq<Byte>, y: seq<Byte>, z: seq<Byte>, i: nat)
    requires p.Valid() && i < |Chunks(p, x + y)| && |Concat(Chunks(p, x + y)[..i + 1])| < |x|
    ensures i < |Chunks(p, x + z)| && Chunks(p, x + z)[i] == Chunks(p, x + y)[i]
    decreases |x|
  {
    var n := Cut(p, x + y);
    var cs := Chunks(p, x + y);
    assert cs[..i + 1] == [cs[0]] + cs[1..][..i];
    CutShared(p, x, y, z);
    assert (x + y)[..n] == x[..n] == (x + z)[..n];
    assert (x + y)[n..] == x[n..] + y && (x + z)[n..] == x[n..] + z;
    if i > 0 { SharedPrefix(p, x[n..], y, z, i - 1); }
  }

  /** k is the end of a chunk of `data`, or 0. */
  ghost predicate Boundary<H(!new)>(p: Params<H>, data: seq<Byte>, k: nat)
    requires p.Valid()
    decreases |data|
  {
    k == 0 || (data != [] && Cut(p, data) <= k <= |data| && Boundary(p, data[Cut(p, data)..], k - Cut(p, data)))
  }

  /** The chunks up to a boundary. */
  ghost function Before<H(!new)>(p: Params<H>, data: seq<Byte>, k: nat): seq<seq<Byte>>
    requires p.Valid() && Boundary(p, data, k)
    decreases |data|
  {
    if k == 0 then [] else [data[..Cut(p, data)]] + Before(p, data[Cut(p, data)..], k - Cut(p, data))
  }

  lemma {:induction false} BeforeConcat<H(!new)>(p: Params<H>, data: seq<Byte>, k: nat)
    requires p.Valid() && Boundary(p, data, k)
    ensures k <= |data| && Concat(Before(p, data, k)) == data[..k]
    decreases |data|
  {
    if k != 0 {
      var n := Cut(p, data);
      BeforeConcat(p, data[n..], k - n);
      assert Before(p, data, k)[1..] == Before(p, data[n..], k - n);
      assert data[..k] == data[..n] + data[n..][..k - n];
    }
  }

  lemma {:induction false} DropDrop(data: seq<Byte>, n: nat, k: nat)
    requires n <= k <= |data|
    ensures data[n..][k - n..] == data[k..]
  {
  }

  /** Deduplication, second half: after a boundary the chunks depend only on the bytes that
      follow, so inputs that agree from a boundary on have the same chunks from there. */
  lemma {:induction false} SharedSuffix<H(!new)>(p: Params<H>, data: seq<Byte>, k: nat)
    requires p.Valid() && Boundary(p, data, k)
    ensures k <= |data| && Chunks(p, data) == Before(p, data, k) + Chunks(p, data[k..])
    decreases |data|
  {
    if k == 0 {
      assert data[0..] == data;
    } else {
      var n := Cut(p, data);
      SharedSuffix(p, data[n..], k - n);
      DropDrop(data, n, k);
      Assoc([data[..n]], Before(p, data[n..], k - n), Chunks(p, data[k..]));
    }
  }

  // ---------------------------------------------------------------- when the minimum size is safe

  /** What `FillMinimum` leaves to the loop when it has found a minimum of bytes. */
  ghost predicate Filled<H(!new)>(p: Params<H>, l: Loop<H>)
  {
    l.len == p.minSize && l.pos == |l.buf| && 0 < |l.buf| <= BUF_SIZE
  }

  /** The loop can end a chunk with more bytes left in the buffer than the minimum: then the subtraction
      at the start of the next call underflows. */
  ghost predicate Underflows<H(!new)>(p: Params<H>, trace: seq<Loop<H>>)
  {
    && trace != [] && Filled(p, trace[0]) && LoopRun(p, trace[0], trace) && Stops(p, trace[|trace| - 1])
    && |trace[|trace| - 1].buf| - trace[|trace| - 1].pos > p.minSize
  }

  lemma {:induction false} BufferInRun<H(!new)>(p: Params<H>, trace: seq<Loop<H>>, i: nat)
    requires i < |trace| && Filled(p, trace[0]) && LoopRun(p, trace[0], trace)
    ensures trace[i].pos <= |trace[i].buf| <= BUF_SIZE && (trace[i].pos == |trace[i].buf| || trace[i].pos > 0)
    ensures i > 0 ==> trace[i].len > p.minSize && p.minSize < p.maxSize
  {
    if i > 0 {
      BufferInRun(p, trace, i - 1);
      assert Turn(p, trace[i - 1], trace[i - 1 + 1]);
    }
  }

  lemma {:induction false} SafeSizesSuffice<H(!new)>(p: Params<H>, trace: seq<Loop<H>>)
    requires SafeSizes(p.minSize, p.maxSize)
    ensures !Underflows(p, trace)
  {
    if Underflows(p, trace) { BufferInRun(p, trace, |trace| - 1); }
  }

  /** A hash that splits on the byte 1 ends the chunk after the first byte of a full buffer. */
  lemma {:induction false} SmallMinimumUnderflows(minSize: nat, chunkSize: nat, maxSize: nat)
    returns (p: Params<bool>, trace: seq<Loop<bool>>)
    requires minSize <= maxSize && !SafeSizes(minSize, maxSize)
    ensures p.minSize == minSize && p.chunkSize == chunkSize && p.maxSize == maxSize && Underflows(p, trace)
  {
    p := Params((s: seq<Byte>) => false, (h: bool, b: Byte) => b == 1, h => h, chunkSize, minSize, maxSize);
    var data := [1] + seq(BUF_SIZE - 1, _ => 0);
    var l := Loop(minSize, false, seq(BUF_SIZE, _ => 0), BUF_SIZE, data);
    var f := l.(buf := data[..BUF_SIZE], pos := 0, rest := data[BUF_SIZE..]);
    TakesByte(p, l, f);
    trace := [l, Take(p, f)];
  }

  /** Whatever the hash and whatever the reader returns, the subtraction is safe: exactly for sizes that
      are safe in the sense of `SafeSizes`. */
  lemma {:induction false} SafeIff(minSize: nat, chunkSize: nat, maxSize: nat)
    requires minSize <= maxSize
    ensures SafeSizes(minSize, maxSize) <==>
      forall p: Params<bool>, trace :: p.minSize == minSize && p.chunkSize == chunkSize && p.maxSize == maxSize ==>
        !Underflows(p, trace)
  {
    if SafeSizes(minSize, maxSize) {
      forall p: Params<bool>, trace | p.minSize == minSize && p.maxSize == maxSize ensures !Underflows(p, trace) {
        SafeSizesSuffice(p, trace);
      }
    } else {
      var p, trace := SmallMinimumUnderflows(minSize, chunkSize, maxSize);
    }
  }

  // ---------------------------------------------------------------- the fixed-size chunker

  function Blocks(size: nat, data: seq<Byte>): seq<seq<Byte>>
    requires size > 0
    decreases |data|
  {
    if |data| <= size then (if data == [] then [] else [data]) else [data[..size]] + Blocks(size, data[size..])
  }

  class FixedSizeChunkIter {
    const size: nat
    const reader: Reader
    var finished: bool

    constructor (size: nat, reader: Reader)
      ensures this.size == size && this.reader == reader && !finished
    {
      this.size := size;
      this.reader := reader;
      finished := false;
    }

    ghost predicate Valid()
      reads this, reader
    {
      size > 0 && (finished ==> reader.rest == [])
    }

    method Next() returns (r: Step)
      requires Valid()
      modifies this, reader
      ensures !r.Error? ==> Valid()
      ensures r.End? ==> old(reader.rest) == []
      ensures r.Chunk? ==> r.bytes != [] && old(reader.rest) == r.bytes + reader.rest
      ensures r.Chunk? ==> Blocks(size, old(reader.rest)) == [r.bytes] + Blocks(size, reader.rest)
    {
      if finished {
        return End;
      }
      var got := reader.ReadToEnd(size);
      if got.Failed? { return Error; }
      if |got.bytes| < size {
        finished := true;
      }
      ghost var data := old(reader.rest);
      if |data| > size {
        assert data[..size] == got.bytes && data[size..] == reader.rest;
      } else {
        assert data == got.bytes;
      }
      r := if got.bytes == [] then End else Chunk(got.bytes);
    }
  }

  /** Fixed-size chunks: every chunk but the last has exactly the size, and they concatenate to the
      input. */
  lemma {:induction false} BlocksShape(size: nat, data: seq<Byte>, i: nat)
    requires size > 0
    ensures Concat(Blocks(size, data)) == data
    ensures i < |Blocks(size, data)| ==> 0 < |Blocks(size, data)[i]| <= size
    ensures i < |Blocks(size, data)| - 1 ==> |Blocks(size, data)[i]| == size
    decreases |data|
  {
    if |data| > size {
      BlocksShape(size, data[size..], if i == 0 then 0 else i - 1);
      var bs := Blocks(size, data);
      assert bs[1..] == Blocks(size, data[size..]);
      assert data == data[..size] + data[size..];
    } else if data != [] {
      assert Blocks(size, data)[1..] == [];
    }
  }
}
