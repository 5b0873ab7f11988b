/** The trace loader: how the loop of load_blktrace works through a file in reads of any size. */
module TraceReader {
  import opened Options
  import opened Bits
  import opened Fifo
  import opened TraceFormat

  /** What each read call is willing to deliver; `None` is a read error. */
  type Delivery = nat -> Option<nat>

  /** Where the loader is: bytes consumed, bytes read, read calls made. The FIFO holds what lies between. */
  datatype Cursor = Cursor(at: nat, pos: nat, calls: nat)

  const START := Cursor(0, 0, 0)

  predicate CursorOk(file: seq<Byte>, c: Cursor) {
    c.at <= c.pos <= |file| && c.pos - c.at <= FIFO_SIZE
  }

  /** Taking up to `len` bytes: from the FIFO if it holds them, else after one read of as much as fits. */
  function Take(file: seq<Byte>, delivery: Delivery, c: Cursor, len: nat): (r: Option<Cursor>)
    requires CursorOk(file, c)
    ensures r.Some? ==> CursorOk(file, r.value) && c.at <= r.value.at <= c.at + len
  {
    if c.pos - c.at >= len then Some(c.(at := c.at + len))
    else
      match delivery(c.calls)
      case None => None
      case Some(d) =>
        var pos := c.pos + Min(d, Min(FIFO_SIZE - (c.pos - c.at), |file| - c.pos));
        Some(Cursor(c.at + Min(len, pos - c.at), pos, c.calls + 1))
  }

  datatype Went = Went(next: Next, c: Cursor)

  /** One round of the loop: a header and its payload, or the reason to stop. */
  function Round(file: seq<Byte>, delivery: Delivery, c: Cursor, swap: bool): (w: Went)
    requires CursorOk(file, c)
    ensures CursorOk(file, w.c) && (w.next.Trace? ==> |w.next.header| == HEADER_SIZE && w.c.at >= c.at + HEADER_SIZE)
  {
    var got := Take(file, delivery, c, HEADER_SIZE);
    if got.None? then Went(Failed, c)
    else if got.value.at - c.at < HEADER_SIZE then Went(End, got.value)
    else
      var header := file[c.at..c.at + HEADER_SIZE];
      if !MagicOk(header, swap) then Went(Failed, got.value)
      else
        var len := PayloadLen(header, swap);
        var dropped := Take(file, delivery, got.value, len);
        if dropped.None? || dropped.value.at - got.value.at != len then Went(Failed, got.value)
        else Went(Trace(header), dropped.value)
  }

  /** What the loop handles, and its verdict, from a cursor on. */
  function LoadFrom(file: seq<Byte>, delivery: Delivery, c: Cursor, swap: bool): Parsed
    requires CursorOk(file, c)
    decreases |file| - c.at
  {
    var w := Round(file, delivery, c, swap);
    match w.next
    case End => Parsed([], true)
    case Failed => Parsed([], false)
    case Trace(header) =>
      var rest := LoadFrom(file, delivery, w.c, swap);
      Parsed([header] + rest.headers, rest.ok)
  }

  lemma LoadStep(file: seq<Byte>, delivery: Delivery, c: Cursor, swap: bool)
    requires CursorOk(file, c)
    ensures var w := Round(file, delivery, c, swap);
      LoadFrom(file, delivery, c, swap) ==
      if w.next.Trace? then
        var rest := LoadFrom(file, delivery, w.c, swap);
        Parsed([w.next.header] + rest.headers, rest.ok)
      else
        Parsed([], w.next.End?)
  {
    hide Round;
  }

  // ---------------------------------------------------------------- what a load means

  /** A round that delivers a trace delivers the one the file has there. */
  lemma RoundIsFirst(file: seq<Byte>, delivery: Delivery, c: Cursor, swap: bool)
    requires CursorOk(file, c) && Round(file, delivery, c, swap).next.Trace?
    ensures var w := Round(file, delivery, c, swap);
      w.next == First(file[c.at..], swap) && w.c.at == c.at + HEADER_SIZE + PayloadLen(w.next.header, swap)
  {
    hide MagicOk, PayloadLen;
    var rest := file[c.at..];
    assert rest[..HEADER_SIZE] == file[c.at..c.at + HEADER_SIZE];
  }

  /** Whatever the reads deliver, the traces handled are a prefix of those in the file. A success is the whole file
      if and only if fewer bytes than a header are left behind them. */
  lemma {:induction false} LoadIsPrefix(file: seq<Byte>, delivery: Delivery, c: Cursor, swap: bool)
    requires CursorOk(file, c)
    ensures var p, q := LoadFrom(file, delivery, c, swap), Parse(file[c.at..], swap);
      && p.headers <= q.headers && (forall h :: h in p.headers ==> |h| == HEADER_SIZE)
      && (p.ok ==> (p == q <==> |file| - c.at - Extent(p.headers, swap) < HEADER_SIZE))
    decreases |file| - c.at
  {
    hide Round, LoadFrom, First, Parse, PayloadLen;
    ParseFrom(file, c.at, swap);
    NothingParsed(file[c.at..], swap);
    LoadStep(file, delivery, c, swap);
    var w := Round(file, delivery, c, swap);
    if w.next.Trace? {
      RoundIsFirst(file, delivery, c, swap);
      LoadIsPrefix(file, delivery, w.c, swap);
      OneMore(w.next.header, LoadFrom(file, delivery, w.c, swap), Parse(file[w.c.at..], swap), swap);
    }
  }

  lemma OneMore(h: seq<Byte>, p: Parsed, q: Parsed, swap: bool)
    requires |h| == HEADER_SIZE && p.headers <= q.headers && forall g :: g in p.headers ==> |g| == HEADER_SIZE
    ensures var hs := [h] + p.headers;
      && (forall g :: g in hs ==> |g| == HEADER_SIZE) && hs <= [h] + q.headers
      && Extent(hs, swap) == HEADER_SIZE + PayloadLen(h, swap) + Extent(p.headers, swap)
      && (Parsed(hs, p.ok) == Parsed([h] + q.headers, q.ok) <==> p == q)
  {
    hide PayloadLen;
    var hs, qs := [h] + p.headers, [h] + q.headers;
    assert hs[1..] == p.headers && qs[1..] == q.headers;
  }

  /** Every read from `k` to `i` succeeds. */
  ghost predicate AllSucceed(delivery: Delivery, k: nat, i: nat) {
    forall j: nat :: k <= j <= i ==> delivery(j).Some?
  }

  /** From read `k` on, every read up to the first failing one brings at least a header. */
  ghost predicate HeaderEach(delivery: Delivery, k: nat) {
    forall i: nat :: k <= i && AllSucceed(delivery, k, i) ==> delivery(i).value >= HEADER_SIZE
  }

  /** Taking bytes makes at most one read, which succeeds. */
  lemma TakeReads(file: seq<Byte>, delivery: Delivery, c: Cursor, len: nat)
    requires CursorOk(file, c) && Take(file, delivery, c, len).Some? && HeaderEach(delivery, c.calls)
    ensures HeaderEach(delivery, Take(file, delivery, c, len).value.calls)
  {
    var c' := Take(file, delivery, c, len).value;
    if c'.calls == c.calls + 1 {
      forall i: nat | c'.calls <= i && AllSucceed(delivery, c'.calls, i) ensures delivery(i).value >= HEADER_SIZE {
        assert AllSucceed(delivery, c.calls, i);
      }
    }
  }

  lemma RoundReads(file: seq<Byte>, delivery: Delivery, c: Cursor, swap: bool)
    requires CursorOk(file, c) && Round(file, delivery, c, swap).next.Trace? && HeaderEach(delivery, c.calls)
    ensures HeaderEach(delivery, Round(file, delivery, c, swap).c.calls)
  {
    hide Take, MagicOk, PayloadLen, HeaderEach;
    var got := Take(file, delivery, c, HEADER_SIZE).value;
    TakeReads(file, delivery, c, HEADER_SIZE);
    TakeReads(file, delivery, got, PayloadLen(file[c.at..c.at + HEADER_SIZE], swap));
  }

  /** When the next read brings at least a header, the loop only ends where the file does. */
  lemma EndIsEnd(file: seq<Byte>, delivery: Delivery, c: Cursor, swap: bool)
    requires CursorOk(file, c) && Round(file, delivery, c, swap).next.End? && HeaderEach(delivery, c.calls)
    ensures |file| - c.at < HEADER_SIZE
  {
    hide MagicOk, PayloadLen;
    assert AllSucceed(delivery, c.calls, c.calls);
  }

  /** With reads of at least a header each, a success stands for the whole file. */
  lemma {:induction false} SuccessIsAll(file: seq<Byte>, delivery: Delivery, c: Cursor, swap: bool)
    requires CursorOk(file, c) && HeaderEach(delivery, c.calls) && LoadFrom(file, delivery, c, swap).ok
    ensures LoadFrom(file, delivery, c, swap) == Parse(file[c.at..], swap)
    decreases |file| - c.at
  {
    hide Round, First, Parse, PayloadLen, HeaderEach;
    ParseFrom(file, c.at, swap);
    NothingParsed(file[c.at..], swap);
    var w := Round(file, delivery, c, swap);
    if w.next.Trace? {
      RoundIsFirst(file, delivery, c, swap);
      RoundReads(file, delivery, c, swap);
      SuccessIsAll(file, delivery, w.c, swap);
    } else {
      EndIsEnd(file, delivery, c, swap);
    }
  }

  // ---------------------------------------------------------------- a file that a short read truncates

  /** Frames that are each exactly what one read brings, from read `k` to read `i`, and one more header. */
  function Fitted(delivery: Delivery, k: nat, i: nat, swap: bool): (frames: seq<Frame>)
    requires k <= i && forall j: nat :: k <= j < i ==> delivery(j).Some? && delivery(j).value >= HEADER_SIZE
    ensures |frames| == i - k + 1
    decreases i - k
  {
    if k == i then [FrameOf(0, swap)]
    else [FrameOf(Min(delivery(k).value, FIFO_SIZE) - HEADER_SIZE, swap)] + Fitted(delivery, k + 1, i, swap)
  }

  lemma {:induction false} FittedOk(delivery: Delivery, k: nat, i: nat, swap: bool)
    requires k <= i && forall j: nat :: k <= j < i ==> delivery(j).Some? && delivery(j).value >= HEADER_SIZE
    ensures forall f :: f in Fitted(delivery, k, i, swap) ==> WellFormed(f, swap) && |f.payload| <= FIFO_SIZE
    ensures |Written(Fitted(delivery, k, i, swap))| >= HEADER_SIZE
    decreases i - k
  {
    hide WellFormed, FrameOf;
    if k == i {
      FrameOfOk(0, swap);
      FrameSize(FrameOf(0, swap), swap);
    } else {
      FittedOk(delivery, k + 1, i, swap);
      FrameOfOk(Min(delivery(k).value, FIFO_SIZE) - HEADER_SIZE, swap);
      assert Fitted(delivery, k, i, swap)[1..] == Fitted(delivery, k + 1, i, swap);
    }
  }

  lemma FrameSize(f: Frame, swap: bool)
    requires WellFormed(f, swap)
    ensures |f.header| == HEADER_SIZE
  {
  }

  /** With an empty FIFO, a read that brings exactly the next frame yields its trace and leaves the FIFO empty. */
  lemma ExactRead(file: seq<Byte>, delivery: Delivery, c: Cursor, f: Frame, rest: seq<Byte>, swap: bool)
    requires CursorOk(file, c) && c.at == c.pos && file[c.at..] == f.header + f.payload + rest
    requires WellFormed(f, swap) && HEADER_SIZE + |f.payload| <= FIFO_SIZE
    requires delivery(c.calls).Some? && Min(delivery(c.calls).value, FIFO_SIZE) == HEADER_SIZE + |f.payload|
    ensures var n := c.at + HEADER_SIZE + |f.payload|;
      Round(file, delivery, c, swap) == Went(Trace(f.header), Cursor(n, n, c.calls + 1)) && file[n..] == rest
  {
    hide MagicOk, PayloadLen;
    var tail := file[c.at..];
    assert tail[..HEADER_SIZE] == f.header && tail[HEADER_SIZE + |f.payload|..] == rest;
    assert file[c.at..c.at + HEADER_SIZE] == tail[..HEADER_SIZE];
    assert file[c.at + HEADER_SIZE + |f.payload|..] == tail[HEADER_SIZE + |f.payload|..];
  }

  /** The loader handles all of those frames but the last, which the short read cuts off, and reports success. */
  lemma {:induction false} Truncates(
    file: seq<Byte>, delivery: Delivery, c: Cursor, k: nat, i: nat, swap: bool)
    requires k <= i && forall j: nat :: k <= j < i ==> delivery(j).Some? && delivery(j).value >= HEADER_SIZE
    requires delivery(i).Some? && delivery(i).value < HEADER_SIZE
    requires CursorOk(file, c) && c.at == c.pos && c.calls == k
    requires file[c.at..] == Written(Fitted(delivery, k, i, swap))
    ensures LoadFrom(file, delivery, c, swap).ok && |LoadFrom(file, delivery, c, swap).headers| == i - k
    decreases i - k
  {
    hide WellFormed, FrameOf, MagicOk, PayloadLen;
    FittedOk(delivery, k, i, swap);
    if k < i {
      var frames := Fitted(delivery, k, i, swap);
      var f, rest := frames[0], Written(frames[1..]);
      assert f in frames && frames[1..] == Fitted(delivery, k + 1, i, swap);
      FrameOfOk(Min(delivery(k).value, FIFO_SIZE) - HEADER_SIZE, swap);
      ExactRead(file, delivery, c, f, rest, swap);
      hide Round;
      Truncates(file, delivery, Round(file, delivery, c, swap).c, k + 1, i, swap);
    }
  }

  /** The first read of fewer bytes than a header. */
  lemma {:induction false} FirstShort(delivery: Delivery, i: nat) returns (m: nat)
    requires AllSucceed(delivery, 0, i) && delivery(i).value < HEADER_SIZE
    ensures m <= i && AllSucceed(delivery, 0, m) && delivery(m).value < HEADER_SIZE
    ensures forall j: nat :: 0 <= j < m ==> delivery(j).Some? && delivery(j).value >= HEADER_SIZE
  {
    if j: nat :| j < i && delivery(j).value < HEADER_SIZE {
      assert AllSucceed(delivery, 0, j);
      m := FirstShort(delivery, j);
    } else {
      m := i;
    }
  }

  /** No file is reported as loaded when only part of it was. */
  ghost predicate NeverTruncates(delivery: Delivery, swap: bool) {
    forall file: seq<Byte> :: LoadFrom(file, delivery, START, swap).ok ==>
      LoadFrom(file, delivery, START, swap) == Parse(file, swap)
  }

  lemma FittedTruncates(delivery: Delivery, i: nat, swap: bool, file: seq<Byte>)
    requires forall j: nat :: j < i ==> delivery(j).Some? && delivery(j).value >= HEADER_SIZE
    requires delivery(i).Some? && delivery(i).value < HEADER_SIZE && file == Written(Fitted(delivery, 0, i, swap))
    ensures LoadFrom(file, delivery, START, swap).ok && |LoadFrom(file, delivery, START, swap).headers| == i
    ensures Parse(file, swap).ok && |Parse(file, swap).headers| == i + 1
  {
    hide LoadFrom, Parse, WellFormed;
    var frames := Fitted(delivery, 0, i, swap);
    assert file[0..] == file;
    FittedOk(delivery, 0, i, swap);
    Truncates(file, delivery, START, 0, i, swap);
    ParseWritten(frames, swap);
    assert frames[..|frames|] == frames;
    HeadersCount(frames);
  }

  /** A short read before any failing one truncates some file silently. */
  lemma ShortReadTruncates(delivery: Delivery, i: nat, swap: bool) returns (file: seq<Byte>)
    requires AllSucceed(delivery, 0, i) && delivery(i).value < HEADER_SIZE
    ensures LoadFrom(file, delivery, START, swap).ok
    ensures LoadFrom(file, delivery, START, swap) != Parse(file, swap) && Parse(file, swap).ok
  {
    hide LoadFrom, Parse, Fitted, Written;
    var m := FirstShort(delivery, i);
    file := Written(Fitted(delivery, 0, m, swap));
    FittedTruncates(delivery, m, swap, file);
  }

  lemma {:induction false} HeadersCount(frames: seq<Frame>)
    ensures |Headers(frames)| == |frames|
  {
    if frames != [] {
      HeadersCount(frames[1..]);
    }
  }

  /** No file is ever truncated silently if and only if every read up to the first failing one brings at least a
      header. */
  lemma SuccessExactly(delivery: Delivery, swap: bool)
    ensures NeverTruncates(delivery, swap) <==> HeaderEach(delivery, 0)
  {
    hide LoadFrom, Parse;
    if HeaderEach(delivery, 0) {
      forall file: seq<Byte> | LoadFrom(file, delivery, START, swap).ok
        ensures LoadFrom(file, delivery, START, swap) == Parse(file, swap)
      {
        assert file[0..] == file;
        SuccessIsAll(file, delivery, START, swap);
      }
    } else {
      var i: nat :| AllSucceed(delivery, 0, i) && delivery(i).value < HEADER_SIZE;
      var file := ShortReadTruncates(delivery, i, swap);
    }
  }

  /** Every read fills what it was asked for. */
  ghost predicate FullReads(delivery: Delivery) {
    forall i: nat :: delivery(i).Some? && delivery(i).value >= FIFO_SIZE
  }

  lemma RoundFull(file: seq<Byte>, delivery: Delivery, c: Cursor, swap: bool)
    requires CursorOk(file, c) && FullReads(delivery)
    ensures Round(file, delivery, c, swap).next == First(file[c.at..], swap)
  {
    hide MagicOk, PayloadLen;
    var rest := file[c.at..];
    if |rest| >= HEADER_SIZE {
      assert rest[..HEADER_SIZE] == file[c.at..c.at + HEADER_SIZE];
    }
  }

  /** With full reads the loader handles exactly what the file holds. */
  lemma {:induction false} FullIsAll(file: seq<Byte>, delivery: Delivery, c: Cursor, swap: bool)
    requires CursorOk(file, c) && FullReads(delivery)
    ensures LoadFrom(file, delivery, c, swap) == Parse(file[c.at..], swap)
    decreases |file| - c.at
  {
    hide Round, First, Parse, PayloadLen, FullReads;
    ParseFrom(file, c.at, swap);
    RoundFull(file, delivery, c, swap);
    if Round(file, delivery, c, swap).next.Trace? {
      RoundIsFirst(file, delivery, c, swap);
      FullIsAll(file, delivery, Round(file, delivery, c, swap).c, swap);
    }
  }

  /** All of it, for a load from the start of the file. */
  lemma LoadMeans(file: seq<Byte>, delivery: Delivery, c: Cursor, swap: bool)
    requires CursorOk(file, c) && c.at == 0
    ensures var p, q := LoadFrom(file, delivery, c, swap), Parse(file, swap);
      && p.headers <= q.headers && (forall h :: h in p.headers ==> |h| == HEADER_SIZE)
      && (FullReads(delivery) ==> p == q) && (HeaderEach(delivery, c.calls) && p.ok ==> p == q)
      && (p.ok ==> (p == q <==> |file| - Extent(p.headers, swap) < HEADER_SIZE))
  {
    hide LoadFrom, Parse, FullReads, HeaderEach, Extent;
    assert file[0..] == file;
    LoadIsPrefix(file, delivery, c, swap);
    if FullReads(delivery) {
      FullIsAll(file, delivery, c, swap);
    }
    if HeaderEach(delivery, c.calls) && LoadFrom(file, delivery, c, swap).ok {
      SuccessIsAll(file, delivery, c, swap);
    }
  }

  // ---------------------------------------------------------------- the loader in place

  class Reader {
    const file: seq<Byte>
    const delivery: Delivery
    const fifo: Queue
    var calls: nat
    var pos: nat
    ghost var consumed: seq<Byte>    // every byte taken from the FIFO so far, discarded ones included

    ghost predicate Valid()
      reads this, fifo, fifo.buffer
    {
      && fifo.Valid() && fifo.size == FIFO_SIZE && pos <= |file|
      && consumed + fifo.Contents() == file[..pos]
    }

    ghost function Cur(): Cursor
      reads this
    {
      Cursor(|consumed|, pos, calls)
    }

    constructor (file: seq<Byte>, delivery: Delivery)
      ensures Valid() && fresh(fifo) && fresh(fifo.buffer)
      ensures this.file == file && this.delivery == delivery && consumed == [] && Cur() == START
    {
      this.file, this.delivery, calls, pos, consumed := file, delivery, 0, 0, [];
      assert Pow2(8) == 256;
      fifo := new Queue(13, FIFO_SIZE);
    }

    /** The bytes consumed are always a prefix of the file, and the FIFO holds what follows them. */
    lemma Position()
      requires Valid()
      ensures |consumed| + fifo.Len() == pos && consumed == file[..|consumed|]
      ensures fifo.Contents() == file[|consumed|..pos] && CursorOk(file, Cur())
    {
      hide Circular, Pow2, Wrap32, Mod;
      var c := consumed + fifo.Contents();
      assert consumed == c[..|consumed|] && fifo.Contents() == c[|consumed|..];
    }

    /** refill_fifo: one read of as much as fits; every byte delivered is stored. */
    method Refill() returns (ret: int)
      requires Valid()
      modifies this, fifo, fifo.buffer
      ensures Valid() && consumed == old(consumed)
      ensures ret == if delivery(old(calls)).None? then -1
                     else Min(delivery(old(calls)).value, Min(FIFO_SIZE - old(fifo.Len()), |file| - old(pos)))
      ensures pos == old(pos) + (if ret < 0 then 0 else ret) && calls == old(calls) + 1
    {
      hide Circular, Pow2, Wrap32, Mod;
      Position();
      fifo.RoomIsRest();
      var total := FIFO_SIZE;
      if total > fifo.Room() {
        total := fifo.Room();
      }
      var delivered := delivery(calls);
      calls := calls + 1;
      if delivered.None? {
        return -1;
      }
      ret := Min(delivered.value, Min(total, |file| - pos));
      if ret > 0 {
        var data := file[pos..pos + ret];
        pos := pos + ret;
        var n := fifo.Put(data);
        assert data[..n] == data;
        ret := n;
      }
    }

    /** trace_fifo_get: takes exactly the next bytes of the file that are asked for and at hand after at most one
        read. */
    method TraceGet(len: nat, discard: bool) returns (ret: int, data: seq<Byte>)
      requires Valid() && len < U32
      modifies this, fifo, fifo.buffer
      ensures Valid() && CursorOk(file, old(Cur()))
      ensures Take(file, delivery, old(Cur()), len) == if ret < 0 then None else Some(Cur())
      ensures ret < 0 <==> old(fifo.Len()) < len && delivery(old(calls)).None?
      ensures ret < 0 ==> consumed == old(consumed) && pos == old(pos) && data == []
      ensures ret <= Min(len, Min(FIFO_SIZE, |file| - |old(consumed)|))
      ensures ret >= 0 ==> consumed == old(consumed) + file[|old(consumed)|..|old(consumed)| + ret]
      ensures ret >= 0 ==> data == if discard then [] else file[|old(consumed)|..|old(consumed)| + ret]
    {
      hide Circular, Pow2, Wrap32, Mod;
      Position();
      data := [];
      if fifo.Len() < len {
        ret := Refill();
        Position();
        if ret < 0 {
          return ret, [];
        }
      }
      ghost var held := fifo.Contents();
      var n, got := fifo.Get(len, discard);
      consumed := consumed + held[..n];
      Consumed(old(consumed), held, n);
      ret, data := n, got;
    }

    lemma Consumed(was: seq<Byte>, held: seq<Byte>, n: nat)
      requires n <= |held| && pos <= |file| && was + held == file[..pos]
      ensures (was + held[..n]) + held[n..] == file[..pos]
      ensures |was| + |held| == pos && held[..n] == file[|was|..|was| + n]
    {
      assert held == file[|was|..pos];
    }

    /** discard_pdu. */
    method DiscardPayload(len: nat) returns (ret: int)
      requires Valid() && len < U32
      modifies this, fifo, fifo.buffer
      ensures Valid() && CursorOk(file, old(Cur()))
      ensures Take(file, delivery, old(Cur()), len) == if ret < 0 then None else Some(Cur())
      ensures ret < 0 ==> consumed == old(consumed) && pos == old(pos)
      ensures ret <= Min(len, Min(FIFO_SIZE, |file| - |old(consumed)|))
      ensures ret >= 0 ==> consumed == old(consumed) + file[|old(consumed)|..|old(consumed)| + ret]
    {
      hide Circular, Pow2, Wrap32, Mod;
      Position();
      if len == 0 {
        return 0;
      }
      var n, _ := TraceGet(len, true);
      ret := n;
    }

    /** One round of the loop. */
    method NextTrace(swap: bool) returns (r: Next)
      requires Valid()
      modifies this, fifo, fifo.buffer
      ensures Valid() && CursorOk(file, old(Cur())) && CursorOk(file, Cur())
      ensures r == Round(file, delivery, old(Cur()), swap).next
      ensures r.Trace? ==> Cur() == Round(file, delivery, old(Cur()), swap).c
    {
      hide Circular, Pow2, Wrap32, Mod, MagicOk, PayloadLen, Take;
      Position();
      var ret, header := TraceGet(HEADER_SIZE, false);
      Position();
      if ret < HEADER_SIZE {
        return if ret < 0 then Failed else End;
      }
      if !MagicOk(header, swap) {
        return Failed;
      }
      var len := PayloadLen(header, swap);
      var dropped := DiscardPayload(len);
      Position();
      return if dropped == len then Trace(header) else Failed;
    }

    /**
     * The loop of load_blktrace: whatever the reads deliver, the traces handled are a prefix of those in the file; they
     * are all of them, with the same verdict, when every read is full; and a success is the whole file when every read
     * up to the first failing one brings at least a header.
     */
    method Load(swap: bool) returns (headers: seq<seq<Byte>>, ok: bool)
      requires Valid() && consumed == []
      modifies this, fifo, fifo.buffer
      ensures Valid() && CursorOk(file, old(Cur()))
      ensures Parsed(headers, ok) == LoadFrom(file, delivery, old(Cur()), swap)
      ensures headers <= Parse(file, swap).headers
      ensures FullReads(delivery) ==> Parsed(headers, ok) == Parse(file, swap)
      ensures HeaderEach(delivery, old(calls)) && ok ==> Parsed(headers, ok) == Parse(file, swap)
      ensures forall h :: h in headers ==> |h| == HEADER_SIZE
      ensures ok ==> (Parsed(headers, ok) == Parse(file, swap) <==> |file| - Extent(headers, swap) < HEADER_SIZE)
    {
      hide Circular, Pow2, Wrap32, Mod, Round, LoadFrom, Parse, PayloadLen, FullReads, HeaderEach, Extent;
      Position();
      LoadMeans(file, delivery, Cur(), swap);
      headers := [];
      while true
        invariant Valid() && CursorOk(file, Cur())
        invariant var rest := LoadFrom(file, delivery, Cur(), swap);
          LoadFrom(file, delivery, old(Cur()), swap) == Parsed(headers + rest.headers, rest.ok)
        decreases |file| - |consumed|
      {
        LoadStep(file, delivery, Cur(), swap);
        var next := NextTrace(swap);
        if !next.Trace? {
          return headers, next.End?;
        }
        headers := headers + [next.header];
      }
    }
  }

  /** A file, for given reads of which the one numbered `i` is the first shorter than a header, that is loaded only
      in part and reported as a success. */
  method TruncatedLoad(delivery: Delivery, i: nat, swap: bool)
    returns (file: seq<Byte>, headers: seq<seq<Byte>>, ok: bool)
    requires forall j: nat :: j < i ==> delivery(j).Some? && delivery(j).value >= HEADER_SIZE
    requires delivery(i).Some? && delivery(i).value < HEADER_SIZE
    ensures ok && Parse(file, swap).ok && |Parse(file, swap).headers| == |headers| + 1
  {
    file := Written(Fitted(delivery, 0, i, swap));
    FittedTruncates(delivery, i, swap, file);
    hide Parse, LoadFrom, Fitted, Written;
    var reader := new Reader(file, delivery);
    headers, ok := reader.Load(swap);
  }
}
