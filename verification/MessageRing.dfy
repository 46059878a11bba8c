/** The byte ring of a message buffer (kernel/tkernel/src/messagebuf.c:104-198): messages
    behind four-byte headers, each rounded up to a header boundary, wrapping around. */
module MessageRing {

  type Byte = b: int | 0 <= b < 256

  const HEADERSZ := 4
  const INT_LIMIT := 0x8000_0000

  /** A message, and which send call it is from. */
  datatype Msg = Msg(data: seq<Byte>, call: nat)

  /** ROUNDSZ */
  function RoundSz(sz: int): int {
    sz + (HEADERSZ - 1) - (sz + (HEADERSZ - 1)) % HEADERSZ
  }

  /** The room that a message takes. */
  function Space(m: Msg): int {
    HEADERSZ + RoundSz(|m.data|)
  }

  function Bytes(msgs: seq<Msg>): (n: int)
    ensures n >= HEADERSZ * |msgs| && n % HEADERSZ == 0
  {
    if msgs == [] then 0 else Space(msgs[0]) + Bytes(msgs[1..])
  }

  lemma {:induction false} BytesMore(a: seq<Msg>, b: seq<Msg>)
    ensures Bytes(a + b) == Bytes(a) + Bytes(b)
  {
    if a == [] {
      assert a + b == b;
    } else {
      BytesMore(a[1..], b);
      assert (a + b)[1..] == a[1..] + b;
    }
  }

  /** tk_cre_mbf rounds the size up; the result is an INT. */
  function CreatedSize(bufsz: int): int {
    var r := RoundSz(bufsz) % 0x1_0000_0000;
    if r >= INT_LIMIT then r - 0x1_0000_0000 else r
  }

  /** The buffer has the size asked for exactly when rounding stays below the sign bit. */
  lemma CreatedSizeOk(bufsz: int)
    requires 0 <= bufsz < INT_LIMIT
    ensures CreatedSize(bufsz) >= bufsz <==> bufsz <= INT_LIMIT - HEADERSZ
    ensures bufsz <= INT_LIMIT - HEADERSZ ==>
              && CreatedSize(bufsz) % HEADERSZ == 0
              && CreatedSize(bufsz) < bufsz + HEADERSZ
    ensures bufsz > INT_LIMIT - HEADERSZ ==> CreatedSize(bufsz) < 0
  {
  }

  // ---- the header word, most significant byte first ----

  function Header(n: int): (h: seq<Byte>)
    requires 0 <= n < INT_LIMIT
    ensures |h| == HEADERSZ
  {
    [n / 0x100_0000, n / 0x1_0000 % 0x100, n / 0x100 % 0x100, n % 0x100]
  }

  function HeaderValue(h: seq<Byte>): int
    requires |h| == HEADERSZ
  {
    var a: int, b: int, c: int, d: int := h[0], h[1], h[2], h[3];
    ((a * 0x100 + b) * 0x100 + c) * 0x100 + d
  }

  lemma HeaderRoundTrip(n: int)
    requires 0 <= n < INT_LIMIT
    ensures HeaderValue(Header(n)) == n
  {
    var a, b := n / 0x100, n / 0x1_0000;
    assert a / 0x100 == b && b / 0x100 == n / 0x100_0000;
    assert n == a * 0x100 + n % 0x100 && a == b * 0x100 + a % 0x100 && b == b / 0x100 * 0x100 + b % 0x100;
  }

  // ---- positions on the ring ----

  /** k bytes after at. */
  function Ix(at: int, k: int, size: int): int {
    if at + k < size then at + k else at + k - size
  }

  /** The n bytes from at on, unrolled. */
  function Unrolled(buf: seq<Byte>, at: int, n: int): (u: seq<Byte>)
    requires 0 <= n <= |buf| && (n > 0 ==> 0 <= at < |buf|)
    ensures |u| == n
    ensures forall k {:trigger u[k]} :: 0 <= k < n ==> u[k] == buf[Ix(at, k, |buf|)]
  {
    seq(n, k requires 0 <= k < n => buf[Ix(at, k, |buf|)])
  }

  /** u starts with the message and its header. */
  predicate Starts(u: seq<Byte>, m: Msg) {
    && |m.data| < INT_LIMIT && Space(m) <= |u|
    && u[..HEADERSZ] == Header(|m.data|) && u[HEADERSZ..HEADERSZ + |m.data|] == m.data
  }

  /** u is these messages one after another; what rounding left unused does not matter. */
  predicate Stores(u: seq<Byte>, msgs: seq<Msg>) {
    if msgs == [] then u == [] else Starts(u, msgs[0]) && Stores(u[Space(msgs[0])..], msgs[1..])
  }

  lemma {:induction false} StoresMore(u: seq<Byte>, msgs: seq<Msg>, v: seq<Byte>, m: Msg)
    requires Stores(u, msgs) && Starts(v, m) && |v| == Space(m)
    ensures Stores(u + v, msgs + [m])
  {
    if msgs == [] {
      assert u + v == v && msgs + [m] == [m];
      assert v[Space(m)..] == [] && [m][1..] == [];
    } else {
      var n := Space(msgs[0]);
      StoresMore(u[n..], msgs[1..], v, m);
      assert (u + v)[n..] == u[n..] + v;
      assert (msgs + [m])[1..] == msgs[1..] + [m];
      assert (u + v)[..HEADERSZ] == u[..HEADERSZ];
      assert (u + v)[HEADERSZ..HEADERSZ + |msgs[0].data|] == u[HEADERSZ..HEADERSZ + |msgs[0].data|];
    }
  }

  lemma {:induction false} StoresSize(u: seq<Byte>, msgs: seq<Msg>)
    requires Stores(u, msgs)
    ensures |u| == Bytes(msgs)
  {
    if msgs != [] { StoresSize(u[Space(msgs[0])..], msgs[1..]); }
  }

  /** What the stored bytes say determines the messages. */
  lemma {:induction false} StoresOnce(u: seq<Byte>, a: seq<Msg>, b: seq<Msg>)
    requires Stores(u, a) && Stores(u, b)
    ensures |a| == |b| && forall i :: 0 <= i < |a| ==> a[i].data == b[i].data
  {
    if a != [] && b != [] {
      HeaderRoundTrip(|a[0].data|);
      HeaderRoundTrip(|b[0].data|);
      StoresOnce(u[Space(a[0])..], a[1..], b[1..]);
      forall i | 0 <= i < |a| ensures a[i].data == b[i].data {
        if i > 0 { assert a[i] == a[1..][i - 1] && b[i] == b[1..][i - 1]; }
      }
    }
  }

  // ---- the buffer ----

  /** The control block and the buffer hold exactly these messages. */
  ghost predicate RingOk(buf: seq<Byte>, frbufsz: int, head: int, tail: int, msgs: seq<Msg>) {
    var bufsz := |buf|;
    && bufsz < INT_LIMIT && bufsz % HEADERSZ == 0
    && 0 <= frbufsz <= bufsz && frbufsz % HEADERSZ == 0
    && head % HEADERSZ == 0 && tail % HEADERSZ == 0
    && (bufsz == 0 ==> head == tail == 0)
    && (bufsz > 0 ==> 0 <= head < bufsz && tail == Ix(head, bufsz - frbufsz, bufsz))
    && frbufsz == bufsz - Bytes(msgs)
    && Stores(Unrolled(buf, head, bufsz - frbufsz), msgs)
  }

  /** What every state of the buffer keeps: multiples of the header size, and the tail
      as far behind the head as bytes are in use, modulo the size. */
  lemma RingShape(buf: seq<Byte>, frbufsz: int, head: int, tail: int, msgs: seq<Msg>)
    requires RingOk(buf, frbufsz, head, tail, msgs)
    ensures head % HEADERSZ == 0 && tail % HEADERSZ == 0 && |buf| % HEADERSZ == 0 && frbufsz % HEADERSZ == 0
    ensures |buf| > 0 ==> tail == (head + |buf| - frbufsz) % |buf|
    ensures frbufsz == |buf| <==> msgs == []
  {
    if |buf| > 0 { NextPosition(head, |buf| - frbufsz, |buf|); }
  }

  /** Room for the size before rounding is room for the rounded message. */
  lemma FreeIsEnough(buf: seq<Byte>, frbufsz: int, head: int, tail: int, msgs: seq<Msg>, msgsz: int)
    requires RingOk(buf, frbufsz, head, tail, msgs)
    ensures HEADERSZ + msgsz <= frbufsz <==> HEADERSZ + RoundSz(msgsz) <= frbufsz
  {
    hide Stores, Unrolled, Bytes, Ix;
  }

  lemma TailInside(buf: seq<Byte>, frbufsz: int, head: int, tail: int, msgs: seq<Msg>)
    requires RingOk(buf, frbufsz, head, tail, msgs) && |buf| > 0
    ensures 0 <= tail && tail + HEADERSZ <= |buf| && tail % HEADERSZ == 0 && |buf| % HEADERSZ == 0 && |buf| < INT_LIMIT
    ensures Ix(tail, HEADERSZ, |buf|) == (if tail + HEADERSZ >= |buf| then 0 else tail + HEADERSZ)
    ensures Ix(tail, HEADERSZ, |buf|) % HEADERSZ == 0
  {
    hide Stores, Unrolled, Bytes, Ix;
    Further(head, |buf| - frbufsz, |buf|);
    Further(tail, HEADERSZ, |buf|);
  }

  lemma RingAppended(b0: seq<Byte>, b2: seq<Byte>, frbufsz: int, head: int, tail: int, msgs: seq<Msg>, m: Msg)
    requires RingOk(b0, frbufsz, head, tail, msgs) && 0 < |m.data| < INT_LIMIT && Space(m) <= frbufsz
    requires Written(b0, b2, tail, Header(|m.data|) + m.data)
    ensures RingOk(b2, frbufsz - Space(m), head, Ix(Ix(tail, HEADERSZ, |b0|), RoundSz(|m.data|), |b0|), msgs + [m])
  {
    hide Stores, Unrolled, Bytes, Ix, Header;
    var n, size := |b0| - frbufsz, |b0|;
    RoundFacts(|m.data|);
    assert Space(m) % HEADERSZ == 0;
    Appended(b0, b2, head, n, m, msgs);
    BytesMore(msgs, [m]);
    BytesFirst([m]);
    IxAdd(head, n, HEADERSZ, size);
    IxAdd(head, n + HEADERSZ, RoundSz(|m.data|), size);
    Further(head, n + Space(m), size);
  }

  lemma RingFirst(buf: seq<Byte>, frbufsz: int, head: int, tail: int, msgs: seq<Msg>)
    requires RingOk(buf, frbufsz, head, tail, msgs) && msgs != []
    ensures var m := msgs[0];
            && 0 <= head && head + HEADERSZ <= |buf| && |m.data| < INT_LIMIT && Space(m) <= |buf| - frbufsz
            && buf[head..head + HEADERSZ] == Header(|m.data|)
            && head % HEADERSZ == 0 && |buf| % HEADERSZ == 0
            && Ix(head, HEADERSZ, |buf|) == (if head + HEADERSZ >= |buf| then 0 else head + HEADERSZ)
            && Ix(head, HEADERSZ, |buf|) % HEADERSZ == 0
            && Starts(Unrolled(buf, head, |buf| - frbufsz), m)
  {
    hide Unrolled, Bytes, Ix, Header, Starts;
    var n, m := |buf| - frbufsz, msgs[0];
    RoundFacts(|m.data|);
    BytesFirst(msgs);
    StoresFirst(Unrolled(buf, head, n), msgs);
    HeaderAt(buf, head, n, m);
    Further(head, HEADERSZ, |buf|);
  }

  lemma RingDropped(buf: seq<Byte>, frbufsz: int, head: int, tail: int, msgs: seq<Msg>)
    requires RingOk(buf, frbufsz, head, tail, msgs) && msgs != [] && |buf| > 0
    ensures var m := msgs[0];
            RingOk(buf, frbufsz + Space(m), Ix(Ix(head, HEADERSZ, |buf|), RoundSz(|m.data|), |buf|), tail, msgs[1..])
  {
    hide Unrolled, Bytes, Ix, Header, Starts;
    var n, m, size := |buf| - frbufsz, msgs[0], |buf|;
    RoundFacts(|m.data|);
    BytesFirst(msgs);
    StoresFirst(Unrolled(buf, head, n), msgs);
    IxAdd(head, HEADERSZ, RoundSz(|m.data|), size);
    Further(head, Space(m), size);
    Dropped(buf, head, n, Space(m));
  }

  class Ring {
    const buffer: array<Byte>
    const bufsz: int
    var frbufsz: int
    var head: int
    var tail: int
    ghost var msgs: seq<Msg>    // what it holds, oldest first

    ghost predicate Valid()
      reads this, buffer
    {
      buffer.Length == bufsz && RingOk(buffer[..], frbufsz, head, tail, msgs)
    }

    /** The part of tk_cre_mbf that sets up the buffer. */
    constructor (size: int)
      requires 0 <= size <= INT_LIMIT - HEADERSZ
      ensures Valid() && msgs == [] && bufsz == CreatedSize(size) && fresh(buffer)
    {
      CreatedSizeOk(size);
      var n := CreatedSize(size);
      buffer := new Byte[n];
      bufsz, frbufsz, head, tail, msgs := n, n, 0, 0, [];
    }

    /** mbf_free: the test is on the size before rounding, and the rounded message fits. */
    method MbfFree(msgsz: int) returns (free: bool)
      requires Valid() && 0 <= msgsz
      ensures free <==> HEADERSZ + RoundSz(msgsz) <= bufsz - Bytes(msgs)
    {
      hide Stores, Unrolled, Bytes, Ix, RoundSz;
      FreeIsEnough(buffer[..], frbufsz, head, tail, msgs, msgsz);
      free := HEADERSZ + msgsz <= frbufsz;
    }

    /** mbf_empty */
    method MbfEmpty() returns (empty: bool)
      requires Valid()
      ensures empty <==> msgs == []
    {
      RingShape(buffer[..], frbufsz, head, tail, msgs);
      empty := frbufsz == bufsz;
    }

    method MemCpy(at: int, src: seq<Byte>)
      requires 0 <= at && at + |src| <= buffer.Length
      modifies buffer
      ensures buffer[..] == old(buffer[..at]) + src + old(buffer[at + |src|..])
    {
      forall k | 0 <= k < |src| { buffer[at + k] := src[k]; }
    }

    /** msg_to_mbf: the message goes behind all others. */
    method MsgToMbf(msg: seq<Byte>, ghost call: nat)
      requires Valid() && 0 < |msg| < INT_LIMIT && HEADERSZ + RoundSz(|msg|) <= frbufsz
      modifies this, buffer
      ensures Valid() && msgs == old(msgs) + [Msg(msg, call)]
    {
      hide RingOk, Written, Header, RoundSz, Ix;
      ghost var b0 := buffer[..];
      RoundFacts(|msg|);
      FrBufSz(b0, frbufsz, head, tail, msgs);
      TailInside(b0, frbufsz, head, tail, msgs);
      var t := tail;
      MemCpy(t, Header(|msg|));
      ghost var b1 := buffer[..];
      HeaderWritten(b0, b1, t, Header(|msg|));
      t := t + HEADERSZ;
      if t >= bufsz { t := 0; }
      t := PutBody(t, msg);
      WrittenTwice(b0, b1, buffer[..], tail, Header(|msg|), msg);
      RingAppended(b0, buffer[..], frbufsz, head, tail, msgs, Msg(msg, call));
      frbufsz := frbufsz - (HEADERSZ + RoundSz(|msg|));
      tail := t;
      msgs := msgs + [Msg(msg, call)];
    }

    /** The body is copied in two pieces when it reaches the end of the buffer. */
    method PutBody(t0: int, msg: seq<Byte>) returns (t: int)
      requires bufsz == buffer.Length && bufsz % HEADERSZ == 0 && t0 % HEADERSZ == 0 && 0 <= t0 < bufsz
      requires HEADERSZ + RoundSz(|msg|) <= bufsz
      modifies buffer
      ensures Written(old(buffer[..]), buffer[..], t0, msg)
      ensures t == Ix(t0, RoundSz(|msg|), bufsz)
    {
      hide RoundSz, Written, Ix;
      ghost var b0 := buffer[..];
      BodyEnd(t0, |msg|, bufsz);
      t := t0;
      var rest, msgsz := msg, |msg|;
      var remsz := bufsz - t;
      if remsz < msgsz {
        MemCpy(t, rest[..remsz]);
        rest := rest[remsz..];
        msgsz := msgsz - remsz;
        t := 0;
      }
      assert rest[..msgsz] == rest;
      MemCpy(t, rest[..msgsz]);
      PiecesWritten(b0, buffer[..], t0, msg);
      t := t + RoundSz(msgsz);
      if t >= bufsz { t := 0; }
    }

    /** mbf_to_msg: the oldest message leaves. */
    method MbfToMsg() returns (msg: seq<Byte>, actsz: int)
      requires Valid() && msgs != []
      modifies this
      ensures Valid() && msgs == old(msgs)[1..]
      ensures msg == old(msgs)[0].data && actsz == |msg|
    {
      hide RingOk, Unrolled, Header, HeaderValue, RoundSz, Ix, Starts;
      ghost var b, m := buffer[..], msgs[0];
      RingFirst(b, frbufsz, head, tail, msgs);
      FrBufSz(b, frbufsz, head, tail, msgs);
      RingDropped(b, frbufsz, head, tail, msgs);
      RoundFacts(|m.data|);
      HeaderRoundTrip(|m.data|);
      Behind(b, head);
      var h := head;
      assert buffer[h..h + HEADERSZ] == b[h..h + HEADERSZ];
      var msgsz := HeaderValue(buffer[h..h + HEADERSZ]);
      actsz := msgsz;
      h := h + HEADERSZ;
      if h >= bufsz { h := 0; }
      msg, h := GetBody(h, msgsz);
      BodyAt(b, head, bufsz - frbufsz, m, msg);
      frbufsz := frbufsz + (HEADERSZ + RoundSz(msgsz));
      head := h;
      msgs := msgs[1..];
    }

    /** Copies a body out, in two pieces when it reaches the end of the buffer. */
    method GetBody(h0: int, size: int) returns (msg: seq<Byte>, h: int)
      requires bufsz == buffer.Length && bufsz % HEADERSZ == 0 && h0 % HEADERSZ == 0 && 0 <= h0 < bufsz
      requires 0 <= size && HEADERSZ + RoundSz(size) <= bufsz
      ensures |msg| == size && forall k :: 0 <= k < size ==> msg[k] == buffer[..][Ix(h0, k, bufsz)]
      ensures h == Ix(h0, RoundSz(size), bufsz)
    {
      hide RoundSz, Ix;
      BodyEnd(h0, size, bufsz);
      msg, h := [], h0;
      var msgsz, remsz := size, bufsz - h0;
      if remsz < msgsz {
        msg := buffer[h..h + remsz];
        msgsz := msgsz - remsz;
        h := 0;
      }
      msg := msg + buffer[h..h + msgsz];
      PiecesRead(buffer[..], h0, size, msg);
      h := h + RoundSz(msgsz);
      if h >= bufsz { h := 0; }
    }
  }

  lemma FrBufSz(buf: seq<Byte>, frbufsz: int, head: int, tail: int, msgs: seq<Msg>)
    requires RingOk(buf, frbufsz, head, tail, msgs)
    ensures 0 <= frbufsz <= |buf|
  {
  }

  lemma BytesFirst(msgs: seq<Msg>)
    requires msgs != []
    ensures Bytes(msgs) == Space(msgs[0]) + Bytes(msgs[1..]) && (|msgs| == 1 ==> Bytes(msgs) == Space(msgs[0]))
  {
  }

  lemma StoresFirst(u: seq<Byte>, msgs: seq<Msg>)
    requires msgs != [] && Stores(u, msgs)
    ensures Starts(u, msgs[0]) && Space(msgs[0]) <= |u| && |msgs[0].data| < INT_LIMIT
    ensures Stores(u[Space(msgs[0])..], msgs[1..])
  {
  }

  lemma Further(at: int, k: int, size: int)
    requires 0 <= at < size && 0 <= k <= size
    ensures 0 <= Ix(at, k, size) < size
    ensures at % HEADERSZ == 0 && k % HEADERSZ == 0 && size % HEADERSZ == 0 ==>
              Ix(at, k, size) % HEADERSZ == 0 && at + HEADERSZ <= size
    ensures Ix(at, k, size) == if at + k >= size then at + k - size else at + k
  {
  }

  lemma IxAdd(at: int, j: int, k: int, size: int)
    requires 0 <= at < size && 0 <= j && 0 <= k && j + k <= size
    ensures Ix(Ix(at, j, size), k, size) == Ix(at, j + k, size)
  {
  }

  /** Positions in the body, counted from the message or from the body. */
  lemma Behind(buf: seq<Byte>, head: int)
    requires 0 <= head < |buf| && HEADERSZ <= |buf|
    ensures forall k {:trigger Ix(Ix(head, HEADERSZ, |buf|), k, |buf|)} :: 0 <= k <= |buf| - HEADERSZ ==>
              Ix(Ix(head, HEADERSZ, |buf|), k, |buf|) == Ix(head, HEADERSZ + k, |buf|)
  {
  }

  lemma RoundFacts(sz: int)
    requires sz >= 0
    ensures sz <= RoundSz(sz) < sz + HEADERSZ && RoundSz(sz) % HEADERSZ == 0
  {
  }

  /** Where a body that starts at at ends, for a copy in one piece or in two. */
  lemma BodyEnd(at: int, sz: int, size: int)
    requires 0 <= at < size && 0 <= sz && HEADERSZ + RoundSz(sz) <= size && at % HEADERSZ == 0 && size % HEADERSZ == 0
    ensures var rem := size - at;
            var e := if rem < sz then RoundSz(sz - rem) else at + RoundSz(sz);
            && (rem < sz ==> sz - rem < at)
            && 0 <= e <= size && Ix(at, RoundSz(sz), size) == if e >= size then 0 else e
  {
  }

  lemma PiecesRead(buf: seq<Byte>, at: int, sz: int, msg: seq<Byte>)
    requires 0 <= at < |buf| && 0 <= sz <= |buf|
    requires var rem := |buf| - at;
             msg == if rem < sz then buf[at..] + buf[..sz - rem] else buf[at..at + sz]
    ensures |msg| == sz && forall k :: 0 <= k < sz ==> msg[k] == buf[Ix(at, k, |buf|)]
  {
  }

  lemma HeaderWritten(b0: seq<Byte>, b1: seq<Byte>, at: int, h: seq<Byte>)
    requires 0 <= at < |b0| && at + |h| <= |b0| && b1 == b0[..at] + h + b0[at + |h|..]
    ensures Written(b0, b1, at, h)
  {
    forall k | 0 <= k < |h| ensures b1[Ix(at, k, |b0|)] == h[k] {
    }
  }

  /** One memcpy, or one up to the end and one at the start. */
  lemma PiecesWritten(b0: seq<Byte>, b2: seq<Byte>, at: int, src: seq<Byte>)
    requires 0 <= at < |b0| && |src| <= |b0|
    requires var rem := |b0| - at;
             if rem < |src| then
               b2 == src[rem..] + (b0[..at] + src[..rem])[|src| - rem..]
             else b2 == b0[..at] + src + b0[at + |src|..]
    ensures Written(b0, b2, at, src)
  {
    if |b0| - at >= |src| {
      HeaderWritten(b0, b2, at, src);
    } else {
      var rem := |b0| - at;
      forall k | 0 <= k < |src| ensures b2[Ix(at, k, |b0|)] == src[k] {
      }
    }
  }

  lemma Dropped(buf: seq<Byte>, head: int, n: int, k: int)
    requires 0 <= head < |buf| && 0 < k <= n <= |buf|
    ensures 0 <= Ix(head, k, |buf|) < |buf| && Ix(Ix(head, k, |buf|), n - k, |buf|) == Ix(head, n, |buf|)
    ensures Unrolled(buf, Ix(head, k, |buf|), n - k) == Unrolled(buf, head, n)[k..]
  {
  }

  /** Moving along the ring is addition modulo its size. */
  lemma NextPosition(at: int, k: int, size: int)
    requires 0 <= at < size && 0 <= k <= size
    ensures (at + k) % size == Ix(at, k, size) && 0 <= Ix(at, k, size) < size
  {
    if at + k >= size { ModOnce(at + k - size, size); } else { ModSmall(at + k, size); }
  }

  lemma ModSmall(x: int, d: int)
    requires 0 <= x < d
    ensures x % d == x
  {
  }

  lemma ModOnce(x: int, d: int)
    requires 0 <= x < d
    ensures (x + d) % d == x
  {
    assert (x + d) / d == 1 && x / d == 0;
  }

  /** b2 is b1 with src on the ring from at on. */
  ghost predicate Written(b1: seq<Byte>, b2: seq<Byte>, at: int, src: seq<Byte>) {
    && |b2| == |b1| && 0 <= at < |b1| && |src| <= |b1|
    && (forall k {:trigger src[k]} :: 0 <= k < |src| ==> b2[Ix(at, k, |b1|)] == src[k])
    && (forall k {:trigger Ix(at, k, |b1|)} :: |src| <= k < |b1| ==> b2[Ix(at, k, |b1|)] == b1[Ix(at, k, |b1|)])
  }

  lemma WrittenTwice(b0: seq<Byte>, b1: seq<Byte>, b2: seq<Byte>, at: int, s1: seq<Byte>, s2: seq<Byte>)
    requires Written(b0, b1, at, s1) && |s1| + |s2| <= |b0|
    requires |s1| < |b0| && Written(b1, b2, Ix(at, |s1|, |b0|), s2)
    ensures Written(b0, b2, at, s1 + s2)
  {
    var n, at2 := |b0|, Ix(at, |s1|, |b0|);
    forall k | 0 <= k < n ensures b2[Ix(at, k, n)] == if k < |s1| + |s2| then (s1 + s2)[k] else b0[Ix(at, k, n)] {
      if k < |s1| {
        assert Ix(at2, n - |s1| + k, n) == Ix(at, k, n);
      } else {
        assert Ix(at2, k - |s1|, n) == Ix(at, k, n);
        if k < |s1| + |s2| { assert b2[Ix(at2, k - |s1|, n)] == s2[k - |s1|]; }
      }
    }
  }

  lemma Appended(b0: seq<Byte>, b2: seq<Byte>, head: int, n: int, m: Msg, msgs: seq<Msg>)
    requires 0 <= head < |b0| && 0 <= n && n + Space(m) <= |b0| && |m.data| < INT_LIMIT
    requires Written(b0, b2, Ix(head, n, |b0|), Header(|m.data|) + m.data)
    requires Stores(Unrolled(b0, head, n), msgs)
    ensures Stores(Unrolled(b2, head, n + Space(m)), msgs + [m])
  {
    hide Header, Stores, RoundSz;
    RoundFacts(|m.data|);
    var size, at, s := |b0|, Ix(head, n, |b0|), Header(|m.data|) + m.data;
    var u, v := Unrolled(b2, head, n), Unrolled(b2, at, Space(m));
    forall k | 0 <= k < n ensures u[k] == Unrolled(b0, head, n)[k] {
      assert Ix(at, size - n + k, size) == Ix(head, k, size);
    }
    assert u == Unrolled(b0, head, n);
    forall k | 0 <= k < |s| ensures v[k] == s[k] {
    }
    assert v[..HEADERSZ] == Header(|m.data|) && v[HEADERSZ..HEADERSZ + |m.data|] == m.data;
    StoresMore(u, msgs, v, m);
    forall k | 0 <= k < n + Space(m) ensures (u + v)[k] == Unrolled(b2, head, n + Space(m))[k] {
      if k >= n { assert Ix(at, k - n, size) == Ix(head, k, size); }
    }
    assert u + v == Unrolled(b2, head, n + Space(m));
  }

  /** Below an aligned end there is room for a word at every aligned place. */
  lemma WordFits(at: int, end: int)
    requires at % HEADERSZ == 0 && end % HEADERSZ == 0 && at < end
    ensures at + HEADERSZ <= end
  {
  }

  lemma HeaderAt(buf: seq<Byte>, head: int, n: int, m: Msg)
    requires |buf| % HEADERSZ == 0 && head % HEADERSZ == 0 && 0 <= head < |buf| && Space(m) <= n <= |buf|
    requires Starts(Unrolled(buf, head, n), m)
    ensures head + HEADERSZ <= |buf| && buf[head..head + HEADERSZ] == Header(|m.data|)
  {
    var u := Unrolled(buf, head, n);
    WordFits(head, |buf|);
    forall k | 0 <= k < HEADERSZ ensures buf[head..head + HEADERSZ][k] == Header(|m.data|)[k] {
      assert u[k] == u[..HEADERSZ][k];
    }
  }

  /** The two pieces that mbf_to_msg copies are the message. */
  lemma BodyAt(buf: seq<Byte>, head: int, n: int, m: Msg, msg: seq<Byte>)
    requires 0 <= head < |buf| && Space(m) <= n <= |buf|
    requires Starts(Unrolled(buf, head, n), m)
    requires |msg| == |m.data| && forall k :: 0 <= k < |msg| ==> msg[k] == buf[Ix(head, HEADERSZ + k, |buf|)]
    ensures msg == m.data
  {
    var u := Unrolled(buf, head, n);
    forall k | 0 <= k < |msg| ensures msg[k] == m.data[k] {
      assert u[HEADERSZ + k] == u[HEADERSZ..HEADERSZ + |m.data|][k];
    }
  }
}
