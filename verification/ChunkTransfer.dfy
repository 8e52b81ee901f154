/** The two ends of a chunked transfer in nPVR/stdsoap2.cpp, and the socket between them. */
module ChunkReceiver {
  import opened Bytes
  import opened Limits
  import opened ChunkFormat

  /** The reader fields of struct soap in SOAP_IO_CHUNK mode. The buffer holds bytes ready to be read from
      bufidx to buflen and, between chunks, bytes not looked at yet from buflen to chunkbuflen. */
  class Receiver {
    const buf: array<Byte>
    var bufidx: nat
    var buflen: nat
    var chunkbuflen: nat
    var chunksize: nat
    var count: nat
    var input: seq<Byte>

    ghost predicate Valid()
      reads this, buf
    {
      && buf.Length == SOAP_BUFLEN && bufidx <= buflen <= SOAP_BUFLEN && chunkbuflen <= SOAP_BUFLEN
      && (chunksize > 0 ==> chunkbuflen == 0)
      && (chunkbuflen != 0 ==> buflen <= chunkbuflen)
    }

    /** The bytes ready to be read. */
    ghost function Ready(): seq<Byte>
      requires Valid()
      reads this, buf
    {
      buf[bufidx..buflen]
    }

    /** The bytes of the body that have not been looked at. */
    ghost function Unread(): seq<Byte>
      requires Valid()
      reads this, buf
    {
      if chunkbuflen == 0 then input else buf[buflen..chunkbuflen] + input
    }

    /** The payload still to come once what is ready has been read. */
    ghost function Rest(): seq<Byte>
      requires Valid()
      reads this, buf
    {
      InChunk(chunksize, Unread())
    }

    /** The state fparse leaves: the buffer holds the HTTP header and the first bytes of the body. */
    constructor (head: seq<Byte>, at: nat, rest: seq<Byte>)
      requires at <= |head| <= SOAP_BUFLEN
      ensures Valid() && fresh(buf) && Ready() == [] && Rest() == Payload(head[at..] + rest) && count == 0
    {
      buf := new Byte[SOAP_BUFLEN];
      bufidx, buflen, chunkbuflen, chunksize, count, input := at, at, |head|, 0, 0, rest;
      new;
      forall i | 0 <= i < |head| {
        buf[i] := head[i];
      }
      assert buf[at..|head|] == head[at..];
      if |head| == 0 {
        assert head[at..] + rest == rest;
      }
      AtChunkEnd(head[at..] + rest);
    }

    /** The socket: any number of bytes, none only at the end of the input. */
    method Frecv(n: nat) returns (ret: nat)
      requires n <= buf.Length
      modifies buf, this`input
      ensures ret <= n && ret <= |old(input)| && (ret == 0 ==> n == 0 || old(input) == [])
      ensures buf[..ret] == old(input)[..ret] && input == old(input)[ret..]
    {
      if n == 0 || input == [] {
        assert input == input[0..];
        return 0;
      }
      ret :| 1 <= ret <= n && ret <= |input|;
      forall i | 0 <= i < ret {
        buf[i] := input[i];
      }
      input := input[ret..];
    }

    ghost predicate InHeader()
      reads this, buf
    {
      Valid() && chunksize == 0 && chunkbuflen == buflen
    }

    ghost function Ahead(): seq<Byte>
      requires InHeader()
      reads this, buf
    {
      buf[bufidx..buflen] + input
    }

    /** c has been read from the input w, the rest of which is ahead. */
    ghost predicate At(c: int, w: seq<Byte>)
      requires InHeader()
      reads this, buf
    {
      if w == [] then c == EOF && Ahead() == [] else c == Signed(w[0]) && Ahead() == w[1..] && 0 < bufidx
    }

    /** The next bytes of the socket in place of those that have been read */
    method Refill()
      requires InHeader() && bufidx == buflen
      modifies this`bufidx, this`buflen, this`chunkbuflen, this`input, buf
      ensures InHeader() && bufidx == 0 && Ahead() == old(Ahead()) && (buflen == 0 ==> Ahead() == [])
    {
      ghost var ahead := input;
      assert Ahead() == ahead;
      bufidx := 0;
      buflen := Frecv(SOAP_BUFLEN);
      chunkbuflen := buflen;
      assert buf[0..buflen] == ahead[..buflen];
      assert ahead == ahead[..buflen] + ahead[buflen..];
    }

    method TakeChar() returns (c: int)
      requires InHeader() && bufidx < buflen
      modifies this`bufidx
      ensures InHeader() && At(c, old(Ahead()))
    {
      c := Signed(buf[bufidx]);
      bufidx := bufidx + 1;
    }

    /** soap_getchunkchar */
    method GetChunkChar() returns (c: int)
      requires InHeader()
      modifies this`bufidx, this`buflen, this`chunkbuflen, this`input, buf
      ensures InHeader() && At(c, old(Ahead()))
    {
      if bufidx == buflen {
        Refill();
        if buflen == 0 {
          return EOF;
        }
      }
      c := TakeChar();
    }

    /** The first loop over a chunk header: everything up to a hexadecimal digit. */
    method SkipToDigit() returns (c: int)
      requires InHeader()
      modifies this`bufidx, this`buflen, this`chunkbuflen, this`input, buf
      ensures InHeader()
      ensures FromDigit(old(Ahead())).None? ==> c == EOF
      ensures FromDigit(old(Ahead())).Some? ==>
                IsHex(c) && FromDigit(old(Ahead())).value == [c] + Ahead() && 0 < bufidx
    {
      ghost var ahead := Ahead();
      c := GetChunkChar();
      while !IsHex(c) && c != EOF
        invariant InHeader() && At(c, ahead)
        invariant FromDigit(ahead) == FromDigit(old(Ahead()))
        decreases |ahead|
      {
        ahead := Ahead();
        c := GetChunkChar();
      }
    }

    /** The second loop: c0 and up to six more digits; the char after them is read too. */
    method ReadDigits(c0: Byte) returns (size: seq<Byte>, c: int)
      requires InHeader() && IsHex(c0) && 0 < bufidx
      modifies this`bufidx, this`buflen, this`chunkbuflen, this`input, buf
      ensures InHeader() && AllHex(size) && size == Digits(old([c0] + Ahead()), MAX_DIGITS)
      ensures At(c, old([c0] + Ahead())[|size|..])
    {
      ghost var w := [c0] + Ahead();
      size := [c0];
      ghost var ahead := Ahead();
      FirstDigit(c0, ahead);
      c := GetChunkChar();
      while IsHex(c) && |size| < MAX_DIGITS
        invariant InHeader() && At(c, ahead) && Collected(w, size, ahead)
        decreases MAX_DIGITS - |size|
      {
        CollectOne(w, size, ahead);
        ahead := Ahead();
        size := size + [c];
        c := GetChunkChar();
      }
    }

    /** The third loop: the rest of the line, from a char that has been read. */
    method SkipLine(c0: int, ghost w: seq<Byte>) returns (c: int)
      requires InHeader() && At(c0, w)
      modifies this`bufidx, this`buflen, this`chunkbuflen, this`input, buf
      ensures InHeader() && (c == EOF <==> PastLine(w).None?)
      ensures c != EOF ==> PastLine(w) == Some(Ahead()) && 0 < bufidx
    {
      c := c0;
      ghost var ahead := w;
      while c != EOF && c != LF
        invariant InHeader() && At(c, ahead) && PastLine(ahead) == PastLine(w)
        decreases |ahead|
      {
        ahead := Ahead();
        c := GetChunkChar();
      }
    }

    /** The header of a chunk: its size, or nothing at the end of the input. */
    method ReadSize() returns (size: Option<nat>)
      requires InHeader()
      modifies this`bufidx, this`buflen, this`chunkbuflen, this`input, buf
      ensures InHeader()
      ensures size.None? ==> ChunkFormat.ReadHeader(old(Ahead())).None?
      ensures size.Some? ==> ChunkFormat.ReadHeader(old(Ahead())) == Some(Header(size.value, Ahead())) && 0 < bufidx
    {
      var c := SkipToDigit();
      if c == EOF {
        return None;
      }
      ghost var w := [c] + Ahead();
      var digits;
      digits, c := ReadDigits(c);
      c := SkipLine(c, w[|digits|..]);
      if c == EOF {
        return None;
      }
      return Some(HexValue(digits));
    }

    /** The branch of soap_recv_raw inside a chunk. */
    method RecvData()
      requires Valid() && chunksize > 0
      modifies this`bufidx, this`buflen, this`chunksize, this`input, buf
      ensures Valid() && old(Rest()) == Ready() + Rest()
      ensures Ready() == [] ==> old(Rest()) == []
    {
      ghost var all := input;
      buflen := Frecv(if chunksize > SOAP_BUFLEN then SOAP_BUFLEN else chunksize);
      bufidx := 0;
      TakeFromChunk(chunksize, all, buflen);
      chunksize := chunksize - buflen;
      assert Ready() == all[..buflen];
    }

    /** The branch of soap_recv_raw between chunks, up to the point where the next chunk starts. */
    method StartChunk() returns (more: bool)
      requires Valid() && chunksize == 0 && bufidx == buflen
      modifies this`bufidx, this`buflen, this`chunkbuflen, this`chunksize, this`input, buf
      ensures Valid()
      ensures !more ==> old(Rest()) == []
      ensures more ==> old(Rest()) == Ready() + Rest() && (Ready() == [] ==> chunksize > 0)
    {
      ghost var all := Unread();
      AtChunkEnd(all);
      if chunkbuflen == 0 {
        chunkbuflen := Frecv(SOAP_BUFLEN);
        bufidx := 0;
        if chunkbuflen == 0 {
          return false;
        }
        buflen := chunkbuflen;
        assert buf[0..buflen] == all[..buflen];
      } else {
        bufidx := buflen;
        buflen := chunkbuflen;
      }
      assert Ahead() == all;
      var size := ReadSize();
      if size.None? {
        return false;
      }
      if size.value == 0 {
        chunkbuflen := 0;
        return false;
      }
      SplitBuffer(size.value);
      more := true;
    }

    /** The start of a chunk: as much of it as the buffer holds becomes ready. */
    method SplitBuffer(size: nat)
      requires InHeader() && size > 0 && 0 < bufidx
      modifies this`buflen, this`chunkbuflen, this`chunksize
      ensures Valid() && InChunk(size, old(Ahead())) == Ready() + Rest()
      ensures Ready() == [] ==> chunksize > 0
    {
      ghost var lo, hi := bufidx, buflen;
      chunksize := size;
      buflen := bufidx + chunksize;
      if buflen > chunkbuflen {
        buflen := chunkbuflen;
        chunksize := chunksize - (buflen - bufidx);
        chunkbuflen := 0;
        TakeAll(size, buf[..], input, lo, hi);
      } else if chunkbuflen != 0 {
        chunksize := 0;
        TakeSome(size, buf[..], input, lo, hi);
      }
    }

    /** soap_recv_raw in chunked mode: the next bytes of the payload, or false at its end. */
    method RecvRaw() returns (ok: bool)
      requires Valid() && bufidx == buflen
      modifies this, buf
      ensures Valid()
      ensures ok ==> Ready() != [] && old(Rest()) == Ready() + Rest() && count == old(count) + |Ready()|
      ensures !ok ==> old(Rest()) == [] && count == old(count)
    {
      if chunksize == 0 {
        ok := StartChunk();
        if !ok {
          return false;
        }
      }
      if bufidx == buflen {
        RecvData();
      }
      var ret := buflen - bufidx;
      count := count + ret;
      ok := ret != 0;
    }

    /** Reads, as soap_get1 does, until the first end of file. */
    method ReceiveAll() returns (got: seq<Byte>)
      requires Valid() && bufidx == buflen
      modifies this, buf
      ensures got == old(Rest()) && count == old(count) + |got|
    {
      got := [];
      var ok := true;
      while ok
        invariant Valid() && count == old(count) + |got|
        invariant ok ==> bufidx == buflen && got + Rest() == old(Rest())
        invariant !ok ==> got == old(Rest())
        decreases ok, |old(Rest())| - |got|
      {
        ghost var rest := Rest();
        ok := RecvRaw();
        if ok {
          assert got + rest == (got + Ready()) + Rest();
          got := got + buf[bufidx..buflen];
          bufidx := buflen;
        }
      }
    }
  }

  /** size holds the first digits of w, and ahead is what follows them. */
  ghost predicate Collected(w: seq<Byte>, size: seq<Byte>, ahead: seq<Byte>) {
    && 1 <= |size| <= MAX_DIGITS && AllHex(size) && |size| <= |w| && w[|size|..] == ahead
    && Digits(w, MAX_DIGITS) == size + Digits(ahead, MAX_DIGITS - |size|)
  }

  lemma FirstDigit(c: Byte, ahead: seq<Byte>)
    requires IsHex(c)
    ensures Collected([c] + ahead, [c], ahead)
  {
    assert ([c] + ahead)[1..] == ahead;
  }

  lemma CollectOne(w: seq<Byte>, size: seq<Byte>, ahead: seq<Byte>)
    requires Collected(w, size, ahead) && |size| < MAX_DIGITS && ahead != [] && IsHex(ahead[0])
    ensures Collected(w, size + [ahead[0]], ahead[1..])
  {
    var more := size + [ahead[0]];
    DropOne(w, |size|);
    Regroup(size, [ahead[0]], Digits(ahead[1..], MAX_DIGITS - |more|));
  }

  lemma DropOne(w: seq<Byte>, k: nat)
    requires k < |w|
    ensures w[k..][1..] == w[k + 1..]
  {
  }

  /** What is buffered does not go beyond the chunk. */
  lemma TakeAll(size: nat, s: seq<Byte>, t: seq<Byte>, lo: nat, hi: nat)
    requires lo <= hi <= |s| && hi - lo <= size
    ensures InChunk(size, s[lo..hi] + t) == s[lo..hi] + InChunk(size - (hi - lo), t)
  {
    TakeFront(size, s[lo..hi], t);
  }

  lemma TakeFront(size: nat, a: seq<Byte>, t: seq<Byte>)
    requires |a| <= size
    ensures InChunk(size, a + t) == a + InChunk(size - |a|, t)
  {
    TakeFromChunk(size, a + t, |a|);
    assert (a + t)[..|a|] == a && (a + t)[|a|..] == t;
  }

  /** What is buffered goes up to the end of the chunk, or beyond it. */
  lemma TakeSome(size: nat, s: seq<Byte>, t: seq<Byte>, lo: nat, hi: nat)
    requires lo <= hi <= |s| && size <= hi - lo
    ensures InChunk(size, s[lo..hi] + t) == s[lo..lo + size] + InChunk(0, s[lo + size..hi] + t)
  {
    var mid := lo + size;
    CutAt(s, lo, mid, hi);
    Regroup(s[lo..mid], s[mid..hi], t);
    TakeFront(size, s[lo..mid], s[mid..hi] + t);
  }

  lemma CutAt(s: seq<Byte>, lo: nat, mid: nat, hi: nat)
    requires lo <= mid <= hi <= |s|
    ensures s[lo..hi] == s[lo..mid] + s[mid..hi]
  {
  }
}

module ChunkSender {
  import opened Bytes
  import opened Limits
  import opened ChunkFormat
  import opened ChunkGrammar

  /** chunksize is a size_t of 32 bits. */
  const SIZE_T: nat := 0x1_0000_0000

  const CRLF: seq<Byte> := [CR, LF]
  const LAST: Chunk := Chunk([48], [], [])

  function UpperDigit(d: nat): (c: Byte)
    requires d < 16
    ensures IsHex(c) && DigitValue(c) == d
  {
    if d < 10 then 48 + d else 55 + d
  }

  /** The conversion %lX of sprintf. */
  function Hex(n: nat): (s: seq<Byte>)
    ensures s != [] && AllHex(s)
  {
    if n < 16 then [UpperDigit(n)] else Hex(n / 16) + [UpperDigit(n % 16)]
  }

  lemma {:induction false} HexIsRead(n: nat, digits: nat)
    requires n < Power16(digits) && digits > 0
    ensures HexValue(Hex(n)) == n && |Hex(n)| <= digits
  {
    if n < 16 {
      assert HexValue([UpperDigit(n)]) == DigitValue(UpperDigit(n)) by {
        assert [UpperDigit(n)][..0] == [];
      }
    } else {
      assert digits > 1 by {
        assert Power16(1) == 16;
      }
      HexIsRead(n / 16, digits - 1);
      assert Hex(n)[..|Hex(n)| - 1] == Hex(n / 16);
    }
  }

  function Power16(k: nat): nat {
    if k == 0 then 1 else 16 * Power16(k - 1)
  }

  function ChunkOf(data: seq<Byte>): Chunk {
    Chunk(Hex(|data|), [], data)
  }

  lemma ChunkOfOk(data: seq<Byte>)
    requires 0 < |data| <= SOAP_BUFLEN
    ensures ChunkOk(ChunkOf(data)) && |Hex(|data|)| <= 5 && Readable(ChunkOf(data))
  {
    assert Power16(5) == 16 * 16 * 16 * 16 * 16;
    HexIsRead(|data|, 5);
  }

  function WireAll(chunks: seq<Chunk>): seq<Byte> {
    if chunks == [] then [] else WireAll(chunks[..|chunks| - 1]) + Wire(chunks[|chunks| - 1])
  }

  lemma {:induction false} WireAllBody(chunks: seq<Chunk>, more: seq<Chunk>, last: Chunk, trailer: seq<Byte>)
    ensures Body(chunks + more, last, trailer) == WireAll(chunks) + Body(more, last, trailer)
    decreases |chunks|
  {
    if chunks == [] {
      assert chunks + more == more;
    } else {
      var n := |chunks| - 1;
      WireAllBody(chunks[..n], [chunks[n]] + more, last, trailer);
      LastToTheOthers(chunks, more);
      BodyStep(chunks[n], more, last, trailer);
      Regroup(WireAll(chunks[..n]), Wire(chunks[n]), Body(more, last, trailer));
    }
  }

  lemma LastToTheOthers<T>(a: seq<T>, b: seq<T>)
    requires a != []
    ensures a[..|a| - 1] + ([a[|a| - 1]] + b) == a + b
  {
  }

  lemma BodyStep(c: Chunk, more: seq<Chunk>, last: Chunk, trailer: seq<Byte>)
    ensures Body([c] + more, last, trailer) == Wire(c) + Body(more, last, trailer)
  {
    assert ([c] + more)[0] == c && ([c] + more)[1..] == more;
  }

  ghost predicate CarriesBefore(wire: seq<Byte>, data: seq<Byte>, tail: seq<Byte>) {
    Payload(wire + tail) == data + Payload(tail)
  }

  /** Whatever follows it, the wire gives these bytes first. */
  ghost predicate Carries(wire: seq<Byte>, data: seq<Byte>) {
    forall tail {:trigger CarriesBefore(wire, data, tail)} :: CarriesBefore(wire, data, tail)
  }

  lemma CarriesMore(v: seq<Byte>, w: seq<Byte>, a: seq<Byte>, b: seq<Byte>)
    requires Carries(v, a) && Carries(w, b)
    ensures Carries(v + w, a + b)
  {
    forall tail
      ensures CarriesBefore(v + w, a + b, tail)
    {
      assert CarriesBefore(w, b, tail) && CarriesBefore(v, a, w + tail);
      assert (v + w) + tail == v + (w + tail);
      assert (a + b) + Payload(tail) == a + (b + Payload(tail));
    }
  }

  /** What soap_flush_raw sends for one chunk; all but the first have a line break before them. */
  function ChunkWire(lead: bool, c: Chunk): seq<Byte> {
    (if lead then CRLF else []) + (SizeLine(c) + c.data)
  }

  lemma ChunkCarries(lead: bool, c: Chunk)
    requires ChunkOk(c) && Readable(c)
    ensures Carries(ChunkWire(lead, c), c.data)
  {
    forall tail
      ensures CarriesBefore(ChunkWire(lead, c), c.data, tail)
    {
      var lf := if lead then CRLF else [];
      var w := SizeLine(c) + (c.data + tail);
      DataDecoded(c, tail);
      Regroup(lf, SizeLine(c) + c.data, tail);
      Regroup(SizeLine(c), c.data, tail);
      CrlfSkipped(w);
      assert [] + w == w;
    }
  }

  lemma NothingCarried()
    ensures Carries([], [])
  {
    forall tail
      ensures CarriesBefore([], [], tail)
    {
      assert [] + tail == tail;
      assert [] + Payload(tail) == Payload(tail);
    }
  }

  lemma {:induction false} DataSnoc(chunks: seq<Chunk>, c: Chunk)
    ensures Data(chunks + [c]) == Data(chunks) + c.data
  {
    if chunks == [] {
      assert [c][1..] == [];
    } else {
      DataSnoc(chunks[1..], c);
      assert (chunks + [c])[1..] == chunks[1..] + [c];
    }
  }

  /** The writer fields of struct soap in SOAP_IO_CHUNK mode. */
  class Sender {
    const buf: array<Byte>
    var bufidx: nat
    var chunksize: nat
    var sent: seq<Byte>
    ghost var chunks: seq<Chunk>

    ghost predicate Valid()
      reads this, buf
    {
      && buf.Length == SOAP_BUFLEN && bufidx < SOAP_BUFLEN
      && Flushed()
    }

    ghost predicate Flushed()
      reads this
    {
      FlushedAs(sent, chunksize, chunks)
    }

    /** Everything handed to the sender. */
    ghost function Given(): seq<Byte>
      requires bufidx <= buf.Length
      reads this, buf
    {
      Data(chunks) + buf[..bufidx]
    }

    /** The state soap_begin_send leaves. */
    constructor ()
      ensures Valid() && fresh(buf) && Given() == [] && sent == []
    {
      buf := new Byte[SOAP_BUFLEN];
      bufidx, chunksize, sent, chunks := 0, 0, [], [];
      new;
      NothingCarried();
    }

    /** soap_flush_raw: one chunk of n bytes, which fsend takes whole. */
    method FlushRaw(s: seq<Byte>)
      requires Flushed() && 0 < |s| <= SOAP_BUFLEN
      modifies this`sent, this`chunksize, this`chunks
      ensures Flushed() && Data(chunks) == old(Data(chunks)) + s
    {
      ghost var before := sent;
      ChunkOfOk(s);
      FlushedMore(sent, chunksize, chunks, ChunkOf(s));
      sent := sent + ((if chunksize != 0 then CRLF else []) + (Hex(|s|) + CRLF));
      sent := sent + s;
      SentOneChunk(before, chunksize != 0, s);
      chunksize := (chunksize + |s|) % SIZE_T;
      chunks := chunks + [ChunkOf(s)];
    }

    /** soap_flush */
    method Flush()
      requires Flushed() && bufidx <= SOAP_BUFLEN == buf.Length
      modifies this
      ensures Flushed() && bufidx == 0 && Given() == old(Given())
    {
      if bufidx != 0 {
        FlushRaw(buf[..bufidx]);
        bufidx := 0;
      }
    }

    /** soap_send_raw */
    method SendRaw(s: seq<Byte>)
      requires Valid()
      modifies this, buf
      ensures Valid() && Given() == old(Given()) + s
    {
      if s == [] {
        return;
      }
      var at, n, i := 0, |s|, SOAP_BUFLEN - bufidx;
      while n >= i
        invariant Valid() && 0 <= at && 0 <= n && at + n == |s| && i == SOAP_BUFLEN - bufidx
        invariant Given() == old(Given()) + s[..at]
        decreases n
      {
        ghost var given := Given();
        Append(s[at..at + i]);
        GivenMore(old(Given()), given, s, at, at + i);
        Flush();
        at, n, i := at + i, n - i, SOAP_BUFLEN;
      }
      GivenMore(old(Given()), Given(), s, at, |s|);
      Append(s[at..]);
      assert s[..|s|] == s;
    }

    /** memcpy to the end of the buffer. */
    method Append(s: seq<Byte>)
      requires buf.Length == SOAP_BUFLEN && bufidx + |s| <= SOAP_BUFLEN
      modifies buf, this`bufidx
      ensures bufidx == old(bufidx) + |s| && Given() == old(Given()) + s
    {
      forall k | 0 <= k < |s| {
        buf[bufidx + k] := s[k];
      }
      bufidx := bufidx + |s|;
      assert buf[..bufidx] == old(buf[..bufidx]) + s;
    }

    /** soap_end_send: the message is on the wire, as a chunked body once there is anything in it. */
    method EndSend()
      requires Valid()
      modifies this
      ensures Payload(sent) == old(Given())
      ensures 0 < |old(Given())| < SIZE_T ==>
                && (forall i :: 0 <= i < |chunks| ==> ChunkOk(chunks[i])) && Data(chunks) == old(Given())
                && sent == Body(chunks, LAST, CRLF)
    {
      Flush();
      EndCarried(sent, chunksize, chunks);
      sent := sent + END;
      assert Given() == Data(chunks);
    }
  }

  const END: seq<Byte> := [CR, LF, 48, CR, LF, CR, LF]

  /** What has been sent so far is the chunks in order, with a line break between any two. */
  ghost predicate FlushedAs(sent: seq<Byte>, chunksize: nat, chunks: seq<Chunk>) {
    && (forall i :: 0 <= i < |chunks| ==> ChunkOk(chunks[i]) && Readable(chunks[i]))
    && Carries(sent, Data(chunks))
    && chunksize == |Data(chunks)| % SIZE_T
    && (|Data(chunks)| < SIZE_T ==> sent + (if chunks == [] then [] else CRLF) == WireAll(chunks))
  }

  lemma SizeAdded(a: nat, b: nat)
    ensures (a % SIZE_T + b) % SIZE_T == (a + b) % SIZE_T
  {
  }

  lemma FlushedMore(sent: seq<Byte>, chunksize: nat, chunks: seq<Chunk>, c: Chunk)
    requires FlushedAs(sent, chunksize, chunks) && ChunkOk(c) && Readable(c)
    ensures Data(chunks + [c]) == Data(chunks) + c.data
    ensures FlushedAs(sent + ChunkWire(chunksize != 0, c), (chunksize + |c.data|) % SIZE_T, chunks + [c])
  {
    DataSnoc(chunks, c);
    assert Carries(sent + ChunkWire(chunksize != 0, c), Data(chunks + [c])) by {
      ChunkCarries(chunksize != 0, c);
      CarriesMore(sent, ChunkWire(chunksize != 0, c), Data(chunks), c.data);
    }
    WireGrows(sent, chunksize, chunks, c);
    SizeAdded(|Data(chunks)|, |c.data|);
  }

  lemma SentOneChunk(before: seq<Byte>, lead: bool, s: seq<Byte>)
    ensures (before + ((if lead then CRLF else []) + (Hex(|s|) + CRLF))) + s == before + ChunkWire(lead, ChunkOf(s))
  {
    var c := ChunkOf(s);
    assert c.size + c.ext == Hex(|s|);
    Regroup(before, (if lead then CRLF else []) + SizeLine(c), c.data);
    Regroup(if lead then CRLF else [], SizeLine(c), c.data);
  }

  lemma GivenMore(given: seq<Byte>, now: seq<Byte>, s: seq<Byte>, at: nat, end: nat)
    requires at <= end <= |s| && now == given + s[..at]
    ensures now + s[at..end] == given + s[..end]
  {
  }

  lemma WireGrows(sent: seq<Byte>, chunksize: nat, chunks: seq<Chunk>, c: Chunk)
    requires FlushedAs(sent, chunksize, chunks) && c.data != []
    requires |Data(chunks + [c])| == |Data(chunks)| + |c.data|
    ensures |Data(chunks + [c])| < SIZE_T ==> sent + ChunkWire(chunksize != 0, c) + CRLF == WireAll(chunks + [c])
  {
    if |Data(chunks + [c])| < SIZE_T {
      assert (chunks + [c])[..|chunks|] == chunks;
      assert chunksize == 0 <==> chunks == [];
      var lead := if chunks == [] then [] else CRLF;
      assert sent + ChunkWire(chunksize != 0, c) + CRLF == (sent + lead) + Wire(c);
    }
  }

  lemma EndIsLast()
    ensures END == CRLF + (SizeLine(LAST) + CRLF)
  {
  }

  lemma EndInWire(sent: seq<Byte>, chunks: seq<Chunk>)
    requires sent + CRLF == WireAll(chunks)
    ensures sent + END == Body(chunks, LAST, CRLF)
  {
    EndIsLast();
    WireAllBody(chunks, [], LAST, CRLF);
    assert chunks + [] == chunks;
    assert (sent + CRLF) + (SizeLine(LAST) + CRLF) == sent + (CRLF + (SizeLine(LAST) + CRLF));
  }

  lemma EndCarried(sent: seq<Byte>, chunksize: nat, chunks: seq<Chunk>)
    requires FlushedAs(sent, chunksize, chunks)
    ensures Payload(sent + END) == Data(chunks)
    ensures 0 < |Data(chunks)| < SIZE_T ==> sent + END == Body(chunks, LAST, CRLF)
  {
    assert CarriesBefore(sent, Data(chunks), END);
    EndIsLast();
    EndDecoded();
    if 0 < |Data(chunks)| < SIZE_T {
      EndInWire(sent, chunks);
    }
  }

  lemma EndDecoded()
    ensures Payload([CR, LF] + (SizeLine(LAST) + CRLF)) == []
  {
    CrlfSkipped(SizeLine(LAST) + CRLF);
    LastSizeReadIff(LAST, CRLF);
  }
}

/** The two ends put together. */
module ChunkTransfer {
  import opened Bytes
  import opened Limits
  import opened ChunkFormat
  import opened ChunkReceiver
  import opened ChunkSender

  method SendAll(sender: Sender, pieces: seq<seq<Byte>>)
    requires sender.Valid()
    modifies sender, sender.buf
    ensures sender.Valid() && sender.Given() == old(sender.Given()) + Flatten(pieces)
  {
    var i := 0;
    while i < |pieces|
      invariant 0 <= i <= |pieces| && sender.Valid()
      invariant sender.Given() + Flatten(pieces[i..]) == old(sender.Given()) + Flatten(pieces)
    {
      ghost var given := sender.Given();
      sender.SendRaw(pieces[i]);
      assert pieces[i..][1..] == pieces[i + 1..];
      assert given + (pieces[i] + Flatten(pieces[i + 1..])) == (given + pieces[i]) + Flatten(pieces[i + 1..]);
      i := i + 1;
    }
  }

  method Receive(wire: seq<Byte>, at: nat, ahead: nat) returns (got: seq<Byte>)
    requires at + ahead <= SOAP_BUFLEN
    ensures got == Payload(wire)
  {
    var n := if ahead <= |wire| then ahead else |wire|;
    var header: seq<Byte> := seq(at, _ => 0);
    assert (header + wire[..n])[at..] == wire[..n];
    assert wire[..n] + wire[n..] == wire;
    var receiver := new Receiver(header + wire[..n], at, wire[n..]);
    got := receiver.ReceiveAll();
  }

  /** Whatever is sent in whatever pieces is received unchanged, however the socket cuts up the wire and
      wherever in the first read the body starts. */
  method Transfer(pieces: seq<seq<Byte>>, at: nat, ahead: nat) returns (got: seq<Byte>)
    requires at + ahead <= SOAP_BUFLEN
    ensures got == Flatten(pieces)
  {
    var sender := new Sender();
    SendAll(sender, pieces);
    sender.EndSend();
    got := Receive(sender.sent, at, ahead);
  }
}
