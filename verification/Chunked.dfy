/** HTTP chunked transfer in nPVR/stdsoap2.cpp: what a chunked body means, read straight from its bytes as
    soap_recv_raw and soap_getchunkchar read it. */
module ChunkFormat {
  import opened Bytes

  const CR: Byte := 13
  const LF: Byte := 10
  const EOF := -1

  /** soap_recv_raw collects the digits of a size in a buffer that holds seven of them. */
  const MAX_DIGITS: nat := 7

  /** A char of the buffer read as soap_wchar; chars are signed. */
  function Signed(b: Byte): int {
    if b < 128 then b else b - 256
  }

  predicate IsHex(c: int) {
    48 <= c <= 57 || 65 <= c <= 70 || 97 <= c <= 102
  }

  function DigitValue(c: int): (d: nat)
    requires IsHex(c)
    ensures d < 16
  {
    if c <= 57 then c - 48 else if c <= 70 then c - 55 else c - 87
  }

  /** The digits of RFC 2616, in capitals and in small letters */
  lemma CapitalsAre(d: nat)
    requires d < 16
    ensures
      var c := Letters("0123456789ABCDEF")[d];
      IsHex(c) && DigitValue(c) == d
  {
    HexCode("0123456789ABCDEF", d);
  }

  lemma SmallAre(d: nat)
    requires d < 16
    ensures
      var c := Letters("0123456789abcdef")[d];
      IsHex(c) && DigitValue(c) == d
  {
    HexCode("0123456789abcdef", d);
  }

  lemma HexCode(s: string, d: nat)
    requires d < 16 && (s == "0123456789ABCDEF" || s == "0123456789abcdef")
    ensures Letters(s)[d] == if d < 10 then 48 + d else if s[10] == 'A' then 55 + d else 87 + d
  {
  }

  predicate AllHex(s: seq<Byte>) {
    forall i :: 0 <= i < |s| ==> IsHex(s[i])
  }

  function HexValue(s: seq<Byte>): nat
    requires AllHex(s)
  {
    if s == [] then 0 else 16 * HexValue(s[..|s| - 1]) + DigitValue(s[|s| - 1])
  }

  /** The input from its first hexadecimal digit on. */
  function FromDigit(w: seq<Byte>): (r: Option<seq<Byte>>)
    ensures r.Some? ==> r.value != [] && IsHex(r.value[0]) && |r.value| <= |w|
  {
    if w == [] then None
    else if IsHex(w[0]) then Some(w)
    else if Signed(w[0]) == EOF then None
    else FromDigit(w[1..])
  }

  /** The hexadecimal digits at the start of the input, n of them at most. */
  function Digits(w: seq<Byte>, n: nat): (d: seq<Byte>)
    ensures |d| <= n && d <= w && AllHex(d)
  {
    if n == 0 || w == [] || !IsHex(w[0]) then [] else [w[0]] + Digits(w[1..], n - 1)
  }

  /** The input after its first line feed. */
  function PastLine(w: seq<Byte>): (r: Option<seq<Byte>>)
    ensures r.Some? ==> |r.value| < |w|
  {
    if w == [] || Signed(w[0]) == EOF then None
    else if w[0] == LF then Some(w[1..])
    else PastLine(w[1..])
  }

  datatype Header = Header(size: nat, rest: seq<Byte>)

  function ReadHeader(w: seq<Byte>): (h: Option<Header>)
    ensures h.Some? ==> |h.value.rest| < |w|
  {
    match FromDigit(w)
    case None => None
    case Some(d) =>
      var size := Digits(d, MAX_DIGITS);
      match PastLine(d[|size|..])
      case None => None
      case Some(rest) => Some(Header(HexValue(size), rest))
  }

  /** The payload of a chunked body. */
  function Payload(w: seq<Byte>): seq<Byte>
    decreases |w|, 0
  {
    match ReadHeader(w)
    case None => []
    case Some(h) => if h.size == 0 then [] else InChunk(h.size, h.rest)
  }

  /** The payload from a point where n bytes of the current chunk are still to come. */
  function InChunk(n: nat, w: seq<Byte>): seq<Byte>
    decreases |w|, 1
  {
    if n >= |w| then w else w[..n] + Payload(w[n..])
  }

  /** Data can be taken out of a chunk in pieces. */
  lemma TakeFromChunk(n: nat, w: seq<Byte>, k: nat)
    requires k <= n && k <= |w|
    ensures InChunk(n, w) == w[..k] + InChunk(n - k, w[k..])
  {
    if n >= |w| {
      assert w == w[..k] + w[k..];
    } else {
      assert w[k..][..n - k] == w[k..n] && w[k..][n - k..] == w[n..];
      assert w[..n] == w[..k] + w[k..n];
    }
  }

  lemma AtChunkEnd(w: seq<Byte>)
    ensures InChunk(0, w) == Payload(w)
  {
    if w != [] {
      assert w[..0] == [] && w[0..] == w;
    }
  }
}

/** Section 3.6.1 of RFC 2616: the grammar of a chunked body, and what the decoder makes of one. */
module ChunkGrammar {
  import opened Bytes
  import opened ChunkFormat

  datatype Chunk = Chunk(size: seq<Byte>, ext: seq<Byte>, data: seq<Byte>)

  /** Extensions begin with a semicolon; what a quoted string in one may hold is left open. */
  predicate SizeOk(c: Chunk) {
    c.size != [] && AllHex(c.size) && (c.ext != [] ==> c.ext[0] == 59)
  }

  predicate ChunkOk(c: Chunk) {
    SizeOk(c) && c.data != [] && HexValue(c.size) == |c.data|
  }

  predicate LastOk(c: Chunk) {
    SizeOk(c) && c.data == [] && HexValue(c.size) == 0
  }

  /** A byte that ends the line for the decoder, or the input: a signed char of -1 is taken for EOF. */
  predicate Ends(b: Byte) {
    b == LF || Signed(b) == EOF
  }

  /** Neither is in the extensions. */
  predicate ExtOk(ext: seq<Byte>) {
    forall i :: 0 <= i < |ext| ==> !Ends(ext[i])
  }

  /** What the decoder can read */
  predicate Readable(c: Chunk) {
    |c.size| <= MAX_DIGITS && ExtOk(c.ext)
  }

  function SizeLine(c: Chunk): seq<Byte> {
    c.size + c.ext + [13, 10]
  }

  function Wire(c: Chunk): seq<Byte> {
    SizeLine(c) + c.data + [13, 10]
  }

  /** chunks, last-chunk, and whatever trailer there is. */
  function Body(chunks: seq<Chunk>, last: Chunk, trailer: seq<Byte>): seq<Byte> {
    if chunks == [] then SizeLine(last) + trailer else Wire(chunks[0]) + Body(chunks[1..], last, trailer)
  }

  function Data(chunks: seq<Chunk>): seq<Byte> {
    if chunks == [] then [] else chunks[0].data + Data(chunks[1..])
  }

  lemma {:induction false} DigitsOf(s: seq<Byte>, w: seq<Byte>, n: nat)
    requires AllHex(s) && (w != [] ==> !IsHex(w[0]))
    ensures Digits(s + w, n) == (if |s| <= n then s else s[..n])
  {
    if n == 0 || s == [] {
      assert s == [] ==> s + w == w;
    } else {
      assert (s + w)[0] == s[0] && (s + w)[1..] == s[1..] + w;
      assert AllHex(s[1..]);
      DigitsOf(s[1..], w, n - 1);
      assert s == [s[0]] + s[1..];
      if |s| > n {
        assert s[..n] == [s[0]] + s[1..][..n - 1];
      }
    }
  }

  /** The rest of a size line is skipped, digits and extension alike. */
  lemma {:induction false} PastLineOf(s: seq<Byte>, w: seq<Byte>)
    requires forall i :: 0 <= i < |s| ==> s[i] != LF && Signed(s[i]) != EOF
    ensures PastLine(s + [LF] + w) == Some(w)
  {
    if s == [] {
      assert s + [LF] + w == [LF] + w;
      assert ([LF] + w)[1..] == w;
    } else {
      assert (s + [LF] + w)[0] == s[0] && (s + [LF] + w)[1..] == s[1..] + [LF] + w;
      PastLineOf(s[1..], w);
    }
  }

  lemma SizeLineFrom(c: Chunk, k: nat, more: seq<Byte>)
    requires k <= |c.size|
    ensures (SizeLine(c) + more)[k..] == (c.size[k..] + c.ext + [CR]) + [LF] + more
  {
  }

  /** The line ends early, or never. */
  lemma {:induction false} PastLineEarly(s: seq<Byte>, w: seq<Byte>)
    requires !ExtOk(s)
    ensures
      var r := PastLine(s + [LF] + w);
      r.Some? ==> |r.value| > |w|
  {
    var t := s + [LF] + w;
    assert t[0] == s[0] && t[1..] == s[1..] + [LF] + w;
    if !Ends(s[0]) {
      assert !ExtOk(s[1..]) by {
        var i :| 0 <= i < |s| && Ends(s[i]);
        assert s[1..][i - 1] == s[i];
      }
      PastLineEarly(s[1..], w);
    }
  }

  function FirstDigits(c: Chunk): seq<Byte> {
    if |c.size| <= MAX_DIGITS then c.size else c.size[..MAX_DIGITS]
  }

  /** The digits that are read are the first seven; the rest of the line is skipped. */
  lemma SizeLineRead(c: Chunk, more: seq<Byte>)
    requires SizeOk(c)
    ensures AllHex(FirstDigits(c))
    ensures
      var r := PastLine((c.size[|FirstDigits(c)|..] + c.ext + [CR]) + [LF] + more);
      ReadHeader(SizeLine(c) + more) == if r.None? then None else Some(Header(HexValue(FirstDigits(c)), r.value))
  {
    var w := SizeLine(c) + more;
    var tail := c.ext + [CR, LF] + more;
    assert w == c.size + tail && w[0] == c.size[0];
    assert FromDigit(w) == Some(w);
    DigitsOf(c.size, tail, MAX_DIGITS);
    SizeLineFrom(c, |FirstDigits(c)|, more);
  }

  /** The size the decoder reads is that of the first seven digits. */
  lemma HeaderOf(c: Chunk, more: seq<Byte>)
    requires SizeOk(c) && ExtOk(c.ext)
    ensures AllHex(FirstDigits(c)) && ReadHeader(SizeLine(c) + more) == Some(Header(HexValue(FirstDigits(c)), more))
  {
    SizeLineRead(c, more);
    PastLineOf(c.size[|FirstDigits(c)|..] + c.ext + [CR], more);
  }

  /** What ends the line in the extensions ends it too early. */
  lemma HeaderEarly(c: Chunk, more: seq<Byte>)
    requires SizeOk(c) && !ExtOk(c.ext)
    ensures
      var h := ReadHeader(SizeLine(c) + more);
      h.Some? ==> |h.value.rest| > |more|
  {
    SizeLineRead(c, more);
    var d := c.size[|FirstDigits(c)|..];
    assert !ExtOk(d + c.ext + [CR]) by {
      var i :| 0 <= i < |c.ext| && Ends(c.ext[i]);
      assert (d + c.ext + [CR])[|d| + i] == c.ext[i];
    }
    PastLineEarly(d + c.ext + [CR], more);
  }

  lemma {:induction false} PrefixValue(s: seq<Byte>, n: nat)
    requires AllHex(s) && n <= |s|
    ensures AllHex(s[..n]) && HexValue(s[..n]) <= HexValue(s)
    ensures n < |s| && HexValue(s) > 0 ==> HexValue(s[..n]) < HexValue(s)
    decreases |s|
  {
    if n == |s| {
      assert s[..n] == s;
    } else {
      PrefixValue(s[..|s| - 1], n);
      assert s[..|s| - 1][..n] == s[..n];
    }
  }

  /** The decoder reads the size line of a chunk right exactly when the size has at most seven digits and nothing in
      the extensions ends the line or the input for it. */
  lemma SizeReadIff(c: Chunk, more: seq<Byte>)
    requires ChunkOk(c)
    ensures ReadHeader(SizeLine(c) + more) == Some(Header(|c.data|, more)) <==> Readable(c)
  {
    if ExtOk(c.ext) {
      HeaderOf(c, more);
      if |c.size| > MAX_DIGITS {
        PrefixValue(c.size, MAX_DIGITS);
      }
    } else {
      HeaderEarly(c, more);
    }
  }

  /** That of the last chunk with any number of digits. */
  lemma LastSizeReadIff(last: Chunk, more: seq<Byte>)
    requires LastOk(last)
    ensures ReadHeader(SizeLine(last) + more) == Some(Header(0, more)) <==> ExtOk(last.ext)
  {
    if ExtOk(last.ext) {
      HeaderOf(last, more);
      if |last.size| > MAX_DIGITS {
        PrefixValue(last.size, MAX_DIGITS);
      }
    } else {
      HeaderEarly(last, more);
    }
  }

  lemma CrlfSkipped(w: seq<Byte>)
    ensures Payload([CR, LF] + w) == Payload(w)
  {
    assert ([CR, LF] + w)[1..] == [LF] + w && ([LF] + w)[1..] == w;
    assert FromDigit([CR, LF] + w) == FromDigit([LF] + w) == FromDigit(w);
  }

  /** The data of a chunk whose size is read right comes out whole. */
  lemma DataDecoded(c: Chunk, more: seq<Byte>)
    requires ChunkOk(c) && Readable(c)
    ensures Payload(SizeLine(c) + (c.data + more)) == c.data + Payload(more)
  {
    var rest := c.data + more;
    SizeReadIff(c, rest);
    assert rest[..|c.data|] == c.data && rest[|c.data|..] == more;
  }

  lemma ChunkDecoded(c: Chunk, more: seq<Byte>)
    requires ChunkOk(c) && Readable(c)
    ensures Payload(Wire(c) + more) == c.data + Payload(more)
  {
    assert Wire(c) + more == SizeLine(c) + (c.data + ([CR, LF] + more));
    DataDecoded(c, [CR, LF] + more);
    CrlfSkipped(more);
  }

  /** A well-formed body with size lines that the decoder can read decodes to the data of its chunks. */
  lemma {:induction false} BodyDecoded(chunks: seq<Chunk>, last: Chunk, trailer: seq<Byte>)
    requires LastOk(last) && ExtOk(last.ext)
    requires forall i :: 0 <= i < |chunks| ==> ChunkOk(chunks[i]) && Readable(chunks[i])
    ensures Payload(Body(chunks, last, trailer)) == Data(chunks)
  {
    if chunks == [] {
      LastSizeReadIff(last, trailer);
    } else {
      BodyDecoded(chunks[1..], last, trailer);
      ChunkDecoded(chunks[0], Body(chunks[1..], last, trailer));
    }
  }

  /** A size with leading zeros ends the body: the grammar allows 00000001, the decoder reads 0000000. */
  lemma LeadingZeros(data: Byte, more: seq<Byte>)
    ensures
      var c := Chunk([48, 48, 48, 48, 48, 48, 48, 49], [], [data]);
      ChunkOk(c) && Payload(Wire(c) + more) == []
  {
    var c := Chunk([48, 48, 48, 48, 48, 48, 48, 49], [], [data]);
    var zeros: seq<Byte> := [48, 48, 48, 48, 48, 48, 48];
    ZeroDigits(zeros);
    assert c.size[..7] == zeros;
    assert HexValue(c.size) == 1;
    assert Wire(c) + more == SizeLine(c) + (c.data + [CR, LF] + more);
    HeaderOf(c, c.data + [CR, LF] + more);
  }

  /** A quoted string may hold any byte but control characters. One of 255 ends the input, and nothing is received. */
  lemma HighByteEnds(data: Byte, more: seq<Byte>)
    ensures
      var c := Chunk([49], [59, 97, 61, 34, 255, 34], [data]);
      ChunkOk(c) && Payload(Wire(c) + more) == []
  {
    var c := Chunk([49], [59, 97, 61, 34, 255, 34], [data]);
    assert HexValue(c.size) == 16 * HexValue([]) + 1;
    var rest := c.data + [CR, LF] + more;
    assert Wire(c) + more == SizeLine(c) + rest;
    SizeLineRead(c, rest);
    var line := c.size[1..] + c.ext + [CR] + [LF] + rest;
    assert line[0] == 59 && line[1] == 97 && line[2] == 61 && line[3] == 34 && line[4] == 255;
    SkipFour(line);
  }

  lemma SkipFour(w: seq<Byte>)
    requires |w| > 4 && !Ends(w[0]) && !Ends(w[1]) && !Ends(w[2]) && !Ends(w[3]) && Signed(w[4]) == EOF
    ensures PastLine(w) == None
  {
    assert w[1..][1..] == w[2..] && w[2..][1..] == w[3..] && w[3..][1..] == w[4..];
    assert PastLine(w[4..]) == None;
    assert PastLine(w[3..]) == PastLine(w[4..]);
    assert PastLine(w[2..]) == PastLine(w[3..]);
  }

  /** It may also be folded; then the next line is taken for the data. */
  lemma FoldEnds(data: Byte, more: seq<Byte>)
    ensures
      var c := Chunk([49], [59, 97, 61, 34, CR, LF, 32, 34], [data]);
      var p := Payload(Wire(c) + more);
      ChunkOk(c) && p != [] && p[0] == 32
  {
    var c := Chunk([49], [59, 97, 61, 34, CR, LF, 32, 34], [data]);
    assert HexValue(c.size) == 16 * HexValue([]) + 1;
    var rest := c.data + [CR, LF] + more;
    assert Wire(c) + more == SizeLine(c) + rest;
    SizeLineRead(c, rest);
    var head: seq<Byte> := [59, 97, 61, 34, CR];
    FoldedLine(head, [32, 34], rest);
    assert c.size[1..] == [] && c.ext == head + [LF] + [32, 34];
    PastLineOf(head, [32, 34] + ([CR] + [LF] + rest));
  }

  lemma FoldedLine(head: seq<Byte>, tail: seq<Byte>, rest: seq<Byte>)
    ensures ([] + (head + [LF] + tail) + [CR]) + [LF] + rest == head + [LF] + (tail + ([CR] + [LF] + rest))
  {
    var end := [CR] + [LF] + rest;
    Regroup(head + [LF], tail, end);
    assert [] + (head + [LF] + tail) == head + [LF] + tail;
  }

  lemma {:induction false} ZeroDigits(s: seq<Byte>)
    requires forall i :: 0 <= i < |s| ==> s[i] == 48
    ensures AllHex(s) && HexValue(s) == 0
  {
    if s != [] {
      ZeroDigits(s[..|s| - 1]);
    }
  }
}
