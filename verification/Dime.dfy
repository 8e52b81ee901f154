/** DIME records in nPVR/stdsoap2.cpp: soap_putdime and soap_getdime with attachments in memory, and
    soap_count_attachments. The layout is that of section 3.2 of draft-nielsen-dime-02: a header of 12 bytes, and
    options, id, type and data, each filled up to a multiple of 4. */
module DimeFormat {
  import opened Bytes

  const SOAP_DIME_ME: int := 2
  const SOAP_DIME_VERSION: int := 8
  const SOAP_DIME_MEDIA: int := 16

  const LIMIT16: nat := 0x1_0000
  const LIMIT31: nat := 0x8000_0000
  const LIMIT32: nat := 0x1_0000_0000

  /** An attachment to send; a null pointer is None. Options start with their type and length, two bytes each. */
  datatype Attachment = Attachment(data: seq<Byte>, id: Option<seq<Byte>>, kind: Option<seq<Byte>>, options: Option<seq<Byte>>)

  /** An attachment received */
  datatype Received = Received(ptr: Option<seq<Byte>>, size: nat, id: Option<seq<Byte>>, kind: Option<seq<Byte>>,
    options: Option<seq<Byte>>)

  function Two(n: nat): (r: seq<Byte>)
    ensures |r| == 2
  {
    [n / 256 % 256, n % 256]
  }

  function Four(n: nat): (r: seq<Byte>)
    ensures |r| == 4
  {
    [n / 256 / 256 / 256 % 256, n / 256 / 256 % 256, n / 256 % 256, n % 256]
  }

  function Word16(a: int, b: int): int {
    a * 256 + b
  }

  function Word32(a: int, b: int, c: int, d: int): int {
    ((a * 256 + b) * 256 + c) * 256 + d
  }

  /** -n & 3 */
  function Pad(n: nat): (r: nat)
    ensures r < 4 && (n + r) % 4 == 0
  {
    (4 - n % 4) % 4
  }

  function Zeros(n: nat): (r: seq<Byte>)
    ensures |r| == n
  {
    seq(n, _ => 0)
  }

  function Field(s: seq<Byte>): (r: seq<Byte>)
    ensures |r| == |s| + Pad(|s|)
  {
    s + Zeros(Pad(|s|))
  }

  /** The options say how long they are. */
  predicate Valid(a: Attachment) {
    a.options.Some? ==> |a.options.value| >= 4 && |a.options.value| >= OptLen(a.options.value)
  }

  function OptLen(o: seq<Byte>): nat
    requires |o| >= 4
  {
    Word16(o[2], o[3]) + 4
  }

  function Content(s: Option<seq<Byte>>): seq<Byte> {
    if s.Some? then s.value else []
  }

  function Options(a: Attachment): seq<Byte>
    requires Valid(a)
  {
    if a.options.Some? then a.options.value[..OptLen(a.options.value)] else []
  }

  /** Flags, as soap_putdime sets them */
  function Flags(last: bool): int {
    SOAP_DIME_VERSION + SOAP_DIME_MEDIA + if last then SOAP_DIME_ME else 0
  }

  function Header(flags: int, optlen: nat, idlen: nat, typelen: nat, size: nat): (r: seq<Byte>)
    requires 0 <= flags < 128
    ensures |r| == 12
  {
    [SOAP_DIME_VERSION + flags % 8, flags - flags % 16] + Two(optlen) + Two(idlen) + Two(typelen) + Four(size)
  }

  function Record(a: Attachment, last: bool): seq<Byte>
    requires Valid(a)
  {
    Header(Flags(last), |Options(a)|, |Content(a.id)|, |Content(a.kind)|, |a.data|)
      + (Field(Options(a)) + (Field(Content(a.id)) + (Field(Content(a.kind)) + Field(a.data))))
  }

  /** A list of records; the last one has the end flag. */
  function Text(l: seq<Attachment>): seq<Byte>
    requires forall a :: a in l ==> Valid(a)
  {
    if l == [] then [] else Record(l[0], |l| == 1) + Text(l[1..])
  }

  /** An empty string is read as none at all, and so is a pointer to no data. */
  function Filled(s: seq<Byte>): Option<seq<Byte>> {
    if s == [] then None else Some(s)
  }

  function Arrived(a: Attachment): Received
    requires Valid(a)
  {
    Received(Filled(a.data), |a.data|, Filled(Content(a.id)), Filled(Content(a.kind)), Filled(Options(a)))
  }

  /** The lengths go into the fields of the header. */
  predicate Fits(a: Attachment)
    requires Valid(a)
  {
    |Options(a)| < LIMIT16 && |Content(a.id)| < LIMIT16 && |Content(a.kind)| < LIMIT16 && |a.data| < LIMIT31
  }

  datatype Error = OK | SOAP_EOF | SOAP_EOM | SOAP_DIME_MISMATCH | SOAP_DIME_END | CHUNKED

  datatype Read<T> = Got(value: T, rest: seq<Byte>) | Failed(error: Error)

  /** soap_getdimefield: the length is kept in an int, and memory for more than that is not to be had. */
  function ReadField(s: seq<Byte>, n: nat): Read<Option<seq<Byte>>> {
    if n == 0 then Got(None, s)
    else if n >= LIMIT31 then Failed(SOAP_EOM)
    else if |s| < n + Pad(n) then Failed(SOAP_EOF)
    else Got(Some(s[..n]), s[n + Pad(n)..])
  }

  datatype Head = Head(flags: int, optlen: nat, idlen: nat, typelen: nat, size: nat)

  /** The four bytes of the size, the first one shifted as an int and the sum widened to 64 bits */
  function SizeOf(a: Byte, b: Byte, c: Byte, d: Byte): nat {
    var v := Word32(a, b, c, d);
    if a >= 128 then v + (LIMIT32 - 1) * LIMIT32 else v
  }

  function ReadHead(s: seq<Byte>): Read<Head> {
    if |s| < 12 then Failed(SOAP_EOF)
    else if s[0] - s[0] % 8 != SOAP_DIME_VERSION then Failed(SOAP_DIME_MISMATCH)
    else Got(Head(s[0] % 8 + (s[1] - s[1] % 16), Word16(s[2], s[3]), Word16(s[4], s[5]), Word16(s[6], s[7]),
                  SizeOf(s[8], s[9], s[10], s[11])), s[12..])
  }

  datatype Fields = Fields(options: Option<seq<Byte>>, id: Option<seq<Byte>>, kind: Option<seq<Byte>>)

  function ReadFields(s: seq<Byte>, h: Head): Read<Fields> {
    match ReadField(s, h.optlen)
    case Failed(e) => Failed(e)
    case Got(options, s1) =>
      match ReadField(s1, h.idlen)
      case Failed(e) => Failed(e)
      case Got(id, s2) =>
        match ReadField(s2, h.typelen)
        case Failed(e) => Failed(e)
        case Got(kind, s3) => Got(Fields(options, id, kind), s3)
  }

  datatype Entry = Entry(received: Received, last: bool)

  /** The rest of a record, after its header */
  function ReadRest(h: Head, s: seq<Byte>): Read<Entry> {
    match ReadFields(s, h)
    case Failed(e) => Failed(e)
    case Got(f, s2) =>
      if h.flags % 2 == 1 then Failed(CHUNKED)
      else
        match ReadField(s2, h.size)
        case Failed(e) => Failed(e)
        case Got(data, s3) =>
          Got(Entry(Received(data, h.size, f.id, f.kind, f.options), h.flags / 2 % 2 == 1), s3)
  }

  function ReadRecord(s: seq<Byte>): Read<Entry> {
    match ReadHead(s)
    case Failed(e) => Failed(e)
    case Got(h, s1) => ReadRest(h, s1)
  }
}

/** The layout of a record, by its offsets. */
module DimeLayout {
  import opened Bytes
  import opened DimeFormat

  function Up4(n: nat): nat {
    (n + 3) / 4 * 4
  }

  /** A field lies at an offset, and is filled up with zeros. */
  predicate LiesAt(r: seq<Byte>, at: nat, f: seq<Byte>) {
    && at + Up4(|f|) <= |r| && r[at..at + |f|] == f
    && forall i :: at + |f| <= i < at + Up4(|f|) ==> r[i] == 0
  }

  lemma FieldLies(h: seq<Byte>, f: seq<Byte>, rest: seq<Byte>)
    ensures LiesAt(h + (Field(f) + rest), |h|, f)
  {
    var r := h + (Field(f) + rest);
    assert r[|h|..|h| + |f|] == f;
    forall i | |h| + |f| <= i < |h| + Up4(|f|)
      ensures r[i] == 0
    {
      assert r[i] == Field(f)[i - |h|];
    }
  }

  /** Four fields behind a header */
  ghost predicate Fields4(r: seq<Byte>, n: nat, a: seq<Byte>, b: seq<Byte>, c: seq<Byte>, d: seq<Byte>) {
    var o := n + Up4(|a|);
    var i := o + Up4(|b|);
    var k := i + Up4(|c|);
    |r| == k + Up4(|d|) && LiesAt(r, n, a) && LiesAt(r, o, b) && LiesAt(r, i, c) && LiesAt(r, k, d)
  }

  lemma SamePlaces(h: seq<Byte>, x: seq<Byte>, y: seq<Byte>, z: seq<Byte>, w: seq<Byte>)
    ensures h + (x + (y + (z + w))) == (h + x) + (y + (z + w))
    ensures h + (x + (y + (z + w))) == (h + x + y) + (z + w)
    ensures h + (x + (y + (z + w))) == (h + x + y + z) + (w + [])
  {
    Regroup(h, x, y + (z + w));
    Regroup(h + x, y, z + w);
    Regroup(h + x + y, z, w);
    assert w + [] == w;
  }

  lemma AtOffsets(
      r: seq<Byte>, n: nat, o: nat, i: nat, k: nat, a: seq<Byte>, b: seq<Byte>, c: seq<Byte>, d: seq<Byte>)
    requires o == n + Up4(|a|) && i == o + Up4(|b|) && k == i + Up4(|c|) && |r| == k + Up4(|d|)
    requires LiesAt(r, n, a) && LiesAt(r, o, b) && LiesAt(r, i, c) && LiesAt(r, k, d)
    ensures Fields4(r, n, a, b, c, d)
  {
  }

  lemma FieldLength(f: seq<Byte>)
    ensures |Field(f)| == Up4(|f|)
  {
  }

  lemma FieldsLie(h: seq<Byte>, a: seq<Byte>, b: seq<Byte>, c: seq<Byte>, d: seq<Byte>)
    ensures Fields4(h + (Field(a) + (Field(b) + (Field(c) + Field(d)))), |h|, a, b, c, d)
  {
    var x, y, z, w := Field(a), Field(b), Field(c), Field(d);
    var r := h + (x + (y + (z + w)));
    assert LiesAt(r, |h|, a) && LiesAt(r, |h + x|, b) && LiesAt(r, |h + x + y|, c) && LiesAt(r, |h + x + y + z|, d) by {
      SamePlaces(h, x, y, z, w);
      FieldLies(h, a, y + (z + w));
      FieldLies(h + x, b, z + w);
      FieldLies(h + x + y, c, w);
      FieldLies(h + x + y + z, d, []);
    }
    FieldLength(a);
    FieldLength(b);
    FieldLength(c);
    FieldLength(d);
    AtOffsets(r, |h|, |h + x|, |h + x + y|, |h + x + y + z|, a, b, c, d);
  }

  /** A number with the high byte first */
  function Number(s: seq<Byte>): nat {
    if s == [] then 0 else 256 * Number(s[..|s| - 1]) + s[|s| - 1]
  }

  lemma {:induction false} NumberNext(s: seq<Byte>, b: Byte)
    ensures Number(s + [b]) == 256 * Number(s) + b
  {
    assert (s + [b])[..|s|] == s;
  }

  lemma TwoIs(n: nat)
    ensures Number(Two(n)) == n % 65536
  {
    NumberNext([], n / 256 % 256);
    NumberNext([n / 256 % 256], n % 256);
    assert [] + [n / 256 % 256] == [n / 256 % 256] && [n / 256 % 256] + [n % 256] == Two(n);
  }

  lemma FourIs(n: nat)
    ensures Number(Four(n)) == n % 4294967296
  {
    var high, low := Two(n / 65536), Two(n);
    assert Four(n) == high + [low[0]] + [low[1]] by {
      assert n / 256 / 256 == n / 65536 && n / 256 / 256 / 256 == n / 65536 / 256;
    }
    NumberNext(high, low[0]);
    NumberNext(high + [low[0]], low[1]);
    TwoIs(n / 65536);
    HalvesJoin(n);
  }

  lemma RemainderIs(n: nat, q: nat, x: nat, m: nat)
    requires x < m && n == q * m + x
    ensures n % m == x
  {
    assert n / m == q by {
      assert (n - q * m) == x;
      QuotientIs(n, q, x, m);
    }
  }

  lemma QuotientIs(n: nat, q: nat, x: nat, m: nat)
    requires x < m && n == q * m + x
    ensures n / m == q
  {
    var k := n / m - q;
    assert n == (n / m) * m + n % m;
    assert k * m == x - n % m;
    assert 0 - m < k * m < m;
    assert 0 - 1 < k < 1;
  }

  lemma HalvesJoin(n: nat)
    ensures 256 * (256 * (n / 65536 % 65536) + n / 256 % 256) + n % 256 == n % 4294967296
  {
    var low, high := n % 65536, n / 65536;
    LowBytes(n);
    RemainderIs(n, high / 65536, 65536 * (high % 65536) + low, 4294967296);
  }

  lemma LowBytes(n: nat)
    ensures n % 65536 == 256 * (n / 256 % 256) + n % 256
  {
    RemainderIs(n, n / 256 / 256, 256 * (n / 256 % 256) + n % 256, 65536);
  }

  /** Section 3.2 of draft-nielsen-dime-02: version 1 with the end flag, the media type, and four lengths with the high
      byte first */
  lemma HeaderLayout(last: bool, optlen: nat, idlen: nat, typelen: nat, size: nat)
    ensures
      var h := Header(Flags(last), optlen, idlen, typelen, size);
      && h[0] == (if last then 10 else 8) && h[1] == 16
      && Number(h[2..4]) == optlen % 65536 && Number(h[4..6]) == idlen % 65536 && Number(h[6..8]) == typelen % 65536
      && Number(h[8..12]) == size % 4294967296
  {
    var h := Header(Flags(last), optlen, idlen, typelen, size);
    assert h[2..4] == Two(optlen) && h[4..6] == Two(idlen) && h[6..8] == Two(typelen) && h[8..12] == Four(size);
    TwoIs(optlen);
    TwoIs(idlen);
    TwoIs(typelen);
    FourIs(size);
  }

  /** Behind the header, options, id, type and data, each filled up with zeros to a multiple of four */
  lemma RecordLayout(a: Attachment, last: bool)
    requires Valid(a)
    ensures Fields4(Record(a, last), 12, Options(a), Content(a.id), Content(a.kind), a.data)
    ensures Record(a, last)[..12] == Header(Flags(last), |Options(a)|, |Content(a.id)|, |Content(a.kind)|, |a.data|)
  {
    FieldsLie(Header(Flags(last), |Options(a)|, |Content(a.id)|, |Content(a.kind)|, |a.data|),
              Options(a), Content(a.id), Content(a.kind), a.data);
  }
}

module DimeRoundTrip {
  import opened Bytes
  import opened DimeFormat

  lemma FieldRead(f: seq<Byte>, rest: seq<Byte>)
    requires |f| < LIMIT31
    ensures ReadField(Field(f) + rest, |f|) == Got(Filled(f), rest)
  {
    var s := Field(f) + rest;
    if f != [] {
      assert s[..|f|] == f;
      assert s[|f| + Pad(|f|)..] == rest;
    } else {
      assert s == rest;
    }
  }

  /** What is read of a field is as long as the header says. */
  lemma FieldLength(s: seq<Byte>, n: nat)
    ensures ReadField(s, n).Got? ==> |Content(ReadField(s, n).value)| == n
  {
  }

  lemma TwoRead(n: nat)
    ensures Word16(Two(n)[0], Two(n)[1]) == n % LIMIT16
  {
  }

  lemma FourRead(n: nat)
    ensures Word32(Four(n)[0], Four(n)[1], Four(n)[2], Four(n)[3]) == n % LIMIT32
    ensures Four(n)[0] == n % LIMIT32 / 0x100_0000
  {
    var n1 := n / 256;
    var n2 := n1 / 256;
    var n3 := n2 / 256;
    var n4 := n3 / 256;
    var m := Word32(n3 % 256, n2 % 256, n1 % 256, n % 256);
    assert n == n4 * LIMIT32 + m;
    assert m == n3 % 256 * 0x100_0000 + (n2 % 256 * 0x1_0000 + n1 % 256 * 256 + n % 256);
  }

  /** What a header keeps: 16 bits of three lengths, and of the size 32 bits with a sign */
  function Kept(flags: int, optlen: nat, idlen: nat, typelen: nat, size: nat): Head {
    var n := size % LIMIT32;
    Head(flags % 8 + (flags - flags % 16), optlen % LIMIT16, idlen % LIMIT16, typelen % LIMIT16,
      if n < LIMIT31 then n else n + (LIMIT32 - 1) * LIMIT32)
  }

  lemma SizeRead(size: nat)
    ensures
      var s, n := Four(size), size % LIMIT32;
      SizeOf(s[0], s[1], s[2], s[3]) == if n < LIMIT31 then n else n + (LIMIT32 - 1) * LIMIT32
  {
    FourRead(size);
  }

  lemma FlagsRead(flags: int)
    requires 0 <= flags < 128
    ensures
      var a, b := SOAP_DIME_VERSION + flags % 8, flags - flags % 16;
      a - a % 8 == SOAP_DIME_VERSION && a % 8 + (b - b % 16) == flags % 8 + (flags - flags % 16)
  {
  }

  lemma HeaderRead(flags: int, optlen: nat, idlen: nat, typelen: nat, size: nat, rest: seq<Byte>)
    requires 0 <= flags < 128
    ensures ReadHead(Header(flags, optlen, idlen, typelen, size) + rest) == Got(Kept(flags, optlen, idlen, typelen, size), rest)
  {
    var s := Header(flags, optlen, idlen, typelen, size) + rest;
    assert s[2..4] == Two(optlen) && s[4..6] == Two(idlen) && s[6..8] == Two(typelen) && s[8..12] == Four(size);
    assert s[12..] == rest;
    FlagsRead(flags);
    TwoRead(optlen);
    TwoRead(idlen);
    TwoRead(typelen);
    SizeRead(size);
  }

  lemma FieldsRead(a: Attachment, h: Head, rest: seq<Byte>)
    requires Valid(a) && Fits(a)
    requires h.optlen == |Options(a)| && h.idlen == |Content(a.id)| && h.typelen == |Content(a.kind)|
    ensures
      ReadFields(Field(Options(a)) + (Field(Content(a.id)) + (Field(Content(a.kind)) + rest)), h)
      == Got(Fields(Filled(Options(a)), Filled(Content(a.id)), Filled(Content(a.kind))), rest)
  {
    FieldRead(Options(a), Field(Content(a.id)) + (Field(Content(a.kind)) + rest));
    FieldRead(Content(a.id), Field(Content(a.kind)) + rest);
    FieldRead(Content(a.kind), rest);
  }

  /** What follows the header of a record */
  function Body(a: Attachment, rest: seq<Byte>): seq<Byte>
    requires Valid(a)
  {
    Field(Options(a)) + (Field(Content(a.id)) + (Field(Content(a.kind)) + (Field(a.data) + rest)))
  }

  function HeadOf(a: Attachment, last: bool): Head
    requires Valid(a)
  {
    Kept(Flags(last), |Options(a)|, |Content(a.id)|, |Content(a.kind)|, |a.data|)
  }

  function HeaderOf(a: Attachment, last: bool): seq<Byte>
    requires Valid(a)
  {
    Header(Flags(last), |Options(a)|, |Content(a.id)|, |Content(a.kind)|, |a.data|)
  }

  lemma RecordSplit(a: Attachment, last: bool, rest: seq<Byte>)
    requires Valid(a)
    ensures Record(a, last) + rest == HeaderOf(a, last) + Body(a, rest)
  {
    var o, i, k, d := Field(Options(a)), Field(Content(a.id)), Field(Content(a.kind)), Field(a.data);
    Regroup(HeaderOf(a, last), o + (i + (k + d)), rest);
    Regroup(o, i + (k + d), rest);
    Regroup(i, k + d, rest);
    Regroup(k, d, rest);
  }

  lemma HeaderOfRead(a: Attachment, last: bool, body: seq<Byte>)
    requires Valid(a)
    ensures ReadHead(HeaderOf(a, last) + body) == Got(HeadOf(a, last), body)
  {
    HeaderRead(Flags(last), |Options(a)|, |Content(a.id)|, |Content(a.kind)|, |a.data|, body);
  }

  lemma HeadRead(a: Attachment, last: bool, rest: seq<Byte>)
    requires Valid(a)
    ensures ReadHead(Record(a, last) + rest) == Got(HeadOf(a, last), Body(a, rest))
  {
    RecordSplit(a, last, rest);
    HeaderOfRead(a, last, Body(a, rest));
  }

  lemma HeadFits(a: Attachment, last: bool)
    requires Valid(a) && Fits(a)
    ensures HeadOf(a, last) == Head(if last then 18 else 16, |Options(a)|, |Content(a.id)|, |Content(a.kind)|, |a.data|)
  {
    KeptWhole(Flags(last), |Options(a)|, |Content(a.id)|, |Content(a.kind)|, |a.data|);
  }

  lemma KeptWhole(flags: int, optlen: nat, idlen: nat, typelen: nat, size: nat)
    requires optlen < LIMIT16 && idlen < LIMIT16 && typelen < LIMIT16 && size < LIMIT31
    ensures Kept(flags, optlen, idlen, typelen, size) == Head(flags % 8 + (flags - flags % 16), optlen, idlen, typelen, size)
  {
  }

  /** The header when everything fits */
  function Plain(a: Attachment, last: bool): Head
    requires Valid(a)
  {
    Head(if last then 18 else 16, |Options(a)|, |Content(a.id)|, |Content(a.kind)|, |a.data|)
  }

  lemma PlainRead(a: Attachment, last: bool, rest: seq<Byte>)
    requires Valid(a) && Fits(a)
    ensures ReadHead(Record(a, last) + rest) == Got(Plain(a, last), Body(a, rest))
  {
    HeadRead(a, last, rest);
    HeadFits(a, last);
  }

  lemma BodyRead(a: Attachment, last: bool, rest: seq<Byte>)
    requires Valid(a) && Fits(a)
    ensures ReadFields(Body(a, rest), Plain(a, last))
      == Got(Fields(Filled(Options(a)), Filled(Content(a.id)), Filled(Content(a.kind))), Field(a.data) + rest)
  {
    FieldsRead(a, Plain(a, last), Field(a.data) + rest);
  }

  lemma RestRead(a: Attachment, last: bool, rest: seq<Byte>)
    requires Valid(a) && Fits(a)
    ensures ReadRest(Plain(a, last), Body(a, rest)) == Got(Entry(Arrived(a), last), rest)
  {
    BodyRead(a, last, rest);
    FieldRead(a.data, rest);
  }

  lemma Assembled(s: seq<Byte>, h: Head, s1: seq<Byte>)
    requires ReadHead(s) == Got(h, s1)
    ensures ReadRecord(s) == ReadRest(h, s1)
  {
  }

  lemma RecordRead(a: Attachment, last: bool, rest: seq<Byte>)
    requires Valid(a) && Fits(a)
    ensures ReadRecord(Record(a, last) + rest) == Got(Entry(Arrived(a), last), rest)
  {
    PlainRead(a, last, rest);
    RestRead(a, last, rest);
    Assembled(Record(a, last) + rest, Plain(a, last), Body(a, rest));
  }

  /** What is read is as long as the header says. */
  lemma ReadLengths(s: seq<Byte>, h: Head)
    ensures
      var r := ReadFields(s, h);
      r.Got? ==> |Content(r.value.options)| == h.optlen && |Content(r.value.id)| == h.idlen && |Content(r.value.kind)| == h.typelen
  {
    FieldLength(s, h.optlen);
    if ReadField(s, h.optlen).Got? {
      var s1 := ReadField(s, h.optlen).rest;
      FieldLength(s1, h.idlen);
      if ReadField(s1, h.idlen).Got? {
        FieldLength(ReadField(s1, h.idlen).rest, h.typelen);
      }
    }
  }

  /** Fields too long for the header do not come back as they were. */
  lemma LongIsNotRead(a: Attachment, last: bool, rest: seq<Byte>)
    requires Valid(a) && !Fits(a)
    ensures ReadRecord(Record(a, last) + rest) != Got(Entry(Arrived(a), last), rest)
  {
    HeadRead(a, last, rest);
    ReadLengths(Body(a, rest), HeadOf(a, last));
  }

  /** A record is read back exactly when its lengths fit the header: below 2^16, and data below 2^31. */
  lemma RecordReadIff(a: Attachment, last: bool, rest: seq<Byte>)
    requires Valid(a)
    ensures ReadRecord(Record(a, last) + rest) == Got(Entry(Arrived(a), last), rest) <==> Fits(a)
  {
    if Fits(a) {
      RecordRead(a, last, rest);
    } else {
      LongIsNotRead(a, last, rest);
    }
  }

  /** What soap_count_attachments adds for an attachment: 12 bytes, and every length made a multiple of 4. */
  function Counted(a: Attachment): nat
    requires Valid(a)
  {
    12 + (|a.data| + 3) / 4 * 4
    + (if a.id.Some? then (|a.id.value| + 3) / 4 * 4 else 0)
    + (if a.kind.Some? then (|a.kind.value| + 3) / 4 * 4 else 0)
    + (if a.options.Some? then (Word16(a.options.value[2], a.options.value[3]) + 7) / 4 * 4 else 0)
  }

  lemma Rounded(n: nat)
    ensures n + Pad(n) == (n + 3) / 4 * 4
  {
  }

  lemma RecordLength(a: Attachment, last: bool)
    requires Valid(a)
    ensures |Record(a, last)|
      == 12 + |Field(Options(a))| + |Field(Content(a.id))| + |Field(Content(a.kind))| + |Field(a.data)|
  {
  }

  lemma FieldRounded(s: seq<Byte>)
    ensures |Field(s)| == (|s| + 3) / 4 * 4
  {
    Rounded(|s|);
  }

  lemma CountedIsLength(a: Attachment, last: bool)
    requires Valid(a)
    ensures |Record(a, last)| == Counted(a)
  {
    RecordLength(a, last);
    FieldRounded(a.data);
    FieldRounded(Content(a.id));
    FieldRounded(Content(a.kind));
    FieldRounded(Options(a));
  }

  ghost predicate AllValid(l: seq<Attachment>) {
    forall a :: a in l ==> Valid(a)
  }

  function AllArrived(l: seq<Attachment>): (r: seq<Received>)
    requires AllValid(l)
    ensures |r| == |l|
  {
    if l == [] then [] else [Arrived(l[0])] + AllArrived(l[1..])
  }

  lemma TextSplit(l: seq<Attachment>, after: seq<Byte>)
    requires l != [] && AllValid(l)
    ensures Text(l) + after == Record(l[0], |l| == 1) + (Text(l[1..]) + after)
  {
    Regroup(Record(l[0], |l| == 1), Text(l[1..]), after);
  }

  /** The first record of a text, and what is left */
  lemma FirstRead(l: seq<Attachment>, rest: seq<Byte>)
    requires l != [] && AllValid(l) && Fits(l[0])
    ensures ReadRecord(Text(l) + rest) == Got(Entry(Arrived(l[0]), |l| == 1), Text(l[1..]) + rest)
  {
    TextSplit(l, rest);
    RecordRead(l[0], |l| == 1, Text(l[1..]) + rest);
  }
}

/** The functions themselves: writing to an output, and reading from a stream */
module Dime {
  import opened Bytes
  import opened Outputs
  import opened DimeFormat
  import opened DimeRoundTrip

  /** soap_putdimefield */
  method PutDimeField(o: Output, s: seq<Byte>)
    requires o.Right()
    modifies o`count, o`sent, o`text
    ensures o.Right() && o.text == old(o.text) + Field(s)
  {
    o.SendRaw(s);
    o.SendRaw(Zeros(Pad(|s|)));
    assert old(o.text) + s + Zeros(Pad(|s|)) == old(o.text) + Field(s);
  }

  /** soap_putdimehdr */
  method PutDimeHdr(o: Output, flags: int, id: Option<seq<Byte>>, kind: Option<seq<Byte>>, options: Option<seq<Byte>>, size: nat)
    requires o.Right() && 0 <= flags < 128 && Valid(Attachment([], id, kind, options))
    modifies o`count, o`sent, o`text
    ensures o.Right()
    ensures
      var a := Attachment([], id, kind, options);
      o.text == old(o.text) + (Header(flags, |Options(a)|, |Content(id)|, |Content(kind)|, size)
        + (Field(Options(a)) + (Field(Content(id)) + Field(Content(kind)))))
  {
    var optlen, idlen, typelen := 0, 0, 0;
    if options.Some? {
      optlen := OptLen(options.value);
    }
    if id.Some? {
      idlen := |id.value|;
    }
    if kind.Some? {
      typelen := |kind.value|;
    }
    ghost var before := o.text;
    var tmp := Header(flags, optlen, idlen, typelen, size);
    o.SendRaw(tmp);
    PutDimeField(o, if options.Some? then options.value[..optlen] else []);
    PutDimeField(o, Content(id));
    PutDimeField(o, Content(kind));
    Chained(before, tmp, Field(Options(Attachment([], id, kind, options))), Field(Content(id)), Field(Content(kind)));
  }

  lemma Chained(t: seq<Byte>, h: seq<Byte>, o: seq<Byte>, i: seq<Byte>, k: seq<Byte>)
    ensures t + h + o + i + k == t + (h + (o + (i + k)))
  {
  }

  method PutRecord(o: Output, a: Attachment, last: bool)
    requires o.Right() && Valid(a)
    modifies o`count, o`sent, o`text
    ensures o.Right() && o.text == old(o.text) + Record(a, last)
  {
    var flags := SOAP_DIME_VERSION + SOAP_DIME_MEDIA;
    if last {
      flags := flags + SOAP_DIME_ME;
    }
    ghost var before := o.text;
    PutDimeHdr(o, flags, a.id, a.kind, a.options, |a.data|);
    PutDimeField(o, a.data);
    assert Options(Attachment([], a.id, a.kind, a.options)) == Options(a);
    RecordAfter(before, a, last);
  }

  lemma RecordAfter(t: seq<Byte>, a: Attachment, last: bool)
    requires Valid(a)
    ensures
      var head := HeaderOf(a, last) + (Field(Options(a)) + (Field(Content(a.id)) + Field(Content(a.kind))));
      t + head + Field(a.data) == t + Record(a, last)
  {
    var h, o, i, k, d :=
      HeaderOf(a, last), Field(Options(a)), Field(Content(a.id)), Field(Content(a.kind)), Field(a.data);
    Regroup(t, h + (o + (i + k)), d);
    Regroup(h, o + (i + k), d);
    Regroup(o, i + k, d);
    Regroup(i, k, d);
  }

  lemma NextRecord(t: seq<Byte>, l: seq<Attachment>, i: nat)
    requires i < |l| && AllValid(l)
    ensures t + Text(l[i..]) == t + Record(l[i], i + 1 == |l|) + Text(l[i + 1..])
  {
    assert l[i..][0] == l[i] && l[i..][1..] == l[i + 1..];
    Regroup(t, Record(l[i], i + 1 == |l|), Text(l[i + 1..]));
  }

  /** soap_putdime, and in the counting pass the length of the same text */
  method PutDime(o: Output, encDime: bool, l: seq<Attachment>)
    requires o.Right() && AllValid(l)
    modifies o`count, o`sent, o`text
    ensures o.Right() && o.text == old(o.text) + if encDime then Text(l) else []
  {
    if !encDime {
      assert o.text + [] == o.text;
      return;
    }
    var i := 0;
    ghost var before := o.text;
    assert l[0..] == l && before + Text(l) == o.text + Text(l[0..]);
    while i < |l|
      invariant i <= |l| && o.Right() && before + Text(l) == o.text + Text(l[i..])
    {
      NextRecord(o.text, l, i);
      PutRecord(o, l[i], i + 1 == |l|);
      i := i + 1;
    }
    assert o.text + [] == o.text;
  }

  lemma NextLength(l: seq<Attachment>, i: nat)
    requires i < |l| && AllValid(l)
    ensures |Text(l[i..])| == Counted(l[i]) + |Text(l[i + 1..])|
  {
    assert l[i..][0] == l[i] && l[i..][1..] == l[i + 1..];
    CountedIsLength(l[i], |l[i..]| == 1);
  }

  method CountOne(count0: nat, a: Attachment) returns (count: nat)
    requires Valid(a)
    ensures count == count0 + Counted(a)
  {
    count := count0 + 12 + (|a.data| + 3) / 4 * 4;
    if a.id.Some? {
      count := count + (|a.id.value| + 3) / 4 * 4;
    }
    if a.kind.Some? {
      count := count + (|a.kind.value| + 3) / 4 * 4;
    }
    if a.options.Some? {
      count := count + (Word16(a.options.value[2], a.options.value[3]) + 7) / 4 * 4;
    }
  }

  /** soap_count_attachments is the number of bytes that soap_putdime will write, whatever the lengths. */
  method CountAttachments(count0: nat, encDime: bool, l: seq<Attachment>) returns (count: nat)
    requires AllValid(l)
    ensures count == count0 + if encDime then |Text(l)| else 0
  {
    count := count0;
    if !encDime {
      return;
    }
    var i := 0;
    assert l[0..] == l;
    while i < |l|
      invariant i <= |l| && count + |Text(l[i..])| == count0 + |Text(l)|
    {
      NextLength(l, i);
      count := CountOne(count, l[i]);
      i := i + 1;
    }
    assert l[i..] == [];
  }

  class Reader {
    const input: seq<Byte>
    var pos: nat
    var encDime: bool
    var head: Head
    var fields: Fields
    var list: seq<Received>

    ghost predicate Ok()
      reads this
    {
      pos <= |input|
    }

    ghost function Left(): seq<Byte>
      requires Ok()
      reads this
    {
      input[pos..]
    }

    constructor (input: seq<Byte>)
      ensures Ok() && Left() == input && encDime && list == [] && this.input == input
    {
      this.input := input;
      pos, encDime, list := 0, true, [];
      head := Head(0, 0, 0, 0, 0);
      fields := Fields(None, None, None);
      new;
      assert input[0..] == input;
    }

    /** soap_getchar: None at the end of the stream */
    method GetChar() returns (c: Option<Byte>)
      requires Ok()
      modifies `pos
      ensures Ok() && old(pos) <= pos
      ensures if old(pos) == |input| then c == None && pos == old(pos) else c == Some(input[old(pos)]) && pos == old(pos) + 1
    {
      if pos == |input| {
        return None;
      }
      c := Some(input[pos]);
      pos := pos + 1;
    }

    /** soap_move */
    method Move(n: nat) returns (e: Error)
      requires Ok()
      modifies `pos
      ensures Ok() && e == (if old(pos) + n <= |input| then OK else SOAP_EOF)
      ensures pos == if old(pos) + n <= |input| then old(pos) + n else |input|
    {
      var i := n;
      while i > 0
        invariant Ok() && 0 <= i <= n && pos == old(pos) + (n - i)
      {
        var c := GetChar();
        if c == None {
          return SOAP_EOF;
        }
        i := i - 1;
      }
      e := OK;
    }

    /** The bytes of a field */
    method GetBytes(n: nat) returns (s: seq<Byte>, e: Error)
      requires Ok()
      modifies `pos
      ensures Ok() && e == (if old(pos) + n <= |input| then OK else SOAP_EOF)
      ensures e == OK ==> pos == old(pos) + n && s == input[old(pos)..pos]
    {
      s, e := [], OK;
      var i := n;
      while i > 0
        invariant Ok() && 0 <= i <= n && pos == old(pos) + (n - i) && s == input[old(pos)..pos]
      {
        var c := GetChar();
        if c == None {
          return s, SOAP_EOF;
        }
        assert input[old(pos)..pos] == s + [c.value];
        s := s + [c.value];
        i := i - 1;
      }
    }

    /** soap_getdimefield */
    method GetDimeField(n: nat) returns (p: Option<seq<Byte>>, e: Error)
      requires Ok()
      modifies `pos
      ensures Ok()
      ensures
        match ReadField(old(Left()), n)
        case Got(f, rest) => e == OK && p == f && Left() == rest
        case Failed(x) => e == x && e != OK && p == None
    {
      p, e := None, OK;
      if n > 0 {
        if n >= LIMIT31 {
          return None, SOAP_EOM;
        }
        ghost var start := pos;
        var s;
        s, e := GetBytes(n);
        if e != OK {
          return None, SOAP_EOF;
        }
        assert s == input[start..][..n];
        e := Move(Pad(n));
        if e != OK {
          return None, SOAP_EOF;
        }
        assert input[start..][n + Pad(n)..] == input[pos..];
        p := Some(s);
      }
    }

    /** The twelve bytes of a header */
    method GetTwelve() returns (tmp: seq<Byte>, e: Error)
      requires Ok()
      modifies `pos
      ensures Ok() && e == (if |old(Left())| >= 12 then OK else SOAP_EOF)
      ensures e == OK ==> tmp == old(Left())[..12] && Left() == old(Left())[12..]
    {
      ghost var start := pos;
      tmp, e := GetBytes(12);
      assert e == OK ==> input[start..][..12] == input[start..pos] && input[start..][12..] == input[pos..];
    }

    /** The three fields of a header */
    method GetFields(h: Head) returns (f: Fields, e: Error)
      requires Ok()
      modifies `pos
      ensures Ok()
      ensures
        match ReadFields(old(Left()), h)
        case Got(g, rest) => e == OK && f == g && Left() == rest
        case Failed(x) => e == x && e != OK
    {
      f := Fields(None, None, None);
      var options, id, kind;
      options, e := GetDimeField(h.optlen);
      if e != OK {
        return;
      }
      id, e := GetDimeField(h.idlen);
      if e != OK {
        return;
      }
      kind, e := GetDimeField(h.typelen);
      if e != OK {
        return;
      }
      f := Fields(options, id, kind);
    }

    /** The twelve bytes at the start of a header */
    method GetHead() returns (e: Error)
      requires Ok()
      modifies `pos, `head
      ensures
        Ok()
        && match ReadHead(old(Left()))
           case Failed(x) => e == x && e != OK
           case Got(h, rest) => e == OK && head == h && Left() == rest
    {
      var tmp;
      tmp, e := GetTwelve();
      if e != OK {
        return;
      }
      if tmp[0] - tmp[0] % 8 != SOAP_DIME_VERSION {
        return SOAP_DIME_MISMATCH;
      }
      head := Head(tmp[0] % 8 + (tmp[1] - tmp[1] % 16), Word16(tmp[2], tmp[3]), Word16(tmp[4], tmp[5]),
        Word16(tmp[6], tmp[7]), SizeOf(tmp[8], tmp[9], tmp[10], tmp[11]));
    }

    /** soap_getdimehdr: the end flag ends the mode. */
    method GetDimeHdr() returns (e: Error)
      requires Ok()
      modifies `pos, `head, `fields, `encDime
      ensures Ok()
      ensures !old(encDime) ==> e == SOAP_DIME_END && pos == old(pos) && !encDime
      ensures old(encDime) ==>
        match ReadHead(old(Left()))
        case Failed(x) => e == x && e != OK
        case Got(h, s1) =>
          match ReadFields(s1, h)
          case Failed(x) => e == x && e != OK
          case Got(f, s2) => e == OK && head == h && fields == f && Left() == s2 && encDime == (h.flags / 2 % 2 != 1)
    {
      if !encDime {
        return SOAP_DIME_END;
      }
      e := GetHead();
      if e != OK {
        return;
      }
      fields, e := GetFields(head);
      if e != OK {
        return;
      }
      if head.flags / 2 % 2 == 1 {
        encDime := false;
      }
    }

    /** soap_getdime: the attachment goes to the end of the list, without data when they are cut off. */
    method GetDime() returns (e: Error)
      requires Ok()
      modifies this
      ensures Ok() && old(list) <= list && |list| <= |old(list)| + 1
      ensures !old(encDime) ==> e == SOAP_DIME_END && list == old(list) && !encDime
      ensures old(encDime) ==>
        match ReadRecord(old(Left()))
        case Failed(x) => e == x && e != OK
        case Got(entry, rest) => e == OK && list == old(list) + [entry.received] && Left() == rest && encDime == !entry.last
    {
      e := GetDimeHdr();
      if e != OK {
        return;
      }
      if head.flags % 2 == 1 {
        return CHUNKED;
      }
      var ptr;
      ptr, e := GetDimeField(head.size);
      list := list + [Received(ptr, head.size, fields.id, fields.kind, fields.options)];
    }

    /** The first attachment of a text */
    method GetFirst(ghost l: seq<Attachment>, ghost rest: seq<Byte>) returns (e: Error)
      requires Ok() && encDime && l != [] && AllValid(l) && Fits(l[0]) && Left() == Text(l) + rest
      modifies this
      ensures Ok() && e == OK && list == old(list) + [Arrived(l[0])] && Left() == Text(l[1..]) + rest && encDime == (|l| > 1)
    {
      FirstRead(l, rest);
      e := GetDime();
    }

    /** Attachments until the end flag: all of them, in order */
    method GetAll(ghost l: seq<Attachment>, ghost rest: seq<Byte>) returns (e: Error)
      requires Ok() && encDime && list == [] && l != [] && AllValid(l) && (forall a :: a in l ==> Fits(a))
      requires Left() == Text(l) + rest
      modifies this
      ensures Ok() && e == OK && list == AllArrived(l) && Left() == rest && !encDime
    {
      e := OK;
      ghost var m := l;
      assert list + AllArrived(l) == AllArrived(l);
      while encDime && e == OK
        invariant Ok() && e == OK && AllValid(m) && (forall a :: a in m ==> Fits(a)) && (encDime <==> m != [])
        invariant Left() == Text(m) + rest && list + AllArrived(m) == AllArrived(l)
        decreases |m|
      {
        Moved(list, m);
        e := GetFirst(m, rest);
        m := m[1..];
      }
      assert [] + rest == rest && list + [] == list;
    }

    static lemma Moved(list: seq<Received>, m: seq<Attachment>)
      requires m != [] && AllValid(m)
      ensures list + AllArrived(m) == list + [Arrived(m[0])] + AllArrived(m[1..])
    {
    }
  }

  /** Attachments written and read back */
  method WriteAndRead(l: seq<Attachment>) returns (list: seq<Received>)
    requires AllValid(l) && forall a :: a in l ==> Fits(a)
    ensures list == AllArrived(l)
  {
    list := [];
    if l != [] {
      var o := new Output(false);
      PutDime(o, true, l);
      var r := new Reader(o.sent);
      assert [] + Text(l) == Text(l) + [];
      var e := r.GetAll(l, []);
      list := r.list;
    }
  }
}
