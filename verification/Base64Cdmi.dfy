/** base64Encode and base64Decode of Generic/CdmiFuse/base_64.cpp */
module Base64Cdmi {
  import opened Bytes
  import opened Base64Format
  import Base64Soap

  /** strlen */
  function Length(s: seq<Byte>): (n: nat)
    ensures n <= |s| && 0 !in s[..n] && (n < |s| ==> s[n] == 0)
  {
    if s == [] || s[0] == 0 then 0 else assert s[1..][..Length(s[1..])] == s[1..Length(s[1..]) + 1]; 1 + Length(s[1..])
  }

  /** The bytes to encode: a size of zero stands for the length of a string. */
  function Source(buffer: seq<Byte>, insize: nat): seq<Byte>
    requires insize <= |buffer|
  {
    buffer[..if insize == 0 then Length(buffer) else insize]
  }

  lemma {:induction false} NoZeroInside(d: seq<Byte>)
    ensures 0 !in Encode(d)
  {
    if |d| >= 3 {
      NoZeroInside(d[3..]);
    }
  }

  lemma {:induction false} LengthOf(s: seq<Byte>, n: nat)
    requires n < |s| && 0 !in s[..n] && s[n] == 0
    ensures Length(s) == n
  {
    if n > 0 {
      assert s[0] == s[..n][0] && s[1..][..n - 1] == s[..n][1..];
      LengthOf(s[1..], n - 1);
    }
  }

  /** insize * 4 / 3 + 4 is enough for the text and its zero byte. */
  lemma AllocationHolds(n: nat)
    ensures 4 * Groups(n) + 1 <= n * 4 / 3 + 4
  {
  }

  /** One group as snprintf leaves it: four characters and a zero byte */
  method PutFour(out: array<Byte>, at: nat, ibuf: seq<Byte>, inputparts: nat)
    requires at + 5 <= out.Length && |ibuf| == 3 && 1 <= inputparts <= 3
    modifies out
    ensures out[..at] == old(out[..at]) && out[at + 4] == 0
    ensures out[at..at + 4] == Group(ibuf[0], ibuf[1], ibuf[2])[..inputparts + 1] + [PAD, PAD, PAD][..3 - inputparts]
  {
    var a: int, b: int, c: int := ibuf[0], ibuf[1], ibuf[2];
    var o0: int, o1: int := (a - a % 4) / 4, a % 4 * 16 + (b - b % 16) / 16;
    var o2: int, o3: int := b % 16 * 4 + (c - c % 64) / 64, c % 64;
    assert o0 == a / 4 && o1 == a % 4 * 16 + b / 16 && o2 == b % 16 * 4 + c / 64;
    out[at], out[at + 1] := Letter(o0), Letter(o1);
    if inputparts == 1 {
      out[at + 2], out[at + 3] := PAD, PAD;
    } else if inputparts == 2 {
      out[at + 2], out[at + 3] := Letter(o2), PAD;
    } else {
      out[at + 2], out[at + 3] := Letter(o2), Letter(o3);
    }
    out[at + 4] := 0;
  }

  /** Up to three bytes, and zeros for those that are missing */
  method TakeThree(d: seq<Byte>, k: nat) returns (ibuf: seq<Byte>, inputparts: nat)
    requires k < |d|
    ensures |ibuf| == 3 && inputparts == if |d| - k < 3 then |d| - k else 3
    ensures ibuf == d[k..k + inputparts] + [0, 0, 0][..3 - inputparts]
  {
    ibuf, inputparts := [], 0;
    var i := 0;
    while i < 3
      invariant i <= 3 && |ibuf| == i && inputparts == if |d| - k < i then |d| - k else i
      invariant ibuf == d[k..k + inputparts] + [0, 0, 0][..i - inputparts]
    {
      if k + i < |d| {
        inputparts := inputparts + 1;
        ibuf := ibuf + [d[k + i]];
      } else {
        ibuf := ibuf + [0];
      }
      i := i + 1;
    }
  }

  /** One group of the text */
  method Next(out: array<Byte>, d: seq<Byte>, g: nat)
    requires 3 * g < |d| && 4 * g + 5 <= out.Length && out[..4 * g] == Encode(d[..3 * g])
    modifies out
    ensures out[..4 * g + 4] == Encode(d[..if 3 * g + 3 <= |d| then 3 * g + 3 else |d|]) && out[4 * g + 4] == 0
  {
    var ibuf, parts := TakeThree(d, 3 * g);
    PutFour(out, 4 * g, ibuf, parts);
    assert out[..4 * g + 4] == out[..4 * g] + out[4 * g..4 * g + 4];
    if parts == 3 {
      EncodeNext(d, g);
    } else {
      EncodeTakes(d, g);
      assert out[4 * g..4 * g + 4] == LastGroup(d[3 * g..]);
      assert d[..|d|] == d;
    }
  }

  /** base64Encode */
  method Base64Encode(buffer: seq<Byte>, insize: nat) returns (out: array<Byte>, outlen: nat)
    requires insize <= |buffer| && (insize == 0 ==> 0 in buffer)
    ensures fresh(out) && outlen < out.Length && out[..outlen] == Encode(Source(buffer, insize)) && out[outlen] == 0
  {
    var n := if insize == 0 then Length(buffer) else insize;
    var d := buffer[..n];
    AllocationHolds(n);
    out := new Byte[n * 4 / 3 + 4];
    var g := 0;
    out[0] := 0;
    assert out[..0] == [] && d[..0] == [];
    while 3 * g < n
      invariant 3 * g < n + 3 && g <= Groups(n)
      invariant out[..4 * g] == Encode(d[..if 3 * g <= n then 3 * g else n]) && out[4 * g] == 0
    {
      Next(out, d, g);
      g := g + 1;
    }
    assert d[..n] == d;
    NoZeroInside(d);
    LengthOf(out[..], 4 * g);
    outlen := Length(out[..]);
  }

  /** What the search through the table finds: 64 is its terminating zero. */
  function Index(c: Byte): (v: int)
    ensures 0 <= v <= 64
    ensures v < 64 ==> Letter(v) == c
    ensures v == 64 ==> forall w {:trigger Letter(w)} :: 0 <= w < 64 ==> Letter(w) != c
  {
    if 65 <= c <= 90 then c - 65 else if 97 <= c <= 122 then c - 97 + 26
    else if 48 <= c <= 57 then c - 48 + 52 else if c == 43 then 62 else if c == 47 then 63 else 64
  }

  method Lookup(c: Byte) returns (v: int)
    ensures v == Index(c)
  {
    v := 0;
    while v < 64 && Letter(v) != c
      invariant 0 <= v <= 64
      invariant forall w :: 0 <= w < v ==> Letter(w) != c
    {
      v := v + 1;
    }
    if v < 64 {
      IndexIs(v);
    }
  }

  lemma IndexIs(v: int)
    requires 0 <= v < 64
    ensures Index(Letter(v)) == v
  {
  }

  /** One character more: a zero has the value 64, padding is a zero, and anything else is passed over. */
  function Push(x: nat, c: Byte): nat {
    if Index(c) < 64 || c == 0 then x * 64 + Index(c) else if c == PAD then x * 64 else x
  }

  function PushAll(q: seq<Byte>): nat {
    if q == [] then 0 else Push(PushAll(q[..|q| - 1]), q[|q| - 1])
  }

  function Quantum(q: seq<Byte>): (r: seq<Byte>)
    requires |q| == 4
    ensures |r| == 3
  {
    Three(PushAll(q))
  }

  method PushOne(x: nat, c: Byte) returns (r: nat)
    ensures r == Push(x, c)
  {
    r := x;
    var v := Lookup(c);
    if v < 64 || c == 0 {
      r := x * 64 + v;
    } else if c == PAD {
      r := x * 64;
    }
  }

  /** The low byte of x, of x >> 8 and of x >> 16, from the end */
  method LowBytes(x0: nat) returns (dest: seq<Byte>)
    ensures dest == Three(x0)
  {
    var x := x0;
    var d2 := x % 256;
    x := x / 256;
    var d1 := x % 256;
    x := x / 256;
    dest := [x % 256, d1, d2];
  }

  method DecodeQuantum(src: seq<Byte>, at: nat) returns (dest: seq<Byte>)
    requires at + 4 <= |src|
    ensures dest == Quantum(src[at..at + 4])
  {
    var x, i := 0, 0;
    ghost var q := src[at..at + 4];
    while i < 4
      invariant 0 <= i <= 4 && x == PushAll(q[..i])
    {
      assert q[..i + 1][..i] == q[..i];
      x := PushOne(x, src[at + i]);
      i := i + 1;
    }
    assert q[..4] == q;
    dest := LowBytes(x);
  }

  function Quanta(s: seq<Byte>, k: nat): (r: seq<Byte>)
    requires 4 * k <= |s|
    ensures |r| == 3 * k
  {
    if k == 0 then [] else Quanta(s, k - 1) + Quantum(s[4 * (k - 1)..4 * k])
  }

  /** Characters before the padding, and how many of the padding count */
  function Unpadded(s: seq<Byte>): (n: nat)
    ensures n <= |s|
  {
    if s == [] || s[0] == PAD then 0 else 1 + Unpadded(s[1..])
  }

  function Padding(s: seq<Byte>): (n: nat)
    ensures n <= 2 && Unpadded(s) + n <= |s|
  {
    var k := Unpadded(s);
    if k == |s| then 0 else if k + 1 < |s| && s[k + 1] == PAD then 2 else 1
  }

  /** Full groups, counting the padding that belongs to them */
  function Quantums(s: seq<Byte>): (q: nat)
    ensures 4 * q <= |s|
  {
    (Unpadded(s) + Padding(s)) / 4
  }

  function Decode(s: seq<Byte>): (r: seq<Byte>) {
    Taken(s, Quantums(s), Padding(s))
  }

  /** The bytes of q groups, without those that the padding stands for */
  function Taken(s: seq<Byte>, q: nat, padding: nat): seq<Byte>
    requires 4 * q <= |s| && padding <= 2
  {
    if q == 0 then [] else Quanta(s, q)[..3 * q - padding]
  }

  lemma PushFour(q: seq<Byte>)
    requires |q| == 4
    ensures PushAll(q) == Push(Push(Push(Push(0, q[0]), q[1]), q[2]), q[3])
  {
    assert q[..3][..2] == q[..2] && q[..2][..1] == q[..1] && q[..1][..0] == [];
    assert PushAll(q[..1]) == Push(0, q[0]);
    assert PushAll(q[..2]) == Push(PushAll(q[..1]), q[1]);
    assert PushAll(q[..3]) == Push(PushAll(q[..2]), q[2]);
  }

  lemma GroupIsRead(a: Byte, b: Byte, c: Byte)
    ensures Quantum(Group(a, b, c)) == [a, b, c]
  {
    PushFour(Group(a, b, c));
    IndexIs(a / 4);
    IndexIs(a % 4 * 16 + b / 16);
    IndexIs(b % 16 * 4 + c / 64);
    IndexIs(c % 64);
    Bytes3(a, b, c);
  }

  lemma PadIsZero(x: nat)
    ensures Push(x, PAD) == Push(x, Letter(0))
  {
  }

  /** Padding in the last group reads as zero bits. */
  lemma LastIsRead(d: seq<Byte>)
    requires |d| == 1 || |d| == 2
    ensures Quantum(LastGroup(d))[..|d|] == d
  {
    var g := Group(d[0], if |d| == 1 then 0 else d[1], 0);
    GroupIsRead(d[0], if |d| == 1 then 0 else d[1], 0);
    PushFour(g);
    PushFour(LastGroup(d));
    var x := Push(Push(0, g[0]), g[1]);
    PadIsZero(x);
    PadIsZero(Push(x, g[2]));
  }

  lemma {:induction false} QuantaJoin(a: seq<Byte>, b: seq<Byte>, k: nat)
    requires |a| == 4 && 4 * k <= |b|
    ensures Quanta(a + b, k + 1) == Quantum(a) + Quanta(b, k)
  {
    var s := a + b;
    if k == 0 {
      assert s[0..4] == a && Quanta(s, 0) == [];
    } else {
      QuantaJoin(a, b, k - 1);
      assert s[4 * k..4 * (k + 1)] == b[4 * (k - 1)..4 * k];
    }
  }

  /** How many of the padding characters an encoding has */
  function Lacking(n: nat): nat {
    if n % 3 == 0 then 0 else 3 - n % 3
  }

  lemma FourBefore(g: seq<Byte>, s: seq<Byte>)
    requires |g| == 4 && PAD !in g
    ensures Unpadded(g + s) == 4 + Unpadded(s)
  {
    var r := g + s;
    assert r[0] == g[0] && r[1] == g[1] && r[2] == g[2] && r[3] == g[3];
    assert r[1..][1..] == r[2..] && r[2..][1..] == r[3..] && r[3..][1..] == s;
    assert Unpadded(r) == 1 + Unpadded(r[1..]);
    assert Unpadded(r[1..]) == 1 + Unpadded(r[2..]);
    assert Unpadded(r[2..]) == 1 + Unpadded(r[3..]);
  }

  lemma UnpaddedLast(d: seq<Byte>)
    requires |d| == 1 || |d| == 2
    ensures Unpadded(LastGroup(d)) == |d| + 1 && Padding(LastGroup(d)) == 3 - |d|
  {
    var s := LastGroup(d);
    assert s[0] != PAD && s[1..][0] == s[1] != PAD && s[1..][1..] == s[2..] && s[2..][0] == s[2] && s[2..][1..] == s[3..];
    assert Unpadded(s) == 1 + Unpadded(s[1..]);
    assert Unpadded(s[1..]) == 1 + Unpadded(s[2..]);
    if |d| == 2 {
      assert s[2] != PAD && s[3..][0] == PAD;
    }
  }

  lemma GroupWithoutPad(a: Byte, b: Byte, c: Byte)
    ensures PAD !in Group(a, b, c)
  {
  }

  /** A full group in front changes nothing about the padding. */
  lemma GroupBefore(g: seq<Byte>, s: seq<Byte>)
    requires |g| == 4 && PAD !in g
    ensures Unpadded(g + s) == 4 + Unpadded(s) && Padding(g + s) == Padding(s)
  {
    var k := Unpadded(s);
    FourBefore(g, s);
    if k + 1 < |s| {
      assert (g + s)[4 + k + 1] == s[k + 1];
    }
  }

  lemma {:induction false} PaddingOf(d: seq<Byte>)
    ensures Unpadded(Encode(d)) + Padding(Encode(d)) == |Encode(d)| && Padding(Encode(d)) == Lacking(|d|)
  {
    if 0 < |d| < 3 {
      UnpaddedLast(d);
    } else if |d| >= 3 {
      PaddingOf(d[3..]);
      ThreeBefore(d);
      GroupWithoutPad(d[0], d[1], d[2]);
      GroupBefore(Group(d[0], d[1], d[2]), Encode(d[3..]));
    }
  }

  /** The groups of an encoding hold what was encoded. */
  ghost predicate Held(d: seq<Byte>) {
    |Encode(d)| == 4 * Groups(|d|) && Quanta(Encode(d), Groups(|d|))[..|d|] == d
  }

  lemma {:induction false} QuantaOf(d: seq<Byte>)
    ensures Held(d)
  {
    if d == [] {
      EncodedLength(d);
    } else if |d| < 3 {
      QuantaOfLast(d);
    } else {
      QuantaOf(d[3..]);
      QuantaOfMore(d);
    }
  }

  lemma QuantaOfMore(d: seq<Byte>)
    requires |d| >= 3 && Held(d[3..])
    ensures Held(d)
  {
    var e := d[3..];
    EncodedLength(d);
    GroupsNext(|e|);
    ThreeBefore(d);
    QuantaOfGroup(d[0], d[1], d[2], Encode(e), Groups(|e|), e);
  }

  lemma ThreeBefore(d: seq<Byte>)
    requires |d| >= 3
    ensures Encode(d) == Group(d[0], d[1], d[2]) + Encode(d[3..]) && d == [d[0], d[1], d[2]] + d[3..]
  {
    FirstThree(d);
  }

  lemma FirstThree<T>(d: seq<T>)
    requires |d| >= 3
    ensures d == [d[0], d[1], d[2]] + d[3..]
  {
  }

  lemma GroupsNext(n: nat)
    ensures Groups(n + 3) == Groups(n) + 1 && n <= 3 * Groups(n)
  {
  }

  lemma QuantaOfLast(d: seq<Byte>)
    requires |d| == 1 || |d| == 2
    ensures Held(d)
  {
    LastIsRead(d);
    EncodedLength(d);
    assert Groups(|d|) == 1;
    assert LastGroup(d)[0..4] == LastGroup(d);
    assert Quanta(LastGroup(d), 0) == [];
  }

  lemma QuantaOfGroup(a: Byte, b: Byte, c: Byte, text: seq<Byte>, g: nat, d: seq<Byte>)
    requires 4 * g <= |text| && |d| <= 3 * g && Quanta(text, g)[..|d|] == d
    ensures Quanta(Group(a, b, c) + text, g + 1)[..3 + |d|] == [a, b, c] + d
  {
    GroupIsRead(a, b, c);
    QuantaJoin(Group(a, b, c), text, g);
    CutLater([a, b, c], Quanta(text, g), |d|);
  }

  lemma CutLater(a: seq<Byte>, b: seq<Byte>, n: nat)
    requires n <= |b|
    ensures (a + b)[..|a| + n] == a + b[..n]
  {
  }

  lemma Sizes(n: nat)
    ensures 3 * Groups(n) - Lacking(n) == n && 4 * Groups(n) / 4 == Groups(n) && (n > 0 ==> Groups(n) > 0)
  {
  }

  /** base64Decode undoes the encoding, and so does soap_base642s. */
  lemma ReadBack(d: seq<Byte>)
    ensures Decode(Encode(d)) == d && Base64Soap.Decode(Encode(d), 0, 0) == d
  {
    Base64Soap.ReadBack(d);
    DecodeEncoded(d);
  }

  lemma DecodeEncoded(d: seq<Byte>)
    ensures Decode(Encode(d)) == d
  {
    PaddingOf(d);
    QuantaOf(d);
    Sizes(|d|);
    EncodedLength(d);
    assert Quantums(Encode(d)) == Groups(|d|);
  }

  /** base64Decode: memory for the last group in full and a zero byte; none for an empty result */
  method Base64Decode(src: seq<Byte>) returns (outptr: array?<Byte>, outlen: nat)
    requires 0 !in src
    ensures outptr == null <==> Quantums(src) == 0
    ensures outptr == null ==> outlen == 0 && Decode(src) == []
    ensures outptr != null ==> fresh(outptr) && outlen < outptr.Length && outptr[..outlen] == Decode(src) && outptr[outlen] == 0
  {
    var quantums, equalsTerm := CountQuantums(src);
    outptr, outlen := Take(src, quantums, equalsTerm);
  }

  /** What the groups hold, or nothing */
  method Take(src: seq<Byte>, quantums: nat, equalsTerm: nat) returns (outptr: array?<Byte>, outlen: nat)
    requires equalsTerm <= 2 && 4 * quantums <= |src|
    ensures outptr == null <==> quantums == 0
    ensures outptr == null ==> outlen == 0 && Taken(src, quantums, equalsTerm) == []
    ensures outptr != null ==>
              && fresh(outptr) && outlen < outptr.Length && outptr[outlen] == 0
              && outptr[..outlen] == Taken(src, quantums, equalsTerm)
  {
    if quantums == 0 {
      return null, 0;
    }
    outptr, outlen := DecodeGroups(src, quantums, equalsTerm);
  }

  method CountQuantums(src: seq<Byte>) returns (quantums: nat, equalsTerm: nat)
    ensures quantums == Quantums(src) && equalsTerm == Padding(src)
  {
    var length;
    length, equalsTerm := CountPadding(src);
    quantums := (length + equalsTerm) / 4;
  }

  method CountPadding(src: seq<Byte>) returns (length: nat, equalsTerm: nat)
    ensures length == Unpadded(src) && equalsTerm == Padding(src)
  {
    length, equalsTerm := 0, 0;
    while length < |src| && src[length] != PAD
      invariant length <= |src| && Unpadded(src) == length + Unpadded(src[length..])
    {
      assert src[length..][1..] == src[length + 1..];
      length := length + 1;
    }
    if length < |src| {
      equalsTerm := 1;
      if length + 1 < |src| && src[length + 1] == PAD {
        equalsTerm := 2;
      }
    }
  }

  /** All groups but the last in full, and of the last what is not padding */
  method DecodeGroups(src: seq<Byte>, quantums: nat, equalsTerm: nat) returns (newstr: array<Byte>, rawlen: nat)
    requires 0 < quantums && equalsTerm <= 2 && 4 * quantums <= |src|
    ensures fresh(newstr) && rawlen == 3 * quantums - equalsTerm && rawlen < newstr.Length
    ensures newstr[..rawlen] == Quanta(src, quantums)[..rawlen] && newstr[rawlen] == 0
  {
    rawlen := quantums * 3 - equalsTerm;
    newstr := new Byte[rawlen + 4];
    InFull(newstr, quantums - 1, src);
    Finish(newstr, quantums - 1, 3 - equalsTerm, src);
  }

  /** The first k groups in full */
  method InFull(newstr: array<Byte>, k: nat, src: seq<Byte>)
    requires 3 * k <= newstr.Length && 4 * k <= |src|
    modifies newstr
    ensures newstr[..3 * k] == Quanta(src, k)
  {
    var i := 0;
    assert newstr[..0] == [];
    while i < k
      invariant 0 <= i <= k && newstr[..3 * i] == Quanta(src, i)
    {
      PutWhole(newstr, i, src);
      i := i + 1;
    }
  }

  /** All of group i */
  method PutWhole(newstr: array<Byte>, i: nat, src: seq<Byte>)
    requires 3 * i + 3 <= newstr.Length && 4 * i + 4 <= |src| && newstr[..3 * i] == Quanta(src, i)
    modifies newstr
    ensures newstr[..3 * (i + 1)] == Quanta(src, i + 1)
  {
    PutGroup(newstr, i, 3, src);
    Uncut(Quanta(src, i + 1));
  }

  lemma Uncut(a: seq<Byte>)
    ensures a[..|a|] == a
  {
  }

  /** The first k bytes of the last group, and a zero byte */
  method Finish(newstr: array<Byte>, i: nat, k: nat, src: seq<Byte>)
    requires k <= 3 && 3 * i + k < newstr.Length && 4 * i + 4 <= |src| && newstr[..3 * i] == Quanta(src, i)
    modifies newstr
    ensures newstr[..3 * i + k] == Quanta(src, i + 1)[..3 * i + k] && newstr[3 * i + k] == 0
  {
    var n := 3 * i + k;
    PutGroup(newstr, i, k, src);
    ghost var was := newstr[..n];
    newstr[n] := 0;
    assert newstr[..n] == was;
  }

  /** The first k bytes of group i */
  method PutGroup(newstr: array<Byte>, i: nat, k: nat, src: seq<Byte>)
    requires k <= 3 && 3 * i + k <= newstr.Length && 4 * i + 4 <= |src| && newstr[..3 * i] == Quanta(src, i)
    modifies newstr
    ensures newstr[..3 * i + k] == Quanta(src, i + 1)[..3 * i + k]
  {
    CutLater(Quanta(src, i), Quantum(src[4 * i..4 * i + 4]), k);
    Put(newstr, 3 * i, k, src, 4 * i);
    assert newstr[..3 * i + k] == newstr[..3 * i] + newstr[3 * i..3 * i + k];
  }

  /** The first k bytes of a group of four characters */
  method Put(newstr: array<Byte>, at: nat, k: nat, src: seq<Byte>, from: nat)
    requires k <= 3 && at + k <= newstr.Length && from + 4 <= |src|
    modifies newstr
    ensures newstr[..at] == old(newstr[..at]) && newstr[at..at + k] == Quantum(src[from..from + 4])[..k]
  {
    var dest := DecodeQuantum(src, from);
    forall j | 0 <= j < k {
      newstr[at + j] := dest[j];
    }
  }
}
