/** Base64, section 4 of RFC 4648. */
module Base64Format {
  import opened Bytes

  const PAD: Byte := 61

  /** The alphabet, in ASCII */
  function Letter(v: int): Byte
    requires 0 <= v < 64
  {
    if v < 26 then 65 + v else if v < 52 then 97 + (v - 26) else if v < 62 then 48 + (v - 52) else if v == 62 then 43 else 47
  }

  function Four(v0: int, v1: int, v2: int, v3: int): (r: seq<Byte>)
    requires 0 <= v0 < 64 && 0 <= v1 < 64 && 0 <= v2 < 64 && 0 <= v3 < 64
    ensures |r| == 4
  {
    [Letter(v0), Letter(v1), Letter(v2), Letter(v3)]
  }

  function Group(a: Byte, b: Byte, c: Byte): (r: seq<Byte>)
    ensures |r| == 4
  {
    Four(a / 4, a % 4 * 16 + b / 16, b % 16 * 4 + c / 64, c % 64)
  }

  /** The last group, of one or two bytes */
  function LastGroup(d: seq<Byte>): (r: seq<Byte>)
    requires |d| == 1 || |d| == 2
    ensures |r| == 4
  {
    if |d| == 1 then Group(d[0], 0, 0)[..2] + [PAD, PAD] else Group(d[0], d[1], 0)[..3] + [PAD]
  }

  function Encode(d: seq<Byte>): seq<Byte> {
    if d == [] then [] else if |d| < 3 then LastGroup(d) else Group(d[0], d[1], d[2]) + Encode(d[3..])
  }

  /** Table 1 of RFC 4648: capitals, small letters, digits, plus and slash */
  lemma CapitalIs(v: nat)
    requires v < 26
    ensures Letter(v) == Letters("ABCDEFGHIJKLMNOPQRSTUVWXYZ")[v]
  {
  }

  lemma SmallIs(v: nat)
    requires v < 26
    ensures Letter(26 + v) == Letters("abcdefghijklmnopqrstuvwxyz")[v]
  {
  }

  lemma DigitIs(v: nat)
    requires v < 12
    ensures Letter(52 + v) == Letters("0123456789+/")[v]
  {
  }

  /** Section 10 of RFC 4648 */
  lemma Vectors()
    ensures Encode(Letters("f")) == Letters("Zg==") && Encode(Letters("fo")) == Letters("Zm8=")
    ensures Encode(Letters("foo")) == Letters("Zm9v")
  {
    assert Letters("foo")[3..] == [];
  }

  function Groups(n: nat): nat {
    (n + 2) / 3
  }

  lemma {:induction false} EncodedLength(d: seq<Byte>)
    ensures |Encode(d)| == 4 * Groups(|d|)
  {
    if |d| >= 3 {
      EncodedLength(d[3..]);
    }
  }

  lemma {:induction false} EncodeTakes(d: seq<Byte>, k: nat)
    requires 3 * k <= |d|
    ensures Encode(d) == Encode(d[..3 * k]) + Encode(d[3 * k..])
  {
    if k == 0 {
      assert d[0..] == d && d[..0] == [];
    } else {
      EncodeTakes(d[3..], k - 1);
      assert d[..3 * k][3..] == d[3..][..3 * (k - 1)];
      assert d[3..][3 * (k - 1)..] == d[3 * k..];
    }
  }

  /** One group more */
  lemma EncodeNext(d: seq<Byte>, k: nat)
    requires 3 * k + 3 <= |d|
    ensures Encode(d[..3 * k + 3]) == Encode(d[..3 * k]) + Group(d[3 * k], d[3 * k + 1], d[3 * k + 2])
  {
    var e := d[..3 * k + 3];
    EncodeTakes(e, k);
    assert e[..3 * k] == d[..3 * k];
    var g := e[3 * k..];
    assert g[3..] == [];
    assert Encode(g) == Group(g[0], g[1], g[2]) + Encode([]);
  }

  lemma SixMore(x: nat, v: nat)
    requires v < 64
    ensures (x * 64 + v) / 64 == x && (x * 64 + v) % 64 == v
  {
  }

  lemma Shifts(m: nat)
    ensures m / 0x1000 == m / 64 / 64 && m / 0x4_0000 == m / 64 / 64 / 64
  {
  }

  /** The groups of six bits of 24 bits */
  lemma Sextets(a: Byte, b: Byte, c: Byte)
    ensures
      var m := (a * 256 + b) * 256 + c;
      m / 0x4_0000 == a / 4 && m / 0x1000 % 64 == a % 4 * 16 + b / 16 && m / 64 % 64 == b % 16 * 4 + c / 64 && m % 64 == c % 64
  {
    var v0, v1, v2, v3 := a / 4, a % 4 * 16 + b / 16, b % 16 * 4 + c / 64, c % 64;
    BitsJoin(a, b, c);
    SixMore(v0, v1);
    SixMore(v0 * 64 + v1, v2);
    SixMore((v0 * 64 + v1) * 64 + v2, v3);
    Shifts((a * 256 + b) * 256 + c);
  }

  /** 24 bits as three bytes */
  function Three(m: nat): (r: seq<Byte>)
    ensures |r| == 3
  {
    [m / 0x1_0000 % 256, m / 256 % 256, m % 256]
  }

  lemma Bytes3(a: Byte, b: Byte, c: Byte)
    ensures Three((((a / 4) * 64 + (a % 4 * 16 + b / 16)) * 64 + (b % 16 * 4 + c / 64)) * 64 + c % 64) == [a, b, c]
  {
    BitsJoin(a, b, c);
    Digits((((a / 4) * 64 + (a % 4 * 16 + b / 16)) * 64 + (b % 16 * 4 + c / 64)) * 64 + c % 64, a, b, c);
  }

  lemma BitsJoin(a: Byte, b: Byte, c: Byte)
    ensures (((a / 4) * 64 + (a % 4 * 16 + b / 16)) * 64 + (b % 16 * 4 + c / 64)) * 64 + c % 64 == a * 0x1_0000 + b * 256 + c
  {
  }

  lemma Digits(m: nat, a: Byte, b: Byte, c: Byte)
    requires m == a * 0x1_0000 + b * 256 + c
    ensures Three(m) == [a, b, c]
  {
    assert m / 256 == a * 256 + b;
  }

  lemma OneByte(a: Byte)
    ensures (a / 4 * 64 + a % 4 * 16) / 16 % 256 == a
  {
    assert a / 4 * 64 + a % 4 * 16 == a * 16;
  }

  lemma TwoBytes(a: Byte, b: Byte)
    ensures
      var m := (a / 4 * 64 + (a % 4 * 16 + b / 16)) * 64 + b % 16 * 4;
      m / 1024 % 256 == a && m / 4 % 256 == b
  {
    var m := (a / 4 * 64 + (a % 4 * 16 + b / 16)) * 64 + b % 16 * 4;
    assert m == a * 1024 + b * 4;
  }
}

/** soap_s2base64 and soap_base642s of nPVR/stdsoap2.cpp */
module Base64Soap {
  import opened Bytes
  import opened Limits
  import opened Base64Format


  /** t[3], t[2], t[1], t[0] from the low bits of m */
  method PutGroup(t: array<Byte>, at: nat, a: Byte, b: Byte, c: Byte)
    requires at + 4 <= t.Length
    modifies t
    ensures t[..at] == old(t[..at]) && t[at..at + 4] == Group(a, b, c)
  {
    var m := (a * 256 + b) * 256 + c;
    Sextets(a, b, c);
    var i := 4;
    ghost var m0 := m;
    while i > 0
      invariant 0 <= i <= 4 && t[..at] == old(t[..at])
      invariant m == if i == 4 then m0 else if i == 3 then m0 / 64 else if i == 2 then m0 / 0x1000 else if i == 1 then m0 / 0x4_0000 else 0
      invariant forall k :: i <= k < 4 ==> t[at + k] == Group(a, b, c)[k]
    {
      i := i - 1;
      t[at + i] := Letter(m % 64);
      m := m / 64;
    }
  }

  /** The last one or two bytes: a group of 24 bits, and padding from the end */
  method PutLast(t: array<Byte>, at: nat, d: seq<Byte>)
    requires at + 4 <= t.Length && (|d| == 1 || |d| == 2)
    modifies t
    ensures t[..at] == old(t[..at]) && t[at..at + 4] == LastGroup(d)
  {
    PutGroup(t, at, d[0], if |d| > 1 then d[1] else 0, 0);
    ghost var g := t[at..at + 4];
    var i := 3;
    while i > |d|
      invariant |d| <= i <= 3 && t[..at] == old(t[..at])
      invariant forall j :: at <= j < at + i + 1 ==> t[j] == g[j - at]
      invariant forall j :: at + i < j < at + 4 ==> t[j] == PAD
    {
      t[at + i] := PAD;
      i := i - 1;
    }
    assert t[at..at + 4] == g[..|d| + 1] + LastGroup(d)[|d| + 1..];
  }

  method PutNext(t: array<Byte>, s: seq<Byte>, k: nat)
    requires 3 * k + 3 <= |s| && 4 * k + 4 <= t.Length && t[..4 * k] == Encode(s[..3 * k])
    modifies t
    ensures t[..4 * k + 4] == Encode(s[..3 * k + 3])
  {
    EncodeNext(s, k);
    PutGroup(t, 4 * k, s[3 * k], s[3 * k + 1], s[3 * k + 2]);
    assert t[..4 * k + 4] == t[..4 * k] + t[4 * k..4 * k + 4];
  }

  method PutRest(t: array<Byte>, s: seq<Byte>, k: nat)
    requires 3 * k < |s| < 3 * k + 3 && t.Length == 4 * k + 5 && t[..4 * k] == Encode(s[..3 * k])
    modifies t
    ensures t[..4 * k + 4] == Encode(s) && t[4 * k + 4] == 0
  {
    EncodeTakes(s, k);
    PutLast(t, 4 * k, s[3 * k..]);
    t[4 * k + 4] := 0;
    assert t[..4 * k + 4] == t[..4 * k] + t[4 * k..4 * k + 4];
  }

  /** soap_s2base64 with memory of its own; the text ends in a zero byte. */
  method Encoded(s: seq<Byte>) returns (t: array<Byte>)
    ensures fresh(t) && t.Length == 4 * Groups(|s|) + 1
    ensures t[..t.Length - 1] == Encode(s) && t[t.Length - 1] == 0
  {
    t := new Byte[(|s| + 2) / 3 * 4 + 1];
    t[0] := 0;
    var k := 0;
    assert s[..0] == [] && t[..0] == [];
    while |s| - 3 * k > 2
      invariant 3 * k <= |s|
      invariant t[..4 * k] == Encode(s[..3 * k])
    {
      PutNext(t, s, k);
      k := k + 1;
    }
    t[4 * k] := 0;
    if |s| > 3 * k {
      PutRest(t, s, k);
    }
    assert s[..|s|] == s;
  }

  /** The entry of soap_base64i; characters that are not of the alphabet have the value of 'X'. */
  function Inverse(c: Byte): int
    requires 43 <= c <= 122
  {
    if c >= 97 then c - 97 + 26 else if 65 <= c <= 90 then c - 65
    else if 48 <= c <= 57 then c - 48 + 52 else if c == 43 then 62 else if c == 47 then 63 else 88
  }

  lemma InverseOf(v: int)
    requires 0 <= v < 64
    ensures 43 <= Letter(v) <= 122 && Letter(v) != PAD && Inverse(Letter(v)) == v
  {
  }

  /** What is left of a group at the end of the text */
  function Tail(m: nat, j: nat): seq<Byte> {
    if j == 2 then [m / 16 % 256] else if j == 3 then [m / 1024 % 256, m / 4 % 256] else []
  }

  /** What soap_base642s makes of a text when j letters of a group have given the bits m */
  function Decode(s: seq<Byte>, m: nat, j: nat): (r: seq<Byte>)
    requires j < 4
    ensures 4 * |r| <= 3 * (|s| + j) + 3
  {
    if s == [] || s[0] == PAD then Tail(m, j)
    else if s[0] < 43 || s[0] > 122 then Decode(s[1..], m, j)
    else
      var n := m * 64 + Inverse(s[0]);
      if j == 3 then Three(n) + Decode(s[1..], 0, 0) else Decode(s[1..], n, j + 1)
  }

  lemma Letter4(v0: int, v1: int, v2: int, v3: int, rest: seq<Byte>)
    requires 0 <= v0 < 64 && 0 <= v1 < 64 && 0 <= v2 < 64 && 0 <= v3 < 64
    ensures Decode(Four(v0, v1, v2, v3) + rest, 0, 0) == Three(((v0 * 64 + v1) * 64 + v2) * 64 + v3) + Decode(rest, 0, 0)
  {
    var s := Four(v0, v1, v2, v3) + rest;
    InverseOf(v0);
    InverseOf(v1);
    InverseOf(v2);
    InverseOf(v3);
    assert s[1..][1..] == s[2..] && s[2..][1..] == s[3..] && s[3..][1..] == rest;
    var m2 := v0 * 64 + v1;
    assert Decode(s, 0, 0) == Decode(s[1..], v0, 1) == Decode(s[2..], m2, 2);
    assert Decode(s[2..], m2, 2) == Decode(s[3..], m2 * 64 + v2, 3);
  }

  lemma GroupIsRead(a: Byte, b: Byte, c: Byte, rest: seq<Byte>)
    ensures Decode(Group(a, b, c) + rest, 0, 0) == [a, b, c] + Decode(rest, 0, 0)
  {
    Letter4(a / 4, a % 4 * 16 + b / 16, b % 16 * 4 + c / 64, c % 64, rest);
    Bytes3(a, b, c);
  }

  lemma TwoLetters(v0: int, v1: int, rest: seq<Byte>)
    requires 0 <= v0 < 64 && 0 <= v1 < 64
    ensures Decode([Letter(v0), Letter(v1)] + rest, 0, 0) == Decode(rest, v0 * 64 + v1, 2)
  {
    var s := [Letter(v0), Letter(v1)] + rest;
    InverseOf(v0);
    InverseOf(v1);
    assert s[1..][1..] == rest;
    assert Decode(s, 0, 0) == Decode(s[1..], v0, 1);
  }

  lemma ThreeLetters(v0: int, v1: int, v2: int, rest: seq<Byte>)
    requires 0 <= v0 < 64 && 0 <= v1 < 64 && 0 <= v2 < 64
    ensures Decode([Letter(v0), Letter(v1), Letter(v2)] + rest, 0, 0) == Decode(rest, (v0 * 64 + v1) * 64 + v2, 3)
  {
    TwoLetters(v0, v1, [Letter(v2)] + rest);
    assert [Letter(v0), Letter(v1), Letter(v2)] + rest == [Letter(v0), Letter(v1)] + ([Letter(v2)] + rest);
    InverseOf(v2);
    assert ([Letter(v2)] + rest)[1..] == rest;
  }

  lemma OneIsRead(a: Byte)
    ensures Decode(LastGroup([a]), 0, 0) == [a]
  {
    var v1: int := a % 4 * 16;
    assert LastGroup([a]) == [Letter(a / 4), Letter(v1)] + [PAD, PAD];
    TwoLetters(a / 4, v1, [PAD, PAD]);
    OneByte(a);
    assert Decode([PAD, PAD], a / 4 * 64 + v1, 2) == Tail(a / 4 * 64 + v1, 2);
  }

  lemma TwoAreRead(a: Byte, b: Byte)
    ensures Decode(LastGroup([a, b]), 0, 0) == [a, b]
  {
    var v1: int, v2: int := a % 4 * 16 + b / 16, b % 16 * 4;
    assert LastGroup([a, b]) == [Letter(a / 4), Letter(v1), Letter(v2)] + [PAD];
    ThreeLetters(a / 4, v1, v2, [PAD]);
    TwoBytes(a, b);
    var m: int := (a / 4 * 64 + v1) * 64 + v2;
    assert Decode([PAD], m, 3) == Tail(m, 3);
  }

  lemma LastIsRead(d: seq<Byte>)
    requires |d| == 1 || |d| == 2
    ensures Decode(LastGroup(d), 0, 0) == d
  {
    if |d| == 1 {
      assert d == [d[0]];
      OneIsRead(d[0]);
    } else {
      assert d == [d[0], d[1]];
      TwoAreRead(d[0], d[1]);
    }
  }

  /** soap_base642s undoes the encoding. */
  lemma {:induction false} ReadBack(d: seq<Byte>)
    ensures Decode(Encode(d), 0, 0) == d
  {
    if 0 < |d| < 3 {
      LastIsRead(d);
    } else if |d| >= 3 {
      GroupIsRead(d[0], d[1], d[2], Encode(d[3..]));
      ReadBack(d[3..]);
    }
  }

  function At(s: seq<Byte>, i: nat): Byte {
    if i < |s| then s[i] else 0
  }

  /** The next four letters of the text, or what there is of them before its end */
  method GetGroup(s: seq<Byte>, p0: nat) returns (ended: bool, m: nat, j: nat, p: nat)
    requires 0 !in s && p0 <= |s|
    ensures ended ==> j < 4 && p0 + j <= |s| && Decode(s[p0..], 0, 0) == Tail(m, j)
    ensures !ended ==> p0 + 4 <= p <= |s| && Decode(s[p0..], 0, 0) == Three(m) + Decode(s[p..], 0, 0)
  {
    m, j, p, ended := 0, 0, p0, false;
    while j < 4
      invariant p0 + j <= p <= |s| && j <= 4
      invariant if j < 4 then Decode(s[p0..], 0, 0) == Decode(s[p..], m, j)
                else Decode(s[p0..], 0, 0) == Three(m) + Decode(s[p..], 0, 0)
      decreases |s| - p
    {
      var c := At(s, p);
      if c == PAD || c == 0 {
        assert c == 0 ==> p == |s|;
        return true, m, j, p;
      }
      assert s[p..][0] == c && s[p..][1..] == s[p + 1..];
      p := p + 1;
      if 43 <= c <= 122 {
        m := m * 64 + Inverse(c);
        j := j + 1;
      }
    }
  }

  /** The bytes of the last group */
  method PutTail(t: array<Byte>, at: nat, m: nat, j: nat) returns (k: nat)
    requires j < 4 && at + |Tail(m, j)| <= t.Length
    modifies t
    ensures k == |Tail(m, j)| && t[..at + k] == old(t[..at]) + Tail(m, j)
  {
    k := 0;
    match j
    case 2 =>
      t[at] := m / 16 % 256;
      k := 1;
    case 3 =>
      t[at], t[at + 1] := m / 1024 % 256, m / 4 % 256;
      k := 2;
    case _ =>
  }

  method PutThree(t: array<Byte>, at: nat, m: nat)
    requires at + 3 <= t.Length
    modifies t
    ensures t[..at + 3] == old(t[..at]) + Three(m)
  {
    t[at], t[at + 1], t[at + 2] := m / 0x1_0000 % 256, m / 256 % 256, m % 256;
  }

  /** Room for another group, however little of it there is */
  lemma Fits(n: nat, g: nat, k: nat)
    requires 4 * g + k <= n && k >= 2
    ensures 3 * g + 3 <= (n + 3) / 4 * 3
  {
    assert g + 1 <= (n + 3) / 4;
  }

  /** One group of the text, after g of them that made n bytes */
  method Next(s: seq<Byte>, t: array<Byte>, p: nat, n: nat, ghost g: nat) returns (ended: bool, k: nat, q: nat)
    requires 0 !in s && 4 * g <= p <= |s| && n == 3 * g && t.Length == (|s| + 3) / 4 * 3 && n <= t.Length
    requires Decode(s, 0, 0) == t[..n] + Decode(s[p..], 0, 0)
    modifies t
    ensures n + k <= t.Length && (!ended ==> k == 3 && p + 4 <= q <= |s|)
    ensures Decode(s, 0, 0) == t[..n + k] + if ended then [] else Decode(s[q..], 0, 0)
  {
    var m, j;
    ended, m, j, q := GetGroup(s, p);
    if ended {
      if j >= 2 {
        Fits(|s|, g, j);
      }
      k := PutTail(t, n, m, j);
      return;
    }
    Fits(|s|, g, 4);
    Regroup(t[..n], Three(m), Decode(s[q..], 0, 0));
    PutThree(t, n, m);
    k := 3;
  }

  /** At most SOAP_BLKLEN groups, after g0 of them; l is the room that is left. */
  method Block(s: seq<Byte>, t: array<Byte>, p0: nat, g0: nat, l0: nat) returns (ended: bool, n: nat, p: nat, l: nat)
    requires 0 !in s && 4 * g0 <= p0 <= |s| && t.Length == (|s| + 3) / 4 * 3 && l0 == t.Length - 3 * g0
    requires Decode(s, 0, 0) == t[..3 * g0] + Decode(s[p0..], 0, 0)
    modifies t
    ensures 3 * g0 + n <= t.Length
    ensures ended ==> Decode(s, 0, 0) == t[..3 * g0 + n]
    ensures !ended ==> n == 3 * SOAP_BLKLEN && p0 < p <= |s| && 4 * (g0 + SOAP_BLKLEN) <= p && l == t.Length - (3 * g0 + n)
    ensures !ended ==> Decode(s, 0, 0) == t[..3 * g0 + n] + Decode(s[p..], 0, 0)
  {
    p, l, n := p0, l0, 0;
    var i := 0;
    while i < SOAP_BLKLEN
      invariant i <= SOAP_BLKLEN && p0 + i <= p <= |s| && 4 * (g0 + i) <= p && n == 3 * i && l == t.Length - (3 * g0 + n)
      invariant Decode(s, 0, 0) == t[..3 * g0 + n] + Decode(s[p..], 0, 0)
    {
      var k, q;
      ended, k, q := Next(s, t, p, 3 * g0 + n, g0 + i);
      p, n := q, n + k;
      if ended {
        return;
      }
      assert l >= 3;
      l := l - 3;
      i := i + 1;
    }
    ended := false;
  }

  /** soap_base642s with memory of its own, and the number of bytes that it reports */
  method Decoded(s: seq<Byte>) returns (t: array<Byte>, n: nat)
    requires 0 !in s
    ensures fresh(t) && n <= t.Length && t[..n] == Decode(s, 0, 0)
  {
    var l := (|s| + 3) / 4 * 3;
    t := new Byte[l];
    n := 0;
    var p, g := 0, 0;
    assert s[0..] == s;
    while true
      invariant fresh(t) && t.Length == (|s| + 3) / 4 * 3
      invariant 4 * g <= p <= |s| && n == 3 * g && n <= t.Length && l == t.Length - n
      invariant Decode(s, 0, 0) == t[..n] + Decode(s[p..], 0, 0)
      decreases |s| - p
    {
      var ended, k;
      ended, k, p, l := Block(s, t, p, g, l);
      n := n + k;
      if ended {
        return;
      }
      g := g + SOAP_BLKLEN;
    }
  }
}
