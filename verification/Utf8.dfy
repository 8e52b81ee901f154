/** soap_pututf8 and soap_getutf8 of nPVR/stdsoap2.cpp: a char as bytes of UTF-8, or as a reference */
module Utf8 {
  import opened Bytes
  import opened Outputs
  import opened Escapes
  import opened XmlTokens
  import opened TextRoundTrip
  import opened XmlReading

  const WIDE: nat := 0x8000_0000

  function Rest6(c: nat): (b: Byte)
    ensures b >= 128 && b % 64 == c % 64
  {
    128 + c % 64
  }

  /** Section 2 of RFC 2279: the first byte says how many there are, and the others have six bits each. */
  function Encoded(c: nat): (s: seq<Byte>)
    ensures |s| >= 2 && s[0] >= 128 && s[1] >= 128
  {
    var c1 := c / 64;
    var c2 := c1 / 64;
    var c3 := c2 / 64;
    var c4 := c3 / 64;
    if c < 0x800 then [192 + c1 % 32, Rest6(c)]
    else if c < 0x1_0000 then [224 + c2 % 16, Rest6(c1), Rest6(c)]
    else if c < 0x20_0000 then [240 + c3 % 8, Rest6(c2), Rest6(c1), Rest6(c)]
    else if c < 0x400_0000 then [248 + c4 % 4, Rest6(c3), Rest6(c2), Rest6(c1), Rest6(c)]
    else [252 + c4 / 64 % 2, Rest6(c4), Rest6(c3), Rest6(c2), Rest6(c1), Rest6(c)]
  }

  /** What is written for a char */
  function Written(c: nat, canonical: bool): seq<Byte> {
    if 0 < c < 128 then [c] else if canonical then Encoded(c) else [38, 35] + Dec(c) + [59]
  }

  lemma Shifts(c: nat)
    ensures c / 0x1000 == c / 64 / 64 && c / 0x4_0000 == c / 64 / 64 / 64 && c / 0x100_0000 == c / 64 / 64 / 64 / 64
    ensures c / 0x4000_0000 == c / 64 / 64 / 64 / 64 / 64
  {
  }

  /** soap_pututf8 in canonical mode, byte by byte */
  method Encode(c: nat) returns (t: seq<Byte>)
    ensures t == Encoded(c)
  {
    Shifts(c);
    if c < 0x800 {
      t := [192 + c / 64 % 32];
    } else {
      if c < 0x1_0000 {
        t := [224 + c / 0x1000 % 16];
      } else {
        if c < 0x20_0000 {
          t := [240 + c / 0x4_0000 % 8];
        } else {
          if c < 0x400_0000 {
            t := [248 + c / 0x100_0000 % 4];
          } else {
            t := [252 + c / 0x4000_0000 % 2] + [Rest6(c / 0x100_0000)];
          }
          t := t + [Rest6(c / 0x4_0000)];
        }
        t := t + [Rest6(c / 0x1000)];
      }
      t := t + [Rest6(c / 64)];
    }
    t := t + [Rest6(c)];
  }

  /** soap_pututf8 */
  method PutUtf8(o: Output, c: nat, canonical: bool)
    requires o.Right()
    modifies o`count, o`sent, o`text
    ensures o.Right() && o.text == old(o.text) + Written(c, canonical)
  {
    if 0 < c < 128 {
      o.SendRaw([c]);
      return;
    }
    var tmp;
    if canonical {
      tmp := Encode(c);
    } else {
      tmp := [38, 35] + Dec(c) + [59];
    }
    o.SendRaw(tmp);
  }

  lemma Bounds(c: nat)
    ensures
      var c1 := c / 64;
      var c2 := c1 / 64;
      var c3 := c2 / 64;
      var c4 := c3 / 64;
      && (c < 0x800 <==> c1 < 32) && (c < 0x1_0000 <==> c2 < 16) && (c < 0x20_0000 <==> c3 < 8)
      && (c < 0x400_0000 <==> c4 < 4) && (c < WIDE <==> c4 / 64 < 2)
  {
  }

  lemma Front(s: seq<Byte>, rest: seq<Byte>)
    requires s != []
    ensures From(s + rest, |s|) == rest && forall i :: 0 <= i < |s| ==> (s + rest)[i] == s[i]
  {
  }

  lemma Digit(d: nat)
    requires d < 64
    ensures (128 + d) % 64 == d
  {
  }

  lemma TwoRead(x: nat, d: nat, rest: seq<Byte>)
    requires x < 32 && d < 64
    ensures Wide([192 + x, 128 + d] + rest) == Token(x * 64 + d, rest)
  {
    Front([192 + x, 128 + d], rest);
    assert (192 + x) % 32 == x;
    Digit(d);
  }

  lemma ThreeRead(x: nat, d1: nat, d: nat, rest: seq<Byte>)
    requires x < 16 && d1 < 64 && d < 64
    ensures Wide([224 + x, 128 + d1, 128 + d] + rest) == Token((x * 64 + d1) * 64 + d, rest)
  {
    Front([224 + x, 128 + d1, 128 + d], rest);
    assert (224 + x) % 16 == x;
    Digit(d);
    Digit(d1);
  }

  lemma FourRead(x: nat, d2: nat, d1: nat, d: nat, rest: seq<Byte>)
    requires x < 8 && d2 < 64 && d1 < 64 && d < 64
    ensures Wide([240 + x, 128 + d2, 128 + d1, 128 + d] + rest) == Token(((x * 64 + d2) * 64 + d1) * 64 + d, rest)
  {
    Front([240 + x, 128 + d2, 128 + d1, 128 + d], rest);
    assert (240 + x) % 8 == x;
    Digit(d);
    Digit(d1);
    Digit(d2);
  }

  lemma FiveRead(x: nat, d3: nat, d2: nat, d1: nat, d: nat, rest: seq<Byte>)
    requires x < 4 && d3 < 64 && d2 < 64 && d1 < 64 && d < 64
    ensures
      Wide([248 + x, 128 + d3, 128 + d2, 128 + d1, 128 + d] + rest) ==
      Token((((x * 64 + d3) * 64 + d2) * 64 + d1) * 64 + d, rest)
  {
    Front([248 + x, 128 + d3, 128 + d2, 128 + d1, 128 + d], rest);
    assert (248 + x) % 4 == x;
    Digit(d);
    Digit(d1);
    Digit(d2);
    Digit(d3);
  }

  lemma SixRead(x: nat, d4: nat, d3: nat, d2: nat, d1: nat, d: nat, rest: seq<Byte>)
    requires x < 2 && d4 < 64 && d3 < 64 && d2 < 64 && d1 < 64 && d < 64
    ensures
      Wide([252 + x, 128 + d4, 128 + d3, 128 + d2, 128 + d1, 128 + d] + rest) ==
      Token(((((x * 64 + d4) * 64 + d3) * 64 + d2) * 64 + d1) * 64 + d, rest)
  {
    Front([252 + x, 128 + d4, 128 + d3, 128 + d2, 128 + d1, 128 + d], rest);
    assert (252 + x) % 2 == x;
    Digit(d);
    Digit(d1);
    Digit(d2);
    Digit(d3);
    Digit(d4);
  }

  lemma First(s: seq<Byte>, rest: seq<Byte>)
    requires |s| >= 2
    ensures |s + rest| >= 2 && (s + rest)[0] == s[0] && (s + rest)[1] == s[1]
  {
  }

  /** Groups of six bits put together again */
  lemma Join(c: nat, c1: nat, c2: nat, c3: nat, c4: nat, c5: nat, d: nat, d1: nat, d2: nat, d3: nat, d4: nat)
    requires c == c1 * 64 + d && c1 == c2 * 64 + d1 && c2 == c3 * 64 + d2 && c3 == c4 * 64 + d3 && c4 == c5 * 64 + d4
    ensures c == (c2 * 64 + d1) * 64 + d && c == ((c3 * 64 + d2) * 64 + d1) * 64 + d
    ensures c == (((c4 * 64 + d3) * 64 + d2) * 64 + d1) * 64 + d
    ensures c == ((((c5 * 64 + d4) * 64 + d3) * 64 + d2) * 64 + d1) * 64 + d
  {
  }

  lemma Kept(c1: nat, c2: nat, c3: nat, c4: nat, c5: nat)
    ensures (c1 < 32 ==> c1 % 32 == c1) && (c2 < 16 ==> c2 % 16 == c2) && (c3 < 8 ==> c3 % 8 == c3)
    ensures (c4 < 4 ==> c4 % 4 == c4) && (c5 < 2 ==> c5 % 2 == c5)
  {
  }

  /** Of the highest group of six bytes one bit is kept. */
  lemma Under(x: nat, d4: nat, d3: nat, d2: nat, d1: nat, d: nat)
    requires x < 2 && d4 < 64 && d3 < 64 && d2 < 64 && d1 < 64 && d < 64
    ensures ((((x * 64 + d4) * 64 + d3) * 64 + d2) * 64 + d1) * 64 + d < WIDE
  {
  }

  /** The bytes s are read as the char c. */
  ghost predicate ReadAs(s: seq<Byte>, rest: seq<Byte>, c: nat)
    requires |s| >= 2
  {
    Wide(s + rest) == Token(c, rest)
  }

  lemma ShortRead(c: nat, rest: seq<Byte>)
    requires c < 0x400_0000
    ensures ReadAs(Encoded(c), rest, c)
  {
    var c1, c2, c3, c4 := c / 64, c / 64 / 64, c / 64 / 64 / 64, c / 64 / 64 / 64 / 64;
    var d, d1, d2, d3, d4 := c % 64, c1 % 64, c2 % 64, c3 % 64, c4 % 64;
    Bounds(c);
    Kept(c1, c2, c3, c4, c4 / 64);
    Join(c, c1, c2, c3, c4, c4 / 64, d, d1, d2, d3, d4);
    if c < 0x800 {
      TwoRead(c1, d, rest);
    } else if c < 0x1_0000 {
      ThreeRead(c2, d1, d, rest);
    } else if c < 0x20_0000 {
      FourRead(c3, d2, d1, d, rest);
    } else {
      FiveRead(c4, d3, d2, d1, d, rest);
    }
  }

  lemma LongReadIff(c: nat, rest: seq<Byte>)
    requires c >= 0x400_0000
    ensures ReadAs(Encoded(c), rest, c) <==> c < WIDE
  {
    var c1, c2, c3, c4 := c / 64, c / 64 / 64, c / 64 / 64 / 64, c / 64 / 64 / 64 / 64;
    var d, d1, d2, d3, d4 := c % 64, c1 % 64, c2 % 64, c3 % 64, c4 % 64;
    var c5 := c4 / 64;
    Bounds(c);
    Kept(c1, c2, c3, c4, c5);
    Join(c, c1, c2, c3, c4, c5, d, d1, d2, d3, d4);
    SixRead(c5 % 2, d4, d3, d2, d1, d, rest);
    Under(c5 % 2, d4, d3, d2, d1, d);
  }

  /** A char is read back from its bytes exactly when it has at most 31 bits. */
  lemma EncodedReadIff(c: nat, rest: seq<Byte>, entities: Entities)
    ensures CharOf(Encoded(c) + rest, entities) == Some(Token(c, rest)) <==> c < WIDE
  {
    var w := Encoded(c) + rest;
    First(Encoded(c), rest);
    if c < 0x400_0000 {
      ShortRead(c, rest);
    } else {
      LongReadIff(c, rest);
    }
    WideChar(w, entities);
  }

  lemma {:induction false} NameCut(w: seq<Byte>, n: nat)
    requires n <= |w| && 59 !in w[..n]
    ensures RefName(w, n) == Name(w[..n], w[n..])
  {
    if n > 0 {
      assert w[0] == w[..n][0] && w[1..][..n - 1] == w[..n][1..];
      NameCut(w[1..], n - 1);
    }
  }

  lemma TenToFive()
    ensures TenTo(5) == 10_0000 && TenTo(6) == 100_0000
  {
    assert TenTo(1) == 10 * TenTo(0) && TenTo(2) == 10 * TenTo(1) && TenTo(3) == 10 * TenTo(2) && TenTo(4) == 10 * TenTo(3);
    assert TenTo(5) == 10 * TenTo(4);
  }

  lemma ShortReference(c: nat, rest: seq<Byte>, entities: Entities)
    requires |Dec(c)| <= 5
    ensures TokenOf([38, 35] + Dec(c) + [59] + rest, entities) == Some(Token(Marked(c), rest))
  {
    DecRead(c);
    var name := [35] + Dec(c);
    assert name[1..] == Dec(c) && name[1] == Dec(c)[0];
    assert [38, 35] + Dec(c) == [38] + name;
    RefRead(name, rest, entities);
  }

  lemma {:induction false} NumberBound(s: seq<Byte>, acc: nat)
    requires AllDigits(s)
    ensures Number(s, 10, acc) < (acc + 1) * TenTo(|s|)
  {
    if s != [] {
      var d, t := s[0] - 48, TenTo(|s| - 1);
      NumberBound(s[1..], 10 * acc + d);
      DigitMore(acc, d, t);
    }
  }

  lemma DigitMore(acc: nat, d: nat, t: nat)
    requires d < 10
    ensures (10 * acc + d + 1) * t <= (acc + 1) * (10 * t)
  {
    assert (10 * acc + 10) * t == (acc + 1) * (10 * t);
    assert (10 * acc + d + 1) * t <= (10 * acc + 10) * t;
  }

  /** Seven chars of a reference are read, and the semicolon that comes later is left. */
  lemma LongReference(c: nat, rest: seq<Byte>, entities: Entities)
    requires |Dec(c)| > 5
    ensures
      var t := TokenOf([38, 35] + Dec(c) + [59] + rest, entities);
      t.Some? && |t.value.rest| > |rest| && t.value.c < 128
  {
    DecRead(c);
    var w := [38, 35] + Dec(c) + [59] + rest;
    var v := w[1..];
    assert v[0] == 35 && forall i :: 0 <= i < 6 ==> v[i + 1] == Dec(c)[i];
    NameCut(v, 7);
    var name := v[..7];
    assert name[1..] == Dec(c)[..6] && name[1] == Dec(c)[0];
    NumberBound(Dec(c)[..6], 0);
    TenToFive();
  }

  /** A reference is read back exactly when the code has at most five digits. */
  lemma ReferenceReadIff(c: nat, rest: seq<Byte>, entities: Entities)
    ensures CharOf([38, 35] + Dec(c) + [59] + rest, entities) == Some(Token(Marked(c), rest)) <==> c < 10_0000
  {
    var w := [38, 35] + Dec(c) + [59] + rest;
    DecLength(c, 5);
    TenToFive();
    if c < 10_0000 {
      ShortReference(c, rest, entities);
    } else {
      LongReference(c, rest, entities);
    }
    TokenIsChar(w, TokenOf(w, entities).value, entities);
  }

  /** Written and read back: the char itself in canonical mode, otherwise the char marked as a reference. */
  method WriteAndRead(c: nat, canonical: bool, rest: seq<Byte>, entities: Entities) returns (got: int, left: seq<Byte>)
    requires (c == 0 || c >= 128) && c < if canonical then WIDE else 10_0000
    ensures got == (if canonical then c else Marked(c)) && left == rest
  {
    var out := new Output(false);
    PutUtf8(out, c, canonical);
    assert out.sent == Written(c, canonical);
    EncodedReadIff(c, rest, entities);
    ReferenceReadIff(c, rest, entities);
    var reader := new XmlReader(out.sent + rest, entities);
    got := reader.GetUtf8();
    left := reader.input;
  }
}
