/** What has been written: soap_send_raw in the counting pass, where it adds to the length, and in the
    sending pass, where it hands the bytes to the buffer (nPVR/stdsoap2.cpp). */
module Outputs {
  import opened Bytes

  class Output {
    var lengthMode: bool
    var count: nat
    var sent: seq<Byte>
    /** All that the current pass has written. */
    ghost var text: seq<Byte>

    /** The length of the pass has been counted, or its bytes have been sent. */
    ghost predicate Right()
      reads this
    {
      if lengthMode then count == |text| else sent == text
    }

    /** The start of a pass, in soap_begin_count or soap_begin_send. */
    constructor (lengthMode: bool)
      ensures Right() && text == [] && this.lengthMode == lengthMode
    {
      this.lengthMode, count, sent, text := lengthMode, 0, [], [];
    }

    /** soap_send_raw */
    method SendRaw(s: seq<Byte>)
      requires Right()
      modifies this`count, this`sent, this`text
      ensures Right() && text == old(text) + s
    {
      text := text + s;
      if |s| == 0 {
        assert s == [];
        return;
      }
      if lengthMode {
        count := count + |s|;
      } else {
        sent := sent + s;
      }
    }
  }
}

/** soap_string_out: the characters that stand for markup, and those that a reader would normalise, are
    replaced by references. */
module Escapes {
  import opened Bytes
  import opened Outputs

  const TAB_REF: seq<Byte> := [38, 35, 120, 57, 59]
  const LF_REF: seq<Byte> := [38, 35, 120, 65, 59]
  const CR_REF: seq<Byte> := [38, 35, 120, 68, 59]
  const AMP_REF: seq<Byte> := [38, 97, 109, 112, 59]
  const LT_REF: seq<Byte> := [38, 108, 116, 59]
  const GT_REF: seq<Byte> := [38, 103, 116, 59]
  const QUOT_REF: seq<Byte> := [38, 113, 117, 111, 116, 59]

  /** The conversion %lu of sprintf. */
  function Dec(n: nat): (s: seq<Byte>)
    ensures s != []
  {
    if n < 10 then [48 + n] else Dec(n / 10) + [48 + n % 10]
  }

  /** soap_pututf8 of a byte with the high bit. */
  function HighByte(b: Byte, canonical: bool): seq<Byte>
    requires b >= 128
  {
    if canonical then [192 + b / 64, 128 + b % 64] else [38, 35] + Dec(b) + [59]
  }

  /** What is written for a byte; an attribute value is written with the flag. */
  function Escape(b: Byte, flag: bool, canonical: bool): (s: seq<Byte>)
  {
    if b == 9 && flag then TAB_REF
    else if b == 10 && (flag || !canonical) then LF_REF
    else if b == 13 then CR_REF
    else if b == 38 then AMP_REF
    else if b == 60 then LT_REF
    else if b == 62 && !flag then GT_REF
    else if b == 34 && flag then QUOT_REF
    else if b >= 128 then HighByte(b, canonical)
    else [b]
  }

  /** What is written for a string, which ends at the first NUL. */
  function EscapeAll(s: seq<Byte>, flag: bool, canonical: bool): seq<Byte> {
    if s == [] || s[0] == 0 then [] else Escape(s[0], flag, canonical) + EscapeAll(s[1..], flag, canonical)
  }

  lemma {:induction false} EscapeSnoc(s: seq<Byte>, b: Byte, flag: bool, canonical: bool)
    requires 0 !in s && b != 0
    ensures EscapeAll(s + [b], flag, canonical) == EscapeAll(s, flag, canonical) + Escape(b, flag, canonical)
  {
    if s == [] {
      assert [b][1..] == [];
    } else {
      EscapeSnoc(s[1..], b, flag, canonical);
      assert (s + [b])[1..] == s[1..] + [b];
    }
  }

  lemma {:induction false} EscapeStops(s: seq<Byte>, n: nat, flag: bool, canonical: bool)
    requires n <= |s| && 0 !in s[..n] && (n < |s| ==> s[n] == 0)
    ensures EscapeAll(s, flag, canonical) == EscapeAll(s[..n], flag, canonical)
  {
    if n > 0 {
      assert s[0] == s[..n][0] && s[..n][1..] == s[1..][..n - 1];
      EscapeStops(s[1..], n - 1, flag, canonical);
    }
  }

  /** With the run from..to added, text is before followed by what is written for the first to bytes. */
  ghost predicate Written(before: seq<Byte>, text: seq<Byte>, s: seq<Byte>, from: nat, to: nat, flag: bool, canonical: bool) {
    && from <= to <= |s| && 0 !in s[..to]
    && text + s[from..to] == before + EscapeAll(s[..to], flag, canonical)
  }

  lemma OneEscaped(s: seq<Byte>, to: nat, flag: bool, canonical: bool)
    requires to < |s| && 0 !in s[..to] && s[to] != 0
    ensures 0 !in s[..to + 1]
    ensures EscapeAll(s[..to + 1], flag, canonical) == EscapeAll(s[..to], flag, canonical) + Escape(s[to], flag, canonical)
  {
    assert s[..to + 1] == s[..to] + [s[to]];
    EscapeSnoc(s[..to], s[to], flag, canonical);
  }

  lemma RunGrows(
      before: seq<Byte>, text: seq<Byte>, s: seq<Byte>, from: nat, to: nat, flag: bool, canonical: bool)
    requires Written(before, text, s, from, to, flag, canonical) && to < |s| && s[to] != 0
    requires Escape(s[to], flag, canonical) == [s[to]]
    ensures Written(before, text, s, from, to + 1, flag, canonical)
  {
    OneEscaped(s, to, flag, canonical);
    assert s[from..to + 1] == s[from..to] + [s[to]];
    assert text + (s[from..to] + [s[to]]) == (text + s[from..to]) + [s[to]];
    assert before + (EscapeAll(s[..to], flag, canonical) + [s[to]]) == (before + EscapeAll(s[..to], flag, canonical)) + [s[to]];
  }

  lemma RunEnds(
      before: seq<Byte>, text: seq<Byte>, s: seq<Byte>, from: nat, to: nat, flag: bool, canonical: bool)
    requires Written(before, text, s, from, to, flag, canonical) && to < |s| && s[to] != 0
    ensures Written(before, text + s[from..to] + Escape(s[to], flag, canonical), s, to + 1, to + 1, flag, canonical)
  {
    var e := Escape(s[to], flag, canonical);
    OneEscaped(s, to, flag, canonical);
    assert before + (EscapeAll(s[..to], flag, canonical) + e) == (before + EscapeAll(s[..to], flag, canonical)) + e;
    assert s[to + 1..to + 1] == [];
  }

  /** The switch of soap_string_out: what is to be sent for a byte, or nothing if it is part of a run. */
  method Replacement(c: Byte, flag: bool, canonical: bool) returns (r: seq<Byte>)
    ensures r == (if Escape(c, flag, canonical) == [c] then [] else Escape(c, flag, canonical))
  {
    r := [];
    match c {
      case 9 =>
        if flag {
          r := TAB_REF;
        }
      case 10 =>
        if flag || !canonical {
          r := LF_REF;
        }
      case 13 => r := CR_REF;
      case 38 => r := AMP_REF;
      case 60 => r := LT_REF;
      case 62 =>
        if !flag {
          r := GT_REF;
        }
      case 34 =>
        if flag {
          r := QUOT_REF;
        }
      case _ =>
        if c >= 128 {
          r := HighByte(c, canonical);
        }
    }
  }

  /** soap_string_out: runs of plain bytes are sent together. */
  method StringOut(out: Output, str: seq<Byte>, flag: bool, canonical: bool)
    requires out.Right()
    modifies out`count, out`sent, out`text
    ensures out.Right() && out.text == old(out.text) + EscapeAll(str, flag, canonical)
  {
    var s, t := 0, 0;
    while t < |str| && str[t] != 0
      invariant out.Right() && Written(old(out.text), out.text, str, s, t, flag, canonical)
    {
      var r := Replacement(str[t], flag, canonical);
      if r != [] {
        RunEnds(old(out.text), out.text, str, s, t, flag, canonical);
        out.SendRaw(str[s..t]);
        out.SendRaw(r);
        s := t + 1;
      } else {
        RunGrows(old(out.text), out.text, str, s, t, flag, canonical);
      }
      t := t + 1;
    }
    out.SendRaw(str[s..t]);
    EscapeStops(str, t, flag, canonical);
  }
}
