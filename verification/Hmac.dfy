/** HMAC with SHA-1: section 2 of RFC 2104, and Generic/CdmiFuse/hmac_sha1.cpp, which takes key and text in
    pieces. */
module Hmac {
  import opened Bytes
  import opened Sha1Words
  import opened Sha1Message
  import opened Sha1Context

  const DIGEST: nat := 20
  /** ipad and opad of RFC 2104 */
  const INNER: bv8 := 0x36
  const OUTER: bv8 := 0x5C

  /** The filler bytes of the program */
  const IPAD_BYTE: bv8 := 0x36
  const OPAD_BYTE: bv8 := 0x5C

  /** Step (1) of section 2, with the hash of a key longer than a block in its place */
  function KeyBlock(key: seq<bv8>): (r: seq<bv8>)
    ensures |r| == BLOCK
  {
    if |key| > BLOCK then Hash(key) + Zeros(BLOCK - DIGEST) else key + Zeros(BLOCK - |key|)
  }

  /** XOR of bytes */
  function Xor(x: bv8, y: bv8): bv8 { x ^ y }

  /** Its truth table */
  lemma XorTable()
    ensures Xor(0xC, 0xA) == 0x6 && Xor(0xF0, 0) == 0xF0 && Xor(0, 0xF0) == 0xF0 && Xor(0xF0, 0xF0) == 0
  {
  }

  /** Steps (2) and (5) */
  function Padding(filler: bv8, block: seq<bv8>): (r: seq<bv8>)
    ensures |r| == |block|
  {
    seq(|block|, i requires 0 <= i < |block| => Xor(block[i], filler))
  }

  /** H(K XOR opad, H(K XOR ipad, text)) */
  function Mac(key: seq<bv8>, text: seq<bv8>): seq<bv8> {
    Hash(Padding(OUTER, KeyBlock(key)) + Hash(Padding(INNER, KeyBlock(key)) + text))
  }

  lemma ZerosAreZero(n: nat, i: nat)
    requires i < n
    ensures Zeros(n)[i] == 0
  {
  }

  lemma XorWithZero(x: bv8)
    ensures Xor(0, x) == x
  {
  }

  lemma XorsSwapped(x: bv8, y: bv8)
    ensures ExclusiveOr(x, y) == Xor(y, x)
  {
  }

  /** Beyond the part of the key block that is not zero, a pad is its filler. */
  lemma PaddingOf(filler: bv8, part: seq<bv8>, n: nat, pad: seq<bv8>)
    requires |pad| == |part| + n
    requires forall i :: 0 <= i < |part| ==> pad[i] == ExclusiveOr(filler, part[i])
    requires forall i :: |part| <= i < |pad| ==> pad[i] == filler
    ensures pad == Padding(filler, part + Zeros(n))
  {
    forall i | 0 <= i < |pad|
      ensures pad[i] == Padding(filler, part + Zeros(n))[i]
    {
      if i >= |part| {
        ZerosAreZero(n, i - |part|);
        assert (part + Zeros(n))[i] == 0;
        XorWithZero(filler);
      } else {
        XorsSwapped(filler, part[i]);
      }
    }
  }

  /** Pieces that SHA1_Update can take */
  ghost predicate Fit(pieces: seq<seq<bv8>>) {
    forall p :: p in pieces ==> |p| <= LIMIT
  }

  class Authenticator {
    const ipad: array<bv8>
    const opad: array<bv8>
    const key: array<bv8>
    const shactx: Context
    var keylen: nat
    var hashkey: bool
    ghost var whole: seq<bv8>

    ghost predicate Shape()
      reads this
    {
      && ipad.Length == opad.Length == key.Length == shactx.buffer.Length == BLOCK
      && ipad != opad && ipad != key && opad != key
      && shactx.buffer != ipad && shactx.buffer != opad && shactx.buffer != key
    }

    ghost predicate Filled(pad: array<bv8>, from: nat, filler: bv8)
      reads pad
    {
      forall i :: from <= i < pad.Length ==> pad[i] == filler
    }

    /** The pieces of the key so far are its bytes in the buffer, or are being hashed. */
    ghost predicate Keying()
      reads this, ipad, opad, key, shactx, shactx.buffer
    {
      && Shape() && Filled(ipad, 0, IPAD_BYTE) && Filled(opad, 0, OPAD_BYTE)
      && if hashkey then
           keylen == DIGEST && |whole| > BLOCK && shactx.Valid() && shactx.absorbed == whole
         else
           keylen == |whole| <= BLOCK && key[..keylen] == whole
    }

    /** The pads are those of the key. */
    ghost predicate Keyed()
      reads this, ipad, opad
    {
      Shape() && ipad[..] == Padding(INNER, KeyBlock(whole)) && opad[..] == Padding(OUTER, KeyBlock(whole))
    }

    /** A message has begun, and this is its text so far. */
    ghost predicate Reading(text: seq<bv8>)
      reads this, ipad, opad, shactx, shactx.buffer
    {
      Keyed() && shactx.Valid() && shactx.absorbed == Padding(INNER, KeyBlock(whole)) + text
    }

    /** HMAC_SHA1_Init */
    constructor ()
      ensures Keying() && whole == []
      ensures fresh(ipad) && fresh(opad) && fresh(key) && fresh(shactx) && fresh(shactx.buffer)
    {
      ipad := new bv8[BLOCK](_ => IPAD_BYTE);
      opad := new bv8[BLOCK](_ => OPAD_BYTE);
      key := new bv8[BLOCK](_ => 0);
      shactx := new Context();
      keylen := 0;
      hashkey := false;
      whole := [];
    }

    /** The key has become longer than a block: what the buffer has of it goes to the hash. */
    method StartHashing()
      requires Keying() && !hashkey
      modifies `hashkey, `keylen, shactx, shactx.buffer
      ensures hashkey && keylen == DIGEST && shactx.Valid() && shactx.absorbed == whole
    {
      hashkey := true;
      shactx.Init();
      if keylen > 0 {
        shactx.Update(key[..keylen]);
      }
      keylen := DIGEST;
    }

    /** HMAC_SHA1_UpdateKey: a key longer than a block is hashed, the part in the buffer first. */
    method UpdateKey(data: seq<bv8>)
      requires Keying() && |data| <= LIMIT
      modifies this, key, shactx, shactx.buffer
      ensures Keying() && whole == old(whole) + data
    {
      if |data| < 1 {
        assert whole + data == whole;
        return;
      }
      if hashkey || |data| + keylen > BLOCK {
        if !hashkey {
          StartHashing();
        }
        shactx.Update(data);
      } else {
        Append(data);
      }
      whole := whole + data;
    }

    method Append(data: seq<bv8>)
      requires keylen + |data| <= key.Length
      modifies `keylen, key
      ensures keylen == old(keylen) + |data| && key[..keylen] == old(key[..keylen]) + data
    {
      forall i | 0 <= i < |data| {
        key[keylen + i] := data[i];
      }
      keylen := keylen + |data|;
    }

    /** The hash of a long key takes the place of the key. */
    method TakeDigest()
      requires Keying() && hashkey
      modifies key, shactx, shactx.buffer
      ensures key[..DIGEST] == Hash(whole)
    {
      forall i | 0 <= i < BLOCK {
        key[i] := 0;
      }
      var digest := shactx.Final();
      forall i | 0 <= i < DIGEST {
        key[i] := digest[i];
      }
      assert key[..DIGEST] == digest;
    }

    /** The byte i of both pads with that of the key */
    method Mix(i: nat)
      requires i < ipad.Length && i < opad.Length && i < key.Length && ipad != opad && ipad != key && opad != key
      modifies ipad, opad
      ensures ipad[i] == ExclusiveOr(old(ipad[i]), key[i]) && opad[i] == ExclusiveOr(old(opad[i]), key[i])
      ensures forall j :: 0 <= j < ipad.Length && j != i ==> ipad[j] == old(ipad[j])
      ensures forall j :: 0 <= j < opad.Length && j != i ==> opad[j] == old(opad[j])
    {
      ipad[i] := ExclusiveOr(ipad[i], key[i]);
      opad[i] := ExclusiveOr(opad[i], key[i]);
    }

    method MixAll()
      requires Shape() && keylen <= BLOCK && Filled(ipad, 0, IPAD_BYTE) && Filled(opad, 0, OPAD_BYTE)
      modifies ipad, opad
      ensures ipad[..] == Padding(IPAD_BYTE, key[..keylen] + Zeros(BLOCK - keylen))
      ensures opad[..] == Padding(OPAD_BYTE, key[..keylen] + Zeros(BLOCK - keylen))
    {
      ghost var part := key[..keylen];
      var i := 0;
      while i < keylen
        invariant i <= keylen && Filled(ipad, i, IPAD_BYTE) && Filled(opad, i, OPAD_BYTE) && key[..keylen] == part
        invariant forall j :: 0 <= j < i ==> ipad[j] == ExclusiveOr(IPAD_BYTE, part[j])
        invariant forall j :: 0 <= j < i ==> opad[j] == ExclusiveOr(OPAD_BYTE, part[j])
      {
        Mix(i);
        i := i + 1;
      }
      PaddingOf(IPAD_BYTE, part, BLOCK - keylen, ipad[..]);
      PaddingOf(OPAD_BYTE, part, BLOCK - keylen, opad[..]);
    }

    /** HMAC_SHA1_EndKey: only the bytes of the key, or of its hash, change the pads. */
    method EndKey()
      requires Keying()
      modifies ipad, opad, key, shactx, shactx.buffer
      ensures Keyed()
    {
      if hashkey {
        TakeDigest();
      }
      ghost var part := key[..keylen];
      forall i | keylen <= i < BLOCK {
        key[i] := 0;
      }
      assert key[..keylen] == part;
      MixAll();
    }

    /** One key in any pieces */
    method SetKey(keys: seq<seq<bv8>>)
      requires Keying() && whole == [] && Fit(keys)
      modifies this, ipad, opad, key, shactx, shactx.buffer
      ensures Keyed() && whole == Joined(keys)
    {
      var i := 0;
      while i < |keys|
        invariant i <= |keys| && Keying() && whole == Joined(keys[..i])
      {
        JoinedNext(keys, i);
        UpdateKey(keys[i]);
        i := i + 1;
      }
      assert keys[..i] == keys;
      EndKey();
    }

    /** HMAC_SHA1_StartMessage */
    method StartMessage()
      requires Keyed()
      modifies shactx, shactx.buffer
      ensures Reading([])
    {
      shactx.Init();
      shactx.Update(ipad[..]);
      assert [] + ipad[..] == ipad[..] + [];
    }

    /** HMAC_SHA1_UpdateMessage */
    method UpdateMessage(ghost text: seq<bv8>, data: seq<bv8>)
      requires Reading(text) && |data| <= LIMIT
      modifies shactx, shactx.buffer
      ensures Reading(text + data)
    {
      ghost var pad := Padding(INNER, KeyBlock(whole));
      Regroup(pad, text, data);
      shactx.Update(data);
    }

    /** HMAC_SHA1_EndMessage; the pads stay for the next message. */
    method EndMessage(ghost text: seq<bv8>) returns (out: seq<bv8>)
      requires Reading(text)
      modifies shactx, shactx.buffer
      ensures Keyed() && out == Mac(whole, text)
    {
      var inner := shactx.Final();
      out := Outer(inner);
    }

    method Outer(inner: seq<bv8>) returns (out: seq<bv8>)
      requires Shape() && |inner| == DIGEST
      modifies shactx, shactx.buffer
      ensures out == Hash(opad[..] + inner)
    {
      shactx.Init();
      shactx.Update(opad[..]);
      shactx.Update(inner);
      assert [] + opad[..] + inner == opad[..] + inner;
      out := shactx.Final();
    }

    /** HMAC_SHA1_Done */
    method Done()
      requires Shape()
      modifies this, ipad, key
      ensures keylen == 0 && !hashkey && Filled(ipad, 0, 0) && Filled(key, 0, 0)
    {
      forall i | 0 <= i < BLOCK {
        ipad[i] := 0;
      }
      forall i | 0 <= i < BLOCK {
        key[i] := 0;
      }
      keylen := 0;
      hashkey := false;
    }

    method UpdateNext(pieces: seq<seq<bv8>>, i: nat)
      requires i < |pieces| && Fit(pieces) && Reading(Joined(pieces[..i]))
      modifies shactx, shactx.buffer
      ensures Reading(Joined(pieces[..i + 1]))
    {
      JoinedNext(pieces, i);
      UpdateMessage(Joined(pieces[..i]), pieces[i]);
    }

    method UpdateAll(pieces: seq<seq<bv8>>)
      requires Reading([]) && Fit(pieces)
      modifies shactx, shactx.buffer
      ensures Reading(Joined(pieces))
    {
      var i := 0;
      while i < |pieces|
        invariant i <= |pieces| && Reading(Joined(pieces[..i]))
      {
        UpdateNext(pieces, i);
        i := i + 1;
      }
      assert pieces[..i] == pieces;
    }

    /** One message in any pieces, with the key of the context */
    method Authenticate(pieces: seq<seq<bv8>>) returns (out: seq<bv8>)
      requires Keyed() && Fit(pieces)
      modifies shactx, shactx.buffer
      ensures Keyed() && out == Mac(whole, Joined(pieces))
    {
      StartMessage();
      UpdateAll(pieces);
      out := EndMessage(Joined(pieces));
    }

    method AuthenticateNext(messages: seq<seq<seq<bv8>>>, macs: seq<seq<bv8>>) returns (more: seq<seq<bv8>>)
      requires Keyed() && |macs| < |messages| && Fit(messages[|macs|]) && MacsOf(whole, messages, macs)
      modifies shactx, shactx.buffer
      ensures Keyed() && |more| == |macs| + 1 && MacsOf(whole, messages, more)
    {
      var mac := Authenticate(messages[|macs|]);
      more := macs + [mac];
    }

    method AuthenticateEach(messages: seq<seq<seq<bv8>>>) returns (macs: seq<seq<bv8>>)
      requires Keyed() && AllFit(messages)
      modifies shactx, shactx.buffer
      ensures Keyed() && |macs| == |messages| && MacsOf(whole, messages, macs)
    {
      macs := [];
      while |macs| < |messages|
        invariant Keyed() && MacsOf(whole, messages, macs)
      {
        macs := AuthenticateNext(messages, macs);
      }
    }
  }

  ghost predicate AllFit(messages: seq<seq<seq<bv8>>>) {
    forall i :: 0 <= i < |messages| ==> Fit(messages[i])
  }

  ghost predicate IsMac(key: seq<bv8>, message: seq<seq<bv8>>, mac: seq<bv8>) {
    mac == Mac(key, Joined(message))
  }

  ghost predicate MacsOf(key: seq<bv8>, messages: seq<seq<seq<bv8>>>, macs: seq<seq<bv8>>) {
    |macs| <= |messages| && forall i :: 0 <= i < |macs| ==> IsMac(key, messages[i], macs[i])
  }

  /** One key in any pieces, and message after message with it */
  method AuthenticateAll(keys: seq<seq<bv8>>, messages: seq<seq<seq<bv8>>>) returns (macs: seq<seq<bv8>>)
    requires Fit(keys) && AllFit(messages)
    ensures |macs| == |messages| && MacsOf(Joined(keys), messages, macs)
  {
    var ctx := new Authenticator();
    ctx.SetKey(keys);
    macs := ctx.AuthenticateEach(messages);
  }

  /** hmac_sha1 */
  method HmacSha1(text: seq<bv8>, key: seq<bv8>) returns (digest: seq<bv8>)
    requires |text| <= LIMIT && |key| <= LIMIT
    ensures digest == Mac(key, text)
  {
    var ctx := new Authenticator();
    ctx.UpdateKey(key);
    assert [] + key == key && [] + text == text;
    ctx.EndKey();
    ctx.StartMessage();
    ctx.UpdateMessage([], text);
    digest := ctx.EndMessage(text);
  }
}
