/** Section 5.1.1 and 6.1.2 of FIPS 180-4 for whole messages of bytes: padding, and the fold of the
    compression function over the blocks. */
module Sha1Message {
  import opened Sha1Rounds
  import opened Sha1Standard
  import opened Sha1Words

  const BLOCK: nat := 64
  const WIDTH: nat := 0x1_0000_0000

  /** The hash value after the first k blocks */
  function Fold(m: seq<bv8>, k: nat): Regs
    requires BLOCK * k <= |m|
  {
    if k == 0 then START else Compress(Fold(m, k - 1), Words(m[BLOCK * (k - 1)..BLOCK * k]))
  }

  function Joined(pieces: seq<seq<bv8>>): seq<bv8> {
    if pieces == [] then [] else Joined(pieces[..|pieces| - 1]) + pieces[|pieces| - 1]
  }

  lemma JoinedNext(pieces: seq<seq<bv8>>, i: nat)
    requires i < |pieces|
    ensures Joined(pieces[..i + 1]) == Joined(pieces[..i]) + pieces[i]
  {
    assert pieces[..i + 1][..i] == pieces[..i];
  }

  /** Whole blocks in n bytes */
  function Blocks(n: nat): (k: nat)
    ensures BLOCK * k <= n < BLOCK * k + BLOCK
  {
    n / BLOCK
  }

  /** The least number of zero bytes after the byte 0x80 that leaves eight bytes of the last block. */
  function Gap(n: nat): (r: nat)
    ensures n + r + 9 == BLOCK * Blocks(n + r + 9) && r < BLOCK
  {
    (119 - n % BLOCK) % BLOCK
  }

  lemma GapIsLeast(n: nat, k: nat)
    requires k < Gap(n)
    ensures (n + k + 9) % BLOCK != 0
  {
  }

  function Zeros(n: nat): (r: seq<bv8>)
    ensures |r| == n
  {
    if n == 0 then [] else Zeros(n - 1) + [0]
  }

  /** The low n bytes of a number, the most significant one first */
  function BigEndian(v: nat, n: nat): (r: seq<nat>)
    ensures |r| == n
  {
    if n == 0 then [] else BigEndian(v / 256, n - 1) + [v % 256]
  }

  function AsBytes(v: seq<nat>): (r: seq<bv8>)
    ensures |r| == |v|
  {
    seq(|v|, i requires 0 <= i < |v| => AsByte(v[i]))
  }

  /** Section 5.1.1 */
  function Padded(m: seq<bv8>): (r: seq<bv8>)
    ensures |r| == BLOCK * Blocks(|r|)
  {
    m + [0x80] + Zeros(Gap(|m|)) + AsBytes(BigEndian(8 * |m| % (WIDTH * WIDTH), 8))
  }

  /** The words in their order; state[i] */
  function WordAt(h: Regs, i: nat): bv32 {
    if i == 0 then h.a else if i == 1 then h.b else if i == 2 then h.c else if i == 3 then h.d else h.e
  }

  lemma WordsInOrder(a: bv32, b: bv32, c: bv32, d: bv32, e: bv32)
    ensures
      var h := Regs(a, b, c, d, e);
      [WordAt(h, 0), WordAt(h, 1), WordAt(h, 2), WordAt(h, 3), WordAt(h, 4)] == [a, b, c, d, e]
  {
  }

  /** The five words as 20 bytes */
  function Digest(h: Regs): (r: seq<bv8>)
    ensures |r| == 20
  {
    seq(20, i requires 0 <= i < 20 => BigByte(WordAt(h, i / 4), i % 4))
  }

  lemma DigestIs(h: Regs, digest: seq<bv8>)
    requires |digest| == 20 && forall i :: 0 <= i < 20 ==> digest[i] == ShiftedByte(WordAt(h, i / 4), i % 4)
    ensures digest == Digest(h)
  {
    forall i | 0 <= i < 20
      ensures digest[i] == Digest(h)[i]
    {
      BytesAgree(WordAt(h, i / 4), i % 4);
    }
  }

  function Hash(m: seq<bv8>): (r: seq<bv8>)
    ensures |r| == 20
  {
    Digest(Fold(Padded(m), Blocks(|Padded(m)|)))
  }

  lemma {:induction false} FoldPrefix(m: seq<bv8>, more: seq<bv8>, k: nat)
    requires BLOCK * k <= |m|
    ensures Fold(m + more, k) == Fold(m, k)
  {
    if k > 0 {
      FoldPrefix(m, more, k - 1);
      assert (m + more)[BLOCK * (k - 1)..BLOCK * k] == m[BLOCK * (k - 1)..BLOCK * k];
    }
  }

  /** Entry k of a list is the hash value after k blocks. */
  ghost predicate Hashed(m: seq<bv8>, hs: seq<Regs>) {
    |m| < BLOCK * |hs| && (forall k: nat {:trigger HashedAt(m, hs, k)} :: k < |hs| && BLOCK * k <= |m| ==> HashedAt(m, hs, k))
  }

  ghost predicate HashedAt(m: seq<bv8>, hs: seq<Regs>, k: nat)
    requires k < |hs| && BLOCK * k <= |m|
  {
    hs[k] == Fold(m, k)
  }

  ghost function Hashes(m: seq<bv8>): (hs: seq<Regs>)
    ensures Hashed(m, hs)
  {
    var hs := seq(Blocks(|m|) + 1, k requires 0 <= k <= Blocks(|m|) => Fold(m, k));
    assert forall k: nat {:trigger HashedAt(m, hs, k)} :: k < |hs| && BLOCK * k <= |m| ==> HashedAt(m, hs, k);
    hs
  }

  lemma HashesContinue(m: seq<bv8>, more: seq<bv8>, k: nat)
    requires BLOCK * k <= |m|
    ensures Hashes(m + more)[k] == Hashes(m)[k]
  {
    assert HashedAt(m, Hashes(m), k) && HashedAt(m + more, Hashes(m + more), k);
    FoldPrefix(m, more, k);
  }

  /** What a context holds after the message m: 8 * |m| modulo 2^64 in the two counters, the hash value of the
      whole blocks, and the rest at the start of the buffer. */
  ghost predicate Absorbed(m: seq<bv8>, state: Regs, count0: nat, count1: nat, buffer: seq<bv8>) {
    var k := Blocks(|m|);
    && |buffer| == BLOCK
    && count0 == 8 * |m| % WIDTH && count1 == 8 * |m| / WIDTH % WIDTH
    && state == Hashes(m)[k] && buffer[..|m| - BLOCK * k] == m[BLOCK * k..]
  }

  /** The counters after n bytes and len more */
  lemma Carry(n: nat, len: nat, c0: nat, c1: nat, c: nat)
    requires len <= 1024 && c0 == 8 * n % WIDTH && c1 == 8 * n / WIDTH % WIDTH && c == (c0 + 8 * len) % WIDTH
    ensures c == 8 * (n + len) % WIDTH
    ensures 8 * (n + len) / WIDTH % WIDTH == if c < 8 * len then (c1 + 1) % WIDTH else c1
  {
    var q := 8 * n / WIDTH;
    assert 8 * (n + len) == q * WIDTH + c0 + 8 * len;
    if c < 8 * len {
      assert 8 * (n + len) == (q + 1) * WIDTH + c;
    } else {
      assert 8 * (n + len) == q * WIDTH + c;
    }
  }

  /** The counters are the number of bits taken in, modulo 2^64. */
  lemma CountersHoldLength(n: nat)
    ensures 8 * n / WIDTH % WIDTH * WIDTH + 8 * n % WIDTH == 8 * n % (WIDTH * WIDTH)
  {
    var v, q := 8 * n, 8 * n / WIDTH;
    var p, r := q / WIDTH, q % WIDTH;
    assert v == p * (WIDTH * WIDTH) + (r * WIDTH + v % WIDTH);
  }

  lemma Offset(n: nat)
    ensures 8 * n % WIDTH / 8 % BLOCK == n - BLOCK * Blocks(n)
  {
    var q := 8 * n / WIDTH;
    var m := n - q * 0x2000_0000;
    assert 8 * n % WIDTH == 8 * m;
    assert m % BLOCK == n % BLOCK;
  }

  function Power(k: nat): (r: nat)
    ensures r > 0
  {
    if k == 0 then 1 else 256 * Power(k - 1)
  }

  /** A number shifted right by k bytes */
  function ShiftedRight(v: nat, k: nat): nat
    requires k < 4
  {
    if k == 3 then v / 0x100_0000 else if k == 2 then v / 0x1_0000 else if k == 1 then v / 0x100 else v
  }

  /** The bytes of a counter, as the program takes them out */
  lemma CounterBytes(v: nat)
    ensures BigEndian(v, 4) == seq(4, i requires 0 <= i < 4 => ShiftedRight(v, 3 - i) % 256)
  {
    assert v / 256 / 256 == v / 0x1_0000 && v / 256 / 256 / 256 == v / 0x100_0000;
    assert BigEndian(v / 256 / 256 / 256, 1) == [v / 0x100_0000 % 256];
    assert BigEndian(v / 256 / 256, 2) == [v / 0x100_0000 % 256, v / 0x1_0000 % 256];
    assert BigEndian(v / 256, 3) == [v / 0x100_0000 % 256, v / 0x1_0000 % 256, v / 0x100 % 256];
  }

  /** Two halves in big-endian order, one after the other */
  lemma {:induction false} BigEndianHalves(hi: nat, lo: nat, n: nat, k: nat)
    requires lo < Power(k)
    ensures BigEndian(hi * Power(k) + lo, n + k) == BigEndian(hi, n) + BigEndian(lo, k)
    decreases k
  {
    if k > 0 {
      var v, p := hi * Power(k) + lo, Power(k - 1);
      assert v == 256 * (hi * p + lo / 256) + lo % 256;
      assert lo / 256 < p;
      BigEndianHalves(hi, lo / 256, n, k - 1);
      assert v / 256 == hi * p + lo / 256 && v % 256 == lo % 256;
    }
  }

  lemma OneZero(m: seq<bv8>, k: nat)
    ensures m + [0x80] + Zeros(k) + [0] == m + [0x80] + Zeros(k + 1)
  {
  }

  /** The zeros are enough when 56 bytes of a block are used. */
  lemma PadMore(n: nat, k: nat)
    requires k <= Gap(n)
    ensures n + 1 + k - BLOCK * Blocks(n + 1 + k) == 56 <==> k == Gap(n)
  {
    if n + 1 + k - BLOCK * Blocks(n + 1 + k) == 56 && k < Gap(n) {
      GapIsLeast(n, k);
    }
  }

  /** The eight bytes that SHA1_Final keeps of the two counters */
  function FinalCount(count0: nat, count1: nat): (r: seq<nat>)
    ensures |r| == 8
  {
    seq(8, i requires 0 <= i < 8 => ShiftedRight(if i >= 4 then count0 else count1, 3 - i % 4) % 256)
  }

  lemma LengthHalves(n: nat, count0: nat, count1: nat)
    requires count0 == 8 * n % WIDTH && count1 == 8 * n / WIDTH % WIDTH
    ensures BigEndian(8 * n % (WIDTH * WIDTH), 8) == BigEndian(count1, 4) + BigEndian(count0, 4)
  {
    CountersHoldLength(n);
    assert Power(4) == WIDTH by { assert Power(1) == 256 && Power(2) == 0x1_0000 && Power(3) == 0x100_0000; }
    BigEndianHalves(count1, count0, 4, 4);
  }

  /** They are the length field of the padding. */
  lemma LengthField(n: nat, count0: nat, count1: nat)
    requires count0 == 8 * n % WIDTH && count1 == 8 * n / WIDTH % WIDTH
    ensures FinalCount(count0, count1) == BigEndian(8 * n % (WIDTH * WIDTH), 8)
  {
    LengthHalves(n, count0, count1);
    CounterBytes(count0);
    CounterBytes(count1);
    var r, hi, lo := FinalCount(count0, count1), BigEndian(count1, 4), BigEndian(count0, 4);
    forall i | 0 <= i < 8
      ensures r[i] == (hi + lo)[i]
    {
      if i >= 4 {
        assert (hi + lo)[i] == lo[i - 4] && i % 4 == i - 4;
      }
    }
  }
}

/** The context of SHA-1: Generic/CdmiFuse/sha1.cpp on a machine that is not big-endian. */
module Sha1Context {
  import opened Sha1Rounds
  import opened Sha1Standard
  import opened Sha1Words
  import opened Sha1Message

  const LIMIT: nat := 1024

  /** Byte i of a block that went through the compression is that of one of the last 16 words of the schedule. */
  ghost predicate Spent(m: seq<bv32>, bytes: seq<bv8>, i: nat)
    requires |m| == 16 && i < |bytes|
  {
    bytes[i] == LittleByte(Schedule(m, 64 + i / 4), i % 4)
  }

  class Context {
    var state: Regs
    var count0: nat
    var count1: nat
    const buffer: array<bv8>
    ghost var absorbed: seq<bv8>

    ghost predicate Valid()
      reads this, buffer
    {
      buffer.Length == BLOCK && Absorbed(absorbed, state, count0, count1, buffer[..])
    }

    /** A context starts without meaning; SHA1_Init gives it one. */
    constructor ()
      ensures fresh(buffer) && buffer.Length == BLOCK
    {
      buffer := new bv8[BLOCK];
      state := Regs(0, 0, 0, 0, 0);
    }

    method Init()
      requires buffer.Length == BLOCK
      modifies this
      ensures Valid() && absorbed == []
    {
      state := Regs(0x6745_2301, 0xEFCD_AB89, 0x98BA_DCFE, 0x1032_5476, 0xC3D2_E1F0);
      count0, count1 := 0, 0;
      absorbed := [];
    }

    /** One block; its bytes in the buffer give way to the last 16 words of the schedule. */
    method Transform(h: Regs, bytes: array<bv8>, at: nat) returns (r: Regs)
      requires at + BLOCK <= bytes.Length
      modifies bytes
      ensures r == Compress(h, old(Words(bytes[at..at + BLOCK])))
      ensures bytes[..at] == old(bytes[..at]) && bytes[at + BLOCK..] == old(bytes[at + BLOCK..])
      ensures forall i {:trigger Spent(old(Words(bytes[at..at + BLOCK])), bytes[at..at + BLOCK], i)} ::
        0 <= i < BLOCK ==> Spent(old(Words(bytes[at..at + BLOCK])), bytes[at..at + BLOCK], i)
    {
      ghost var m := Words(bytes[at..at + BLOCK]);
      var block := new Block(bytes[at..at + BLOCK]);
      r := block.Rounds80(h, m);
      forall i | 0 <= i < BLOCK {
        bytes[at + i] := LittleByte(block.l[i / 4], i % 4);
      }
    }

    /** memcpy(&to[at], &from[start], n) */
    method Copy(to: array<bv8>, at: nat, from: array<bv8>, start: nat, n: nat)
      requires at + n <= to.Length && start + n <= from.Length && to != from
      modifies to
      ensures to[..at] == old(to[..at]) && to[at..at + n] == from[start..start + n] && to[at + n..] == old(to[at + n..])
    {
      ghost var was := to[..];
      forall i | 0 <= i < n {
        to[at + i] := from[start + i];
      }
      ghost var copied, source := to[at..at + n], from[start..start + n];
      assert forall i :: 0 <= i < n ==> copied[i] == source[i];
      assert forall i :: 0 <= i < at ==> to[i] == was[i];
      assert forall i :: at + n <= i < to.Length ==> to[i] == was[i];
      assert to[..at] == was[..at] && to[at + n..] == was[at + n..];
    }

    /** The counters, with the carry found by comparing the sum with what was added */
    method Count(len: nat)
      requires count0 == 8 * |absorbed| % WIDTH && count1 == 8 * |absorbed| / WIDTH % WIDTH && len <= LIMIT
      modifies `count0, `count1
      ensures count0 == 8 * (|absorbed| + len) % WIDTH && count1 == 8 * (|absorbed| + len) / WIDTH % WIDTH
    {
      Carry(|absorbed|, len, count0, count1, (count0 + 8 * len) % WIDTH);
      count0 := (count0 + 8 * len) % WIDTH;
      if count0 < 8 * len {
        count1 := (count1 + 1) % WIDTH;
      }
      count1 := (count1 + len / 0x2000_0000) % WIDTH;
    }

    /** The rest of the block in the buffer, from the start of the piece */
    method FillBlock(temp: array<bv8>, j: nat, ghost m: seq<bv8>, ghost hs: seq<Regs>, ghost k: nat)
      requires Hashed(m, hs) && buffer.Length == BLOCK && temp != buffer && BLOCK - j <= temp.Length && j < BLOCK
      requires BLOCK * k + BLOCK <= |m|
      requires state == hs[k]
      requires buffer[..j] == m[BLOCK * k..BLOCK * k + j] && temp[..BLOCK - j] == m[BLOCK * k + j..BLOCK * k + BLOCK]
      modifies `state, buffer
      ensures state == hs[k + 1]
    {
      Copy(buffer, j, temp, 0, 64 - j);
      assert buffer[j..j + (64 - j)] == temp[..64 - j] by { assert temp[0..0 + (64 - j)] == temp[..64 - j]; }
      Filled(m, BLOCK * k, j, buffer[..]);
      assert HashedAt(m, hs, k) && HashedAt(m, hs, k + 1);
      state := Transform(state, buffer, 0);
    }

    /** A block in the buffer */
    static lemma Filled(m: seq<bv8>, n: nat, j: nat, b: seq<bv8>)
      requires n + BLOCK <= |m| && j <= BLOCK == |b| && b[..j] == m[n..n + j] && b[j..BLOCK] == m[n + j..n + BLOCK]
      ensures b[0..0 + BLOCK] == m[n..n + BLOCK]
    {
      assert b[0..0 + BLOCK] == b[..j] + b[j..BLOCK];
      assert m[n..n + BLOCK] == m[n..n + j] + m[n + j..n + BLOCK];
    }

    /** One block straight from the copy of the piece */
    method EatBlock(temp: array<bv8>, len: nat, i: nat, ghost m: seq<bv8>, ghost hs: seq<Regs>, ghost k: nat)
      requires Hashed(m, hs) && i + BLOCK <= len <= temp.Length && BLOCK * k <= |m|
      requires state == hs[k] && temp[i..len] == m[BLOCK * k..]
      modifies `state, temp
      ensures BLOCK * k + BLOCK <= |m|
      ensures state == hs[k + 1] && temp[i + BLOCK..len] == m[BLOCK * k + BLOCK..]
    {
      ghost var n, rest := BLOCK * k, temp[i + BLOCK..];
      assert temp[i..i + BLOCK] == temp[i..len][..BLOCK] && m[n..][..BLOCK] == m[n..n + BLOCK];
      assert rest[..len - i - BLOCK] == temp[i..len][BLOCK..] && m[n..][BLOCK..] == m[n + BLOCK..];
      assert HashedAt(m, hs, k) && HashedAt(m, hs, k + 1);
      state := Transform(state, temp, i);
      assert temp[i + BLOCK..len] == temp[i + BLOCK..][..len - i - BLOCK];
    }

    /** All the whole blocks of the piece from byte i on */
    method EatBlocks(temp: array<bv8>, len: nat, i0: nat, ghost m: seq<bv8>, ghost hs: seq<Regs>, ghost k0: nat) returns (i: nat, ghost k: nat)
      requires Hashed(m, hs) && i0 <= len <= temp.Length && BLOCK * k0 <= |m|
      requires state == hs[k0] && temp[i0..len] == m[BLOCK * k0..]
      modifies `state, temp
      ensures i <= len && i + 63 >= len && BLOCK * k <= |m|
      ensures state == hs[k] && temp[i..len] == m[BLOCK * k..]
    {
      i, k := i0, k0;
      while i + 63 < len
        invariant i0 <= i <= len && BLOCK * k <= |m|
        invariant state == hs[k] && temp[i..len] == m[BLOCK * k..]
      {
        EatBlock(temp, len, i, m, hs, k);
        i, k := i + 64, k + 1;
      }
    }

    /** The blocks that the piece completes: the first one in the buffer, the others straight from the copy. Byte i
        of the piece is then to go to byte j of the buffer. */
    method FeedBlocks(temp: array<bv8>, len: nat, j0: nat, ghost m: seq<bv8>, ghost hs: seq<Regs>, ghost k0: nat)
      returns (i: nat, j: nat, ghost k: nat)
      requires Hashed(m, hs) && buffer.Length == BLOCK && temp != buffer && len <= temp.Length
      requires j0 < BLOCK && BLOCK * k0 + j0 <= |m| && m[BLOCK * k0 + j0..] == temp[..len]
      requires state == hs[k0] && buffer[..j0] == m[BLOCK * k0..BLOCK * k0 + j0]
      modifies `state, buffer, temp
      ensures i <= len && j + (len - i) < BLOCK && BLOCK * k + j <= |m|
      ensures state == hs[k] && buffer[..j] == m[BLOCK * k..BLOCK * k + j] && temp[i..len] == m[BLOCK * k + j..]
    {
      j, i, k := j0, 0, k0;
      if j + len > 63 {
        i := 64 - j;
        ghost var n := BLOCK * k;
        assert temp[..len][..i] == temp[..i] && m[n + j..][..i] == m[n + j..n + BLOCK];
        assert temp[..len][i..] == temp[i..len] && m[n + j..][i..] == m[n + BLOCK..];
        FillBlock(temp, j, m, hs, k);
        i, k := EatBlocks(temp, len, i, m, hs, k + 1);
        j := 0;
      }
    }

    /** The piece, already copied to a buffer of the function's own, goes through the block buffer. */
    method Feed(temp: array<bv8>, len: nat, j0: nat, ghost m: seq<bv8>, ghost hs: seq<Regs>, ghost k0: nat)
      requires Hashed(m, hs) && buffer.Length == BLOCK && temp != buffer && len <= temp.Length
      requires j0 < BLOCK && BLOCK * k0 + j0 <= |m| && m[BLOCK * k0 + j0..] == temp[..len]
      requires state == hs[k0] && buffer[..j0] == m[BLOCK * k0..BLOCK * k0 + j0]
      modifies `state, buffer, temp
      ensures buffer.Length == BLOCK && state == hs[Blocks(|m|)] && buffer[..|m| - BLOCK * Blocks(|m|)] == m[BLOCK * Blocks(|m|)..]
    {
      var i, j;
      ghost var k;
      i, j, k := FeedBlocks(temp, len, j0, m, hs, k0);
      Copy(buffer, j, temp, i, len - i);
      Rest(m, BLOCK * k, j, buffer[..], temp[i..len]);
      assert k == Blocks(|m|);
    }

    /** What was in the buffer and what was copied after it are the rest of the message. */
    static lemma Rest(m: seq<bv8>, n: nat, j: nat, buffer: seq<bv8>, last: seq<bv8>)
      requires n + j <= |m| && |last| == |m| - n - j && j + |last| <= |buffer|
      requires buffer[..j] == m[n..n + j] && buffer[j..j + |last|] == last && last == m[n + j..]
      ensures buffer[..|m| - n] == m[n..]
    {
      assert buffer[..|m| - n] == buffer[..j] + buffer[j..j + |last|];
      assert m[n..] == m[n..n + j] + m[n + j..];
    }

    /** The buffer of SHA1_Update with the piece copied to it */
    method CopyIn(data: seq<bv8>) returns (temp: array<bv8>)
      requires |data| <= LIMIT
      ensures fresh(temp) && temp.Length == LIMIT && temp[..|data|] == data
    {
      temp := new bv8[LIMIT](_ => 0);
      forall i | 0 <= i < |data| {
        temp[i] := data[i];
      }
    }

    /** SHA1_Update: the bytes go to a buffer of 1024 first, so that the caller's are not touched. */
    method Update(data: seq<bv8>)
      requires Valid() && |data| <= LIMIT
      modifies this, buffer
      ensures Valid() && absorbed == old(absorbed) + data
    {
      var temp := CopyIn(data);
      ghost var m, k := absorbed + data, Blocks(|absorbed|);
      HashesContinue(absorbed, data, k);
      assert m[BLOCK * k..|absorbed|] == absorbed[BLOCK * k..] && m[|absorbed|..] == data;
      var j := count0 / 8 % 64;
      Offset(|absorbed|);
      Count(|data|);
      Feed(temp, |data|, j, m, Hashes(m), k);
      absorbed := m;
    }

    /** Room for the length, as the counter tells it: (count[0] & 504) == 448 */
    method Aligned(ghost n: nat, ghost k: nat) returns (done: bool)
      requires Valid() && |absorbed| == n + 1 + k && k <= Gap(n)
      ensures done <==> k == Gap(n)
    {
      Offset(|absorbed|);
      PadMore(n, k);
      done := count0 / 8 % 64 * 8 == 448;
    }

    method PadZero(ghost m: seq<bv8>, ghost k: nat)
      requires Valid() && absorbed == m + [0x80] + Zeros(k)
      modifies this, buffer
      ensures Valid() && absorbed == m + [0x80] + Zeros(k + 1)
    {
      OneZero(m, k);
      Update([0]);
    }

    method Pad(ghost m: seq<bv8>)
      requires Valid() && absorbed == m + [0x80]
      modifies this, buffer
      ensures Valid() && absorbed == m + [0x80] + Zeros(Gap(|m|))
    {
      ghost var k := 0;
      var done := Aligned(|m|, k);
      while !done
        invariant Valid() && k <= Gap(|m|) && absorbed == m + [0x80] + Zeros(k)
        invariant done <==> k == Gap(|m|)
        decreases Gap(|m|) - k
      {
        PadZero(m, k);
        k := k + 1;
        done := Aligned(|m|, k);
      }
    }

    /** After the last block nothing is in the buffer. */
    lemma AllBlocks(m: seq<bv8>)
      requires Valid() && absorbed == Padded(m)
      ensures state == Fold(Padded(m), Blocks(|Padded(m)|))
    {
      assert HashedAt(Padded(m), Hashes(Padded(m)), Blocks(|Padded(m)|));
    }

    /** The bytes of the state */
    method PutDigest() returns (digest: seq<bv8>)
      ensures digest == Digest(state)
    {
      digest := [];
      for i := 0 to 20
        invariant |digest| == i && forall j :: 0 <= j < i ==> digest[j] == ShiftedByte(WordAt(state, j / 4), j % 4)
      {
        digest := digest + [ShiftedByte(WordAt(state, i / 4), i % 4)];
      }
      DigestIs(state, digest);
    }

    /** SHA1_Final: a byte 0x80, zeros, and the length; then everything is wiped. */
    method Final() returns (digest: seq<bv8>)
      requires Valid()
      modifies this, buffer
      ensures digest == Hash(old(absorbed))
      ensures state == Regs(0, 0, 0, 0, 0) && count0 == count1 == 0 && forall i :: 0 <= i < BLOCK ==> buffer[i] == 0
    {
      ghost var m := absorbed;
      var finalcount := AsBytes(FinalCount(count0, count1));
      LengthField(|m|, count0, count1);
      Update([0x80]);
      Pad(m);
      Update(finalcount);
      AllBlocks(m);
      digest := PutDigest();
      state := Regs(0, 0, 0, 0, 0);
      count0, count1 := 0, 0;
      forall i | 0 <= i < BLOCK {
        buffer[i] := 0;
      }
    }

    /** A message in any pieces */
    method HashPieces(pieces: seq<seq<bv8>>) returns (digest: seq<bv8>)
      requires buffer.Length == BLOCK && forall p :: p in pieces ==> |p| <= LIMIT
      modifies this, buffer
      ensures digest == Hash(Joined(pieces))
    {
      Init();
      var i := 0;
      while i < |pieces|
        invariant i <= |pieces| && Valid() && absorbed == Joined(pieces[..i])
      {
        JoinedNext(pieces, i);
        Update(pieces[i]);
        i := i + 1;
      }
      assert pieces[..i] == pieces;
      digest := Final();
    }
  }
}
