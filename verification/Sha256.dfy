/**
 * portableSha256 (web/ui_sync.js) against SHA-256 as FIPS 180-4 defines it, with the
 * arithmetic of JavaScript numbers: bitwise results are signed, sums are exact, and
 * `>>> 0` brings a number back to 32 bits.
 */
module Sha256 {

  const MOD := 0x1_0000_0000

  /** A 32-bit word as a number. */
  type Word = x: int | 0 <= x < 0x1_0000_0000

  type Byte = x: int | 0 <= x < 256

  /** The residue modulo 2^32; also what `x >>> 0` computes. */
  function ToWord(x: int): Word {
    x % MOD
  }

  // ----- words, as in section 3.2 of FIPS 180-4

  function Add(a: Word, b: Word): Word {
    ToWord(a + b)
  }

  function BitAnd(a: Word, b: Word): Word {
    (a as bv32 & b as bv32) as int
  }

  function BitOr(a: Word, b: Word): Word {
    (a as bv32 | b as bv32) as int
  }

  function BitXor(a: Word, b: Word): Word {
    (a as bv32 ^ b as bv32) as int
  }

  function BitNot(a: Word): Word {
    (!(a as bv32)) as int
  }

  function Shr(a: Word, n: nat): Word {
    if n == 0 then a else Shr(a / 2, n - 1)
  }

  function Shl(a: Word, n: nat): Word
    decreases n
  {
    if n == 0 then a else Shl(ToWord(2 * a), n - 1)
  }

  function Rotr(a: Word, n: nat): Word
    requires n <= 32
  {
    BitOr(Shr(a, n), Shl(a, 32 - n))
  }

  // ----- section 4.1.2

  function Ch(x: Word, y: Word, z: Word): Word {
    BitXor(BitAnd(x, y), BitAnd(BitNot(x), z))
  }

  function Maj(x: Word, y: Word, z: Word): Word {
    BitXor(BitXor(BitAnd(x, y), BitAnd(x, z)), BitAnd(y, z))
  }

  function BigSigma0(x: Word): Word {
    BitXor(BitXor(Rotr(x, 2), Rotr(x, 13)), Rotr(x, 22))
  }

  function BigSigma1(x: Word): Word {
    BitXor(BitXor(Rotr(x, 6), Rotr(x, 11)), Rotr(x, 25))
  }

  function SmallSigma0(x: Word): Word {
    BitXor(BitXor(Rotr(x, 7), Rotr(x, 18)), Shr(x, 3))
  }

  function SmallSigma1(x: Word): Word {
    BitXor(BitXor(Rotr(x, 17), Rotr(x, 19)), Shr(x, 10))
  }

  // ----- sections 4.2.2 and 5.3.3

  const K_ROWS: seq<seq<Word>> := [
    [0x428a2f98, 0x71374491, 0xb5c0fbcf, 0xe9b5dba5, 0x3956c25b, 0x59f111f1, 0x923f82a4, 0xab1c5ed5],
    [0xd807aa98, 0x12835b01, 0x243185be, 0x550c7dc3, 0x72be5d74, 0x80deb1fe, 0x9bdc06a7, 0xc19bf174],
    [0xe49b69c1, 0xefbe4786, 0x0fc19dc6, 0x240ca1cc, 0x2de92c6f, 0x4a7484aa, 0x5cb0a9dc, 0x76f988da],
    [0x983e5152, 0xa831c66d, 0xb00327c8, 0xbf597fc7, 0xc6e00bf3, 0xd5a79147, 0x06ca6351, 0x14292967],
    [0x27b70a85, 0x2e1b2138, 0x4d2c6dfc, 0x53380d13, 0x650a7354, 0x766a0abb, 0x81c2c92e, 0x92722c85],
    [0xa2bfe8a1, 0xa81a664b, 0xc24b8b70, 0xc76c51a3, 0xd192e819, 0xd6990624, 0xf40e3585, 0x106aa070],
    [0x19a4c116, 0x1e376c08, 0x2748774c, 0x34b0bcb5, 0x391c0cb3, 0x4ed8aa4a, 0x5b9cca4f, 0x682e6ff3],
    [0x748f82ee, 0x78a5636f, 0x84c87814, 0x8cc70208, 0x90befffa, 0xa4506ceb, 0xbef9a3f7, 0xc67178f2]]

  function K(i: nat): Word
    requires i < 64
  {
    K_ROWS[i / 8][i % 8]
  }

  datatype Regs = Regs(a: Word, b: Word, c: Word, d: Word, e: Word, f: Word, g: Word, h: Word)

  const H0 := Regs(0x6a09e667, 0xbb67ae85, 0x3c6ef372, 0xa54ff53a, 0x510e527f, 0x9b05688c, 0x1f83d9ab, 0x5be0cd19)

  // ----- section 6.2.2

  /** The big-endian word at byte n. */
  function WordAt(bytes: seq<Byte>, n: nat): Word
    requires n + 4 <= |bytes|
  {
    var hi: int, mid: int, low: int, last: int := bytes[n], bytes[n + 1], bytes[n + 2], bytes[n + 3];
    hi * 0x1000000 + mid * 0x10000 + low * 0x100 + last
  }

  /** The first n words of the message schedule of the block at `offset`. */
  function Schedule(bytes: seq<Byte>, offset: nat, n: nat): (w: seq<Word>)
    requires n <= 64 && offset + 64 <= |bytes|
    ensures |w| == n
  {
    if n == 0 then []
    else
      var w := Schedule(bytes, offset, n - 1);
      if n <= 16 then w + [WordAt(bytes, offset + 4 * (n - 1))]
      else w + [Add(Add(Add(SmallSigma1(w[n - 3]), w[n - 8]), SmallSigma0(w[n - 16])), w[n - 17])]
  }

  function Round(r: Regs, k: Word, w: Word): Regs {
    var t1 := Add(Add(Add(Add(r.h, BigSigma1(r.e)), Ch(r.e, r.f, r.g)), k), w);
    var t2 := Add(BigSigma0(r.a), Maj(r.a, r.b, r.c));
    Regs(Add(t1, t2), r.a, r.b, r.c, Add(r.d, t1), r.e, r.f, r.g)
  }

  function Rounds(r: Regs, w: seq<Word>, n: nat): Regs
    requires n <= 64 && |w| == 64
  {
    if n == 0 then r else Round(Rounds(r, w, n - 1), K(n - 1), w[n - 1])
  }

  function AddRegs(r: Regs, s: Regs): Regs {
    Regs(Add(r.a, s.a), Add(r.b, s.b), Add(r.c, s.c), Add(r.d, s.d),
         Add(r.e, s.e), Add(r.f, s.f), Add(r.g, s.g), Add(r.h, s.h))
  }

  /** The hash value after the first n blocks. */
  function Hashed(bytes: seq<Byte>, n: nat): Regs
    requires 64 * n <= |bytes|
  {
    if n == 0 then H0
    else
      var h := Hashed(bytes, n - 1);
      AddRegs(h, Rounds(h, Schedule(bytes, 64 * (n - 1), 64), 64))
  }

  // ----- section 5.1.1

  function Zeros(n: nat): seq<Byte> {
    seq(n, _ => 0)
  }

  /** The big-endian bytes of a word. */
  function BytesOf(x: Word): (b: seq<Byte>)
    ensures |b| == 4 && WordAt(b, 0) == x
  {
    var low := x / 256;
    var mid := low / 256;
    var hi := mid / 256;
    [hi, mid % 256, low % 256, x % 256]
  }

  /** The smallest k with len + 1 + k = 56 modulo 64. */
  function ZeroCount(len: nat): (k: nat)
    ensures k < 64 && (len + k + 9) % 64 == 0
  {
    (119 - len % 64) % 64
  }

  /** Messages shorter than 2^50 bytes: their bit length is an exact number. */
  const LIMIT := 0x4_0000_0000_0000

  /** The 64-bit length field of a message of `len` bytes. */
  function LengthField(len: nat): (b: seq<Byte>)
    requires len < LIMIT
    ensures |b| == 8
  {
    BytesOf(8 * len / MOD) + BytesOf(8 * len % MOD)
  }

  function Padded(m: seq<Byte>): (p: seq<Byte>)
    requires |m| < LIMIT
    ensures |p| == |m| + ZeroCount(|m|) + 9
  {
    m + [0x80] + Zeros(ZeroCount(|m|)) + LengthField(|m|)
  }

  function Digest(m: seq<Byte>): Regs
    requires |m| < LIMIT
  {
    Hashed(Padded(m), |Padded(m)| / 64)
  }

  lemma LengthReadsBack(len: nat)
    requires len < LIMIT
    ensures WordAt(LengthField(len), 0) * MOD + WordAt(LengthField(len), 4) == 8 * len
  {
    var b := LengthField(len);
    assert b[..4] == BytesOf(8 * len / MOD) && b[4..] == BytesOf(8 * len % MOD);
    assert WordAt(b, 0) == WordAt(b[..4], 0) && WordAt(b, 4) == WordAt(b[4..], 0);
  }

  /** The message, a one bit, zeros up to the last eight bytes of a block, and the bit length. */
  lemma PaddingLayout(m: seq<Byte>)
    requires |m| < LIMIT
    ensures var p := Padded(m);
            && |p| % 64 == 0 && |m| + 9 <= |p| < |m| + 73 && p[..|m|] == m && p[|m|] == 0x80
            && (forall i | |m| < i < |p| - 8 :: p[i] == 0)
            && WordAt(p, |p| - 8) * MOD + WordAt(p, |p| - 4) == 8 * |m|
  {
    hide ZeroCount, LengthField;
    var p := Padded(m);
    LengthReadsBack(|m|);
    assert p[|p| - 8..] == LengthField(|m|);
    assert WordAt(p, |p| - 8) == WordAt(p[|p| - 8..], 0) && WordAt(p, |p| - 4) == WordAt(p[|p| - 8..], 4);
    assert p[..|m|] == m;
  }

  /** Two messages never pad to the same blocks. */
  lemma PaddingIsInjective(m: seq<Byte>, n: seq<Byte>)
    requires |m| < LIMIT && |n| < LIMIT
    requires Padded(m) == Padded(n)
    ensures m == n
  {
    var p := Padded(m);
    assert p[|p| - 8..] == LengthField(|m|);
    assert p[|p| - 8..] == LengthField(|n|);
    LengthReadsBack(|m|);
    LengthReadsBack(|n|);
    assert m == p[..|m|] && n == p[..|n|];
  }

  // ----- JavaScript numbers

  /** The integers a JavaScript number holds exactly. */
  type Number = x: int | -0x20_0000_0000_0000 < x < 0x20_0000_0000_0000

  /** What every bitwise operator but `>>>` returns. */
  type Int32 = x: int | -0x8000_0000 <= x < 0x8000_0000

  /** The signed reading of a word. */
  function Signed(w: Word): (x: Int32)
    ensures ToWord(x) == w
  {
    if w < 0x8000_0000 then w else w - MOD
  }

  function JsAnd(x: Number, y: Number): Int32 {
    Signed(BitAnd(ToWord(x), ToWord(y)))
  }

  function JsOr(x: Number, y: Number): Int32 {
    Signed(BitOr(ToWord(x), ToWord(y)))
  }

  function JsXor(x: Number, y: Number): Int32 {
    Signed(BitXor(ToWord(x), ToWord(y)))
  }

  function JsNot(x: Number): Int32 {
    Signed(BitNot(ToWord(x)))
  }

  /** `x << n`; the count is taken modulo 32. */
  function JsShl(x: Number, n: nat): Int32 {
    Signed(Shl(ToWord(x), n % 32))
  }

  /** `x >>> n`: the one bitwise operator with an unsigned result. */
  function JsUshr(x: Number, n: nat): Word {
    Shr(ToWord(x), n % 32)
  }

  function RotateRight(value: Number, bits: nat): Int32
    requires bits <= 32
  {
    JsOr(JsUshr(value, bits), JsShl(value, 32 - bits))
  }

  /** Reducing before or after a sum makes no difference. */
  lemma SumsReduce(x: int, y: int)
    ensures ToWord(x + y) == Add(ToWord(x), ToWord(y))
  {
  }

  /** The code's rotation, signed as it is, is the rotation of the word. */
  lemma RotationAgrees(w: Word, bits: nat)
    requires 0 < bits < 32
    ensures ToWord(RotateRight(w, bits)) == Rotr(w, bits)
  {
    hide BitOr, Shl, Shr;
  }

  lemma TwoRotationsAgree(w: Word, i: nat, j: nat)
    requires 0 < i < 32 && 0 < j < 32
    ensures ToWord(JsXor(RotateRight(w, i), RotateRight(w, j))) == BitXor(Rotr(w, i), Rotr(w, j))
  {
    RotationAgrees(w, i);
    RotationAgrees(w, j);
  }

  /** `rotateRight(w, i) ^ rotateRight(w, j) ^ rotateRight(w, k)` */
  function Mixed(w: Word, i: nat, j: nat, k: nat): Int32
    requires i <= 32 && j <= 32 && k <= 32
  {
    JsXor(JsXor(RotateRight(w, i), RotateRight(w, j)), RotateRight(w, k))
  }

  /** `rotateRight(w, i) ^ rotateRight(w, j) ^ (w >>> k)` */
  function MixedShift(w: Word, i: nat, j: nat, k: nat): Int32
    requires i <= 32 && j <= 32
  {
    JsXor(JsXor(RotateRight(w, i), RotateRight(w, j)), JsUshr(w, k))
  }

  function Choice(e: Word, f: Word, g: Word): Int32 {
    JsXor(JsAnd(e, f), JsAnd(JsNot(e), g))
  }

  function Majority(a: Word, b: Word, c: Word): Int32 {
    JsXor(JsXor(JsAnd(a, b), JsAnd(a, c)), JsAnd(b, c))
  }

  lemma RoundMixAgrees(w: Word)
    ensures ToWord(Mixed(w, 2, 13, 22)) == BigSigma0(w)
    ensures ToWord(Mixed(w, 6, 11, 25)) == BigSigma1(w)
  {
    hide BitXor, RotateRight, Rotr;
    TwoRotationsAgree(w, 2, 13);
    RotationAgrees(w, 22);
    TwoRotationsAgree(w, 6, 11);
    RotationAgrees(w, 25);
  }

  lemma ScheduleMixAgrees(w: Word)
    ensures ToWord(MixedShift(w, 7, 18, 3)) == SmallSigma0(w)
    ensures ToWord(MixedShift(w, 17, 19, 10)) == SmallSigma1(w)
  {
    hide BitXor, Shr, RotateRight, Rotr;
    TwoRotationsAgree(w, 7, 18);
    TwoRotationsAgree(w, 17, 19);
  }

  lemma ChoiceAgrees(e: Word, f: Word, g: Word)
    ensures ToWord(Choice(e, f, g)) == Ch(e, f, g)
  {
    hide BitAnd, BitXor, BitNot;
  }

  lemma MajorityAgrees(a: Word, b: Word, c: Word)
    ensures ToWord(Majority(a, b, c)) == Maj(a, b, c)
  {
    hide BitAnd, BitXor;
  }

  // ----- the loops

  /** DataView.setUint32: big-endian. */
  method SetUint32(view: array<Byte>, at: nat, x: Word)
    requires at + 4 <= view.Length
    modifies view
    ensures view[..] == old(view[..at]) + BytesOf(x) + old(view[at + 4..])
  {
    var b := BytesOf(x);
    view[at], view[at + 1], view[at + 2], view[at + 3] := b[0], b[1], b[2], b[3];
  }

  /** The code's block count is the standard's: as many zeros as fill the last block. */
  lemma CeilingFits(len: nat)
    ensures (len + 72) / 64 * 64 == len + ZeroCount(len) + 9
  {
  }

  /** A buffer of n bytes that holds the message, the bit 1 and zeros. */
  method Prepare(bytes: seq<Byte>, n: nat) returns (padded: array<Byte>)
    requires |bytes| < n
    ensures fresh(padded) && padded[..] == bytes + [0x80] + Zeros(n - |bytes| - 1)
  {
    padded := new Byte[n](_ => 0);
    forall i | 0 <= i < |bytes| {
      padded[i] := bytes[i];
    }
    padded[|bytes|] := 0x80;
  }

  method Pad(bytes: seq<Byte>) returns (padded: array<Byte>)
    requires |bytes| < LIMIT
    ensures fresh(padded) && padded[..] == Padded(bytes)
  {
    hide LengthField, ZeroCount;
    var paddedLength := (|bytes| + 72) / 64 * 64;
    CeilingFits(|bytes|);
    padded := Prepare(bytes, paddedLength);
    ghost var head := bytes + [0x80] + Zeros(ZeroCount(|bytes|));
    assert padded[..paddedLength - 8] == head;
    SetLength(padded, |bytes|);
  }

  method SetLength(view: array<Byte>, len: nat)
    requires len < LIMIT && view.Length >= 8
    modifies view
    ensures view[..] == old(view[..view.Length - 8]) + LengthField(len)
  {
    hide BytesOf, JsUshr;
    var bitLength: Number := len * 8;
    ShiftByNothing(bitLength);
    SetUint32(view, view.Length - 8, bitLength / MOD);
    assert view[..view.Length - 4] == old(view[..view.Length - 8]) + BytesOf(bitLength / MOD);
    SetUint32(view, view.Length - 4, JsUshr(bitLength, 0));
  }

  lemma ShiftByNothing(x: Number)
    ensures JsUshr(x, 0) == ToWord(x)
  {
  }

  lemma WordsAreReduced(w: Word)
    ensures ToWord(w) == w
  {
  }

  lemma FourReduce(x: int, y: int, z: int, u: int)
    ensures ToWord(x + y + z + u) == Add(Add(Add(ToWord(u), ToWord(z)), ToWord(y)), ToWord(x))
  {
    hide ToWord, Add;
    SumsReduce(u, z);
    SumsReduce(u + z, y);
    SumsReduce(u + z + y, x);
    assert u + z + y + x == x + y + z + u;
  }

  /** One more word of the schedule. */
  lemma NextWordAgrees(w: seq<Word>, t: nat)
    requires 16 <= t < 64 && t <= |w|
    ensures var sum := w[t - 16] + MixedShift(w[t - 15], 7, 18, 3) + w[t - 7] + MixedShift(w[t - 2], 17, 19, 10);
            ToWord(sum) == Add(Add(Add(SmallSigma1(w[t - 2]), w[t - 7]), SmallSigma0(w[t - 15])), w[t - 16])
  {
    hide MixedShift, SmallSigma0, SmallSigma1, ToWord, Add;
    WordsAreReduced(w[t - 16]);
    WordsAreReduced(w[t - 7]);
    ScheduleMixAgrees(w[t - 15]);
    ScheduleMixAgrees(w[t - 2]);
    FourReduce(w[t - 16], MixedShift(w[t - 15], 7, 18, 3), w[t - 7], MixedShift(w[t - 2], 17, 19, 10));
  }

  method Expand(view: array<Byte>, offset: nat, words: array<Word>)
    requires words.Length == 64 && offset + 64 <= view.Length
    modifies words
    ensures words[..] == Schedule(view[..], offset, 64)
  {
    hide MixedShift, SmallSigma0, SmallSigma1, JsUshr, WordAt;
    ghost var bytes := view[..];
    for index := 0 to 16
      invariant words[..index] == Schedule(bytes, offset, index)
    {
      words[index] := WordAt(view[..], offset + index * 4);
      assert words[..index + 1] == words[..index] + [words[index]];
    }
    for index := 16 to 64
      invariant words[..index] == Schedule(bytes, offset, index)
    {
      var s0 := MixedShift(words[index - 15], 7, 18, 3);
      var s1 := MixedShift(words[index - 2], 17, 19, 10);
      NextWordAgrees(words[..index], index);
      var sum: Number := words[index - 16] + s0 + words[index - 7] + s1;
      ShiftByNothing(sum);
      words[index] := JsUshr(sum, 0);
      assert words[..index + 1] == words[..index] + [words[index]];
    }
  }

  lemma FiveReduce(x: int, y: int, z: int, u: int, v: int)
    ensures ToWord(x + y + z + u + v) ==
            Add(Add(Add(Add(ToWord(x), ToWord(y)), ToWord(z)), ToWord(u)), ToWord(v))
  {
    hide ToWord, Add;
    SumsReduce(x, y);
    SumsReduce(x + y, z);
    SumsReduce(x + y + z, u);
    SumsReduce(x + y + z + u, v);
  }

  /** The two temporaries of a round, reduced once, are the standard's. */
  lemma TemporariesAgree(r: Regs, k: Word, w: Word)
    ensures ToWord(r.h + Mixed(r.e, 6, 11, 25) + Choice(r.e, r.f, r.g) + k + w) ==
            Add(Add(Add(Add(r.h, BigSigma1(r.e)), Ch(r.e, r.f, r.g)), k), w)
    ensures ToWord(Mixed(r.a, 2, 13, 22) + Majority(r.a, r.b, r.c)) == Add(BigSigma0(r.a), Maj(r.a, r.b, r.c))
  {
    hide Mixed, BigSigma0, BigSigma1, Choice, Ch, Majority, Maj, ToWord, Add;
    WordsAreReduced(r.h);
    WordsAreReduced(k);
    WordsAreReduced(w);
    RoundMixAgrees(r.e);
    RoundMixAgrees(r.a);
    ChoiceAgrees(r.e, r.f, r.g);
    MajorityAgrees(r.a, r.b, r.c);
    FiveReduce(r.h, Mixed(r.e, 6, 11, 25), Choice(r.e, r.f, r.g), k, w);
    SumsReduce(Mixed(r.a, 2, 13, 22), Majority(r.a, r.b, r.c));
  }

  function RegsOf(h: seq<Word>): Regs
    requires |h| == 8
  {
    Regs(h[0], h[1], h[2], h[3], h[4], h[5], h[6], h[7])
  }

  function WordsOf(r: Regs): seq<Word> {
    [r.a, r.b, r.c, r.d, r.e, r.f, r.g, r.h]
  }

  method Compress(words: array<Word>, start: Regs) returns (r: Regs)
    requires words.Length == 64
    ensures r == Rounds(start, words[..], 64)
  {
    hide K, Mixed, BigSigma0, BigSigma1, Choice, Ch, Majority, Maj, JsUshr, ToWord;
    var a: Word, b: Word, c: Word, d: Word := start.a, start.b, start.c, start.d;
    var e: Word, f: Word, g: Word, h: Word := start.e, start.f, start.g, start.h;
    for index := 0 to 64
      invariant Regs(a, b, c, d, e, f, g, h) == Rounds(start, words[..], index)
    {
      ghost var before := Regs(a, b, c, d, e, f, g, h);
      TemporariesAgree(before, K(index), words[index]);
      var first: Number := h + Mixed(e, 6, 11, 25) + Choice(e, f, g) + K(index) + words[index];
      var second: Number := Mixed(a, 2, 13, 22) + Majority(a, b, c);
      ShiftByNothing(first);
      ShiftByNothing(second);
      var temp1, temp2 := JsUshr(first, 0), JsUshr(second, 0);
      var third: Number, fourth: Number := d as int + temp1, temp1 as int + temp2;
      ShiftByNothing(third);
      ShiftByNothing(fourth);
      h := g; g := f; f := e; e := JsUshr(third, 0);
      d := c; c := b; b := a; a := JsUshr(fourth, 0);
    }
    r := Regs(a, b, c, d, e, f, g, h);
  }

  /** hash[index] = (hash[index] + value) >>> 0, over the eight values. */
  method Accumulate(hash: array<Word>, r: Regs)
    requires hash.Length == 8
    modifies hash
    ensures RegsOf(hash[..]) == AddRegs(old(RegsOf(hash[..])), r)
  {
    hide JsUshr;
    var values := WordsOf(r);
    for index := 0 to 8
      invariant forall i :: 0 <= i < index ==> hash[i] == Add(old(hash[i]), values[i])
      invariant forall i :: index <= i < 8 ==> hash[i] == old(hash[i])
    {
      var sum: Number := hash[index] as int + values[index];
      ShiftByNothing(sum);
      hash[index] := JsUshr(sum, 0);
    }
  }

  // ----- hexadecimal text

  function Digit(d: int): char
    requires 0 <= d < 16
  {
    "0123456789abcdef"[d]
  }

  /** Number.toString(16) of a non-negative integer. */
  function ToHex(x: nat): string {
    if x < 16 then [Digit(x)] else ToHex(x / 16) + [Digit(x % 16)]
  }

  /** String.padStart(n, "0") */
  function PadStart(s: string, n: nat): string
    decreases n - |s|
  {
    if |s| >= n then s else PadStart("0" + s, n)
  }

  /** The n lowest hexadecimal digits of x. */
  function HexDigits(x: nat, n: nat): (s: string)
    ensures |s| == n
  {
    if n == 0 then "" else HexDigits(x / 16, n - 1) + [Digit(x % 16)]
  }

  function Pow16(n: nat): nat {
    if n == 0 then 1 else 16 * Pow16(n - 1)
  }

  lemma {:induction false} PadStartInside(s: string, c: char, n: nat)
    ensures PadStart(s + [c], n + 1) == PadStart(s, n) + [c]
    decreases n - |s|
  {
    if |s| < n {
      PadStartInside("0" + s, c, n);
      assert "0" + (s + [c]) == "0" + s + [c];
    }
  }

  lemma {:induction false} ZeroDigits(n: nat)
    ensures PadStart("", n) == HexDigits(0, n)
  {
    if n > 0 {
      ZeroDigits(n - 1);
      PadStartInside("", '0', n - 1);
      assert "" + ['0'] == "0" + "";
    }
  }

  lemma OneDigit(x: nat, n: nat)
    requires n > 0 && x < 16
    ensures PadStart([Digit(x)], n) == HexDigits(x, n)
  {
    hide PadStart;
    ZeroDigits(n - 1);
    PadStartInside("", Digit(x), n - 1);
    assert "" + [Digit(x)] == [Digit(x)];
    assert x / 16 == 0 && x % 16 == x;
  }

  /** Padded or not, the text is the n lowest digits. */
  lemma {:induction false} PaddedHexIsFixedWidth(x: nat, n: nat)
    requires n > 0 && x < Pow16(n)
    ensures PadStart(ToHex(x), n) == HexDigits(x, n)
  {
    if x < 16 {
      OneDigit(x, n);
    } else {
      assert Pow16(n) == 16 * Pow16(n - 1) && Pow16(0) == 1;
      PaddedHexIsFixedWidth(x / 16, n - 1);
      PadStartInside(ToHex(x / 16), Digit(x % 16), n - 1);
    }
  }

  lemma DigitIsInjective(d: int, e: int)
    requires 0 <= d < 16 && 0 <= e < 16 && Digit(d) == Digit(e)
    ensures d == e
  {
  }

  lemma {:induction false} HexDigitsAreInjective(x: nat, y: nat, n: nat)
    requires x < Pow16(n) && y < Pow16(n) && HexDigits(x, n) == HexDigits(y, n)
    ensures x == y
  {
    if n > 0 {
      var s, t := HexDigits(x / 16, n - 1), HexDigits(y / 16, n - 1);
      assert HexDigits(x, n)[..n - 1] == s && HexDigits(y, n)[..n - 1] == t;
      assert HexDigits(x, n)[n - 1] == Digit(x % 16) && HexDigits(y, n)[n - 1] == Digit(y % 16);
      DigitIsInjective(x % 16, y % 16);
      HexDigitsAreInjective(x / 16, y / 16, n - 1);
    }
  }

  lemma EightDigits()
    ensures Pow16(8) == MOD
  {
    assert Pow16(4) == 0x10000;
    assert Pow16(6) == 0x1000000;
  }

  /** Eight digits for each word. */
  function Hex(words: seq<Word>): (s: string)
    ensures |s| == 8 * |words|
  {
    if words == [] then "" else Hex(words[..|words| - 1]) + HexDigits(words[|words| - 1], 8)
  }

  /** Different hash values print differently. */
  lemma {:induction false} HexIsInjective(v: seq<Word>, w: seq<Word>)
    requires Hex(v) == Hex(w)
    ensures v == w
  {
    var n := |v|;
    assert |Hex(v)| == 8 * n && |Hex(w)| == 8 * |w|;
    if n > 0 {
      var x := Hex(v);
      assert x[..8 * n - 8] == Hex(v[..n - 1]) && x[..8 * n - 8] == Hex(w[..n - 1]);
      assert x[8 * n - 8..] == HexDigits(v[n - 1], 8) && x[8 * n - 8..] == HexDigits(w[n - 1], 8);
      HexIsInjective(v[..n - 1], w[..n - 1]);
      EightDigits();
      HexDigitsAreInjective(v[n - 1], w[n - 1], 8);
      assert v == v[..n - 1] + [v[n - 1]] && w == w[..n - 1] + [w[n - 1]];
    }
  }

  method Print(hash: array<Word>) returns (text: string)
    ensures text == Hex(hash[..])
  {
    hide PadStart, ToHex, HexDigits, Pow16;
    EightDigits();
    text := "";
    for index := 0 to hash.Length
      invariant text == Hex(hash[..index])
    {
      PaddedHexIsFixedWidth(hash[index], 8);
      text := text + PadStart(ToHex(hash[index]), 8);
      assert hash[..index + 1][..index] == hash[..index];
    }
    assert hash[..hash.Length] == hash[..];
  }

  method HashBlocks(padded: array<Byte>) returns (hash: array<Word>)
    requires padded.Length % 64 == 0
    ensures fresh(hash) && hash.Length == 8
    ensures RegsOf(hash[..]) == Hashed(padded[..], padded.Length / 64)
  {
    hide Schedule, Rounds, AddRegs;
    hash := new Word[8] [H0.a, H0.b, H0.c, H0.d, H0.e, H0.f, H0.g, H0.h];
    var words := new Word[64](_ => 0);
    var offset := 0;
    while offset < padded.Length
      invariant offset % 64 == 0 && offset <= padded.Length
      invariant RegsOf(hash[..]) == Hashed(padded[..], offset / 64)
    {
      ghost var n := offset / 64;
      Expand(padded, offset, words);
      var r := Compress(words, RegsOf(hash[..]));
      Accumulate(hash, r);
      offset := offset + 64;
      assert offset / 64 == n + 1 && 64 * n == offset - 64;
    }
  }

  /** The text the code returns is the SHA-256 digest of the bytes. */
  method PortableSha256(bytes: seq<Byte>) returns (text: string)
    requires |bytes| < LIMIT
    ensures text == Hex(WordsOf(Digest(bytes)))
  {
    hide Hex, Padded, Hashed;
    var padded := Pad(bytes);
    var hash := HashBlocks(padded);
    text := Print(hash);
    assert hash[..] == WordsOf(RegsOf(hash[..]));
  }
}
