/**
 The (12,8) Hamming code of server.c: every byte travels as two, with four parity
 bits at positions 1, 2, 4 and 8 of the twelve and four unused bits in front.
 */
module Hamming {

  type byte = bv8

  /** The two bytes that carry one. */
  datatype Pair = Pair(c0: byte, c1: byte)

  /** coded_byte: P1 P2 D1 P4 in the first byte, D2 D3 D4 P8 D5 D6 D7 D8 in the second. */
  function CodedByte(b: byte): Pair {
    var D1, D2, D3, D4 := (b >> 7) & 1, (b >> 6) & 1, (b >> 5) & 1, (b >> 4) & 1;
    var D5, D6, D7, D8 := (b >> 3) & 1, (b >> 2) & 1, (b >> 1) & 1, b & 1;
    var P1 := D1 ^ D2 ^ D4 ^ D5 ^ D7;
    var P2 := D1 ^ D3 ^ D4 ^ D6 ^ D7;
    var P4 := D2 ^ D3 ^ D4 ^ D8;
    var P8 := D5 ^ D6 ^ D7 ^ D8;
    Pair((P1 << 3) | (P2 << 2) | (D1 << 1) | P4,
     (D2 << 7) | (D3 << 6) | (D4 << 5) | (P8 << 4) | (D5 << 3) | (D6 << 2) | (D7 << 1) | D8)
  }

  // The four parity checks: the parity bit that was sent against the one computed.

  function Check1(c0: byte, c1: byte): byte {
    ((c0 >> 1) ^ (c1 >> 7) ^ (c1 >> 5) ^ (c1 >> 3) ^ (c1 >> 1) ^ (c0 >> 3)) & 1
  }

  function Check2(c0: byte, c1: byte): byte {
    ((c0 >> 1) ^ (c1 >> 6) ^ (c1 >> 5) ^ (c1 >> 2) ^ (c1 >> 1) ^ (c0 >> 2)) & 1
  }

  function Check4(c0: byte, c1: byte): byte {
    ((c1 >> 7) ^ (c1 >> 6) ^ (c1 >> 5) ^ c1 ^ c0) & 1
  }

  function Check8(c0: byte, c1: byte): byte {
    ((c1 >> 3) ^ (c1 >> 2) ^ (c1 >> 1) ^ c1 ^ (c1 >> 4)) & 1
  }

  /** The position among the twelve that the checks accuse, 0 for none; up to 15 when several bits are wrong. */
  function Accused(c0: byte, c1: byte): (sum: byte)
    ensures sum <= 15
  {
    (if Check1(c0, c1) != 0 then 1 else 0) + (if Check2(c0, c1) != 0 then 2 else 0) +
    (if Check4(c0, c1) != 0 then 4 else 0) + (if Check8(c0, c1) != 0 then 8 else 0)
  }

  /** What the correction of position sum does to the first byte: four unused positions come first. */
  function Flip0(sum: byte): byte {
    if sum != 0 && sum + 3 < 8 then (128 as byte) >> (sum + 3) else 0
  }

  /** And to the second byte; sums over 12 come round to its first bits again. */
  function Flip1(sum: byte): byte {
    if sum != 0 && sum + 3 >= 8 then (128 as byte) >> ((sum + 3) % 8) else 0
  }

  function Xor(a: byte, b: byte): byte {
    a ^ b
  }

  function Corrected(c0: byte, c1: byte): Pair {
    var sum := Accused(c0, c1);
    Pair(Xor(c0, Flip0(sum)), Xor(c1, Flip1(sum)))
  }

  /** The data bits of a pair. */
  function Data(c0: byte, c1: byte): byte {
    (((c0 >> 1) & 1) << 7) |
    (((c1 >> 7) & 1) << 6) | (((c1 >> 6) & 1) << 5) | (((c1 >> 5) & 1) << 4) |
    (((c1 >> 3) & 1) << 3) | (((c1 >> 2) & 1) << 2) | (((c1 >> 1) & 1) << 1) | (c1 & 1)
  }

  function DecodedPair(c0: byte, c1: byte): byte {
    var r := Corrected(c0, c1);
    Data(r.c0, r.c1)
  }

  // ------------------------------- the code, read off the twelve positions

  /** The bit at one of the twelve positions: four in the first byte, eight in the second. */
  function BitAt(c0: byte, c1: byte, pos: nat): byte
    requires 1 <= pos <= 12
  {
    match pos
    case 1 => (c0 >> 3) & 1
    case 2 => (c0 >> 2) & 1
    case 3 => (c0 >> 1) & 1
    case 4 => c0 & 1
    case 5 => (c1 >> 7) & 1
    case 6 => (c1 >> 6) & 1
    case 7 => (c1 >> 5) & 1
    case 8 => (c1 >> 4) & 1
    case 9 => (c1 >> 3) & 1
    case 10 => (c1 >> 2) & 1
    case 11 => (c1 >> 1) & 1
    case _ => c1 & 1
  }

  /** The bits of b stand, highest first, at the positions that are no power of two. */
  predicate CarriesData(b: byte, c0: byte, c1: byte) {
    && BitAt(c0, c1, 3) == (b >> 7) & 1 && BitAt(c0, c1, 5) == (b >> 6) & 1
    && BitAt(c0, c1, 6) == (b >> 5) & 1 && BitAt(c0, c1, 7) == (b >> 4) & 1
    && BitAt(c0, c1, 9) == (b >> 3) & 1 && BitAt(c0, c1, 10) == (b >> 2) & 1
    && BitAt(c0, c1, 11) == (b >> 1) & 1 && BitAt(c0, c1, 12) == b & 1
  }

  // The bits at the positions whose number holds 1, 2, 4 or 8, added modulo 2.

  function Parity1(c0: byte, c1: byte): byte {
    BitAt(c0, c1, 1) ^ BitAt(c0, c1, 3) ^ BitAt(c0, c1, 5) ^ BitAt(c0, c1, 7) ^ BitAt(c0, c1, 9) ^ BitAt(c0, c1, 11)
  }

  function Parity2(c0: byte, c1: byte): byte {
    BitAt(c0, c1, 2) ^ BitAt(c0, c1, 3) ^ BitAt(c0, c1, 6) ^ BitAt(c0, c1, 7) ^ BitAt(c0, c1, 10) ^ BitAt(c0, c1, 11)
  }

  function Parity4(c0: byte, c1: byte): byte {
    BitAt(c0, c1, 4) ^ BitAt(c0, c1, 5) ^ BitAt(c0, c1, 6) ^ BitAt(c0, c1, 7) ^ BitAt(c0, c1, 12)
  }

  function Parity8(c0: byte, c1: byte): byte {
    BitAt(c0, c1, 8) ^ BitAt(c0, c1, 9) ^ BitAt(c0, c1, 10) ^ BitAt(c0, c1, 11) ^ BitAt(c0, c1, 12)
  }

  /** The pair is the code word of b: nothing in the unused bits, the data in place, all parities even. */
  predicate IsCodeOf(b: byte, c0: byte, c1: byte) {
    && c0 < 16 && CarriesData(b, c0, c1)
    && Parity1(c0, c1) == 0 && Parity2(c0, c1) == 0 && Parity4(c0, c1) == 0 && Parity8(c0, c1) == 0
  }

  /** coded_byte gives the one code word. */
  lemma CodeExactly(b: byte, c0: byte, c1: byte)
    ensures CodedByte(b) == Pair(c0, c1) <==> IsCodeOf(b, c0, c1)
  {
    CodeIsCode(b);
    if IsCodeOf(b, c0, c1) {
      CodeIsUnique(b, c0, c1);
    }
  }

  lemma CodeIsCode(b: byte)
    ensures var c := CodedByte(b); IsCodeOf(b, c.c0, c.c1)
  {
  }

  lemma CodeIsUnique(b: byte, c0: byte, c1: byte)
    requires IsCodeOf(b, c0, c1)
    ensures CodedByte(b) == Pair(c0, c1)
  {
    SecondByteIs(b, c0, c1);
    FirstByteIs(b, c0, c1);
  }

  lemma SecondByteIs(b: byte, c0: byte, c1: byte)
    requires CarriesData(b, c0, c1) && Parity8(c0, c1) == 0
    ensures c1 == CodedByte(b).c1
  {
  }

  lemma FirstByteIs(b: byte, c0: byte, c1: byte)
    requires c0 < 16 && CarriesData(b, c0, c1)
    requires Parity1(c0, c1) == 0 && Parity2(c0, c1) == 0 && Parity4(c0, c1) == 0
    ensures c0 == CodedByte(b).c0
  {
  }

  /** The accused position is the one written in binary by the odd parities. */
  lemma AccusedExactly(c0: byte, c1: byte)
    ensures Accused(c0, c1) ==
            Parity1(c0, c1) + 2 * Parity2(c0, c1) + 4 * Parity4(c0, c1) + 8 * Parity8(c0, c1)
  {
    Check1Is(c0, c1);
    Check2Is(c0, c1);
    Check4Is(c0, c1);
    Check8Is(c0, c1);
    hide Check1, Check2, Check4, Check8, Parity1, Parity2, Parity4, Parity8, BitAt;
  }

  lemma Check1Is(c0: byte, c1: byte)
    ensures Check1(c0, c1) == Parity1(c0, c1) <= 1
  {
  }

  lemma Check2Is(c0: byte, c1: byte)
    ensures Check2(c0, c1) == Parity2(c0, c1) <= 1
  {
  }

  lemma Check4Is(c0: byte, c1: byte)
    ensures Check4(c0, c1) == Parity4(c0, c1) <= 1
  {
  }

  lemma Check8Is(c0: byte, c1: byte)
    ensures Check8(c0, c1) == Parity8(c0, c1) <= 1
  {
  }

  // ------------------------------------------- errors act the same on every byte

  lemma Check1IsLinear(c0: byte, c1: byte, e0: byte, e1: byte)
    ensures Check1(Xor(c0, e0), Xor(c1, e1)) == Xor(Check1(c0, c1), Check1(e0, e1))
  {
  }

  lemma Check2IsLinear(c0: byte, c1: byte, e0: byte, e1: byte)
    ensures Check2(Xor(c0, e0), Xor(c1, e1)) == Xor(Check2(c0, c1), Check2(e0, e1))
  {
  }

  lemma Check4IsLinear(c0: byte, c1: byte, e0: byte, e1: byte)
    ensures Check4(Xor(c0, e0), Xor(c1, e1)) == Xor(Check4(c0, c1), Check4(e0, e1))
  {
  }

  lemma Check8IsLinear(c0: byte, c1: byte, e0: byte, e1: byte)
    ensures Check8(Xor(c0, e0), Xor(c1, e1)) == Xor(Check8(c0, c1), Check8(e0, e1))
  {
  }

  lemma CodeAccusesNobody(b: byte)
    ensures var c := CodedByte(b);
            Check1(c.c0, c.c1) == 0 && Check2(c.c0, c.c1) == 0 && Check4(c.c0, c.c1) == 0 && Check8(c.c0, c.c1) == 0
  {
  }

  lemma XorWithZero(a: byte)
    ensures Xor(0, a) == a
  {
  }

  lemma AccusedIgnoresData(b: byte, e0: byte, e1: byte)
    ensures var c := CodedByte(b); Accused(Xor(c.c0, e0), Xor(c.c1, e1)) == Accused(e0, e1)
  {
    hide CodedByte, Check1, Check2, Check4, Check8, Xor;
    var c := CodedByte(b);
    Check1IsLinear(c.c0, c.c1, e0, e1);
    Check2IsLinear(c.c0, c.c1, e0, e1);
    Check4IsLinear(c.c0, c.c1, e0, e1);
    Check8IsLinear(c.c0, c.c1, e0, e1);
    CodeAccusesNobody(b);
    XorWithZero(Check1(e0, e1));
    XorWithZero(Check2(e0, e1));
    XorWithZero(Check4(e0, e1));
    XorWithZero(Check8(e0, e1));
  }

  lemma DataIsLinear(c0: byte, c1: byte, e0: byte, e1: byte)
    ensures Data(Xor(c0, e0), Xor(c1, e1)) == Xor(Data(c0, c1), Data(e0, e1))
  {
  }

  lemma CodeIsSystematic(b: byte)
    ensures var c := CodedByte(b); Data(c.c0, c.c1) == b
  {
  }

  lemma XorAssociates(a: byte, b: byte, c: byte)
    ensures Xor(Xor(a, b), c) == Xor(a, Xor(b, c))
  {
  }

  lemma XorIsNeutral(a: byte, b: byte)
    ensures Xor(a, b) == a <==> b == 0
  {
  }

  /** When the error alone decides who is accused, it alone decides the correction and what is left of it. */
  lemma CorrectsTheError(c0: byte, c1: byte, e0: byte, e1: byte)
    requires Accused(Xor(c0, e0), Xor(c1, e1)) == Accused(e0, e1)
    ensures DecodedPair(Xor(c0, e0), Xor(c1, e1)) == Xor(Data(c0, c1), DecodedPair(e0, e1))
  {
    hide *;
    var sum := Accused(e0, e1);
    Decoding(Xor(c0, e0), Xor(c1, e1));
    Decoding(e0, e1);
    XorAssociates(c0, e0, Flip0(sum));
    XorAssociates(c1, e1, Flip1(sum));
    DataIsLinear(c0, c1, Xor(e0, Flip0(sum)), Xor(e1, Flip1(sum)));
  }

  lemma Decoding(c0: byte, c1: byte)
    ensures var sum := Accused(c0, c1); DecodedPair(c0, c1) == Data(Xor(c0, Flip0(sum)), Xor(c1, Flip1(sum)))
  {
    hide Accused, Flip0, Flip1, Data, Xor;
  }

  /**
   Whatever bits e0 and e1 flip, the decoded byte is wrong by what (e0, e1) itself
   decodes to: every byte survives an error, or none does.
   */
  lemma ErrorDecides(b: byte, e0: byte, e1: byte)
    ensures var c := CodedByte(b);
            && DecodedPair(Xor(c.c0, e0), Xor(c.c1, e1)) == Xor(b, DecodedPair(e0, e1))
            && (DecodedPair(Xor(c.c0, e0), Xor(c.c1, e1)) == b <==> DecodedPair(e0, e1) == 0)
  {
    hide *;
    var c := CodedByte(b);
    AccusedIgnoresData(b, e0, e1);
    CorrectsTheError(c.c0, c.c1, e0, e1);
    CodeIsSystematic(b);
    XorIsNeutral(b, DecodedPair(e0, e1));
  }

  // ------------------------------------------------------- which errors are harmless

  predicate OneBit(e: byte) {
    e != 0 && e & (e - 1) == 0
  }

  predicate TwoBits(e: byte) {
    e & (e - 1) != 0 && OneBit(e & (e - 1))
  }

  /** Exactly one of the sixteen bits of a pair is wrong. */
  predicate OneError(e0: byte, e1: byte) {
    (e0 == 0 && OneBit(e1)) || (e1 == 0 && OneBit(e0))
  }

  lemma OneBitCases(e: byte)
    requires OneBit(e)
    ensures e == 1 || e == 2 || e == 4 || e == 8 || e == 16 || e == 32 || e == 64 || e == 128
  {
  }

  lemma SingleFlips()
    ensures DecodedPair(0, 1) == 0 && DecodedPair(0, 2) == 0 && DecodedPair(0, 4) == 0 && DecodedPair(0, 8) == 0
    ensures DecodedPair(0, 16) == 0 && DecodedPair(0, 32) == 0 && DecodedPair(0, 64) == 0 && DecodedPair(0, 128) == 0
    ensures DecodedPair(1, 0) == 0 && DecodedPair(2, 0) == 0 && DecodedPair(4, 0) == 0 && DecodedPair(8, 0) == 0
    ensures DecodedPair(16, 0) == 0 && DecodedPair(32, 0) == 0 && DecodedPair(64, 0) == 0 && DecodedPair(128, 0) == 0
    ensures DecodedPair(0, 0) == 0
  {
  }

  lemma OneErrorIsHarmless(e0: byte, e1: byte)
    requires (e0 == 0 && e1 == 0) || OneError(e0, e1)
    ensures DecodedPair(e0, e1) == 0
  {
    hide DecodedPair, OneBit;
    SingleFlips();
    if OneBit(e0) {
      OneBitCases(e0);
    } else if OneBit(e1) {
      OneBitCases(e1);
    }
  }

  /** Two wrong bits in the second byte. */
  lemma TwoErrorsInSecond(e: byte)
    requires TwoBits(e)
    ensures DecodedPair(0, e) == 0 <==> e == 0x90 || e == 0x50 || e == 0x30
  {
  }

  lemma TwoErrorsInFirst(e: byte)
    requires TwoBits(e) && e < 16
    ensures DecodedPair(e, 0) != 0
  {
  }

  lemma OneErrorInEach(e0: byte, e1: byte)
    requires OneBit(e0) && e0 < 16 && OneBit(e1)
    ensures DecodedPair(e0, e1) != 0
  {
  }

  lemma AccusedIgnoresUnused(c0: byte, c1: byte)
    ensures Accused(c0, c1) == Accused(c0 & 0x0F, c1)
  {
  }

  lemma DataIgnoresUnused(c0: byte, c1: byte, f: byte)
    ensures Data(Xor(c0, f), c1) == Data(Xor(c0 & 0x0F, f), c1)
  {
  }

  /** The four unused bits never matter, right or wrong. */
  lemma UnusedBitsDoNotMatter(c0: byte, c1: byte)
    ensures DecodedPair(c0, c1) == DecodedPair(c0 & 0x0F, c1)
  {
    hide *;
    var sum := Accused(c0, c1);
    AccusedIgnoresUnused(c0, c1);
    Decoding(c0, c1);
    Decoding(c0 & 0x0F, c1);
    DataIgnoresUnused(c0, Xor(c1, Flip1(sum)), Flip0(sum));
  }

  /** Exactly two of the sixteen bits of a pair are wrong. */
  predicate TwoErrors(e0: byte, e1: byte) {
    (TwoBits(e0) && e1 == 0) || (OneBit(e0) && OneBit(e1)) || (e0 == 0 && TwoBits(e1))
  }

  /** A wrong bit among the four unused ones. */
  predicate UnusedError(e0: byte) {
    e0 >= 16
  }

  /**
   Two wrong bits are repaired if and only if one of them is unused, or both are in the
   second byte and accuse a position past the twelfth that comes round to one of them.
   */
  lemma TwoErrorsExactly(e0: byte, e1: byte)
    requires TwoErrors(e0, e1)
    ensures DecodedPair(e0, e1) == 0 <==> UnusedError(e0) || (e0 == 0 && (e1 == 0x90 || e1 == 0x50 || e1 == 0x30))
  {
    hide DecodedPair;
    if UnusedError(e0) {
      UnusedBitsDoNotMatter(e0, e1);
      WithoutUnused(e0, e1);
      OneErrorIsHarmless(e0 & 0x0F, e1);
    } else if e1 == 0 {
      TwoErrorsInFirst(e0);
    } else if e0 == 0 {
      TwoErrorsInSecond(e1);
    } else {
      OneErrorInEach(e0, e1);
    }
  }

  lemma WithoutUnused(e0: byte, e1: byte)
    requires TwoErrors(e0, e1) && UnusedError(e0)
    ensures (e0 & 0x0F == 0 && e1 == 0) || OneError(e0 & 0x0F, e1)
  {
  }

  // ---------------------------------------------------------- whole messages

  /** Two bytes for each byte of the text. */
  function Code(text: seq<byte>): (code: seq<byte>)
    ensures |code| == 2 * |text|
    ensures forall i :: 0 <= i < |text| ==>
              code[2 * i] == CodedByte(text[i]).c0 && code[2 * i + 1] == CodedByte(text[i]).c1
  {
    seq(2 * |text|, k requires 0 <= k < 2 * |text| =>
      var c := CodedByte(text[k / 2]);
      if k % 2 == 0 then c.c0 else c.c1)
  }

  /** One byte for each two of the payload; an odd last byte is ignored. */
  function Decode(payload: seq<byte>): (text: seq<byte>)
    ensures |text| == |payload| / 2
    ensures forall i :: 0 <= i < |text| ==> text[i] == DecodedPair(payload[2 * i], payload[2 * i + 1])
  {
    seq(|payload| / 2, i requires 0 <= i < |payload| / 2 => DecodedPair(payload[2 * i], payload[2 * i + 1]))
  }

  /** What a transmission did to block i: the bits flipped in its two bytes. */
  function ErrorIn(sent: seq<byte>, got: seq<byte>, i: nat): Pair
    requires |sent| == |got| && 2 * i + 1 < |sent|
  {
    Pair(Xor(sent[2 * i], got[2 * i]), Xor(sent[2 * i + 1], got[2 * i + 1]))
  }

  predicate Harmless(e: Pair) {
    DecodedPair(e.c0, e.c1) == 0
  }

  lemma XorUndone(a: byte, b: byte)
    ensures Xor(a, Xor(a, b)) == b
  {
  }

  lemma BlockDecides(b: byte, g0: byte, g1: byte)
    ensures var c := CodedByte(b); DecodedPair(g0, g1) == b <==> Harmless(Pair(Xor(c.c0, g0), Xor(c.c1, g1)))
  {
    hide CodedByte, DecodedPair, Xor;
    var c := CodedByte(b);
    XorUndone(c.c0, g0);
    XorUndone(c.c1, g1);
    ErrorDecides(b, Xor(c.c0, g0), Xor(c.c1, g1));
  }

  /** Exactly when a received payload decodes to the text that was sent: every block's error is harmless. */
  lemma DecodesExactlyWhen(text: seq<byte>, got: seq<byte>)
    requires |got| == 2 * |text|
    ensures Decode(got) == text <==> forall i :: 0 <= i < |text| ==> Harmless(ErrorIn(Code(text), got, i))
  {
    hide CodedByte, DecodedPair, Xor, Harmless, Code, Decode;
    forall i | 0 <= i < |text|
      ensures Decode(got)[i] == text[i] <==> Harmless(ErrorIn(Code(text), got, i))
    {
      BlockDecides(text[i], got[2 * i], got[2 * i + 1]);
    }
    if forall i :: 0 <= i < |text| ==> Harmless(ErrorIn(Code(text), got, i)) {
      assert forall i :: 0 <= i < |text| ==> Decode(got)[i] == text[i];
      assert Decode(got) == text;
    } else {
      var i :| 0 <= i < |text| && !Harmless(ErrorIn(Code(text), got, i));
      assert Decode(got)[i] != text[i];
    }
  }

  /** In particular, one wrong bit in every block is repaired, and no error at all stays none. */
  lemma OneErrorPerBlock(text: seq<byte>, got: seq<byte>)
    requires |got| == 2 * |text|
    requires forall i :: 0 <= i < |text| ==>
               var e := ErrorIn(Code(text), got, i); (e.c0 == 0 && e.c1 == 0) || OneError(e.c0, e.c1)
    ensures Decode(got) == text
  {
    hide CodedByte, DecodedPair, Xor, OneError, Code, Decode;
    forall i | 0 <= i < |text| ensures Harmless(ErrorIn(Code(text), got, i)) {
      var e := ErrorIn(Code(text), got, i);
      OneErrorIsHarmless(e.c0, e.c1);
    }
    DecodesExactlyWhen(text, got);
  }

  /** The mask the link uses to flip bit k. */
  function BitMask(k: byte): byte
    requires k < 8
  {
    (1 as byte) << k
  }

  lemma BitMaskIs()
    ensures BitMask(0) == 1 && BitMask(1) == 2 && BitMask(2) == 4 && BitMask(3) == 8
    ensures BitMask(4) == 16 && BitMask(5) == 32 && BitMask(6) == 64 && BitMask(7) == 128
  {
  }

  /** The link flips bit k of byte j (run_forwarding): the receiver does not notice. */
  lemma LinkFlipIsUndone(text: seq<byte>, j: nat, k: byte)
    requires j < 2 * |text| && k < 8
    ensures var sent := Code(text); Decode(sent[j := Xor(sent[j], BitMask(k))]) == text
  {
    hide CodedByte, DecodedPair, Code, Decode, Xor, BitMask, OneError, ErrorIn;
    var sent := Code(text);
    var got := sent[j := Xor(sent[j], BitMask(k))];
    forall i | 0 <= i < |text|
      ensures var e := ErrorIn(sent, got, i); (e.c0 == 0 && e.c1 == 0) || OneError(e.c0, e.c1)
    {
      FlippedBlock(sent, j, k, i);
    }
    OneErrorPerBlock(text, got);
  }

  lemma FlippedBlock(sent: seq<byte>, j: nat, k: byte, i: nat)
    requires j < |sent| && k < 8 && 2 * i + 1 < |sent|
    ensures var e := ErrorIn(sent, sent[j := Xor(sent[j], BitMask(k))], i);
            (e.c0 == 0 && e.c1 == 0) || OneError(e.c0, e.c1)
  {
    hide Xor, BitMask, OneBit;
    FlipIsOneBit(sent[2 * i], k);
    FlipIsOneBit(sent[2 * i + 1], k);
  }

  lemma FlipIsOneBit(a: byte, k: byte)
    requires k < 8
    ensures Xor(a, a) == 0 && OneBit(Xor(a, Xor(a, BitMask(k))))
  {
  }

  // --------------------------------------------------------------- the methods

  /** encoded_message: the string m and its terminator. */
  method EncodedMessage(m: seq<byte>) returns (encoded: array<byte>)
    requires 0 !in m
    ensures fresh(encoded) && encoded[..] == Code(m + [0])
    ensures encoded.Length == 2 * (|m| + 1)
    ensures forall i :: 0 <= i <= |m| ==> IsCodeOf((m + [0])[i], encoded[2 * i], encoded[2 * i + 1])
  {
    hide CodedByte, Code, IsCodeOf;
    encoded := new byte[2 * |m| + 2](_ => 0);
    var text := m + [0];
    for i := 0 to |m| + 1
      invariant forall j :: 0 <= j < i ==>
                  encoded[2 * j] == CodedByte(text[j]).c0 && encoded[2 * j + 1] == CodedByte(text[j]).c1
    {
      encoded[2 * i] := CodedByte(text[i]).c0;
      encoded[2 * i + 1] := CodedByte(text[i]).c1;
    }
    ghost var code := Code(text);
    forall j | 0 <= j < |text|
      ensures encoded[..][2 * j] == code[2 * j] && encoded[..][2 * j + 1] == code[2 * j + 1]
    {
    }
    SameByPairs(encoded[..], code, |text|);
    forall i | 0 <= i <= |m| ensures IsCodeOf(text[i], encoded[2 * i], encoded[2 * i + 1]) {
      CodeExactly(text[i], encoded[2 * i], encoded[2 * i + 1]);
    }
  }

  lemma SameByPairs(a: seq<byte>, b: seq<byte>, n: nat)
    requires |a| == |b| == 2 * n
    requires forall j :: 0 <= j < n ==> a[2 * j] == b[2 * j] && a[2 * j + 1] == b[2 * j + 1]
    ensures a == b
  {
    forall i | 0 <= i < |a| ensures a[i] == b[i] {
      assert i == 2 * (i / 2) || i == 2 * (i / 2) + 1;
    }
  }

  /** decoded_message works on its own copy r of the payload and corrects it in place. */
  method DecodedMessage(payload: seq<byte>) returns (decoded: array<byte>)
    ensures fresh(decoded) && decoded[..] == Decode(payload)
  {
    hide Accused, Data, Flip0, Flip1, Decode;
    var len := |payload|;
    var r := new byte[len](i requires 0 <= i < len => payload[i]);
    decoded := new byte[len / 2](_ => 0);
    var i := 0;
    while i < len - 1
      invariant i % 2 == 0 && 0 <= i <= len + 1
      invariant i / 2 <= len / 2
      invariant forall j :: i <= j < len ==> r[j] == payload[j]
      invariant forall j :: 0 <= j < i / 2 ==> decoded[j] == DecodedPair(payload[2 * j], payload[2 * j + 1])
      decreases len - i
    {
      var sum := Accused(r[i], r[i + 1]);
      CorrectionSteps(r[i], r[i + 1]);
      if sum != 0 {
        if sum + 3 < 8 {
          r[i] := r[i] ^ ((128 as byte) >> (sum + 3));
        } else if sum + 3 >= 8 {
          r[i + 1] := r[i + 1] ^ ((128 as byte) >> ((sum + 3) % 8));
        }
      }
      decoded[i / 2] := Data(r[i], r[i + 1]);
      i := i + 2;
    }
    assert len / 2 <= i / 2;
  }

  /** Flipping one of the two bytes, as the program does, is flipping both by Flip0 and Flip1. */
  lemma CorrectionSteps(c0: byte, c1: byte)
    ensures var sum := Accused(c0, c1);
            DecodedPair(c0, c1) ==
              if sum == 0 then Data(c0, c1)
              else if sum + 3 < 8 then Data(Xor(c0, (128 as byte) >> (sum + 3)), c1)
              else Data(c0, Xor(c1, (128 as byte) >> ((sum + 3) % 8)))
  {
    hide *;
    var sum := Accused(c0, c1);
    Decoding(c0, c1);
    FlipCases(sum);
    XorIsNeutral(c0, 0);
    XorIsNeutral(c1, 0);
  }

  lemma FlipCases(sum: byte)
    requires sum <= 15
    ensures sum == 0 ==> Flip0(sum) == 0 && Flip1(sum) == 0
    ensures sum != 0 && sum + 3 < 8 ==> Flip0(sum) == (128 as byte) >> (sum + 3) && Flip1(sum) == 0
    ensures sum != 0 && sum + 3 >= 8 ==> Flip0(sum) == 0 && Flip1(sum) == (128 as byte) >> ((sum + 3) % 8)
  {
  }

  /** Sending a string through the codec, with at most one flipped bit per block. */
  method Transmit(m: seq<byte>, flip: bool, j: nat, k: byte) returns (decoded: array<byte>)
    requires 0 !in m && j < 2 * |m| + 2 && k < 8
    ensures decoded[..] == m + [0]
  {
    hide Code, Decode;
    var encoded := EncodedMessage(m);
    var sent := encoded[..];
    LinkFlipIsUndone(m + [0], j, k);
    CleanLink(m + [0]);
    if flip {
      encoded[j] := encoded[j] ^ ((1 as byte) << k);
      assert encoded[..] == sent[j := Xor(sent[j], BitMask(k))];
    }
    decoded := DecodedMessage(encoded[..]);
  }

  lemma CleanLink(text: seq<byte>)
    ensures Decode(Code(text)) == text
  {
    hide CodedByte, DecodedPair, Code, Decode;
    forall i | 0 <= i < |text|
      ensures var e := ErrorIn(Code(text), Code(text), i); e.c0 == 0 && e.c1 == 0
    {
      FlipIsOneBit(Code(text)[2 * i], 0);
      FlipIsOneBit(Code(text)[2 * i + 1], 0);
    }
    OneErrorPerBlock(text, Code(text));
  }
}
