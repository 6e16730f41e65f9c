/**
 Inline hooks: branch encodings, reach of the trampoline page, how many bytes of a function may be moved, and
 installing and removing a 32-bit hook. Instructions are numbers; 32-bit code is a sequence of half words, since
 every address and size involved is even.
 */
module InlineHook {

  import opened Bits

  // ------------------------------------------------------------ A64 branches

  const TWO_32: nat := 0x1_0000_0000

  /** An unconditional A64 branch. */
  function EncodeA64(from: nat, to: nat): nat { 0x1400_0000 + (to - from) / 4 % 0x400_0000 }

  /** A field of `2 * half` values as a signed number. */
  function Signed(v: nat, half: nat): int { if v < half then v else v - 2 * half }

  /** Where an A64 branch goes: a signed 26-bit word offset. */
  function DecodeA64(from: nat, w: nat): int { from + 4 * Signed(w % 0x400_0000, 0x200_0000) }

  predicate IsBranchA64(w: nat) { w / 0x400_0000 == 5 }

  /** The encoded branch goes to its destination exactly when that is a whole number of words away and in range. */
  lemma A64RoundTrip(from: nat, to: nat)
    ensures IsBranchA64(EncodeA64(from, to))
    ensures DecodeA64(from, EncodeA64(from, to)) == to
            <==> (to - from) % 4 == 0 && -0x800_0000 <= to - from < 0x800_0000
  {
    var k := (to - from) / 4;
    assert EncodeA64(from, to) % 0x400_0000 == k % 0x400_0000;
    assert to - from == 4 * k + (to - from) % 4;
    Signed26(k);
  }

  /** A number is what its low bits say, read as signed, exactly when it is in their range. */
  lemma Signed26(k: int)
    ensures Signed(k % 0x400_0000, 0x200_0000) == k <==> -0x200_0000 <= k < 0x200_0000
  {
    assert k == 0x400_0000 * (k / 0x400_0000) + k % 0x400_0000;
  }

  lemma Signed24(k: int)
    ensures Signed(k % 0x100_0000, 0x80_0000) == k <==> -0x80_0000 <= k < 0x80_0000
  {
    assert k == 0x100_0000 * (k / 0x100_0000) + k % 0x100_0000;
  }

  // ---------------------------------------------------------- 32-bit branches

  function EncodeArm(from: nat, to: nat): nat { 0xea00_0000 + (to - from - 8) % 0x1_0000_0000 / 4 % 0x100_0000 }

  /** The destination of an ARM branch: a signed 24-bit word offset from the instruction's address plus 8. */
  function DecodeArm(from: nat, w: nat): int { from + 8 + 4 * Signed(w % 0x100_0000, 0x80_0000) }

  lemma ArmRoundTrip(from: nat, to: nat)
    ensures EncodeArm(from, to) / 0x100_0000 == 0xea
    ensures DecodeArm(from, EncodeArm(from, to)) == to <==> Reachable(from, to, false)
  {
    var off := to - from - 8;
    WordOfOffset(off);
    assert EncodeArm(from, to) % 0x100_0000 == off / 4 % 0x100_0000;
    Signed24(off / 4);
  }

  lemma WordOfOffset(off: int)
    ensures off % 0x1_0000_0000 / 4 % 0x100_0000 == off / 4 % 0x100_0000 && off == 4 * (off / 4) + off % 4
  {
    var h, e := off / 0x1_0000_0000, off % 0x1_0000_0000;
    QuarterOf(off, h, e);
    WholeTurns(e / 4, h);
  }

  lemma QuarterOf(off: int, h: int, e: int)
    requires off == 0x1_0000_0000 * h + e
    ensures off / 4 == 0x4000_0000 * h + e / 4
  {
  }

  lemma WholeTurns(x: int, h: int)
    ensures (0x4000_0000 * h + x) % 0x100_0000 == x % 0x100_0000
  {
    assert 0x4000_0000 * h + x == 0x100_0000 * (64 * h + x / 0x100_0000) + x % 0x100_0000;
  }

  /** The check made before a relative jump is chosen. */
  predicate Reachable(from: nat, to: nat, thumb: bool) {
    var off := to - (from + if thumb then 4 else 8);
    if thumb then -0x100_0000 <= off < 0x100_0000 && off % 2 == 0
    else -0x200_0000 <= off < 0x200_0000 && off % 4 == 0
  }

  function Bit(v: nat, place: nat): nat
    requires place > 0
  {
    v / place % 2
  }

  /** The two half words of encoding T4 of the Thumb branch; the two J bits are inverted differences with the sign. */
  function EncodeT4(from: nat, to: nat): (nat, nat) {
    var e := (to - from - 4) % 0x1_0000_0000;
    var s := Bit(e, 0x100_0000);
    var j1, j2 := if Bit(e, 0x80_0000) == s then 1 else 0, if Bit(e, 0x40_0000) == s then 1 else 0;
    (0xf000 + s * 1024 + e / 4096 % 1024, 0x9000 + j1 * 8192 + j2 * 2048 + e / 2 % 2048)
  }

  predicate IsT4(h: (nat, nat)) { h.0 / 2048 == 0x1e && h.1 / 0x4000 == 2 && Bit(h.1, 4096) == 1 }

  /** The destination of encoding T4 (section A8.8.18 of the ARMv7-A manual): S:I1:I2:imm10:imm11:0, signed. */
  function DecodeT4(from: nat, h: (nat, nat)): int {
    var s := Bit(h.0, 1024);
    var i1, i2 := if Bit(h.1, 8192) == s then 1 else 0, if Bit(h.1, 2048) == s then 1 else 0;
    var field := s * 0x80_0000 + i1 * 0x40_0000 + i2 * 0x20_0000 + h.0 % 1024 * 2048 + h.1 % 2048;
    from + 4 + 2 * Signed(field, 0x80_0000)
  }

  /** The fields of an offset, put together again. */
  lemma FieldsOfOffset(e: nat)
    ensures Bit(e, 0x100_0000) * 0x80_0000 + Bit(e, 0x80_0000) * 0x40_0000 + Bit(e, 0x40_0000) * 0x20_0000
            + e / 4096 % 1024 * 2048 + e / 2 % 2048 == e / 2 % 0x100_0000
  {
    var k := e / 2;
    HalvedTwice(e);
    FieldsOfWord(k, k / 2048, k / 0x20_0000, k / 0x40_0000, k / 0x80_0000);
  }

  lemma HalvedTwice(e: nat)
    ensures e / 4096 == e / 2 / 2048 && e / 0x40_0000 == e / 2 / 0x20_0000
    ensures e / 0x80_0000 == e / 2 / 0x40_0000 && e / 0x100_0000 == e / 2 / 0x80_0000
  {
  }

  lemma QuotientsOfWord(k: nat, a: nat, b: nat, c: nat, d: nat)
    requires a == k / 2048 && b == k / 0x20_0000 && c == k / 0x40_0000 && d == k / 0x80_0000
    ensures b == a / 1024 && c == b / 2 && d == c / 2
  {
  }

  lemma FieldsOfWord(k: nat, a: nat, b: nat, c: nat, d: nat)
    requires a == k / 2048 && b == k / 0x20_0000 && c == k / 0x40_0000 && d == k / 0x80_0000
    ensures d % 2 * 0x80_0000 + c % 2 * 0x40_0000 + b % 2 * 0x20_0000 + a % 1024 * 2048 + k % 2048 == k % 0x100_0000
  {
    QuotientsOfWord(k, a, b, c, d);
    var r := d % 2 * 0x80_0000 + c % 2 * 0x40_0000 + b % 2 * 0x20_0000 + a % 1024 * 2048 + k % 2048;
    assert k == 0x100_0000 * (d / 2) + r;
    DivUnique(k, 0x100_0000, d / 2, r);
  }

  lemma T4RoundTrip(from: nat, to: nat)
    ensures IsT4(EncodeT4(from, to))
    ensures DecodeT4(from, EncodeT4(from, to)) == to <==> Reachable(from, to, true)
  {
    var off := to - from - 4;
    T4Field(from, to, off % 0x1_0000_0000);
    HalfOfOffset(off);
    Signed24(off / 2);
  }

  lemma HalfOfOffset(off: int)
    ensures off % 0x1_0000_0000 / 2 % 0x100_0000 == off / 2 % 0x100_0000 && off == 2 * (off / 2) + off % 2
  {
    var q, e := off / 0x1_0000_0000, off % 0x1_0000_0000;
    assert off == 0x1_0000_0000 * q + e;
    assert off / 2 == 0x100_0000 * (128 * q) + e / 2;
  }

  lemma T4Field(from: nat, to: nat, e: nat)
    requires e == (to - from - 4) % 0x1_0000_0000
    ensures IsT4(EncodeT4(from, to))
    ensures DecodeT4(from, EncodeT4(from, to)) == from + 4 + 2 * Signed(e / 2 % 0x100_0000, 0x80_0000)
  {
    T4Fields(from, to, e);
    FieldsOfOffset(e);
  }

  lemma T4Fields(from: nat, to: nat, e: nat)
    requires e == (to - from - 4) % 0x1_0000_0000
    ensures var h, s := EncodeT4(from, to), Bit(e, 0x100_0000);
            && IsT4(h) && Bit(h.0, 1024) == s && h.0 % 1024 == e / 4096 % 1024 && h.1 % 2048 == e / 2 % 2048
            && Bit(h.1, 8192) == (if Bit(e, 0x80_0000) == s then 1 else 0)
            && Bit(h.1, 2048) == (if Bit(e, 0x40_0000) == s then 1 else 0)
  {
  }

  // ------------------------------------------------------------------- reach

  const PAGE: nat := 0x1000

  /** The pages a near allocation tries: `k` times 64 KiB above or below the target's page. */
  function Hint(target: nat, k: nat, above: bool): int {
    target / 0x1000 * 0x1000 + (if above then 0x1_0000 * k else -0x1_0000 * k)
  }

  /** For every page the 64-bit search can return, the patched branch at `target + 4` reaches the page, and the
      branch back, from anywhere in the page, reaches `target + 8`. */
  lemma NearBranchesReach(target: nat, k: nat, above: bool, back: nat)
    requires target % 4 == 0 && back % 4 == 0 && back < PAGE
    requires 1 <= k <= 0x780_0000 / 0x1_0000 && Hint(target, k, above) >= 0
    ensures var page := Hint(target, k, above);
            && DecodeA64(target + 4, EncodeA64(target + 4, page)) == page
            && DecodeA64(page + back, EncodeA64(page + back, target + 8)) == target + 8
  {
    var page := Hint(target, k, above);
    A64RoundTrip(target + 4, page);
    A64RoundTrip(page + back, target + 8);
    HintDistance(target, k, above, 4, 0);
    HintDistance(target, k, above, 8, back);
  }

  lemma FourTimes(v: int, m: int)
    requires v == 4 * m
    ensures v % 4 == 0 && v / 4 == m
  {
  }

  lemma TwoTimes(v: int, m: int)
    requires v == 2 * m
    ensures v % 2 == 0 && v / 2 == m
  {
  }

  lemma InPage4(target: nat) returns (t: nat, r: nat)
    requires target % 4 == 0
    ensures t == target / 0x1000 && target == 0x1000 * t + 4 * r && r < 0x400
  {
    t, r := target / 0x1000, target % 0x1000 / 4;
    assert target == 0x1000 * t + target % 0x1000;
    FourTimes(target, target / 4);
    FourTimes(target % 0x1000, target / 4 - 0x400 * t);
  }

  lemma InPage2(target: nat) returns (t: nat, r: nat)
    requires target % 2 == 0
    ensures t == target / 0x1000 && target == 0x1000 * t + 2 * r && r < 0x800
  {
    t, r := target / 0x1000, target % 0x1000 / 2;
    assert target == 0x1000 * t + target % 0x1000;
    TwoTimes(target, target / 2);
    TwoTimes(target % 0x1000, target / 2 - 0x800 * t);
  }

  /** A page's distance from the target, shifted by small multiples of 4 on both sides. */
  lemma HintDistance(target: nat, k: nat, above: bool, a: nat, b: nat)
    requires target % 4 == 0 && a % 4 == 0 && b % 4 == 0 && k <= 0x780 && a <= 8 && b < 0x1000
    ensures var off := Hint(target, k, above) + b - (target + a);
            off % 4 == 0 && -0x780_2000 <= off < 0x780_2000
  {
    var t, r := InPage4(target);
    var a4, b4 := a / 4, b / 4;
    assert a == 4 * a4 && b == 4 * b4;
    FourTimes(Hint(target, k, above) + b - (target + a), (if above then 0x4000 * k else -0x4000 * k) + b4 - r - a4);
  }

  predicate Aligned(a: nat, thumb: bool) { if thumb then a % 2 == 0 else a % 4 == 0 }

  /** The 32-bit search tries pages within 15 MiB, all of which both 32-bit branches reach. */
  lemma NearPageReachable(target: nat, k: nat, above: bool, thumb: bool)
    requires Aligned(target, thumb) && 1 <= k <= 0xf0_0000 / 0x1_0000 && Hint(target, k, above) >= 0
    ensures Reachable(target, Hint(target, k, above), thumb)
  {
    if thumb {
      var t, r := InPage2(target);
      TwoTimes(Hint(target, k, above) - (target + 4), (if above then 0x8000 * k else -0x8000 * k) - r - 2);
    } else {
      var t, r := InPage4(target);
      FourTimes(Hint(target, k, above) - (target + 8), (if above then 0x4000 * k else -0x4000 * k) - r - 2);
    }
  }

  // ---------------------------------------------------------- absolute jumps

  /** Half words of an absolute jump: a load into the program counter, then the destination as a literal. */
  function AbsoluteJump(at: nat, to: nat, thumb: bool): (h: seq<int>)
    ensures 2 * |h| == AbsoluteJumpSize(at, thumb)
  {
    var low, high := to % 0x1_0000, to / 0x1_0000 % 0x1_0000;
    if !thumb then [0xf004, 0xe51f, low, high]
    else if And(at, 2) != 0 then [0xf8df, 0xf004, 0xbf00, low, high]
    else [0xf8df, 0xf000, low, high]
  }

  function AbsoluteJumpSize(at: nat, thumb: bool): nat { if thumb && And(at, 2) != 0 then 10 else 8 }

  lemma AndTwo(at: nat)
    requires at % 2 == 0
    ensures And(at, 2) != 0 <==> at % 4 == 2
  {
    if at > 0 { assert And(at, 2) == 2 * And(at / 2, 1); }
    if at / 2 > 0 { assert And(at / 2, 1) == 2 * And(at / 2 / 2, 0) + (if at / 2 % 2 == 1 then 1 else 0); }
  }

  /** The address a load at `at` reads: ARM `ldr pc, [pc, #-4]`, or Thumb `ldr.w pc, [pc, #imm]` whose base is
      the word-aligned address plus 4. */
  function LoadedFrom(at: nat, h: seq<int>, thumb: bool): int
    requires |h| >= 2
  {
    if thumb then (at + 4) / 4 * 4 + h[1] % 4096 else at + 8 - h[0] % 4096
  }

  predicate IsLoadPc(h: seq<int>, thumb: bool)
    requires |h| >= 2
  {
    if thumb then h[0] == 0xf8df && h[1] / 4096 == 15 else h[1] == 0xe51f && h[0] / 4096 == 15
  }

  /** At either alignment, the literal the load reads is the destination just after the code. */
  lemma AbsoluteJumpLands(at: nat, to: nat, thumb: bool)
    requires Aligned(at, thumb) && to < TWO_32
    ensures var h := AbsoluteJump(at, to, thumb);
            var i := (LoadedFrom(at, h, thumb) - at) / 2;
            && IsLoadPc(h, thumb) && LoadedFrom(at, h, thumb) == at + 2 * i
            && i == |h| - 2 && h[i] + 0x1_0000 * h[i + 1] == to
  {
    LiteralHalves(to);
    if thumb {
      AndTwo(at);
      ThumbBase(at);
    }
  }

  lemma LiteralHalves(to: nat)
    requires to < TWO_32
    ensures to % 0x1_0000 + 0x1_0000 * (to / 0x1_0000 % 0x1_0000) == to
  {
  }

  lemma ThumbBase(at: nat)
    requires at % 2 == 0
    ensures (at + 4) / 4 * 4 == if at % 4 == 2 then at + 2 else at + 4
  {
    var q, m := at / 4, at % 4;
    assert at == 4 * q + m;
    TwoTimes(at, at / 2);
    TwoTimes(m, at / 2 - 2 * q);
    assert (at + 4) / 4 == q + 1;
  }

  // ----------------------------------------------------- what may be moved

  predicate IsHalf(h: int) { 0 <= h < 0x1_0000 }

  predicate AllHalves(code: seq<int>) { forall i :: 0 <= i < |code| ==> IsHalf(code[i]) }

  predicate ThumbWide(h: nat) { h / 2048 == 0x1d || h / 2048 == 0x1e || h / 2048 == 0x1f }

  predicate ThumbPcRelative(first: nat, second: nat, wide: bool) {
    if !wide then
      || And(first, 0xf800) == 0x4800 || And(first, 0xf800) == 0xa000 || And(first, 0xf000) == 0xd000
      || And(first, 0xf800) == 0xe000 || And(first, 0xf500) == 0xb100
      || (And(first, 0xfc00) == 0x4400 && (first / 8 % 16 == 15 || first % 8 + And(first / 16, 8) == 15))
    else
      || And(first, 0xff7f) == 0xf85f || And(first, 0xfbf0) == 0xf20f || And(first, 0xfbf0) == 0xf2af
      || (And(first, 0xf800) == 0xf000 && And(second, 0x8000) != 0)
  }

  predicate ArmPcRelative(w: nat) {
    if And(w, 0x0fff_fff0) == 0x012f_ff10 || And(w, 0x0fff_fff0) == 0x012f_ff30 then false
    else
      || And(w, 0x0e00_0000) == 0x0a00_0000
      || (w / 0x1_0000 % 16 == 15
          && (And(w, 0x0c00_0000) == 0 || And(w, 0x0c00_0000) == 0x0400_0000 || And(w, 0x0c00_0000) == 0x0c00_0000))
  }

  // The masks of the tests above, as arithmetic on a half word.

  lemma InBranchGroup(h: nat)
    requires IsHalf(h)
    ensures And(h, 0xf800) == 0xf000 <==> h / 2048 == 0x1e
  {
    Powers();
    TopFieldBy(h, 11, 2048, 5, 32, 0x1e, 0xf800, 0xf000, h / 2048);
  }

  lemma TopBit(h: nat)
    requires IsHalf(h)
    ensures And(h, 0x8000) != 0 <==> h >= 0x8000
  {
    Powers();
    TopFieldBy(h, 15, 0x8000, 1, 2, 0, 0x8000, 0, h / 0x8000);
  }

  lemma LiteralWord(h: nat)
    requires IsHalf(h)
    ensures And(h, 0xff7f) == 0xf85f <==> h == 0xf85f || h == 0xf8df
  {
    assert Power2(7) == 128 && Power2(8) == 256;
    assert OnesBelow(0x1fe, 7) == 0xff7f && Joined(0x1f0, 0x5f, 7) == 0xf85f;
    AndBelow(h, 0x1fe, 7);
    ShrBy(h, 7, 128);
    AndDoubled(h / 128, 0xff);
    MaskBy(h / 128 / 2, 8, 256);
    JoinedBy(And(h / 128, 0x1fe), h, 0x1f0, 0x5f, 7, 128);
    WordParts(h);
  }

  lemma WordParts(h: nat)
    requires IsHalf(h)
    ensures 2 * (h / 128 / 2 % 256) == 0x1f0 && h % 128 == 0x5f <==> h == 0xf85f || h == 0xf8df
  {
    var q, r := h / 128, h % 128;
    assert h == 128 * q + r && q < 512;
    assert q / 2 % 256 == q / 2;
  }

  lemma NeverAddress(h: nat)
    ensures And(h, 0xfbf0) != 0xf20f && And(h, 0xfbf0) != 0xf2af
  {
    EvenMask(h, 0xfbf0);
  }

  /** What is recognised among wide instructions. The two tests meant for address computations compare bits that their
      mask clears, so they never hold; what is left is the literal load of a word, and everything in the group of
      branches and miscellaneous control. */
  lemma WidePcRelativeIff(first: nat, second: nat)
    requires IsHalf(first) && IsHalf(second)
    ensures ThumbPcRelative(first, second, true)
            <==> first == 0xf85f || first == 0xf8df || (first / 2048 == 0x1e && second >= 0x8000)
  {
    InBranchGroup(first);
    TopBit(second);
    LiteralWord(first);
    NeverAddress(first);
  }

  /** The wide instructions whose effect depends on their own address (ARMv7-A manual, chapters A6 and A8): loads from
      a literal, address computations, branches and table branches. */
  datatype WideForm =
    | WordLiteral | ByteLiteral | HalfLiteral | SignedByteLiteral | SignedHalfLiteral | DoubleLiteral
    | CoprocessorLiteral | Address | Branch | TableBranch

  predicate HasForm(form: WideForm, first: nat, second: nat) {
    match form
    case WordLiteral => first in {0xf85f, 0xf8df}           // LDR
    case ByteLiteral => first in {0xf81f, 0xf89f}           // LDRB, PLD
    case HalfLiteral => first in {0xf83f, 0xf8bf}           // LDRH
    case SignedByteLiteral => first in {0xf91f, 0xf99f}     // LDRSB, PLI
    case SignedHalfLiteral => first in {0xf93f, 0xf9bf}     // LDRSH
    case DoubleLiteral => first in {0xe95f, 0xe9df}         // LDRD
    case CoprocessorLiteral =>                              // VLDR, LDC, LDC2
      first in {0xed1f, 0xed5f, 0xed9f, 0xeddf, 0xfd1f, 0xfd5f, 0xfd9f, 0xfddf}
    case Address => first in {0xf20f, 0xf60f, 0xf2af, 0xf6af} && second < 0x8000  // ADR
    case Branch =>                                          // B, BL, BLX; a condition above 13 is no branch
      && first / 2048 == 0x1e && second >= 0x8000
      && (second / 0x4000 % 2 == 1 || second / 0x1000 % 2 == 1 || first / 64 % 16 < 14)
    case TableBranch => first / 16 == 0xe8d && second / 32 == 0x780  // TBB, TBH
  }

  /** Of the forms that must not be moved, exactly the literal load of a word and the branches are recognised; the other
      eight count as movable. */
  lemma WideFormsMissed(form: WideForm, first: nat, second: nat)
    requires IsHalf(first) && IsHalf(second) && HasForm(form, first, second)
    ensures ThumbWide(first)
    ensures ThumbPcRelative(first, second, true) <==> form == WordLiteral || form == Branch
  {
    WidePcRelativeIff(first, second);
    match form
    case TableBranch => assert first == 16 * 0xe8d + first % 16;
    case _ =>
  }

  // ------------------------------------------------------------ moved bytes

  /** The size in bytes of the instruction at half word `i`. */
  function Size(code: seq<int>, i: nat, thumb: bool): nat
    requires i < |code| && AllHalves(code)
  {
    if thumb && !ThumbWide(code[i]) then 2 else 4
  }

  /** The instruction at half word `i` may not be moved; a wide one needs its second half word. */
  predicate Fixed(code: seq<int>, i: nat, thumb: bool)
    requires i + 1 < |code| && AllHalves(code)
  {
    if thumb then ThumbPcRelative(code[i], code[i + 1], ThumbWide(code[i]))
    else ArmPcRelative(code[i] + 0x1_0000 * code[i + 1])
  }

  /** `n` bytes from the start is where some instruction ends, and none of the instructions up to it is fixed. */
  predicate Whole(code: seq<int>, n: nat, thumb: bool)
    requires AllHalves(code)
    decreases n
  {
    n == 0
    || exists m: nat :: m < n && Ends(code, m, n, thumb) && Whole(code, m, thumb)
  }

  /** A movable instruction takes the bytes from `m` to `n`. */
  predicate Ends(code: seq<int>, m: nat, n: nat, thumb: bool)
    requires AllHalves(code)
  {
    && m < n && m % 2 == 0 && m / 2 + 1 < |code|
    && n == m + Size(code, m / 2, thumb) && !Fixed(code, m / 2, thumb)
  }

  lemma WholeStep(code: seq<int>, m: nat, n: nat, thumb: bool)
    requires AllHalves(code) && Whole(code, m, thumb) && Ends(code, m, n, thumb)
    ensures Whole(code, n, thumb)
  {
  }

  /** An instruction that starts before `minimum` may not be moved. */
  predicate Blocked(code: seq<int>, minimum: nat, thumb: bool)
    requires AllHalves(code)
  {
    exists m: nat :: m < minimum && FixedAt(code, m, thumb) && Whole(code, m, thumb)
  }

  predicate FixedAt(code: seq<int>, m: nat, thumb: bool)
    requires AllHalves(code)
  {
    m % 2 == 0 && m / 2 + 1 < |code| && Fixed(code, m / 2, thumb)
  }

  /** Instruction boundaries do not overlap: of two, the instruction at the first is movable and ends by the second. */
  lemma {:induction false} BoundariesInLine(code: seq<int>, x: nat, y: nat, thumb: bool)
    requires AllHalves(code) && Whole(code, x, thumb) && Whole(code, y, thumb) && x < y
    ensures x % 2 == 0 && x / 2 + 1 < |code| && x + Size(code, x / 2, thumb) <= y && !Fixed(code, x / 2, thumb)
    decreases x + y
  {
    var p: nat :| p < y && Ends(code, p, y, thumb) && Whole(code, p, thumb);
    if p > x {
      BoundariesInLine(code, x, p, thumb);
    } else if p < x {
      BoundariesInLine(code, p, x, thumb);
    }
  }

  /** If whole movable instructions cover the room asked for, nothing before it is fixed. */
  lemma {:induction false} WholeNotBlocked(code: seq<int>, bytes: nat, minimum: nat, thumb: bool)
    requires AllHalves(code) && minimum <= bytes && Whole(code, bytes, thumb)
    ensures !Blocked(code, minimum, thumb)
  {
    forall m: nat | m < minimum && FixedAt(code, m, thumb) && Whole(code, m, thumb) ensures false {
      BoundariesInLine(code, m, bytes, thumb);
    }
  }

  /** Only the last copied instruction reaches past the room asked for. */
  predicate Tight(code: seq<int>, bytes: nat, minimum: nat, thumb: bool)
    requires AllHalves(code)
  {
    exists m: nat :: m < minimum && Ends(code, m, bytes, thumb) && Whole(code, m, thumb)
  }

  /** Copies whole instructions until there is room for the patch: the fewest that give the room asked for, at most
      12 bytes; and 0 exactly if one that starts in that room is fixed. */
  method CopySize(code: seq<int>, thumb: bool, minimum: nat) returns (bytes: nat)
    requires AllHalves(code) && |code| >= 7 && (minimum == 4 || minimum == 8 || (thumb && minimum == 10))
    ensures bytes != 0 ==> minimum <= bytes <= 12 && Aligned(bytes, thumb) && Whole(code, bytes, thumb)
    ensures bytes != 0 ==> Tight(code, bytes, minimum, thumb)
    ensures bytes == 0 <==> Blocked(code, minimum, thumb)
  {
    if thumb { bytes := CopyThumb(code, minimum); } else { bytes := CopyArm(code, minimum); }
    if bytes != 0 { WholeNotBlocked(code, bytes, minimum, thumb); }
  }

  method CopyArm(code: seq<int>, minimum: nat) returns (bytes: nat)
    requires AllHalves(code) && |code| >= 7 && (minimum == 4 || minimum == 8)
    ensures bytes != 0 ==> bytes == minimum && Whole(code, bytes, false) && Tight(code, bytes, minimum, false)
    ensures bytes == 0 ==> Blocked(code, minimum, false)
  {
    var needed := (minimum + 3) / 4;
    var i := 0;
    while i < needed
      invariant 0 <= i <= needed && Whole(code, 4 * i, false)
      invariant i > 0 ==> Tight(code, 4 * i, minimum, false)
    {
      ghost var m := 4 * i;
      assert m / 2 == 2 * i;
      if Fixed(code, 2 * i, false) {
        assert FixedAt(code, m, false);
        return 0;
      }
      WholeStep(code, m, m + 4, false);
      assert Ends(code, m, m + 4, false) && Tight(code, m + 4, minimum, false);
      i := i + 1;
    }
    return needed * 4;
  }

  method CopyThumb(code: seq<int>, minimum: nat) returns (bytes: nat)
    requires AllHalves(code) && |code| >= 7 && minimum <= 10
    ensures bytes != 0 || minimum == 0 ==> minimum <= bytes <= 12 && Aligned(bytes, true) && Whole(code, bytes, true)
    ensures bytes != 0 ==> Tight(code, bytes, minimum, true)
    ensures bytes == 0 && minimum > 0 ==> Blocked(code, minimum, true)
  {
    bytes := 0;
    ghost var halves: nat := 0;
    while bytes < minimum
      invariant bytes == 2 * halves && halves <= 6 && Whole(code, bytes, true)
      invariant bytes > 0 ==> Tight(code, bytes, minimum, true)
    {
      var size := Size(code, bytes / 2, true);
      assert bytes / 2 == halves && (size == 2 || size == 4);
      if bytes + size > 12 || Fixed(code, bytes / 2, true) {
        assert FixedAt(code, bytes, true);
        return 0;
      }
      WholeStep(code, bytes, bytes + size, true);
      assert Ends(code, bytes, bytes + size, true) && Tight(code, bytes + size, minimum, true);
      halves := halves + (if size == 2 then 1 else 2);
      bytes := bytes + size;
    }
    EvenHalves(bytes, halves);
  }

  lemma EvenHalves(bytes: nat, halves: nat)
    requires bytes == 2 * halves
    ensures Aligned(bytes, true)
  {
  }

  // ------------------------------------------------------ install and remove

  function Splice(code: seq<int>, at: nat, h: seq<int>): (r: seq<int>)
    requires at + |h| <= |code|
    ensures |r| == |code|
  {
    seq(|code|, i requires 0 <= i < |code| => if at <= i < at + |h| then h[i - at] else code[i])
  }

  /** Writing back what was there undoes a patch no longer than what was saved. */
  lemma SpliceBack(code: seq<int>, at: nat, h: seq<int>, saved: seq<int>)
    requires at + |saved| <= |code| && |h| <= |saved| && saved == code[at..at + |saved|]
    ensures Splice(Splice(code, at, h), at, saved[..|h|]) == code
  {
  }

  /** Half words of a relative jump. */
  function RelativeJump(from: nat, to: nat, thumb: bool): (h: seq<int>)
    ensures |h| == 2
  {
    if thumb then [EncodeT4(from, to).0, EncodeT4(from, to).1]
    else [EncodeArm(from, to) % 0x1_0000, EncodeArm(from, to) / 0x1_0000]
  }

  /** Code `h` at address `from` transfers control to `to` in the same instruction set. */
  predicate JumpsTo(from: nat, h: seq<int>, to: nat, thumb: bool) {
    && |h| >= 2
    && (|| (thumb && AllHalves(h) && IsT4((h[0], h[1])) && DecodeT4(from, (h[0], h[1])) == to)
        || (!thumb && AllHalves(h) && (h[0] + 0x1_0000 * h[1]) / 0x100_0000 == 0xea
            && DecodeArm(from, h[0] + 0x1_0000 * h[1]) == to)
        || LoadsPc(from, h, to, thumb))
  }

  /** A load of the program counter from a literal in `h`; a Thumb destination has its lowest bit set. */
  predicate LoadsPc(from: nat, h: seq<int>, to: nat, thumb: bool)
    requires |h| >= 2
  {
    var i := (LoadedFrom(from, h, thumb) - from) / 2;
    && IsLoadPc(h, thumb) && 2 <= i < |h| - 1 && LoadedFrom(from, h, thumb) == from + 2 * i
    && h[i] + 0x1_0000 * h[i + 1] == to + ThumbBit(thumb)
  }

  lemma RelativeJumps(from: nat, to: nat, thumb: bool)
    requires Reachable(from, to, thumb)
    ensures JumpsTo(from, RelativeJump(from, to, thumb), to, thumb)
  {
    if thumb {
      T4RoundTrip(from, to);
      T4Halves(from, to);
    } else {
      ArmRoundTrip(from, to);
      ArmHalves(EncodeArm(from, to));
    }
  }

  lemma T4Halves(from: nat, to: nat)
    ensures IsHalf(EncodeT4(from, to).0) && IsHalf(EncodeT4(from, to).1)
  {
  }

  lemma ArmHalves(w: nat)
    requires w / 0x100_0000 == 0xea
    ensures IsHalf(w % 0x1_0000) && IsHalf(w / 0x1_0000) && w % 0x1_0000 + 0x1_0000 * (w / 0x1_0000) == w
  {
  }

  lemma AbsoluteJumps(from: nat, to: nat, thumb: bool)
    requires Aligned(from, thumb) && to + 1 < TWO_32
    ensures JumpsTo(from, AbsoluteJump(from, to + ThumbBit(thumb), thumb), to, thumb)
  {
    AbsoluteJumpLands(from, to + ThumbBit(thumb), thumb);
  }

  datatype Option<T> = None | Some(value: T)

  /** The lowest bit of an address that is called in Thumb state. */
  function ThumbBit(thumb: bool): nat { if thumb then 1 else 0 }

  /** A page the system can give: page-aligned and below the end of the address space. */
  predicate PageOk(page: nat) { page % 0x1000 == 0 && page + 0x1000 < TWO_32 }

  /** The jump written over the function. */
  function Patch(from: nat, page: nat, relative: bool, thumb: bool): seq<int> {
    if relative then RelativeJump(from, page, thumb)
    else AbsoluteJump(from, page + ThumbBit(thumb), thumb)
  }

  function PatchSize(from: nat, relative: bool, thumb: bool): nat {
    if relative then 4 else AbsoluteJumpSize(from, thumb)
  }

  lemma PatchJumps(from: nat, page: nat, relative: bool, thumb: bool)
    requires Aligned(from, thumb) && PageOk(page) && (relative ==> Reachable(from, page, thumb))
    ensures var h := Patch(from, page, relative, thumb);
            2 * |h| == PatchSize(from, relative, thumb) && AllHalves(h) && JumpsTo(from, h, page, thumb)
  {
    if relative {
      RelativeJumps(from, page, thumb);
      if thumb { T4Halves(from, page); } else { ArmRoundTrip(from, page); ArmHalves(EncodeArm(from, page)); }
    } else {
      AbsoluteJumps(from, page, thumb);
      AbsoluteHalves(from, page + ThumbBit(thumb), thumb);
    }
  }

  lemma PatchFits(from: nat, copied: nat, page: nat, relative: bool, thumb: bool)
    requires PatchSize(from, relative, thumb) <= copied && 2 * (copied / 2) == copied
    requires Aligned(from, thumb) && PageOk(page) && (relative ==> Reachable(from, page, thumb))
    ensures |Patch(from, page, relative, thumb)| <= copied / 2 && AllHalves(Patch(from, page, relative, thumb))
  {
    PatchJumps(from, page, relative, thumb);
  }

  lemma AbsoluteHalves(at: nat, to: nat, thumb: bool)
    ensures AllHalves(AbsoluteJump(at, to, thumb))
  {
  }

  /** Where the call-original code starts: after the capture stub, word aligned. */
  function CallOffset(stub: seq<int>): (o: nat)
    ensures o % 4 == 0 && o >= 2 * |stub|
  {
    (2 * |stub| + 3) / 4 * 4
  }

  /** The trampoline page's half words: stub, padding, moved instructions, jump back. */
  function Trampoline(stub: seq<int>, moved: seq<int>, back: seq<int>): seq<int> {
    (stub + seq(CallOffset(stub) / 2 - |stub|, _ => 0)) + (moved + back)
  }

  lemma TrampolineParts(stub: seq<int>, moved: seq<int>, back: seq<int>)
    ensures var t, o := Trampoline(stub, moved, back), CallOffset(stub) / 2;
            && |t| == o + |moved| + |back|
            && t[o..o + |moved|] == moved && t[o + |moved|..] == back
  {
    var front := stub + seq(CallOffset(stub) / 2 - |stub|, _ => 0);
    assert |front| == CallOffset(stub) / 2;
    assert (front + (moved + back))[|front|..] == moved + back;
  }

  /** The page and jump to use, and how many bytes to move. */
  datatype Plan = Plan(page: nat, relative: bool, copied: nat)

  /** The plan moves whole instructions, enough for its patch and at most 12 bytes. */
  predicate PlanOk(code: seq<int>, from: nat, thumb: bool, near: Option<nat>, far: Option<nat>, plan: Plan)
    requires AllHalves(code)
  {
    && (if plan.relative then near else far) == Some(plan.page)
    && PatchSize(from, plan.relative, thumb) <= plan.copied <= 12 && Aligned(plan.copied, thumb)
    && Whole(code, plan.copied, thumb)
  }

  /** Refuses when an instruction to be moved is fixed, or no page can be had. */
  method Choose(code: seq<int>, from: nat, thumb: bool, preferRelative: bool, near: Option<nat>, far: Option<nat>)
    returns (plan: Option<Plan>)
    requires AllHalves(code) && |code| >= 7
    ensures plan.Some? ==> PlanOk(code, from, thumb, near, far, plan.value)
    ensures plan.None? ==> far.None? || Blocked(code, AbsoluteJumpSize(from, thumb), thumb)
  {
    if preferRelative {
      var copied := CopySize(code, thumb, 4);
      if copied != 0 && near.Some? { return Some(Plan(near.value, true, copied)); }
    }
    var copied := CopySize(code, thumb, AbsoluteJumpSize(from, thumb));
    if copied == 0 || far.None? { return None; }
    return Some(Plan(far.value, false, copied));
  }

  /** At byte `offset` of the page stand the moved instructions, then a jump to `next`. */
  predicate Replays(page: nat, contents: seq<int>, offset: nat, moved: seq<int>, next: nat, thumb: bool) {
    && offset % 4 == 0 && offset / 2 + |moved| <= |contents|
    && contents[offset / 2..offset / 2 + |moved|] == moved
    && JumpsTo(page + offset + 2 * |moved|, contents[offset / 2 + |moved|..], next, thumb)
  }

  function BackJump(page: nat, stub: seq<int>, copied: nat, next: nat, thumb: bool): seq<int> {
    AbsoluteJump(page + CallOffset(stub) + copied, next + ThumbBit(thumb), thumb)
  }

  /** The page an installed hook uses: the moved prefix, then a jump to the instruction after it. */
  lemma TrampolineReplays(page: nat, stub: seq<int>, moved: seq<int>, next: nat, thumb: bool)
    requires PageOk(page) && Aligned(2 * |moved|, thumb) && next + 1 < TWO_32
    ensures var back := BackJump(page, stub, 2 * |moved|, next, thumb);
            Replays(page, Trampoline(stub, moved, back), CallOffset(stub), moved, next, thumb)
  {
    var back := BackJump(page, stub, 2 * |moved|, next, thumb);
    BackJumps(page, CallOffset(stub), 2 * |moved|, next, thumb);
    ReplaysBy(page, stub, moved, back, next, thumb);
  }

  lemma ReplaysBy(page: nat, stub: seq<int>, moved: seq<int>, back: seq<int>, next: nat, thumb: bool)
    requires JumpsTo(page + CallOffset(stub) + 2 * |moved|, back, next, thumb)
    ensures Replays(page, Trampoline(stub, moved, back), CallOffset(stub), moved, next, thumb)
  {
    TrampolineParts(stub, moved, back);
  }

  lemma BackJumps(page: nat, offset: nat, copied: nat, next: nat, thumb: bool)
    requires PageOk(page) && offset % 4 == 0 && Aligned(copied, thumb) && next + 1 < TWO_32
    ensures var at := page + offset + copied;
            JumpsTo(at, AbsoluteJump(at, next + ThumbBit(thumb), thumb), next, thumb)
  {
    BackAligned(page, offset, copied, thumb);
    AbsoluteJumps(page + offset + copied, next, thumb);
  }

  lemma BackAligned(page: nat, offset: nat, copied: nat, thumb: bool)
    requires page % 0x1000 == 0 && offset % 4 == 0 && Aligned(copied, thumb)
    ensures Aligned(page + offset + copied, thumb)
  {
    assert page == 4 * (page / 0x1000 * 0x400) && offset == 4 * (offset / 4);
    if thumb {
      TwoTimes(page + offset + copied, 2 * (page / 0x1000 * 0x400) + 2 * (offset / 4) + copied / 2);
    } else {
      FourTimes(page + offset + copied, page / 0x1000 * 0x400 + offset / 4 + copied / 4);
    }
  }

  /** A process's code from address `base` on, its trampoline pages, and one hook. */
  class Process {
    const base: nat
    var code: seq<int>
    var pages: map<nat, seq<int>>
    var active: bool
    var target: nat
    var saved: seq<int>
    var patched: nat
    var trampoline: nat

    ghost predicate Valid()
      reads this
    {
      && AllHalves(code) && AllHalves(saved) && base + 2 * |code| < TWO_32
      && (active ==> target + |saved| <= |code| && patched <= |saved| <= 6)
    }

    constructor (base: nat, code: seq<int>)
      requires AllHalves(code) && base + 2 * |code| < TWO_32
      ensures Valid() && !active && this.base == base && this.code == code && pages == map[]
    {
      this.base, this.code, pages := base, code, map[];
      active, target, saved, patched, trampoline := false, 0, [], 0, 0;
    }

    /** Hooks the function at half word `at`. `near` and `far` are the pages the two allocations would give,
        `stub` the capture code, `protects` and `writes` whether the system calls succeed. */
    method Install(at: nat, thumb: bool, preferRelative: bool, near: Option<nat>, far: Option<nat>,
                   stub: seq<int>, protects: bool, writes: bool) returns (callOriginal: Option<nat>, ghost plan: Plan)
      requires Valid() && !active && at + 7 <= |code| && Aligned(base + 2 * at, thumb)
      requires near.Some? ==> Reachable(base + 2 * at, near.value, thumb) && PageOk(near.value)
      requires far.Some? ==> PageOk(far.value)
      modifies this
      ensures Valid()
      ensures callOriginal.None? ==> !active && code == old(code) && pages == old(pages)
      ensures callOriginal.None? ==>
                || !protects || !writes || far.None? || CallOffset(stub) + 22 > PAGE
                || Blocked(old(code)[at..], AbsoluteJumpSize(base + 2 * at, thumb), thumb)
      ensures callOriginal.Some? ==>
                && PlanOk(old(code)[at..], base + 2 * at, thumb, near, far, plan)
                && active && target == at && trampoline == plan.page
                && 2 * |saved| == plan.copied && saved == old(code)[at..at + |saved|]
                && var h := Patch(base + 2 * at, plan.page, plan.relative, thumb);
                && patched == |h| <= |saved| && code == Splice(old(code), at, h)
                && callOriginal.value == plan.page + CallOffset(stub) + ThumbBit(thumb)
                && var back := BackJump(plan.page, stub, plan.copied, base + 2 * at + plan.copied, thumb);
                && pages == old(pages)[plan.page := Trampoline(stub, saved, back)]
    {
      plan := Plan(0, false, 0);
      callOriginal := None;
      var from, offset := base + 2 * at, CallOffset(stub);
      var chosen := Choose(code[at..], from, thumb, preferRelative, near, far);
      if chosen.None? || offset + chosen.value.copied + 10 > PAGE || !protects || !writes { return; }
      plan := chosen.value;
      var p, copied := chosen.value.page, chosen.value.copied;
      TwoTimesHalf(copied, thumb);
      PatchFits(from, copied, p, chosen.value.relative, thumb);
      var back := BackJump(p, stub, copied, from + copied, thumb);
      var contents := Trampoline(stub, code[at..at + copied / 2], back);
      Commit(at, Patch(from, p, chosen.value.relative, thumb), copied / 2, p, contents);
      return Some(p + offset + ThumbBit(thumb)), plan;
    }

    method Commit(at: nat, h: seq<int>, n: nat, page: nat, contents: seq<int>)
      requires Valid() && at + n <= |code| && |h| <= n <= 6 && AllHalves(h)
      modifies this
      ensures Valid() && active && target == at && trampoline == page && patched == |h|
      ensures saved == old(code)[at..at + n] && code == Splice(old(code), at, h)
      ensures pages == old(pages)[page := contents]
    {
      active, target, saved, patched, trampoline := true, at, code[at..at + n], |h|, page;
      Put(at, h);
      pages := pages[page := contents];
    }

    method Put(at: nat, h: seq<int>)
      requires at + |h| <= |code| && AllHalves(code) && AllHalves(h)
      modifies this`code
      ensures code == Splice(old(code), at, h) && AllHalves(code)
    {
      SpliceHalves(code, at, h);
      code := Splice(code, at, h);
    }

    /** Removing the hook writes the saved half words back over the patch. */
    method Uninstall(writes: bool) returns (ok: bool)
      requires Valid()
      modifies this
      ensures Valid() && ok == (!old(active) || writes)
      ensures !ok ==> active == old(active) && code == old(code) && pages == old(pages)
      ensures !old(active) ==> code == old(code) && pages == old(pages)
      ensures old(active) && ok ==>
                !active && code == Splice(old(code), old(target), old(saved)[..old(patched)])
                && pages == old(pages) - {old(trampoline)}
    {
      if !active { return true; }
      if !writes { return false; }
      Put(target, saved[..patched]);
      pages := pages - {trampoline};
      patched, active := 0, false;
      return true;
    }
  }

  lemma TwoTimesHalf(copied: nat, thumb: bool)
    requires Aligned(copied, thumb)
    ensures 2 * (copied / 2) == copied
  {
    if !thumb { FourTimes(copied, copied / 4); TwoTimes(copied, 2 * (copied / 4)); }
  }

  lemma SpliceHalves(code: seq<int>, at: nat, h: seq<int>)
    requires at + |h| <= |code| && AllHalves(code) && AllHalves(h)
    ensures AllHalves(Splice(code, at, h))
  {
  }

  /** What an installed hook's patch does: it is no longer than the moved prefix, which is whole movable
      instructions of at most 12 bytes, and it jumps to the page. */
  lemma PatchWorks(code: seq<int>, from: nat, thumb: bool, near: Option<nat>, far: Option<nat>, plan: Plan)
    requires AllHalves(code) && Aligned(from, thumb) && PlanOk(code, from, thumb, near, far, plan)
    requires near.Some? ==> Reachable(from, near.value, thumb) && PageOk(near.value)
    requires far.Some? ==> PageOk(far.value)
    ensures var h := Patch(from, plan.page, plan.relative, thumb);
            2 * |h| <= plan.copied <= 12 && JumpsTo(from, h, plan.page, thumb)
    ensures Whole(code, plan.copied, thumb)
  {
    PatchJumps(from, plan.page, plan.relative, thumb);
  }

  /** Hooking a function and removing the hook leaves every half word of the code as it was. */
  method InstallAndRemove(p: Process, at: nat, thumb: bool, preferRelative: bool, near: Option<nat>, far: Option<nat>,
                          stub: seq<int>, protects: bool, writes: bool)
    requires p.Valid() && !p.active && at + 7 <= |p.code| && Aligned(p.base + 2 * at, thumb)
    requires near.Some? ==> Reachable(p.base + 2 * at, near.value, thumb) && PageOk(near.value)
    requires far.Some? ==> PageOk(far.value)
    modifies p
    ensures p.code == old(p.code) && !p.active
  {
    ghost var code := p.code;
    var original, plan := p.Install(at, thumb, preferRelative, near, far, stub, protects, writes);
    if original.Some? {
      SpliceBack(code, at, Patch(p.base + 2 * at, plan.page, plan.relative, thumb), p.saved);
      var ok := p.Uninstall(true);
    }
  }
}
