/**
 Which instructions the hooks take for dependent on their own address, against the architecture's lists: ARM state,
 where some are missed, and A64, where none is.
 */
module ArmForms {

  import opened Bits
  import InlineHook

  // ------------------------------------------------------------- ARM fields

  predicate Bit(w: nat, d: nat)
    requires d > 0
  {
    w / d % 2 == 1
  }

  function Condition(w: nat): nat { w / 0x1000_0000 }
  function Group(w: nat): nat { w / 0x200_0000 % 8 }
  function Operation(w: nat): nat { w / 0x10_0000 % 32 }
  function Base(w: nat): nat { w / 0x1_0000 % 16 }
  function Target(w: nat): nat { w / 0x1000 % 16 }
  function Operand(w: nat): nat { w % 16 }

  /** All bits of a branch to a register except its condition and the register. */
  function Middle(w: nat): nat { w / 16 % 0x100_0000 }

  lemma BranchGroup(w: nat)
    ensures And(w, 0x0e00_0000) == 0x0a00_0000 <==> Group(w) == 5
  {
    Powers();
    FieldBy(w, 25, 0x200_0000, 3, 8, 5, 0x0e00_0000, 0x0a00_0000);
  }

  lemma HalfGroup(w: nat, value: nat, bits: nat)
    requires bits == value * 0x400_0000
    ensures And(w, 0x0c00_0000) == bits <==> w / 0x400_0000 % 4 == value
  {
    Powers();
    FieldBy(w, 26, 0x400_0000, 2, 4, value, 0x0c00_0000, bits);
  }

  lemma GroupHalved(w: nat)
    ensures Group(w) / 2 == w / 0x400_0000 % 4
  {
    var q := w / 0x200_0000;
    DivUnique(w, 0x400_0000, q / 2, 0x200_0000 * (q % 2) + w % 0x200_0000);
    EighthHalved(q);
  }

  lemma EighthHalved(q: nat)
    ensures q % 8 / 2 == q / 2 % 4
  {
  }

  lemma ToRegister(w: nat, value: nat, bits: nat)
    requires bits == value * 16
    ensures And(w, 0x0fff_fff0) == bits <==> Middle(w) == value
  {
    Powers();
    FieldBy(w, 4, 16, 24, 0x100_0000, value, 0x0fff_fff0, bits);
  }

  /** What is recognised: branches, and whatever has the program counter in the base field outside the group of
      multiple transfers; a branch to a register is exempt. */
  lemma ArmPcRelativeIff(w: nat)
    ensures InlineHook.ArmPcRelative(w)
            <==> && Middle(w) != 0x12_fff1 && Middle(w) != 0x12_fff3
                 && (Group(w) == 5 || (Base(w) == 15 && Group(w) != 4))
  {
    ToRegister(w, 0x12_fff1, 0x012f_ff10);
    ToRegister(w, 0x12_fff3, 0x012f_ff30);
    BranchGroup(w);
    HalfGroup(w, 0, 0);
    HalfGroup(w, 1, 0x0400_0000);
    HalfGroup(w, 3, 0x0c00_0000);
    GroupHalved(w);
  }

  // -------------------------------------------------------------- ARM forms

  /** The ARM instructions that read the program counter (ARMv7-A manual, chapters A5 and A8). */
  datatype ArmForm =
    | Branch                                   // B, BL, BLX to a label
    | FirstOperand | SecondOperand             // data processing, with the program counter as operand
    | Literal | ShortLiteral | CoprocessorLiteral  // transfers with the program counter as base
    | StoredPc | StoredAmong                   // STR and STM of the program counter
    | ExchangePc                               // BX PC

  /** Data processing on an immediate or a register shifted by an immediate. The four comparisons without their flag
      bit are other instructions. */
  predicate DataProcessing(w: nat) {
    && Condition(w) < 15 && (Group(w) == 1 || (Group(w) == 0 && !Bit(w, 16)))
    && Operation(w) !in {0x10, 0x12, 0x14, 0x16}
  }

  /** Loads and stores of a word or byte; with both bits set it is a media instruction. */
  predicate SingleTransfer(w: nat) { Group(w) == 2 || (Group(w) == 3 && !Bit(w, 16)) }

  /** Offset from the base without writing it back. */
  predicate PlainOffset(w: nat) { Bit(w, 0x100_0000) && !Bit(w, 0x20_0000) }

  predicate HasForm(form: ArmForm, w: nat) {
    match form
    case Branch => Group(w) == 5
    case FirstOperand => DataProcessing(w) && Base(w) == 15 && Operation(w) / 2 !in {13, 15}  // not MOV, MVN
    case SecondOperand => DataProcessing(w) && Group(w) == 0 && Operand(w) == 15
    case Literal => SingleTransfer(w) && Base(w) == 15 && PlainOffset(w)
    case ShortLiteral =>                       // LDRH, LDRSB, LDRSH, LDRD, STRH, STRD
      && Group(w) == 0 && Bit(w, 0x80) && Bit(w, 0x10) && w / 32 % 4 != 0
      && Base(w) == 15 && PlainOffset(w)
    case CoprocessorLiteral =>                 // VLDR, VSTR, LDC, STC; without index as well
      && Group(w) == 6 && Base(w) == 15 && !Bit(w, 0x20_0000)
      && (Bit(w, 0x100_0000) || Bit(w, 0x80_0000))
    case StoredPc =>
      && Condition(w) < 15 && SingleTransfer(w) && !Bit(w, 0x10_0000) && !Bit(w, 0x40_0000)
      && Target(w) == 15
    case StoredAmong => Condition(w) < 15 && Group(w) == 4 && !Bit(w, 0x10_0000) && Bit(w, 0x8000)
    case ExchangePc => Condition(w) < 15 && Middle(w) == 0x12_fff1 && Operand(w) == 15
  }

  lemma RegisterBranchFields(w: nat)
    requires Middle(w) == 0x12_fff1 || Middle(w) == 0x12_fff3
    ensures Group(w) == 0 && Operation(w) == 0x12 && !Bit(w, 0x80)
  {
    var q := w / 16;
    var c, r := q / 0x100_0000, 16 * (q % 0x100_0000 - 0x12_fff0) + w % 16;
    HighFields(w, c, 0, 0x12, 0xf_ff00 + r);
    DivUnique(w, 0x80, 0x20_0000 * c + 0x2_5ffe, r);
    DivUnique(w / 0x80, 2, 0x10_0000 * c + 0x1_2fff, 0);
  }

  lemma HighFields(w: nat, c: nat, g: nat, o: nat, r: nat)
    requires w == 0x1000_0000 * c + 0x200_0000 * g + 0x10_0000 * o + r && g < 8 && o < 32 && r < 0x10_0000
    ensures Condition(w) == c && Group(w) == g && Operation(w) == o
  {
    DivUnique(w, 0x1000_0000, c, 0x200_0000 * g + 0x10_0000 * o + r);
    DivUnique(w, 0x200_0000, 8 * c + g, 0x10_0000 * o + r);
    DivUnique(8 * c + g, 8, c, g);
    DivUnique(w, 0x10_0000, 256 * c + 32 * g + o, r);
    DivUnique(256 * c + 32 * g + o, 32, 8 * c + g, o);
  }

  /** Of the forms that must not be moved, branches and those with the program counter in the base field are recognised.
      One that reads it only as second operand or only to store it counts as movable, and so do multiple stores and
      BX PC. */
  lemma ArmFormsMissed(form: ArmForm, w: nat)
    requires HasForm(form, w)
    ensures InlineHook.ArmPcRelative(w)
            <==> || form in {Branch, FirstOperand, Literal, ShortLiteral, CoprocessorLiteral}
                 || (form in {SecondOperand, StoredPc} && Base(w) == 15)
  {
    ArmPcRelativeIff(w);
    if Middle(w) == 0x12_fff1 || Middle(w) == 0x12_fff3 { RegisterBranchFields(w); }
  }

  /** MOV of the program counter into any register, under any condition, counts as movable. */
  lemma MovePcMissed(c: nat, d: nat, w: nat)
    requires c < 15 && d < 16 && w == 0x1000_0000 * c + 0x1a0_000f + 0x1000 * d
    ensures HasForm(SecondOperand, w) && !InlineHook.ArmPcRelative(w)
  {
    HighFields(w, c, 0, 0x1a, 0xf + 0x1000 * d);
    DivUnique(w, 16, 0x100_0000 * c + 0x1a_0000 + 0x100 * d, 15);
    DivUnique(w / 16, 2, 0x80_0000 * c + 0xd_0000 + 0x80 * d, 0);
    DivUnique(w, 0x1_0000, 0x1000 * c + 0x1a0, 0xf + 0x1000 * d);
    DivUnique(w / 0x1_0000, 16, 0x100 * c + 0x1a, 0);
    ArmFormsMissed(SecondOperand, w);
  }

  // -------------------------------------------------------------------- A64

  predicate A64PcRelative(w: nat) {
    || And(w, 0x1f00_0000) == 0x1000_0000 || And(w, 0x7c00_0000) == 0x1400_0000
    || And(w, 0xff00_0010) == 0x5400_0000 || And(w, 0x7e00_0000) == 0x3400_0000
    || And(w, 0x7e00_0000) == 0x3600_0000 || And(w, 0x3b00_0000) == 0x1800_0000
  }

  /** The A64 instructions that read the program counter as an operand (Armv8-A manual, sections C4.1 and C6.2). */
  datatype A64Form = Address | Jump | ConditionalJump | CompareJump | TestJump | LiteralLoad

  predicate HasA64Form(form: A64Form, w: nat) {
    match form
    case Address => w / 0x100_0000 % 32 == 0x10             // ADR, ADRP
    case Jump => w / 0x400_0000 % 32 == 5                   // B, BL
    case ConditionalJump => w / 0x100_0000 == 0x54 && !Bit(w, 16)  // B.cond
    case CompareJump => w / 0x200_0000 % 64 == 0x1a         // CBZ, CBNZ
    case TestJump => w / 0x200_0000 % 64 == 0x1b            // TBZ, TBNZ
    case LiteralLoad => w / 0x800_0000 % 8 == 3 && w / 0x100_0000 % 4 == 0  // LDR, LDRSW, PRFM
  }

  lemma AddressMask(w: nat)
    ensures And(w, 0x1f00_0000) == 0x1000_0000 <==> HasA64Form(Address, w)
  {
    Powers();
    FieldBy(w, 24, 0x100_0000, 5, 32, 16, 0x1f00_0000, 0x1000_0000);
  }

  lemma JumpMask(w: nat)
    ensures And(w, 0x7c00_0000) == 0x1400_0000 <==> HasA64Form(Jump, w)
  {
    Powers();
    FieldBy(w, 26, 0x400_0000, 5, 32, 5, 0x7c00_0000, 0x1400_0000);
  }

  lemma CompareMask(w: nat, value: nat, bits: nat)
    requires bits == value * 0x200_0000
    ensures And(w, 0x7e00_0000) == bits <==> w / 0x200_0000 % 64 == value
  {
    Powers();
    FieldBy(w, 25, 0x200_0000, 6, 64, value, 0x7e00_0000, bits);
  }

  lemma ConditionalMask(w: nat)
    requires w < 0x1_0000_0000
    ensures And(w, 0xff00_0010) == 0x5400_0000 <==> HasA64Form(ConditionalJump, w)
  {
    Powers();
    ScaledMask(w, 4, 16, 0xff0_0001, 0x540_0000, w / 16);
    OddMask(w / 16, 0x7f8_0000, 0x2a0_0000);
    var u := w / 16 / 2;
    assert u / 0x8_0000 == w / 0x100_0000 < 256;
    TopFieldBy(u, 19, 0x8_0000, 8, 256, 0x54, 0x7f8_0000, 0x2a0_0000, u / 0x8_0000);
  }

  lemma LiteralMask(w: nat)
    ensures And(w, 0x3b00_0000) == 0x1800_0000 <==> HasA64Form(LiteralLoad, w)
  {
    Powers();
    var x := w / 0x100_0000;
    ScaledMask(w, 24, 0x100_0000, 0x3b, 0x18, x);
    OddMask(x, 0x1d, 0xc);
    OddMask(x / 2, 0xe, 6);
    FieldBy(x / 2 / 2, 1, 2, 3, 8, 3, 0xe, 6);
    LiteralFields(w, x);
  }

  lemma LiteralFields(w: nat, x: nat)
    requires x == w / 0x100_0000
    ensures x / 2 / 2 / 2 == w / 0x800_0000
    ensures x % 4 == 0 <==> x % 2 == 0 && x / 2 % 2 == 0
  {
  }

  /** In A64 exactly the instructions that read the program counter as an operand are recognised. */
  lemma A64FormsExact(w: nat)
    requires w < 0x1_0000_0000
    ensures A64PcRelative(w) <==> exists form :: HasA64Form(form, w)
  {
    AddressMask(w);
    JumpMask(w);
    ConditionalMask(w);
    CompareMask(w, 0x1a, 0x3400_0000);
    CompareMask(w, 0x1b, 0x3600_0000);
    LiteralMask(w);
    assert HasA64Form(CompareJump, w) <==> w / 0x200_0000 % 64 == 0x1a;
    assert HasA64Form(TestJump, w) <==> w / 0x200_0000 % 64 == 0x1b;
  }
}
