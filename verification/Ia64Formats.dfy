/** The immediate operands of IA-64 instructions, include/ia64_formats.h. */
module Ia64Formats {

  import opened Words

  function ExtractBits(instruction: uint64, start: nat, length: nat): uint64
    requires start < 64 && length < 64
  {
    var mask := Wrap(ShiftLeft(1, length) - 1);
    AndAtMost(ShiftRight(instruction, start), mask);
    And(ShiftRight(instruction, start), mask)
  }

  /** static_cast<int64_t>. */
  function Signed(w: uint64): int {
    if w < TWO_TO_THE_64 / 2 then w else w - TWO_TO_THE_64
  }

  function SignExtend(value: uint64, bits: nat): int
    requires 1 <= bits < 64
  {
    var signBit := ShiftLeft(1, bits - 1);
    if And(value, signBit) != 0 then
      var mask := Not(Wrap(ShiftLeft(1, bits) - 1));
      OrIsWord(value, mask);
      Signed(Or(value, mask))
    else
      Signed(value)
  }

  function ExtractImm22(instruction: uint64): int {
    var s := ExtractBits(instruction, 36, 1);
    var imm5c := ExtractBits(instruction, 22, 5);
    var imm9d := ExtractBits(instruction, 27, 9);
    var imm7b := ExtractBits(instruction, 13, 7);
    OrIsWord(ShiftLeft(s, 21), ShiftLeft(imm5c, 16));
    OrIsWord(Or(ShiftLeft(s, 21), ShiftLeft(imm5c, 16)), ShiftLeft(imm9d, 7));
    OrIsWord(Or(Or(ShiftLeft(s, 21), ShiftLeft(imm5c, 16)), ShiftLeft(imm9d, 7)), imm7b);
    var encoded := Or(Or(Or(ShiftLeft(s, 21), ShiftLeft(imm5c, 16)), ShiftLeft(imm9d, 7)), imm7b);
    SignExtend(encoded, 22)
  }

  // ---------- fields and sign extension as arithmetic ----------

  lemma ShiftOne(n: nat)
    requires n < 64
    ensures ShiftLeft(1, n) == Pow2(n)
  {
    PowersAreWords(n);
    NoWrap(Pow2(n));
  }

  lemma FieldIsDigits(instruction: uint64, start: nat, length: nat)
    requires start < 64 && length < 64
    ensures ExtractBits(instruction, start, length) == instruction / Pow2(start) % Pow2(length)
  {
    ShiftOne(length);
    NoWrap(Pow2(length) - 1);
    AndLowMask(ShiftRight(instruction, start), length);
  }

  lemma SignExtendIs(value: uint64, bits: nat)
    requires 1 <= bits < 64
    ensures SignExtend(value, bits) ==
            if value % Pow2(bits) >= Pow2(bits - 1) then value % Pow2(bits) - Pow2(bits) else Signed(value)
  {
    var p, h := Pow2(bits), Pow2(bits - 1);
    assert p == 2 * h;
    PowersAreWords(bits);
    ShiftOne(bits - 1);
    ShiftOne(bits);
    AndOneBit(value, bits - 1);
    TopBit(value, h);
    hide And;
    if And(value, h) != 0 {
      NoWrap(p - 1);
      Pow2Of64();
      OrHighMask(value, 64, bits);
      hide Or, Pow2, ShiftLeft, Wrap;
      assert Not(p - 1) == TWO_TO_THE_64 - p;
    }
  }

  predicate SignedRange(r: int, bits: nat)
    requires bits >= 1
  {
    r + Pow2(bits - 1) >= 0 && r < Pow2(bits - 1)
  }

  /** At most one number of a signed range is congruent to a value. */
  lemma CongruentIsUnique(value: int, h: nat, r: int, e: int)
    requires h > 0 && -(h as int) <= r < h && -(h as int) <= e < h
    requires (r - value) % (2 * h) == 0 && (e - value) % (2 * h) == 0
    ensures r == e
  {
    var d := 2 * h;
    var k := (r - value) / d - (e - value) / d;
    assert k * d == r - e by {
      assert r - value == (r - value) / d * d;
      assert e - value == (e - value) / d * d;
      assert k * d == (r - value) / d * d - (e - value) / d * d;
    }
    Scaled(k, d);
  }

  /** Sign extension gives the one number of that many bits in two's complement that is congruent to the value. */
  lemma SignExtendIsTheCongruent(value: uint64, bits: nat, r: int)
    requires 1 <= bits < 64 && value < Pow2(bits)
    ensures r == SignExtend(value, bits) <==> SignedRange(r, bits) && (r - value) % Pow2(bits) == 0
  {
    SignExtendIs(value, bits);
    PowersAreWords(bits);
    var p, h := Pow2(bits), Pow2(bits - 1);
    Pow2Step(bits);
    hide SignExtend, Pow2;
    DivisionIsUnique(value, p, 0, value);
    var extended := SignExtend(value, bits);
    assert extended == if value >= h then value - p else value;
    DivisionIsUnique(extended - value, p, if value >= h then -1 else 0, 0);
    assert SignedRange(extended, bits);
    if SignedRange(r, bits) && (r - value) % p == 0 {
      CongruentIsUnique(value, h, r, extended);
    }
  }

  /** Bits above the sign bit spoil the result exactly when the sign bit is clear. */
  lemma SignExtendIsInRange(value: uint64, bits: nat)
    requires 1 <= bits < 64
    ensures SignedRange(SignExtend(value, bits), bits) <==>
            value < Pow2(bits) || value % Pow2(bits) >= Pow2(bits - 1)
  {
    SignExtendIs(value, bits);
    PowersAreWords(bits);
    var p, h := Pow2(bits), Pow2(bits - 1);
    assert p == 2 * h;
    hide SignExtend, Pow2;
    if value < p {
      DivisionIsUnique(value, p, 0, value);
    } else if value >= TWO_TO_THE_64 - h {
      HighWordsEndHigh(value, bits);
    }
  }

  lemma HighWordsEndHigh(value: uint64, bits: nat)
    requires 1 <= bits < 64 && value >= TWO_TO_THE_64 - Pow2(bits - 1)
    ensures value % Pow2(bits) >= Pow2(bits - 1)
  {
    var p, q := Pow2(bits), Pow2(64 - bits);
    Pow2Of64();
    Pow2Adds(bits, 64 - bits);
    Pow2Step(bits);
    hide Pow2;
    LastMultiple(p, q);
    DivisionIsUnique(value, p, q - 1, value - (TWO_TO_THE_64 - p));
  }

  lemma LastMultiple(p: nat, q: nat)
    requires q > 0 && p * q == TWO_TO_THE_64
    ensures (q - 1) * p == TWO_TO_THE_64 - p
  {
  }

  // ---------- the dispersed immediate ----------

  /** The bits of an instruction around the immediate: below it, between imm7b and imm5c, and above it. */
  datatype Rest = Rest(low: nat, middle: nat, high: nat)

  predicate IsRest(r: Rest) {
    r.low < 0x2000 && r.middle < 4 && r.high < 0x800_0000
  }

  function RestOf(instruction: uint64): Rest {
    Rest(instruction % 0x2000, instruction / 0x10_0000 % 4, instruction / 0x20_0000_0000)
  }

  /** Format A5 of the Itanium instruction set: imm7b at 13, imm5c at 22, imm9d at 27 and the sign at 36. */
  function Place(s: nat, imm5c: nat, imm9d: nat, imm7b: nat, rest: Rest): nat {
    rest.low + imm7b * 0x2000 + rest.middle * 0x10_0000 + imm5c * 0x40_0000 + imm9d * 0x800_0000
    + s * 0x10_0000_0000 + rest.high * 0x20_0000_0000
  }

  /** The instruction that carries an immediate, cut into s, imm5c, imm9d and imm7b from the top down. */
  function Scatter(imm: int, rest: Rest): nat {
    var u := imm % 0x40_0000;
    Place(u / 0x20_0000, u / 0x1_0000 % 0x20, u / 0x80 % 0x200, u % 0x80, rest)
  }

  function Gather(s: nat, imm5c: nat, imm9d: nat, imm7b: nat): nat {
    s * 0x20_0000 + imm5c * 0x1_0000 + imm9d * 0x80 + imm7b
  }

  lemma Powers()
    ensures Pow2(1) == 2 && Pow2(5) == 0x20 && Pow2(7) == 0x80 && Pow2(9) == 0x200 && Pow2(13) == 0x2000
    ensures Pow2(16) == 0x1_0000 && Pow2(21) == 0x20_0000 && Pow2(22) == 0x40_0000 && Pow2(27) == 0x800_0000
    ensures Pow2(36) == 0x10_0000_0000
  {
    Pow2Adds(9, 7);
    Pow2Adds(7, 7);
    Pow2Adds(14, 7);
    Pow2Adds(13, 9);
    Pow2Adds(22, 5);
    Pow2Adds(27, 9);
    Pow2Adds(9, 4);
  }

  lemma FieldsJoin(s: uint64, imm5c: uint64, imm9d: uint64, imm7b: uint64)
    requires s < 2 && imm5c < 0x20 && imm9d < 0x200 && imm7b < 0x80
    ensures Or(Or(Or(ShiftLeft(s, 21), ShiftLeft(imm5c, 16)), ShiftLeft(imm9d, 7)), imm7b)
            == Gather(s, imm5c, imm9d, imm7b) < 0x40_0000
  {
    Powers();
    hide Pow2;
    hide Or, ShiftLeft;
    ShiftAt(s, 21, 0x20_0000);
    ShiftAt(imm5c, 16, 0x1_0000);
    ShiftAt(imm9d, 7, 0x80);
    OrAt(s, imm5c * 0x1_0000, 21, 0x20_0000);
    OrAt(s * 0x20 + imm5c, imm9d * 0x80, 16, 0x1_0000);
    OrAt((s * 0x20 + imm5c) * 0x200 + imm9d, imm7b, 7, 0x80);
  }

  lemma ShiftAt(a: uint64, n: nat, p: nat)
    requires p == Pow2(n) && a * p < TWO_TO_THE_64
    ensures ShiftLeft(a, n) == a * p
  {
    NoWrap(a * p);
  }

  /** The immediate in terms of the instruction's digits. */
  lemma ExtractImm22Is(instruction: uint64)
    ensures var encoded := Gather(instruction / 0x10_0000_0000 % 2, instruction / 0x40_0000 % 0x20,
                                  instruction / 0x800_0000 % 0x200, instruction / 0x2000 % 0x80);
            encoded < 0x40_0000 && ExtractImm22(instruction) == SignExtend(encoded, 22)
  {
    Powers();
    FieldIsDigits(instruction, 36, 1);
    FieldIsDigits(instruction, 22, 5);
    FieldIsDigits(instruction, 27, 9);
    FieldIsDigits(instruction, 13, 7);
    hide Pow2, ExtractBits, SignExtend;
    FieldsJoin(instruction / 0x10_0000_0000 % 2, instruction / 0x40_0000 % 0x20,
               instruction / 0x800_0000 % 0x200, instruction / 0x2000 % 0x80);
    hide Or, ShiftLeft, Gather;
  }

  /** The digits of fields placed side by side. */
  lemma FieldsPart(s: nat, imm5c: nat, imm9d: nat, imm7b: nat, rest: Rest)
    requires s < 2 && imm5c < 0x20 && imm9d < 0x200 && imm7b < 0x80 && IsRest(rest)
    ensures var i := Place(s, imm5c, imm9d, imm7b, rest);
            && i < TWO_TO_THE_64
            && i / 0x10_0000_0000 % 2 == s && i / 0x800_0000 % 0x200 == imm9d
            && i / 0x40_0000 % 0x20 == imm5c && i / 0x2000 % 0x80 == imm7b
  {
    var above36 := s + rest.high * 2;
    var above27 := imm9d + above36 * 0x200;
    var above22 := imm5c + above27 * 0x20;
    var above13 := imm7b + (rest.middle + above22 * 4) * 0x80;
    var i := rest.low + above13 * 0x2000;
    DivisionIsUnique(i, 0x2000, above13, rest.low);
    DivisionIsUnique(i, 0x40_0000, above22, rest.low + imm7b * 0x2000 + rest.middle * 0x10_0000);
    DivisionIsUnique(i, 0x800_0000, above27, i - above27 * 0x800_0000);
    DivisionIsUnique(i, 0x10_0000_0000, above36, i - above36 * 0x10_0000_0000);
    DivisionIsUnique(above13, 0x80, rest.middle + above22 * 4, imm7b);
    DivisionIsUnique(above22, 0x20, above27, imm5c);
    DivisionIsUnique(above27, 0x200, above36, imm9d);
    DivisionIsUnique(above36, 2, rest.high, s);
  }

  /** Every word is its digits placed side by side. */
  lemma PartsPlaced(i: uint64)
    ensures IsRest(RestOf(i))
    ensures Place(i / 0x10_0000_0000 % 2, i / 0x40_0000 % 0x20, i / 0x800_0000 % 0x200, i / 0x2000 % 0x80,
                  RestOf(i)) == i
  {
    var a := i / 0x2000;
    var b := a / 0x80;
    var c := b / 4;
    var d := c / 0x20;
    var e := d / 0x200;
    assert i / 0x10_0000 == b;
    assert i / 0x40_0000 == c;
    assert i / 0x800_0000 == d;
    assert i / 0x10_0000_0000 == e;
    assert i / 0x20_0000_0000 == e / 2;
  }

  /** A number of 22 bits is gathered from exactly one choice of parts. */
  lemma GatherParts(s: nat, imm5c: nat, imm9d: nat, imm7b: nat, u: nat)
    requires s < 2 && imm5c < 0x20 && imm9d < 0x200 && imm7b < 0x80 && u < 0x40_0000
    ensures u == Gather(s, imm5c, imm9d, imm7b) <==>
            s == u / 0x20_0000 && imm5c == u / 0x1_0000 % 0x20 && imm9d == u / 0x80 % 0x200 && imm7b == u % 0x80
  {
    var a := u / 0x80;
    var b := a / 0x200;
    assert u / 0x1_0000 == b;
    assert u / 0x20_0000 == b / 0x20;
  }

  /** Decoding undoes encoding, whatever the other bits of the instruction are. */
  lemma ExtractScattered(imm: int, rest: Rest)
    requires -0x20_0000 <= imm < 0x20_0000 && IsRest(rest)
    ensures Scatter(imm, rest) < TWO_TO_THE_64
    ensures ExtractImm22(Scatter(imm, rest)) == imm
  {
    var i, u := Scatter(imm, rest), imm % 0x40_0000;
    var s, imm5c, imm9d, imm7b := u / 0x20_0000, u / 0x1_0000 % 0x20, u / 0x80 % 0x200, u % 0x80;
    hide ExtractImm22, SignExtend, Place;
    FieldsPart(s, imm5c, imm9d, imm7b, rest);
    ExtractImm22Is(i);
    GatherParts(s, imm5c, imm9d, imm7b, u);
    hide Gather;
    SignExtend22(u, imm);
  }

  /** Every instruction is the encoding of its immediate, which has 22 bits, in its other bits. */
  lemma ScatterExtracted(instruction: uint64)
    ensures -0x20_0000 <= ExtractImm22(instruction) < 0x20_0000
    ensures IsRest(RestOf(instruction))
    ensures Scatter(ExtractImm22(instruction), RestOf(instruction)) == instruction
  {
    var s, imm5c := instruction / 0x10_0000_0000 % 2, instruction / 0x40_0000 % 0x20;
    var imm9d, imm7b := instruction / 0x800_0000 % 0x200, instruction / 0x2000 % 0x80;
    ExtractImm22Is(instruction);
    hide ExtractImm22, SignExtend;
    PartsPlaced(instruction);
    hide Place, RestOf;
    var u := Gather(s, imm5c, imm9d, imm7b);
    GatherParts(s, imm5c, imm9d, imm7b, u);
    hide Gather;
    SignExtend22(u, SignExtend(u, 22));
  }

  lemma SignExtend22(u: nat, imm: int)
    requires u < 0x40_0000
    ensures imm == SignExtend(u, 22) <==> -0x20_0000 <= imm < 0x20_0000 && u == imm % 0x40_0000
  {
    Powers();
    hide Pow2, SignExtend;
    SignExtendIsTheCongruent(u, 22, imm);
    assert (imm - u) % 0x40_0000 == 0 <==> u == imm % 0x40_0000;
  }
}
