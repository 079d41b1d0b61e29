/** The software conversions between 32-bit and 16-bit floating point
    (include/svs/lib/float16.h), on bit patterns. The lemmas are kept to one field or one step
    each, because the solver works bit by bit here. */
module Float16 {
  import opened Vectors
  import Neighbors

  // ----- The conversions

  /** `float16_to_float_untyped_slow`. */
  function Decode(x: bv16): bv32 {
    var h := x as bv32;
    var e := (h & 0x7C00) >> 10;
    var m := (h & 0x03FF) << 13;
    ((h & 0x8000) << 16) | (if e != 0 then ((e + 112) << 23) | m else 0)
  }

  /** The pattern that is truncated: half a unit of the last place kept is added first. */
  function Rounded(x: bv32): bv32 {
    x + 0x1000
  }

  function Exponent(x: bv32): bv32 {
    (x & 0x7F80_0000) >> 23
  }

  function Fraction(x: bv32): bv32 {
    x & 0x007F_FFFF
  }

  function HalfExponent(h: bv32): bv32 {
    (h & 0x7C00) >> 10
  }

  function HalfFraction(h: bv32): bv32 {
    h & 0x3FF
  }

  datatype Fields = Fields(sign: bv32, exponent: bv32, fraction: bv32)

  function FieldsOf(x: bv32): Fields {
    Fields(Sign(x), Exponent(x), Fraction(x))
  }

  function HalfFieldsOf(h: bv32): Fields {
    Fields(h & 0x8000, HalfExponent(h), HalfFraction(h))
  }

  function Magnitude(x: bv32): bv32 {
    x & 0x7FFF_FFFF
  }

  function Sign(x: bv32): bv32 {
    x & 0x8000_0000
  }

  /** `v >> k`, one place at a time. */
  function ShiftRight(v: bv32, k: bv32): bv32
    decreases k
  {
    if k == 0 then v else ShiftRight(v >> 1, k - 1)
  }

  lemma ShiftOneMore(v: bv32, k: bv32)
    requires 0 < k < 32
    ensures (v >> 1) >> (k - 1) == v >> k
  {
  }

  lemma {:induction false} ShiftRightIs(v: bv32, k: bv32)
    requires k < 32
    ensures ShiftRight(v, k) == v >> k
    decreases k
  {
    if k != 0 {
      ShiftOneMore(v, k);
      ShiftRightIs(v >> 1, k - 1);
    }
  }

  lemma DenormalizedBits(m: bv32, e: bv32, d: bv32)
    requires 101 < e < 113 && m <= 0x007F_FFFF
    requires d == (((0x007F_F000 + m) >> (125 - e)) + 1) >> 1
    ensures if e == 112 && m >= 0x007F_F000 then d == 0x400 else d < 0x400
  {
  }

  /** The denormal halves. */
  function Denormalized(e: bv32, m: bv32): (d: bv32)
    requires 101 < e < 113 && m <= 0x007F_FFFF
    ensures if e == 112 && m >= 0x007F_F000 then d == 0x400 else d < 0x400
  {
    ShiftRightIs(0x007F_F000 + m, 125 - e);
    DenormalizedBits(m, e, (((0x007F_F000 + m) >> (125 - e)) + 1) >> 1);
    (ShiftRight(0x007F_F000 + m, 125 - e) + 1) >> 1
  }

  /** What the encoding is put together from; the source's products with a comparison are the
      choices here. */
  datatype Parts = Parts(sign: bv32, normalized: bv32, denormalized: bv32, saturated: bv32)

  function Combine(p: Parts): bv16 {
    ((p.sign | p.normalized | p.denormalized | p.saturated) & 0xFFFF) as bv16
  }

  function PartsOf(b: bv32): Parts {
    var e := Exponent(b);
    Parts(
      Sign(b) >> 16,
      if e > 112 then NormalizedPart(b) else 0,
      if e < 113 && e > 101 then Denormalized(e, Fraction(b)) else 0,
      if e > 143 then 0x7FFF else 0)
  }

  /** `float_to_float16_untyped_slow`. */
  function Encode(x: bv32): bv16 {
    Combine(PartsOf(Rounded(x)))
  }

  /** The rounded pattern has the exponent of a normal half, or of the one binade above that
      the code uses in place of infinities. */
  predicate Normal(x: bv32) {
    InRange(Rounded(x))
  }

  predicate InRange(b: bv32) {
    113 <= Exponent(b) <= 143
  }

  // ----- Field by field

  /** A nonzero exponent field is widened, the fraction keeps its place. */
  predicate IsDecoded(d: bv32, h: bv32) {
    FieldsOf(d) == Fields((h & 0x8000) << 16, HalfExponent(h) + 112, HalfFraction(h) << 13)
  }

  lemma DecodeNormal(h: bv16)
    requires h & 0x7C00 != 0
    ensures IsDecoded(Decode(h), h as bv32)
  {
  }

  lemma DecodeZero(h: bv16)
    requires h & 0x7C00 == 0
    ensures Sign(Decode(h)) == (h as bv32 & 0x8000) << 16 && Magnitude(Decode(h)) == 0
  {
  }

  lemma CombineDenormal(sign: bv32, d: bv32)
    requires sign & 0x8000 == sign && d <= 0x400
    ensures var h := Combine(Parts(sign, 0, d, 0)) as bv32; h & 0x8000 == sign && h & 0x7FFF == d
  {
  }

  lemma CombineSaturated(sign: bv32, n: bv32)
    requires sign & 0x8000 == sign && n <= 0x7FFF
    ensures var h := Combine(Parts(sign, n, 0, 0x7FFF)) as bv32; h & 0x8000 == sign && h & 0x7FFF == 0x7FFF
  {
  }

  function NormalizedPart(b: bv32): bv32 {
    (((Exponent(b) - 112) << 10) & 0x7C00) | (Fraction(b) >> 13)
  }

  lemma NormalParts(b: bv32)
    requires InRange(b)
    ensures PartsOf(b) == Parts(Sign(b) >> 16, NormalizedPart(b), 0, 0)
  {
  }

  lemma DenormalParts(b: bv32, e: bv32)
    requires 101 < e < 113 && e == Exponent(b)
    ensures PartsOf(b) == Parts(Sign(b) >> 16, 0, Denormalized(e, Fraction(b)), 0)
  {
  }

  lemma VanishingParts(b: bv32, e: bv32)
    requires e <= 101 && e == Exponent(b)
    ensures PartsOf(b) == Parts(Sign(b) >> 16, 0, 0, 0)
  {
  }

  lemma SaturatedParts(b: bv32)
    requires 143 < Exponent(b)
    ensures PartsOf(b) == Parts(Sign(b) >> 16, NormalizedPart(b), 0, 0x7FFF)
  {
  }

  predicate IsNormalHalf(h: bv32, b: bv32) {
    HalfFieldsOf(h) == Fields(Sign(b) >> 16, Exponent(b) - 112, Fraction(b) >> 13)
  }

  predicate HasMagnitude(h: bv32, b: bv32, magnitude: bv32) {
    h & 0x8000 == Sign(b) >> 16 && h & 0x7FFF == magnitude
  }

  lemma SignShifted(b: bv32)
    ensures (Sign(b) >> 16) & 0x8000 == Sign(b) >> 16
    ensures Fraction(b) <= 0x007F_FFFF && Fraction(b) >> 13 < 0x400
  {
  }

  lemma CombineNormal(b: bv32)
    requires InRange(b)
    ensures IsNormalHalf(Combine(Parts(Sign(b) >> 16, NormalizedPart(b), 0, 0)) as bv32, b)
  {
  }

  lemma PartsCombineNormal(b: bv32)
    requires InRange(b)
    ensures IsNormalHalf(Combine(PartsOf(b)) as bv32, b)
  {
    NormalParts(b);
    CombineNormal(b);
  }

  lemma EncodeNormal(x: bv32)
    requires Normal(x)
    ensures IsNormalHalf(Encode(x) as bv32, Rounded(x))
  {
    PartsCombineNormal(Rounded(x));
  }

  lemma EncodeDenormal(x: bv32, e: bv32)
    requires e == Exponent(Rounded(x)) && 101 < e < 113
    ensures HasMagnitude(Encode(x) as bv32, Rounded(x), Denormalized(e, Fraction(Rounded(x))))
  {
    var b := Rounded(x);
    DenormalParts(b, e);
    SignShifted(b);
    CombineDenormal(Sign(b) >> 16, Denormalized(e, Fraction(b)));
  }

  lemma EncodeVanishes(x: bv32)
    requires Exponent(Rounded(x)) <= 101
    ensures HasMagnitude(Encode(x) as bv32, Rounded(x), 0)
  {
    var b := Rounded(x);
    VanishingParts(b, Exponent(b));
    SignShifted(b);
    CombineDenormal(Sign(b) >> 16, 0);
  }

  lemma NormalizedBound(b: bv32)
    ensures NormalizedPart(b) <= 0x7FFF
  {
  }

  lemma EncodeSaturates(x: bv32)
    requires Exponent(Rounded(x)) > 143
    ensures HasMagnitude(Encode(x) as bv32, Rounded(x), 0x7FFF)
  {
    var b := Rounded(x);
    SaturatedParts(b);
    SignShifted(b);
    NormalizedBound(b);
    CombineSaturated(Sign(b) >> 16, NormalizedPart(b));
  }

  // ----- There and back

  lemma NormalIsNotZero(h: bv16, b: bv32)
    requires IsNormalHalf(h as bv32, b) && InRange(b)
    ensures h & 0x7C00 != 0
  {
  }

  predicate FieldsAgree(d: bv32, b: bv32) {
    FieldsOf(d) == Fields(Sign(b), Exponent(b), Fraction(b) & 0xFFFF_E000)
  }

  lemma FieldsComeBack(d: bv32, h: bv32, b: bv32)
    requires IsNormalHalf(h, b) && IsDecoded(d, h)
    ensures FieldsAgree(d, b)
  {
  }

  lemma NormalHalfDecodes(h: bv16, b: bv32)
    ensures IsNormalHalf(h as bv32, b) && InRange(b) ==> FieldsAgree(Decode(h), b)
  {
    if IsNormalHalf(h as bv32, b) && InRange(b) {
      NormalIsNotZero(h, b);
      DecodeNormal(h);
      FieldsComeBack(Decode(h), h as bv32, b);
    }
  }

  /** Within the normal range of a half, the round trip keeps the sign, the exponent and the ten
      leading fraction bits of the rounded pattern. */
  lemma NormalRoundTrip(x: bv32)
    requires Normal(x)
    ensures FieldsAgree(Decode(Encode(x)), Rounded(x))
  {
    EncodeNormal(x);
    NormalHalfDecodes(Encode(x), Rounded(x));
  }

  /** Rounding only sets bits that are cut off again. */
  predicate OnlyLowBits(d: bv32, b: bv32) {
    Fields(Sign(b), Exponent(b), Fraction(b) >> 13) == Fields(Sign(d), Exponent(d), Fraction(d) >> 13)
  }

  lemma LowBitsClear(d: bv32, h: bv32)
    requires IsDecoded(d, h)
    ensures d & 0x1FFF == 0
  {
  }

  lemma AddIsOr(d: bv32)
    requires d & 0x1FFF == 0
    ensures d + 0x1000 == d | 0x1000
  {
  }

  lemma OrSetsLowBits(d: bv32)
    ensures OnlyLowBits(d, d | 0x1000)
  {
  }

  lemma RoundedDecoded(d: bv32, h: bv32)
    requires IsDecoded(d, h)
    ensures OnlyLowBits(d, Rounded(d))
  {
    LowBitsClear(d, h);
    AddIsOr(d);
    OrSetsLowBits(d);
  }

  lemma DecodedInRange(d: bv32, h: bv32, b: bv32)
    requires IsDecoded(d, h) && OnlyLowBits(d, b) && h & 0x7C00 != 0
    ensures InRange(b)
  {
  }

  lemma IsItsNormalHalf(d: bv32, h: bv32, b: bv32)
    requires IsDecoded(d, h) && OnlyLowBits(d, b)
    ensures IsNormalHalf(h, b)
  {
  }

  lemma SameHalf(g: bv16, h: bv16)
    ensures HalfFieldsOf(g as bv32) == HalfFieldsOf(h as bv32) ==> g == h
  {
  }

  lemma EncodesFields(d: bv32, h: bv16)
    requires Normal(d) && IsNormalHalf(h as bv32, Rounded(d))
    ensures HalfFieldsOf(Encode(d) as bv32) == HalfFieldsOf(h as bv32)
  {
    EncodeNormal(d);
  }

  lemma EncodesBack(d: bv32, h: bv16)
    requires Normal(d) && IsNormalHalf(h as bv32, Rounded(d))
    ensures Encode(d) == h
  {
    hide Encode, HalfFieldsOf;
    EncodesFields(d, h);
    SameHalf(Encode(d), h);
  }

  lemma DecodedEncodesBack(d: bv32, h: bv16)
    requires IsDecoded(d, h as bv32) && h & 0x7C00 != 0
    ensures Encode(d) == h
  {
    RoundedDecoded(d, h as bv32);
    DecodedInRange(d, h as bv32, Rounded(d));
    IsItsNormalHalf(d, h as bv32, Rounded(d));
    EncodesBack(d, h);
  }

  lemma NormalHalfComesBack(h: bv16)
    requires h & 0x7C00 != 0
    ensures Encode(Decode(h)) == h
  {
    DecodeNormal(h);
    DecodedEncodesBack(Decode(h), h);
  }

  lemma RoundedZero(d: bv32)
    requires Magnitude(d) == 0
    ensures Exponent(Rounded(d)) == 0 && Sign(Rounded(d)) == Sign(d)
  {
  }

  lemma ZeroHalf(g: bv16, h: bv16, b: bv32)
    requires HasMagnitude(g as bv32, b, 0) && Sign(b) == (h as bv32 & 0x8000) << 16
    ensures g == h & 0x8000
  {
  }

  lemma ZeroComesBack(h: bv16)
    requires h & 0x7C00 == 0
    ensures Encode(Decode(h)) == h & 0x8000
  {
    var d := Decode(h);
    DecodeZero(h);
    RoundedZero(d);
    EncodeVanishes(d);
    ZeroHalf(Encode(d), h, Rounded(d));
  }

  /** Encoding a decoded half gives it back when its exponent field is not zero, and a zero of
      the same sign otherwise. */
  lemma DecodedRoundTrip(h: bv16)
    ensures Encode(Decode(h)) == if h & 0x7C00 != 0 then h else h & 0x8000
  {
    if h & 0x7C00 != 0 {
      NormalHalfComesBack(h);
    } else {
      ZeroComesBack(h);
    }
  }

  // ----- Ties

  /** The nearest pattern with ten fraction bits, the even one of two that are equally near. */
  function NearestEven(x: bv32): bv32 {
    var kept, cut := x & 0xFFFF_E000, x & 0x1FFF;
    if cut > 0x1000 || (cut == 0x1000 && x & 0x2000 != 0) then kept + 0x2000 else kept
  }

  /** The code rounds ties up: it agrees with rounding to even exactly off the ties whose lower
      neighbour is even. */
  lemma NearestEvenIff(x: bv32)
    ensures Rounded(x) & 0xFFFF_E000 == NearestEven(x) <==> x & 0x3FFF != 0x1000
  {
  }

  // ----- Numbers

  function Int(v: bv32): nat {
    v as nat
  }

  /** Only bits of the mask are set. */
  predicate Within(v: bv32, mask: bv32) {
    v | mask == mask
  }

  /** The pattern without its sign, as a number. */
  function Number(x: bv32): nat {
    0x80_0000 * Int(Exponent(x)) + Int(Fraction(x))
  }

  function WidenedHalf(h: bv32): nat {
    Int(h & 0x7FFF)
  }

  function HalfNumber(h: bv16): nat {
    WidenedHalf(h as bv32)
  }

  /** Rounding does not carry into the sign. */
  predicate KeepsSign(x: bv32) {
    Number(x) < 0x7FFF_F000
  }

  lemma ExponentNumber(x: bv32)
    ensures Int(Exponent(x)) <= 255 && Within(Exponent(x), 0xFF)
  {
  }

  lemma HighNumber(v: bv32)
    ensures Within(v, 0x00FF_FFFF) ==> Int(v) == Int(v >> 13) * 0x2000 + Int(v & 0x1FFF)
  {
  }

  lemma HighFraction(x: bv32)
    ensures Int(Fraction(x) >> 13) <= 0x3FF
  {
  }

  lemma LowNumber(c: bv32)
    ensures Int(c & 0x1FFF) <= 0x1FFF
  {
  }

  lemma NumberSplits(x: bv32)
    ensures Number(x) / 0x80_0000 == Int(Exponent(x)) && Number(x) % 0x80_0000 == Int(Fraction(x))
    ensures Int(Fraction(x)) / 0x2000 == Int(Fraction(x) >> 13) && Int(Exponent(x)) <= 255
  {
    hide Int, Within, Exponent, Fraction;
    ExponentNumber(x);
    FractionFits(x);
    HighNumber(Fraction(x));
    HighFraction(x);
    LowNumber(Fraction(x));
  }

  lemma SignKeptFields(x: bv32)
    ensures Sign(Rounded(x)) == Sign(x) <==> !(Exponent(x) == 255 && Fraction(x) >= 0x007F_F000)
  {
  }

  lemma LargeFraction(f: bv32)
    ensures Within(f, 0x007F_FFFF) ==> (f >= 0x007F_F000 <==> Int(f) >= 0x007F_F000)
  {
  }

  lemma LargestExponent(e: bv32)
    ensures Within(e, 0xFF) ==> (e == 255 <==> Int(e) == 255)
  {
  }

  /** Rounding carries into the sign exactly for the patterns within half a unit of the end. */
  lemma SignKeptIff(x: bv32)
    ensures Sign(Rounded(x)) == Sign(x) <==> KeepsSign(x)
  {
    hide Int, Within, Exponent, Fraction, Sign, Rounded;
    SignKeptFields(x);
    FractionFits(x);
    ExponentNumber(x);
    LargeFraction(Fraction(x));
    LargestExponent(Exponent(x));
    NumberSplits(x);
  }

  lemma FractionFits(x: bv32)
    ensures Within(Fraction(x), 0x007F_FFFF) && Within(Fraction(x), 0x00FF_FFFF)
  {
  }

  // ----- Rounding is an addition

  lemma AddedNumber(m: bv32)
    ensures Within(m, 0x007F_FFFF) ==> Int(m + 0x1000) == Int(m) + 0x1000
  {
  }

  lemma CarriedNumber(c: bv32)
    ensures c & 0xFF80_0000 == 0x0080_0000 ==> Int(c) == Int(c & 0x007F_FFFF) + 0x80_0000
  {
  }

  lemma NextExponent(e: bv32)
    ensures Within(e, 0xFF) ==> Int(e + 1) == Int(e) + 1
  {
  }

  /** Rounding carries into the exponent or it does not. */
  lemma RoundingFields(x: bv32, c: bv32)
    requires c == Fraction(x) + 0x1000
    ensures if c & 0x0080_0000 == 0 then Fraction(Rounded(x)) == c && Exponent(Rounded(x)) == Exponent(x)
            else Fraction(Rounded(x)) == c & 0x007F_FFFF
                 && (Exponent(x) != 255 ==> Exponent(Rounded(x)) == Exponent(x) + 1)
  {
  }

  lemma CarryFits(m: bv32, c: bv32)
    ensures c == (m & 0x007F_FFFF) + 0x1000 && c & 0x0080_0000 != 0 ==> c & 0xFF80_0000 == 0x0080_0000
  {
  }

  lemma NoCarryAtTheEnd(x: bv32, c: bv32)
    ensures c == Fraction(x) + 0x1000 && c & 0x0080_0000 != 0 ==> Fraction(x) >= 0x007F_F000
  {
  }

  lemma CarryRoundedNumber(x: bv32, c: bv32)
    requires c == Fraction(x) + 0x1000 && c & 0x0080_0000 != 0 && Exponent(x) != 255
    ensures Number(Rounded(x)) == 0x80_0000 * Int(Exponent(x)) + Int(c)
  {
    hide Int, Within, Rounded;
    RoundingFields(x, c);
    CarryFits(x, c);
    CarriedNumber(c);
    ExponentNumber(x);
    NextExponent(Exponent(x));
  }

  lemma CarryIsKept(x: bv32, c: bv32)
    requires KeepsSign(x) && c == Fraction(x) + 0x1000 && c & 0x0080_0000 != 0
    ensures Exponent(x) != 255
  {
    hide Int, Within, Exponent, Fraction;
    FractionFits(x);
    LargeFraction(Fraction(x));
    ExponentNumber(x);
    LargestExponent(Exponent(x));
    NoCarryAtTheEnd(x, c);
  }

  lemma RoundedNumber(x: bv32)
    requires KeepsSign(x)
    ensures Number(Rounded(x)) == Number(x) + 0x1000
  {
    hide Int, Within, Exponent, Fraction, Rounded;
    var c := Fraction(x) + 0x1000;
    FractionFits(x);
    AddedNumber(Fraction(x));
    if c & 0x0080_0000 == 0 {
      RoundingFields(x, c);
    } else {
      CarryIsKept(x, c);
      CarryRoundedNumber(x, c);
    }
  }

  // ----- Encoding in numbers

  /** `v / 2 ^ k`, one place at a time. */
  function HalfTimes(v: nat, k: nat): nat
    decreases k
  {
    if k == 0 then v else HalfTimes(v / 2, k - 1)
  }

  /** The number of the half that a rounded pattern with the number `n` is encoded as. */
  function EncodedNumber(n: nat): nat {
    var e, m := n / 0x80_0000, n % 0x80_0000;
    if e > 143 then 0x7FFF
    else if e > 112 then 0x400 * (e - 112) + m / 0x2000
    else if e > 101 then (HalfTimes((0x007F_F000 + m) / 0x2000, 112 - e) + 1) / 2
    else 0
  }

  lemma HalfFieldsNumber(h: bv32)
    ensures WidenedHalf(h) == 0x400 * Int(HalfExponent(h)) + Int(HalfFraction(h))
  {
  }

  lemma LowerExponent(e: bv32)
    ensures Within(e, 0xFF) && e > 112 ==> Int(e - 112) == Int(e) - 112
  {
  }

  lemma NormalHalfFields(h: bv32, b: bv32)
    requires IsNormalHalf(h, b)
    ensures Int(HalfExponent(h)) == Int(Exponent(b) - 112) && Int(HalfFraction(h)) == Int(Fraction(b) >> 13)
  {
    hide Int;
  }

  lemma NormalHalfNumber(h: bv16, b: bv32)
    requires IsNormalHalf(h as bv32, b) && InRange(b)
    ensures HalfNumber(h) == EncodedNumber(Number(b))
  {
    hide WidenedHalf, Int, Within, Exponent, Fraction, IsNormalHalf, HalfExponent, HalfFraction, Number;
    NormalHalfFields(h as bv32, b);
    HalfFieldsNumber(h as bv32);
    NumberSplits(b);
    ExponentNumber(b);
    LowerExponent(Exponent(b));
    RangesByNumber(Exponent(b));
  }

  lemma RangesByNumber(e: bv32)
    ensures Within(e, 0xFF) ==> (e > 143 <==> Int(e) > 143) && (e > 112 <==> Int(e) > 112)
    ensures Within(e, 0xFF) ==> (e > 101 <==> Int(e) > 101)
  {
  }

  lemma ShiftedSum(v: bv32, e: bv32)
    requires 101 < e < 113
    ensures v >> (125 - e) == (v >> 13) >> (112 - e)
  {
  }

  lemma SumNumber(m: bv32)
    ensures Within(m, 0x007F_FFFF) ==> Int(0x007F_F000 + m) == Int(m) + 0x007F_F000
  {
  }

  lemma SumFits(m: bv32)
    ensures Within(m, 0x007F_FFFF) ==>
      Within(0x007F_F000 + m, 0x00FF_FFFF) && Within((0x007F_F000 + m) >> 13, 0x7FF)
  {
  }

  lemma HalvedNumber(v: bv32)
    ensures Within(v, 0xFFF) ==> Int(v) == 2 * Int(v >> 1) + Int(v & 1)
    ensures Within(v, 0xFFF) ==> Within(v >> 1, 0xFFF) && Int(v & 1) <= 1
  {
  }

  lemma {:induction false} HalfTimesNumber(v: bv32, k: bv32)
    requires Within(v, 0x7FF) && Within(k, 0xFF)
    ensures Int(ShiftRight(v, k)) == HalfTimes(Int(v), Int(k)) && Within(ShiftRight(v, k), 0x7FF)
    decreases k
  {
    hide Int, Within;
    ZeroCount(k);
    if k != 0 {
      HalvedNumber(v);
      HalvedWithin(v);
      PreviousCount(k);
      HalfTimesNumber(v >> 1, k - 1);
    }
  }

  lemma ZeroCount(k: bv32)
    ensures Within(k, 0xFF) ==> (k == 0 <==> Int(k) == 0)
  {
  }

  lemma HalvedWithin(v: bv32)
    ensures Within(v, 0x7FF) ==> Within(v, 0xFFF) && Within(v >> 1, 0x7FF)
  {
  }

  lemma PreviousCount(k: bv32)
    requires k != 0
    ensures Within(k, 0xFF) ==> Int(k - 1) == Int(k) - 1 && Within(k - 1, 0xFF)
  {
  }

  lemma CountNumber(e: bv32)
    ensures Within(e, 0xFF) && e < 113 ==> Int(112 - e) == 112 - Int(e) && Within(112 - e, 0xFF)
  {
  }

  lemma RoundedUpNumber(v: bv32)
    ensures Within(v, 0x7FF) ==> Int(v + 1) == Int(v) + 1 && Within(v + 1, 0xFFF)
  {
  }

  lemma ShiftedFurther(v: bv32, e: bv32)
    requires 101 < e < 113
    ensures ShiftRight(v, 125 - e) == ShiftRight(v >> 13, 112 - e)
  {
    hide ShiftRight;
    ShiftRightIs(v, 125 - e);
    ShiftedSum(v, e);
    ShiftRightIs(v >> 13, 112 - e);
  }

  lemma DenormalizedIs(e: bv32, m: bv32)
    requires 101 < e < 113 && m <= 0x007F_FFFF
    ensures Denormalized(e, m) == (ShiftRight((0x007F_F000 + m) >> 13, 112 - e) + 1) >> 1
  {
    hide ShiftRight;
    ShiftedFurther(0x007F_F000 + m, e);
  }

  lemma SumHighNumber(m: bv32)
    requires Within(m, 0x007F_FFFF)
    ensures Int((0x007F_F000 + m) >> 13) == (0x007F_F000 + Int(m)) / 0x2000
  {
    hide Int, Within;
    SumNumber(m);
    SumFits(m);
    HighNumber(0x007F_F000 + m);
    LowNumber(0x007F_F000 + m);
  }

  lemma RoundedUpHalf(w: bv32)
    requires Within(w, 0x7FF)
    ensures Int((w + 1) >> 1) == (Int(w) + 1) / 2
  {
    hide Int, Within;
    RoundedUpNumber(w);
    HalvedNumber(w + 1);
  }

  lemma DenormalNumber(e: bv32, m: bv32)
    requires 101 < e < 113 && m <= 0x007F_FFFF && Within(e, 0xFF) && Within(m, 0x007F_FFFF)
    ensures Int(Denormalized(e, m)) == (HalfTimes((0x007F_F000 + Int(m)) / 0x2000, 112 - Int(e)) + 1) / 2
  {
    hide Int, Within, Denormalized, ShiftRight, HalfTimes;
    DenormalizedIs(e, m);
    SumHighNumber(m);
    SumFits(m);
    CountNumber(e);
    HalfTimesNumber((0x007F_F000 + m) >> 13, 112 - e);
    RoundedUpHalf(ShiftRight((0x007F_F000 + m) >> 13, 112 - e));
  }

  lemma MagnitudeNumber(h: bv16, b: bv32, q: bv32)
    requires HasMagnitude(h as bv32, b, q)
    ensures HalfNumber(h) == Int(q)
  {
  }

  lemma EncodeDenormalNumber(x: bv32, e: bv32)
    requires e == Exponent(Rounded(x)) && 101 < e < 113
    ensures HalfNumber(Encode(x)) == EncodedNumber(Number(Rounded(x)))
  {
    hide Int, Within, Exponent, Fraction, Rounded, Denormalized;
    var b := Rounded(x);
    SignShifted(b);
    EncodeDenormal(x, e);
    MagnitudeNumber(Encode(x), b, Denormalized(e, Fraction(b)));
    ExponentNumber(b);
    FractionFits(b);
    DenormalNumber(e, Fraction(b));
    NumberSplits(b);
    RangesByNumber(e);
  }

  lemma EncodeExtremeNumber(x: bv32)
    requires Exponent(Rounded(x)) <= 101 || 143 < Exponent(Rounded(x))
    ensures HalfNumber(Encode(x)) == EncodedNumber(Number(Rounded(x)))
  {
    hide Int, Within, Exponent, Fraction, Rounded;
    var b := Rounded(x);
    LiteralNumbers();
    NumberSplits(b);
    ExponentNumber(b);
    RangesByNumber(Exponent(b));
    if Exponent(b) <= 101 {
      EncodeVanishes(x);
      MagnitudeNumber(Encode(x), b, 0);
    } else {
      EncodeSaturates(x);
      MagnitudeNumber(Encode(x), b, 0x7FFF);
    }
  }

  /** The half that every 32-bit pattern is encoded as, without its sign. */
  lemma EncodeNumber(x: bv32)
    ensures HalfNumber(Encode(x)) == EncodedNumber(Number(Rounded(x)))
  {
    var e := Exponent(Rounded(x));
    if Normal(x) {
      EncodeNormal(x);
      NormalHalfNumber(Encode(x), Rounded(x));
    } else if 101 < e < 113 {
      EncodeDenormalNumber(x, e);
    } else {
      EncodeExtremeNumber(x);
    }
  }

  /** And its sign. */
  lemma EncodeSign(x: bv32)
    ensures Encode(x) as bv32 & 0x8000 == Sign(Rounded(x)) >> 16
  {
    var e := Exponent(Rounded(x));
    if Normal(x) {
      EncodeNormal(x);
    } else if 101 < e < 113 {
      EncodeDenormal(x, e);
    } else if e <= 101 {
      EncodeVanishes(x);
    } else {
      EncodeSaturates(x);
    }
  }

  // ----- Decoding in numbers

  function DecodedNumber(n: nat): nat {
    if n < 0x400 then 0 else 0x2000 * n + 0x3800_0000
  }

  lemma HigherExponent(e: bv32)
    ensures Within(e, 0x1F) ==> Int(e + 112) == Int(e) + 112 && (e != 0 ==> Int(e) > 0)
  {
  }

  lemma WiderFraction(m: bv32)
    ensures Within(m, 0x3FF) ==> Int(m << 13) == Int(m) * 0x2000 && Int(m) < 0x400
  {
  }

  lemma HalfFieldsFit(h: bv32)
    ensures Within(HalfExponent(h), 0x1F) && Within(HalfFraction(h), 0x3FF)
    ensures h & 0x7C00 == 0 <==> HalfExponent(h) == 0
  {
  }

  lemma WidenedFields(d: bv32, h: bv32)
    requires IsDecoded(d, h)
    ensures Int(Exponent(d)) == Int(HalfExponent(h) + 112) && Int(Fraction(d)) == Int(HalfFraction(h) << 13)
  {
    hide Int;
  }

  lemma WidenedNumber(d: bv32, h: bv32)
    requires IsDecoded(d, h) && h & 0x7C00 != 0
    ensures Number(d) == DecodedNumber(WidenedHalf(h))
  {
    hide WidenedHalf, Int, Within, Exponent, Fraction, IsDecoded, HalfExponent, HalfFraction;
    WidenedFields(d, h);
    HalfFieldsNumber(h);
    HalfFieldsFit(h);
    HigherExponent(HalfExponent(h));
    WiderFraction(HalfFraction(h));
  }

  lemma ZeroNumber(d: bv32)
    requires Magnitude(d) == 0
    ensures Number(d) == 0
  {
  }

  lemma NarrowNumber(h: bv32)
    requires h & 0x7C00 == 0
    ensures WidenedHalf(h) < 0x400
  {
    hide WidenedHalf, Int, Within, HalfExponent, HalfFraction;
    HalfFieldsNumber(h);
    HalfFieldsFit(h);
    LiteralNumbers();
    WiderFraction(HalfFraction(h));
  }

  lemma LiteralNumbers()
    ensures Int(0) == 0 && Int(0x7FFF) == 0x7FFF
  {
  }

  lemma SameField(h: bv16)
    ensures h & 0x7C00 == 0 <==> h as bv32 & 0x7C00 == 0
  {
  }

  lemma WidenedHalfNumber(d: bv32, h: bv16)
    requires IsDecoded(d, h as bv32) && h as bv32 & 0x7C00 != 0
    ensures Number(d) == DecodedNumber(HalfNumber(h))
  {
    hide IsDecoded, Number, DecodedNumber, WidenedHalf;
    WidenedNumber(d, h as bv32);
  }

  lemma DecodeNormalNumber(h: bv16)
    requires h & 0x7C00 != 0
    ensures Number(Decode(h)) == DecodedNumber(HalfNumber(h))
  {
    hide Decode, IsDecoded, Number, HalfNumber, DecodedNumber;
    SameField(h);
    DecodeNormal(h);
    WidenedHalfNumber(Decode(h), h);
  }

  lemma DecodeZeroNumber(h: bv16)
    requires h & 0x7C00 == 0
    ensures Number(Decode(h)) == DecodedNumber(HalfNumber(h))
  {
    hide WidenedHalf, Decode, Number, Sign, Magnitude;
    DecodeZero(h);
    ZeroNumber(Decode(h));
    NarrowNumber(h as bv32);
  }

  lemma DecodeNumber(h: bv16)
    ensures Number(Decode(h)) == DecodedNumber(HalfNumber(h))
  {
    hide Decode, Number, HalfNumber, DecodedNumber;
    if h & 0x7C00 != 0 {
      DecodeNormalNumber(h);
    } else {
      DecodeZeroNumber(h);
    }
  }

  lemma DecodeSign(h: bv16)
    ensures Sign(Decode(h)) == (h as bv32 & 0x8000) << 16
  {
    if h & 0x7C00 != 0 {
      DecodeNormal(h);
    } else {
      DecodeZero(h);
    }
  }

  // ----- There and back in numbers

  lemma {:induction false} HalfTimesInOrder(v: nat, w: nat, k: nat)
    requires v <= w
    ensures HalfTimes(v, k) <= HalfTimes(w, k) <= w
    decreases k
  {
    if k > 0 {
      HalfTimesInOrder(v / 2, w / 2, k - 1);
    }
  }

  lemma {:induction false} HalfTimesMore(v: nat, k: nat, l: nat)
    requires k <= l
    ensures HalfTimes(v, l) <= HalfTimes(v, k)
    decreases k
  {
    if k > 0 {
      HalfTimesMore(v / 2, k - 1, l - 1);
    } else {
      HalfTimesInOrder(v, v, l);
    }
  }

  /** The magnitude a rounded pattern with the number `n` comes back with. */
  function Trimmed(n: nat): nat {
    if n < 0x387F_F000 then 0
    else if n < 0x3880_0000 then 0x3880_0000
    else if n < 0x4800_0000 then n - n % 0x2000
    else 0x47FF_E000
  }

  lemma DenormalBound(e: nat, m: nat)
    requires 101 < e < 112 && m < 0x80_0000
    ensures HalfTimes((0x007F_F000 + m) / 0x2000, 112 - e) <= 0x3FF
  {
    var v := (0x007F_F000 + m) / 0x2000;
    HalfTimesMore(v, 1, 112 - e);
    assert HalfTimes(v, 1) == v / 2;
  }

  lemma TrimmedDenormal(n: nat)
    requires n < 0x3880_0000
    ensures Trimmed(n) == DecodedNumber(EncodedNumber(n))
  {
    var e, m := n / 0x80_0000, n % 0x80_0000;
    if 101 < e < 112 {
      DenormalBound(e, m);
    }
  }

  lemma TrimmedNormal(n: nat)
    requires 0x3880_0000 <= n
    ensures Trimmed(n) == DecodedNumber(EncodedNumber(n))
  {
    hide HalfTimes;
  }

  lemma TrimmedIs(n: nat)
    ensures Trimmed(n) == DecodedNumber(EncodedNumber(n))
  {
    hide Trimmed, DecodedNumber, EncodedNumber;
    if n < 0x3880_0000 {
      TrimmedDenormal(n);
    } else {
      TrimmedNormal(n);
    }
  }

  lemma SignBack(h: bv32, b: bv32)
    ensures h & 0x8000 == Sign(b) >> 16 ==> (h & 0x8000) << 16 == Sign(b)
  {
  }

  /** What every 32-bit pattern comes back as. */
  lemma RoundTrip(x: bv32)
    ensures Number(Decode(Encode(x))) == Trimmed(Number(Rounded(x)))
    ensures Sign(Decode(Encode(x))) == Sign(Rounded(x))
  {
    hide Number, HalfNumber, EncodedNumber, DecodedNumber, Trimmed, Encode, Decode, Sign, Rounded;
    EncodeNumber(x);
    DecodeNumber(Encode(x));
    TrimmedIs(Number(Rounded(x)));
    EncodeSign(x);
    DecodeSign(Encode(x));
    SignBack(Encode(x) as bv32, Rounded(x));
  }

  // ----- Order

  lemma DenormalsInOrder(e: nat, m: nat, f: nat, n: nat)
    requires 101 < e < f < 113 && m < 0x80_0000
    ensures HalfTimes((0x007F_F000 + m) / 0x2000, 112 - e) <= HalfTimes((0x007F_F000 + n) / 0x2000, 112 - f)
  {
    HalfTimesInOrder((0x007F_F000 + m) / 0x2000, 0x7FF, 112 - e);
    HalfTimesMore(0x7FF, 113 - f, 112 - e);
    HalfTimesInOrder(0x3FF, (0x007F_F000 + n) / 0x2000, 112 - f);
  }

  lemma EncodedInOrder(a: nat, b: nat)
    requires a <= b
    ensures EncodedNumber(a) <= EncodedNumber(b)
  {
    var (e, m) := (a / 0x80_0000, a % 0x80_0000);
    var (f, n) := (b / 0x80_0000, b % 0x80_0000);
    if 101 < e < 113 {
      HalfTimesInOrder((0x007F_F000 + m) / 0x2000, 0x7FF, 112 - e);
      if f == e {
        HalfTimesInOrder((0x007F_F000 + m) / 0x2000, (0x007F_F000 + n) / 0x2000, 112 - e);
      } else if f < 113 {
        DenormalsInOrder(e, m, f, n);
      }
    }
  }

  /** Encoding keeps the order of all magnitudes whose sign is kept, from the denormal halves to
      the saturated one. */
  lemma EncodeInOrder(x: bv32, y: bv32)
    requires KeepsSign(x) && KeepsSign(y) && Number(x) <= Number(y)
    ensures HalfNumber(Encode(x)) <= HalfNumber(Encode(y))
  {
    EncodeNumber(x);
    EncodeNumber(y);
    RoundedNumber(x);
    RoundedNumber(y);
    EncodedInOrder(Number(Rounded(x)), Number(Rounded(y)));
  }

  /** So does the round trip. */
  lemma RoundTripInOrder(x: bv32, y: bv32)
    requires KeepsSign(x) && KeepsSign(y) && Number(x) <= Number(y)
    ensures Number(Decode(Encode(x))) <= Number(Decode(Encode(y)))
  {
    hide Encode, Decode, Number, HalfNumber, KeepsSign;
    EncodeInOrder(x, y);
    DecodeNumber(Encode(x));
    DecodeNumber(Encode(y));
  }

  // ----- Values

  function Pow2(k: int): real
    decreases if k < 0 then -k else k
  {
    if k == 0 then 1.0 else if k > 0 then 2.0 * Pow2(k - 1) else Pow2(k + 1) / 2.0
  }

  function Scaled(m: nat, unit: real): real {
    Mul(m as real, unit)
  }

  /** What a pattern without its sign stands for; the infinity counts as the next power of two,
      and what is not a number as what its fields say. */
  function MagnitudeOf(n: nat): real {
    var e, m := n / 0x80_0000, n % 0x80_0000;
    if e == 0 then Scaled(m, Pow2(-149)) else Scaled(0x80_0000 + m, Pow2(e - 150))
  }

  function Value(x: bv32): real {
    if Sign(x) == 0 then MagnitudeOf(Number(x)) else -MagnitudeOf(Number(x))
  }

  lemma {:induction false} Pow2OneMore(k: int)
    ensures Pow2(k + 1) == 2.0 * Pow2(k) && Pow2(k) > 0.0
    decreases if k < 0 then -k else k
  {
    if k < 0 {
      Pow2OneMore(k + 1);
    } else if k > 0 {
      Pow2OneMore(k - 1);
    }
  }

  lemma ScaledGrows(m: nat, unit: real)
    requires unit > 0.0
    ensures 0.0 <= Scaled(m, unit) < Scaled(m + 1, unit)
  {
    assert Scaled(m + 1, unit) == Scaled(m, unit) + unit;
    MulInOrder(0.0, m as real, unit);
  }

  lemma ScaledTwice(unit: real)
    ensures Scaled(0x80_0000, 2.0 * unit) == Scaled(0x100_0000, unit)
  {
  }

  lemma NextMagnitude(n: nat)
    ensures 0.0 <= MagnitudeOf(n) < MagnitudeOf(n + 1)
  {
    hide Scaled, Pow2;
    var e, m := n / 0x80_0000, n % 0x80_0000;
    var unit := Pow2(if e == 0 then -149 else e - 150);
    Pow2OneMore(if e == 0 then -149 else e - 150);
    ScaledGrows(if e == 0 then m else 0x80_0000 + m, unit);
    if m + 1 < 0x80_0000 {
      assert (n + 1) / 0x80_0000 == e && (n + 1) % 0x80_0000 == m + 1;
    } else {
      assert (n + 1) / 0x80_0000 == e + 1 && (n + 1) % 0x80_0000 == 0;
      ScaledTwice(unit);
    }
  }

  lemma MulInOrder(r: real, s: real, unit: real)
    requires r <= s && unit > 0.0
    ensures Mul(r, unit) <= Mul(s, unit)
  {
  }

  lemma {:induction false} MagnitudesInOrder(a: nat, b: nat)
    requires a < b
    ensures 0.0 <= MagnitudeOf(a) < MagnitudeOf(b)
    decreases b
  {
    NextMagnitude(b - 1);
    if a < b - 1 {
      MagnitudesInOrder(a, b - 1);
    }
  }

  lemma MagnitudesIff(a: nat, b: nat)
    ensures MagnitudeOf(a) <= MagnitudeOf(b) <==> a <= b
    ensures MagnitudeOf(a) >= 0.0 && MagnitudeOf(0) == 0.0
  {
    NextMagnitude(a);
    if a < b {
      MagnitudesInOrder(a, b);
    } else if b < a {
      MagnitudesInOrder(b, a);
    }
  }

  lemma SignComesBack(x: bv32)
    requires KeepsSign(x)
    ensures Sign(Decode(Encode(x))) == Sign(x)
  {
    RoundTrip(x);
    SignKeptIff(x);
  }

  lemma ZeroComesBackAsZero(x: bv32)
    requires Number(x) == 0
    ensures Number(Decode(Encode(x))) == 0
  {
    RoundTrip(x);
    RoundedNumber(x);
  }

  lemma CarriedToZero(x: bv32)
    ensures Exponent(x) == 255 && Fraction(x) >= 0x007F_F000 ==> Exponent(Rounded(x)) == 0
  {
  }

  lemma FlippedExponent(x: bv32)
    requires !KeepsSign(x)
    ensures Exponent(x) == 255 && Fraction(x) >= 0x007F_F000
  {
    hide Int, Within, Exponent, Fraction;
    FractionFits(x);
    LargeFraction(Fraction(x));
    ExponentNumber(x);
    LargestExponent(Exponent(x));
    NumberSplits(x);
  }

  lemma ZeroExponent()
    ensures Int(0) == 0
  {
  }

  /** The patterns whose sign is not kept come back as zeros of the other sign. */
  lemma SignFlips(x: bv32)
    requires !KeepsSign(x)
    ensures Number(Decode(Encode(x))) == 0 && Sign(Decode(Encode(x))) != Sign(x)
  {
    hide Int, Encode, Decode, Rounded, Sign, Exponent, Fraction;
    FlippedExponent(x);
    CarriedToZero(x);
    ZeroExponent();
    NumberSplits(Rounded(x));
    RoundTrip(x);
    SignKeptIff(x);
  }

  /** The round trip keeps the order of the values: of all finite numbers and the infinities, of
      either sign. */
  lemma ValuesInOrder(x: bv32, y: bv32)
    requires KeepsSign(x) && KeepsSign(y) && Value(x) <= Value(y)
    ensures Value(Decode(Encode(x))) <= Value(Decode(Encode(y)))
  {
    hide Encode, Decode, Number, MagnitudeOf, Sign, KeepsSign;
    var (d, f) := (Decode(Encode(x)), Decode(Encode(y)));
    SignComesBack(x);
    SignComesBack(y);
    MagnitudesIff(Number(x), Number(y));
    MagnitudesIff(Number(y), Number(x));
    MagnitudesIff(Number(d), Number(f));
    MagnitudesIff(Number(f), Number(d));
    if Sign(x) == 0 && Sign(y) == 0 {
      RoundTripInOrder(x, y);
    } else if Sign(x) != 0 && Sign(y) != 0 {
      RoundTripInOrder(y, x);
    } else if Sign(x) == 0 {
      MagnitudesIff(Number(x), 0);
      MagnitudesIff(Number(y), 0);
      ZeroComesBackAsZero(x);
      ZeroComesBackAsZero(y);
    }
  }

  // ----- The error

  lemma ScaledClose(m: nat, n: nat, unit: real)
    requires unit > 0.0 && -0x1000 <= n - m <= 0x1000
    ensures -4096.0 * unit <= Scaled(n, unit) - Scaled(m, unit) <= 4096.0 * unit
  {
    hide Mul;
    var (r, s) := (n as real, m as real);
    MulOfMinus(r, s, unit);
    MulOfUnits(unit);
    MulInOrder(-4096.0, r - s, unit);
    MulInOrder(r - s, 4096.0, unit);
  }

  lemma MulOfMinus(r: real, s: real, unit: real)
    ensures Mul(r - s, unit) == Mul(r, unit) - Mul(s, unit)
  {
  }

  lemma MulOfUnits(unit: real)
    ensures Mul(4096.0, unit) == 4096.0 * unit && Mul(-4096.0, unit) == -4096.0 * unit
  {
  }

  /** A pattern half a unit of the place kept away, in units of its own last place. */
  lemma NearMagnitude(a: nat, b: nat)
    requires a >= 0x80_0000 && a - 0x1000 <= b <= a + 0x1000 && b % 0x2000 == 0
    requires b / 0x80_0000 >= a / 0x80_0000
    ensures var bound := 4096.0 * Pow2(a / 0x80_0000 - 150);
      -bound <= MagnitudeOf(b) - MagnitudeOf(a) <= bound
  {
    var e, m := a / 0x80_0000, a % 0x80_0000;
    hide Scaled, Pow2;
    Pow2OneMore(e - 150);
    if b / 0x80_0000 == e {
      ScaledClose(0x80_0000 + m, 0x80_0000 + b % 0x80_0000, Pow2(e - 150));
    } else {
      assert b / 0x80_0000 == e + 1 && b % 0x80_0000 == 0;
      ScaledTwice(Pow2(e - 150));
      ScaledClose(0x80_0000 + m, 0x100_0000, Pow2(e - 150));
    }
  }

  lemma NormalKeepsSign(x: bv32)
    ensures Normal(x) ==> Sign(Rounded(x)) == Sign(x)
  {
  }

  lemma NormalNumber(x: bv32)
    requires Normal(x)
    ensures KeepsSign(x) && 0x387F_F000 <= Number(x) && Number(x) + 0x1000 < 0x4800_0000
  {
    hide Int, Within, Exponent, Fraction, Sign, Rounded;
    NormalKeepsSign(x);
    SignKeptIff(x);
    RoundedNumber(x);
    NumberSplits(Rounded(x));
    ExponentNumber(Rounded(x));
    RangesByNumber(Exponent(Rounded(x)));
  }

  lemma TrimmedNear(a: nat)
    requires 0x387F_F000 <= a && a + 0x1000 < 0x4800_0000
    ensures var b := Trimmed(a + 0x1000);
      a - 0x1000 <= b <= a + 0x1000 && b % 0x2000 == 0 && b / 0x80_0000 >= a / 0x80_0000
  {
  }

  lemma SameSignNear(x: bv32, d: bv32, bound: real)
    requires Sign(d) == Sign(x)
    requires -bound <= MagnitudeOf(Number(d)) - MagnitudeOf(Number(x)) <= bound
    ensures -bound <= Value(d) - Value(x) <= bound
  {
    hide Sign, Number, MagnitudeOf;
  }

  /** Within the normal range, a number comes back within half a unit of the tenth fraction bit:
      two to the power of eleven less than its own exponent. */
  lemma ErrorBound(x: bv32)
    requires Normal(x)
    ensures var bound := Pow2((Int(Exponent(x)) - 127) - 11);
      -bound <= Value(Decode(Encode(x))) - Value(x) <= bound
  {
    hide Int, Encode, Decode, Rounded, Sign, Number, MagnitudeOf, Value, Trimmed, Pow2;
    NormalNumber(x);
    RoundTrip(x);
    RoundedNumber(x);
    SignComesBack(x);
    NumberSplits(x);
    TrimmedNear(Number(x));
    NearMagnitude(Number(x), Number(Decode(Encode(x))));
    TwelvePlaces(Number(x) / 0x80_0000 - 150);
    SameSignNear(x, Decode(Encode(x)), Pow2(Number(x) / 0x80_0000 - 138));
  }

  lemma FourPlaces(k: int)
    ensures Pow2(k + 4) == 16.0 * Pow2(k)
  {
    hide Pow2;
    Pow2OneMore(k);
    Pow2OneMore(k + 1);
    Pow2OneMore(k + 2);
    Pow2OneMore(k + 3);
  }

  lemma TwelvePlaces(k: int)
    ensures Pow2(k + 12) == 4096.0 * Pow2(k)
  {
    hide Pow2;
    FourPlaces(k);
    FourPlaces(k + 4);
    FourPlaces(k + 8);
  }

  // ----- What a half stands for

  /** The number of a half without its sign, as IEEE 754 has it for the finite ones: five bits of
      exponent with a bias of 15, and ten of fraction. */
  function HalfMagnitudeOf(n: nat): real {
    var e, m := n / 0x400, n % 0x400;
    if e == 0 then Scaled(m, Pow2(-24)) else Scaled(0x400 + m, Pow2(e - 25))
  }

  lemma ScaledByPower(m: nat, k: int)
    ensures Scaled(0x2000 * m, Pow2(k)) == Scaled(m, Pow2(k + 13))
  {
    hide Pow2, Mul;
    TwelvePlaces(k);
    Pow2OneMore(k + 12);
    MulRegroups(m as real, Pow2(k));
  }

  lemma MulRegroups(r: real, s: real)
    ensures Mul(8192.0 * r, s) == Mul(r, 8192.0 * s)
  {
  }

  /** Decoding a half with a nonzero exponent is exact. */
  lemma DecodeIsExact(h: bv16)
    requires HalfNumber(h) >= 0x400 && HalfNumber(h) < 0x8000
    ensures MagnitudeOf(Number(Decode(h))) == HalfMagnitudeOf(HalfNumber(h))
    ensures Value(Decode(h))
      == if h as bv32 & 0x8000 == 0 then HalfMagnitudeOf(HalfNumber(h)) else -HalfMagnitudeOf(HalfNumber(h))
  {
    DecodeNumber(h);
    DecodedMagnitude(HalfNumber(h));
    DecodeSign(h);
    SignShiftedUp(h as bv32);
  }

  lemma DecodedMagnitude(n: nat)
    requires 0x400 <= n < 0x8000
    ensures MagnitudeOf(DecodedNumber(n)) == HalfMagnitudeOf(n)
  {
    hide Pow2, Scaled;
    var e, m := n / 0x400, n % 0x400;
    assert DecodedNumber(n) == 0x80_0000 * (e + 112) + 0x2000 * m;
    ScaledByPower(0x400 + m, e - 38);
  }

  lemma SignShiftedUp(h: bv32)
    ensures (h & 0x8000) << 16 == 0 <==> h & 0x8000 == 0
  {
  }

  // ----- The denormal halves

  function TwoTo(k: nat): (p: nat)
    ensures p > 0
  {
    if k == 0 then 1 else 2 * TwoTo(k - 1)
  }

  /** Halving times over leaves the quotient. */
  lemma {:induction false} HalfTimesBounds(v: nat, k: nat)
    ensures TwoTo(k) * HalfTimes(v, k) <= v < TwoTo(k) * HalfTimes(v, k) + TwoTo(k)
    decreases k
  {
    if k > 0 {
      HalfTimesBounds(v / 2, k - 1);
      QuotientDoubles(v, TwoTo(k - 1), HalfTimes(v / 2, k - 1), TwoTo(k));
    }
  }

  lemma QuotientDoubles(v: nat, p: nat, q: nat, r: nat)
    requires p * q <= v / 2 < p * q + p && r == 2 * p
    ensures r * q <= v < r * q + r
  {
    assert r * q == 2 * (p * q);
  }

  lemma {:induction false} TwoToIsPow2(k: nat)
    ensures TwoTo(k) as real == Pow2(k)
  {
    if k > 0 {
      TwoToIsPow2(k - 1);
    }
  }

  lemma {:induction false} ScaledByPowers(m: nat, j: nat, k: int)
    ensures Scaled(TwoTo(j) * m, Pow2(k)) == Scaled(m, Pow2(k + j))
  {
    if j > 0 {
      ScaledByPowers(m, j - 1, k + 1);
      ScaledByTwo(TwoTo(j - 1) * m, k);
      assert TwoTo(j) * m == 2 * (TwoTo(j - 1) * m);
    }
  }

  lemma ScaledByTwo(m: nat, k: int)
    ensures Scaled(2 * m, Pow2(k)) == Scaled(m, Pow2(k + 1))
  {
    Pow2OneMore(k);
    MulDoubles(m as real, Pow2(k));
  }

  lemma MulDoubles(r: real, s: real)
    ensures Mul(2.0 * r, s) == Mul(r, 2.0 * s)
  {
  }

  lemma ScaledNear(n: nat, s: nat, p: nat, unit: real)
    requires unit > 0.0 && s - p <= n <= s + p
    ensures -Scaled(p, unit) <= Scaled(n, unit) - Scaled(s, unit) <= Scaled(p, unit)
  {
    hide Mul;
    MulOfMinus(n as real, s as real, unit);
    MulInOrder(-(p as real), n as real - s as real, unit);
    MulInOrder(n as real - s as real, p as real, unit);
    MulNegates(p as real, unit);
  }

  lemma MulNegates(r: real, s: real)
    ensures Mul(-r, s) == -Mul(r, s)
  {
  }

  /** Twice the rounded quotient is within one of the number divided. */
  lemma RoundedQuotient(v: nat, k: nat, d: nat)
    requires 13 <= k && d == (HalfTimes(v / 0x2000, k - 13) + 1) / 2
    ensures v - TwoTo(k) <= 2 * (TwoTo(k) * d) <= v + TwoTo(k)
  {
    hide TwoTo, HalfTimes;
    HalfTimesBounds(v / 0x2000, k - 13);
    TwoToThirteenMore(k - 13);
    QuotientRounds(v, TwoTo(k - 13), HalfTimes(v / 0x2000, k - 13), TwoTo(k), d);
  }

  lemma QuotientRounds(v: nat, p: nat, q: nat, r: nat, d: nat)
    requires p * q <= v / 0x2000 < p * q + p && r == 0x2000 * p && d == (q + 1) / 2
    ensures v - r <= 2 * (r * d) <= v + r
  {
    assert 2 * (r * d) == 0x2000 * (p * (2 * d));
    if 2 * d == q {
      assert p * (2 * d) == p * q;
    } else {
      assert 2 * d == q + 1;
      assert p * (2 * d) == p * q + p;
    }
  }

  lemma TwoToThirteenMore(k: nat)
    ensures TwoTo(k + 13) == 0x2000 * TwoTo(k)
  {
    TwoToFourMore(k);
    TwoToFourMore(k + 4);
    TwoToFourMore(k + 8);
    assert TwoTo(k + 13) == 2 * TwoTo(k + 12);
  }

  lemma TwoToFourMore(k: nat)
    ensures TwoTo(k + 4) == 16 * TwoTo(k)
  {
    assert TwoTo(k + 1) == 2 * TwoTo(k) && TwoTo(k + 2) == 2 * TwoTo(k + 1);
    assert TwoTo(k + 3) == 2 * TwoTo(k + 2) && TwoTo(k + 4) == 2 * TwoTo(k + 3);
  }

  /** A number that rounding lifts into the next binade is encoded by that power of two. */
  lemma LiftedQuotient(m: nat, k: nat, d: nat)
    requires m < 0x1000 && 13 <= k <= 23 && d == (HalfTimes((0x007F_F000 + m) / 0x2000, k - 13) + 1) / 2
    ensures if k < 23 then 2 * (TwoTo(k) * d) == 0x80_0000 else d == 0
    ensures TwoTo(k) >= 0x2000 && (k == 23 ==> TwoTo(k) == 0x80_0000)
  {
    assert (0x007F_F000 + m) / 0x2000 == 0x3FF;
    OnesHalved(k - 13, 23 - k);
    TwoToThirteenMore(k - 13);
    if k < 23 {
      assert TwoTo(23 - k) == 2 * TwoTo(22 - k) && d == TwoTo(22 - k);
      PowersMeet(k, 22 - k);
      TwentyTwo();
    }
  }

  lemma {:induction false} OnesHalved(j: nat, l: nat)
    requires j + l == 10
    ensures HalfTimes(0x3FF, j) == TwoTo(l) - 1 && (j == 10 ==> TwoTo(j) == 0x400)
  {
    assert TwoTo(10) == 0x400 by {
      assert TwoTo(5) == 32 && TwoTo(10) == 32 * TwoTo(5);
    }
    OnesHalvedFrom(10, j);
  }

  lemma {:induction false} OnesHalvedFrom(l: nat, j: nat)
    requires j <= l
    ensures HalfTimes(TwoTo(l) - 1, j) == TwoTo(l - j) - 1
    decreases j
  {
    if j > 0 {
      assert (TwoTo(l) - 1) / 2 == TwoTo(l - 1) - 1;
      OnesHalvedFrom(l - 1, j - 1);
    }
  }

  lemma {:induction false} PowersMeet(k: nat, l: nat)
    ensures TwoTo(k) * TwoTo(l) == TwoTo(k + l)
  {
    if l > 0 {
      PowersMeet(k, l - 1);
      assert TwoTo(k) * TwoTo(l) == 2 * (TwoTo(k) * TwoTo(l - 1));
    }
  }

  lemma TwentyTwo()
    ensures TwoTo(22) == 0x40_0000
  {
    assert TwoTo(1) == 2;
    TwoToThirteenMore(0);
    TwoToFourMore(13);
    TwoToFourMore(17);
    assert TwoTo(22) == 2 * TwoTo(21);
  }

  /** The significand of a number that rounds into binade `e`, in half units of that binade. */
  lemma SignificandInHalfUnits(a: nat, e: nat) returns (s: nat)
    requires 101 < e < 113 && (a + 0x1000) / 0x80_0000 == e
    ensures MagnitudeOf(a) == Scaled(s, Pow2(e - 151))
    ensures var m := (a + 0x1000) % 0x80_0000;
      if m >= 0x1000 then s == 2 * (0x007F_F000 + m) else s == 0x00FF_F000 + m
  {
    hide Pow2, Scaled;
    var m := (a + 0x1000) % 0x80_0000;
    if m >= 0x1000 {
      assert a / 0x80_0000 == e && a % 0x80_0000 == m - 0x1000;
      ScaledByTwo(0x007F_F000 + m, e - 151);
      return 2 * (0x007F_F000 + m);
    }
    assert a / 0x80_0000 == e - 1 && a % 0x80_0000 == m + 0x7F_F000;
    return 0x00FF_F000 + m;
  }

  /** In those units, the encoded half is within half a unit of its last place. */
  lemma DenormalNear(a: nat, e: nat, d: nat, s: nat)
    requires 101 < e < 113 && (a + 0x1000) / 0x80_0000 == e && d == EncodedNumber(a + 0x1000)
    requires var m := (a + 0x1000) % 0x80_0000;
      if m >= 0x1000 then s == 2 * (0x007F_F000 + m) else s == 0x00FF_F000 + m
    ensures s - TwoTo(126 - e) <= TwoTo(127 - e) * d <= s + TwoTo(126 - e)
  {
    var m, k := (a + 0x1000) % 0x80_0000, 125 - e;
    assert TwoTo(k + 1) == 2 * TwoTo(k) && TwoTo(k + 2) == 4 * TwoTo(k);
    assert TwoTo(k + 2) * d == 2 * (2 * (TwoTo(k) * d));
    if m >= 0x1000 {
      RoundedQuotient(0x007F_F000 + m, k, d);
    } else {
      LiftedQuotient(m, k, d);
    }
  }

  lemma SmallHalfMagnitude(d: nat)
    requires d <= 0x400
    ensures HalfMagnitudeOf(d) == Scaled(d, Pow2(-24))
  {
  }

  lemma EncodedAtMost(n: nat)
    requires n / 0x80_0000 < 113
    ensures EncodedNumber(n) <= 0x400
  {
    EncodedInOrder(n, 0x3880_0000);
  }

  lemma DenormalMagnitudeNear(a: nat)
    requires 101 < (a + 0x1000) / 0x80_0000 < 113
    ensures -Pow2(-25) <= HalfMagnitudeOf(EncodedNumber(a + 0x1000)) - MagnitudeOf(a) <= Pow2(-25)
  {
    hide EncodedNumber, MagnitudeOf, HalfMagnitudeOf, Mul, Pow2, TwoTo;
    var e, d := (a + 0x1000) / 0x80_0000, EncodedNumber(a + 0x1000);
    var s := SignificandInHalfUnits(a, e);
    DenormalNear(a, e, d, s);
    EncodedAtMost(a + 0x1000);
    SmallHalfMagnitude(d);
    Pow2OneMore(e - 151);
    ScaledNear(TwoTo(127 - e) * d, s, TwoTo(126 - e), Pow2(e - 151));
    ScaledByPowers(d, 127 - e, e - 151);
    PowerIsScaled(126 - e, e - 151);
  }

  lemma PowerIsScaled(j: nat, k: int)
    ensures Scaled(TwoTo(j), Pow2(k)) == Pow2(k + j)
  {
    hide Pow2, TwoTo;
    ScaledByPowers(1, j, k);
    assert TwoTo(j) * 1 == TwoTo(j);
    ScaledOnce(Pow2(k + j));
  }

  lemma ScaledOnce(unit: real)
    ensures Scaled(1, unit) == unit
  {
  }

  lemma VanishingMagnitude(a: nat)
    requires (a + 0x1000) / 0x80_0000 <= 101
    ensures 0.0 <= MagnitudeOf(a) <= Pow2(-25)
    ensures HalfMagnitudeOf(EncodedNumber(a + 0x1000)) == 0.0
  {
    MagnitudesInOrder(a, 102 * 0x80_0000);
    LeastPower();
  }

  lemma LeastPower()
    ensures MagnitudeOf(102 * 0x80_0000) == Pow2(-25)
  {
    hide TwoTo, Pow2;
    PowerIsScaled(23, -48);
    SmallPowers();
  }

  /** Below the normal range the encoded half stands for a number within half of the least half. */
  lemma DenormalErrorBound(x: bv32)
    requires KeepsSign(x) && Number(Rounded(x)) < 0x3880_0000
    ensures -Pow2(-25) <= HalfMagnitudeOf(HalfNumber(Encode(x))) - MagnitudeOf(Number(x)) <= Pow2(-25)
  {
    hide Number, Encode, Rounded, HalfNumber, EncodedNumber, MagnitudeOf, HalfMagnitudeOf, Pow2;
    EncodeNumber(x);
    RoundedNumber(x);
    Pow2OneMore(-25);
    if Number(Rounded(x)) / 0x80_0000 > 101 {
      DenormalMagnitudeNear(Number(x));
    } else {
      VanishingMagnitude(Number(x));
    }
  }

  // ----- Known numbers

  lemma ThirteenTwos()
    ensures TwoTo(13) == 8192
  {
    TwoToThirteenMore(0);
  }

  lemma HugePower()
    ensures TwoTo(104) == 20282409603651670423947251286016
  {
    hide TwoTo;
    ThirteenTwos();
    PowersMeet(13, 13);
    PowersMeet(26, 26);
    PowersMeet(52, 52);
  }

  lemma HugeReal()
    ensures Pow2(104) == 20282409603651670423947251286016.0
  {
    hide Pow2, TwoTo;
    HugePower();
    PowerIsScaled(104, 0);
    UnitPower();
    ScaledByOne(TwoTo(104));
  }

  lemma ScaledByOne(m: nat)
    ensures Scaled(m, 1.0) == m as real
  {
  }

  /** The largest finite `float`. */
  lemma LargestFloat()
    ensures MagnitudeOf(0x7F7F_FFFF) == Neighbors.FLOAT_MAX
  {
    hide Pow2;
    HugeReal();
  }

  lemma UnitPower()
    ensures Pow2(0) == 1.0
  {
  }

  /** One, two and a half. */
  lemma KnownValues()
    ensures MagnitudeOf(0x3F80_0000) == 1.0 && MagnitudeOf(0x4000_0000) == 2.0 && MagnitudeOf(0x3F00_0000) == 0.5
    ensures HalfMagnitudeOf(0x3C00) == 1.0 && HalfMagnitudeOf(0x4000) == 2.0
  {
    hide TwoTo;
    PowerIsScaled(23, -23);
    PowerIsScaled(23, -22);
    PowerIsScaled(23, -24);
    PowerIsScaled(10, -10);
    PowerIsScaled(10, -9);
    SmallPowers();
  }

  lemma SmallPowers()
    ensures TwoTo(23) == 0x80_0000 && TwoTo(10) == 0x400
    ensures Pow2(0) == 1.0 && Pow2(1) == 2.0 && Pow2(-1) == 0.5
  {
    TwentyTwo();
    OnesHalved(10, 0);
  }

  /** One and minus two, encoded and decoded. */
  lemma KnownPatterns()
    ensures Encode(0x3F80_0000) == 0x3C00 && Decode(0x3C00) == 0x3F80_0000
    ensures Encode(0xC000_0000) == 0xC000 && Decode(0xC000) == 0xC000_0000
  {
  }
}
