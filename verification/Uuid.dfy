/** Universally unique identifiers and their text form (include/svs/lib/uuid.h). */
module Uuid {
  import opened Common

  datatype Error = WrongLength | NotHex | Malformed

  // ----- Hexadecimal digits

  /** The masks and shifts of the source as the sums and quotients used here. */
  lemma MasksAreRemainders(b: bv8, h: bv8, l: bv8)
    requires h <= 15 && l <= 15
    ensures (b >> 4) & 0xF == b / 16 && b & 0xF == b % 16
    ensures (h << 4) | l == 16 * h + l
    ensures (b & 0x0F) | 0x40 == 64 + b % 16
    ensures (b & 0x3F) | 0x80 == 128 + b % 64
  {
  }

  predicate IsHex(ch: char) {
    '0' <= ch <= '9' || 'a' <= ch <= 'f' || 'A' <= ch <= 'F'
  }

  function LowerCase(ch: char): char {
    if 'A' <= ch <= 'F' then ch - 'A' + 'a' else ch
  }

  /** `ascii_hex_to_byte`. */
  function AsciiHexToByte(ch: char): (r: Result<nat, Error>)
    ensures if IsHex(ch) then r.Ok? && r.value < 16 else r == Err(NotHex)
  {
    if '0' <= ch <= '9' then Ok((ch - '0') as nat)
    else if 'a' <= ch <= 'f' then Ok((ch - 'a') as nat + 10)
    else if 'A' <= ch <= 'F' then Ok((ch - 'A') as nat + 10)
    else Err(NotHex)
  }

  /** `nibble_to_ascii_hex`. */
  function NibbleToAsciiHex(nibble: nat): (ch: char)
    requires nibble < 16
    ensures IsHex(ch) && LowerCase(ch) == ch && AsciiHexToByte(ch) == Ok(nibble)
  {
    if nibble < 10 then '0' + nibble as char else 'a' + (nibble - 10) as char
  }

  /** `ascii_octet_to_byte`. */
  function AsciiOctetToByte(hi: char, lo: char): (r: Result<Byte, Error>)
    ensures if IsHex(hi) && IsHex(lo) then r.Ok? else r == Err(NotHex)
  {
    var h, l := AsciiHexToByte(hi), AsciiHexToByte(lo);
    if h.Ok? && l.Ok? then Ok(16 * h.value + l.value) else Err(NotHex)
  }

  /** `byte_to_ascii_hex`. */
  function ByteToAsciiHex(byte: Byte): (digits: (char, char))
    ensures AsciiOctetToByte(digits.0, digits.1) == Ok(byte)
  {
    (NibbleToAsciiHex(byte / 16), NibbleToAsciiHex(byte % 16))
  }

  lemma DigitOfByte(ch: char)
    requires IsHex(ch)
    ensures NibbleToAsciiHex(AsciiHexToByte(ch).value) == LowerCase(ch)
  {
  }

  lemma HexOfOctet(hi: char, lo: char)
    requires IsHex(hi) && IsHex(lo)
    ensures ByteToAsciiHex(AsciiOctetToByte(hi, lo).value) == (LowerCase(hi), LowerCase(lo))
  {
    hide AsciiHexToByte, NibbleToAsciiHex, LowerCase;
    DigitOfByte(hi);
    DigitOfByte(lo);
    var h, l := AsciiHexToByte(hi).value, AsciiHexToByte(lo).value;
    assert (16 * h + l) / 16 == h && (16 * h + l) % 16 == l;
  }

  /** The digits and their values. */
  lemma DigitsAre(v: nat)
    requires v < 16
    ensures NibbleToAsciiHex(v) == "0123456789abcdef"[v]
    ensures AsciiHexToByte("0123456789abcdef"[v]) == AsciiHexToByte("0123456789ABCDEF"[v]) == Ok(v)
  {
  }

  lemma OctetIs(h: nat, l: nat)
    requires h < 16 && l < 16
    ensures AsciiOctetToByte("0123456789abcdef"[h], "0123456789abcdef"[l]) == Ok(16 * h + l)
  {
    DigitsAre(h);
    DigitsAre(l);
  }

  // ----- The layout, section 3 of RFC 4122

  const LENGTH: nat := 36
  const BYTES: nat := 16

  predicate IsHyphenPlace(p: int) {
    p == 8 || p == 13 || p == 18 || p == 23
  }

  predicate Good(str: string, p: nat)
    requires p < |str|
  {
    if IsHyphenPlace(p) then str[p] == '-' else IsHex(str[p])
  }

  predicate WellFormed(str: string) {
    |str| == LENGTH && forall p :: 0 <= p < LENGTH ==> Good(str, p)
  }

  /** How many hyphens stand before the digits of byte `i`. */
  function HyphensBefore(i: nat): nat {
    (if i > 3 then 1 else 0) + (if i > 5 then 1 else 0) + (if i > 7 then 1 else 0) + (if i > 9 then 1 else 0)
  }

  /** Where the digits of byte `i` begin. */
  function Place(i: nat): nat {
    2 * i + HyphensBefore(i)
  }

  /** Where the digits of the bytes begin, one by one. */
  const PLACES: seq<nat> := [0, 2, 4, 6, 9, 11, 14, 16, 19, 21, 24, 26, 28, 30, 32, 34]

  lemma PlacesAre(i: nat)
    requires i < 16
    ensures PLACES[i] == Place(i) && PLACES[i] + 1 < 36
  {
  }

  lemma FirstPlaces()
    ensures Place(0) == 0 && Place(BYTES) == LENGTH
  {
  }

  /** The byte whose digits stand at `p`. */
  function ByteAt(p: nat): nat {
    (p - (if p > 8 then 1 else 0) - (if p > 13 then 1 else 0) - (if p > 18 then 1 else 0)
      - (if p > 23 then 1 else 0)) / 2
  }

  /** Every place is a hyphen's, or one of the two of exactly one byte. */
  lemma PlacesTile(p: nat, i: nat)
    requires p < LENGTH && i < BYTES
    ensures Place(i) + 1 < LENGTH && !IsHyphenPlace(Place(i)) && !IsHyphenPlace(Place(i) + 1)
    ensures !IsHyphenPlace(p) ==> ByteAt(p) < BYTES
    ensures !IsHyphenPlace(p) ==> (p == Place(i) || p == Place(i) + 1 <==> i == ByteAt(p))
  {
  }

  /** `flip`. */
  function Flip(i: nat): nat
    requires i < BYTES
    ensures Flip(i) < BYTES
  {
    BYTES - i - 1
  }

  /** Byte `i` of a well-formed text. */
  function OctetAt(str: string, i: nat): (byte: Byte)
    requires WellFormed(str) && i < BYTES
  {
    PlacesTile(0, i);
    assert Good(str, Place(i)) && Good(str, Place(i) + 1);
    AsciiOctetToByte(str[Place(i)], str[Place(i) + 1]).value
  }

  /** The bytes a well-formed text spells, last byte first. */
  function BytesOf(str: string): (uuid: seq<Byte>)
    requires WellFormed(str)
    ensures |uuid| == BYTES
  {
    seq(BYTES, b requires 0 <= b < BYTES => OctetAt(str, Flip(b)))
  }

  function CharAt(uuid: seq<Byte>, p: nat): char
    requires |uuid| == BYTES && p < LENGTH
  {
    if IsHyphenPlace(p) then '-'
    else
      PlacesTile(p, 0);
      var digits := ByteToAsciiHex(uuid[Flip(ByteAt(p))]);
      if p == Place(ByteAt(p)) then digits.0 else digits.1
  }

  function TextOf(uuid: seq<Byte>): (str: string)
    requires |uuid| == BYTES
    ensures |str| == LENGTH
  {
    seq(LENGTH, p requires 0 <= p < LENGTH => CharAt(uuid, p))
  }

  function Lowered(str: string): (r: string)
    ensures |r| == |str|
  {
    seq(|str|, p requires 0 <= p < |str| => LowerCase(str[p]))
  }

  lemma DigitsPrinted(uuid: seq<Byte>, i: nat)
    requires |uuid| == BYTES && i < BYTES
    ensures Place(i) + 1 < LENGTH
    ensures (CharAt(uuid, Place(i)), CharAt(uuid, Place(i) + 1)) == ByteToAsciiHex(uuid[Flip(i)])
  {
    PlacesTile(Place(i), i);
    PlacesTile(Place(i) + 1, i);
  }

  lemma HyphenPrinted(uuid: seq<Byte>, i: nat)
    requires |uuid| == BYTES && (i == 3 || i == 5 || i == 7 || i == 9)
    ensures Place(i + 1) == Place(i) + 3 && CharAt(uuid, Place(i) + 2) == '-'
  {
  }

  lemma TextWellFormed(uuid: seq<Byte>)
    requires |uuid| == BYTES
    ensures WellFormed(TextOf(uuid)) && Lowered(TextOf(uuid)) == TextOf(uuid)
  {
    var str := TextOf(uuid);
    forall p | 0 <= p < LENGTH ensures Good(str, p) && LowerCase(str[p]) == str[p] {
      assert str[p] == CharAt(uuid, p);
    }
  }

  /** Every identifier prints to a well-formed text that spells it. */
  lemma BytesOfText(uuid: seq<Byte>)
    requires |uuid| == BYTES
    ensures WellFormed(TextOf(uuid)) && BytesOf(TextOf(uuid)) == uuid
  {
    var str := TextOf(uuid);
    TextWellFormed(uuid);
    forall b | 0 <= b < BYTES ensures BytesOf(str)[b] == uuid[b] {
      var i := Flip(b);
      DigitsPrinted(uuid, i);
      assert Flip(i) == b;
      assert str[Place(i)] == CharAt(uuid, Place(i)) && str[Place(i) + 1] == CharAt(uuid, Place(i) + 1);
      assert OctetAt(str, i) == uuid[b];
    }
  }

  lemma CharOfBytes(str: string, p: nat)
    requires WellFormed(str) && p < LENGTH
    ensures CharAt(BytesOf(str), p) == LowerCase(str[p])
  {
    assert Good(str, p);
    if !IsHyphenPlace(p) {
      var i := ByteAt(p);
      PlacesTile(p, i);
      HexOfOctet(str[Place(i)], str[Place(i) + 1]) by {
        assert Good(str, Place(i)) && Good(str, Place(i) + 1);
      }
      assert BytesOf(str)[Flip(i)] == OctetAt(str, Flip(Flip(i))) == OctetAt(str, i);
    }
  }

  /** A well-formed text comes back with its letters in lower case. */
  lemma TextOfBytes(str: string)
    requires WellFormed(str)
    ensures TextOf(BytesOf(str)) == Lowered(str)
  {
    forall p | 0 <= p < LENGTH ensures TextOf(BytesOf(str))[p] == Lowered(str)[p] {
      CharOfBytes(str, p);
    }
  }

  // ----- Parsing and printing

  const HYPHENS: seq<nat> := [3, 5, 7, 9, BYTES]

  /** The first place that does not fit the layout, if any. */
  ghost predicate FirstBad(str: string, p: nat) {
    p < |str| && !Good(str, p) && forall q :: 0 <= q < p ==> Good(str, q)
  }

  /** The string constructor: exactly the well-formed texts are accepted, and the first place
      that does not fit decides the error. */
  method Parse(str: string) returns (r: Result<seq<Byte>, Error>)
    ensures |str| != LENGTH ==> r == Err(WrongLength)
    ensures WellFormed(str) ==> r == Ok(BytesOf(str))
    ensures WellFormed(str) ==> |r.value| == 16 && forall i :: 0 <= i < 16 ==> StoredAt(str, r.value, i)
    ensures |str| == LENGTH && !WellFormed(str) ==>
      exists p: nat :: FirstBad(str, p) && r == Err(if IsHyphenPlace(p) then Malformed else NotHex)
  {
    if |str| != LENGTH {
      return Err(WrongLength);
    }
    hide AsciiOctetToByte, Spells, Place, IsHyphenPlace;
    FirstPlaces();
    var uuid: seq<Byte> := seq(BYTES, _ => 0);
    var at, next, i := 0, 0, 0;
    while at != |str|
      invariant i <= BYTES && at == Place(i) && |uuid| == BYTES
      invariant next == HyphensBefore(i)
      invariant forall p :: 0 <= p < at ==> Good(str, p)
      invariant forall b {:trigger Spells(str, uuid, b)} :: 0 <= b < i ==> Spells(str, uuid, b)
      decreases BYTES - i
    {
      PlacesTile(0, i);
      var octet := AsciiOctetToByte(str[at], str[at + 1]);
      if octet.Err? {
        BadDigit(str, i);
        return Err(octet.error);
      }
      at := at + 2;
      ReadSoFar(str, i);
      ghost var was := uuid;
      uuid := uuid[Flip(i) := octet.value];
      SpelledMore(str, was, i, octet.value, uuid);
      if i == HYPHENS[next] {
        if str[at] != '-' {
          assert FirstBad(str, at);
          return Err(Malformed);
        }
        at := at + 1;
        next := next + 1;
      }
      i := i + 1;
    }
    assert WellFormed(str);
    SpelledOut(str, uuid);
    ByteByPlace(str);
    return Ok(uuid);
  }

  /** The digits at place `i` of the list are those of the byte that many from the last. */
  predicate StoredAt(str: string, uuid: seq<Byte>, i: nat)
    requires |str| == 36 && |uuid| == 16 && i < 16
  {
    PlacesAre(i);
    AsciiOctetToByte(str[PLACES[i]], str[PLACES[i] + 1]) == Ok(uuid[15 - i])
  }

  /** The bytes are stored from the last in the text to the first. */
  lemma ByteByPlace(str: string)
    requires WellFormed(str)
    ensures |BytesOf(str)| == 16 && forall i :: 0 <= i < 16 ==> StoredAt(str, BytesOf(str), i)
  {
    forall i | 0 <= i < 16 ensures StoredAt(str, BytesOf(str), i) {
      hide AsciiOctetToByte;
      PlacesAre(i);
      PlacesTile(0, i);
      assert Flip(15 - i) == i && BytesOf(str)[15 - i] == OctetAt(str, i);
      assert Good(str, Place(i)) && Good(str, Place(i) + 1);
      OctetOfHex(str[Place(i)], str[Place(i) + 1]);
    }
  }

  lemma OctetOfHex(hi: char, lo: char)
    ensures IsHex(hi) && IsHex(lo) ==> AsciiOctetToByte(hi, lo).Ok?
  {
  }

  /** The text shows the bytes in that order, as lower-case digits. */
  lemma TextByPlace(uuid: seq<Byte>, i: nat)
    requires |uuid| == 16 && i < 16
    ensures PLACES[i] + 1 < 36
    ensures TextOf(uuid)[PLACES[i]] == "0123456789abcdef"[uuid[15 - i] / 16]
    ensures TextOf(uuid)[PLACES[i] + 1] == "0123456789abcdef"[uuid[15 - i] % 16]
    ensures TextOf(uuid)[8] == TextOf(uuid)[13] == TextOf(uuid)[18] == TextOf(uuid)[23] == '-'
  {
    PlacesAre(i);
    DigitsPrinted(uuid, i);
    DigitsAre(uuid[15 - i] / 16);
    DigitsAre(uuid[15 - i] % 16);
  }

  /** Byte `i` has been read. */
  predicate Spells(str: string, uuid: seq<Byte>, i: nat)
    requires |str| == LENGTH && |uuid| == BYTES && i < BYTES
  {
    PlacesTile(0, i);
    AsciiOctetToByte(str[Place(i)], str[Place(i) + 1]) == Ok(uuid[Flip(i)])
  }

  lemma SpelledMore(str: string, uuid: seq<Byte>, i: nat, octet: Byte, more: seq<Byte>)
    requires |str| == LENGTH && |uuid| == BYTES && i < BYTES && Place(i) + 1 < LENGTH
    requires AsciiOctetToByte(str[Place(i)], str[Place(i) + 1]) == Ok(octet)
    requires forall b {:trigger Spells(str, uuid, b)} :: 0 <= b < i ==> Spells(str, uuid, b)
    requires more == uuid[Flip(i) := octet]
    ensures forall b {:trigger Spells(str, more, b)} :: 0 <= b < i + 1 ==> Spells(str, more, b)
  {
    forall b | 0 <= b < i + 1 ensures Spells(str, more, b) {
      assert b < i ==> Spells(str, uuid, b);
    }
  }

  lemma ReadSoFar(str: string, i: nat)
    requires |str| == LENGTH && i < BYTES && Place(i) + 1 < LENGTH
    requires forall p :: 0 <= p < Place(i) ==> Good(str, p)
    requires AsciiOctetToByte(str[Place(i)], str[Place(i) + 1]).Ok?
    ensures forall p :: 0 <= p < Place(i) + 2 ==> Good(str, p)
    ensures if i == 3 || i == 5 || i == 7 || i == 9 then
        Place(i + 1) == Place(i) + 3 <= LENGTH && IsHyphenPlace(Place(i) + 2)
      else Place(i + 1) == Place(i) + 2
  {
    PlacesTile(0, i);
    if i + 1 < BYTES {
      PlacesTile(0, i + 1);
    }
  }

  /** Digits that do not convert hold the first place that does not fit. */
  lemma BadDigit(str: string, i: nat)
    requires |str| == LENGTH && i < BYTES && Place(i) + 1 < LENGTH
    requires forall p :: 0 <= p < Place(i) ==> Good(str, p)
    requires AsciiOctetToByte(str[Place(i)], str[Place(i) + 1]).Err?
    ensures exists p :: 0 <= p < LENGTH && FirstBad(str, p) && !IsHyphenPlace(p)
  {
    PlacesTile(0, i);
    var p := if IsHex(str[Place(i)]) then Place(i) + 1 else Place(i);
    assert FirstBad(str, p);
  }

  lemma SpelledOut(str: string, uuid: seq<Byte>)
    requires WellFormed(str) && |uuid| == BYTES
    requires forall b {:trigger Spells(str, uuid, b)} :: 0 <= b < BYTES ==> Spells(str, uuid, b)
    ensures uuid == BytesOf(str)
  {
    forall b | 0 <= b < BYTES ensures uuid[b] == BytesOf(str)[b] {
      assert Flip(Flip(b)) == b;
      assert Spells(str, uuid, Flip(b));
    }
  }

  /** `str`. */
  method Str(uuid: seq<Byte>) returns (s: string)
    requires |uuid| == BYTES
    ensures s == TextOf(uuid)
  {
    hide CharAt, ByteToAsciiHex;
    s := seq(LENGTH, _ => 0 as char);
    var at, next := 0, 0;
    for i := 0 to BYTES
      invariant at == Place(i) && |s| == LENGTH
      invariant next == HyphensBefore(i)
      invariant forall p :: 0 <= p < at ==> s[p] == CharAt(uuid, p)
    {
      DigitsPrinted(uuid, i);
      var digits := ByteToAsciiHex(uuid[Flip(i)]);
      s := s[at := digits.0];
      at := at + 1;
      s := s[at := digits.1];
      at := at + 1;
      if i == HYPHENS[next] {
        HyphenPrinted(uuid, i);
        s := s[at := '-'];
        at := at + 1;
        next := next + 1;
      }
    }
  }

  // ----- Random identifiers, section 4.4 of RFC 4122

  /** The default constructor from its 16 draws, which are stored modulo 256. */
  method Generate(draws: seq<nat>) returns (uuid: seq<Byte>)
    requires |draws| == BYTES && forall i :: 0 <= i < BYTES ==> draws[i] <= 256
    ensures |uuid| == BYTES
    ensures forall b :: 0 <= b < 16 && b != 9 && b != 7 ==> uuid[b] == draws[b] % 256
    ensures uuid[9] == 64 + draws[9] % 256 % 16 && uuid[7] == 128 + draws[7] % 256 % 64
    ensures TextOf(uuid)[14] == '4' && TextOf(uuid)[19] in "89ab"
  {
    uuid := seq(BYTES, _ => 0);
    for i := 0 to BYTES
      invariant |uuid| == BYTES
      invariant forall b :: 0 <= b < i ==> uuid[b] == draws[b] % 256
    {
      uuid := uuid[i := draws[i] % 256];
    }
    var version := uuid[Flip(6)];
    uuid := uuid[Flip(6) := 64 + version % 16];
    var reserved := uuid[Flip(8)];
    uuid := uuid[Flip(8) := 128 + reserved % 64];
    TopBits(version, reserved);
    VersionAndVariantPrint(uuid);
  }

  lemma TopBits(version: Byte, reserved: Byte)
    ensures (64 + version % 16) / 16 == 4 && 8 <= (128 + reserved % 64) / 16 < 12
  {
  }

  /** Version 4 prints as the digit at place 14, the variant as one of four at place 19. */
  lemma VersionAndVariantPrint(uuid: seq<Byte>)
    requires |uuid| == BYTES
    ensures TextOf(uuid)[14] == '4' <==> uuid[Flip(6)] / 16 == 4
    ensures TextOf(uuid)[19] in "89ab" <==> 8 <= uuid[Flip(8)] / 16 < 12
  {
    assert TextOf(uuid)[14] == CharAt(uuid, 14) && TextOf(uuid)[19] == CharAt(uuid, 19);
    assert ByteAt(14) == 6 && ByteAt(19) == 8;
  }
}
