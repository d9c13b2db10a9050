/** Turning a window of 16-bit words into a typed value. */
module Decode {
  import opened Registers
  import opened Options
  import Utf8

  /** The value of a register: unscaled integers, scaled numbers, or formatted text. */
  datatype Value = Int(i: int) | Int64(i: int) | Float(x: real) | Text(text: string)

  datatype Error = OutOfBounds | UnsupportedLength | UnknownType

  datatype Result = Ok(value: Value) | Err(error: Error)

  function Digit(d: nat): char
    requires d < 10
  {
    "0123456789"[d]
  }

  /** The decimal numeral of a natural number. */
  function Itoa(n: nat): (s: string)
    ensures s != [] && forall c :: c in s ==> '0' <= c <= '9'
  {
    if n < 10 then [Digit(n)] else Itoa(n / 10) + [Digit(n % 10)]
  }

  /** %02d */
  function TwoDigits(n: nat): string {
    if n < 10 then "0" + Itoa(n) else Itoa(n)
  }

  function High(w: Word): nat { w / 256 }

  function Low(w: Word): nat { w % 256 }

  /** Two words as one 32-bit number. */
  function Double(hi: Word, lo: Word): int {
    hi as int * 65536 + lo
  }

  function SignExtend16(v: Word): int {
    if v > 32767 then v - 65536 else v
  }

  function SignExtend32(v: int): int {
    if v > 2147483647 then v - 4294967296 else v
  }

  /** The two bytes of a word in decimal. */
  function Pair(w: Word): string {
    TwoDigits(High(w)) + " " + TwoDigits(Low(w))
  }

  function FormatByte(raw: seq<Word>, length: int): Result
    requires 0 < length <= |raw|
  {
    match length
    case 1 => Ok(Text(Pair(raw[0])))
    case 2 => Ok(Text(Pair(raw[0]) + "  " + Pair(raw[1])))
    case 4 => Ok(Text(Pair(raw[0]) + " " + Pair(raw[1]) + "  " + Pair(raw[2]) + " " + Pair(raw[3])))
    case _ => Err(UnsupportedLength)
  }

  /** The lowest `width` bits of n, the highest first. */
  function Binary(n: nat, width: nat): (s: string)
    ensures |s| == width && forall i :: 0 <= i < |s| ==> s[i] == '0' || s[i] == '1'
    decreases width
  {
    if width == 0 then "" else Binary(n / 2, width - 1) + [if n % 2 == 1 then '1' else '0']
  }

  /** One 16-digit binary number per word, separated by single spaces. */
  function FormatBit(raw: seq<Word>): string {
    if raw == [] then ""
    else if |raw| == 1 then Binary(raw[0], 16)
    else FormatBit(raw[..|raw| - 1]) + " " + Binary(raw[|raw| - 1], 16)
  }

  function FormatDat(r1: Word, r2: Word, r3: Word): string {
    TwoDigits(High(r1)) + "-" + TwoDigits(Low(r1)) + "-" + TwoDigits(High(r2)) + " " +
    TwoDigits(Low(r2)) + ":" + TwoDigits(High(r3)) + ":" + TwoDigits(Low(r3))
  }

  /** The bytes of the words, the high one first. */
  function Bytes(raw: seq<Word>): seq<Utf8.Byte> {
    if raw == [] then [] else Bytes(raw[..|raw| - 1]) + [High(raw[|raw| - 1]), Low(raw[|raw| - 1])]
  }

  /** `s` without the elements of `cutset` at its end. */
  function TrimRight<T(==)>(s: seq<T>, cutset: set<T>): (r: seq<T>)
    ensures r <= s
    ensures r != [] ==> r[|r| - 1] !in cutset
    ensures forall i :: |r| <= i < |s| ==> s[i] in cutset
  {
    if s != [] && s[|s| - 1] in cutset then TrimRight(s[..|s| - 1], cutset) else s
  }

  /** The device pads short strings with 0xFF or NUL. */
  function Unpadded(raw: seq<Word>): seq<Utf8.Byte> {
    TrimRight(Bytes(raw), {0xFF, 0})
  }

  /** Valid bytes are UTF-8, any others Latin-1. */
  function AsText(buf: seq<Utf8.Byte>): string {
    if Utf8.Decode(buf).Some? then Utf8.Decode(buf).value else Utf8.Latin1(buf)
  }

  /** Spaces and NULs go from the end of the text. */
  function Str(raw: seq<Word>): string {
    TrimRight(AsText(Unpadded(raw)), {' ', '\0'})
  }

  method DecodeStr(raw: seq<Word>) returns (s: string)
    ensures s == Str(raw)
  {
    hide Utf8.Decode, Utf8.Latin1;
    var buf: seq<Utf8.Byte> := [];
    for i := 0 to |raw|
      invariant buf == Bytes(raw[..i])
    {
      buf := buf + [High(raw[i]), Low(raw[i])];
      assert raw[..i + 1][..i] == raw[..i];
    }
    assert raw[..|raw|] == raw;
    while |buf| > 0
      invariant TrimRight(buf, {0xFF, 0}) == Unpadded(raw)
    {
      var last := buf[|buf| - 1];
      if last != 0xFF && last != 0 {
        break;
      }
      buf := buf[..|buf| - 1];
    }
    assert buf == Unpadded(raw);
    hide TrimRight, Bytes;
    var text := Utf8.Decode(buf);
    if text.Some? {
      s := text.value;
    } else {
      var runes := new char[|buf|];
      for i := 0 to |buf|
        invariant forall k :: 0 <= k < i ==> runes[k] == Utf8.Latin1(buf)[k]
      {
        runes[i] := buf[i] as char;
      }
      s := runes[..];
      assert s == Utf8.Latin1(buf);
    }
    s := TrimRight(s, {' ', '\0'});
  }

  lemma TrimmedPadding<T>(s: seq<T>, padding: seq<T>, cutset: set<T>)
    requires forall x :: x in padding ==> x in cutset
    requires s == [] || s[|s| - 1] !in cutset
    ensures TrimRight(s + padding, cutset) == s
  {
    var whole := s + padding;
    var r := TrimRight(whole, cutset);
    assert forall i :: |s| <= i < |whole| ==> whole[i] in padding;
    assert s != [] ==> whole[|s| - 1] == s[|s| - 1];
    assert r == whole[..|r|] && s == whole[..|s|];
  }

  /** The last byte of an encoded text is neither NUL nor 0xFF, unless the text ends in NUL. */
  lemma {:induction false} EncodedEnd(text: string)
    requires text != "" && text[|text| - 1] != '\0'
    ensures Utf8.Encode(text) != [] && Utf8.Encode(text)[|Utf8.Encode(text)| - 1] !in {0xFF, 0}
  {
    if |text| > 1 {
      EncodedEnd(text[1..]);
    } else {
      assert Utf8.Encode(text) == Utf8.EncodeChar(text[0]) + [];
    }
  }

  /** Scaling makes every integer a number; an unscaled one stays what it is. */
  function Scaled(value: Value, scale: int): Value {
    if scale <= 1 then value else
    match value
    case Int(i) => Float(i as real / scale as real)
    case Int64(i) => Float(i as real / scale as real)
    case _ => value
  }

  function Length(reg: Register): int {
    if reg.length <= 0 then 1 else reg.length
  }

  /** The value before scaling. */
  function Unscaled(typ: DataType, length: int, raw: seq<Word>): Result
    requires 1 <= length <= |raw|
  {
    match typ
    case U16 => Ok(Int(raw[0]))
    case Empty => Ok(Int(raw[0]))
    case S16 => Ok(Int(SignExtend16(raw[0])))
    case I16 => Ok(Int(SignExtend16(raw[0])))
    case U32 => if length < 2 then Err(OutOfBounds) else Ok(Int64(Double(raw[0], raw[1])))
    case S32 => if length < 2 then Err(OutOfBounds) else Ok(Int(SignExtend32(Double(raw[0], raw[1]))))
    case I32 => if length < 2 then Err(OutOfBounds) else Ok(Int(SignExtend32(Double(raw[0], raw[1]))))
    case BYTE => FormatByte(raw[..length], length)
    case BIT => Ok(Text(FormatBit(raw[..length])))
    case DAT => if length < 3 then Err(OutOfBounds) else Ok(Text(FormatDat(raw[0], raw[1], raw[2])))
    case STR => Ok(Text(Str(raw[..length])))
    case Unknown(_) => Err(UnknownType)
  }

  function Decode(reg: Register, raw: seq<Word>): Result {
    var length := Length(reg);
    if |raw| < length then Err(OutOfBounds) else
    match Unscaled(reg.typ, length, raw)
    case Ok(value) => Ok(Scaled(value, reg.scale))
    case Err(error) => Err(error)
  }

  lemma PaddedTextReads(text: string, padding: seq<Utf8.Byte>, raw: seq<Word>)
    requires Bytes(raw) == Utf8.Encode(text) + padding && forall b :: b in padding ==> b in {0xFF, 0}
    requires text == "" || text[|text| - 1] !in {' ', '\0'}
    ensures Str(raw) == text
  {
    if text != "" {
      EncodedEnd(text);
    }
    hide TrimRight, Bytes, Utf8.Encode, Utf8.Decode, Utf8.Latin1;
    TrimmedPadding(Utf8.Encode(text), padding, {0xFF, 0});
    Utf8.EncodedReads(text);
    assert AsText(Unpadded(raw)) == text;
    TrimmedPadding(text, "", {' ', '\0'});
    assert text + "" == text;
  }

  lemma TextOfWords(reg: Register, raw: seq<Word>)
    requires reg.typ == STR && |raw| >= Length(reg)
    ensures Decode(reg, raw) == Ok(Text(Str(raw[..Length(reg)])))
  {
    hide Str;
  }

  /** A text stored as UTF-8 in the words of a STR register, padded with NULs and 0xFF in any order, reads back. */
  lemma StoredTextReadsBack(reg: Register, raw: seq<Word>, text: string, padding: seq<Utf8.Byte>)
    requires reg.typ == STR && |raw| >= Length(reg)
    requires Bytes(raw[..Length(reg)]) == Utf8.Encode(text) + padding && forall b :: b in padding ==> b in {0xFF, 0}
    requires text == "" || text[|text| - 1] !in {' ', '\0'}
    ensures Decode(reg, raw) == Ok(Text(text))
  {
    TextOfWords(reg, raw);
    hide Decode, Str, Bytes, Utf8.Encode;
    PaddedTextReads(text, padding, raw[..Length(reg)]);
  }

  /** The declared length is one the decoder can use for the type (validateTypeLength). */
  predicate TypeFits(typ: DataType, length: int) {
    match typ
    case U32 => length >= 2
    case S32 => length >= 2
    case I32 => length >= 2
    case DAT => length >= 3
    case BYTE => length == 1 || length == 2 || length == 4
    case BIT => length <= 4
    case _ => true
  }

  /**
   Exactly when a register decodes, and what it fails with: from one word at least and as many as it
   declares, if its type is known and has a use for so many.
   */
  lemma DecodesWhenTypeFits(reg: Register, raw: seq<Word>)
    ensures
      Decode(reg, raw).Ok? <==>
      && 1 <= |raw| && reg.length <= |raw|
      && (match reg.typ
          case Unknown(_) => false
          case U32 => reg.length >= 2
          case S32 => reg.length >= 2
          case I32 => reg.length >= 2
          case DAT => reg.length >= 3
          case BYTE => reg.length <= 2 || reg.length == 4
          case _ => true)
    ensures
      Decode(reg, raw).Err? ==>
        Decode(reg, raw).error ==
          if |raw| < 1 || |raw| < reg.length then OutOfBounds
          else if reg.typ.Unknown? then UnknownType
          else if reg.typ == BYTE then UnsupportedLength
          else OutOfBounds
  {
  }

  /** Two's complement: the value is congruent to the word and lies in the signed range. */
  lemma SignExtension(v: Word, hi: Word, lo: Word)
    ensures -32768 <= SignExtend16(v) < 32768 && (SignExtend16(v) - v) % 65536 == 0
    ensures
      var u := Double(hi, lo);
      -2147483648 <= SignExtend32(u) < 2147483648 && (SignExtend32(u) - u) % 4294967296 == 0
  {
  }

  /** The words as one number, the first word highest. */
  function Number(raw: seq<Word>): nat {
    if raw == [] then 0 else Number(raw[..|raw| - 1]) * 65536 + raw[|raw| - 1]
  }

  lemma TwoWords(raw: seq<Word>)
    requires |raw| >= 2
    ensures Number(raw[..1]) == raw[0] && Number(raw[..2]) == Double(raw[0], raw[1])
  {
    assert raw[..1][..0] == [] && raw[..2][..1] == raw[..1];
  }

  /** v is the number n in two's complement, in a word of this many values. */
  predicate IsSigned(v: int, n: nat, values: nat)
    requires values > 0
  {
    -(values as int) <= 2 * v < values && (v - n) % values == 0
  }

  /** Without scaling, an integer is the big-endian number of its words, or its two's complement. */
  lemma IntegersAreBigEndian(reg: Register, raw: seq<Word>)
    requires |raw| >= Length(reg) && reg.scale <= 1
    ensures reg.typ in {U16, Empty} ==> Decode(reg, raw) == Ok(Int(Number(raw[..1])))
    ensures reg.typ in {S16, I16} ==>
      match Decode(reg, raw)
      case Ok(Int(v)) => IsSigned(v, Number(raw[..1]), 0x1_0000)
      case _ => false
    ensures reg.typ == U32 && Length(reg) >= 2 ==> Decode(reg, raw) == Ok(Int64(Number(raw[..2])))
    ensures reg.typ in {S32, I32} && Length(reg) >= 2 ==>
      match Decode(reg, raw)
      case Ok(Int(v)) => IsSigned(v, Number(raw[..2]), 0x1_0000_0000)
      case _ => false
  {
    if |raw| >= 2 {
      TwoWords(raw);
      SignExtension(raw[0], raw[0], raw[1]);
    } else {
      assert raw[..1][..0] == [];
      SignExtension(raw[0], raw[0], raw[0]);
    }
    hide Str, FormatBit, FormatByte, FormatDat, SignExtend16, SignExtend32, Number;
  }

  /** A scaled number times the scale is the unscaled integer; nothing else is touched by scaling. */
  lemma ScalingDivides(reg: Register, raw: seq<Word>)
    requires reg.scale > 1
    ensures
      match (Decode(reg, raw), Decode(reg.(scale := 1), raw))
      case (Ok(Float(x)), Ok(Int(i))) => x * reg.scale as real == i as real
      case (Ok(Float(x)), Ok(Int64(i))) => x * reg.scale as real == i as real
      case (scaled, plain) => scaled == plain && !(plain.Ok? && (plain.value.Int? || plain.value.Int64?))
  {
    if |raw| >= Length(reg) {
      var plain := Unscaled(reg.typ, Length(reg), raw);
      assert plain.Ok? ==> !plain.value.Float?;
      hide Unscaled;
      if plain.Ok? && (plain.value.Int? || plain.value.Int64?) {
        DividesBack(plain.value.i, reg.scale);
      }
    }
  }

  lemma DividesBack(i: int, scale: int)
    requires scale > 1
    ensures i as real / scale as real * scale as real == i as real
  {
  }
}
