/** UTF-8 (RFC 3629), as utf8.Valid accepts it and a string of valid bytes reads; and Latin-1. */
module Utf8 {
  import opened Options

  type Byte = x: int | 0 <= x < 0x100

  /** A byte 10xxxxxx with the lowest six bits of n. */
  function Continuation(n: nat): Byte {
    0x80 + n % 64
  }

  function EncodeChar(c: char): seq<Byte> {
    var n := c as int;
    if n < 0x80 then [n]
    else if n < 0x800 then [0xC0 + n / 64, Continuation(n)]
    else if n < 0x1_0000 then [0xE0 + n / 64 / 64, Continuation(n / 64), Continuation(n)]
    else [0xF0 + n / 64 / 64 / 64, Continuation(n / 64 / 64), Continuation(n / 64), Continuation(n)]
  }

  function Encode(s: string): seq<Byte> {
    if s == "" then [] else EncodeChar(s[0]) + Encode(s[1..])
  }

  /** How many bytes the character has that begins with `first`; 0 for none. */
  function Size(first: Byte): nat {
    if first < 0x80 then 1
    else if 0xC2 <= first < 0xE0 then 2
    else if 0xE0 <= first < 0xF0 then 3
    else if 0xF0 <= first < 0xF5 then 4
    else 0
  }

  /** The second byte rules out overlong forms, surrogates and anything beyond U+10FFFF. */
  predicate SecondFits(first: Byte, second: Byte) {
    var low := if first == 0xE0 then 0xA0 else if first == 0xF0 then 0x90 else 0x80;
    var high := if first == 0xED then 0x9F else if first == 0xF4 then 0x8F else 0xBF;
    low <= second <= high
  }

  predicate IsContinuation(b: Byte) { 0x80 <= b < 0xC0 }

  /** The bytes begin with a character. */
  predicate Begins(buf: seq<Byte>) {
    && buf != []
    && 0 < Size(buf[0]) <= |buf|
    && (Size(buf[0]) > 1 ==> SecondFits(buf[0], buf[1]))
    && (Size(buf[0]) > 2 ==> IsContinuation(buf[2]))
    && (Size(buf[0]) > 3 ==> IsContinuation(buf[3]))
  }

  /** `n` with six more bits. */
  function Six(n: nat, b: Byte): (r: nat)
    requires IsContinuation(b)
    ensures r / 64 == n && Continuation(r) == b
  {
    n * 64 + (b as int - 0x80)
  }

  /** The code point the bytes begin with. */
  function Code(buf: seq<Byte>): (n: nat)
    requires Begins(buf)
    ensures n < 0xD800 || 0xE000 <= n < 0x11_0000
  {
    var b := buf[0] as int;
    match Size(buf[0])
    case 1 => b
    case 2 => Six(b - 0xC0, buf[1])
    case 3 => Six(Six(b - 0xE0, buf[1]), buf[2])
    case _ => Six(Six(Six(b - 0xF0, buf[1]), buf[2]), buf[3])
  }

  function First(buf: seq<Byte>): char
    requires Begins(buf)
  {
    Code(buf) as char
  }

  /** The text that valid bytes spell; none for others. */
  function Decode(buf: seq<Byte>): Option<string> {
    if buf == [] then Some("")
    else if !Begins(buf) then None
    else
      match Decode(buf[Size(buf[0])..])
      case None => None
      case Some(rest) => Some([First(buf)] + rest)
  }

  /** One character per byte. */
  function Latin1(buf: seq<Byte>): (s: string)
    ensures |s| == |buf|
    ensures forall i :: 0 <= i < |s| ==> s[i] as int == buf[i]
  {
    seq(|buf|, i requires 0 <= i < |buf| => buf[i] as char)
  }

  /** Six bits taken off and put back. */
  lemma SixBack(n: nat)
    ensures Six(n / 64, Continuation(n)) == n
  {
  }

  lemma FirstOfEncoded(c: char, rest: seq<Byte>)
    ensures
      var buf := EncodeChar(c) + rest;
      && Begins(buf) && Size(buf[0]) == |EncodeChar(c)|
      && First(buf) == c
  {
    var n := c as int;
    SixBack(n);
    SixBack(n / 64);
    SixBack(n / 64 / 64);
    hide Six;
  }

  lemma EncodedFirst(buf: seq<Byte>)
    requires Begins(buf)
    ensures EncodeChar(First(buf)) == buf[..Size(buf[0])]
  {
  }

  lemma {:induction false} EncodedReads(s: string)
    ensures Decode(Encode(s)) == Some(s)
  {
    if s != "" {
      var c, rest := s[0], Encode(s[1..]);
      FirstOfEncoded(c, rest);
      EncodedReads(s[1..]);
      hide First, Begins, Size, EncodeChar;
      assert (EncodeChar(c) + rest)[|EncodeChar(c)|..] == rest;
      assert [c] + s[1..] == s;
    }
  }

  lemma {:induction false} ReadIsEncoded(buf: seq<Byte>)
    requires Decode(buf).Some?
    ensures Encode(Decode(buf).value) == buf
  {
    if buf != [] {
      var n := Size(buf[0]);
      EncodedFirst(buf);
      ReadIsEncoded(buf[n..]);
      hide First, Begins, Size, EncodeChar;
      var rest := Decode(buf[n..]).value;
      assert ([First(buf)] + rest)[1..] == rest;
      assert buf[..n] + buf[n..] == buf;
    }
  }

  /** Bytes are valid UTF-8 exactly if they encode a text, and then they read as this one. */
  lemma ValidExactly(buf: seq<Byte>)
    ensures Decode(buf).Some? <==> exists s :: Encode(s) == buf
    ensures forall s :: Encode(s) == buf ==> Decode(buf) == Some(s)
  {
    if Decode(buf).Some? {
      ReadIsEncoded(buf);
    }
    forall s | Encode(s) == buf ensures Decode(buf) == Some(s) {
      EncodedReads(s);
    }
  }
}
