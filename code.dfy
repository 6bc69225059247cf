/** A file's content on its way to UTF-8 (`Coding`): the raw bytes as read,
    or the text decoded from the encoding the detector guessed. */
module Code {
  import opened DirTree

  newtype byte = b: int | 0 <= b < 256

  /** A character encoding, known by its name. */
  datatype Encoding = Encoding(name: string)

  const UTF_8: Encoding := Encoding("UTF-8")

  /** `UTF8` holds text decoded from `srcCoding`; `Source` borrows the bytes
      as they were read. */
  datatype Coding =
    | UTF8(output: string, srcCoding: Encoding)
    | Source(src: seq<byte>)

  /** The encoding detector and the decoders, left abstract: the encoding
      guessed for a byte string, and the text a decoder produces from it. */
  datatype Charset = Charset(guess: seq<byte> -> Encoding, decode: (Encoding, seq<byte>) -> string)

  /** What `parse` ends in: a coding, or the `bad state` panic. */
  datatype Parsed = Parsed(coding: Coding) | BadState

  // ---------------------------------------------------------------------
  // UTF-8, as `str::as_bytes` lays text out.

  /** The UTF-8 form of one Unicode scalar value. */
  function EncodeChar(c: char): (bs: seq<byte>)
    ensures 1 <= |bs| <= 4
  {
    var n := c as int;
    if n < 0x80 then [n as byte]
    else if n < 0x800 then [(0xC0 + n / 64) as byte, (0x80 + n % 64) as byte]
    else if n < 0x10000 then
      [(0xE0 + n / 4096) as byte, (0x80 + (n / 64) % 64) as byte, (0x80 + n % 64) as byte]
    else
      [(0xF0 + n / 262144) as byte, (0x80 + (n / 4096) % 64) as byte,
       (0x80 + (n / 64) % 64) as byte, (0x80 + n % 64) as byte]
  }

  function Encode(s: string): seq<byte>
  {
    if |s| == 0 then [] else EncodeChar(s[0]) + Encode(s[1..])
  }

  predicate IsCont(b: byte)
  {
    0x80 <= b < 0xC0
  }

  /** A decoded character and the number of bytes it took. */
  datatype Decoded = Decoded(c: char, len: nat)

  /** Reads one well-formed UTF-8 sequence from the front of `bs`; overlong
      forms, surrogates and values past U+10FFFF are refused. */
  function DecodeChar(bs: seq<byte>): (r: Option<Decoded>)
    requires |bs| > 0
    ensures r.Some? ==> 1 <= r.value.len <= |bs|
  {
    var b0 := bs[0] as int;
    if b0 < 0x80 then Some(Decoded(b0 as char, 1))
    else if 0xC2 <= b0 < 0xE0 && |bs| >= 2 && IsCont(bs[1]) then
      var n := (b0 - 0xC0) * 64 + (bs[1] as int - 0x80);
      Some(Decoded(n as char, 2))
    else if 0xE0 <= b0 < 0xF0 && |bs| >= 3 && IsCont(bs[1]) && IsCont(bs[2]) then
      var n := (b0 - 0xE0) * 4096 + (bs[1] as int - 0x80) * 64 + (bs[2] as int - 0x80);
      if 0x800 <= n && !(0xD800 <= n < 0xE000) then Some(Decoded(n as char, 3)) else None
    else if 0xF0 <= b0 < 0xF5 && |bs| >= 4 && IsCont(bs[1]) && IsCont(bs[2]) && IsCont(bs[3]) then
      var n := (b0 - 0xF0) * 262144 + (bs[1] as int - 0x80) * 4096 + (bs[2] as int - 0x80) * 64 + (bs[3] as int - 0x80);
      if 0x10000 <= n < 0x110000 then Some(Decoded(n as char, 4)) else None
    else None
  }

  /** The text a byte string spells in UTF-8, if it is well-formed. */
  function Decode(bs: seq<byte>): Option<string>
    decreases |bs|
  {
    if |bs| == 0 then Some("")
    else match DecodeChar(bs)
      case None => None
      case Some(d) =>
        match Decode(bs[d.len..])
        case None => None
        case Some(rest) => Some([d.c] + rest)
  }

  /** Decoding reads back exactly the character that was encoded, whatever
      follows it. */
  lemma DecodeEncodeChar(c: char, rest: seq<byte>)
    ensures DecodeChar(EncodeChar(c) + rest) == Some(Decoded(c, |EncodeChar(c)|))
  {
    var n := c as int;
    if n < 0x80 {
    } else if n < 0x800 {
      DecodeTwo(c, rest);
    } else if n < 0x10000 {
      DecodeThree(c, rest);
    } else {
      DecodeFour(c, rest);
    }
  }

  lemma DecodeTwo(c: char, rest: seq<byte>)
    requires 0x80 <= c as int < 0x800
    ensures DecodeChar(EncodeChar(c) + rest) == Some(Decoded(c, 2))
  {
    var n := c as int;
    var bs := EncodeChar(c) + rest;
    var hi, lo := n / 64, n % 64;
    assert bs[0] as int == 0xC0 + hi && bs[1] as int == 0x80 + lo;
    assert hi * 64 + lo == n;
  }

  lemma DecodeThree(c: char, rest: seq<byte>)
    requires 0x800 <= c as int < 0x10000
    ensures DecodeChar(EncodeChar(c) + rest) == Some(Decoded(c, 3))
  {
    var n := c as int;
    var bs := EncodeChar(c) + rest;
    var top, mid, lo := n / 4096, (n / 64) % 64, n % 64;
    assert n / 64 == top * 64 + mid;
    assert bs[0] as int == 0xE0 + top && bs[1] as int == 0x80 + mid && bs[2] as int == 0x80 + lo;
    assert top * 4096 + mid * 64 + lo == n;
  }

  lemma DecodeFour(c: char, rest: seq<byte>)
    requires 0x10000 <= c as int
    ensures DecodeChar(EncodeChar(c) + rest) == Some(Decoded(c, 4))
  {
    var n := c as int;
    var bs := EncodeChar(c) + rest;
    var top, hi, mid, lo := n / 262144, (n / 4096) % 64, (n / 64) % 64, n % 64;
    assert n / 4096 == top * 64 + hi;
    assert n / 64 == (n / 4096) * 64 + mid;
    assert bs[0] as int == 0xF0 + top && bs[1] as int == 0x80 + hi;
    assert bs[2] as int == 0x80 + mid && bs[3] as int == 0x80 + lo;
    assert top * 262144 + hi * 4096 + mid * 64 + lo == n;
  }

  /** UTF-8 decoding undoes `as_bytes`: every text is read back from its bytes. */
  lemma {:induction false} DecodeEncode(s: string)
    ensures Decode(Encode(s)) == Some(s)
    decreases |s|
  {
    if |s| > 0 {
      var head := EncodeChar(s[0]);
      var tail := Encode(s[1..]);
      DecodeEncodeChar(s[0], tail);
      assert (head + tail)[|head|..] == tail;
      DecodeEncode(s[1..]);
      assert [s[0]] + s[1..] == s;
    }
  }

  // ---------------------------------------------------------------------
  // The `Coding` value.

  /** `Coding::new`: the bytes as read, untouched. */
  function New(source: seq<byte>): (c: Coding)
    ensures c.Source? && AsRef(c) == source
  {
    Source(source)
  }

  /** `as_ref`: the bytes to write back. For decoded text they are its UTF-8
      form, which reads back as exactly that text. */
  function AsRef(c: Coding): (bs: seq<byte>)
    ensures c.Source? ==> bs == c.src
    ensures c.UTF8? ==> Decode(bs) == Some(c.output)
  {
    match c
    case UTF8(output, _) => DecodeEncode(output); Encode(output)
    case Source(src) => src
  }

  /** `parse`: the detector guesses the encoding of the raw bytes; a guess of
      UTF-8 hands the same bytes back, any other guess decodes them. Called
      on anything but `Source` it panics. */
  function Parse(c: Coding, cs: Charset): (r: Parsed)
    ensures r.BadState? <==> c.UTF8?
    ensures c.Source? && cs.guess(c.src) == UTF_8 ==> r == Parsed(c) && AsRef(r.coding) == c.src
    ensures c.Source? && cs.guess(c.src) != UTF_8 ==>
      && r.Parsed? && r.coding.UTF8?
      && r.coding.srcCoding == cs.guess(c.src)
      && r.coding.output == cs.decode(cs.guess(c.src), c.src)
  {
    match c
    case UTF8(_, _) => BadState
    case Source(src) =>
      var coding := cs.guess(src);
      if coding == UTF_8 then Parsed(Source(src))
      else Parsed(UTF8(cs.decode(coding, src), coding))
  }

  /** The bytes written back for a file whose content is `src`: `as_ref` of
      what `parse` makes of `Coding::new(src)`. */
  function Normalise(src: seq<byte>, cs: Charset): seq<byte>
  {
    AsRef(Parse(New(src), cs).coding)
  }

  /** A file the detector takes for UTF-8 is written back byte for byte, so
      running the tool on it again changes nothing either. */
  lemma Utf8Untouched(src: seq<byte>, cs: Charset)
    requires cs.guess(src) == UTF_8
    ensures Normalise(src, cs) == src
    ensures Normalise(Normalise(src, cs), cs) == src
  {
  }

  /** Any other file is written back as the UTF-8 form of the decoder's text:
      the new content decodes as UTF-8 to exactly that text. */
  lemma ConvertedIsUtf8(src: seq<byte>, cs: Charset)
    requires cs.guess(src) != UTF_8
    ensures Decode(Normalise(src, cs)) == Some(cs.decode(cs.guess(src), src))
  {
  }

  /** A converted file stays as it is on a second run once the detector
      recognises the converted bytes as UTF-8. */
  lemma SecondRunNoop(src: seq<byte>, cs: Charset)
    requires cs.guess(Normalise(src, cs)) == UTF_8
    ensures Normalise(Normalise(src, cs), cs) == Normalise(src, cs)
  {
  }
}
