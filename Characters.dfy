/**
 * A single character (lang.types.Character) built from a code point or from
 * the bytes of one character in a given charset, and turned back into bytes
 * with getBytes.
 *
 * Three charsets are modelled: UTF-8 as defined in RFC 3629 (sections 3 and
 * 4: one to four bytes, no overlong forms, no surrogates, nothing above
 * U+10FFFF), ISO-8859-1 (every byte is the code point of the same value) and
 * US-ASCII (bytes 0x00..0x7F only).  A character is identified by its code
 * point, so two characters are equal exactly when their code points are.
 */
module Characters {
  import opened Wrappers

  newtype Byte = x: int | 0 <= x < 256

  datatype Charset = Utf8 | Iso88591 | UsAscii

  /**
   * The charset used when none is given: the test fixture sets iconv's input
   * and output encodings to ISO-8859-1.
   */
  const DefaultCharset: Charset := Iso88591

  /** Why a byte string is not text in a charset. */
  datatype Problem = Incomplete | Illegal

  datatype Error =
    | FormatException(problem: Problem)
    | IllegalArgumentException(characters: nat)

  datatype Character = Character(codePoint: int)

  /** A Unicode scalar value: the code points UTF-8 can carry. */
  predicate IsScalar(cp: int)
  {
    0 <= cp <= 0x10FFFF && !(0xD800 <= cp <= 0xDFFF)
  }

  predicate IsContinuation(b: Byte) { 0x80 <= b <= 0xBF }

  // ---------------------------------------------------------------------
  // UTF-8, RFC 3629 section 3

  /** The number of bytes UTF-8 uses for a code point. */
  function Utf8Length(cp: int): (n: nat)
    ensures 1 <= n <= 4
  {
    if cp < 0x80 then 1
    else if cp < 0x800 then 2
    else if cp < 0x10000 then 3
    else 4
  }

  function EncodeUtf8(cp: int): (r: seq<Byte>)
    requires IsScalar(cp)
    ensures |r| == Utf8Length(cp)
    ensures forall i :: 1 <= i < |r| ==> IsContinuation(r[i])
  {
    if cp < 0x80 then
      [cp as Byte]
    else if cp < 0x800 then
      [(0xC0 + cp / 0x40) as Byte, (0x80 + cp % 0x40) as Byte]
    else if cp < 0x10000 then
      [(0xE0 + cp / 0x1000) as Byte,
       (0x80 + cp / 0x40 % 0x40) as Byte,
       (0x80 + cp % 0x40) as Byte]
    else
      [(0xF0 + cp / 0x40000) as Byte,
       (0x80 + cp / 0x1000 % 0x40) as Byte,
       (0x80 + cp / 0x40 % 0x40) as Byte,
       (0x80 + cp % 0x40) as Byte]
  }

  /** How many bytes a lead byte announces, or 0 when it cannot start a character. */
  function SequenceLength(lead: Byte): nat
  {
    if lead < 0x80 then 1
    else if 0xC2 <= lead <= 0xDF then 2
    else if 0xE0 <= lead <= 0xEF then 3
    else if 0xF0 <= lead <= 0xF4 then 4
    else 0
  }

  /** The code point a complete sequence of n bytes spells, before validity checks. */
  function Assemble(s: seq<Byte>, n: nat): int
    requires 1 <= n <= 4 && n <= |s|
  {
    if n == 1 then s[0] as int
    else if n == 2 then (s[0] as int - 0xC0) * 0x40 + (s[1] as int - 0x80)
    else if n == 3 then
      (s[0] as int - 0xE0) * 0x1000 + (s[1] as int - 0x80) * 0x40 + (s[2] as int - 0x80)
    else
      (s[0] as int - 0xF0) * 0x40000 + (s[1] as int - 0x80) * 0x1000
        + (s[2] as int - 0x80) * 0x40 + (s[3] as int - 0x80)
  }

  /**
   * Decodes the first character of a non-empty byte string: its code point
   * and the number of bytes it took.  A string that ends in the middle of a
   * well-begun character is Incomplete; anything else that is not UTF-8 is
   * Illegal.
   */
  function DecodeFirst(s: seq<Byte>): (r: Result<(int, nat), Problem>)
    requires |s| > 0
    ensures r.Ok? ==> 1 <= r.value.1 <= |s| && IsScalar(r.value.0)
  {
    var n := SequenceLength(s[0]);
    if n == 0 then Err(Illegal)
    else if exists i :: 1 <= i < n && i < |s| && !IsContinuation(s[i]) then Err(Illegal)
    else if |s| < n then Err(Incomplete)
    else
      var cp := Assemble(s, n);
      if n != Utf8Length(cp) || !IsScalar(cp) then Err(Illegal)
      else Ok((cp, n))
  }

  /** All code points of a UTF-8 byte string, or the first problem found. */
  function DecodeUtf8(s: seq<Byte>): (r: Result<seq<int>, Problem>)
    ensures r.Ok? ==> forall i :: 0 <= i < |r.value| ==> IsScalar(r.value[i])
    ensures r.Ok? ==> |r.value| <= |s|
    decreases |s|
  {
    if s == [] then Ok([])
    else
      match DecodeFirst(s)
      case Err(p) => Err(p)
      case Ok((cp, n)) =>
        match DecodeUtf8(s[n..])
        case Err(p) => Err(p)
        case Ok(rest) => Ok([cp] + rest)
  }

  // ---------------------------------------------------------------------
  // Decoding in any of the three charsets

  /**
   * The code points of a byte string in a charset: every one a scalar value,
   * no more of them than bytes.  ISO-8859-1 accepts every byte string and
   * US-ASCII those without a byte above 0x7F; in both each byte is the
   * code point of the same value.
   */
  function DecodeAll(s: seq<Byte>, charset: Charset): (r: Result<seq<int>, Problem>)
    ensures r.Ok? ==> |r.value| <= |s| && forall i :: 0 <= i < |r.value| ==> IsScalar(r.value[i])
    ensures charset == Iso88591 ==> r.Ok?
    ensures charset == UsAscii ==> (r.Ok? <==> forall i :: 0 <= i < |s| ==> s[i] < 0x80)
    ensures charset != Utf8 && r.Ok? ==> |r.value| == |s| && forall i :: 0 <= i < |s| ==> r.value[i] == s[i] as int
    ensures r.Err? && charset != Utf8 ==> r.error == Illegal
  {
    match charset
    case Utf8 => DecodeUtf8(s)
    case Iso88591 => Ok(seq(|s|, i requires 0 <= i < |s| => s[i] as int))
    case UsAscii =>
      if exists i :: 0 <= i < |s| && s[i] >= 0x80 then Err(Illegal)
      else Ok(seq(|s|, i requires 0 <= i < |s| => s[i] as int))
  }

  /**
   * new Character(bytes, charset): the bytes must be text in the charset
   * (FormatException otherwise) and hold exactly one character
   * (IllegalArgumentException otherwise).
   */
  function FromBytes(s: seq<Byte>, charset: Charset): (r: Result<Character, Error>)
    ensures r.Ok? ==> IsScalar(r.value.codePoint) && s != []
    ensures s == [] ==> r == Err(IllegalArgumentException(0))
    ensures DecodeAll(s, charset).Err? <==> r.Err? && r.error.FormatException?
    ensures charset == Iso88591 ==> (r.Ok? <==> |s| == 1)
    ensures charset == Iso88591 && |s| == 1 ==> r.value.codePoint == s[0] as int
  {
    match DecodeAll(s, charset)
    case Err(p) => Err(FormatException(p))
    case Ok(cps) =>
      if |cps| != 1 then Err(IllegalArgumentException(|cps|))
      else Ok(Character(cps[0]))
  }

  /** new Character(codePoint). */
  function FromCodePoint(cp: int): (r: Result<Character, Error>)
    ensures r.Ok? <==> IsScalar(cp)
    ensures r.Ok? ==> r.value.codePoint == cp
  {
    if IsScalar(cp) then Ok(Character(cp)) else Err(FormatException(Illegal))
  }

  /** getBytes(charset): the character's bytes, or FormatException when the charset cannot hold it. */
  function GetBytes(c: Character, charset: Charset): (r: Result<seq<Byte>, Error>)
    ensures r.Ok? ==> IsScalar(c.codePoint) && 1 <= |r.value| <= 4
    ensures r.Err? ==> r.error == FormatException(Illegal)
    ensures charset == Utf8 ==> (r.Ok? <==> IsScalar(c.codePoint))
    ensures charset != Utf8 && r.Ok? ==> 0 <= c.codePoint < 0x100 && r.value == [c.codePoint as Byte]
    ensures charset == UsAscii ==> (r.Ok? <==> 0 <= c.codePoint < 0x80)
  {
    match charset
    case Utf8 => if IsScalar(c.codePoint) then Ok(EncodeUtf8(c.codePoint)) else Err(FormatException(Illegal))
    case Iso88591 => if 0 <= c.codePoint < 0x100 then Ok([c.codePoint as Byte]) else Err(FormatException(Illegal))
    case UsAscii => if 0 <= c.codePoint < 0x80 then Ok([c.codePoint as Byte]) else Err(FormatException(Illegal))
  }

  // ---------------------------------------------------------------------
  // Properties

  /** Decoding the UTF-8 form of a code point gives back the code point and its length. */
  lemma DecodeFirstOfEncoded(cp: int, rest: seq<Byte>)
    requires IsScalar(cp)
    ensures DecodeFirst(EncodeUtf8(cp) + rest) == Ok((cp, Utf8Length(cp)))
  {
    if cp < 0x80 {
      assert (EncodeUtf8(cp) + rest)[0] == cp as Byte;
    } else if cp < 0x800 {
      DecodeTwo(cp, rest);
    } else if cp < 0x10000 {
      DecodeThree(cp, rest);
    } else {
      DecodeFour(cp, rest);
    }
  }

  lemma DecodeTwo(cp: int, rest: seq<Byte>)
    requires 0x80 <= cp < 0x800
    ensures DecodeFirst(EncodeUtf8(cp) + rest) == Ok((cp, 2))
  {
    var q, r := cp / 0x40, cp % 0x40;
    assert cp == q * 0x40 + r && 2 <= q < 0x20;
    var s := EncodeUtf8(cp) + rest;
    assert s[0] == (0xC0 + q) as Byte && s[1] == (0x80 + r) as Byte;
    assert SequenceLength(s[0]) == 2 && IsContinuation(s[1]);
    assert Assemble(s, 2) == cp;
  }

  lemma DecodeThree(cp: int, rest: seq<Byte>)
    requires IsScalar(cp) && 0x800 <= cp < 0x10000
    ensures DecodeFirst(EncodeUtf8(cp) + rest) == Ok((cp, 3))
  {
    var q, m, r := cp / 0x1000, cp / 0x40 % 0x40, cp % 0x40;
    assert cp / 0x40 == q * 0x40 + m;
    assert cp == q * 0x1000 + m * 0x40 + r && q < 0x10;
    var s := EncodeUtf8(cp) + rest;
    assert s[0] == (0xE0 + q) as Byte && s[1] == (0x80 + m) as Byte && s[2] == (0x80 + r) as Byte;
    assert SequenceLength(s[0]) == 3 && IsContinuation(s[1]) && IsContinuation(s[2]);
    assert Assemble(s, 3) == cp;
  }

  lemma DecodeFour(cp: int, rest: seq<Byte>)
    requires IsScalar(cp) && 0x10000 <= cp
    ensures DecodeFirst(EncodeUtf8(cp) + rest) == Ok((cp, 4))
  {
    var q, m1, m2, r := cp / 0x40000, cp / 0x1000 % 0x40, cp / 0x40 % 0x40, cp % 0x40;
    assert cp / 0x1000 == q * 0x40 + m1;
    assert cp / 0x40 == (cp / 0x1000) * 0x40 + m2;
    assert cp == q * 0x40000 + m1 * 0x1000 + m2 * 0x40 + r && q <= 4;
    var s := EncodeUtf8(cp) + rest;
    assert s[0] == (0xF0 + q) as Byte && s[1] == (0x80 + m1) as Byte;
    assert s[2] == (0x80 + m2) as Byte && s[3] == (0x80 + r) as Byte;
    assert SequenceLength(s[0]) == 4;
    assert IsContinuation(s[1]) && IsContinuation(s[2]) && IsContinuation(s[3]);
    assert Assemble(s, 4) == cp;
  }

  /** A character that decodes is spelled exactly as the encoder spells it: there is one UTF-8 form per code point. */
  lemma DecodeFirstIsCanonical(s: seq<Byte>)
    requires |s| > 0 && DecodeFirst(s).Ok?
    ensures DecodeFirst(s).value.1 <= |s|
    ensures s[..DecodeFirst(s).value.1] == EncodeUtf8(DecodeFirst(s).value.0)
  {
    var n := SequenceLength(s[0]);
    assert forall i :: 1 <= i < n ==> IsContinuation(s[i]);
    if n == 2 {
      CanonicalTwo(s);
    } else if n == 3 {
      CanonicalThree(s);
    } else if n == 4 {
      CanonicalFour(s);
    }
  }

  lemma CanonicalTwo(s: seq<Byte>)
    requires |s| >= 2 && 0xC2 <= s[0] <= 0xDF && IsContinuation(s[1])
    ensures var cp := Assemble(s, 2); 0x80 <= cp < 0x800 && s[..2] == EncodeUtf8(cp)
  {
    var cp := Assemble(s, 2);
    assert cp / 0x40 == s[0] as int - 0xC0 && cp % 0x40 == s[1] as int - 0x80;
  }

  lemma CanonicalThree(s: seq<Byte>)
    requires |s| >= 3 && 0xE0 <= s[0] <= 0xEF && IsContinuation(s[1]) && IsContinuation(s[2])
    requires var cp := Assemble(s, 3); 0x800 <= cp && IsScalar(cp)
    ensures s[..3] == EncodeUtf8(Assemble(s, 3))
  {
    var cp := Assemble(s, 3);
    var q, m, r := s[0] as int - 0xE0, s[1] as int - 0x80, s[2] as int - 0x80;
    assert cp == q * 0x1000 + m * 0x40 + r;
    assert cp / 0x40 == q * 0x40 + m;
    assert cp / 0x1000 == q;
    assert cp / 0x40 % 0x40 == m && cp % 0x40 == r;
  }

  lemma CanonicalFour(s: seq<Byte>)
    requires |s| >= 4 && 0xF0 <= s[0] <= 0xF4
    requires IsContinuation(s[1]) && IsContinuation(s[2]) && IsContinuation(s[3])
    requires var cp := Assemble(s, 4); 0x10000 <= cp && IsScalar(cp)
    ensures s[..4] == EncodeUtf8(Assemble(s, 4))
  {
    var cp := Assemble(s, 4);
    var q, m1, m2, r := s[0] as int - 0xF0, s[1] as int - 0x80, s[2] as int - 0x80, s[3] as int - 0x80;
    assert cp == q * 0x40000 + m1 * 0x1000 + m2 * 0x40 + r;
    assert cp / 0x40 == q * 0x1000 + m1 * 0x40 + m2;
    assert cp / 0x1000 == q * 0x40 + m1;
    assert cp / 0x40000 == q;
    assert cp / 0x1000 % 0x40 == m1 && cp / 0x40 % 0x40 == m2 && cp % 0x40 == r;
  }

  /** A code point encodes to UTF-8 and decodes back to the same single code point. */
  lemma DecodeUtf8OfEncoded(cp: int)
    requires IsScalar(cp)
    ensures DecodeUtf8(EncodeUtf8(cp)) == Ok([cp])
  {
    var e := EncodeUtf8(cp);
    DecodeFirstOfEncoded(cp, []);
    assert e + [] == e;
    assert DecodeFirst(e) == Ok((cp, |e|));
    assert e[|e|..] == [];
    assert DecodeUtf8(e[|e|..]) == Ok([]);
    assert [cp] + [] == [cp];
  }

  /** Round trip, character to bytes to character, in UTF-8. */
  lemma Utf8RoundTrip(c: Character)
    requires IsScalar(c.codePoint)
    ensures GetBytes(c, Utf8).Ok?
    ensures FromBytes(GetBytes(c, Utf8).value, Utf8) == Ok(c)
  {
    DecodeUtf8OfEncoded(c.codePoint);
  }

  /** Only the empty string decodes to no characters. */
  lemma DecodedNothing(s: seq<Byte>)
    requires DecodeUtf8(s) == Ok([])
    ensures s == []
  {
  }

  /** Round trip, bytes to character to bytes, in UTF-8: getBytes returns exactly the bytes the character was built from. */
  lemma Utf8BytesRoundTrip(s: seq<Byte>)
    requires FromBytes(s, Utf8).Ok?
    ensures GetBytes(FromBytes(s, Utf8).value, Utf8) == Ok(s)
  {
    assert s != [];
    var n := DecodeFirst(s).value.1;
    DecodeFirstIsCanonical(s);
    DecodedNothing(s[n..]);
    assert s == s[..n];
  }

  /** In ISO-8859-1 every byte is one character whose code point is the byte, and getBytes gives the byte back. */
  lemma Iso88591RoundTrip(b: Byte)
    ensures FromBytes([b], Iso88591) == Ok(Character(b as int))
    ensures GetBytes(Character(b as int), Iso88591) == Ok([b])
  {
  }

  /** In US-ASCII a single byte is a character exactly when it is below 0x80, and then it is the ISO-8859-1 character. */
  lemma UsAsciiSingleByte(b: Byte)
    ensures FromBytes([b], UsAscii).Ok? <==> b < 0x80
    ensures b < 0x80 ==> FromBytes([b], UsAscii) == FromBytes([b], Iso88591)
    ensures b >= 0x80 ==> FromBytes([b], UsAscii) == Err(FormatException(Illegal))
  {
    if b >= 0x80 {
      assert [b][0] >= 0x80;
    }
  }

  /** More than one byte in ISO-8859-1 is more than one character. */
  lemma Iso88591TooLong(s: seq<Byte>)
    requires |s| > 1
    ensures FromBytes(s, Iso88591) == Err(IllegalArgumentException(|s|))
  {
  }

  // ---------------------------------------------------------------------
  // The cases the unit test pins down

  /** A lone 0xE4 announces a three-byte UTF-8 character that never comes. */
  lemma IncompleteMultiByteCharacter()
    ensures FromBytes([0xE4], Utf8) == Err(FormatException(Incomplete))
  {
    assert DecodeFirst([0xE4]) == Err(Incomplete);
  }

  /** Code point 0 is the single byte 0x00 in the default charset. */
  lemma NullByte()
    ensures FromCodePoint(0).Ok?
    ensures GetBytes(FromCodePoint(0).value, DefaultCharset) == Ok([0x00])
  {
  }

  /** The euro sign U+20AC is E2 82 AC in UTF-8. */
  lemma EuroSymbol()
    ensures FromCodePoint(8364).Ok?
    ensures GetBytes(FromCodePoint(8364).value, Utf8) == Ok([0xE2, 0x82, 0xAC])
  {
  }

  /** 0xE4 is not a US-ASCII character. */
  lemma IllegalCharacter()
    ensures FromBytes([0xE4], UsAscii) == Err(FormatException(Illegal))
  {
    UsAsciiSingleByte(0xE4);
  }

  /** "ABC" is three characters, not one. */
  lemma IllegalLength()
    ensures FromBytes([0x41, 0x42, 0x43], DefaultCharset) == Err(IllegalArgumentException(3))
  {
  }

  /** "H" in the default charset gives back "H". */
  lemma UsAsciiCharacter()
    ensures FromBytes([0x48], DefaultCharset).Ok?
    ensures GetBytes(FromBytes([0x48], DefaultCharset).value, DefaultCharset) == Ok([0x48])
  {
  }

  /** U+00E4 written in UTF-8 as C3 A4 gives C3 A4 back. */
  lemma UmlautCharacter()
    ensures FromBytes([0xC3, 0xA4], Utf8).Ok?
    ensures GetBytes(FromBytes([0xC3, 0xA4], Utf8).value, Utf8) == Ok([0xC3, 0xA4])
  {
    assert DecodeFirst([0xC3, 0xA4]) == Ok((0xE4, 2));
    assert [0xC3, 0xA4][2..] == [];
  }

  /** The same character arrives from UTF-8 C3 A4 and from ISO-8859-1 E4. */
  lemma Utf8Character()
    ensures FromBytes([0xC3, 0xA4], Utf8) == FromBytes([0xE4], Iso88591)
  {
    assert DecodeFirst([0xC3, 0xA4]) == Ok((0xE4, 2));
    assert [0xC3, 0xA4][2..] == [];
  }
}
