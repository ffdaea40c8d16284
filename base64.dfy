/**
 * Base 64 as Go's `encoding/base64.StdEncoding` decodes it: the alphabet of
 * section 4 of RFC 4648, padding with `=` required, carriage returns and line
 * feeds skipped wherever they occur, and non-zero bits left over in the last
 * character accepted (the encoding is not the `Strict` one).
 * The encoders exist to state the round trip.
 */
module Base64 {
  import opened Wrappers
  import opened Strings

  type Byte = x: int | 0 <= x < 256
  type Sextet = x: int | 0 <= x < 64

  /** Go reports a `CorruptInputError`; its byte offset is not modelled. */
  datatype DecodeError = CorruptInput

  /** The character of a 6-bit value in the standard alphabet (section 4 of RFC 4648). */
  function StdChar(v: Sextet): char
  {
    if v < 26 then ('A' as int + v) as char
    else if v < 52 then ('a' as int + (v - 26)) as char
    else if v < 62 then ('0' as int + (v - 52)) as char
    else if v == 62 then '+'
    else '/'
  }

  /** The character of a 6-bit value in the URL-safe alphabet (section 5 of RFC 4648). */
  function URLChar(v: Sextet): char
  {
    if v == 62 then '-' else if v == 63 then '_' else StdChar(v)
  }

  /** The decode map of the standard alphabet: the inverse of `StdChar`. */
  function SextetOf(c: char): (r: Option<Sextet>)
    ensures r.Some? ==> StdChar(r.value) == c
  {
    if 'A' <= c <= 'Z' then Some(c as int - 'A' as int)
    else if 'a' <= c <= 'z' then Some(c as int - 'a' as int + 26)
    else if '0' <= c <= '9' then Some(c as int - '0' as int + 52)
    else if c == '+' then Some(62)
    else if c == '/' then Some(63)
    else None
  }

  /** `SextetOf` inverts `StdChar`. */
  lemma SextetOfStdChar(v: Sextet)
    ensures SextetOf(StdChar(v)) == Some(v)
  {
  }

  predicate IsNewline(c: char) { c == '\n' || c == '\r' }

  /** The characters the decoder reads: all but carriage returns and line feeds, in order. */
  function StripNewlines(s: string): (r: string)
    ensures |r| <= |s|
    ensures forall i :: 0 <= i < |r| ==> !IsNewline(r[i])
  {
    if s == [] then "" else (if IsNewline(s[0]) then "" else [s[0]]) + StripNewlines(s[1..])
  }

  /** A character that is not a line break survives the stripping. */
  lemma {:induction false} StripNewlinesKeeps(s: string, i: nat)
    requires i < |s| && !IsNewline(s[i])
    ensures s[i] in StripNewlines(s)
  {
    if i > 0 {
      StripNewlinesKeeps(s[1..], i - 1);
    }
  }

  lemma {:induction false} StripNewlinesAppend(a: string, b: string)
    ensures StripNewlines(a + b) == StripNewlines(a) + StripNewlines(b)
  {
    if a == [] {
      assert a + b == b;
    } else {
      var ab := a + b;
      assert ab[0] == a[0] && ab[1..] == a[1..] + b;
      StripNewlinesAppend(a[1..], b);
      var h := if IsNewline(a[0]) then "" else [a[0]];
      calc {
        StripNewlines(ab);
        h + StripNewlines(a[1..] + b);
        h + (StripNewlines(a[1..]) + StripNewlines(b));
        (h + StripNewlines(a[1..])) + StripNewlines(b);
      }
    }
  }

  lemma {:induction false} StripNewlinesNone(s: string)
    requires forall i :: 0 <= i < |s| ==> !IsNewline(s[i])
    ensures StripNewlines(s) == s
  {
    if s != [] {
      StripNewlinesNone(s[1..]);
    }
  }

  /** The three bytes whose bits are the four 6-bit values, most significant first. */
  function Bytes(a: Sextet, b: Sextet, c: Sextet, d: Sextet): seq<Byte>
  {
    [a * 4 + b / 16, (b % 16) * 16 + c / 4, (c % 4) * 64 + d]
  }

  /**
   * One four-character quantum. Only the last quantum may be padded, as
   * `xx==` (one byte) or `xxx=` (two bytes); the bits of the last character
   * that do not fill a byte are dropped.
   */
  function DecodeQuantum(q: string, last: bool): Option<seq<Byte>>
    requires |q| == 4
  {
    var a, b, c, d := SextetOf(q[0]), SextetOf(q[1]), SextetOf(q[2]), SextetOf(q[3]);
    if a.None? || b.None? then None
    else if c.Some? && d.Some? then Some(Bytes(a.value, b.value, c.value, d.value))
    else if last && c.Some? && q[3] == '=' then Some(Bytes(a.value, b.value, c.value, 0)[..2])
    else if last && q[2] == '=' && q[3] == '=' then Some(Bytes(a.value, b.value, 0, 0)[..1])
    else None
  }

  /** Decoding of text that holds no line breaks, quantum by quantum. */
  function DecodeQuanta(s: string): Option<seq<Byte>>
    decreases |s|
  {
    if |s| == 0 then Some([])
    else if |s| < 4 then None
    else
      match DecodeQuantum(s[..4], |s| == 4)
      case None => None
      case Some(head) =>
        match DecodeQuanta(s[4..])
        case None => None
        case Some(tail) => Some(head + tail)
  }

  /**
   * `base64.StdEncoding.DecodeString`: at most three bytes for every four
   * characters of the input.
   */
  function DecodeString(s: string): (r: Result<seq<Byte>, DecodeError>)
    ensures r.Ok? ==> |r.value| <= 3 * (|s| / 4)
  {
    var t := StripNewlines(s);
    match DecodeQuanta(t)
    case Some(bytes) => DecodedLength(t); Ok(bytes)
    case None => Err(CorruptInput)
  }

  /** Line breaks make no difference to the decoder: removing them first gives the same outcome. */
  lemma DecodeStringIgnoresLineBreaks(s: string)
    ensures DecodeString(StripNewlines(s)) == DecodeString(s)
  {
    StripNewlinesNone(StripNewlines(s));
  }

  /** The bytes of one quantum: three, or one or two when the last quantum is padded. */
  lemma QuantumLength(q: string, last: bool)
    requires |q| == 4 && DecodeQuantum(q, last).Some?
    ensures 1 <= |DecodeQuantum(q, last).value| <= 3
    ensures !last ==> |DecodeQuantum(q, last).value| == 3
  {
  }

  /**
   * Newline-free text of `4k` characters decodes to `3k` bytes less at most
   * two for the padding.
   */
  lemma {:induction false} DecodedLength(t: string)
    requires DecodeQuanta(t).Some?
    ensures 3 * (|t| / 4) - 2 <= |DecodeQuanta(t).value| <= 3 * (|t| / 4)
  {
    if |t| > 0 {
      DecodeQuantaSplit(t);
      QuantumLength(t[..4], |t| == 4);
      DecodedLength(t[4..]);
      assert |t| / 4 == 1 + |t[4..]| / 4;
      assert DecodeQuanta(t).value == DecodeQuantum(t[..4], |t| == 4).value + DecodeQuanta(t[4..]).value;
    }
  }

  /** The characters a decodable text is made of: the standard alphabet and the padding `=`. */
  predicate IsStdOrPad(c: char)
  {
    'A' <= c <= 'Z' || 'a' <= c <= 'z' || '0' <= c <= '9' || c == '+' || c == '/' || c == '='
  }

  /** A quantum that decodes holds alphabet characters, with `=` only at the end of the last one. */
  lemma QuantumShape(q: string, last: bool)
    requires |q| == 4 && DecodeQuantum(q, last).Some?
    ensures IsStdOrPad(q[0]) && IsStdOrPad(q[1]) && IsStdOrPad(q[2]) && IsStdOrPad(q[3])
    ensures q[0] != '=' && q[1] != '='
    ensures !last ==> q[2] != '=' && q[3] != '='
  {
  }

  /** Text that decodes is a decodable quantum followed by decodable text. */
  lemma DecodeQuantaSplit(s: string)
    requires |s| > 0 && DecodeQuanta(s).Some?
    ensures |s| >= 4 && DecodeQuantum(s[..4], |s| == 4).Some? && DecodeQuanta(s[4..]).Some?
  {
  }

  /** Alphabet characters and `=`, with `=` only in the last two positions. */
  predicate WellShaped(s: string)
  {
    && (forall j :: 0 <= j < |s| ==> IsStdOrPad(s[j]))
    && (forall j :: 0 <= j < |s| - 2 ==> s[j] != '=')
  }

  /** A well-shaped quantum in front of well-shaped text gives well-shaped text. */
  lemma ShapeCons(s: string)
    requires |s| >= 4 && IsStdOrPad(s[0]) && IsStdOrPad(s[1]) && IsStdOrPad(s[2]) && IsStdOrPad(s[3])
    requires s[0] != '=' && s[1] != '='
    requires |s| > 4 ==> s[2] != '=' && s[3] != '='
    requires WellShaped(s[4..])
    ensures WellShaped(s)
  {
    forall j | 4 <= j < |s|
      ensures IsStdOrPad(s[j]) && (j < |s| - 2 ==> s[j] != '=')
    {
      assert s[j] == s[4..][j - 4];
    }
  }

  /**
   * What the decoder accepts: text whose length is a multiple of four, made of
   * alphabet characters, with `=` only in the last two positions.
   */
  lemma {:induction false} DecodedShape(s: string)
    requires DecodeQuanta(s).Some?
    ensures |s| % 4 == 0 && WellShaped(s)
  {
    if |s| > 0 {
      DecodeQuantaSplit(s);
      QuantumShape(s[..4], |s| == 4);
      DecodedShape(s[4..]);
      ShapeCons(s);
    }
  }

  /** The 6-bit values that encode `b`, without padding. */
  function Sextets(b: seq<Byte>): (v: seq<Sextet>)
    ensures |v| == 4 * (|b| / 3) + (if |b| % 3 == 0 then 0 else |b| % 3 + 1)
    decreases |b|
  {
    if |b| == 0 then []
    else if |b| == 1 then [b[0] / 4, (b[0] % 4) * 16]
    else if |b| == 2 then [b[0] / 4, (b[0] % 4) * 16 + b[1] / 16, (b[1] % 16) * 4]
    else [b[0] / 4, (b[0] % 4) * 16 + b[1] / 16, (b[1] % 16) * 4 + b[2] / 64, b[2] % 64] + Sextets(b[3..])
  }

  /** The characters of `v` in a given alphabet. */
  function Spell(v: seq<Sextet>, alphabet: Sextet -> char): (s: string)
    ensures |s| == |v|
    ensures forall i :: 0 <= i < |v| ==> s[i] == alphabet(v[i])
  {
    seq(|v|, i requires 0 <= i < |v| => alphabet(v[i]))
  }

  /** Number of `=` that complete the encoding of `n` bytes to a multiple of four characters. */
  function PadCount(n: nat): nat
  {
    if n % 3 == 0 then 0 else 3 - n % 3
  }

  /** Standard padded encoding (section 4 of RFC 4648). */
  function StdEncode(b: seq<Byte>): (s: string)
    ensures |s| % 4 == 0
  {
    Spell(Sextets(b), StdChar) + Repeat('=', PadCount(|b|))
  }

  /** URL-safe encoding without padding (section 5 of RFC 4648, section 2 of RFC 7515). */
  function RawURLEncode(b: seq<Byte>): (s: string)
    ensures |s| % 4 != 1
  {
    Spell(Sextets(b), URLChar)
  }

  lemma DivMod16(h: int, l: int)
    requires 0 <= l < 16
    ensures (h * 16 + l) / 16 == h && (h * 16 + l) % 16 == l
  {
  }

  lemma DivMod4(h: int, l: int)
    requires 0 <= l < 4
    ensures (h * 4 + l) / 4 == h && (h * 4 + l) % 4 == l
  {
  }

  /** Regrouping the bits of three bytes into four 6-bit values and back gives the bytes. */
  lemma BytesOfSextets(x: Byte, y: Byte, z: Byte)
    ensures Bytes(x / 4, (x % 4) * 16 + y / 16, (y % 16) * 4 + z / 64, z % 64) == [x, y, z]
  {
    DivMod16(x % 4, y / 16);
    DivMod4(y % 16, z / 64);
  }

  /** Four alphabet characters decode as a full quantum, last or not. */
  lemma DecodeAlphabetQuantum(v: seq<Sextet>, last: bool)
    requires |v| == 4
    ensures DecodeQuantum(Spell(v, StdChar), last) == Some(Bytes(v[0], v[1], v[2], v[3]))
  {
    var q := Spell(v, StdChar);
    SextetOfStdChar(v[0]);
    SextetOfStdChar(v[1]);
    SextetOfStdChar(v[2]);
    SextetOfStdChar(v[3]);
    assert SextetOf(q[0]) == Some(v[0]) && SextetOf(q[1]) == Some(v[1]);
    assert SextetOf(q[2]) == Some(v[2]) && SextetOf(q[3]) == Some(v[3]);
  }

  /** Decoding the first quantum of an encoding gives back the three bytes it encodes. */
  lemma DecodeFullQuantum(x: Byte, y: Byte, z: Byte, last: bool)
    ensures DecodeQuantum(Spell([x / 4, (x % 4) * 16 + y / 16, (y % 16) * 4 + z / 64, z % 64], StdChar), last)
            == Some([x, y, z])
  {
    DecodeAlphabetQuantum([x / 4, (x % 4) * 16 + y / 16, (y % 16) * 4 + z / 64, z % 64], last);
    BytesOfSextets(x, y, z);
  }

  /** The standard encoding of one byte is a quantum padded with `==`. */
  lemma StdEncodeOne(x: Byte)
    ensures StdEncode([x]) == Spell([x / 4, (x % 4) * 16], StdChar) + "=="
  {
  }

  /** The standard encoding of two bytes is a quantum padded with `=`. */
  lemma StdEncodeTwo(x: Byte, y: Byte)
    ensures StdEncode([x, y]) == Spell([x / 4, (x % 4) * 16 + y / 16, (y % 16) * 4], StdChar) + "="
  {
  }

  /** The standard encoding of three bytes or more starts with the full quantum of the first three. */
  lemma StdEncodeCons(b: seq<Byte>)
    requires |b| >= 3
    ensures StdEncode(b) ==
      Spell([b[0] / 4, (b[0] % 4) * 16 + b[1] / 16, (b[1] % 16) * 4 + b[2] / 64, b[2] % 64], StdChar)
      + StdEncode(b[3..])
  {
    var head := [b[0] / 4, (b[0] % 4) * 16 + b[1] / 16, (b[1] % 16) * 4 + b[2] / 64, b[2] % 64];
    var v := Sextets(b[3..]);
    assert Sextets(b) == head + v;
    assert PadCount(|b|) == PadCount(|b[3..]|);
    assert Spell(head + v, StdChar) == Spell(head, StdChar) + Spell(v, StdChar);
  }

  /** Text of one quantum decodes as that last quantum. */
  lemma DecodeOneQuantum(s: string)
    requires |s| == 4
    ensures DecodeQuanta(s) == DecodeQuantum(s, true)
  {
    assert s[..4] == s && s[4..] == [];
    assert DecodeQuanta(s[4..]) == Some([]);
    var q := DecodeQuantum(s, true);
    if q.Some? {
      assert q.value + [] == q.value;
    }
  }

  /** Two alphabet characters and `==` decode as one byte. */
  lemma DecodeTwoPads(v: seq<Sextet>)
    requires |v| == 2
    ensures DecodeQuantum(Spell(v, StdChar) + "==", true) == Some(Bytes(v[0], v[1], 0, 0)[..1])
  {
    var q := Spell(v, StdChar) + "==";
    SextetOfStdChar(v[0]);
    SextetOfStdChar(v[1]);
    assert SextetOf(q[0]) == Some(v[0]) && SextetOf(q[1]) == Some(v[1]);
    assert q[2] == '=' && q[3] == '=';
  }

  /** Three alphabet characters and `=` decode as two bytes. */
  lemma DecodeOnePad(v: seq<Sextet>)
    requires |v| == 3
    ensures DecodeQuantum(Spell(v, StdChar) + "=", true) == Some(Bytes(v[0], v[1], v[2], 0)[..2])
  {
    var q := Spell(v, StdChar) + "=";
    SextetOfStdChar(v[0]);
    SextetOfStdChar(v[1]);
    SextetOfStdChar(v[2]);
    assert SextetOf(q[0]) == Some(v[0]) && SextetOf(q[1]) == Some(v[1]) && SextetOf(q[2]) == Some(v[2]);
    assert q[3] == '=';
  }

  /** Decoding the encoding of one byte gives it back. */
  lemma DecodeOne(x: Byte)
    ensures DecodeQuanta(StdEncode([x])) == Some([x])
  {
    StdEncodeOne(x);
    DecodeOneQuantum(StdEncode([x]));
    DecodeTwoPads([x / 4, (x % 4) * 16]);
    DivMod16(x % 4, 0);
    assert Bytes(x / 4, (x % 4) * 16, 0, 0)[..1] == [x];
  }

  /** Decoding the encoding of two bytes gives them back. */
  lemma DecodeTwo(x: Byte, y: Byte)
    ensures DecodeQuanta(StdEncode([x, y])) == Some([x, y])
  {
    StdEncodeTwo(x, y);
    DecodeOneQuantum(StdEncode([x, y]));
    DecodeOnePad([x / 4, (x % 4) * 16 + y / 16, (y % 16) * 4]);
    BytesOfSextets(x, y, 0);
    assert Bytes(x / 4, (x % 4) * 16 + y / 16, (y % 16) * 4, 0)[..2] == [x, y];
  }

  /** A quantum that decodes, followed by text that decodes, decodes to the concatenation. */
  lemma DecodeQuantaCons(q: string, rest: string, head: seq<Byte>, tail: seq<Byte>)
    requires |q| == 4
    requires DecodeQuantum(q, rest == []) == Some(head)
    requires DecodeQuanta(rest) == Some(tail)
    ensures DecodeQuanta(q + rest) == Some(head + tail)
  {
    var s := q + rest;
    assert s[..4] == q && s[4..] == rest;
  }

  /** The round trip of the standard encoding, quantum by quantum. */
  lemma {:induction false} DecodeQuantaStdEncode(b: seq<Byte>)
    ensures DecodeQuanta(StdEncode(b)) == Some(b)
    decreases |b|
  {
    if |b| == 1 {
      DecodeOne(b[0]);
      assert b == [b[0]];
    } else if |b| == 2 {
      DecodeTwo(b[0], b[1]);
      assert b == [b[0], b[1]];
    } else if |b| >= 3 {
      var x, y, z := b[0], b[1], b[2];
      assert b == [x, y, z] + b[3..];
      var q := Spell([x / 4, (x % 4) * 16 + y / 16, (y % 16) * 4 + z / 64, z % 64], StdChar);
      var rest := StdEncode(b[3..]);
      StdEncodeCons(b);
      DecodeFullQuantum(x, y, z, rest == []);
      DecodeQuantaStdEncode(b[3..]);
      DecodeQuantaCons(q, rest, [x, y, z], b[3..]);
    }
  }

  /** `DecodeString` inverts `StdEncode`. */
  lemma StdRoundTrip(b: seq<Byte>)
    ensures DecodeString(StdEncode(b)) == Ok(b)
  {
    var s := StdEncode(b);
    forall i | 0 <= i < |s| ensures !IsNewline(s[i]) {
      var v := Sextets(b);
      if i < |v| {
        assert s[i] == StdChar(v[i]);
      }
    }
    StripNewlinesNone(s);
    DecodeQuantaStdEncode(b);
  }
}
