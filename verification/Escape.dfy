/** File names: arbitrary bytes stored as a string, by `escape_filename` and back by
    `unescape_filename`. A string is a sequence of Unicode scalar values. */
module Escape {
  import opened Repo

  // ---------------------------------------------------------------- UTF-8 (section 4 of RFC 3629)

  /** A Unicode scalar value by its digits in base 64, as many as its encoding has bytes: `C3(a, b,
      c)` is U+ a * 4096 + b * 64 + c. */
  datatype Digits64 = C1(a: int) | C2(a: int, b: int) | C3(a: int, b: int, c: int) | C4(a: int, b: int, c: int, d: int)
  {
    /** Each value below 0x110000 outside the surrogates D800..DFFF has exactly one such form. */
    predicate Proper()
    {
      match this
      case C1(a) => 0 <= a < 128
      case C2(a, b) => 2 <= a < 32 && 0 <= b < 64
      case C3(a, b, c) => 0 <= a < 16 && 0 <= b < 64 && 0 <= c < 64 && (a == 0 ==> b >= 32) && (a == 13 ==> b < 32)
      case C4(a, b, c, d) =>
        0 <= a <= 4 && 0 <= b < 64 && 0 <= c < 64 && 0 <= d < 64 && (a == 0 ==> b >= 16) && (a == 4 ==> b < 16)
    }
  }

  type Scalar = c: Digits64 | c.Proper() witness C1(0)

  function Value(c: Scalar): int
  {
    match c
    case C1(a) => a
    case C2(a, b) => a * 64 + b
    case C3(a, b, c) => (a * 64 + b) * 64 + c
    case C4(a, b, c, d) => ((a * 64 + b) * 64 + c) * 64 + d
  }

  /** `char::from_u32`, for numbers that are scalar values. */
  function FromU32(n: int): (c: Scalar)
    requires 0 <= n < 0xD800 || 0xE000 <= n < 0x11_0000
    ensures Value(c) == n
  {
    if n < 0x80 then C1(n)
    else if n < 0x800 then C2(n / 64, n % 64)
    else
      var (m, d) := (n / 64, n % 64);
      if n < 0x1_0000 then C3(m / 64, m % 64, d)
      else var (k, c) := (m / 64, m % 64); C4(k / 64, k % 64, c, d)
  }

  function Encode(c: Scalar): (r: seq<Byte>)
    ensures r != []
  {
    match c
    case C1(a) => [a]
    case C2(a, b) => [0xC0 + a, 0x80 + b]
    case C3(a, b, c) => [0xE0 + a, 0x80 + b, 0x80 + c]
    case C4(a, b, c, d) => [0xF0 + a, 0x80 + b, 0x80 + c, 0x80 + d]
  }

  function EncodeAll(s: seq<Scalar>): seq<Byte>
  {
    if s == [] then [] else Encode(s[0]) + EncodeAll(s[1..])
  }

  predicate Cont(b: Byte) { 0x80 <= b < 0xC0 }

  /** What `str::from_utf8` finds at the head of a nonempty input: a character, an error of a given
      length, or a sequence that the end of the input cuts off. */
  datatype Head = Char(c: Scalar, len: nat) | Bad(len: nat) | CutOff

  function DecodeHead(s: seq<Byte>): (r: Head)
    requires s != []
    ensures r.Char? ==> 0 < r.len <= |s| && s[..r.len] == Encode(r.c)
    ensures r.Bad? ==> 0 < r.len <= |s|
  {
    var a: int := s[0];
    if a < 0x80 then Char(C1(a), 1)
    else if a < 0xC2 || a >= 0xF5 then Bad(1)
    else if |s| < 2 then CutOff
    else if !SecondOk(a, s[1]) then Bad(1)
    else
      var b: int := s[1];
      if a < 0xE0 then Char(C2(a - 0xC0, b - 0x80), 2)
      else if |s| < 3 then CutOff
      else if !Cont(s[2]) then Bad(2)
      else
        var c: int := s[2];
        if a < 0xF0 then Char(C3(a - 0xE0, b - 0x80, c - 0x80), 3)
        else if |s| < 4 then CutOff
        else if !Cont(s[3]) then Bad(3)
        else
          var d: int := s[3];
          Char(C4(a - 0xF0, b - 0x80, c - 0x80, d - 0x80), 4)
  }

  /** The second byte after a: no overlong forms, no surrogates, nothing above U+10FFFF. */
  predicate SecondOk(a: Byte, b: Byte)
  {
    && Cont(b)
    && (a == 0xE0 ==> b >= 0xA0) && (a == 0xED ==> b < 0xA0)
    && (a == 0xF0 ==> b >= 0x90) && (a == 0xF4 ==> b < 0x90)
  }

  /** Decoding finds every encoded character. */
  lemma {:induction false} DecodeEncode(c: Scalar, rest: seq<Byte>)
    ensures DecodeHead(Encode(c) + rest) == Char(c, |Encode(c)|)
  {
  }

  // ---------------------------------------------------------------- escaping

  const BACKSLASH: Scalar := C1(92)

  /** The letter that stands for a special character after a backslash, or -1. */
  function Letter(a: int): (r: int)
    ensures -1 <= r < 128
  {
    if a == 92 || a == 34 then a      // \ "
    else if a == 7 then 97            // a
    else if a == 8 then 98            // b
    else if a == 12 then 102          // f
    else if a == 10 then 110          // n
    else if a == 13 then 114          // r
    else if a == 9 then 116           // t
    else if a == 11 then 118          // v
    else -1
  }

  function EscapeChar(c: Scalar): (r: seq<Scalar>)
  {
    if !c.C1? || Letter(c.a) < 0 then [c] else [BACKSLASH, C1(Letter(c.a))]
  }

  function EscapeChars(s: seq<Scalar>): seq<Scalar>
  {
    if s == [] then [] else EscapeChar(s[0]) + EscapeChars(s[1..])
  }

  function HexDigit(n: int): Scalar
    requires 0 <= n < 16
  {
    C1(if n < 10 then 48 + n else 87 + n)
  }

  function EscapeByte(b: Byte): seq<Scalar>
  {
    [BACKSLASH, C1(120), HexDigit(b / 16), HexDigit(b % 16)]
  }

  function EscapeBytes(s: seq<Byte>): seq<Scalar>
  {
    if s == [] then [] else EscapeByte(s[0]) + EscapeBytes(s[1..])
  }

  /** The escaped name: characters by `EscapeChar`, bytes outside valid UTF-8 as \\xhh. */
  function Escaped(s: seq<Byte>): seq<Scalar>
    decreases |s|
  {
    if s == [] then []
    else match DecodeHead(s)
      case Char(c, n) => EscapeChar(c) + Escaped(s[n..])
      case Bad(n) => EscapeBytes(s[..n]) + Escaped(s[n..])
      case CutOff => EscapeBytes(s)
  }

  datatype Utf8 = Valid | Invalid(len: nat) | Truncated

  /** `valid` is the text of the first upTo bytes. */
  ghost predicate Decoded(input: seq<Byte>, valid: seq<Scalar>, upTo: nat)
  {
    && upTo <= |input| && input[..upTo] == EncodeAll(valid)
    && Escaped(input) == EscapeChars(valid) + Escaped(input[upTo..])
  }

  /** `str::from_utf8`: the longest valid prefix and why it ends there. */
  method FromUtf8(input: seq<Byte>) returns (valid: seq<Scalar>, upTo: nat, end: Utf8)
    ensures Decoded(input, valid, upTo)
    ensures end.Valid? ==> upTo == |input|
    ensures end.Invalid? ==> upTo < |input| && DecodeHead(input[upTo..]) == Bad(end.len)
    ensures end.Truncated? ==> upTo < |input| && DecodeHead(input[upTo..]) == CutOff
  {
    valid, upTo := [], 0;
    DecodedNothing(input);
    while upTo < |input|
      invariant Decoded(input, valid, upTo)
    {
      var stop;
      valid, upTo, stop := NextChar(input, valid, upTo);
      if !stop.Valid? { return valid, upTo, stop; }
    }
    end := Valid;
  }

  lemma {:induction false} DecodedNothing(input: seq<Byte>)
    ensures Decoded(input, [], 0)
  {
    assert input[0..] == input && input[..0] == [] && [] + Escaped(input) == Escaped(input);
  }

  /** One character more, or the reason why there is none. */
  method NextChar(input: seq<Byte>, valid: seq<Scalar>, upTo: nat) returns (valid': seq<Scalar>, upTo': nat, stop: Utf8)
    requires Decoded(input, valid, upTo) && upTo < |input|
    ensures Decoded(input, valid', upTo')
    ensures stop.Valid? ==> upTo' > upTo
    ensures stop.Invalid? ==> upTo' < |input| && DecodeHead(input[upTo'..]) == Bad(stop.len)
    ensures stop.Truncated? ==> upTo' < |input| && DecodeHead(input[upTo'..]) == CutOff
  {
    valid', upTo', stop := valid, upTo, Valid;
    match DecodeHead(input[upTo..])
    case Bad(n) => stop := Invalid(n);
    case CutOff => stop := Truncated;
    case Char(c, n) =>
      ValidStep(input, valid, upTo, c, n);
      valid', upTo' := valid + [c], upTo + n;
  }

  lemma {:induction false} ValidStep(input: seq<Byte>, valid: seq<Scalar>, upTo: nat, c: Scalar, n: nat)
    requires Decoded(input, valid, upTo) && upTo < |input| && DecodeHead(input[upTo..]) == Char(c, n)
    ensures Decoded(input, valid + [c], upTo + n)
  {
    var rest := input[upTo..];
    EncodeMore(valid, c);
    EscapeMore(valid, c);
    Split(input, upTo, n);
    Assoc(EscapeChars(valid), EscapeChar(c), Escaped(rest[n..]));
  }

  lemma {:induction false} Split(s: seq<Byte>, k: nat, n: nat)
    requires k + n <= |s|
    ensures s[..k + n] == s[..k] + s[k..][..n] && s[k..][n..] == s[k + n..]
  {
  }

  lemma {:induction false} EncodeMore(s: seq<Scalar>, c: Scalar)
    ensures EncodeAll(s + [c]) == EncodeAll(s) + Encode(c)
  {
    if s == [] {
      assert (s + [c])[1..] == [] && Encode(c) + [] == Encode(c);
    } else {
      EncodeMore(s[1..], c);
      assert (s + [c])[1..] == s[1..] + [c];
      Assoc(Encode(s[0]), EncodeAll(s[1..]), Encode(c));
    }
  }

  lemma {:induction false} EscapeMore(s: seq<Scalar>, c: Scalar)
    ensures EscapeChars(s + [c]) == EscapeChars(s) + EscapeChar(c)
  {
    if s == [] {
      assert (s + [c])[1..] == [] && EscapeChar(c) + [] == EscapeChar(c);
    } else {
      EscapeMore(s[1..], c);
      assert (s + [c])[1..] == s[1..] + [c];
      Assoc(EscapeChar(s[0]), EscapeChars(s[1..]), EscapeChar(c));
    }
  }

  method EscapeFilename(name: seq<Byte>) returns (s: seq<Scalar>)
    ensures s == Escaped(name)
  {
    var input := name;
    s := [];
    while true
      invariant Escaped(name) == s + Escaped(input)
      decreases |input|
    {
      var valid, upTo, end := FromUtf8(input);
      var after := input[upTo..];
      Assoc(s, EscapeChars(valid), Escaped(after));
      s := s + EscapeChars(valid);
      match end {
        case Valid =>
          return;
        case Invalid(n) =>
          Assoc(s, EscapeBytes(after[..n]), Escaped(after[n..]));
          s := s + EscapeBytes(after[..n]);
          input := after[n..];
        case Truncated =>
          s := s + EscapeBytes(after);
          return;
      }
    }
  }

  // ---------------------------------------------------------------- unescaping

  datatype Result =
    | Ok(bytes: seq<Byte>)
    | UnexpectedEOF
    | ParsingHexFailed
    | ParsingUnicodeFailed
    | InvalidUnicode
    | UnrecognizedEscape

  /** `take`: n characters, with U+0000 for each that is missing. */
  function Take(s: seq<Scalar>, n: nat): (r: seq<Scalar>)
    ensures |r| == n
  {
    if n == 0 then [] else if s == [] then [C1(0)] + Take(s, n - 1) else [s[0]] + Take(s[1..], n - 1)
  }

  function Skip(s: seq<Scalar>, n: nat): (r: seq<Scalar>)
    ensures |r| <= |s|
  {
    if n <= |s| then s[n..] else []
  }

  /** The value of a hexadecimal digit, or -1. */
  function DigitValue(c: Scalar): (r: int)
    ensures -1 <= r < 16
  {
    if !c.C1? then -1
    else if 48 <= c.a < 58 then c.a - 48 else if 97 <= c.a < 103 then c.a - 87 else if 65 <= c.a < 71 then c.a - 55
    else -1
  }

  /** Digits to number, most significant first; -1 for anything that is no digit. */
  function Digits(s: seq<Scalar>): (r: int)
    ensures r >= -1
  {
    if s == [] then 0
    else
      var high, low := Digits(s[..|s| - 1]), DigitValue(s[|s| - 1]);
      if high < 0 || low < 0 then -1 else 16 * high + low
  }

  /** `from_str_radix(_, 16)` of an unsigned type: one leading '+' is accepted. */
  function FromHex(s: seq<Scalar>): (r: int)
    ensures r >= -1
  {
    if |s| > 1 && s[0] == C1(43) then Digits(s[1..]) else Digits(s)
  }

  lemma {:induction false} DigitsBound(s: seq<Scalar>)
    ensures |s| <= 2 ==> Digits(s) < 256
  {
    if s != [] {
      DigitsBound(s[..|s| - 1]);
      if |s| == 2 {
        assert Digits(s[..1]) < 16 by { assert s[..1][..0] == []; }
      }
    }
  }

  function FromHexByte(s: seq<Scalar>): (r: int)
    requires |s| == 2
    ensures -1 <= r < 256
  {
    DigitsBound(s); DigitsBound(s[1..]);
    FromHex(s)
  }

  /** The byte of a one-character escape, or -1. */
  function Simple(a: int): (r: int)
    ensures -1 <= r < 128
  {
    if a == 92 || a == 34 || a == 39 || a == 96 then a      // \ " ' `
    else if a == 97 then 7
    else if a == 98 then 8
    else if a == 102 then 12
    else if a == 110 then 10
    else if a == 114 then 13
    else if a == 116 then 9
    else if a == 118 then 11
    else -1
  }

  /** What an escape sequence after the backslash stands for, and how many characters it takes. */
  function EscapeSequence(s: seq<Scalar>): (r: (Result, nat))
    requires s != []
  {
    if !s[0].C1? then (UnrecognizedEscape, 1)
    else if Simple(s[0].a) >= 0 then (Ok([Simple(s[0].a)]), 1)
    else if s[0].a == 120 then
      var h := FromHexByte(Take(s[1..], 2));
      (if h < 0 then ParsingHexFailed else Ok([h]), 3)
    else if s[0].a == 117 then (UnicodeEscape(FromHex(Take(s[1..], 4))), 5)
    else if s[0].a == 85 then (UnicodeEscape(FromHex(Take(s[1..], 8))), 9)
    else (UnrecognizedEscape, 1)
  }

  function UnicodeEscape(h: int): (r: Result)
    requires h >= -1
  {
    if h < 0 then ParsingUnicodeFailed
    else if 0xD800 <= h < 0xE000 || h >= 0x11_0000 then InvalidUnicode
    else Ok(Encode(FromU32(h)))
  }

  function Prepend(b: seq<Byte>, r: Result): (q: Result)
  {
    if r.Ok? then Ok(b + r.bytes) else r
  }

  function Unescaped(s: seq<Scalar>): (r: Result)
    decreases |s|
  {
    if s == [] then Ok([])
    else if s[0] != BACKSLASH then Prepend(Encode(s[0]), Unescaped(s[1..]))
    else if |s| == 1 then UnexpectedEOF
    else
      var (r, n) := EscapeSequence(s[1..]);
      if r.Ok? then Prepend(r.bytes, Unescaped(Skip(s[1..], n))) else r
  }

  lemma {:induction false} NoBackslash(s: seq<Scalar>)
    requires BACKSLASH !in s
    ensures Unescaped(s) == Ok(EncodeAll(s))
  {
    if s != [] { NoBackslash(s[1..]); }
  }

  method UnescapeFilename(s: seq<Scalar>) returns (r: Result)
    ensures r == Unescaped(s)
  {
    if BACKSLASH !in s {
      NoBackslash(s);
      return Ok(EncodeAll(s));
    }
    var chars, u := s, [];
    while chars != []
      invariant Unescaped(s) == Prepend(u, Unescaped(chars))
      decreases |chars|
    {
      var c := chars[0];
      chars := chars[1..];
      if c == BACKSLASH {
        if chars == [] { return UnexpectedEOF; }
        var (e, n) := EscapeSequence(chars);
        if !e.Ok? { return e; }
        u := u + e.bytes;
        chars := Skip(chars, n);
      } else {
        u := u + Encode(c);
      }
    }
    r := Ok(u);
  }

  // ---------------------------------------------------------------- the round trip

  /** A simple escape is undone by reading two characters. */
  lemma {:induction false} UnescapeSimple(a: int, rest: seq<Scalar>)
    requires 0 <= a < 128 && Simple(a) >= 0
    ensures Unescaped([BACKSLASH, C1(a)] + rest) == Prepend([Simple(a)], Unescaped(rest))
  {
    var s := [BACKSLASH, C1(a)] + rest;
    var t := s[1..];
    assert t == [C1(a)] + rest && t[1..] == rest;
  }

  lemma {:induction false} UnescapeChar(c: Scalar, rest: seq<Scalar>)
    ensures Unescaped(EscapeChar(c) + rest) == Prepend(Encode(c), Unescaped(rest))
  {
    if !c.C1? || Letter(c.a) < 0 {
      assert ([c] + rest)[1..] == rest;
    } else {
      UnescapeSimple(Letter(c.a), rest);
    }
  }

  lemma {:induction false} PrependTwice(a: seq<Byte>, b: seq<Byte>, r: Result)
    ensures Prepend(a, Prepend(b, r)) == Prepend(a + b, r)
  {
    if r.Ok? { Assoc(a, b, r.bytes); }
  }

  lemma {:induction false} TakeTwo(a: Scalar, b: Scalar, rest: seq<Scalar>)
    ensures Take([a, b] + rest, 2) == [a, b]
  {
    assert ([a, b] + rest)[1..] == [b] + rest;
    assert Take([b] + rest, 1) == [b] + Take(([b] + rest)[1..], 0);
  }

  lemma {:induction false} HexByte(b: Byte)
    ensures FromHexByte([HexDigit(b / 16), HexDigit(b % 16)]) == b
  {
    var hi, lo := HexDigit(b / 16), HexDigit(b % 16);
    assert [hi, lo][..1] == [hi] && [hi][..0] == [];
    assert Digits([hi]) == b / 16;
  }

  lemma {:induction false} UnescapeByte(b: Byte, rest: seq<Scalar>)
    ensures Unescaped(EscapeByte(b) + rest) == Prepend([b], Unescaped(rest))
  {
    var s := EscapeByte(b) + rest;
    var hi, lo := HexDigit(b / 16), HexDigit(b % 16);
    var t := s[1..];
    assert s[0] == BACKSLASH && t == [C1(120)] + ([hi, lo] + rest);
    assert t[1..] == [hi, lo] + rest && t[3..] == rest;
    TakeTwo(hi, lo, rest);
    HexByte(b);
  }

  lemma {:induction false} UnescapeBytes(s: seq<Byte>, rest: seq<Scalar>)
    ensures Unescaped(EscapeBytes(s) + rest) == Prepend(s, Unescaped(rest))
  {
    if s == [] {
      assert EscapeBytes(s) + rest == rest;
    } else {
      var b, t := s[0], s[1..];
      UnescapeBytes(t, rest);
      UnescapeByte(b, EscapeBytes(t) + rest);
      Assoc(EscapeByte(b), EscapeBytes(t), rest);
      assert s == [b] + t;
      PrependTwice([b], t, Unescaped(rest));
    }
  }

  lemma {:induction false} Rejoin(s: seq<Byte>, n: nat)
    requires n <= |s|
    ensures s[..n] + s[n..] == s && s + [] == s
  {
  }

  /** Every name survives: unescaping the escaped bytes gives them back, valid UTF-8 or not. */
  lemma {:induction false} RoundTrip(name: seq<Byte>)
    ensures Unescaped(Escaped(name)) == Ok(name)
    decreases |name|
  {
    if name != [] {
      match DecodeHead(name)
      case Char(c, n) =>
        RoundTrip(name[n..]);
        UnescapeChar(c, Escaped(name[n..]));
        Rejoin(name, n);
      case Bad(n) =>
        RoundTrip(name[n..]);
        UnescapeBytes(name[..n], Escaped(name[n..]));
        Rejoin(name, n);
      case CutOff =>
        UnescapeBytes(name, []);
        Rejoin(name, |name|);
        assert EscapeBytes(name) + [] == EscapeBytes(name);
    }
  }

  /** Different names are stored under different strings. */
  lemma {:induction false} EscapedInjective(a: seq<Byte>, b: seq<Byte>)
    requires Escaped(a) == Escaped(b)
    ensures a == b
  {
    RoundTrip(a); RoundTrip(b);
  }

  /** A name that is valid UTF-8 is escaped character by character; without special characters it
      is stored as it is. */
  lemma {:induction false} TextIsKept(s: seq<Scalar>)
    ensures Escaped(EncodeAll(s)) == EscapeChars(s)
    ensures (forall c :: c in s ==> EscapeChar(c) == [c]) ==> Escaped(EncodeAll(s)) == s
  {
    if s != [] {
      TextIsKept(s[1..]);
      var b := EncodeAll(s);
      DecodeEncode(s[0], EncodeAll(s[1..]));
      assert b[|Encode(s[0])|..] == EncodeAll(s[1..]);
      assert s == [s[0]] + s[1..];
    }
  }
}
