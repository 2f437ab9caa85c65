/** The escape sequences of file names, letter by letter. */
module EscapeSyntax {
  import opened Repo
  import opened Escape

  /** How the characters below 128 are stored. */
  lemma {:induction false} AsciiEscapes(a: int)
    requires 0 <= a < 128
    ensures EscapeChar(C1(a)) ==
      match a
      case 7 => [BACKSLASH, C1('a' as int)]
      case 8 => [BACKSLASH, C1('b' as int)]
      case 9 => [BACKSLASH, C1('t' as int)]
      case 10 => [BACKSLASH, C1('n' as int)]
      case 11 => [BACKSLASH, C1('v' as int)]
      case 12 => [BACKSLASH, C1('f' as int)]
      case 13 => [BACKSLASH, C1('r' as int)]
      case 34 => [BACKSLASH, C1('"' as int)]
      case 92 => [BACKSLASH, BACKSLASH]
      case _ => [C1(a)]
  {
  }

  const DIGITS: string := "0123456789abcdef"

  lemma {:induction false} DigitIs(n: nat)
    requires n < 16
    ensures HexDigit(n) == C1(DIGITS[n] as int)
  {
  }

  lemma {:induction false} EscapedBad(s: seq<Byte>, b: Byte, rest: seq<Byte>)
    requires s == [b] + rest && DecodeHead(s) == Bad(1)
    ensures Escaped(s) == EscapeByte(b) + Escaped(rest)
  {
    assert s[..1] == [b] && s[1..] == rest && [b][1..] == [];
    assert EscapeBytes([b]) == EscapeByte(b) + EscapeBytes([]);
  }

  /** How a byte is stored that cannot begin a character: as \xhh, with small letters. */
  lemma {:induction false} StrayBytes(b: Byte, rest: seq<Byte>)
    requires 0x80 <= b < 0xC2 || 0xF5 <= b
    ensures Escaped([b] + rest) ==
      [BACKSLASH, C1('x' as int), C1(DIGITS[b / 16] as int), C1(DIGITS[b % 16] as int)] + Escaped(rest)
  {
    DigitIs(b / 16);
    DigitIs(b % 16);
    EscapedBad([b] + rest, b, rest);
  }

  // ---------------------------------------------------------------- hexadecimal numbers

  /** The last n digits of v, most significant first. */
  function Hex(v: nat, n: nat): (r: seq<Scalar>)
    ensures |r| == n
  {
    if n == 0 then [] else Hex(v / 16, n - 1) + [HexDigit(v % 16)]
  }

  function Power(n: nat): (r: nat)
    ensures r > 0
  {
    if n == 0 then 1 else 16 * Power(n - 1)
  }

  lemma {:induction false} DigitsOfHex(v: nat, n: nat)
    requires v < Power(n)
    ensures Digits(Hex(v, n)) == v
    decreases n
  {
    if n > 0 {
      assert v / 16 < Power(n - 1);
      DigitsOfHex(v / 16, n - 1);
      assert Hex(v, n)[..n - 1] == Hex(v / 16, n - 1);
      assert DigitValue(HexDigit(v % 16)) == v % 16;
    }
  }

  /** A hexadecimal digit is no sign. */
  lemma {:induction false} FromHexOfHex(v: nat, n: nat)
    requires v < Power(n)
    ensures FromHex(Hex(v, n)) == v
  {
    DigitsOfHex(v, n);
    if n > 1 { FirstIsDigit(v, n); }
  }

  lemma {:induction false} FirstIsDigit(v: nat, n: nat)
    requires n > 0
    ensures Hex(v, n)[0] != C1(43)
    decreases n
  {
    if n > 1 {
      FirstIsDigit(v / 16, n - 1);
      assert Hex(v, n)[0] == Hex(v / 16, n - 1)[0];
    }
  }

  lemma {:induction false} TakeAll(a: seq<Scalar>, rest: seq<Scalar>)
    ensures Take(a + rest, |a|) == a && Skip(a + rest, |a|) == rest
    decreases |a|
  {
    if a != [] {
      assert (a + rest)[1..] == a[1..] + rest;
      TakeAll(a[1..], rest);
      assert a == [a[0]] + a[1..];
    } else {
      assert a + rest == rest;
    }
  }

  predicate IsScalar(v: nat) { v < 0xD800 || 0xE000 <= v < 0x11_0000 }

  /** A number in hexadecimal digits after a letter: the character with that number, or an error if there is none. */
  lemma {:induction false} UnicodeReads(letter: int, n: nat, v: nat, rest: seq<Scalar>)
    requires (letter == 117 && n == 4) || (letter == 85 && n == 8)
    requires v < Power(n)
    ensures var s := [C1(letter)] + (Hex(v, n) + rest);
      EscapeSequence(s) == (if IsScalar(v) then Ok(Encode(FromU32(v))) else InvalidUnicode, n + 1)
  {
    var s := [C1(letter)] + (Hex(v, n) + rest);
    assert s[1..] == Hex(v, n) + rest;
    TakeAll(Hex(v, n), rest);
    FromHexOfHex(v, n);
  }

  /** \uhhhh and \Uhhhhhhhh stand for the character with that number; a number that belongs to none is an error. */
  lemma {:induction false} UnicodeEscapes(letter: int, n: nat, v: nat, rest: seq<Scalar>)
    requires (letter == 117 && n == 4) || (letter == 85 && n == 8)
    requires v < Power(n)
    ensures var s := [BACKSLASH, C1(letter)] + (Hex(v, n) + rest);
      Unescaped(s) == if IsScalar(v) then Prepend(Encode(FromU32(v)), Unescaped(rest)) else InvalidUnicode
  {
    var t := [C1(letter)] + (Hex(v, n) + rest);
    var s := [BACKSLASH, C1(letter)] + (Hex(v, n) + rest);
    assert s[0] == BACKSLASH && s[1..] == t;
    UnicodeReads(letter, n, v, rest);
    assert t == ([C1(letter)] + Hex(v, n)) + rest;
    TakeAll([C1(letter)] + Hex(v, n), rest);
  }

  /** The characters that may follow a backslash. */
  predicate Escapes(c: Scalar)
  {
    c.C1? && (c.a as int) in {34, 39, 85, 92, 96, 97, 98, 102, 110, 114, 116, 117, 118, 120}
  }

  /** A backslash at the end is an error, and so is one before any other character. */
  lemma {:induction false} WrongEscapes(c: Scalar, rest: seq<Scalar>)
    ensures Unescaped([BACKSLASH]) == UnexpectedEOF
    ensures !Escapes(c) ==> Unescaped([BACKSLASH, c] + rest) == UnrecognizedEscape
  {
    assert ([BACKSLASH, c] + rest)[1..] == [c] + rest;
  }

  /** What the letters of the escapes are read as; quotes of any kind stand for themselves. */
  const LETTERS: map<char, Byte> :=
    map['a' := 7, 'b' := 8, 't' := 9, 'n' := 10, 'v' := 11, 'f' := 12, 'r' := 13,
        '"' := 34, '\'' := 39, '`' := 96, '\\' := 92]

  lemma {:induction false} LettersRead(x: char, rest: seq<Scalar>)
    requires x in LETTERS
    ensures Unescaped([BACKSLASH, C1(x as int)] + rest) == Prepend([LETTERS[x]], Unescaped(rest))
  {
    UnescapeSimple(x as int, rest);
  }
}
