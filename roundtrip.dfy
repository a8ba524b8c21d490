/** What the parser reads back from the serializer's text: every string,
    both booleans and null round-trip, and the parser stops right after the
    text it was given. The C++ pieces that break this as written (the
    escaper copying `"` and `\`, the digit check of `\u` escapes) are shown
    on concrete inputs. */
module RoundTrip {
  import opened Base
  import opened Value
  import opened Parse
  import opened Serialize

  lemma LowerHexDigitValue(d: nat)
    requires d < 16
    ensures HexDigitValue(LowerHexDigit(d)) == d
  {
  }

  /** The parser reads back the four hex digits the serializer writes. */
  lemma Hex4RoundTrip(n: nat)
    requires n < 0x10000
    ensures HexValue4(Hex4(n)) == n
  {
    var q1, d := n / 16, n % 16;
    var q2, c := q1 / 16, q1 % 16;
    var a, b := q2 / 16, q2 % 16;
    assert n / 0x10 == q1 && n / 0x100 == q2 && n / 0x1000 == a;
    var h := Hex4(n);
    assert h == [LowerHexDigit(a), LowerHexDigit(b), LowerHexDigit(c), LowerHexDigit(d)];
    LowerHexDigitValue(a);
    LowerHexDigitValue(b);
    LowerHexDigitValue(c);
    LowerHexDigitValue(d);
    assert HexValue4(h) == ((a * 16 + b) * 16 + c) * 16 + d;
  }

  /** One escaped byte, read by the string parser: it stands for that byte,
      and the parser moves past exactly its escape. */
  lemma EscapeByteDecodes(input: Bytes, i: nat, b: Byte)
    requires i + |EscapeByte(b)| < |input|
    requires input[i..i + |EscapeByte(b)|] == EscapeByte(b)
    ensures StringBody(input, i) == Prepend([b], StringBody(input, i + |EscapeByte(b)|))
  {
    EscapeByteShape(b);
    var e := EscapeByte(b);
    assert input[i] == e[0];
    if |e| == 2 {
      assert input[i + 1] == e[1];
    } else if |e| == 6 {
      assert e == [BACKSLASH, LETTER_U] + Hex4(b);
      assert input[i + 1] == e[1] == LETTER_U;
      assert input[i + 2..i + 6] == e[2..6] == Hex4(b);
      Hex4RoundTrip(b);
      assert Utf16EscapeAt(input, i) == Ok((b, i + 6));
    }
  }

  /** A run of the input that spells `e + t` spells `e`, then `t`. */
  lemma SliceSplit(input: Bytes, i: nat, e: Bytes, t: Bytes)
    requires i + |e| + |t| <= |input| && input[i..i + |e| + |t|] == e + t
    ensures input[i..i + |e|] == e
    ensures input[i + |e|..i + |e| + |t|] == t
  {
    var w := input[i..i + |e| + |t|];
    assert input[i..i + |e|] == w[..|e|];
    assert input[i + |e|..i + |e| + |t|] == w[|e|..];
  }

  /** The escaped text of a string, then a quotation mark, reads back as the
      string, and the parser stops right after that mark. */
  lemma {:induction false} EscapedDecodes(input: Bytes, i: nat, s: Bytes)
    requires i + |Escaped(s)| < |input|
    requires input[i..i + |Escaped(s)|] == Escaped(s)
    requires input[i + |Escaped(s)|] == QUOTE
    ensures StringBody(input, i) == Ok((s, i + |Escaped(s)| + 1))
    decreases |s|
  {
    if s != [] {
      var e, t := EscapeByte(s[0]), Escaped(s[1..]);
      EscapedCons(s[0], s[1..]);
      assert [s[0]] + s[1..] == s;
      SliceSplit(input, i, e, t);
      EscapeByteDecodes(input, i, s[0]);
      EscapedDecodes(input, i + |e|, s[1..]);
      assert StringBody(input, i) == Prepend([s[0]], Ok((s[1..], i + |e| + |t| + 1)));
    }
  }

  /** Every string round-trips: the parser reads the serializer's text back
      as the same string, whatever follows it, and stops right after it. */
  lemma StringRoundTrip(s: Bytes, fmt: NumberFormatter, rest: Bytes, readNumber: NumberReader)
    ensures ValueAt(Render(String(s), fmt) + rest, 0, readNumber) == Ok((String(s), |Escaped(s)| + 2))
  {
    var input := Render(String(s), fmt) + rest;
    assert input == [QUOTE] + Escaped(s) + [QUOTE] + rest;
    assert input[1..1 + |Escaped(s)|] == Escaped(s);
    EscapedDecodes(input, 1, s);
  }

  /** `true`, `false` and `null` read back as themselves. */
  lemma LiteralRoundTrip(b: bool, fmt: NumberFormatter, rest: Bytes, readNumber: NumberReader)
    ensures ValueAt(Render(Bool(b), fmt) + rest, 0, readNumber) == Ok((Bool(b), |Render(Bool(b), fmt)|))
    ensures ValueAt(Render(Null, fmt) + rest, 0, readNumber) == Ok((Null, 4))
  {
    var t := Render(Bool(b), fmt) + rest;
    assert t[..|Render(Bool(b), fmt)|] == Render(Bool(b), fmt);
    var n := Render(Null, fmt) + rest;
    assert n[..4] == NULL_TEXT;
  }

  /** A NaN or an infinity is written as `null`, so it reads back as null,
      not as a number. */
  lemma NonFiniteNumberReadsBackAsNull(d: Double, fmt: NumberFormatter, rest: Bytes, readNumber: NumberReader)
    requires !IsFinite(d)
    ensures ValueAt(Render(Number(d), fmt) + rest, 0, readNumber) == Ok((Null, 4))
  {
    var n := Render(Number(d), fmt) + rest;
    assert n[..4] == NULL_TEXT;
  }

  /** Arrays and objects are written, but the productions that would read
      them back have empty bodies (parse.cpp:80-88). */
  lemma ContainersAreNotReadBack(v: Json, fmt: NumberFormatter, rest: Bytes, readNumber: NumberReader)
    requires v.Array? || v.Object?
    ensures ValueAt(Render(v, fmt) + rest, 0, readNumber) == Err(Unimplemented)
  {
  }

  /** The C++ escaper copies `"` and `\`. A string holding a quotation mark
      is then written `"""`, which reads back as the empty string with a
      stray quotation mark after it; one holding a backslash is written
      `"\"`, whose only quotation mark after the opening one is escaped, so
      it never closes. */
  lemma EscapeAsWrittenBreaksRoundTrip(readNumber: NumberReader)
    ensures ValueAt([QUOTE] + EscapeByteAsWritten(QUOTE) + [QUOTE], 0, readNumber) == Ok((String([]), 2))
    ensures ValueAt([QUOTE] + EscapeByteAsWritten(BACKSLASH) + [QUOTE], 0, readNumber) == Err(SyntaxError)
  {
    var broken := [QUOTE] + EscapeByteAsWritten(BACKSLASH) + [QUOTE];
    assert broken == [QUOTE, BACKSLASH, QUOTE];
    assert StringBody(broken, 3) == Err(SyntaxError);
    assert EscapeAt(broken, 1) == Ok(([QUOTE], 3));
  }

  /** The corrected escaper writes `"\""` and `"\\"` for the same two
      strings, and they read back as written. */
  lemma EscapeCorrectedKeepsRoundTrip(fmt: NumberFormatter, readNumber: NumberReader)
    ensures ValueAt(Render(String([QUOTE]), fmt), 0, readNumber) == Ok((String([QUOTE]), 4))
    ensures ValueAt(Render(String([BACKSLASH]), fmt), 0, readNumber) == Ok((String([BACKSLASH]), 4))
  {
    ReadBackAlone([QUOTE], fmt, readNumber);
    ReadBackAlone([BACKSLASH], fmt, readNumber);
    EscapedSingle(QUOTE);
    EscapedSingle(BACKSLASH);
  }

  /** StringRoundTrip with nothing after the text. */
  lemma ReadBackAlone(s: Bytes, fmt: NumberFormatter, readNumber: NumberReader)
    ensures ValueAt(Render(String(s), fmt), 0, readNumber) == Ok((String(s), |Escaped(s)| + 2))
  {
    StringRoundTrip(s, fmt, [], readNumber);
    assert Render(String(s), fmt) + [] == Render(String(s), fmt);
  }

  /** The escaped text of the byte 0x01 followed by `1`. */
  lemma EscapedControlThenDigit()
    ensures Escaped([0x01, '1' as int]) == Ascii("\\u00011")
  {
    var s := [0x01, '1' as int];
    EscapedCons(0x01, ['1' as int]);
    assert s == [0x01] + ['1' as int];
    EscapedSingle('1' as int);
    assert Hex4(1) == ['0' as int, '0' as int, '0' as int, '1' as int];
    assert EscapeByte(0x01) == [BACKSLASH, LETTER_U, '0' as int, '0' as int, '0' as int, '1' as int];
  }

  /** The serializer writes the byte 0x01 followed by `1` as `\u00011`. The
      C++ digit check refuses that escape, since a digit follows the four;
      the corrected check reads the string back. */
  lemma DigitCheckAsWrittenRefusesEscapedText(fmt: NumberFormatter, readNumber: NumberReader)
    ensures Escaped([0x01, '1' as int]) == Ascii("\\u00011")
    ensures !FourDigitsAsWritten(Escaped([0x01, '1' as int]), 2)
    ensures ValueAt(Render(String([0x01, '1' as int]), fmt), 0, readNumber) == Ok((String([0x01, '1' as int]), 9))
  {
    var s := [0x01, '1' as int];
    EscapedControlThenDigit();
    assert Escaped(s)[6] == '1' as int;
    ReadBackAlone(s, fmt, readNumber);
  }
}
