/** The string-level parser of parse.cpp: one-character dispatch, whitespace,
    keywords, string literals with their escapes, and the `\u` hex digits.

    Each C++ loop is a method proved against a pure function of the input
    (the grammar as a function); the lemmas state what that function
    promises. Where the C++ draft does not do what its names and comments
    say, the method does what they say and a comment marks the spot. */
module Parse {
  import opened Base
  import opened Unicode
  import opened Value

  const LOWER_X: Byte := 0x78     // 'x'
  const UPPER_X: Byte := 0x58     // 'X'

  /** `strtod` from a position: the number and the position after it, or an
      error. The C library is not part of this model. */
  type NumberReader = (Bytes, nat) -> Result<(Double, nat)>

  // ---------------------------------------------------------------------
  // Whitespace (parse.cpp:231-236)
  // ---------------------------------------------------------------------

  /** `skipWhitespaces`: the index of the first non-space byte at or after
      `index`, or the end of the input. Spaces are those of `isspace`, which
      adds `\v` and `\f` to the four of RFC 8259 section 2. */
  method SkipWhitespaces(input: Bytes, index: nat) returns (j: nat)
    requires index <= |input|
    ensures index <= j <= |input|
    ensures forall k :: index <= k < j ==> IsSpace(input[k])
    ensures j == |input| || !IsSpace(input[j])
  {
    j := index;
    while j != |input| && IsSpace(input[j])
      invariant index <= j <= |input|
      invariant forall k :: index <= k < j ==> IsSpace(input[k])
    {
      j := j + 1;
    }
  }

  // ---------------------------------------------------------------------
  // Keywords (parse.cpp:212-229)
  // ---------------------------------------------------------------------

  /** The input spells `keyword` from `index` on. */
  predicate KeywordMatches(input: Bytes, index: nat, keyword: Bytes) {
    index + |keyword| <= |input| && input[index..index + |keyword|] == keyword
  }

  /** `parseKeyword`: the index just past the keyword, or SyntaxError when
      the input differs from it or ends before it does. */
  method ParseKeyword(input: Bytes, index: nat, keyword: Bytes) returns (r: Result<nat>)
    requires index <= |input|
    ensures r.Ok? <==> KeywordMatches(input, index, keyword)
    ensures r.Ok? ==> r.value == index + |keyword|
    ensures r.Err? ==> r.error == SyntaxError
  {
    var i := index;
    var kwIndex := 0;
    while i != |input| && kwIndex != |keyword|
      invariant index <= i <= |input| && kwIndex <= |keyword| && i == index + kwIndex
      invariant input[index..i] == keyword[..kwIndex]
    {
      if input[i] != keyword[kwIndex] {
        break;
      }
      assert input[index..i + 1] == input[index..i] + [input[i]];
      assert keyword[..kwIndex + 1] == keyword[..kwIndex] + [keyword[kwIndex]];
      i := i + 1;
      kwIndex := kwIndex + 1;
    }
    if kwIndex != |keyword| {
      return Err(SyntaxError);
    }
    assert keyword[..kwIndex] == keyword;
    return Ok(i);
  }

  /** A keyword production: `value` and the index past the keyword. */
  function KeywordValue(input: Bytes, index: nat, keyword: Bytes, value: Json): Result<(Json, nat)> {
    if KeywordMatches(input, index, keyword) then Ok((value, index + |keyword|))
    else Err(SyntaxError)
  }

  // ---------------------------------------------------------------------
  // The four hex digits of `\uXXXX` (parse.cpp:243-248, 295-305)
  // ---------------------------------------------------------------------

  /** Four hex digits start at `index`. */
  predicate FourHexDigitsAt(input: Bytes, index: nat) {
    index + 4 <= |input| && forall k :: index <= k < index + 4 ==> IsHexDigit(input[k])
  }

  /** What `ensureExactlyHas4Digits` accepts as written: four DECIMAL digits
      (`isdigit`), and no decimal digit right after them. */
  predicate FourDigitsAsWritten(input: Bytes, index: nat) {
    && index + 4 <= |input|
    && (forall k :: index <= k < index + 4 ==> IsDigit(input[k]))
    && (index + 4 < |input| ==> !IsDigit(input[index + 4]))
  }

  /** The escapes `\u00e9` (e-acute) and `\u00411` ("A1": RFC 8259 section 7 lets any
      character follow the four digits) are both refused as written; the
      corrected check accepts both. */
  lemma FourDigitsAsWrittenCounterexamples()
    ensures !FourDigitsAsWritten(Ascii("\\u00e9"), 2) && FourHexDigitsAt(Ascii("\\u00e9"), 2)
    ensures !FourDigitsAsWritten(Ascii("\\u00411"), 2) && FourHexDigitsAt(Ascii("\\u00411"), 2)
  {
    assert Ascii("\\u00e9")[4] == 'e' as int;
    assert Ascii("\\u00411")[6] == '1' as int;
  }

  /** `ensureExactlyHas4Digits`: succeeds exactly when four hex digits start
      at `index`, else SyntaxError. Corrected from the C++ in two ways (see
      FourDigitsAsWritten): `isxdigit` for `isdigit`, and no refusal of a
      digit after the fourth (parse.cpp:297-298). */
  method EnsureExactlyHas4Digits(input: Bytes, index: nat) returns (r: Result<()>)
    requires index <= |input|
    ensures r.Ok? <==> FourHexDigitsAt(input, index)
    ensures r.Err? ==> r.error == SyntaxError
  {
    for i := index to index + 4
      invariant i <= |input|
      invariant forall k :: index <= k < i ==> IsHexDigit(input[k])
    {
      // At `i == |input|` the C++ reads the terminating NUL, no digit.
      if i == |input| || !IsHexDigit(input[i]) {
        return Err(SyntaxError);
      }
    }
    return Ok(());
  }

  function HexDigitValue(b: Byte): (n: nat)
    requires IsHexDigit(b)
    ensures n < 16
  {
    if IsDigit(b) then b - '0' as int
    else if 'a' as int <= b <= 'f' as int then b - 'a' as int + 10
    else b - 'A' as int + 10
  }

  /** The code unit four hex digits spell, most significant first. */
  function HexValue4(digits: Bytes): CodeUnit
    requires |digits| == 4 && forall k :: 0 <= k < 4 ==> IsHexDigit(digits[k])
  {
    ((HexDigitValue(digits[0]) * 16 + HexDigitValue(digits[1])) * 16
      + HexDigitValue(digits[2])) * 16 + HexDigitValue(digits[3])
  }

  /** The escape `\uXXXX` whose backslash is at `index`: the code unit and
      the index past it. */
  function Utf16EscapeAt(input: Bytes, index: nat): (r: Result<(CodeUnit, nat)>)
    requires index + 2 <= |input|
    ensures r.Ok? ==> r.value.1 == index + 6 <= |input|
  {
    if FourHexDigitsAt(input, index + 2) then Ok((HexValue4(input[index + 2..index + 6]), index + 6))
    else Err(SyntaxError)
  }

  /** `parseUTF16EscapedValue`: the code unit of the four hex digits after
      `\u` and the index past them, or SyntaxError. The C++ runs `strtoul` on
      the whole input (parse.cpp:246); the digits meant are the four checked. */
  method ParseUtf16EscapedValue(input: Bytes, index: nat) returns (r: Result<(CodeUnit, nat)>)
    requires index + 2 <= |input|
    ensures r.Ok? <==> FourHexDigitsAt(input, index + 2)
    ensures r.Ok? ==> r.value == (HexValue4(input[index + 2..index + 6]), index + 6)
    ensures r.Err? ==> r.error == SyntaxError
  {
    var ok := EnsureExactlyHas4Digits(input, index + 2);
    if ok.Err? {
      return Err(ok.error);
    }
    var v := HexDigitValue(input[index + 2]);
    v := v * 16 + HexDigitValue(input[index + 3]);
    v := v * 16 + HexDigitValue(input[index + 4]);
    v := v * 16 + HexDigitValue(input[index + 5]);
    return Ok((v, index + 6));
  }

  // ---------------------------------------------------------------------
  // Strings (parse.cpp:90-186)
  // ---------------------------------------------------------------------

  /** The byte a one-character escape stands for, as parse.cpp:153-168 has
      them: there is no `\"`. */
  function SimpleEscapeAsWritten(ch: Byte): Option<Byte> {
    if ch == BACKSLASH then Some(BACKSLASH)
    else if ch == SLASH then Some(SLASH)
    else if ch == LETTER_B then Some(BACKSPACE)
    else if ch == LETTER_F then Some(FORM_FEED)
    else if ch == LETTER_N then Some(LINE_FEED)
    else if ch == LETTER_R then Some(CARRIAGE_RETURN)
    else if ch == LETTER_T then Some(TAB)
    else None
  }

  /** The one-character escapes of RFC 8259 section 7: those of the C++
      plus `\"`. */
  function SimpleEscape(ch: Byte): Option<Byte> {
    if ch == QUOTE then Some(QUOTE) else SimpleEscapeAsWritten(ch)
  }

  /** The corrected table is defined on exactly the eight escape characters
      of RFC 8259 section 7, and agrees with the C++ table on all but `"`. */
  lemma SimpleEscapeTable(ch: Byte)
    ensures SimpleEscape(ch).Some? <==>
      ch in {QUOTE, BACKSLASH, SLASH, LETTER_B, LETTER_F, LETTER_N, LETTER_R, LETTER_T}
    ensures ch != QUOTE ==> SimpleEscape(ch) == SimpleEscapeAsWritten(ch)
  {
  }

  /** As written, `\"` is no escape, so a literal holding one is refused;
      with the corrected table `"a\"b"` reads as the three bytes `a"b`. */
  lemma QuoteEscapeAsWrittenMissing()
    ensures SimpleEscapeAsWritten(QUOTE) == None
    ensures StringLiteral(Ascii("\"a\\\"b\""), 0) == Ok((String(Ascii("a\"b")), 6))
  {
    var input := Ascii("\"a\\\"b\"");
    assert input[1] == 'a' as int && input[2] == BACKSLASH && input[3] == QUOTE;
    assert input[4] == 'b' as int && input[5] == QUOTE;
    assert EscapeAt(input, 2) == Ok(([QUOTE], 4));
    assert StringBody(input, 5) == Ok(([], 6));
    assert ['b' as int] + [] == ['b' as int];
    assert StringBody(input, 4) == Ok((['b' as int], 6));
    assert [QUOTE] + ['b' as int] == [QUOTE, 'b' as int];
    assert StringBody(input, 2) == Ok(([QUOTE, 'b' as int], 6));
    assert ['a' as int] + [QUOTE, 'b' as int] == ['a' as int, QUOTE, 'b' as int];
    assert StringBody(input, 1) == Ok((['a' as int, QUOTE, 'b' as int], 6));
    assert Ascii("a\"b") == ['a' as int, QUOTE, 'b' as int];
  }

  /** The bytes one escape sequence, whose backslash is at `i`, stands for,
      and the index after it. A lead surrogate followed by a second `\u`
      escape reads that one too: a trail surrogate makes a pair that is one
      codepoint, any other unit is written on its own after the lead. */
  function EscapeAt(input: Bytes, i: nat): (r: Result<(Bytes, nat)>)
    requires i + 1 < |input| && input[i] == BACKSLASH
    ensures r.Ok? ==> i + 2 <= r.value.1 <= |input|
    ensures r.Err? ==> r.error == SyntaxError
  {
    var ch := input[i + 1];
    if ch == LETTER_U then
      match Utf16EscapeAt(input, i)
      case Err(e) => Err(e)
      case Ok((v1, j)) =>
        if IsLeadSurrogate(v1) && j + 1 < |input| && input[j] == BACKSLASH && input[j + 1] == LETTER_U then
          match Utf16EscapeAt(input, j)
          case Err(e) => Err(e)
          case Ok((v2, k)) =>
            if IsTrailSurrogate(v2) then Ok((Utf8Encode(CalculateCodepoint(v1, v2)), k))
            else Ok((Utf8Encode(v1) + Utf8Encode(v2), k))
        else Ok((Utf8Encode(v1), j))
    else
      match SimpleEscape(ch)
      case None => Err(SyntaxError)
      case Some(b) => Ok(([b], i + 2))
  }

  /** `prefix` in front of the decoded bytes of a successful result. */
  function Prepend(prefix: Bytes, r: Result<(Bytes, nat)>): Result<(Bytes, nat)> {
    match r
    case Ok((bytes, j)) => Ok((prefix + bytes, j))
    case Err(e) => Err(e)
  }

  lemma PrependTwice(a: Bytes, b: Bytes, r: Result<(Bytes, nat)>)
    ensures Prepend(a, Prepend(b, r)) == Prepend(a + b, r)
  {
    if r.Ok? {
      assert a + (b + r.value.0) == (a + b) + r.value.0;
    }
  }

  /** The body of a string literal from `i` on: the decoded bytes up to the
      closing quotation mark and the index after that mark. */
  function StringBody(input: Bytes, i: nat): Result<(Bytes, nat)>
    requires i <= |input|
    decreases |input| - i
  {
    if i == |input| then Err(SyntaxError)
    else if input[i] == QUOTE then Ok(([], i + 1))
    else if input[i] == BACKSLASH then
      if i + 1 == |input| then Err(SyntaxError)
      else
        match EscapeAt(input, i)
        case Err(e) => Err(e)
        case Ok((bytes, j)) => Prepend(bytes, StringBody(input, j))
    else Prepend([input[i]], StringBody(input, i + 1))
  }

  /** The string literal whose opening quotation mark is at `index`. */
  function StringLiteral(input: Bytes, index: nat): Result<(Json, nat)>
    requires index < |input| && input[index] == QUOTE
  {
    match StringBody(input, index + 1)
    case Ok((text, j)) => Ok((String(text), j))
    case Err(e) => Err(e)
  }

  /** A decoded body ends just past a closing quotation mark, and every
      failure is a SyntaxError. */
  lemma {:induction false} StringBodyOutcome(input: Bytes, i: nat)
    requires i <= |input|
    ensures var r := StringBody(input, i);
      r.Ok? ==> i < r.value.1 <= |input| && input[r.value.1 - 1] == QUOTE
    ensures StringBody(input, i).Err? ==> StringBody(input, i).error == SyntaxError
    decreases |input| - i
  {
    if i < |input| && input[i] != QUOTE {
      if input[i] == BACKSLASH {
        if i + 1 < |input| {
          var e := EscapeAt(input, i);
          if e.Ok? {
            StringBodyOutcome(input, e.value.1);
          }
        }
      } else {
        StringBodyOutcome(input, i + 1);
      }
    }
  }

  /** Input that holds no quotation mark from `i` on never closes the
      literal: reaching the end is a SyntaxError. */
  lemma UnterminatedStringFails(input: Bytes, i: nat)
    requires i <= |input|
    requires forall k :: i <= k < |input| ==> input[k] != QUOTE
    ensures StringBody(input, i) == Err(SyntaxError)
  {
    StringBodyOutcome(input, i);
  }

  /** A one-character escape writes its one byte and moves past the two
      bytes of the escape; any other character after the backslash, or a
      backslash in the last position, is a SyntaxError. */
  lemma SimpleEscapeStep(input: Bytes, i: nat)
    requires i < |input| && input[i] == BACKSLASH
    ensures i + 1 == |input| ==> StringBody(input, i) == Err(SyntaxError)
    ensures i + 1 < |input| && input[i + 1] != LETTER_U && SimpleEscape(input[i + 1]).Some? ==>
      StringBody(input, i) == Prepend([SimpleEscape(input[i + 1]).value], StringBody(input, i + 2))
    ensures i + 1 < |input| && input[i + 1] != LETTER_U && SimpleEscape(input[i + 1]).None? ==>
      StringBody(input, i) == Err(SyntaxError)
  {
  }

  /** The surrogate policy of parse.cpp:106-149 for an escape `\uXXXX` with
      four hex digits: a lead unit followed by a `\u` escape of a trail unit
      is one supplementary-plane codepoint, written as four bytes that
      decode to it; a lead unit followed by a `\u` escape of any other unit
      writes both units; a lone lead unit or any other unit is written on
      its own. */
  lemma SurrogatePolicy(input: Bytes, i: nat)
    requires i + 1 < |input| && input[i] == BACKSLASH && input[i + 1] == LETTER_U
    requires FourHexDigitsAt(input, i + 2)
    ensures var v1, r := HexValue4(input[i + 2..i + 6]), EscapeAt(input, i);
      && (!IsLeadSurrogate(v1) ==> r == Ok((Utf8Encode(v1), i + 6)))
      && (IsLeadSurrogate(v1) && !(i + 7 < |input| && input[i + 6] == BACKSLASH && input[i + 7] == LETTER_U) ==>
            r == Ok((Utf8Encode(v1), i + 6)))
      && (IsLeadSurrogate(v1) && i + 7 < |input| && input[i + 6] == BACKSLASH && input[i + 7] == LETTER_U ==>
            (r.Ok? <==> FourHexDigitsAt(input, i + 8)))
    ensures var v1, r := HexValue4(input[i + 2..i + 6]), EscapeAt(input, i);
      IsLeadSurrogate(v1) && i + 7 < |input| && input[i + 6] == BACKSLASH && input[i + 7] == LETTER_U &&
      FourHexDigitsAt(input, i + 8) ==>
        var v2 := HexValue4(input[i + 8..i + 12]);
        && (IsTrailSurrogate(v2) ==>
              r == Ok((Utf8Encode(CalculateCodepoint(v1, v2)), i + 12)) &&
              Utf8Decode(r.value.0) == Some((CalculateCodepoint(v1, v2), 4)))
        && (!IsTrailSurrogate(v2) ==> r == Ok((Utf8Encode(v1) + Utf8Encode(v2), i + 12)))
  {
    var v1 := HexValue4(input[i + 2..i + 6]);
    if IsLeadSurrogate(v1) && i + 7 < |input| && input[i + 6] == BACKSLASH && input[i + 7] == LETTER_U &&
      FourHexDigitsAt(input, i + 8)
    {
      var v2 := HexValue4(input[i + 8..i + 12]);
      if IsTrailSurrogate(v2) {
        var cp := CalculateCodepoint(v1, v2);
        Utf8RoundTrip(cp, []);
        assert Utf8Encode(cp) + [] == Utf8Encode(cp);
      }
    }
  }

  /** The two escapes of U+1F600 decode to its four UTF-8 bytes. */
  lemma SurrogatePairExample()
    ensures StringLiteral(Ascii("\"\\uD83D\\uDE00\""), 0) == Ok((String([0xF0, 0x9F, 0x98, 0x80]), 14))
  {
    var pair := Ascii("\"\\uD83D\\uDE00\"");
    assert pair[3..7] == Ascii("D83D");
    assert pair[9..13] == Ascii("DE00");
    assert HexValue4(pair[3..7]) == 0xD83D;
    assert HexValue4(pair[9..13]) == 0xDE00;
    assert CalculateCodepoint(0xD83D, 0xDE00) == 0x1F600;
    assert Utf8Encode(0x1F600) == [0xF0, 0x9F, 0x98, 0x80];
    assert EscapeAt(pair, 1) == Ok(([0xF0, 0x9F, 0x98, 0x80], 13));
    assert StringBody(pair, 13) == Ok(([], 14));
    assert [0xF0, 0x9F, 0x98, 0x80] + [] == [0xF0, 0x9F, 0x98, 0x80];
  }

  /** A lone lead surrogate decodes to its three-byte form. */
  lemma LoneSurrogateExample()
    ensures StringLiteral(Ascii("\"\\uD83D\""), 0) == Ok((String([0xED, 0xA0, 0xBD]), 8))
  {
    var lone := Ascii("\"\\uD83D\"");
    assert lone[3..7] == Ascii("D83D");
    assert HexValue4(lone[3..7]) == 0xD83D;
    assert Utf8Encode(0xD83D) == [0xED, 0xA0, 0xBD];
    assert EscapeAt(lone, 1) == Ok(([0xED, 0xA0, 0xBD], 7));
    assert StringBody(lone, 7) == Ok(([], 8));
    assert [0xED, 0xA0, 0xBD] + [] == [0xED, 0xA0, 0xBD];
  }

  /** parse.cpp:106-149: the escape `\uXXXX` whose backslash is at `i`, and
      for a lead surrogate a second escape right after it, written after the
      output `oss`. */
  method ParseUnicodeEscape(input: Bytes, i: nat, oss: Bytes) returns (r: Result<(Bytes, nat)>)
    requires i + 1 < |input| && input[i] == BACKSLASH && input[i + 1] == LETTER_U
    ensures r == Prepend(oss, EscapeAt(input, i))
  {
    var v1 := ParseUtf16EscapedValue(input, i);
    if v1.Err? {
      return Err(v1.error);
    }
    var (lead, j) := v1.value;
    if IsLeadSurrogate(lead) {
      // The C++ tests `input[j + 1]` for any non-NUL byte and reads the
      // second escape from `index` (parse.cpp:116-118); meant is a second
      // `\u` escape, read from `j`.
      if j + 1 < |input| && input[j] == BACKSLASH && input[j + 1] == LETTER_U {
        var v2 := ParseUtf16EscapedValue(input, j);
        if v2.Err? {
          return Err(v2.error);
        }
        var (trail, k) := v2.value;
        if IsTrailSurrogate(trail) {
          var w := WriteAsUtf8CodeUnits(oss, CalculateCodepoint(lead, trail));
          return Ok((w.value, k));
        } else {
          // Not a trail surrogate: both units are written, each on its own.
          var w1 := WriteAsUtf8CodeUnits(oss, lead);
          var w2 := WriteAsUtf8CodeUnits(w1.value, trail);
          assert w2.value == oss + (Utf8Encode(lead) + Utf8Encode(trail));
          return Ok((w2.value, k));
        }
      }
      // No escape follows the lead surrogate: it is written as it is.
    }
    var w := WriteAsUtf8CodeUnits(oss, lead);
    return Ok((w.value, j));
  }

  /** `parseJSONString`: decodes the literal whose opening quotation mark is
      at `index`; on success the index is one past the closing mark. */
  method ParseJsonString(input: Bytes, index: nat) returns (r: Result<(Json, nat)>)
    requires index < |input| && input[index] == QUOTE
    ensures r == StringLiteral(input, index)
  {
    // The C++ starts at the quotation mark itself (parse.cpp:92), though the
    // caller has already matched it (comment at parse.cpp:75-78); skipped here.
    var i := index + 1;
    // The start of the run of bytes not yet copied to the output.
    var start := i;
    var oss: Bytes := [];
    assert oss + input[start..i] == [];
    assert Prepend([], StringBody(input, i)) == StringBody(input, i) by {
      if StringBody(input, i).Ok? {
        assert [] + StringBody(input, i).value.0 == StringBody(input, i).value.0;
      }
    }
    while i != |input|
      invariant index + 1 <= start <= i <= |input|
      invariant StringBody(input, index + 1) == Prepend(oss + input[start..i], StringBody(input, i))
      decreases |input| - i
    {
      if input[i] == BACKSLASH {
        if i + 1 >= |input| {
          return Err(SyntaxError);
        }
        // `string(start, index)` (parse.cpp:103) is meant as this run.
        oss := oss + input[start..i];
        ghost var before, at := oss, i;
        ghost var esc: Bytes;
        var ch := input[i + 1];
        if ch == LETTER_U {
          var e := ParseUnicodeEscape(input, i, oss);
          if e.Err? {
            return Err(e.error);
          }
          oss, i := e.value.0, e.value.1;
          esc := EscapeAt(input, at).value.0;
        } else {
          // `\"` is missing from the C++ chain (see SimpleEscapeAsWritten).
          if ch == QUOTE {
            oss := oss + [QUOTE];
          } else if ch == BACKSLASH {
            oss := oss + [BACKSLASH];
          } else if ch == SLASH {
            oss := oss + [SLASH];
          } else if ch == LETTER_B {
            oss := oss + [BACKSPACE];
          } else if ch == LETTER_F {
            oss := oss + [FORM_FEED];
          } else if ch == LETTER_N {
            oss := oss + [LINE_FEED];
          } else if ch == LETTER_R {
            oss := oss + [CARRIAGE_RETURN];
          } else if ch == LETTER_T {
            oss := oss + [TAB];
          } else {
            return Err(SyntaxError);
          }
          esc := [oss[|oss| - 1]];
          i := i + 2;
        }
        // The C++ never moves `start` past an escape; meant is that the
        // next run starts after it.
        assert oss == before + esc;
        assert EscapeAt(input, at) == Ok((esc, i));
        assert StringBody(input, at) == Prepend(esc, StringBody(input, i));
        PrependTwice(before, esc, StringBody(input, i));
        start := i;
        assert oss + input[start..i] == oss;
      } else if input[i] == QUOTE {
        oss := oss + input[start..i];
        assert oss + [] == oss;
        return Ok((String(oss), i + 1));
      } else {
        PrependTwice(oss + input[start..i], [input[i]], StringBody(input, i + 1));
        assert oss + input[start..i] + [input[i]] == oss + input[start..i + 1];
        i := i + 1;
      }
    }
    return Err(SyntaxError);
  }

  // ---------------------------------------------------------------------
  // Dispatch (parse.cpp:40-73, 188-197, 238-241)
  // ---------------------------------------------------------------------

  /** `isHexLiteral`: the byte after `index` is `x` or `X`. */
  predicate IsHexLiteral(input: Bytes, index: nat) {
    index + 1 < |input| && (input[index + 1] == LOWER_X || input[index + 1] == UPPER_X)
  }

  /** The value whose first byte is at `index`, chosen by that byte. */
  function ValueAt(input: Bytes, index: nat, readNumber: NumberReader): Result<(Json, nat)>
    requires index <= |input|
  {
    // At the end, `input[index]` is the terminating NUL, which starts nothing.
    if index == |input| then Err(SyntaxError)
    else
      var ch := input[index];
      if ch == LBRACE || ch == LBRACKET then Err(Unimplemented)
      else if ch == QUOTE then StringLiteral(input, index)
      else if IsDigit(ch) || ch == MINUS then
        if IsHexLiteral(input, index) then Err(SyntaxError)
        else match readNumber(input, index)
          case Ok((d, j)) => Ok((Number(d), j))
          case Err(e) => Err(e)
      else if ch == LETTER_T then KeywordValue(input, index, TRUE_TEXT, Bool(true))
      else if ch == LETTER_F then KeywordValue(input, index, FALSE_TEXT, Bool(false))
      else if ch == LETTER_N then KeywordValue(input, index, NULL_TEXT, Null)
      else Err(SyntaxError)
  }

  /** What each first byte leads to: `{` and `[` to the unimplemented object
      and array parsers, `"` to a string, a digit or `-` to a number unless
      a hex prefix follows, `t`, `f`, `n` to exactly `true`, `false`, `null`,
      and anything else to SyntaxError. */
  lemma DispatchOnFirstByte(input: Bytes, index: nat, readNumber: NumberReader)
    requires index < |input|
    ensures var ch, r := input[index], ValueAt(input, index, readNumber);
      && (ch == LBRACE || ch == LBRACKET ==> r == Err(Unimplemented))
      && (ch == QUOTE ==> r == StringLiteral(input, index))
      && ((IsDigit(ch) || ch == MINUS) && IsHexLiteral(input, index) ==> r == Err(SyntaxError))
      && ((IsDigit(ch) || ch == MINUS) && !IsHexLiteral(input, index) && readNumber(input, index).Ok? ==>
            r == Ok((Number(readNumber(input, index).value.0), readNumber(input, index).value.1)))
      && (ch == LETTER_T ==> (r.Ok? <==> KeywordMatches(input, index, Ascii("true"))))
      && (ch == LETTER_T && r.Ok? ==> r.value == (Bool(true), index + 4))
      && (ch == LETTER_F ==> (r.Ok? <==> KeywordMatches(input, index, Ascii("false"))))
      && (ch == LETTER_F && r.Ok? ==> r.value == (Bool(false), index + 5))
      && (ch == LETTER_N ==> (r.Ok? <==> KeywordMatches(input, index, Ascii("null"))))
      && (ch == LETTER_N && r.Ok? ==> r.value == (Null, index + 4))
      && (ch !in {LBRACE, LBRACKET, QUOTE, MINUS, LETTER_T, LETTER_F, LETTER_N} && !IsDigit(ch) ==>
            r == Err(SyntaxError))
  {
  }

  /** `parseJSON`: dispatches on the byte at `index` to the production it
      starts. `parseJSONObject` and `parseJSONArray` have empty bodies and
      yield Unimplemented; the number is read by `readNumber` (the C++ runs
      `strtod` from the start of the input, parse.cpp:199-202; meant is from
      `index`). */
  method ParseJson(input: Bytes, index: nat, readNumber: NumberReader) returns (r: Result<(Json, nat)>)
    requires index <= |input|
    ensures r == ValueAt(input, index, readNumber)
  {
    if index == |input| {
      return Err(SyntaxError);
    }
    var ch := input[index];
    if ch == LBRACE || ch == LBRACKET {
      return Err(Unimplemented);
    }
    if ch == QUOTE {
      r := ParseJsonString(input, index);
      return;
    }
    if IsDigit(ch) || ch == MINUS {
      if IsHexLiteral(input, index) {
        return Err(SyntaxError);
      }
      var n := readNumber(input, index);
      if n.Err? {
        return Err(n.error);
      }
      return Ok((Number(n.value.0), n.value.1));
    }
    if ch == LETTER_T {
      r := ParseKeywordValue(input, index, TRUE_TEXT, Bool(true));
      return;
    }
    if ch == LETTER_F {
      r := ParseKeywordValue(input, index, FALSE_TEXT, Bool(false));
      return;
    }
    if ch == LETTER_N {
      r := ParseKeywordValue(input, index, NULL_TEXT, Null);
      return;
    }
    return Err(SyntaxError);
  }

  /** parse.cpp:58-59 and their two siblings: the keyword, then the value. */
  method ParseKeywordValue(input: Bytes, index: nat, keyword: Bytes, value: Json) returns (r: Result<(Json, nat)>)
    requires index <= |input|
    ensures r.Ok? <==> KeywordMatches(input, index, keyword)
    ensures r.Ok? ==> r.value == (value, index + |keyword|)
    ensures r == KeywordValue(input, index, keyword, value)
  {
    var k := ParseKeyword(input, index, keyword);
    if k.Err? {
      return Err(k.error);
    }
    return Ok((value, k.value));
  }

  /** `parse`: the value at the start of the text. As in the C++, nothing
      checks what follows the value. */
  method Parse(text: Bytes, readNumber: NumberReader) returns (r: Result<Json>)
    ensures ValueAt(text, 0, readNumber).Ok? ==> r == Ok(ValueAt(text, 0, readNumber).value.0)
    ensures ValueAt(text, 0, readNumber).Err? ==> r == Err(ValueAt(text, 0, readNumber).error)
  {
    var p := ParseJson(text, 0, readNumber);
    if p.Err? {
      return Err(p.error);
    }
    return Ok(p.value.0);
  }
}
