/** The codepoint utilities of parse.cpp: UTF-16 surrogates (RFC 2781) and
    UTF-8 code units (section 3 of RFC 3629).

    The C++ code computes with `char16_t` and `char32_t`; both are modelled as
    bounded integers, and the one place where the C++ arithmetic wraps around
    (`calculateCodepoint` as written) spells the wrap-around out. The UTF-8
    writer's `b0 | (cp >> 6)` is written `b0 + cp / 0x40`: the two agree
    because the shifted value never reaches into the bits of `b0`. */
module Unicode {
  import opened Base

  type CodeUnit = u: int | 0 <= u < 0x1_0000          // char16_t
  type Char32 = c: int | 0 <= c < 0x1_0000_0000       // char32_t

  const MAX_CODEPOINT: int := 0x10FFFF

  predicate IsLeadSurrogate(v: CodeUnit) {
    0xD800 <= v <= 0xDBFF
  }

  predicate IsTrailSurrogate(v: CodeUnit) {
    0xDC00 <= v <= 0xDFFF
  }

  /** No code unit is both a lead and a trail surrogate. */
  lemma SurrogateRangesDisjoint(v: CodeUnit)
    ensures !(IsLeadSurrogate(v) && IsTrailSurrogate(v))
  {
  }

  // ---------------------------------------------------------------------
  // Surrogate pairs (section 2.2 of RFC 2781)
  // ---------------------------------------------------------------------

  /** The codepoint a surrogate pair stands for. The C++ version leaves out
      the `+ 0x10000` (parse.cpp:262); see CalculateCodepointAsWritten. The
      result is a supplementary-plane codepoint, and the pair is recovered
      from it by the encoding of section 2.1 of RFC 2781, so no two pairs
      decode to the same codepoint. */
  function CalculateCodepoint(lead: CodeUnit, trail: CodeUnit): (cp: Char32)
    requires IsLeadSurrogate(lead) && IsTrailSurrogate(trail)
    ensures 0x10000 <= cp <= MAX_CODEPOINT
    ensures lead == 0xD800 + (cp - 0x10000) / 0x400
    ensures trail == 0xDC00 + (cp - 0x10000) % 0x400
  {
    (lead - 0xD800) * 0x400 + (trail - 0xDC00) + 0x10000
  }

  /** Section 2.1 of RFC 2781: the surrogate pair of a supplementary-plane
      codepoint. */
  function Utf16Encode(cp: int): (pair: (CodeUnit, CodeUnit))
    requires 0x10000 <= cp <= MAX_CODEPOINT
    ensures IsLeadSurrogate(pair.0) && IsTrailSurrogate(pair.1)
  {
    (0xD800 + (cp - 0x10000) / 0x400, 0xDC00 + (cp - 0x10000) % 0x400)
  }

  /** Decoding a pair undoes encoding it: together with the ensures of
      CalculateCodepoint, the two are inverse bijections. */
  lemma CalculateCodepointInvertsUtf16Encode(cp: int)
    requires 0x10000 <= cp <= MAX_CODEPOINT
    ensures CalculateCodepoint(Utf16Encode(cp).0, Utf16Encode(cp).1) == cp
  {
  }

  /** Distinct surrogate pairs decode to distinct codepoints. */
  lemma CalculateCodepointInjective(l1: CodeUnit, t1: CodeUnit, l2: CodeUnit, t2: CodeUnit)
    requires IsLeadSurrogate(l1) && IsTrailSurrogate(t1)
    requires IsLeadSurrogate(l2) && IsTrailSurrogate(t2)
    requires CalculateCodepoint(l1, t1) == CalculateCodepoint(l2, t2)
    ensures l1 == l2 && t1 == t2
  {
  }

  /** `calculateCodepoint` exactly as parse.cpp:260-263 computes it: unsigned
      32-bit arithmetic (`lead - 0xD800u` wraps when `lead` is below 0xD800)
      and no `+ 0x10000`. */
  function CalculateCodepointAsWritten(leadSurrogate: CodeUnit, trailSurrogate: CodeUnit): Char32
  {
    var high := (leadSurrogate - 0xD800) % 0x1_0000_0000;
    var low := (trailSurrogate - 0xDC00) % 0x1_0000_0000;
    (high * 0x400 % 0x1_0000_0000 + low) % 0x1_0000_0000
  }

  /** The codepoint parse.cpp:121-123 computes for a lead unit `v1` followed by
      a trail unit `v2`: it names `v1` the low and `v2` the high surrogate and
      calls `calculateCodepoint(high, low)`, so the two arguments are swapped. */
  function PairCodepointAsWritten(v1: CodeUnit, v2: CodeUnit): Char32
  {
    CalculateCodepointAsWritten(v2, v1)
  }

  /** The pair D83D DE00 (U+1F600) as written: the swapped call yields
      0x17FC3D, above the last codepoint, so writing it raises the range error;
      even with the arguments in order, the missing `+ 0x10000` yields U+F600,
      which the single escape of U+F600 also yields. The corrected function gives
      U+1F600. */
  lemma SurrogatePairAsWrittenCounterexample()
    ensures PairCodepointAsWritten(0xD83D, 0xDE00) == 0x17FC3D > MAX_CODEPOINT
    ensures CalculateCodepointAsWritten(0xD83D, 0xDE00) == 0xF600
    ensures CalculateCodepoint(0xD83D, 0xDE00) == 0x1F600
  {
  }

  // ---------------------------------------------------------------------
  // UTF-8 code units (section 3 of RFC 3629)
  // ---------------------------------------------------------------------

  predicate IsContinuation(b: Byte) {
    0x80 <= b < 0xC0
  }

  function TwoByteForm(cp: int): Bytes
    requires 0x80 <= cp <= 0x7FF
  {
    [0xC0 + cp / 0x40, 0x80 + cp % 0x40]
  }

  function ThreeByteForm(cp: int): Bytes
    requires 0x800 <= cp <= 0xFFFF
  {
    [0xE0 + cp / 0x1000, 0x80 + cp / 0x40 % 0x40, 0x80 + cp % 0x40]
  }

  function FourByteForm(cp: int): Bytes
    requires 0 <= cp <= MAX_CODEPOINT
  {
    [0xF0 + cp / 0x40000, 0x80 + cp / 0x1000 % 0x40, 0x80 + cp / 0x40 % 0x40, 0x80 + cp % 0x40]
  }

  /** The number of bytes in the UTF-8 form of a codepoint (the table of
      section 3 of RFC 3629, applied to every value up to 0x10FFFF). */
  function Utf8Length(cp: int): nat {
    if cp <= 0x7F then 1
    else if cp <= 0x7FF then 2
    else if cp <= 0xFFFF then 3
    else 4
  }

  /** The bytes `writeAsUTF8CodeUnits` is meant to write for a codepoint.
      A surrogate code unit takes the three-byte form, as every other
      value up to 0xFFFF does (see Utf8EncodeAsWritten for the C++ branch). */
  function Utf8Encode(cp: int): Bytes
    requires 0 <= cp <= MAX_CODEPOINT
  {
    if cp <= 0x7F then [cp]
    else if cp <= 0x7FF then TwoByteForm(cp)
    else if cp <= 0xFFFF then ThreeByteForm(cp)
    else FourByteForm(cp)
  }

  /** The branches of parse.cpp:267-288 as written: the three-byte branch
      excludes 0xD800..0xDFFF, so a surrogate code unit falls into the
      four-byte branch. (The C++ streams each byte as a decimal integer and
      line 279 lacks a parenthesis; the bytes are what the lines intend.) */
  function Utf8EncodeAsWritten(cp: int): Bytes
    requires 0 <= cp <= MAX_CODEPOINT
  {
    if cp <= 0x7F then [cp]
    else if cp <= 0x7FF then TwoByteForm(cp)
    else if cp <= 0xD7FF || 0xE000 <= cp <= 0xFFFF then ThreeByteForm(cp)
    else FourByteForm(cp)
  }

  /** Reads one UTF-8 sequence from the front of `bs`: the lead byte gives the
      length, each following byte must be a continuation byte. Overlong forms
      are not rejected, so the length read back shows whether a form was the
      shortest. */
  function Utf8Decode(bs: Bytes): Option<(int, nat)> {
    if |bs| == 0 then None
    else
      var b0: int := bs[0];
      if b0 < 0x80 then Some((b0, 1))
      else if 0xC0 <= b0 < 0xE0 then
        if |bs| < 2 || !IsContinuation(bs[1]) then None
        else Some(((b0 - 0xC0) * 0x40 + Payload(bs[1]), 2))
      else if 0xE0 <= b0 < 0xF0 then
        if |bs| < 3 || !IsContinuation(bs[1]) || !IsContinuation(bs[2]) then None
        else Some(((b0 - 0xE0) * 0x1000 + Payload(bs[1]) * 0x40 + Payload(bs[2]), 3))
      else if 0xF0 <= b0 < 0xF8 then
        if |bs| < 4 || !IsContinuation(bs[1]) || !IsContinuation(bs[2]) || !IsContinuation(bs[3]) then None
        else Some(((b0 - 0xF0) * 0x40000 + Payload(bs[1]) * 0x1000 + Payload(bs[2]) * 0x40 + Payload(bs[3]), 4))
      else None
  }

  /** The six payload bits `xxxxxx` of a continuation byte `10xxxxxx`. */
  function Payload(b: Byte): int
    requires IsContinuation(b)
  {
    b as int - 0x80
  }

  /** The shape of the UTF-8 form by range: the length of the table, a lead
      byte `0xxxxxxx`, `110xxxxx`, `1110xxxx` or `11110xxx`, and continuation
      bytes `10xxxxxx`. */
  lemma Utf8EncodeShape(cp: int)
    requires 0 <= cp <= MAX_CODEPOINT
    ensures |Utf8Encode(cp)| == Utf8Length(cp)
    ensures cp <= 0x7F ==> Utf8Encode(cp)[0] < 0x80
    ensures 0x7F < cp <= 0x7FF ==> 0xC0 <= Utf8Encode(cp)[0] < 0xE0
    ensures 0x7FF < cp <= 0xFFFF ==> 0xE0 <= Utf8Encode(cp)[0] < 0xF0
    ensures 0xFFFF < cp ==> 0xF0 <= Utf8Encode(cp)[0] < 0xF8
    ensures forall k :: 1 <= k < |Utf8Encode(cp)| ==> IsContinuation(Utf8Encode(cp)[k])
  {
  }

  /** Splitting off the low six bits: `x == (x >> 6 << 6) | (x & 0x3F)`. */
  lemma SplitSixBits(x: nat)
    ensures x == x / 0x40 * 0x40 + x % 0x40
    ensures x / 0x40 / 0x40 == x / 0x1000
    ensures x / 0x1000 / 0x40 == x / 0x40000
  {
  }

  lemma FourByteFormDecodes(cp: int, rest: Bytes)
    requires 0x800 <= cp <= MAX_CODEPOINT
    ensures Utf8Decode(FourByteForm(cp) + rest) == Some((cp, 4))
  {
    var bs := FourByteForm(cp) + rest;
    SplitSixBits(cp);
    SplitSixBits(cp / 0x40);
    SplitSixBits(cp / 0x1000);
    var q, a, b, c := cp / 0x40000, cp / 0x1000 % 0x40, cp / 0x40 % 0x40, cp % 0x40;
    assert cp / 0x1000 == q * 0x40 + a;
    assert cp / 0x40 == q * 0x1000 + a * 0x40 + b;
    assert cp == q * 0x40000 + a * 0x1000 + b * 0x40 + c;
    assert bs[0] as int - 0xF0 == q && Payload(bs[1]) == a && Payload(bs[2]) == b && Payload(bs[3]) == c;
  }

  /** Decoding the UTF-8 form gives back the codepoint and consumes exactly
      the form, whatever follows it. */
  lemma Utf8RoundTrip(cp: int, rest: Bytes)
    requires 0 <= cp <= MAX_CODEPOINT
    ensures Utf8Decode(Utf8Encode(cp) + rest) == Some((cp, Utf8Length(cp)))
  {
    if cp > 0xFFFF {
      FourByteFormDecodes(cp, rest);
    }
  }

  /** The C++ branches by range: at most 0x7F one byte, at most 0x7FF two,
      at most 0xD7FF or 0xE000..0xFFFF three, any other value up to 0x10FFFF
      four; each form still decodes back to the codepoint. */
  lemma Utf8EncodeAsWrittenByRange(cp: int, rest: Bytes)
    requires 0 <= cp <= MAX_CODEPOINT
    ensures |Utf8EncodeAsWritten(cp)| ==
      if cp <= 0x7F then 1
      else if cp <= 0x7FF then 2
      else if cp <= 0xD7FF || 0xE000 <= cp <= 0xFFFF then 3
      else 4
    ensures Utf8Decode(Utf8EncodeAsWritten(cp) + rest) == Some((cp, |Utf8EncodeAsWritten(cp)|))
  {
    if !(cp <= 0xD7FF || 0xE000 <= cp <= 0xFFFF) {
      FourByteFormDecodes(cp, rest);
    }
  }

  /** The lone lead surrogate D83D as written: four bytes F0 8D A0 BD, an
      overlong form (longer than the three bytes its value needs), which
      decoders that follow RFC 3629 reject. The corrected writer gives the
      three bytes ED A0 BD. */
  lemma SurrogateAsWrittenIsOverlong()
    ensures Utf8EncodeAsWritten(0xD83D) == [0xF0, 0x8D, 0xA0, 0xBD]
    ensures |Utf8EncodeAsWritten(0xD83D)| > Utf8Length(0xD83D)
    ensures Utf8Encode(0xD83D) == [0xED, 0xA0, 0xBD]
  {
  }

  /** `writeAsUTF8CodeUnits`: appends the UTF-8 form of `codepoint` to the
      output written so far, or raises the range error above 0x10FFFF. */
  method WriteAsUtf8CodeUnits(oss: Bytes, codepoint: Char32) returns (r: Result<Bytes>)
    ensures codepoint <= MAX_CODEPOINT ==> r == Ok(oss + Utf8Encode(codepoint))
    ensures codepoint > MAX_CODEPOINT ==> r == Err(RangeError)
  {
    var out := oss;
    if codepoint <= 0x7F {
      out := out + [codepoint];
    } else if codepoint <= 0x7FF {
      out := out + [0xC0 + codepoint / 0x40];
      out := out + [0x80 + codepoint % 0x40];
      assert out == oss + TwoByteForm(codepoint);
    } else if codepoint <= 0xFFFF {
      // parse.cpp:276 leaves the surrogates 0xD800..0xDFFF out of this
      // branch (see Utf8EncodeAsWritten).
      out := out + [0xE0 + codepoint / 0x1000];
      out := out + [0x80 + codepoint / 0x40 % 0x40];
      out := out + [0x80 + codepoint % 0x40];
      assert out == oss + ThreeByteForm(codepoint);
    } else if codepoint <= MAX_CODEPOINT {
      out := out + [0xF0 + codepoint / 0x40000];
      out := out + [0x80 + codepoint / 0x1000 % 0x40];
      out := out + [0x80 + codepoint / 0x40 % 0x40];
      out := out + [0x80 + codepoint % 0x40];
      assert out == oss + FourByteForm(codepoint);
    } else {
      return Err(RangeError);
    }
    return Ok(out);
  }
}
