# cppjson: JSON text engine in Dafny

This project models the text engine of the C++ library cppjson, which is a draft. It covers three parts:

- **The string-level parser** (`cppjson/parse.cpp`). It dispatches on the first byte of a value, skips whitespace, and matches the literals `true`, `false` and `null`. It decodes string literals with their escapes. For `\uXXXX` escapes it checks the four digits and joins UTF-16 surrogate pairs (RFC 2781). It writes codepoints as UTF-8 (section 3 of RFC 3629).
- **The serializer** (`cppjson/toString.cpp`). `toString` renders a value tree as text, and `escapeCharacters` escapes the bytes of a string.
- **The value type** (`cppjson/cppjson.cpp`, `cppjson/cppjson.hpp`). This is a tagged union of six kinds, with its constructors, type queries, `size` and `get<T>`.

The project has six modules, one file each:

| file | module | models |
|---|---|---|
| `base.dfy` | `Base` | bytes, character classes (`isdigit`, `isxdigit`, `isspace` in the C locale), the error outcomes |
| `unicode.dfy` | `Unicode` | surrogates, `calculateCodepoint`, `writeAsUTF8CodeUnits`, a UTF-8 decoder used as the partner of the writer |
| `value.dfy` | `Value` | the `JSON` value as a datatype with six variants in the order of `enum Type` |
| `parse.dfy` | `Parse` | `parseJSON`, `parseJSONString`, `parseKeyword`, `skipWhitespaces`, `parseUTF16EscapedValue`, `ensureExactlyHas4Digits`, `isHexLiteral`, `parse` |
| `serialize.dfy` | `Serialize` | `toString` and `escapeCharacters` |
| `roundtrip.dfy` | `RoundTrip` | what the parser reads back from the serializer's text |

Each C++ loop is a Dafny method with a loop, proved against a pure function of its inputs. For example, `ParseJsonString` is proved equal to `StringLiteral`, `EscapeCharacters` to `Escaped`, and `ToString` to `Render`. Lemmas then state what those functions promise.

Strings are byte sequences. Exceptions are the `Err` side of a `Result`: `SyntaxError`, the range error, a getter's type mismatch, and `Unimplemented` for the two parser productions whose C++ bodies are empty.

The C++ is a draft, and in several places it does not do what its names and comments say. The model follows the names and comments, and a comment in the Dafny marks each such spot:

- The string parser meant to skip the opening quotation mark, as the comment at `parse.cpp:75-78` says.
- `string(start, index)` is read as the run of input bytes from `start` up to `index`. `start` moves past each escape.
- The test for a second `\u` escape checks for `u` and reads that escape, not the first one again.
- `strtoul` reads the four digits that were checked, not the whole input.
- The number reader starts at the value's index.
- The UTF-8 writer emits bytes, where the C++ streams integers (and line 279 lacks a parenthesis).
- The `is*` queries, `get<T>`, `size`, `JSON(std::string)` and `JSON::array` have empty or stub bodies. They are modelled as their names and doc comments describe.
- The serializer puts quotation marks around a string (`toString.cpp:18` does not). It writes no extra quotation marks around object values (`toString.cpp:60-62` does).

The value type is a datatype, not a class. The C++ sets its fields only in constructors, and the methods that would update a value in place have empty bodies.

## Model

| member | source | states |
|---|---|---|
| `Unicode.SurrogateRangesDisjoint` | cppjson/parse.cpp:250-258 | no code unit is both a lead surrogate (0xD800-0xDBFF) and a trail surrogate (0xDC00-0xDFFF) |
| `Unicode.CalculateCodepoint` | cppjson/parse.cpp:260-263 | a surrogate pair gives a codepoint in 0x10000..0x10FFFF (section 2.2 of RFC 2781); the lead and trail units are recovered from it by quotient and remainder by 0x400 |
| `Unicode.Utf16Encode` | cppjson/parse.cpp:260-263 | partner of the pair decoding: encoding a supplementary-plane codepoint gives a lead and a trail surrogate |
| `Unicode.CalculateCodepointInvertsUtf16Encode` | cppjson/parse.cpp:260-263 | decoding the pair that encodes `cp` gives `cp` back |
| `Unicode.CalculateCodepointInjective` | cppjson/parse.cpp:260-263 | two surrogate pairs that decode to the same codepoint are the same pair |
| `Unicode.SurrogatePairAsWrittenCounterexample` | cppjson/parse.cpp:118-124 | as written, the pair D83D DE00 gives 0x17FC3D (above 0x10FFFF, so a range error); with the arguments in order but no `+0x10000` it gives 0xF600; the corrected decoding gives 0x1F600 |
| `Unicode.Utf8EncodeShape` | cppjson/parse.cpp:265-288 | the UTF-8 form has 1, 2, 3 or 4 bytes by range; its lead byte is `0xxxxxxx`, `110xxxxx`, `1110xxxx` or `11110xxx`; every other byte is `10xxxxxx` |
| `Unicode.Utf8RoundTrip` | cppjson/parse.cpp:265-288 | decoding the UTF-8 form of any codepoint up to 0x10FFFF gives it back and consumes exactly its length, whatever follows |
| `Unicode.Utf8EncodeAsWrittenByRange` | cppjson/parse.cpp:267-288 | the C++ branches as written: lengths by range, with 0xD800..0xDFFF in the 4-byte branch; each form still decodes back to its value |
| `Unicode.SurrogateAsWrittenIsOverlong` | cppjson/parse.cpp:276 | as written, D83D becomes F0 8D A0 BD, longer than its value needs; the corrected writer gives ED A0 BD |
| `Unicode.WriteAsUtf8CodeUnits` | cppjson/parse.cpp:265-293 | appends the UTF-8 form of the codepoint to the output for values up to 0x10FFFF; above that it raises the range error |
| `Value.ExactlyOneQueryHolds` | cppjson/cppjson.cpp:48-53 | exactly one of `isBool`, `isNumber`, `isString`, `isNull`, `isObject`, `isArray` holds of any value |
| `Value.Size` | cppjson/cppjson.cpp:83-88 | the element count of an array, the entry count of an object, `(size_t)-1` for any other value |
| `Value.GetterSucceedsIffVariantMatches` | cppjson/cppjson.cpp:68-81 | each getter succeeds exactly on the variant its type names; otherwise it fails with a type mismatch |
| `Value.NewObject` | cppjson/cppjson.cpp:5-9 | the default constructor gives an object that `isObject` reports, with size 0 and no entries |
| `Value.FromBool` | cppjson/cppjson.cpp:11-16 | `JSON(bool)` gives a Bool holding that value |
| `Value.FromNumber` | cppjson/cppjson.cpp:18-23 | `JSON(double)` gives a Number holding that value |
| `Value.FromString` | cppjson/cppjson.cpp:25-30 | `JSON(std::string)` gives a String holding that text |
| `Value.FromNull` | cppjson/cppjson.cpp:32-37 | `JSON(nullptr)` gives Null |
| `Value.NewArray` | cppjson/cppjson.cpp:97-98 | `JSON::array` gives an Array of the given elements, whose size is their count |
| `Parse.SkipWhitespaces` | cppjson/parse.cpp:231-236 | returns `j` with `index <= j <= \|input\|`; every byte in between is whitespace; `j` is the end or a non-space byte |
| `Parse.ParseKeyword` | cppjson/parse.cpp:212-229 | succeeds exactly when the input spells the keyword from `index`, and then returns the index past it; otherwise a SyntaxError |
| `Parse.ParseKeywordValue` | cppjson/parse.cpp:56-70 | a literal production: the value and the index past the keyword when it matches, else the keyword's SyntaxError |
| `Parse.FourDigitsAsWrittenCounterexamples` | cppjson/parse.cpp:295-305 | the C++ check refuses `\u00e9` (a hex letter) and `\u00411` (a digit after the four), which RFC 8259 allows; the corrected check accepts both |
| `Parse.EnsureExactlyHas4Digits` | cppjson/parse.cpp:295-305 | succeeds exactly when four hex digits start at `index`; otherwise a SyntaxError |
| `Parse.ParseUtf16EscapedValue` | cppjson/parse.cpp:243-248 | succeeds exactly when four hex digits follow `\u`; then gives the code unit they spell and the index 6 bytes on; otherwise a SyntaxError |
| `Parse.SimpleEscapeTable` | cppjson/parse.cpp:153-168 | the one-character escapes are exactly the eight of RFC 8259 section 7; they agree with the C++ table on all but `"` |
| `Parse.QuoteEscapeAsWrittenMissing` | cppjson/parse.cpp:153-168 | the C++ table has no `\"`; with it, `"a\"b"` reads as `a"b` |
| `Parse.EscapeAt` | cppjson/parse.cpp:98-171 | an escape moves at least 2 bytes on and stays inside the input; any failure is a SyntaxError |
| `Parse.SimpleEscapeStep` | cppjson/parse.cpp:98-171 | a one-character escape writes its byte and moves 2 on; an unknown escape character, or a backslash in the last position, is a SyntaxError |
| `Parse.SurrogatePolicy` | cppjson/parse.cpp:106-149 | a lead unit followed by a `\u` escape of a trail unit writes one codepoint (4 bytes that decode to it); followed by any other `\u` unit, both units are written; a lone lead unit or any other unit is written alone |
| `Parse.SurrogatePairExample` | cppjson/parse.cpp:106-134 | `"\uD83D\uDE00"` reads as F0 9F 98 80, the UTF-8 form of U+1F600 |
| `Parse.LoneSurrogateExample` | cppjson/parse.cpp:135-141 | `"\uD83D"` reads as ED A0 BD |
| `Parse.ParseUnicodeEscape` | cppjson/parse.cpp:106-149 | the `\u` branch appends exactly the decoded bytes of the escape (or pair) to the output, or fails as the escape does |
| `Parse.StringBodyOutcome` | cppjson/parse.cpp:96-185 | a decoded string ends just past a closing quotation mark inside the input; every failure is a SyntaxError |
| `Parse.UnterminatedStringFails` | cppjson/parse.cpp:183-185 | input with no quotation mark left is a SyntaxError |
| `Parse.ParseJsonString` | cppjson/parse.cpp:90-186 | the loop computes the string-literal function: the decoded bytes up to the closing mark and the index past it, or its SyntaxError |
| `Parse.DispatchOnFirstByte` | cppjson/parse.cpp:45-73 | `{` and `[` go to the unimplemented productions, `"` to a string, a digit or `-` to a number (a hex prefix is refused), `t`/`f`/`n` to exactly `true`/`false`/`null`; anything else is a SyntaxError |
| `Parse.ParseJson` | cppjson/parse.cpp:45-73 | the dispatch computes the value function on every input |
| `Parse.Parse` | cppjson/parse.cpp:40-43 | `parse` gives the value at index 0, or its error |
| `Serialize.LowerHexDigit` | cppjson/toString.cpp:110 | `std::hex` writes a lowercase hex digit, and a decimal digit exactly for values below 10 |
| `Serialize.Hex4` | cppjson/toString.cpp:110 | four hex digits; below 0x100 the first two are `0` |
| `Serialize.EscapeByteAsWrittenTable` | cppjson/toString.cpp:80-116 | `\n`, `\r`, `\f`, `\t` and `\b` get their two-byte escapes; any other byte below 0x20 becomes `\u00` and two lowercase hex digits; every byte from 0x20 up, `"` and `\` included, is copied |
| `Serialize.EscapeByteShape` | cppjson/toString.cpp:75-120 | each byte becomes 1, 2 or 6 bytes: itself when it needs no escape, otherwise an escape starting with a backslash; `"` and `\` are escaped; no escape holds a control byte |
| `Serialize.EscapedAppend` | cppjson/toString.cpp:78-117 | escaping works byte by byte, in order: it distributes over concatenation |
| `Serialize.EscapedBounds` | cppjson/toString.cpp:75-120 | the escaped text has no byte below 0x20 and is between 1 and 6 times as long as the string |
| `Serialize.EscapedPlainText` | cppjson/toString.cpp:112-115 | printable text without `"` or `\` is its own escape |
| `Serialize.EscapeCharacters` | cppjson/toString.cpp:75-120 | the loop computes the escaped text |
| `Serialize.JoinFront` | cppjson/toString.cpp:40-45 | joined parts read from the front: the first part, a comma, then the others joined |
| `Serialize.JoinLength` | cppjson/toString.cpp:40-45 | joining n parts adds exactly n-1 commas |
| `Serialize.RenderScalars` | cppjson/toString.cpp:15-34 | a Bool renders as exactly `true` or `false`, Null as `null`, a NaN or infinity as `null`, a finite number as the formatter gives it, a string between quotation marks |
| `Serialize.RenderArrayLayout` | cppjson/toString.cpp:35-50 | `[]` when empty; otherwise `[`, the first element's text, then `]` or a comma and the other elements in order |
| `Serialize.RenderObjectLayout` | cppjson/toString.cpp:51-69 | `{}` when empty; otherwise `{`, the first entry as `"key":value`, then `}` or a comma and the other entries in the order they are held (ascending key order, as `std::map` keeps it, when the value is `WellFormed`) |
| `Serialize.RenderNoControlBytes` | cppjson/toString.cpp:11-73 | when numbers are formatted without control bytes, no rendered text holds a byte below 0x20 |
| `Serialize.ToString` | cppjson/toString.cpp:11-73 | the recursive renderer computes the rendering function |
| `Serialize.ToStringArray` | cppjson/toString.cpp:35-50 | the array loop computes the rendering of the array |
| `Serialize.ToStringObject` | cppjson/toString.cpp:51-69 | the object loop computes the rendering of the object |
| `Serialize.EntryToString` | cppjson/toString.cpp:58-62 | one entry is written as `"key":value` |
| `RoundTrip.Hex4RoundTrip` | cppjson/toString.cpp:110 | the parser reads back as `n` the four hex digits the serializer writes for `n` |
| `RoundTrip.EscapeByteDecodes` | cppjson/toString.cpp:80-116 | the escape of one byte reads back as that byte, and the parser moves past exactly that escape |
| `RoundTrip.EscapedDecodes` | cppjson/toString.cpp:75-120 | escaped text followed by a quotation mark reads back as the string, and the parser stops right after the mark |
| `RoundTrip.StringRoundTrip` | cppjson/toString.cpp:17-18 | every string reads back from its rendering as the same string, whatever follows, with the parser stopping right after it |
| `RoundTrip.ReadBackAlone` | cppjson/toString.cpp:17-18 | a rendered string with nothing after it reads back as the same string, and the parser consumes all of the text |
| `RoundTrip.LiteralRoundTrip` | cppjson/toString.cpp:15-20 | `true`, `false` and `null` read back as themselves |
| `RoundTrip.NonFiniteNumberReadsBackAsNull` | cppjson/toString.cpp:22-27 | a NaN or infinity is written as `null` and reads back as Null |
| `RoundTrip.ContainersAreNotReadBack` | cppjson/parse.cpp:80-88 | the rendering of an array or object reads back only as the unimplemented outcome |
| `RoundTrip.EscapeAsWrittenBreaksRoundTrip` | cppjson/toString.cpp:97-115 | with `"` copied, a one-quote string is written `"""` and reads back as the empty string; with `\` copied, `"\"` never closes |
| `RoundTrip.EscapeCorrectedKeepsRoundTrip` | cppjson/toString.cpp:75-120 | with the corrected escaper, those two strings read back as written |
| `RoundTrip.EscapedControlThenDigit` | cppjson/toString.cpp:108-111 | the byte 0x01 followed by `1` is escaped as `\u00011` |
| `RoundTrip.DigitCheckAsWrittenRefusesEscapedText` | cppjson/parse.cpp:297-298 | the C++ digit check refuses that text, since a digit follows the four; the corrected parser reads the string back |

## Left out

- Number parsing (`parseJSONNumber`'s `strtod` and `HUGE_VAL` check, `parse.cpp:199-209`) is floating point in the C library. It is the parameter `readNumber`. The hex-literal refusal (`parse.cpp:196-197`) is modelled.
- Number formatting (`ostream << double`, `toString.cpp:30-32`) is the parameter `fmt`. A `double` is its 64-bit pattern, and only the NaN and infinity test is interpreted.
- `parseJSONObject` and `parseJSONArray` have empty bodies. Dispatching to them gives `Unimplemented`, so arrays and objects never read back.
- `operator[]`, `operator=`, `push_back`, `push_front`, `erase` and the copy constructor have empty bodies. They are not modelled, and no missing-key behaviour is invented.
- `JSONObjectEntry` (`cppjson.hpp:6-15`) is not modelled: one constructor is defined inline and the others are only declared, and neither the parser nor the serializer uses it.
- The initializer-list constructor `JSON(std::initializer_list<JSONObjectEntry>)` is declared but never defined. `src/cppjson.hpp` is an older copy of the header.
- `std::ostringstream` is a byte sequence that the methods append to.
- `Parse.SkipWhitespaces` uses `isspace` in the C locale, as the code does. That includes `\v` and `\f`, which RFC 8259 section 2 excludes. Nothing in the parser calls it.
- `Parse.Parse` does not check what follows the value, as the code does not.
- `Parse.DispatchOnFirstByte` follows the code. A leading zero reaches the number reader, which decides. A leading `+` is a SyntaxError (`parse.cpp:54`, `parse.cpp:72`).
- The value's ownership, copying and lifetime are C++ details, and a datatype has value semantics.

## Findings

| source | as written | input that shows it | evidently intended | confidence | as-written member | corrected member |
|---|---|---|---|---|---|---|
| cppjson/parse.cpp:260-263 | `calculateCodepoint` leaves out `+ 0x10000`, and the call at lines 121-123 passes the trail unit as the lead | the escapes `\uD83D\uDE00` give 0x17FC3D, so writing it raises the range error | U+1F600, per section 2.2 of RFC 2781 | high, not executed | `Unicode.SurrogatePairAsWrittenCounterexample` | `Unicode.CalculateCodepoint` |
| cppjson/parse.cpp:153-168 | there is no branch for `\"` | `"a\"b"` raises SyntaxError | `\"` stands for `"` (RFC 8259 section 7) | high, not executed | `Parse.QuoteEscapeAsWrittenMissing` | `Parse.SimpleEscapeTable` |
| cppjson/parse.cpp:297-303 | the four digits are tested with `isdigit` | `\u00e9` raises SyntaxError | hex digits (`isxdigit`) | high, not executed | `Parse.FourDigitsAsWrittenCounterexamples` | `Parse.EnsureExactlyHas4Digits` |
| cppjson/parse.cpp:297-298 | a digit right after the four is refused | `"\u00411"` (the text `A1`), and the serializer's own `\u00011` for the bytes 0x01 `1` | any byte may follow the four digits | high, not executed | `RoundTrip.DigitCheckAsWrittenRefusesEscapedText` | `RoundTrip.EscapedDecodes` |
| cppjson/parse.cpp:276 | the 3-byte branch excludes 0xD800..0xDFFF, so a surrogate unit takes the 4-byte branch | `\uD83D` is written F0 8D A0 BD, an overlong form | the 3-byte form ED A0 BD, as for every value up to 0xFFFF | medium, not executed | `Unicode.SurrogateAsWrittenIsOverlong` | `Unicode.Utf8RoundTrip` |
| cppjson/toString.cpp:97-115 | `"` and `\` are copied unescaped | the string `"` is written `"""` and reads back as the empty string | `\"` and `\\`, which RFC 8259 section 7 requires | high, not executed | `RoundTrip.EscapeAsWrittenBreaksRoundTrip` | `RoundTrip.StringRoundTrip` |
