/** Bytes, character classes and the error outcomes shared by the parser,
    the serializer and the value type.

    A C++ `std::string` is a sequence of `char`; every comparison the library
    makes on it (`std::map` key order, `*it < 0x20u`) treats the characters as
    unsigned, so a character is modelled as an integer byte 0..255. */
module Base {

  type Byte = b: int | 0 <= b < 0x100
  type Bytes = seq<Byte>

  /** The exceptions the library throws, plus `Unimplemented` for the
      productions whose C++ bodies are empty. */
  datatype Error =
    | SyntaxError       // class SyntaxError in parse.cpp
    | RangeError        // std::range_error("The codepoint is out of range.")
    | TypeMismatch      // a getter used on a value of another variant
    | Unimplemented     // parseJSONObject / parseJSONArray have empty bodies

  datatype Result<+T> = Ok(value: T) | Err(error: Error)

  datatype Option<+T> = None | Some(value: T)

  // Structural characters of RFC 8259, as bytes.
  const QUOTE: Byte := 0x22         // '"'
  const BACKSLASH: Byte := 0x5C     // '\\'
  const SLASH: Byte := 0x2F         // '/'
  const LBRACE: Byte := 0x7B        // '{'
  const RBRACE: Byte := 0x7D        // '}'
  const LBRACKET: Byte := 0x5B      // '['
  const RBRACKET: Byte := 0x5D      // ']'
  const COMMA: Byte := 0x2C         // ','
  const COLON: Byte := 0x3A         // ':'
  const MINUS: Byte := 0x2D         // '-'

  // The bytes the string escapes name.
  const BACKSPACE: Byte := 0x08     // '\b'
  const TAB: Byte := 0x09           // '\t'
  const LINE_FEED: Byte := 0x0A     // '\n'
  const VERTICAL_TAB: Byte := 0x0B  // '\v'
  const FORM_FEED: Byte := 0x0C     // '\f'
  const CARRIAGE_RETURN: Byte := 0x0D // '\r'
  const SPACE: Byte := 0x20         // ' '

  // Letters that follow a backslash in RFC 8259 section 7.
  const LETTER_B: Byte := 0x62    // 'b'
  const LETTER_F: Byte := 0x66    // 'f'
  const LETTER_N: Byte := 0x6E    // 'n'
  const LETTER_R: Byte := 0x72    // 'r'
  const LETTER_T: Byte := 0x74    // 't'
  const LETTER_U: Byte := 0x75    // 'u'

  /** The ASCII bytes of a character string written in the model's source. */
  function Ascii(s: string): (r: Bytes)
    requires forall k :: 0 <= k < |s| ==> s[k] as int < 0x80
    ensures |r| == |s|
    ensures forall k :: 0 <= k < |s| ==> r[k] == s[k] as int
  {
    seq(|s|, k requires 0 <= k < |s| => s[k] as int)
  }

  // The three literal names of RFC 8259 section 3.
  const TRUE_TEXT: Bytes := Ascii("true")
  const FALSE_TEXT: Bytes := Ascii("false")
  const NULL_TEXT: Bytes := Ascii("null")

  /** `isdigit` in the C locale. */
  predicate IsDigit(b: Byte) {
    '0' as int <= b <= '9' as int
  }

  /** `isxdigit` in the C locale. */
  predicate IsHexDigit(b: Byte) {
    IsDigit(b) || 'a' as int <= b <= 'f' as int || 'A' as int <= b <= 'F' as int
  }

  /** `isspace` in the C locale: space, `\t`, `\n`, `\v`, `\f` and `\r`. */
  predicate IsSpace(b: Byte) {
    b == SPACE || b == TAB || b == LINE_FEED || b == VERTICAL_TAB || b == FORM_FEED || b == CARRIAGE_RETURN
  }
}
