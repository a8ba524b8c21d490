/** The serializer of toString.cpp: `toString` renders a value tree as JSON
    text, and `escapeCharacters` escapes the bytes of a string one by one.

    Each C++ loop is a method proved against a pure function (`Escaped`,
    `Render`); the lemmas state what those functions promise. The draft
    returns a string without its quotation marks (toString.cpp:18) and wraps
    each object value in an extra pair (toString.cpp:60-62); the model
    renders what JSON text needs, and a comment marks each spot. */
module Serialize {
  import opened Base
  import opened Value

  /** `ostream << double` for a finite number. The stream's formatting is
      not part of this model, so it is a parameter of the renderer. */
  type NumberFormatter = Double -> Bytes

  /** No byte below 0x20: the text holds no raw control character. */
  predicate NoControlBytes(s: Bytes) {
    forall k :: 0 <= k < |s| ==> s[k] >= SPACE
  }

  // ---------------------------------------------------------------------
  // Hex digits (toString.cpp:110)
  // ---------------------------------------------------------------------

  /** One hex digit as `std::hex` writes it: lowercase. */
  function LowerHexDigit(d: nat): (b: Byte)
    requires d < 16
    ensures IsHexDigit(b) && !('A' as int <= b <= 'F' as int)
    ensures d < 10 <==> IsDigit(b)
  {
    if d < 10 then '0' as int + d else 'a' as int + d - 10
  }

  /** `std::setfill('0') << std::setw(4) << std::hex << n`: four lowercase
      hex digits, the most significant first. */
  function Hex4(n: nat): (r: Bytes)
    requires n < 0x10000
    ensures |r| == 4 && forall k :: 0 <= k < 4 ==> IsHexDigit(r[k])
    ensures n < 0x100 ==> r[0] == '0' as int && r[1] == '0' as int
  {
    [LowerHexDigit(n / 0x1000), LowerHexDigit(n / 0x100 % 16),
     LowerHexDigit(n / 0x10 % 16), LowerHexDigit(n % 16)]
  }

  // ---------------------------------------------------------------------
  // Escaping (toString.cpp:75-120)
  // ---------------------------------------------------------------------

  /** The bytes `escapeCharacters` writes for one byte, as toString.cpp:80-116
      has them. The comparison with `0x20u` is unsigned, so every byte from
      0x80 up passes through, as the comment at toString.cpp:98-104 argues;
      so do the quotation mark and the backslash. */
  function EscapeByteAsWritten(b: Byte): Bytes {
    if b == LINE_FEED then [BACKSLASH, LETTER_N]
    else if b == CARRIAGE_RETURN then [BACKSLASH, LETTER_R]
    else if b == FORM_FEED then [BACKSLASH, LETTER_F]
    else if b == TAB then [BACKSLASH, LETTER_T]
    else if b == BACKSPACE then [BACKSLASH, LETTER_B]
    else if b < SPACE then [BACKSLASH, LETTER_U] + Hex4(b)
    else [b]
  }

  /** The five named control bytes get their two-byte escapes, every other
      byte below 0x20 becomes `\u00` and two lowercase hex digits, and every
      byte from 0x20 up, `"` and `\` included, is copied. */
  lemma EscapeByteAsWrittenTable(b: Byte)
    ensures b == LINE_FEED ==> EscapeByteAsWritten(b) == [BACKSLASH, LETTER_N]
    ensures b == CARRIAGE_RETURN ==> EscapeByteAsWritten(b) == [BACKSLASH, LETTER_R]
    ensures b == FORM_FEED ==> EscapeByteAsWritten(b) == [BACKSLASH, LETTER_F]
    ensures b == TAB ==> EscapeByteAsWritten(b) == [BACKSLASH, LETTER_T]
    ensures b == BACKSPACE ==> EscapeByteAsWritten(b) == [BACKSLASH, LETTER_B]
    ensures b < SPACE && b !in {LINE_FEED, CARRIAGE_RETURN, FORM_FEED, TAB, BACKSPACE} ==>
      EscapeByteAsWritten(b) ==
        [BACKSLASH, LETTER_U, '0' as int, '0' as int, LowerHexDigit(b / 16), LowerHexDigit(b % 16)]
    ensures SPACE <= b ==> EscapeByteAsWritten(b) == [b]
    ensures EscapeByteAsWritten(QUOTE) == [QUOTE] && EscapeByteAsWritten(BACKSLASH) == [BACKSLASH]
  {
  }

  /** The escape of one byte as section 7 of RFC 8259 requires: the policy
      of the C++, plus `\"` and `\\`, which the C++ copies unescaped. */
  function EscapeByte(b: Byte): Bytes {
    if b == QUOTE || b == BACKSLASH then [BACKSLASH, b] else EscapeByteAsWritten(b)
  }

  /** Each byte becomes 1, 2 or 6 bytes: itself when it needs no escape, and
      otherwise an escape that starts with a backslash; no escape holds a
      control byte. */
  lemma EscapeByteShape(b: Byte)
    ensures |EscapeByte(b)| in {1, 2, 6}
    ensures |EscapeByte(b)| == 1 <==> SPACE <= b && b != QUOTE && b != BACKSLASH
    ensures |EscapeByte(b)| == 1 ==> EscapeByte(b) == [b]
    ensures |EscapeByte(b)| == 6 <==> b < SPACE && b !in {LINE_FEED, CARRIAGE_RETURN, FORM_FEED, TAB, BACKSPACE}
    ensures |EscapeByte(b)| > 1 ==> EscapeByte(b)[0] == BACKSLASH
    ensures b == QUOTE ==> EscapeByte(b) == [BACKSLASH, QUOTE]
    ensures b == BACKSLASH ==> EscapeByte(b) == [BACKSLASH, BACKSLASH]
    ensures b != QUOTE && b != BACKSLASH ==> EscapeByte(b) == EscapeByteAsWritten(b)
    ensures NoControlBytes(EscapeByte(b))
  {
  }

  /** `f` of each byte of `s`, one after the other. */
  function FlatMap(f: Byte -> Bytes, s: Bytes): Bytes {
    if s == [] then [] else FlatMap(f, s[..|s| - 1]) + f(s[|s| - 1])
  }

  lemma FlatMapSnoc(f: Byte -> Bytes, s: Bytes, b: Byte)
    ensures FlatMap(f, s + [b]) == FlatMap(f, s) + f(b)
  {
    assert (s + [b])[..|s|] == s;
  }

  lemma {:induction false} FlatMapAppend(f: Byte -> Bytes, a: Bytes, b: Bytes)
    ensures FlatMap(f, a + b) == FlatMap(f, a) + FlatMap(f, b)
  {
    if b == [] {
      assert a + b == a;
    } else {
      var front, last := b[..|b| - 1], b[|b| - 1];
      assert b == front + [last];
      assert a + b == (a + front) + [last];
      FlatMapSnoc(f, a + front, last);
      FlatMapAppend(f, a, front);
      FlatMapSnoc(f, front, last);
    }
  }

  /** A whole string escaped: each byte's escape, in order. */
  function Escaped(s: Bytes): Bytes {
    FlatMap(EscapeByte, s)
  }

  /** One more byte adds its escape at the end. */
  lemma EscapedSnoc(s: Bytes, b: Byte)
    ensures Escaped(s + [b]) == Escaped(s) + EscapeByte(b)
  {
    FlatMapSnoc(EscapeByte, s, b);
  }

  /** Escaping works byte by byte: it distributes over concatenation. */
  lemma EscapedAppend(a: Bytes, b: Bytes)
    ensures Escaped(a + b) == Escaped(a) + Escaped(b)
  {
    FlatMapAppend(EscapeByte, a, b);
  }

  /** A single byte is escaped as that byte's escape. */
  lemma EscapedSingle(b: Byte)
    ensures Escaped([b]) == EscapeByte(b)
  {
    FlatMapSnoc(EscapeByte, [], b);
    assert [] + [b] == [b];
  }

  /** The escape of the first byte, then the rest escaped. */
  lemma EscapedCons(b: Byte, s: Bytes)
    ensures Escaped([b] + s) == EscapeByte(b) + Escaped(s)
  {
    EscapedAppend([b], s);
    EscapedSingle(b);
  }

  /** The escaped text has no control byte, and is at least as long as the
      string and at most six times as long. */
  lemma {:induction false} EscapedBounds(s: Bytes)
    ensures NoControlBytes(Escaped(s))
    ensures |s| <= |Escaped(s)| <= 6 * |s|
  {
    if s != [] {
      var front, last := s[..|s| - 1], s[|s| - 1];
      assert s == front + [last];
      EscapedBounds(front);
      EscapeByteShape(last);
      EscapedSnoc(front, last);
    }
  }

  /** Text of printable bytes other than `"` and `\` is its own escape. */
  lemma {:induction false} EscapedPlainText(s: Bytes)
    requires forall k :: 0 <= k < |s| ==> SPACE <= s[k] && s[k] != QUOTE && s[k] != BACKSLASH
    ensures Escaped(s) == s
  {
    if s != [] {
      var front, last := s[..|s| - 1], s[|s| - 1];
      assert s == front + [last];
      EscapedPlainText(front);
      EscapedSnoc(front, last);
    }
  }

  /** `escapeCharacters`: the bytes of `str` with each one escaped, appended
      in order to the output. */
  method EscapeCharacters(str: Bytes) returns (out: Bytes)
    ensures out == Escaped(str)
  {
    out := [];
    var i := 0;
    while i < |str|
      invariant 0 <= i <= |str|
      invariant out == Escaped(str[..i])
    {
      var b := str[i];
      if b == LINE_FEED {
        out := out + [BACKSLASH, LETTER_N];
      } else if b == CARRIAGE_RETURN {
        out := out + [BACKSLASH, LETTER_R];
      } else if b == FORM_FEED {
        out := out + [BACKSLASH, LETTER_F];
      } else if b == TAB {
        out := out + [BACKSLASH, LETTER_T];
      } else if b == BACKSPACE {
        out := out + [BACKSLASH, LETTER_B];
      } else if b == QUOTE || b == BACKSLASH {
        // Not in the C++ switch, which copies both (see EscapeByteAsWritten).
        out := out + [BACKSLASH, b];
      } else if b < SPACE {
        out := out + [BACKSLASH, LETTER_U] + Hex4(b);
      } else {
        out := out + [b];
      }
      assert str[..i + 1] == str[..i] + [b];
      EscapedSnoc(str[..i], b);
      i := i + 1;
    }
    assert str[..|str|] == str;
  }

  // ---------------------------------------------------------------------
  // Rendering (toString.cpp:11-73)
  // ---------------------------------------------------------------------

  /** The parts separated by commas: a comma between each two consecutive
      parts and nowhere else. */
  function Join(parts: seq<Bytes>): Bytes {
    if |parts| == 0 then []
    else if |parts| == 1 then parts[0]
    else Join(parts[..|parts| - 1]) + [COMMA] + parts[|parts| - 1]
  }

  function TotalLength(parts: seq<Bytes>): nat {
    if parts == [] then 0 else TotalLength(parts[..|parts| - 1]) + |parts[|parts| - 1]|
  }

  /** Read from the front: the first part, a comma, and the others joined. */
  lemma {:induction false} JoinFront(parts: seq<Bytes>)
    requires |parts| >= 2
    ensures Join(parts) == parts[0] + [COMMA] + Join(parts[1..])
  {
    var n := |parts|;
    if n == 2 {
      assert parts[..1] == [parts[0]];
      assert parts[1..] == [parts[1]];
    } else {
      assert parts[..n - 1][1..] == parts[1..][..n - 2];
      JoinFront(parts[..n - 1]);
      assert parts[..n - 1][0] == parts[0];
      assert parts[1..][n - 2] == parts[n - 1];
    }
  }

  /** Joining adds exactly one comma per part after the first. */
  lemma {:induction false} JoinLength(parts: seq<Bytes>)
    requires |parts| >= 1
    ensures |Join(parts)| == TotalLength(parts) + |parts| - 1
  {
    if |parts| >= 2 {
      JoinLength(parts[..|parts| - 1]);
      assert parts[..|parts| - 1][..|parts| - 2] == parts[..|parts| - 2];
    } else {
      assert parts[..0] == [];
    }
  }

  /** Commas are not control bytes, so joining keeps text free of them. */
  lemma {:induction false} JoinNoControlBytes(parts: seq<Bytes>)
    requires forall k :: 0 <= k < |parts| ==> NoControlBytes(parts[k])
    ensures NoControlBytes(Join(parts))
  {
    if |parts| >= 2 {
      JoinNoControlBytes(parts[..|parts| - 1]);
      assert NoControlBytes(parts[|parts| - 1]);
    }
  }

  /** The JSON text of a value. A string is its escaped bytes between
      quotation marks; an object is its entries in map order, each the
      quoted escaped key, a colon and the rendered value. */
  function Render(v: Json, fmt: NumberFormatter): Bytes
    decreases v, 0
  {
    match v
    case Bool(b) => if b then TRUE_TEXT else FALSE_TEXT
    case String(text) => [QUOTE] + Escaped(text) + [QUOTE]
    case Null => NULL_TEXT
    case Number(d) => if IsFinite(d) then fmt(d) else NULL_TEXT
    case Array(elements) =>
      [LBRACKET] + Join(seq(|elements|, k requires 0 <= k < |elements| => Render(elements[k], fmt))) + [RBRACKET]
    case Object(entries) =>
      [LBRACE] + Join(seq(|entries|, k requires 0 <= k < |entries| =>
        EntryText(entries[k].0, entries[k].1, fmt))) + [RBRACE]
  }

  /** The text of one object entry, `"key":value`. */
  function EntryText(key: Bytes, value: Json, fmt: NumberFormatter): Bytes
    decreases value, 1
  {
    [QUOTE] + Escaped(key) + [QUOTE, COLON] + Render(value, fmt)
  }

  /** `true`, `false` and `null` exactly; a NaN or an infinity as `null`; a
      string between quotation marks. */
  lemma RenderScalars(fmt: NumberFormatter, d: Double, s: Bytes)
    ensures Render(Bool(true), fmt) == Ascii("true")
    ensures Render(Bool(false), fmt) == Ascii("false")
    ensures Render(Null, fmt) == Ascii("null")
    ensures !IsFinite(d) ==> Render(Number(d), fmt) == Ascii("null")
    ensures IsFinite(d) ==> Render(Number(d), fmt) == fmt(d)
    ensures var r := Render(String(s), fmt);
      |r| >= 2 && r[0] == QUOTE && r[|r| - 1] == QUOTE && r[1..|r| - 1] == Escaped(s)
  {
  }

  /** Between brackets, a join of two or more parts is the first part, a
      comma, and the others joined between brackets with the opening one
      dropped. */
  lemma BracketedJoinFront(parts: seq<Bytes>, open: Byte, close: Byte)
    requires |parts| >= 2
    ensures [open] + Join(parts) + [close] == [open] + parts[0] + [COMMA] + ([open] + Join(parts[1..]) + [close])[1..]
  {
    JoinFront(parts);
    BracketedSplit(open, parts[0], Join(parts[1..]), close, Join(parts));
  }

  lemma BracketedSplit(open: Byte, first: Bytes, others: Bytes, close: Byte, whole: Bytes)
    requires whole == first + [COMMA] + others
    ensures [open] + whole + [close] == [open] + first + [COMMA] + ([open] + others + [close])[1..]
  {
    var t := [open] + others + [close];
    assert t[1..] == others + [close];
  }

  /** `[]` when empty; otherwise the first element's rendering, then a comma
      and the others rendered as an array of their own, or `]` after the
      last. */
  lemma RenderArrayLayout(elements: seq<Json>, fmt: NumberFormatter)
    ensures elements == [] ==> Render(Array(elements), fmt) == [LBRACKET, RBRACKET]
    ensures |elements| == 1 ==> Render(Array(elements), fmt) == [LBRACKET] + Render(elements[0], fmt) + [RBRACKET]
    ensures |elements| >= 2 ==>
      Render(Array(elements), fmt) == [LBRACKET] + Render(elements[0], fmt) + [COMMA] + Render(Array(elements[1..]), fmt)[1..]
  {
    if |elements| >= 2 {
      var parts := seq(|elements|, k requires 0 <= k < |elements| => Render(elements[k], fmt));
      var rest := elements[1..];
      assert parts[1..] == seq(|rest|, k requires 0 <= k < |rest| => Render(rest[k], fmt));
      BracketedJoinFront(parts, LBRACKET, RBRACKET);
    }
  }

  /** `{}` when empty; otherwise the first entry's text, then a comma and the
      other entries rendered as an object of their own, or `}` after the
      last: the entries appear in the map's order. */
  lemma RenderObjectLayout(entries: seq<(Bytes, Json)>, fmt: NumberFormatter)
    ensures entries == [] ==> Render(Object(entries), fmt) == [LBRACE, RBRACE]
    ensures |entries| == 1 ==>
      Render(Object(entries), fmt) == [LBRACE] + EntryText(entries[0].0, entries[0].1, fmt) + [RBRACE]
    ensures |entries| >= 2 ==>
      Render(Object(entries), fmt) ==
        [LBRACE] + EntryText(entries[0].0, entries[0].1, fmt) + [COMMA] + Render(Object(entries[1..]), fmt)[1..]
  {
    var parts := seq(|entries|, k requires 0 <= k < |entries| => EntryText(entries[k].0, entries[k].1, fmt));
    assert Render(Object(entries), fmt) == [LBRACE] + Join(parts) + [RBRACE];
    if |entries| >= 2 {
      var rest := entries[1..];
      assert parts[1..] == seq(|rest|, k requires 0 <= k < |rest| => EntryText(rest[k].0, rest[k].1, fmt));
      BracketedJoinFront(parts, LBRACE, RBRACE);
    }
  }

  /** When numbers are formatted without control bytes, no rendered text
      holds one: every control byte in a string or a key is escaped. */
  lemma {:induction false} RenderNoControlBytes(v: Json, fmt: NumberFormatter)
    requires forall d :: NoControlBytes(fmt(d))
    ensures NoControlBytes(Render(v, fmt))
    decreases v
  {
    match v
    case Bool(b) =>
    case Null =>
    case Number(d) =>
    case String(text) =>
      EscapedBounds(text);
    case Array(elements) =>
      var parts := seq(|elements|, k requires 0 <= k < |elements| => Render(elements[k], fmt));
      forall k | 0 <= k < |parts|
        ensures NoControlBytes(parts[k])
      {
        RenderNoControlBytes(elements[k], fmt);
      }
      JoinNoControlBytes(parts);
    case Object(entries) =>
      var parts := seq(|entries|, k requires 0 <= k < |entries| => EntryText(entries[k].0, entries[k].1, fmt));
      forall k | 0 <= k < |parts|
        ensures NoControlBytes(parts[k])
      {
        RenderNoControlBytes(entries[k].1, fmt);
        EscapedBounds(entries[k].0);
      }
      JoinNoControlBytes(parts);
      assert Render(v, fmt) == [LBRACE] + Join(parts) + [RBRACE];
  }

  /** After the element or entry at `i` of `n`, the C++ loops append a comma
      unless it was the last one. */
  function Separator(i: nat, n: nat): Bytes {
    if 0 < i < n then [COMMA] else []
  }

  /** One turn of the C++ loops: with the text so far being the first `i`
      parts joined after the opening bracket, appending part `i` and then
      its separator gives the first `i + 1` parts joined. */
  lemma AppendPart(s: Bytes, open: Byte, parts: seq<Bytes>, i: nat)
    requires i < |parts|
    requires s == [open] + Join(parts[..i]) + Separator(i, |parts|)
    ensures s + parts[i] + Separator(i + 1, |parts|) == [open] + Join(parts[..i + 1]) + Separator(i + 1, |parts|)
  {
    assert parts[..i + 1][..i] == parts[..i];
    if i == 0 {
      assert parts[..1] == [parts[0]];
    }
  }

  /** `toString`: the text of the value. Arrays and objects are built by
      the loops below, which render each child by a recursive call. */
  method ToString(v: Json, fmt: NumberFormatter) returns (s: Bytes)
    ensures s == Render(v, fmt)
    decreases v, 2
  {
    match v
    case Bool(b) =>
      s := if b then TRUE_TEXT else FALSE_TEXT;
    case String(text) =>
      // toString.cpp:18 returns the escaped bytes without the quotation marks.
      var escaped := EscapeCharacters(text);
      s := [QUOTE] + escaped + [QUOTE];
    case Null =>
      s := NULL_TEXT;
    case Number(d) =>
      if !IsFinite(d) {
        s := NULL_TEXT;
      } else {
        s := fmt(d);
      }
    case Array(_) =>
      s := ToStringArray(v, fmt);
    case Object(_) =>
      s := ToStringObject(v, fmt);
  }

  /** toString.cpp:35-50: `[`, each element followed by a comma unless it is
      the last, then `]`. */
  method ToStringArray(v: Json, fmt: NumberFormatter) returns (s: Bytes)
    requires v.Array?
    ensures s == Render(v, fmt)
    decreases v, 1
  {
    var elements := v.elements;
    ghost var parts := seq(|elements|, k requires 0 <= k < |elements| => Render(elements[k], fmt));
    var n := |elements|;
    s := [LBRACKET];
    var i := 0;
    while i < n
      invariant 0 <= i <= n
      invariant s == [LBRACKET] + Join(parts[..i]) + Separator(i, n)
    {
      var t := ToString(elements[i], fmt);
      AppendPart(s, LBRACKET, parts, i);
      s := s + t;
      if i != n - 1 {
        s := s + [COMMA];
      }
      i := i + 1;
    }
    assert parts[..n] == parts;
    s := s + [RBRACKET];
  }

  /** toString.cpp:51-69: `{`, each entry as `"key":value` followed by a
      comma unless it is the last, then `}`. */
  method ToStringObject(v: Json, fmt: NumberFormatter) returns (s: Bytes)
    requires v.Object?
    ensures s == Render(v, fmt)
    decreases v, 1
  {
    var entries := v.entries;
    ghost var parts := seq(|entries|, k requires 0 <= k < |entries| => EntryText(entries[k].0, entries[k].1, fmt));
    var n := |entries|;
    s := [LBRACE];
    var i := 0;
    while i < n
      invariant 0 <= i <= n
      invariant s == [LBRACE] + Join(parts[..i]) + Separator(i, n)
    {
      var t := EntryToString(v, i, fmt);
      AppendPart(s, LBRACE, parts, i);
      s := s + t;
      if i != n - 1 {
        s := s + [COMMA];
      }
      i := i + 1;
    }
    assert parts[..n] == parts;
    s := s + [RBRACE];
  }

  /** toString.cpp:58-62: the entry at `i` as `"key":value`. */
  method EntryToString(v: Json, i: nat, fmt: NumberFormatter) returns (t: Bytes)
    requires v.Object? && i < |v.entries|
    ensures t == EntryText(v.entries[i].0, v.entries[i].1, fmt)
    decreases v, 0
  {
    var (key, value) := v.entries[i];
    var escaped := EscapeCharacters(key);
    // toString.cpp:60-62 writes `":"` and a closing `"` around the value.
    var rendered := ToString(value, fmt);
    t := [QUOTE] + escaped + [QUOTE, COLON] + rendered;
  }
}
