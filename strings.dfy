/** The Python string and bytes built-ins the codec relies on, written out:
    whitespace stripping, `split`, `int()` on text and on bytes, `str()` of an
    int, ASCII case mapping, hex conversion, the `repr` of a byte string, and
    UTF-8. */
module Strings {
  import opened Wrappers
  import opened Bytes

  // ---------------------------------------------------------------------
  // Characters and stripping

  /** `str.isspace()` for one character (Python's whitespace set). */
  predicate IsSpace(c: char) {
    c == ' ' || c == '\t' || c == '\n' || c == '\r' || c == '\U{000B}' || c == '\U{000C}'
    || ('\U{001C}' <= c <= '\U{001F}') || c == '\U{0085}' || c == '\U{00A0}'
    || c == '\U{1680}' || ('\U{2000}' <= c <= '\U{200A}') || c == '\U{2028}'
    || c == '\U{2029}' || c == '\U{202F}' || c == '\U{205F}' || c == '\U{3000}'
  }

  /** `s.lstrip()`. */
  function LStrip(s: string): (r: string)
    ensures |r| <= |s|
    ensures r == [] || !IsSpace(r[0])
  {
    if s != [] && IsSpace(s[0]) then LStrip(s[1..]) else s
  }

  /** `s.lstrip()` removes the leading whitespace and nothing else. */
  lemma {:induction false} LStripSuffix(s: string)
    ensures LStrip(s) == s[|s| - |LStrip(s)|..]
    ensures forall i :: 0 <= i < |s| - |LStrip(s)| ==> IsSpace(s[i])
  {
    if s != [] && IsSpace(s[0]) {
      LStripSuffix(s[1..]);
    }
  }

  /** `s.rstrip()`. */
  function RStrip(s: string): (r: string)
    ensures |r| <= |s| && r == s[..|r|]
    ensures r == [] || !IsSpace(r[|r| - 1])
  {
    if s != [] && IsSpace(s[|s| - 1]) then RStrip(s[..|s| - 1]) else s
  }

  /** `s.strip()`. */
  function Strip(s: string): string {
    RStrip(LStrip(s))
  }

  /** `c in s`. */
  predicate Contains(s: string, c: char) {
    exists i :: 0 <= i < |s| && s[i] == c
  }

  /** Index of the first `c` in `s` (`s.index(c)`), if there is one. */
  function IndexOf(s: string, c: char): (r: Option<nat>)
    ensures r.None? <==> !Contains(s, c)
    ensures r.Some? ==> r.value < |s| && s[r.value] == c
                        && forall i :: 0 <= i < r.value ==> s[i] != c
  {
    if s == [] then None
    else if s[0] == c then Some(0)
    else match IndexOf(s[1..], c)
      case None => None
      case Some(i) => Some(i + 1)
  }

  /** `s.split(c, 1)` when `c` occurs in `s`: the text before and after the first `c`. */
  function SplitOnce(s: string, c: char): (r: Option<(string, string)>)
    ensures r.None? <==> !Contains(s, c)
    ensures r.Some? ==> s == r.value.0 + [c] + r.value.1 && !Contains(r.value.0, c)
  {
    match IndexOf(s, c)
    case None => None
    case Some(i) =>
      assert s == s[..i] + [c] + s[i + 1..];
      Some((s[..i], s[i + 1..]))
  }

  /** `s.split(c)`: the pieces between occurrences of `c` (never an empty list). */
  function Split(s: string, c: char): (r: seq<string>)
    ensures |r| >= 1
    ensures forall k :: 0 <= k < |r| ==> !Contains(r[k], c)
    decreases |s|
  {
    match SplitOnce(s, c)
    case None => [s]
    case Some((a, b)) => [a] + Split(b, c)
  }

  /** The inverse of `Split`: pieces glued with `c`. */
  function Join(pieces: seq<string>, c: char): string
    decreases |pieces|
  {
    if |pieces| <= 1 then (if pieces == [] then [] else pieces[0])
    else pieces[0] + [c] + Join(pieces[1..], c)
  }

  lemma {:induction false} SplitJoin(s: string, c: char)
    ensures Join(Split(s, c), c) == s
    decreases |s|
  {
    match SplitOnce(s, c)
    case None =>
    case Some((a, b)) =>
      SplitJoin(b, c);
  }

  /** Splitting at the first `c` of a text whose part before it holds no
      `c` gives back the two parts. */
  lemma SplitAfterPrefix(a: string, c: char, b: string)
    requires !Contains(a, c)
    ensures SplitOnce(a + [c] + b, c) == Some((a, b))
  {
    var s := a + [c] + b;
    assert s[|a|] == c;
    assert Contains(s, c);
    assert IndexOf(s, c) == Some(|a|);
    assert s[..|a|] == a && s[|a| + 1..] == b;
  }

  /** Leading whitespace in front of a text that does not start with
      whitespace is exactly what `lstrip` removes. */
  lemma {:induction false} LStripPad(pad: string, s: string)
    requires forall i :: 0 <= i < |pad| ==> IsSpace(pad[i])
    requires s != [] && !IsSpace(s[0])
    ensures LStrip(pad + s) == s
  {
    if pad != [] {
      assert (pad + s)[1..] == pad[1..] + s;
      LStripPad(pad[1..], s);
    }
  }

  function Prefix(s: string, p: string): bool {
    |p| <= |s| && s[..|p|] == p
  }

  function Suffix(s: string, p: string): bool {
    |p| <= |s| && s[|s| - |p|..] == p
  }

  /** `s.replace(c, '')`. */
  function Remove(s: string, c: char): (r: string)
    ensures !Contains(r, c) && |r| <= |s|
    ensures !Contains(s, c) ==> r == s
  {
    if s == [] then []
    else if s[0] == c then Remove(s[1..], c)
    else [s[0]] + Remove(s[1..], c)
  }

  // ---------------------------------------------------------------------
  // ASCII case mapping (str.lower, str.upper, str.capitalize on ASCII)

  function LowerChar(c: char): char {
    if 'A' <= c <= 'Z' then (c as int + 32) as char else c
  }

  function UpperChar(c: char): char {
    if 'a' <= c <= 'z' then (c as int - 32) as char else c
  }

  /** `s.lower()` on ASCII letters. */
  function Lower(s: string): (r: string)
    ensures |r| == |s| && forall i :: 0 <= i < |s| ==> r[i] == LowerChar(s[i])
  {
    seq(|s|, i requires 0 <= i < |s| => LowerChar(s[i]))
  }

  /** `s.capitalize()` on ASCII letters: first letter upper case, the rest lower. */
  function Capitalize(s: string): (r: string)
    ensures |r| == |s|
  {
    if s == [] then [] else [UpperChar(s[0])] + Lower(s[1..])
  }

  /** `''.join(x.capitalize() or '_' for x in name.split('_'))`: the enumeration
      class name the source derives from an upper-case tag name. */
  function ClassName(name: string): (r: string)
    ensures r != []
  {
    JoinCapitalized(Split(name, '_'))
  }

  function JoinCapitalized(pieces: seq<string>): (r: string)
    requires pieces != []
    ensures r != []
    decreases |pieces|
  {
    var head := if pieces[0] == [] then "_" else Capitalize(pieces[0]);
    if |pieces| == 1 then head else head + JoinCapitalized(pieces[1..])
  }

  // ---------------------------------------------------------------------
  // Decimal numbers: int(text) and str(int)

  predicate IsDigit(c: char) {
    '0' <= c <= '9'
  }

  function DigitValue(c: char): nat
    requires IsDigit(c)
  {
    c as int - '0' as int
  }

  function DigitChar(d: nat): (c: char)
    requires d < 10
    ensures IsDigit(c) && DigitValue(c) == d
  {
    ('0' as int + d) as char
  }

  /** Digits with single underscores between them, as `int()` accepts. */
  predicate ValidDigits(s: string) {
    s != [] && IsDigit(s[0]) && IsDigit(s[|s| - 1])
    && (forall i :: 0 <= i < |s| ==> IsDigit(s[i]) || s[i] == '_')
    && NoDoubleUnderscore(s)
  }

  predicate NoDoubleUnderscore(s: string) {
    |s| < 2 || (!(s[0] == '_' && s[1] == '_') && NoDoubleUnderscore(s[1..]))
  }

  lemma {:induction false} DigitsHaveNoUnderscore(s: string)
    requires forall i :: 0 <= i < |s| ==> IsDigit(s[i])
    ensures NoDoubleUnderscore(s)
  {
    if |s| >= 2 {
      DigitsHaveNoUnderscore(s[1..]);
    }
  }

  /** Value of a digit string, underscores skipped. */
  function DigitsValue(s: string): nat
    requires forall i :: 0 <= i < |s| ==> IsDigit(s[i]) || s[i] == '_'
  {
    if s == [] then 0
    else if s[|s| - 1] == '_' then DigitsValue(s[..|s| - 1])
    else DigitsValue(s[..|s| - 1]) * 10 + DigitValue(s[|s| - 1])
  }

  /** What `int()` accepts once the surrounding whitespace is gone: an
      optional sign, then ASCII digits with single underscores between them. */
  function ParseSigned(t: string): Option<int> {
    if t != [] && (t[0] == '-' || t[0] == '+') then
      (if ValidDigits(t[1..]) then
         Some(if t[0] == '-' then -(DigitsValue(t[1..]) as int) else DigitsValue(t[1..]))
       else None)
    else if ValidDigits(t) then Some(DigitsValue(t))
    else None
  }

  /** Python's `int(text)` for base 10: surrounding whitespace, an optional
      sign, then ASCII digits with single underscores between them. `None`
      stands for the ValueError `int()` raises. */
  function ParseInt(text: string): Option<int>
  {
    ParseSigned(Strip(text))
  }

  /** `b.strip()` of a bytes object: only ASCII whitespace counts. */
  function StripAscii(s: string): string {
    RStripAscii(LStripAscii(s))
  }

  function LStripAscii(s: string): (r: string)
    ensures |r| <= |s|
  {
    if s != [] && IsAsciiSpace(s[0]) then LStripAscii(s[1..]) else s
  }

  function RStripAscii(s: string): (r: string)
    ensures |r| <= |s|
  {
    if s != [] && IsAsciiSpace(s[|s| - 1]) then RStripAscii(s[..|s| - 1]) else s
  }

  /** Python's `int(b)` for a `bytes` or `bytearray` object: the bytes read
      one character each, then the same rules as for text except that only
      ASCII whitespace is stripped around the number. */
  function ParseIntBytes(b: seq<byte>): Option<int>
  {
    ParseSigned(StripAscii(AsChars(b)))
  }

  /** Characters on which `str.isspace()` and the whitespace test of
      `bytes` agree: ASCII, and not one of the separators 0x1C to 0x1F. */
  predicate SameSpaces(s: string) {
    forall i :: 0 <= i < |s| ==> s[i] as int < 0x80 && !('\U{001C}' <= s[i] <= '\U{001F}')
  }

  /** On bytes that are ASCII and hold no separator character, `int()` reads
      bytes exactly as it reads the same text. */
  lemma ParseIntBytesAgrees(b: seq<byte>)
    requires SameSpaces(AsChars(b))
    ensures ParseIntBytes(b) == ParseInt(AsChars(b))
  {
    var s := AsChars(b);
    LStripAgrees(s);
    RStripAgrees(LStrip(s));
  }

  lemma {:induction false} LStripAgrees(s: string)
    requires SameSpaces(s)
    ensures LStripAscii(s) == LStrip(s) && SameSpaces(LStrip(s))
  {
    if s != [] {
      assert IsSpace(s[0]) <==> IsAsciiSpace(s[0]);
      if IsSpace(s[0]) {
        LStripAgrees(s[1..]);
      }
    }
  }

  lemma {:induction false} RStripAgrees(s: string)
    requires SameSpaces(s)
    ensures RStripAscii(s) == RStrip(s)
  {
    if s != [] {
      assert IsSpace(s[|s| - 1]) <==> IsAsciiSpace(s[|s| - 1]);
      if IsSpace(s[|s| - 1]) {
        RStripAgrees(s[..|s| - 1]);
      }
    }
  }

  /** `int(str(n).encode())` is `n`: the decimal text of a number, as
      bytes, reads back as that number. */
  lemma BytesDecimalRoundTrip(n: int)
    ensures ParseIntBytes(Utf8Encode(Decimal(n))) == Some(n)
  {
    var d := Decimal(n);
    Utf8EncodeAscii(d);
    var b := Utf8Encode(d);
    assert AsChars(b) == d;
    ParseIntBytesAgrees(b);
    DecimalRoundTrip(n);
  }

  /** `str(n)` for a non-negative `n`. */
  function NatToDecimal(n: nat): (r: string)
    ensures r != [] && forall i :: 0 <= i < |r| ==> IsDigit(r[i])
  {
    if n < 10 then [DigitChar(n)] else NatToDecimal(n / 10) + [DigitChar(n % 10)]
  }

  /** `str(n)`. */
  function Decimal(n: int): (r: string)
    ensures r != [] && forall i :: 0 <= i < |r| ==> IsDigit(r[i]) || (i == 0 && r[i] == '-')
  {
    if n < 0 then "-" + NatToDecimal(-n) else NatToDecimal(n)
  }

  lemma {:induction false} NatToDecimalValue(n: nat)
    ensures ValidDigits(NatToDecimal(n)) && DigitsValue(NatToDecimal(n)) == n
  {
    var r := NatToDecimal(n);
    DigitsHaveNoUnderscore(r);
    if n >= 10 {
      NatToDecimalValue(n / 10);
      assert r[..|r| - 1] == NatToDecimal(n / 10);
    }
  }

  /** `int(str(n)) == n`. */
  lemma DecimalRoundTrip(n: int)
    ensures ParseInt(Decimal(n)) == Some(n)
  {
    var r := Decimal(n);
    NoSpaceStrip(r);
    if n < 0 {
      NatToDecimalValue(-n);
      ParseNegative(r, NatToDecimal(-n));
    } else {
      NatToDecimalValue(n);
      ParseUnsigned(r);
    }
  }

  lemma ParseNegative(r: string, d: string)
    requires r == "-" + d && Strip(r) == r && ValidDigits(d)
    ensures ParseInt(r) == Some(-(DigitsValue(d) as int))
  {
    var t := Strip(r);
    assert t[0] == '-';
    assert t[1..] == d;
  }

  lemma ParseUnsigned(r: string)
    requires Strip(r) == r && ValidDigits(r)
    ensures ParseInt(r) == Some(DigitsValue(r))
  {
  }

  lemma NoSpaceStrip(s: string)
    requires forall i :: 0 <= i < |s| ==> !IsSpace(s[i])
    ensures Strip(s) == s
  {
    assert LStrip(s) == s;
  }

  // ---------------------------------------------------------------------
  // Hexadecimal

  predicate IsHexDigit(c: char) {
    '0' <= c <= '9' || 'a' <= c <= 'f' || 'A' <= c <= 'F'
  }

  function HexValue(c: char): (v: nat)
    requires IsHexDigit(c)
    ensures v < 16
  {
    if '0' <= c <= '9' then c as int - '0' as int
    else if 'a' <= c <= 'f' then c as int - 'a' as int + 10
    else c as int - 'A' as int + 10
  }

  function HexChar(v: nat): (c: char)
    requires v < 16
    ensures IsHexDigit(c) && HexValue(c) == v
  {
    if v < 10 then ('0' as int + v) as char else ('a' as int + v - 10) as char
  }

  /** `binascii.hexlify(b)`: two lower-case hex digits per byte. */
  function Hexlify(b: seq<byte>): (r: string)
    ensures |r| == 2 * |b|
    ensures forall i :: 0 <= i < |r| ==> IsHexDigit(r[i]) && !('A' <= r[i] <= 'F')
  {
    if b == [] then [] else [HexChar(b[0] / 16), HexChar(b[0] % 16)] + Hexlify(b[1..])
  }

  /** `binascii.unhexlify(s)`: even length and hex digits only, else an error. */
  function Unhexlify(s: string): (r: Option<seq<byte>>)
    ensures r.Some? ==> 2 * |r.value| == |s|
    decreases |s|
  {
    if s == [] then Some([])
    else if |s| < 2 || !IsHexDigit(s[0]) || !IsHexDigit(s[1]) then None
    else match Unhexlify(s[2..])
      case None => None
      case Some(rest) => Some([HexValue(s[0]) * 16 + HexValue(s[1])] + rest)
  }

  /** The ASCII whitespace `bytes.fromhex` skips between byte pairs. */
  predicate IsAsciiSpace(c: char) {
    c == ' ' || c == '\t' || c == '\n' || c == '\r' || c == '\U{000B}' || c == '\U{000C}'
  }

  /** `bytes.fromhex(s)`: pairs of hex digits, ASCII whitespace allowed
      between pairs, anything else an error. */
  function FromHex(s: string): (r: Option<seq<byte>>)
    decreases |s|
  {
    if s == [] then Some([])
    else if IsAsciiSpace(s[0]) then FromHex(s[1..])
    else if |s| < 2 || !IsHexDigit(s[0]) || !IsHexDigit(s[1]) then None
    else match FromHex(s[2..])
      case None => None
      case Some(rest) => Some([HexValue(s[0]) * 16 + HexValue(s[1])] + rest)
  }

  lemma {:induction false} UnhexlifyHexlify(b: seq<byte>)
    ensures Unhexlify(Hexlify(b)) == Some(b)
  {
    if b != [] {
      var h := Hexlify(b);
      assert h[2..] == Hexlify(b[1..]);
      assert HexValue(h[0]) * 16 + HexValue(h[1]) == b[0];
      UnhexlifyHexlify(b[1..]);
      assert b == [b[0]] + b[1..];
    }
  }

  lemma {:induction false} FromHexHexlify(b: seq<byte>)
    ensures FromHex(Hexlify(b)) == Some(b)
  {
    if b != [] {
      var h := Hexlify(b);
      assert h[2..] == Hexlify(b[1..]);
      assert !IsAsciiSpace(h[0]);
      assert HexValue(h[0]) * 16 + HexValue(h[1]) == b[0];
      FromHexHexlify(b[1..]);
      assert b == [b[0]] + b[1..];
    }
  }

  /** A string of hex digits of even length: `bytes.fromhex` and
      `binascii.unhexlify` agree on it. */
  lemma {:induction false} FromHexIsUnhexlify(s: string)
    requires |s| % 2 == 0 && forall i :: 0 <= i < |s| ==> IsHexDigit(s[i])
    ensures FromHex(s) == Unhexlify(s) && FromHex(s).Some?
    decreases |s|
  {
    if s != [] {
      FromHexIsUnhexlify(s[2..]);
    }
  }

  // ---------------------------------------------------------------------
  // repr() of a byte string

  /** Text of one byte inside `repr(b)`, `quote` being the delimiter chosen. */
  function ReprByte(c: byte, quote: char): string {
    if c == quote as int || c == '\\' as int then ['\\', c as char]
    else if c == '\t' as int then "\\t"
    else if c == '\n' as int then "\\n"
    else if c == '\r' as int then "\\r"
    else if c < 0x20 || c >= 0x7f then ['\\', 'x', HexChar(c / 16), HexChar(c % 16)]
    else [c as char]
  }

  function ReprBody(b: seq<byte>, quote: char): string {
    if b == [] then [] else ReprByte(b[0], quote) + ReprBody(b[1..], quote)
  }

  /** `repr(b)` of a bytes object: `b'...'`, or `b"..."` when the bytes hold a
      single quote and no double quote. */
  function ReprBytes(b: seq<byte>): string {
    var quote := if '\'' as int in b && '"' as int !in b then '"' else '\'';
    ['b', quote] + ReprBody(b, quote) + [quote]
  }

  /** Printable ASCII other than the quote and the backslash: exactly the
      bytes `repr` shows as themselves. */
  predicate PlainByte(c: byte) {
    0x20 <= c < 0x7f && c != '\'' as int && c != '\\' as int
  }

  /** The bytes read one character each, the byte being the code point
      (what `repr` shows of bytes it shows verbatim). */
  function AsChars(b: seq<byte>): (s: string)
    ensures |s| == |b| && forall i :: 0 <= i < |b| ==> s[i] as int == b[i]
  {
    seq(|b|, i requires 0 <= i < |b| => b[i] as char)
  }

  lemma {:induction false} ReprPlain(b: seq<byte>)
    requires forall i :: 0 <= i < |b| ==> PlainByte(b[i])
    ensures ReprBytes(b) == "b'" + AsChars(b) + "'"
  {
    forall i | 0 <= i < |b| ensures b[i] != '\'' as int {
      assert PlainByte(b[i]);
    }
    ReprBodyPlain(b);
  }

  lemma {:induction false} ReprBodyPlain(b: seq<byte>)
    requires forall i :: 0 <= i < |b| ==> PlainByte(b[i])
    ensures ReprBody(b, '\'') == AsChars(b)
  {
    if b != [] {
      ReprBodyPlain(b[1..]);
      assert AsChars(b) == [b[0] as char] + AsChars(b[1..]);
    }
  }

  // ---------------------------------------------------------------------
  // UTF-8

  /** UTF-8 encoding of one Unicode scalar value. */
  function Utf8Char(c: char): (r: seq<byte>)
    ensures 1 <= |r| <= 4
  {
    var n := c as int;
    var q1 := n / 64;
    var q2 := q1 / 64;
    if n < 0x80 then [n]
    else if n < 0x800 then [0xC0 + q1, 0x80 + n % 64]
    else if n < 0x1_0000 then [0xE0 + q2, 0x80 + q1 % 64, 0x80 + n % 64]
    else [0xF0 + q2 / 64, 0x80 + q2 % 64, 0x80 + q1 % 64, 0x80 + n % 64]
  }

  /** `s.encode('utf-8')`. */
  function Utf8Encode(s: string): (r: seq<byte>)
    ensures |r| >= |s|
  {
    if s == [] then [] else Utf8Char(s[0]) + Utf8Encode(s[1..])
  }

  predicate IsCont(b: byte) {
    0x80 <= b < 0xC0
  }

  /** Length and scalar value of the well-formed UTF-8 sequence at the start
      of `b`, as Python's strict decoder accepts it (no overlong forms, no
      surrogates, nothing above U+10FFFF). */
  function Utf8Head(b: seq<byte>): (r: Option<(nat, char)>)
    ensures r.Some? ==> 1 <= r.value.0 <= |b|
  {
    if b == [] then None
    else
      var b0 := b[0] as int;
      if b0 < 0x80 then Some((1, b0 as char))
      else if 0xC2 <= b0 < 0xE0 then
        if |b| >= 2 && IsCont(b[1]) then Some((2, ((b0 - 0xC0) * 64 + (b[1] as int - 0x80)) as char))
        else None
      else if 0xE0 <= b0 < 0xF0 then
        if |b| >= 3 && IsCont(b[1]) && IsCont(b[2])
           && (b0 != 0xE0 || b[1] >= 0xA0) && (b0 != 0xED || b[1] < 0xA0)
        then Some((3, ((b0 - 0xE0) * 4096 + (b[1] as int - 0x80) * 64 + (b[2] as int - 0x80)) as char))
        else None
      else if 0xF0 <= b0 < 0xF5 then
        if |b| >= 4 && IsCont(b[1]) && IsCont(b[2]) && IsCont(b[3])
           && (b0 != 0xF0 || b[1] >= 0x90) && (b0 != 0xF4 || b[1] < 0x90)
        then Some((4, ((b0 - 0xF0) * 262144 + (b[1] as int - 0x80) * 4096
                       + (b[2] as int - 0x80) * 64 + (b[3] as int - 0x80)) as char))
        else None
      else None
  }

  /** `b.decode('utf-8')`; `None` stands for UnicodeDecodeError. */
  function Utf8Decode(b: seq<byte>): (r: Option<string>)
    decreases |b|
  {
    if b == [] then Some([])
    else match Utf8Head(b)
      case None => None
      case Some((k, c)) =>
        match Utf8Decode(b[k..])
        case None => None
        case Some(rest) => Some([c] + rest)
  }

  lemma Utf8HeadChar(c: char, rest: seq<byte>)
    ensures Utf8Head(Utf8Char(c) + rest) == Some((|Utf8Char(c)|, c))
  {
    var n := c as int;
    if n < 0x80 {
    } else if n < 0x800 {
      Utf8HeadTwo(c, rest);
    } else if n < 0x1_0000 {
      Utf8HeadThree(c, rest);
    } else {
      Utf8HeadFour(c, rest);
    }
  }

  lemma Utf8HeadTwo(c: char, rest: seq<byte>)
    requires 0x80 <= c as int < 0x800
    ensures Utf8Head(Utf8Char(c) + rest) == Some((2, c))
  {
    var n := c as int;
    var b := Utf8Char(c) + rest;
    assert b[0] as int == 0xC0 + n / 64 && b[1] as int == 0x80 + n % 64;
  }

  lemma Utf8HeadThree(c: char, rest: seq<byte>)
    requires 0x800 <= c as int < 0x1_0000
    ensures Utf8Head(Utf8Char(c) + rest) == Some((3, c))
  {
    var n := c as int;
    var q1 := n / 64;
    var q2 := q1 / 64;
    var b := Utf8Char(c) + rest;
    assert b[0] as int == 0xE0 + q2 && b[1] as int == 0x80 + q1 % 64 && b[2] as int == 0x80 + n % 64;
  }

  lemma Utf8HeadFour(c: char, rest: seq<byte>)
    requires 0x1_0000 <= c as int
    ensures Utf8Head(Utf8Char(c) + rest) == Some((4, c))
  {
    var n := c as int;
    var q1 := n / 64;
    var q2 := q1 / 64;
    var b := Utf8Char(c) + rest;
    assert b[0] as int == 0xF0 + q2 / 64 && b[1] as int == 0x80 + q2 % 64
           && b[2] as int == 0x80 + q1 % 64 && b[3] as int == 0x80 + n % 64;
  }

  /** Decoding undoes encoding: `s.encode('utf-8').decode('utf-8') == s`. */
  lemma {:induction false} Utf8RoundTrip(s: string)
    ensures Utf8Decode(Utf8Encode(s)) == Some(s)
  {
    if s != [] {
      var e := Utf8Encode(s);
      var k := |Utf8Char(s[0])|;
      assert e == Utf8Char(s[0]) + Utf8Encode(s[1..]);
      Utf8HeadChar(s[0], Utf8Encode(s[1..]));
      assert e[k..] == Utf8Encode(s[1..]);
      Utf8RoundTrip(s[1..]);
      assert s == [s[0]] + s[1..];
    }
  }

  /** ASCII text encodes to its own code points, one byte per character. */
  lemma {:induction false} Utf8EncodeAscii(s: string)
    requires forall i :: 0 <= i < |s| ==> s[i] as int < 0x80
    ensures Utf8Encode(s) == seq(|s|, i requires 0 <= i < |s| => s[i] as int)
  {
    if s != [] {
      Utf8EncodeAscii(s[1..]);
    }
  }
}
