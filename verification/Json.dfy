/** JSON values, the printer and the parser, as functions on byte strings.
    The parser's position is an index into the whole input, as in the code. */
module Json {
  import opened Bytes

  const MAX_DEPTH: nat := 200

  const QUOTE: byte := 0x22
  const BACKSLASH: byte := 0x5c
  const SLASH: byte := 0x2f
  const COMMA: byte := 0x2c
  const COLON: byte := 0x3a
  const SPACE: byte := 0x20
  const MINUS: byte := 0x2d
  const PLUS: byte := 0x2b
  const DOT: byte := 0x2e
  const OPEN_BRACKET: byte := 0x5b
  const CLOSE_BRACKET: byte := 0x5d
  const OPEN_BRACE: byte := 0x7b
  const CLOSE_BRACE: byte := 0x7d
  const ZERO: byte := 0x30
  const LETTER_B: byte := 0x62
  const LETTER_E: byte := 0x65
  const LETTER_F: byte := 0x66
  const LETTER_N: byte := 0x6e
  const LETTER_R: byte := 0x72
  const LETTER_T: byte := 0x74
  const LETTER_U: byte := 0x75
  const UPPER_E: byte := 0x45

  const NULL_TEXT: bytes := [0x6e, 0x75, 0x6c, 0x6c]
  const TRUE_TEXT: bytes := [0x74, 0x72, 0x75, 0x65]
  const FALSE_TEXT: bytes := [0x66, 0x61, 0x6c, 0x73, 0x65]

  /** An object holds its entries in key order, as the ordered map iterates them. */
  datatype Value =
    | Null
    | Int(n: int)
    | Double(d: real)
    | Bool(b: bool)
    | String(s: bytes)
    | Array(items: seq<Value>)
    | Object(entries: seq<Entry>)

  datatype Entry = Entry(key: bytes, value: Value)

  // ------------------------------------------------------------------- values

  /** The order of `std::string`: byte by byte, a prefix first. */
  predicate Less(a: bytes, b: bytes) {
    b != [] && (a == [] || a[0] < b[0] || (a[0] == b[0] && Less(a[1..], b[1..])))
  }

  lemma {:induction false} LessIsStrict(a: bytes, b: bytes)
    ensures !(Less(a, b) && Less(b, a)) && !Less(a, a)
    ensures a != b ==> Less(a, b) || Less(b, a)
  {
    if a != [] && b != [] && a[0] == b[0] {
      LessIsStrict(a[1..], b[1..]);
      assert a == [a[0]] + a[1..] && b == [b[0]] + b[1..];
    }
    if a != [] {
      LessIsStrict(a[1..], a[1..]);
    }
  }

  predicate SortedKeys(es: seq<Entry>) {
    forall i, j :: 0 <= i < j < |es| ==> Less(es[i].key, es[j].key)
  }

  /** Assignment into the ordered map. */
  function Insert(es: seq<Entry>, e: Entry): (r: seq<Entry>)
    ensures e in r
  {
    if es == [] then [e]
    else if Less(e.key, es[0].key) then [e] + es
    else if Less(es[0].key, e.key) then [es[0]] + Insert(es[1..], e)
    else [e] + es[1..]
  }

  lemma {:induction false} InsertLast(es: seq<Entry>, e: Entry)
    requires forall i :: 0 <= i < |es| ==> Less(es[i].key, e.key)
    ensures Insert(es, e) == es + [e]
  {
    if es != [] {
      LessIsStrict(es[0].key, e.key);
      InsertLast(es[1..], e);
    }
  }

  /** A value the printer round-trips: 32-bit integers, no floating-point numbers,
      object entries in strict key order. */
  predicate Printable(v: Value) {
    match v
    case Int(n) => -0x8000_0000 <= n < 0x8000_0000
    case Double(_) => false
    case Array(items) => forall i :: 0 <= i < |items| ==> Printable(items[i])
    case Object(es) => SortedKeys(es) && forall i :: 0 <= i < |es| ==> Printable(es[i].value)
    case _ => true
  }

  // ------------------------------------------------------------------ printing

  function Digit(d: nat): byte
    requires d < 10
  {
    ZERO + d
  }

  function Decimal(n: nat): (t: bytes)
    ensures |t| > 0
    ensures forall k :: 0 <= k < |t| ==> ZERO <= t[k] <= ZERO + 9
    ensures t[0] == ZERO ==> |t| == 1
    decreases n
  {
    if n < 10 then [Digit(n)] else Decimal(n / 10) + [Digit(n % 10)]
  }

  function DumpInt(n: int): (t: bytes)
    ensures |t| > 0
  {
    if n < 0 then [MINUS] + Decimal(-n) else Decimal(n)
  }

  function HexDigit(d: nat): byte
    requires d < 16
  {
    if d < 10 then ZERO + d else 0x61 + d - 10
  }

  /** The text of one step of the printer, and how many bytes of the value it consumes. */
  function EscapeOne(s: bytes, i: nat): (r: (bytes, nat))
    requires i < |s|
    ensures 1 <= r.1 && i + r.1 <= |s|
  {
    var ch := s[i];
    if ch == BACKSLASH then ([BACKSLASH, BACKSLASH], 1)
    else if ch == QUOTE then ([BACKSLASH, QUOTE], 1)
    else if ch == 0x08 then ([BACKSLASH, LETTER_B], 1)
    else if ch == 0x0c then ([BACKSLASH, LETTER_F], 1)
    else if ch == 0x0a then ([BACKSLASH, LETTER_N], 1)
    else if ch == 0x0d then ([BACKSLASH, LETTER_R], 1)
    else if ch == 0x09 then ([BACKSLASH, LETTER_T], 1)
    else if ch <= 0x1f then ([BACKSLASH, LETTER_U, ZERO, ZERO, HexDigit(ch / 16), HexDigit(ch % 16)], 1)
    else if ch == 0xe2 && i + 2 < |s| && s[i + 1] == 0x80 && s[i + 2] == 0xa8 then
      ([BACKSLASH, LETTER_U, 0x32, 0x30, 0x32, 0x38], 3)
    else if ch == 0xe2 && i + 2 < |s| && s[i + 1] == 0x80 && s[i + 2] == 0xa9 then
      ([BACKSLASH, LETTER_U, 0x32, 0x30, 0x32, 0x39], 3)
    else ([ch], 1)
  }

  function EscapeFrom(s: bytes, i: nat): bytes
    requires i <= |s|
    decreases |s| - i
  {
    if i == |s| then [] else
      var (text, used) := EscapeOne(s, i);
      text + EscapeFrom(s, i + used)
  }

  function DumpString(s: bytes): (t: bytes)
    ensures |t| > 0 && t[0] == QUOTE
  {
    [QUOTE] + EscapeFrom(s, 0) + [QUOTE]
  }

  function Dump(v: Value): (t: bytes)
    requires Printable(v)
    ensures |t| > 0 && !IsSpace(t[0]) && t[0] != CLOSE_BRACKET
    decreases v, 0
  {
    match v
    case Null => NULL_TEXT
    case Int(n) => DumpInt(n)
    case Bool(b) => if b then TRUE_TEXT else FALSE_TEXT
    case String(s) => DumpString(s)
    case Array(items) => [OPEN_BRACKET] + DumpItems(items) + [CLOSE_BRACKET]
    case Object(es) => [OPEN_BRACE] + DumpEntries(es) + [CLOSE_BRACE]
  }

  function DumpItems(items: seq<Value>): (t: bytes)
    requires forall i :: 0 <= i < |items| ==> Printable(items[i])
    ensures items != [] ==> |t| > 0 && !IsSpace(t[0]) && t[0] != CLOSE_BRACKET
    decreases items, 1
  {
    if items == [] then []
    else if |items| == 1 then Dump(items[0])
    else Dump(items[0]) + [COMMA, SPACE] + DumpItems(items[1..])
  }

  function DumpEntry(e: Entry): (t: bytes)
    requires Printable(e.value)
    ensures |t| > 0 && t[0] == QUOTE
    decreases e, 1
  {
    DumpString(e.key) + [COLON, SPACE] + Dump(e.value)
  }

  function DumpEntries(es: seq<Entry>): (t: bytes)
    requires forall i :: 0 <= i < |es| ==> Printable(es[i].value)
    ensures es != [] ==> |t| > 0 && t[0] == QUOTE
    decreases es, 2
  {
    if es == [] then []
    else if |es| == 1 then DumpEntry(es[0])
    else DumpEntry(es[0]) + [COMMA, SPACE] + DumpEntries(es[1..])
  }

  // ------------------------------------------------------------------- parsing

  datatype ParseError =
    | UnexpectedEnd
    | EndInString
    | UnescapedControl
    | BadUnicodeEscape
    | InvalidEscape
    | LeadingZero
    | InvalidNumber
    | NoFractionDigit
    | NoExponentDigit
    | WrongLiteral
    | TooDeep
    | ExpectedQuote
    | ExpectedColon
    | ExpectedCommaInObject
    | ExpectedCommaInList
    | ExpectedValue
    | TrailingText

  datatype Parsed<T> = Ok(value: T, next: nat) | Fail(error: ParseError)

  /** Reading past the end yields the terminating NUL of `std::string`. */
  function At(s: bytes, i: nat): byte {
    if i < |s| then s[i] else 0
  }

  predicate IsSpace(c: byte) {
    c == SPACE || c == 0x0d || c == 0x0a || c == 0x09
  }

  function SkipSpace(s: bytes, i: nat): (j: nat)
    requires i <= |s|
    ensures i <= j <= |s|
    ensures !IsSpace(At(s, j))
    ensures forall k :: i <= k < j ==> IsSpace(s[k])
    decreases |s| - i
  {
    if IsSpace(At(s, i)) then SkipSpace(s, i + 1) else i
  }

  function NextToken(s: bytes, i: nat): (r: Parsed<byte>)
    requires i <= |s|
    ensures r.Ok? ==> i < r.next <= |s| && r.value == s[r.next - 1] && !IsSpace(r.value)
    ensures r.Fail? ==> r.error == UnexpectedEnd
  {
    var j := SkipSpace(s, i);
    if j == |s| then Fail(UnexpectedEnd) else Ok(s[j], j + 1)
  }

  /** The bytes appended for one code point; a negative one appends nothing. */
  function EncodeUtf8(pt: int): bytes
    requires pt < 0x110000
  {
    if pt < 0 then []
    else if pt < 0x80 then [pt]
    else if pt < 0x800 then [pt / 64 + 0xC0, pt % 64 + 0x80]
    else if pt < 0x10000 then [pt / 4096 + 0xE0, pt / 64 % 64 + 0x80, pt % 64 + 0x80]
    else [pt / 262144 + 0xF0, pt / 4096 % 64 + 0x80, pt / 64 % 64 + 0x80, pt % 64 + 0x80]
  }

  predicate IsDigit(c: byte) { ZERO <= c <= ZERO + 9 }

  function DigitOf(c: byte): (d: nat)
    requires IsDigit(c)
    ensures d < 10 && c == Digit(d)
  {
    c - ZERO
  }

  predicate IsHex(c: byte) {
    IsDigit(c) || 0x61 <= c <= 0x66 || 0x41 <= c <= 0x46
  }

  function HexValue(c: byte): (d: nat)
    requires IsHex(c)
    ensures d < 16
  {
    if IsDigit(c) then c - ZERO else if c >= 0x61 then c - 0x61 + 10 else c - 0x41 + 10
  }

  predicate FourHex(s: bytes, i: nat) {
    i + 4 <= |s| && IsHex(s[i]) && IsHex(s[i + 1]) && IsHex(s[i + 2]) && IsHex(s[i + 3])
  }

  function CodePoint(s: bytes, i: nat): (pt: nat)
    requires FourHex(s, i)
    ensures pt < 0x10000
  {
    ((HexValue(s[i]) * 16 + HexValue(s[i + 1])) * 16 + HexValue(s[i + 2])) * 16 + HexValue(s[i + 3])
  }

  /** The letter after a backslash, other than `u`. */
  function Unescape(c: byte): (r: bytes)
    ensures |r| <= 1
  {
    if c == LETTER_B then [0x08]
    else if c == LETTER_F then [0x0c]
    else if c == LETTER_N then [0x0a]
    else if c == LETTER_R then [0x0d]
    else if c == LETTER_T then [0x09]
    else if c == QUOTE || c == BACKSLASH || c == SLASH then [c]
    else []
  }

  datatype StringStep =
    | Finished(text: bytes, end: nat)
    | Broken(error: ParseError)
    | Going(next: nat, last: int, out: bytes)

  /** One turn of the string loop.  `last` is the pending escaped code point, or -1: it is
      held back because it may be the first half of a surrogate pair. */
  function StepString(s: bytes, i: nat, last: int, out: bytes): (r: StringStep)
    requires i <= |s| && last < 0x10000
    ensures r.Finished? ==> i < r.end <= |s|
    ensures r.Going? ==> i < r.next <= |s| && r.last < 0x10000
  {
    if i == |s| then Broken(EndInString) else
      var ch := s[i];
      if ch == QUOTE then Finished(out + EncodeUtf8(last), i + 1)
      else if ch <= 0x1f then Broken(UnescapedControl)
      else if ch != BACKSLASH then Going(i + 1, -1, out + EncodeUtf8(last) + [ch])
      else if i + 1 == |s| then Broken(EndInString)
      else if s[i + 1] == LETTER_U then
        if !FourHex(s, i + 2) then Broken(BadUnicodeEscape) else
          var pt := CodePoint(s, i + 2);
          if 0xD800 <= last <= 0xDBFF && 0xDC00 <= pt <= 0xDFFF then
            Going(i + 6, -1, out + EncodeUtf8((last - 0xD800) * 1024 + (pt - 0xDC00) + 0x10000))
          else
            Going(i + 6, pt, out + EncodeUtf8(last))
      else if Unescape(s[i + 1]) == [] then Broken(InvalidEscape)
      else Going(i + 2, -1, out + EncodeUtf8(last) + Unescape(s[i + 1]))
  }

  function ParseString(s: bytes, i: nat, last: int, out: bytes): (r: Parsed<bytes>)
    requires i <= |s| && last < 0x10000
    ensures r.Ok? ==> i < r.next <= |s|
    decreases |s| - i
  {
    match StepString(s, i, last, out)
    case Finished(text, end) => Ok(text, end)
    case Broken(e) => Fail(e)
    case Going(next, last', out') => ParseString(s, next, last', out')
  }

  /** The end of a run of digits. */
  function DigitsEnd(s: bytes, i: nat): (j: nat)
    requires i <= |s|
    ensures i <= j <= |s|
    ensures forall k :: i <= k < j ==> IsDigit(s[k])
    ensures !IsDigit(At(s, j))
    decreases |s| - i
  {
    if IsDigit(At(s, i)) then DigitsEnd(s, i + 1) else i
  }

  function DigitsValue(s: bytes, i: nat, j: nat): nat
    requires i <= j <= |s| && forall k :: i <= k < j ==> IsDigit(s[k])
    decreases j - i
  {
    if i == j then 0 else 10 * DigitsValue(s, i, j - 1) + DigitOf(s[j - 1])
  }

  function Pow10(k: nat): (r: real)
    ensures r > 0.0
  {
    if k == 0 then 1.0 else 10.0 * Pow10(k - 1)
  }

  function Signed(negative: bool, n: nat): int {
    if negative then 0 - n else n
  }

  /** The exact decimal value of a number text; rounding to a double is not modelled. */
  function DecimalValue(negative: bool, mantissa: nat, fraction: nat, exponent: int): real {
    Signed(negative, mantissa) as real
    * (if exponent >= 0 then Pow10(exponent) else 1.0 / Pow10(-exponent)) / Pow10(fraction)
  }

  /** A number text that is not kept as an integer: optional fraction and exponent. */
  function ParseFraction(s: bytes, digits: nat, i: nat, negative: bool): (r: Parsed<Value>)
    requires digits <= i <= |s| && forall k :: digits <= k < i ==> IsDigit(s[k])
    ensures r.Ok? ==> i <= r.next <= |s|
  {
    var whole := DigitsValue(s, digits, i);
    if At(s, i) == DOT then
      var j := DigitsEnd(s, i + 1);
      if j == i + 1 then Fail(NoFractionDigit)
      else ParseExponent(s, j, negative, DigitsShift(whole, s, i + 1, j), j - (i + 1))
    else ParseExponent(s, i, negative, whole, 0)
  }

  /** The digits `s[i..j]` appended to the number `n`. */
  function DigitsShift(n: nat, s: bytes, i: nat, j: nat): nat
    requires i <= j <= |s| && forall k :: i <= k < j ==> IsDigit(s[k])
    decreases j - i
  {
    if i == j then n else 10 * DigitsShift(n, s, i, j - 1) + DigitOf(s[j - 1])
  }

  function ParseExponent(s: bytes, i: nat, negative: bool, mantissa: nat, fraction: nat): (r: Parsed<Value>)
    requires i <= |s|
    ensures r.Ok? ==> i <= r.next <= |s|
  {
    if At(s, i) == LETTER_E || At(s, i) == UPPER_E then
      var k := if At(s, i + 1) == PLUS || At(s, i + 1) == MINUS then i + 2 else i + 1;
      var j := DigitsEnd(s, k);
      if j == k then Fail(NoExponentDigit)
      else Ok(Double(DecimalValue(negative, mantissa, fraction,
                                  Signed(At(s, i + 1) == MINUS, DigitsValue(s, k, j)))), j)
    else Ok(Double(DecimalValue(negative, mantissa, fraction, 0)), i)
  }

  /** Texts of at most 9 characters, sign included, without fraction or exponent stay integers. */
  function ParseNumber(s: bytes, start: nat): (r: Parsed<Value>)
    requires start < |s|
    ensures r.Ok? ==> start < r.next <= |s|
  {
    var negative := s[start] == MINUS;
    var digits := if negative then start + 1 else start;
    if At(s, digits) == ZERO && IsDigit(At(s, digits + 1)) then Fail(LeadingZero)
    else if !IsDigit(At(s, digits)) then Fail(InvalidNumber)
    else
      var i := if At(s, digits) == ZERO then digits + 1 else DigitsEnd(s, digits + 1);
      if At(s, i) != DOT && At(s, i) != LETTER_E && At(s, i) != UPPER_E && i - start <= 9 then
        Ok(Int(Signed(negative, DigitsValue(s, digits, i))), i)
      else
        ParseFraction(s, digits, i, negative)
  }

  function Expect(s: bytes, i: nat, text: bytes, v: Value): (r: Parsed<Value>)
    requires i < |s| && |text| > 0
    ensures r.Ok? ==> i < r.next <= |s|
  {
    if i + |text| <= |s| && s[i..i + |text|] == text then Ok(v, i + |text|) else Fail(WrongLiteral)
  }

  function ParseValue(s: bytes, i: nat, depth: nat): (r: Parsed<Value>)
    requires i <= |s|
    ensures r.Ok? ==> i < r.next <= |s|
    decreases |s| - i, 0
  {
    if depth > MAX_DEPTH then Fail(TooDeep) else
      match NextToken(s, i)
      case Fail(e) => Fail(e)
      case Ok(ch, j) =>
        if ch == MINUS || IsDigit(ch) then ParseNumber(s, j - 1)
        else if ch == LETTER_T then Expect(s, j - 1, TRUE_TEXT, Bool(true))
        else if ch == LETTER_F then Expect(s, j - 1, FALSE_TEXT, Bool(false))
        else if ch == LETTER_N then Expect(s, j - 1, NULL_TEXT, Null)
        else if ch == QUOTE then
          (match ParseString(s, j, -1, [])
           case Fail(e) => Fail(e)
           case Ok(text, k) => Ok(String(text), k))
        else if ch == OPEN_BRACE then ParseObject(s, j, depth)
        else if ch == OPEN_BRACKET then ParseArray(s, j, depth)
        else Fail(ExpectedValue)
  }

  function ParseObject(s: bytes, i: nat, depth: nat): (r: Parsed<Value>)
    requires i <= |s|
    ensures r.Ok? ==> i < r.next <= |s|
    decreases |s| - i, 4
  {
    match NextToken(s, i)
    case Fail(e) => Fail(e)
    case Ok(c, k) => if c == CLOSE_BRACE then Ok(Object([]), k) else ParseEntries(s, k - 1, depth + 1, [])
  }

  function ParseArray(s: bytes, i: nat, depth: nat): (r: Parsed<Value>)
    requires i <= |s|
    ensures r.Ok? ==> i < r.next <= |s|
    decreases |s| - i, 4
  {
    match NextToken(s, i)
    case Fail(e) => Fail(e)
    case Ok(c, k) => if c == CLOSE_BRACKET then Ok(Array([]), k) else ParseItems(s, k - 1, depth + 1, [])
  }

  /** What follows an element: the closing token, or a comma and where the next element starts. */
  datatype Following = Closed(end: nat) | More(start: nat) | Bad(error: ParseError)

  function AfterElement(s: bytes, i: nat, close: byte): (r: Following)
    requires i <= |s|
    ensures r.Closed? ==> i < r.end <= |s|
    ensures r.More? ==> i < r.start < |s|
  {
    match NextToken(s, i)
    case Fail(e) => Bad(e)
    case Ok(c, k) =>
      if c == close then Closed(k)
      else if c != COMMA then Bad(if close == CLOSE_BRACE then ExpectedCommaInObject else ExpectedCommaInList)
      else
        match NextToken(s, k)
        case Fail(e) => Bad(e)
        case Ok(_, m) => More(m - 1)
  }

  /** One turn of an element loop: the element and what follows it. */
  datatype Turn<T> = Last(value: T, end: nat) | Next(value: T, start: nat) | Stop(error: ParseError)

  function StepItem(s: bytes, i: nat, depth: nat): (r: Turn<Value>)
    requires i <= |s|
    ensures r.Last? ==> i < r.end <= |s|
    ensures r.Next? ==> i < r.start < |s|
    decreases |s| - i, 1
  {
    match ParseValue(s, i, depth)
    case Fail(e) => Stop(e)
    case Ok(v, j) =>
      match AfterElement(s, j, CLOSE_BRACKET)
      case Bad(e) => Stop(e)
      case Closed(k) => Last(v, k)
      case More(k) => Next(v, k)
  }

  /** The rest of a list whose next item starts at `i`. */
  function ParseItems(s: bytes, i: nat, depth: nat, items: seq<Value>): (r: Parsed<Value>)
    requires i <= |s|
    ensures r.Ok? ==> i < r.next <= |s|
    decreases |s| - i, 2
  {
    match StepItem(s, i, depth)
    case Stop(e) => Fail(e)
    case Last(v, end) => Ok(Array(items + [v]), end)
    case Next(v, start) => ParseItems(s, start, depth, items + [v])
  }

  /** One key, a colon and a value, the key starting at `i`. */
  function ParseEntry(s: bytes, i: nat, depth: nat): (r: Parsed<Entry>)
    requires i < |s|
    ensures r.Ok? ==> i < r.next <= |s|
    decreases |s| - i, 1
  {
    if s[i] != QUOTE then Fail(ExpectedQuote) else
      match ParseString(s, i + 1, -1, [])
      case Fail(e) => Fail(e)
      case Ok(key, j) =>
        match NextToken(s, j)
        case Fail(e) => Fail(e)
        case Ok(c, k) =>
          if c != COLON then Fail(ExpectedColon) else
            match ParseValue(s, k, depth)
            case Fail(e) => Fail(e)
            case Ok(v, m) => Ok(Entry(key, v), m)
  }

  function StepEntry(s: bytes, i: nat, depth: nat): (r: Turn<Entry>)
    requires i < |s|
    ensures r.Last? ==> i < r.end <= |s|
    ensures r.Next? ==> i < r.start < |s|
    decreases |s| - i, 2
  {
    match ParseEntry(s, i, depth)
    case Fail(e) => Stop(e)
    case Ok(entry, j) =>
      match AfterElement(s, j, CLOSE_BRACE)
      case Bad(e) => Stop(e)
      case Closed(k) => Last(entry, k)
      case More(k) => Next(entry, k)
  }

  /** The rest of an object whose next key starts at `i`. */
  function ParseEntries(s: bytes, i: nat, depth: nat, es: seq<Entry>): (r: Parsed<Value>)
    requires i < |s|
    ensures r.Ok? ==> i < r.next <= |s|
    decreases |s| - i, 3
  {
    match StepEntry(s, i, depth)
    case Stop(e) => Fail(e)
    case Last(entry, end) => Ok(Object(Insert(es, entry)), end)
    case Next(entry, start) => ParseEntries(s, start, depth, Insert(es, entry))
  }

  datatype Document = Document(value: Value) | Rejected(error: ParseError)

  function Parse(s: bytes): Document {
    match ParseValue(s, 0, 0)
    case Fail(e) => Rejected(e)
    case Ok(v, i) => if SkipSpace(s, i) == |s| then Document(v) else Rejected(TrailingText)
  }
}
