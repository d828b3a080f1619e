/** Parsing what the printer wrote gives back the value, for every printable value
    nested at most 200 deep, and is refused for every deeper one. */
module JsonRoundTrip {
  import opened Bytes
  import opened Json

  /** Equality of values as the code's `operator==` has it: numbers compare by value. */
  ghost predicate Equal(a: Value, b: Value)
    decreases a
  {
    match (a, b)
    case (Int(m), Int(n)) => m == n
    case (Int(m), Double(d)) => m as real == d
    case (Double(d), Int(n)) => d == n as real
    case (Array(xs), Array(ys)) => |xs| == |ys| && forall i :: 0 <= i < |xs| ==> Equal(xs[i], ys[i])
    case (Object(xs), Object(ys)) =>
      |xs| == |ys| && forall i :: 0 <= i < |xs| ==> xs[i].key == ys[i].key && Equal(xs[i].value, ys[i].value)
    case _ => a == b
  }

  /** What reading back gives: integers whose text is longer than 9 characters come back
      as floating-point numbers of the same value. */
  function Reread(v: Value): Value
    decreases v, 0
  {
    match v
    case Int(n) => if |DumpInt(n)| <= 9 then Int(n) else Double(n as real)
    case Array(items) => Array(RereadItems(items))
    case Object(es) => Object(RereadEntries(es))
    case _ => v
  }

  function RereadItems(items: seq<Value>): (r: seq<Value>)
    ensures |r| == |items|
    decreases items, 1
  {
    if items == [] then [] else [Reread(items[0])] + RereadItems(items[1..])
  }

  function RereadEntries(es: seq<Entry>): (r: seq<Entry>)
    ensures |r| == |es|
    decreases es, 1
  {
    if es == [] then [] else [Entry(es[0].key, Reread(es[0].value))] + RereadEntries(es[1..])
  }

  lemma {:induction false} RereadIsEqual(v: Value)
    ensures Equal(v, Reread(v))
    decreases v, 0
  {
    match v
    case Array(items) => RereadItemsEqual(items);
    case Object(es) => RereadEntriesEqual(es);
    case _ =>
  }

  lemma {:induction false} RereadItemsEqual(items: seq<Value>)
    ensures forall i :: 0 <= i < |items| ==> Equal(items[i], RereadItems(items)[i])
    decreases items, 1
  {
    if items != [] {
      RereadIsEqual(items[0]);
      RereadItemsEqual(items[1..]);
    }
  }

  lemma {:induction false} RereadEntriesEqual(es: seq<Entry>)
    ensures forall i :: 0 <= i < |es| ==>
      es[i].key == RereadEntries(es)[i].key && Equal(es[i].value, RereadEntries(es)[i].value)
    decreases es, 1
  {
    if es != [] {
      RereadIsEqual(es[0].value);
      RereadEntriesEqual(es[1..]);
    }
  }

  /** `v`, met at nesting depth `depth`, stays within the parser's limit. */
  predicate Fits(v: Value, depth: nat)
    decreases v
  {
    depth <= MAX_DEPTH &&
    match v
    case Array(items) => forall i :: 0 <= i < |items| ==> Fits(items[i], depth + 1)
    case Object(es) => forall i :: 0 <= i < |es| ==> Fits(es[i].value, depth + 1)
    case _ => true
  }

  // ------------------------------------------------------------------- numbers

  lemma {:induction false} DigitsEndIs(s: bytes, i: nat, j: nat)
    requires i <= j <= |s| && !IsDigit(At(s, j))
    requires forall k :: i <= k < j ==> IsDigit(s[k])
    ensures DigitsEnd(s, i) == j
    decreases j - i
  {
    if i < j {
      DigitsEndIs(s, i + 1, j);
    }
  }

  lemma {:induction false} DecimalReadsBack(n: nat, s: bytes, i: nat)
    requires Occurs(Decimal(n), s, i)
    ensures forall k :: i <= k < i + |Decimal(n)| ==> IsDigit(s[k])
    ensures DigitsValue(s, i, i + |Decimal(n)|) == n
    ensures s[i] == ZERO <==> n == 0
  {
    var t := Decimal(n);
    forall k | i <= k < i + |t| ensures IsDigit(s[k]) {
      OccursAt(t, s, i, k - i);
    }
    if n >= 10 {
      OccursSplit(Decimal(n / 10), [Digit(n % 10)], s, i);
      DecimalReadsBack(n / 10, s, i);
      OccursAt(t, s, i, |t| - 1);
    } else {
      OccursAt(t, s, i, 0);
      assert DigitsValue(s, i, i) == 0;
    }
  }

  /** The character after a number does not continue it. */
  predicate Ends(s: bytes, j: nat) {
    !IsDigit(At(s, j)) && At(s, j) != DOT && At(s, j) != LETTER_E && At(s, j) != UPPER_E
  }

  /** The parser on a run of digits with an optional sign, ended by something else. */
  lemma NumberAt(s: bytes, start: nat, digits: nat, end: nat, negative: bool)
    requires start <= digits < end <= |s| && digits == (if negative then start + 1 else start)
    requires negative <==> s[start] == MINUS
    requires forall k :: digits <= k < end ==> IsDigit(s[k])
    requires s[digits] == ZERO ==> end == digits + 1
    requires Ends(s, end)
    ensures ParseNumber(s, start) ==
            var n := Signed(negative, DigitsValue(s, digits, end));
            Ok(if end - start <= 9 then Int(n) else Double(n as real), end)
  {
    hide DecimalValue, DigitsValue, Pow10;
    if s[digits] != ZERO {
      DigitsEndIs(s, digits + 1, end);
    }
    WholeNumber(negative, DigitsValue(s, digits, end));
  }

  lemma WholeNumber(negative: bool, n: nat)
    ensures DecimalValue(negative, n, 0, 0) == Signed(negative, n) as real
  {
    assert Pow10(0) == 1.0;
  }

  lemma {:induction false} UnsignedNumber(n: nat, s: bytes, i: nat, start: nat)
    requires Occurs(Decimal(n), s, i) && Ends(s, i + |Decimal(n)|)
    requires start <= i && (start < i ==> start + 1 == i && s[start] == MINUS)
    ensures ParseNumber(s, start) ==
            var m, end := Signed(start < i, n), i + |Decimal(n)|;
            Ok(if end - start <= 9 then Int(m) else Double(m as real), end)
  {
    DecimalReadsBack(n, s, i);
    NumberAt(s, start, i, i + |Decimal(n)|, start < i);
  }

  lemma NumberRoundTrip(n: int, s: bytes, i: nat)
    requires Occurs(DumpInt(n), s, i) && Ends(s, i + |DumpInt(n)|)
    ensures ParseNumber(s, i) == Ok(Reread(Int(n)), i + |DumpInt(n)|)
  {
    if n < 0 {
      OccursSplit([MINUS], Decimal(-n), s, i);
      OccursAt([MINUS], s, i, 0);
      UnsignedNumber(-n, s, i + 1, i);
    } else {
      UnsignedNumber(n, s, i, i);
    }
  }

  // ------------------------------------------------------------------- strings

  /** The code points the printer escapes flush to the bytes it consumed. */
  lemma EscapedCodePoints(ch: byte)
    ensures ch <= 0x1f ==> EncodeUtf8(ch) == [ch]
    ensures EncodeUtf8(0x2028) == [0xe2, 0x80, 0xa8] && EncodeUtf8(0x2029) == [0xe2, 0x80, 0xa9]
  {
  }

  /** A pending code point that cannot be the first half of a surrogate pair. */
  predicate Plain(last: int) { last < 0xD800 }

  lemma HexReadsBack(d: nat)
    requires d < 16
    ensures IsHex(HexDigit(d)) && HexValue(HexDigit(d)) == d
  {
  }

  /** What one turn of the parser's loop must do to undo one step of the printer. */
  ghost predicate Undone(str: bytes, k: nat, s: bytes, i: nat, last: int, out: bytes)
    requires k < |str| && i <= |s| && Plain(last)
  {
    var (r, e) := (StepString(s, i, last, out), EscapeOne(str, k));
    && r.Going? && r.next == i + |e.0|
    && Plain(r.last) && r.out + EncodeUtf8(r.last) == str[..k + e.1]
  }

  lemma UnicodeStep(s: bytes, i: nat, last: int, out: bytes)
    requires i + 6 <= |s| && s[i] == BACKSLASH && s[i + 1] == LETTER_U && FourHex(s, i + 2)
    requires Plain(last)
    ensures StepString(s, i, last, out) == Going(i + 6, CodePoint(s, i + 2), out + EncodeUtf8(last))
  {
  }

  lemma ControlEscape(str: bytes, k: nat, s: bytes, i: nat, last: int, out: bytes)
    requires k < |str| && Occurs(EscapeOne(str, k).0, s, i) && Plain(last)
    requires out + EncodeUtf8(last) == str[..k]
    requires |EscapeOne(str, k).0| == 6 && EscapeOne(str, k).1 == 1
    ensures i + 6 <= |s| && Undone(str, k, s, i, last, out)
  {
    var text, ch := EscapeOne(str, k).0, str[k];
    forall j | 0 <= j < 6 ensures s[i + j] == text[j] { OccursAt(text, s, i, j); }
    HexReadsBack(ch / 16);
    HexReadsBack(ch % 16);
    assert text == [BACKSLASH, LETTER_U, ZERO, ZERO, HexDigit(ch / 16), HexDigit(ch % 16)];
    assert s[i + 4] == text[4] && s[i + 5] == text[5];
    assert CodePoint(s, i + 2) == ch;
    UnicodeStep(s, i, last, out);
    EscapedCodePoints(ch);
    assert str[..k + 1] == str[..k] + [ch];
  }

  lemma LineSeparatorEscape(str: bytes, k: nat, s: bytes, i: nat, last: int, out: bytes)
    requires k < |str| && Occurs(EscapeOne(str, k).0, s, i) && Plain(last)
    requires out + EncodeUtf8(last) == str[..k]
    requires EscapeOne(str, k).1 == 3
    ensures i + 6 <= |s| && Undone(str, k, s, i, last, out)
  {
    var text := EscapeOne(str, k).0;
    assert text == [BACKSLASH, LETTER_U, 0x32, 0x30, 0x32, if str[k + 2] == 0xa8 then 0x38 else 0x39];
    forall j | 0 <= j < 6 ensures s[i + j] == text[j] { OccursAt(text, s, i, j); }
    assert s[i + 2] == text[2] && s[i + 3] == text[3] && s[i + 4] == text[4] && s[i + 5] == text[5];
    assert CodePoint(s, i + 2) == if str[k + 2] == 0xa8 then 0x2028 else 0x2029;
    UnicodeStep(s, i, last, out);
    EscapedCodePoints(0);
    assert str[..k + 3] == str[..k] + [0xe2, 0x80, str[k + 2]];
  }

  lemma ShortEscape(str: bytes, k: nat, s: bytes, i: nat, last: int, out: bytes)
    requires k < |str| && Occurs(EscapeOne(str, k).0, s, i) && Plain(last)
    requires out + EncodeUtf8(last) == str[..k]
    requires |EscapeOne(str, k).0| <= 2
    ensures i + |EscapeOne(str, k).0| <= |s| && Undone(str, k, s, i, last, out)
  {
    var text, ch := EscapeOne(str, k).0, str[k];
    forall j | 0 <= j < |text| ensures s[i + j] == text[j] { OccursAt(text, s, i, j); }
    assert str[..k + 1] == str[..k] + [ch];
    if |text| == 2 {
      assert s[i + 1] == text[1];
      assert Unescape(text[1]) == [ch];
    }
  }

  /** One step of the printer is undone by one turn of the parser's loop. */
  lemma EscapeStep(str: bytes, k: nat, s: bytes, i: nat, last: int, out: bytes)
    requires k < |str| && Occurs(EscapeOne(str, k).0, s, i) && Plain(last)
    requires out + EncodeUtf8(last) == str[..k]
    ensures i + |EscapeOne(str, k).0| <= |s| && Undone(str, k, s, i, last, out)
  {
    if EscapeOne(str, k).1 == 3 {
      LineSeparatorEscape(str, k, s, i, last, out);
    } else if |EscapeOne(str, k).0| == 6 {
      ControlEscape(str, k, s, i, last, out);
    } else {
      ShortEscape(str, k, s, i, last, out);
    }
  }

  lemma StringTurn(s: bytes, i: nat, last: int, out: bytes)
    requires i <= |s| && last < 0x10000
    ensures var r := StepString(s, i, last, out);
            && (r.Going? ==> ParseString(s, i, last, out) == ParseString(s, r.next, r.last, r.out))
            && (r.Finished? ==> ParseString(s, i, last, out) == Ok(r.text, r.end))
  {
    hide StepString;
  }

  lemma QuoteEnds(s: bytes, i: nat, last: int, out: bytes)
    requires i < |s| && s[i] == QUOTE && last < 0x10000
    ensures StepString(s, i, last, out) == Finished(out + EncodeUtf8(last), i + 1)
  {
  }

  lemma {:induction false} StringRoundTripFrom(str: bytes, k: nat, s: bytes, i: nat, last: int, out: bytes)
    requires k <= |str| && Occurs(EscapeFrom(str, k), s, i) && Plain(last)
    requires At(s, i + |EscapeFrom(str, k)|) == QUOTE
    requires out + EncodeUtf8(last) == str[..k]
    ensures ParseString(s, i, last, out) == Ok(str, i + |EscapeFrom(str, k)| + 1)
    decreases |str| - k
  {
    hide StepString, EscapeOne, EncodeUtf8;
    StringTurn(s, i, last, out);
    if k == |str| {
      assert str[..k] == str;
      QuoteEnds(s, i, last, out);
    } else {
      var (text, used) := EscapeOne(str, k);
      OccursSplit(text, EscapeFrom(str, k + used), s, i);
      EscapeStep(str, k, s, i, last, out);
      var r := StepString(s, i, last, out);
      StringRoundTripFrom(str, k + used, s, r.next, r.last, r.out);
    }
  }

  lemma QuotedParts(str: bytes, s: bytes, i: nat)
    requires Occurs(DumpString(str), s, i)
    ensures var body := EscapeFrom(str, 0);
            && |DumpString(str)| == |body| + 2 && i < |s| && s[i] == QUOTE
            && Occurs(body, s, i + 1) && At(s, i + 1 + |body|) == QUOTE
  {
    hide EscapeFrom;
    var body := EscapeFrom(str, 0);
    assert DumpString(str) == [QUOTE] + (body + [QUOTE]);
    SplitThree([QUOTE], body, [QUOTE], s, i);
    OccursAt([QUOTE], s, i, 0);
    OccursAt([QUOTE], s, i + 1 + |body|, 0);
  }

  /** Every byte string comes back from its quoted form: control escapes, U+2028, U+2029
      and the pending code point included. */
  lemma StringRoundTrip(str: bytes, s: bytes, i: nat)
    requires Occurs(DumpString(str), s, i)
    ensures i < |s| && s[i] == QUOTE
    ensures ParseString(s, i + 1, -1, []) == Ok(str, i + |DumpString(str)|)
  {
    QuotedParts(str, s, i);
    assert [] + EncodeUtf8(-1) == str[..0];
    hide StepString, EscapeOne, ParseString, EscapeFrom, DumpString, Occurs;
    StringRoundTripFrom(str, 0, s, i + 1, -1, []);
  }

  // -------------------------------------------------------------------- values

  /** A text that does not begin with a space starts with the token the parser sees there. */
  lemma TokenAt(text: bytes, s: bytes, i: nat)
    requires |text| > 0 && Occurs(text, s, i) && !IsSpace(text[0])
    ensures i < |s| && NextToken(s, i) == Ok(text[0], i + 1) && s[i] == text[0]
  {
    OccursAt(text, s, i, 0);
  }

  lemma ByteAt(c: byte, s: bytes, i: nat)
    requires Occurs([c], s, i)
    ensures i < |s| && s[i] == c && At(s, i) == c
    ensures !IsSpace(c) ==> NextToken(s, i) == Ok(c, i + 1)
  {
    OccursAt([c], s, i, 0);
  }

  /** A space before a value changes nothing. */
  lemma SpaceBefore(s: bytes, i: nat, depth: nat)
    requires i < |s| && s[i] == SPACE
    ensures NextToken(s, i) == NextToken(s, i + 1)
    ensures ParseValue(s, i, depth) == ParseValue(s, i + 1, depth)
  {
    hide StepString, ParseNumber, EscapeOne;
  }

  lemma SplitThree(a: bytes, b: bytes, c: bytes, s: bytes, i: nat)
    requires Occurs(a + (b + c), s, i)
    ensures Occurs(a, s, i) && Occurs(b, s, i + |a|) && Occurs(c, s, i + |a| + |b|)
  {
    OccursSplit(a, b + c, s, i);
    OccursSplit(b, c, s, i + |a|);
  }

  /** The separator between items: a comma token, then the next item after one space. */
  lemma Separator(s: bytes, i: nat)
    requires Occurs([COMMA, SPACE], s, i)
    ensures NextToken(s, i) == Ok(COMMA, i + 1) && i + 2 <= |s| && Ends(s, i)
    ensures NextToken(s, i + 1) == NextToken(s, i + 2)
  {
    hide StepString, ParseNumber, EscapeOne;
    OccursAt([COMMA, SPACE], s, i, 0);
    OccursAt([COMMA, SPACE], s, i, 1);
  }

  lemma {:induction false} ValueRoundTrip(v: Value, s: bytes, i: nat, depth: nat)
    requires Printable(v) && Occurs(Dump(v), s, i) && Ends(s, i + |Dump(v)|)
    ensures ParseValue(s, i, depth) ==
            if Fits(v, depth) then Ok(Reread(v), i + |Dump(v)|) else Fail(TooDeep)
    decreases v, 0
  {
    hide StepString, ParseNumber, EscapeOne;
    if depth <= MAX_DEPTH {
      TokenAt(Dump(v), s, i);
      match v
      case Int(n) =>
        NumberRoundTrip(n, s, i);
        assert Dump(v)[0] == MINUS || IsDigit(Dump(v)[0]);
      case String(str) => StringRoundTrip(str, s, i);
      case Array(items) => ArrayRoundTrip(items, s, i, depth);
      case Object(es) => ObjectRoundTrip(es, s, i, depth);
      case _ =>
    }
  }

  lemma OpenArray(s: bytes, i: nat, depth: nat, c: byte)
    requires i < |s| && depth <= MAX_DEPTH
    requires NextToken(s, i) == Ok(OPEN_BRACKET, i + 1) && NextToken(s, i + 1) == Ok(c, i + 2)
    ensures ParseValue(s, i, depth) ==
            if c == CLOSE_BRACKET then Ok(Array([]), i + 2) else ParseItems(s, i + 1, depth + 1, [])
  {
    hide StepString, ParseNumber, EscapeOne;
  }

  lemma OpenObject(s: bytes, i: nat, depth: nat, c: byte)
    requires i < |s| && depth <= MAX_DEPTH
    requires NextToken(s, i) == Ok(OPEN_BRACE, i + 1) && NextToken(s, i + 1) == Ok(c, i + 2)
    ensures ParseValue(s, i, depth) ==
            if c == CLOSE_BRACE then Ok(Object([]), i + 2) else ParseEntries(s, i + 1, depth + 1, [])
  {
    hide StepString, ParseNumber, EscapeOne;
  }

  lemma {:induction false} ArrayRoundTrip(items: seq<Value>, s: bytes, i: nat, depth: nat)
    requires Printable(Array(items)) && Occurs(Dump(Array(items)), s, i) && depth <= MAX_DEPTH
    ensures ParseValue(s, i, depth) ==
            if Fits(Array(items), depth) then Ok(Reread(Array(items)), i + |Dump(Array(items))|) else Fail(TooDeep)
    decreases items, 3
  {
    hide StepString, ParseNumber, EscapeOne;
    var body := DumpItems(items);
    assert Dump(Array(items)) == [OPEN_BRACKET] + (body + [CLOSE_BRACKET]);
    OccursSplit([OPEN_BRACKET], body + [CLOSE_BRACKET], s, i);
    ByteAt(OPEN_BRACKET, s, i);
    if items == [] {
      assert body + [CLOSE_BRACKET] == [CLOSE_BRACKET];
      ByteAt(CLOSE_BRACKET, s, i + 1);
      OpenArray(s, i, depth, CLOSE_BRACKET);
    } else {
      TokenAt(body + [CLOSE_BRACKET], s, i + 1);
      OpenArray(s, i, depth, body[0]);
      ItemsRoundTrip(items, s, i + 1, depth + 1, []);
      assert [] + RereadItems(items) == RereadItems(items);
    }
  }

  lemma LastItem(s: bytes, i: nat, depth: nat, acc: seq<Value>, v: Value, j: nat)
    requires i <= |s| && ParseValue(s, i, depth) == Ok(v, j)
    requires AfterElement(s, j, CLOSE_BRACKET) == Closed(j + 1)
    ensures ParseItems(s, i, depth, acc) == Ok(Array(acc + [v]), j + 1)
  {
    hide StepString, ParseNumber, EscapeOne;
  }

  lemma MoreItems(s: bytes, i: nat, depth: nat, acc: seq<Value>, v: Value, j: nat)
    requires i <= |s| && ParseValue(s, i, depth) == Ok(v, j)
    requires AfterElement(s, j, CLOSE_BRACKET) == More(j + 2)
    ensures ParseItems(s, i, depth, acc) == ParseItems(s, j + 2, depth, acc + [v])
  {
    hide StepString, ParseNumber, EscapeOne;
  }

  lemma FailedItem(s: bytes, i: nat, depth: nat, acc: seq<Value>, e: ParseError)
    requires i <= |s| && ParseValue(s, i, depth) == Fail(e)
    ensures ParseItems(s, i, depth, acc) == Fail(e)
  {
    hide StepString, ParseNumber, EscapeOne;
  }

  predicate ItemsFit(items: seq<Value>, depth: nat) {
    forall i :: 0 <= i < |items| ==> Fits(items[i], depth)
  }

  /** The last element `d` of a list closed by `close`. */
  ghost predicate LastStands(d: bytes, close: byte, s: bytes, i: nat) {
    && Occurs(d, s, i) && Ends(s, i + |d|)
    && AfterElement(s, i + |d|, close) == Closed(i + |d| + 1)
  }

  /** An element `d` followed by the elements `rest` of a list closed by `close`. */
  ghost predicate FirstStands(d: bytes, rest: bytes, close: byte, s: bytes, i: nat) {
    && Occurs(d, s, i) && Ends(s, i + |d|)
    && |rest| > 0 && Occurs(rest + [close], s, i + |d| + 2)
    && AfterElement(s, i + |d|, close) == More(i + |d| + 2)
  }

  lemma LastLayout(d: bytes, close: byte, s: bytes, i: nat)
    requires close == CLOSE_BRACKET || close == CLOSE_BRACE
    requires Occurs(d + [close], s, i)
    ensures LastStands(d, close, s, i)
  {
    hide StepString, ParseNumber, EscapeOne;
    OccursSplit(d, [close], s, i);
    ByteAt(close, s, i + |d|);
  }

  lemma FirstLayout(d: bytes, rest: bytes, close: byte, s: bytes, i: nat)
    requires close == CLOSE_BRACKET || close == CLOSE_BRACE
    requires Occurs((d + [COMMA, SPACE] + rest) + [close], s, i)
    requires |rest| > 0 && !IsSpace(rest[0])
    ensures FirstStands(d, rest, close, s, i)
  {
    hide StepString, ParseNumber, EscapeOne;
    var tail := rest + [close];
    assert (d + [COMMA, SPACE] + rest) + [close] == d + ([COMMA, SPACE] + tail);
    SplitThree(d, [COMMA, SPACE], tail, s, i);
    Separator(s, i + |d|);
    TokenAt(tail, s, i + |d| + 2);
  }

  /** The parser past the only item of a list. */
  lemma OnlyItem(v: Value, s: bytes, i: nat, depth: nat, acc: seq<Value>)
    requires Printable(v) && LastStands(Dump(v), CLOSE_BRACKET, s, i)
    requires ParseValue(s, i, depth) == if Fits(v, depth) then Ok(Reread(v), i + |Dump(v)|) else Fail(TooDeep)
    ensures ParseItems(s, i, depth, acc) ==
            if Fits(v, depth) then Ok(Array(acc + [Reread(v)]), i + |Dump(v)| + 1) else Fail(TooDeep)
  {
    hide StepString, ParseNumber, EscapeOne;
    if Fits(v, depth) {
      LastItem(s, i, depth, acc, Reread(v), i + |Dump(v)|);
    } else {
      FailedItem(s, i, depth, acc, TooDeep);
    }
  }

  lemma {:induction false} ItemsRoundTrip(items: seq<Value>, s: bytes, i: nat, depth: nat, acc: seq<Value>)
    requires items != [] && (forall k :: 0 <= k < |items| ==> Printable(items[k]))
    requires Occurs(DumpItems(items) + [CLOSE_BRACKET], s, i)
    ensures ParseItems(s, i, depth, acc) ==
            if ItemsFit(items, depth) then Ok(Array(acc + RereadItems(items)), i + |DumpItems(items)| + 1)
            else Fail(TooDeep)
    decreases items, 2
  {
    hide StepString, ParseNumber, EscapeOne, StepItem, ParseValue, NextToken, AfterElement;
    RereadItemsAfter(items, depth, acc);
    if |items| == 1 {
      LastLayout(Dump(items[0]), CLOSE_BRACKET, s, i);
      ValueRoundTrip(items[0], s, i, depth);
      OnlyItem(items[0], s, i, depth, acc);
    } else {
      assert items == [items[0]] + items[1..];
      ManyItemsRoundTrip(items[0], items[1..], s, i, depth, acc);
    }
  }

  lemma {:induction false} ManyItemsRoundTrip(v: Value, rest: seq<Value>, s: bytes, i: nat, depth: nat, acc: seq<Value>)
    requires Printable(v) && rest != [] && (forall k :: 0 <= k < |rest| ==> Printable(rest[k]))
    requires Occurs((Dump(v) + [COMMA, SPACE] + DumpItems(rest)) + [CLOSE_BRACKET], s, i)
    ensures ParseItems(s, i, depth, acc) ==
            if Fits(v, depth) && ItemsFit(rest, depth)
            then Ok(Array(acc + [Reread(v)] + RereadItems(rest)), i + |Dump(v)| + 2 + |DumpItems(rest)| + 1)
            else Fail(TooDeep)
    decreases [v] + rest, 1
  {
    hide StepString, ParseNumber, EscapeOne, StepItem, ParseValue, NextToken, AfterElement;
    assert v == ([v] + rest)[0] && rest == ([v] + rest)[1..];
    var d := Dump(v);
    FirstLayout(d, DumpItems(rest), CLOSE_BRACKET, s, i);
    ValueRoundTrip(v, s, i, depth);
    ItemThenRest(d, DumpItems(rest), ParseValue(s, i, depth), s, i, depth, acc);
    ItemsRoundTrip(rest, s, i + |d| + 2, depth, acc + [Reread(v)]);
  }

  /** Reading one item, whose text is `d`, and the separator after it. */
  lemma ItemThenRest(d: bytes, rest: bytes, r: Parsed<Value>, s: bytes, i: nat, depth: nat, acc: seq<Value>)
    requires FirstStands(d, rest, CLOSE_BRACKET, s, i)
    requires ParseValue(s, i, depth) == r && (r.Ok? ==> r.next == i + |d|)
    ensures ParseItems(s, i, depth, acc) ==
            if r.Ok? then ParseItems(s, i + |d| + 2, depth, acc + [r.value]) else Fail(r.error)
  {
    hide StepString, ParseNumber, EscapeOne, StepItem, ParseItems, ParseValue, NextToken, AfterElement, Occurs;
    if r.Ok? {
      MoreItems(s, i, depth, acc, r.value, i + |d|);
    } else {
      FailedItem(s, i, depth, acc, r.error);
    }
  }

  lemma RereadItemsAfter(items: seq<Value>, depth: nat, acc: seq<Value>)
    requires items != []
    ensures acc + RereadItems(items) == acc + [Reread(items[0])] + RereadItems(items[1..])
    ensures |items| == 1 ==> acc + RereadItems(items) == acc + [Reread(items[0])]
    ensures ItemsFit(items, depth) <==> Fits(items[0], depth) && ItemsFit(items[1..], depth)
  {
    hide StepString, ParseNumber, EscapeOne;
    var v, rest := Reread(items[0]), RereadItems(items[1..]);
    assert RereadItems(items) == [v] + rest;
    assert acc + ([v] + rest) == (acc + [v]) + rest;
  }

  lemma {:induction false} ObjectRoundTrip(es: seq<Entry>, s: bytes, i: nat, depth: nat)
    requires Printable(Object(es)) && Occurs(Dump(Object(es)), s, i) && depth <= MAX_DEPTH
    ensures ParseValue(s, i, depth) ==
            if Fits(Object(es), depth) then Ok(Reread(Object(es)), i + |Dump(Object(es))|) else Fail(TooDeep)
    decreases es, 4
  {
    hide StepString, ParseNumber, EscapeOne;
    var body := DumpEntries(es);
    assert Dump(Object(es)) == [OPEN_BRACE] + (body + [CLOSE_BRACE]);
    OccursSplit([OPEN_BRACE], body + [CLOSE_BRACE], s, i);
    ByteAt(OPEN_BRACE, s, i);
    if es == [] {
      assert body + [CLOSE_BRACE] == [CLOSE_BRACE];
      ByteAt(CLOSE_BRACE, s, i + 1);
      OpenObject(s, i, depth, CLOSE_BRACE);
    } else {
      TokenAt(body + [CLOSE_BRACE], s, i + 1);
      OpenObject(s, i, depth, body[0]);
      EntriesRoundTrip(es, s, i + 1, depth + 1, []);
      assert [] + RereadEntries(es) == RereadEntries(es);
    }
  }

  predicate EntriesFit(es: seq<Entry>, depth: nat) {
    forall i :: 0 <= i < |es| ==> Fits(es[i].value, depth)
  }

  lemma {:induction false} EntryRoundTrip(e: Entry, s: bytes, i: nat, depth: nat)
    requires Printable(e.value) && Occurs(DumpEntry(e), s, i) && Ends(s, i + |DumpEntry(e)|)
    ensures i < |s| && ParseEntry(s, i, depth) ==
            if Fits(e.value, depth) then Ok(Entry(e.key, Reread(e.value)), i + |DumpEntry(e)|) else Fail(TooDeep)
    decreases e, 1
  {
    hide StepString, ParseNumber, EscapeOne, ParseValue, ParseEntry, ParseString, DumpString, Dump, Fits, Reread;
    var k, d := DumpString(e.key), Dump(e.value);
    assert DumpEntry(e) == k + ([COLON, SPACE] + d);
    SplitThree(k, [COLON, SPACE], d, s, i);
    StringRoundTrip(e.key, s, i);
    ValueRoundTrip(e.value, s, i + |k| + 2, depth);
    EntryAt(e.key, |k|, ParseValue(s, i + |k| + 2, depth), s, i, depth);
  }

  /** The parser on a key of `k` bytes, a colon, a space and a value. */
  lemma {:induction false} EntryAt(key: bytes, k: nat, r: Parsed<Value>, s: bytes, i: nat, depth: nat)
    requires i < |s| && s[i] == QUOTE && ParseString(s, i + 1, -1, []) == Ok(key, i + k)
    requires Occurs([COLON, SPACE], s, i + k)
    requires i + k + 2 <= |s| && ParseValue(s, i + k + 2, depth) == r
    ensures ParseEntry(s, i, depth) == if r.Ok? then Ok(Entry(key, r.value), r.next) else Fail(r.error)
  {
    hide StepString, ParseNumber, EscapeOne;
    ColonAndSpace(s, i + k, depth);
  }

  lemma ColonAndSpace(s: bytes, j: nat, depth: nat)
    requires Occurs([COLON, SPACE], s, j)
    ensures j + 2 <= |s| && NextToken(s, j) == Ok(COLON, j + 1)
    ensures ParseValue(s, j + 1, depth) == ParseValue(s, j + 2, depth)
  {
    hide StepString, ParseNumber, EscapeOne;
    OccursAt([COLON, SPACE], s, j, 0);
    OccursAt([COLON, SPACE], s, j, 1);
    SpaceBefore(s, j + 1, depth);
  }

  /** Every key of `xs` precedes every key of `ys`. */
  ghost predicate AllBefore(xs: seq<Entry>, ys: seq<Entry>) {
    forall a, b :: 0 <= a < |xs| && 0 <= b < |ys| ==> Less(xs[a].key, ys[b].key)
  }

  lemma AppendBefore(acc: seq<Entry>, e: Entry, e': Entry, rest: seq<Entry>)
    requires AllBefore(acc, [e] + rest) && AllBefore([e], rest) && e'.key == e.key
    ensures Insert(acc, e') == acc + [e'] && AllBefore(acc + [e'], rest)
  {
    hide StepString, ParseNumber, EscapeOne;
    forall a | 0 <= a < |acc| ensures Less(acc[a].key, e.key) {
      assert ([e] + rest)[0] == e;
    }
    InsertLast(acc, e');
    forall a, b | 0 <= a < |acc + [e']| && 0 <= b < |rest| ensures Less((acc + [e'])[a].key, rest[b].key) {
      assert ([e] + rest)[b + 1] == rest[b] && [e][0] == e;
    }
  }

  lemma FailedEntry(s: bytes, i: nat, depth: nat, acc: seq<Entry>, e: ParseError)
    requires i < |s| && ParseEntry(s, i, depth) == Fail(e)
    ensures ParseEntries(s, i, depth, acc) == Fail(e)
  {
    hide StepString, ParseNumber, EscapeOne;
  }

  lemma LastEntry(entry: Entry, j: nat, s: bytes, i: nat, depth: nat, acc: seq<Entry>)
    requires i < |s| && ParseEntry(s, i, depth) == Ok(entry, j)
    requires AfterElement(s, j, CLOSE_BRACE) == Closed(j + 1)
    ensures ParseEntries(s, i, depth, acc) == Ok(Object(Insert(acc, entry)), j + 1)
  {
    hide StepString, ParseNumber, EscapeOne;
  }

  lemma MoreEntries(entry: Entry, j: nat, s: bytes, i: nat, depth: nat, acc: seq<Entry>)
    requires i < |s| && ParseEntry(s, i, depth) == Ok(entry, j)
    requires AfterElement(s, j, CLOSE_BRACE) == More(j + 2)
    ensures j + 2 < |s| && ParseEntries(s, i, depth, acc) == ParseEntries(s, j + 2, depth, Insert(acc, entry))
  {
    hide StepString, ParseNumber, EscapeOne;
  }

  lemma {:induction false} EntriesRoundTrip(es: seq<Entry>, s: bytes, i: nat, depth: nat, acc: seq<Entry>)
    requires es != [] && (forall k :: 0 <= k < |es| ==> Printable(es[k].value)) && SortedKeys(es)
    requires AllBefore(acc, es)
    requires Occurs(DumpEntries(es) + [CLOSE_BRACE], s, i)
    ensures i < |s| && ParseEntries(s, i, depth, acc) ==
            if EntriesFit(es, depth) then Ok(Object(acc + RereadEntries(es)), i + |DumpEntries(es)| + 1)
            else Fail(TooDeep)
    decreases es, 3
  {
    hide StepString, ParseNumber, EscapeOne, ParseEntry, StepEntry, ParseValue, NextToken, AfterElement, DumpString;
    RereadEntriesAfter(es, depth, acc);
    if |es| == 1 {
      assert es == [es[0]] + [];
      LastLayout(DumpEntry(es[0]), CLOSE_BRACE, s, i);
      EntryRoundTrip(es[0], s, i, depth);
      AppendBefore(acc, es[0], Entry(es[0].key, Reread(es[0].value)), []);
      if Fits(es[0].value, depth) {
        LastEntry(Entry(es[0].key, Reread(es[0].value)), i + |DumpEntry(es[0])|, s, i, depth, acc);
      } else {
        FailedEntry(s, i, depth, acc, TooDeep);
      }
    } else {
      assert es == [es[0]] + es[1..];
      assert AllBefore([es[0]], es[1..]);
      ManyEntriesRoundTrip(es[0], es[1..], s, i, depth, acc);
    }
  }

  lemma {:induction false} ManyEntriesRoundTrip(e: Entry, rest: seq<Entry>, s: bytes, i: nat, depth: nat, acc: seq<Entry>)
    requires Printable(e.value) && rest != [] && (forall k :: 0 <= k < |rest| ==> Printable(rest[k].value))
    requires SortedKeys(rest) && AllBefore(acc, [e] + rest) && AllBefore([e], rest)
    requires Occurs((DumpEntry(e) + [COMMA, SPACE] + DumpEntries(rest)) + [CLOSE_BRACE], s, i)
    ensures i < |s| && ParseEntries(s, i, depth, acc) ==
            if Fits(e.value, depth) && EntriesFit(rest, depth)
            then Ok(Object(acc + [Entry(e.key, Reread(e.value))] + RereadEntries(rest)),
                    i + |DumpEntry(e)| + 2 + |DumpEntries(rest)| + 1)
            else Fail(TooDeep)
    decreases [e] + rest, 2
  {
    hide StepString, ParseNumber, EscapeOne, ParseEntry, StepEntry, ParseValue, NextToken, AfterElement, DumpString;
    assert e == ([e] + rest)[0] && rest == ([e] + rest)[1..];
    var e' := Entry(e.key, Reread(e.value));
    AppendBefore(acc, e, e', rest);
    var d := DumpEntry(e);
    FirstLayout(d, DumpEntries(rest), CLOSE_BRACE, s, i);
    EntryRoundTrip(e, s, i, depth);
    EntryThenRest(d, DumpEntries(rest), ParseEntry(s, i, depth), s, i, depth, acc);
    EntriesRoundTrip(rest, s, i + |d| + 2, depth, acc + [e']);
  }

  /** Reading one entry, whose text is `d`, and the separator after it. */
  lemma EntryThenRest(d: bytes, rest: bytes, r: Parsed<Entry>, s: bytes, i: nat, depth: nat, acc: seq<Entry>)
    requires FirstStands(d, rest, CLOSE_BRACE, s, i) && i < |s|
    requires ParseEntry(s, i, depth) == r && (r.Ok? ==> r.next == i + |d|)
    ensures i + |d| + 2 < |s| && ParseEntries(s, i, depth, acc) ==
            if r.Ok? then ParseEntries(s, i + |d| + 2, depth, Insert(acc, r.value)) else Fail(r.error)
  {
    hide StepString, ParseNumber, EscapeOne, ParseEntry, StepEntry, ParseEntries, ParseValue, NextToken, AfterElement, Occurs;
    if r.Ok? {
      MoreEntries(r.value, i + |d|, s, i, depth, acc);
    } else {
      FailedEntry(s, i, depth, acc, r.error);
    }
  }

  lemma RereadEntriesAfter(es: seq<Entry>, depth: nat, acc: seq<Entry>)
    requires es != []
    ensures var e' := Entry(es[0].key, Reread(es[0].value));
            && acc + RereadEntries(es) == acc + [e'] + RereadEntries(es[1..])
            && (|es| == 1 ==> acc + RereadEntries(es) == acc + [e'])
    ensures EntriesFit(es, depth) <==> Fits(es[0].value, depth) && EntriesFit(es[1..], depth)
  {
    hide StepString, ParseNumber, EscapeOne;
    var e', rest := Entry(es[0].key, Reread(es[0].value)), RereadEntries(es[1..]);
    assert RereadEntries(es) == [e'] + rest;
    assert acc + ([e'] + rest) == (acc + [e']) + rest;
  }

  /** The round trip: a printed document parses to an equal value exactly when the value is
      nested at most 200 deep; otherwise it is refused for its depth and nothing else. */
  lemma ParseUndoesDump(v: Value)
    requires Printable(v)
    ensures Fits(v, 0) ==> Parse(Dump(v)) == Document(Reread(v)) && Equal(v, Reread(v))
    ensures !Fits(v, 0) ==> Parse(Dump(v)) == Rejected(TooDeep)
  {
    hide Dump, ParseValue, Reread, Fits, Printable, Equal, StepString, ParseNumber;
    var s := Dump(v);
    assert s[0..0 + |s|] == s;
    ValueRoundTrip(v, s, 0, 0);
    RereadIsEqual(v);
  }
}
