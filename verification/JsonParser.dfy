/** The recursive-descent parser with its mutable position and sticky failure flag, proved
    against the functions of module Json. */
module JsonParserModel {
  import opened Bytes
  import opened Json
  import opened Options

  /** The parser's state and result after a step that the functions describe as `r`. */
  ghost predicate Agrees<T>(r: Parsed<T>, v: T, i: nat, failed: bool, err: Option<ParseError>) {
    match r
    case Ok(x, next) => !failed && v == x && i == next
    case Fail(e) => failed && err == Some(e)
  }

  /** The parser's state after one turn of an element loop that the functions describe as `r`. */
  ghost predicate TurnTaken<T>(r: Turn<T>, v: T, closed: bool, i: nat, failed: bool, err: Option<ParseError>) {
    match r
    case Stop(e) => failed && err == Some(e)
    case Last(x, end) => !failed && closed && v == x && i == end
    case Next(x, start) => !failed && !closed && v == x && i == start + 1
  }

  class JsonParser {
    const str: bytes
    var i: nat
    var failed: bool
    var err: Option<ParseError>

    constructor (input: bytes)
      ensures str == input && i == 0 && !failed
    {
      str := input;
      i := 0;
      failed := false;
      err := None;
    }

    /** Only the first failure is recorded. */
    method Fail(e: ParseError)
      modifies this`failed, this`err
      ensures failed && err == if old(failed) then old(err) else Some(e)
    {
      if !failed {
        err := Some(e);
      }
      failed := true;
    }

    method ConsumeWhitespace()
      requires i <= |str|
      modifies this`i
      ensures i == SkipSpace(str, old(i))
    {
      while IsSpace(At(str, i))
        invariant old(i) <= i <= |str|
        invariant SkipSpace(str, i) == SkipSpace(str, old(i))
        decreases |str| - i
      {
        i := i + 1;
      }
    }

    method GetNextToken() returns (c: byte)
      requires i <= |str|
      modifies this
      ensures old(i) <= i <= |str|
      ensures old(failed) ==> failed && err == old(err)
      ensures !old(failed) ==> Agrees(NextToken(str, old(i)), c, i, failed, err)
      ensures failed ==> c == 0
    {
      ConsumeWhitespace();
      if failed {
        return 0;
      }
      if i == |str| {
        Fail(UnexpectedEnd);
        return 0;
      }
      c := str[i];
      i := i + 1;
    }

    method ParseStringLiteral() returns (out: bytes)
      requires i <= |str| && !failed
      modifies this
      ensures old(i) <= i <= |str|
      ensures Agrees(ParseString(str, old(i), -1, []), out, i, failed, err)
    {
      hide EncodeUtf8, CodePoint, FourHex, Unescape;
      out := [];
      var last: int := -1;
      while true
        invariant old(i) <= i <= |str| && !failed && last < 0x10000
        invariant ParseString(str, old(i), -1, []) == ParseString(str, i, last, out)
        decreases |str| - i
      {
        if i == |str| {
          Fail(EndInString);
          return [];
        }
        var ch := str[i];
        i := i + 1;
        if ch == QUOTE {
          out := out + EncodeUtf8(last);
          return;
        }
        if ch <= 0x1f {
          Fail(UnescapedControl);
          return [];
        }
        if ch != BACKSLASH {
          out := out + EncodeUtf8(last);
          last := -1;
          out := out + [ch];
          continue;
        }
        if i == |str| {
          Fail(EndInString);
          return [];
        }
        ch := str[i];
        i := i + 1;
        if ch == LETTER_U {
          if !FourHex(str, i) {
            Fail(BadUnicodeEscape);
            return [];
          }
          var codepoint := CodePoint(str, i);
          if 0xD800 <= last <= 0xDBFF && 0xDC00 <= codepoint <= 0xDFFF {
            out := out + EncodeUtf8((last - 0xD800) * 1024 + (codepoint - 0xDC00) + 0x10000);
            last := -1;
          } else {
            out := out + EncodeUtf8(last);
            last := codepoint;
          }
          i := i + 4;
          continue;
        }
        out := out + EncodeUtf8(last);
        last := -1;
        var plain := Unescape(ch);
        if plain == [] {
          Fail(InvalidEscape);
          return [];
        }
        out := out + plain;
      }
    }

    method SkipDigits()
      requires i <= |str|
      modifies this`i
      ensures i == DigitsEnd(str, old(i))
    {
      while IsDigit(At(str, i))
        invariant old(i) <= i <= |str|
        invariant DigitsEnd(str, i) == DigitsEnd(str, old(i))
        decreases |str| - i
      {
        i := i + 1;
      }
    }

    method ParseNumberLiteral() returns (v: Value)
      requires i < |str| && !failed
      modifies this
      ensures old(i) <= i <= |str|
      ensures Agrees(ParseNumber(str, old(i)), v, i, failed, err)
    {
      hide ParseFraction;
      var start := i;
      v := Null;
      var negative := str[i] == MINUS;
      if negative {
        i := i + 1;
      }
      var digits := i;
      if At(str, i) == ZERO {
        i := i + 1;
        if IsDigit(At(str, i)) {
          Fail(LeadingZero);
          return;
        }
      } else if IsDigit(At(str, i)) {
        i := i + 1;
        SkipDigits();
      } else {
        Fail(InvalidNumber);
        return;
      }
      if At(str, i) != DOT && At(str, i) != LETTER_E && At(str, i) != UPPER_E && i - start <= 9 {
        v := Int(Signed(negative, DigitsValue(str, digits, i)));
        return;
      }
      v := ParseFractionPart(digits, negative);
    }

    method ParseFractionPart(digits: nat, negative: bool) returns (v: Value)
      requires digits <= i <= |str| && !failed
      requires forall k :: digits <= k < i ==> IsDigit(str[k])
      modifies this
      ensures old(i) <= i <= |str|
      ensures Agrees(ParseFraction(str, digits, old(i), negative), v, i, failed, err)
    {
      v := Null;
      var mantissa, fraction := DigitsValue(str, digits, i), 0;
      if At(str, i) == DOT {
        i := i + 1;
        var from := i;
        if !IsDigit(At(str, i)) {
          Fail(NoFractionDigit);
          return;
        }
        SkipDigits();
        mantissa, fraction := DigitsShift(mantissa, str, from, i), i - from;
      }
      v := ParseExponentPart(negative, mantissa, fraction);
    }

    method ParseExponentPart(negative: bool, mantissa: nat, fraction: nat) returns (v: Value)
      requires i <= |str| && !failed
      modifies this
      ensures old(i) <= i <= |str|
      ensures Agrees(ParseExponent(str, old(i), negative, mantissa, fraction), v, i, failed, err)
    {
      v := Null;
      var exponent := 0;
      if At(str, i) == LETTER_E || At(str, i) == UPPER_E {
        i := i + 1;
        var minus := At(str, i) == MINUS;
        if At(str, i) == PLUS || At(str, i) == MINUS {
          i := i + 1;
        }
        var from := i;
        if !IsDigit(At(str, i)) {
          Fail(NoExponentDigit);
          return;
        }
        SkipDigits();
        exponent := Signed(minus, DigitsValue(str, from, i));
      }
      v := Double(DecimalValue(negative, mantissa, fraction, exponent));
    }

    method ExpectText(text: bytes, value: Value) returns (v: Value)
      requires 0 < i <= |str| && !failed && |text| > 0
      modifies this
      ensures old(i) - 1 <= i <= |str|
      ensures Agrees(Expect(str, old(i) - 1, text, value), v, i, failed, err)
    {
      i := i - 1;
      if i + |text| <= |str| && str[i..i + |text|] == text {
        i := i + |text|;
        return value;
      }
      Fail(WrongLiteral);
      v := Null;
    }

    /** When a failure is already recorded the call changes nothing but the position. */
    method ParseJson(depth: nat) returns (v: Value)
      requires i <= |str|
      modifies this
      ensures i <= |str|
      ensures old(failed) ==> failed && err == old(err)
      ensures !old(failed) ==> Agrees(ParseValue(str, old(i), depth), v, i, failed, err)
      decreases !failed, |str| - i, 1
    {
      hide StepString, ParseNumber, Expect;
      v := Null;
      if depth > MAX_DEPTH {
        Fail(TooDeep);
        return;
      }
      var ch := GetNextToken();
      if failed {
        return;
      }
      if ch == MINUS || IsDigit(ch) {
        i := i - 1;
        v := ParseNumberLiteral();
      } else if ch == LETTER_T {
        v := ExpectText(TRUE_TEXT, Bool(true));
      } else if ch == LETTER_F {
        v := ExpectText(FALSE_TEXT, Bool(false));
      } else if ch == LETTER_N {
        v := ExpectText(NULL_TEXT, Null);
      } else if ch == QUOTE {
        var text := ParseStringLiteral();
        v := String(text);
      } else if ch == OPEN_BRACE {
        v := ParseObject(depth);
      } else if ch == OPEN_BRACKET {
        v := ParseArray(depth);
      } else {
        Fail(ExpectedValue);
      }
    }

    /** One entry; `ch` is the token read last. */
    method ParseObjectEntry(ch: byte, depth: nat) returns (entry: Entry)
      requires 0 < i <= |str| && !failed && ch == str[i - 1]
      modifies this
      ensures i <= |str|
      ensures Agrees(Json.ParseEntry(str, old(i) - 1, depth), entry, i, failed, err)
      decreases !failed, |str| - i + 1, 2
    {
      hide StepString, ParseNumber;
      entry := Entry([], Null);
      if ch != QUOTE {
        Fail(ExpectedQuote);
        return;
      }
      var key := ParseStringLiteral();
      if failed {
        return;
      }
      var colon := GetNextToken();
      if colon != COLON {
        Fail(ExpectedColon);
        return;
      }
      var item := ParseJson(depth);
      entry := Entry(key, item);
    }

    method ParseObject(depth: nat) returns (v: Value)
      requires i <= |str| && !failed
      modifies this
      ensures i <= |str|
      ensures Agrees(Json.ParseObject(str, old(i), depth), v, i, failed, err)
      decreases !failed, |str| - i, 5
    {
      hide StepString, ParseNumber;
      v := Object([]);
      var ch := GetNextToken();
      if ch == CLOSE_BRACE || failed {
        return;
      }
      v := ParseObjectEntries(depth + 1);
    }

    /** One turn of the loop over the entries, the first byte of the key having been read. */
    method ObjectTurn(depth: nat) returns (entry: Entry, closed: bool)
      requires 0 < i <= |str| && !failed
      modifies this
      ensures i <= |str|
      ensures TurnTaken(StepEntry(str, old(i) - 1, depth), entry, closed, i, failed, err)
      decreases !failed, |str| - i + 1, 3
    {
      hide StepString, ParseNumber;
      closed := false;
      entry := ParseObjectEntry(str[i - 1], depth);
      if !failed {
        closed := EndOfElement(CLOSE_BRACE);
      }
    }

    /** The loop over the entries. */
    method ParseObjectEntries(depth: nat) returns (v: Value)
      requires 0 < i <= |str| && !failed
      modifies this
      ensures i <= |str|
      ensures Agrees(ParseEntries(str, old(i) - 1, depth, []), v, i, failed, err)
      decreases !failed, |str| - i + 1, 4
    {
      hide StepString, ParseNumber;
      var data: seq<Entry> := [];
      v := Object([]);
      while true
        invariant old(i) <= i <= |str| && !failed
        invariant ParseEntries(str, i - 1, depth, data) == ParseEntries(str, old(i) - 1, depth, [])
        decreases |str| - i
      {
        var entry, closed := ObjectTurn(depth);
        if failed {
          return; // after a comma the quote test at the loop head would record nothing
        }
        data := Insert(data, entry);
        if closed {
          v := Object(data);
          return;
        }
      }
    }

    /** The tokens after an element: true for the closing one; otherwise the first byte of
        the next element has been read, or a failure is recorded. */
    method EndOfElement(close: byte) returns (closed: bool)
      requires i <= |str| && !failed && close != 0
      modifies this
      ensures old(i) <= i <= |str|
      ensures match AfterElement(str, old(i), close)
              case Bad(e) => !closed && failed && err == Some(e)
              case Closed(end) => closed && !failed && i == end
              case More(start) => !closed && !failed && i == start + 1
    {
      var ch := GetNextToken();
      if ch == close {
        return true;
      }
      if ch != COMMA {
        Fail(if close == CLOSE_BRACE then ExpectedCommaInObject else ExpectedCommaInList);
        return false;
      }
      ch := GetNextToken();
      closed := false;
    }

    method ParseArray(depth: nat) returns (v: Value)
      requires 0 < i <= |str| && !failed
      modifies this
      ensures i <= |str|
      ensures Agrees(Json.ParseArray(str, old(i), depth), v, i, failed, err)
      decreases !failed, |str| - i, 5
    {
      hide StepString, ParseNumber;
      var ch := GetNextToken();
      if ch == CLOSE_BRACKET {
        return Array([]);
      }
      if failed {
        i := i - 1;
        v := ParseJson(depth + 1); // the loop's first item: only moves the position
        return;
      }
      v := ParseListItems(depth + 1);
    }

    /** One turn of the loop over the items, the first byte of the item having been read. */
    method ListTurn(depth: nat) returns (item: Value, closed: bool)
      requires 0 < i <= |str| && !failed
      modifies this
      ensures i <= |str|
      ensures TurnTaken(StepItem(str, old(i) - 1, depth), item, closed, i, failed, err)
      decreases !failed, |str| - i + 1, 2
    {
      hide StepString, ParseNumber;
      closed := false;
      i := i - 1;
      item := ParseJson(depth);
      if !failed {
        closed := EndOfElement(CLOSE_BRACKET);
      }
    }

    /** The loop over the items. */
    method ParseListItems(depth: nat) returns (v: Value)
      requires 0 < i <= |str| && !failed
      modifies this
      ensures i <= |str|
      ensures Agrees(ParseItems(str, old(i) - 1, depth, []), v, i, failed, err)
      decreases !failed, |str| - i + 1, 3
    {
      hide StepString, ParseNumber;
      var data: seq<Value> := [];
      v := Array([]);
      while true
        invariant old(i) <= i <= |str| && !failed
        invariant ParseItems(str, i - 1, depth, data) == ParseItems(str, old(i) - 1, depth, [])
        decreases |str| - i
      {
        var item, closed := ListTurn(depth);
        if failed {
          return; // after a comma the next item would fail at once and record nothing
        }
        data := data + [item];
        if closed {
          v := Array(data);
          return;
        }
      }
    }
  }

  /** `Json::parse`: one value and nothing but white space after it. */
  method ParseDocument(input: bytes) returns (d: Document)
    ensures d == Json.Parse(input)
  {
    var parser := new JsonParser(input);
    var result := parser.ParseJson(0);
    parser.ConsumeWhitespace();
    if parser.failed {
      return Rejected(parser.err.value);
    }
    if parser.i != |input| {
      parser.Fail(TrailingText);
      return Rejected(parser.err.value);
    }
    d := Document(result);
  }
}
