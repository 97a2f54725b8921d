/**
 Finding one array of a JSON text by its key, and replacing it by another list of strings, without parsing the text.
 JSON strings are those of section 7 of RFC 8259. The white space of the regular expressions is a parameter.
 */
module PolicyArray {
  import opened Common

  datatype PolicyError = MissingArray(key: string) | UnterminatedArray(key: string)

  datatype Span = Span(start: nat, end: nat)

  /** What is asked of white space: it includes the plain kinds, and none of the characters that structure JSON. */
  ghost predicate Spaces(isSpace: char -> bool) {
    && isSpace(' ') && isSpace('\n')
    && forall c :: c in "\"\\:,[]" ==> !isSpace(c)
  }

  // ----- the key -----

  /** The first position from i on that holds no white space. */
  function SkipSpaces(isSpace: char -> bool, text: string, i: nat): (j: nat)
    requires i <= |text|
    ensures i <= j <= |text| && (forall k :: i <= k < j ==> isSpace(text[k])) && (j < |text| ==> !isSpace(text[j]))
    decreases |text| - i
  {
    if i < |text| && isSpace(text[i]) then SkipSpaces(isSpace, text, i + 1) else i
  }

  predicate StartsAt(text: string, i: nat, pattern: string) {
    i + |pattern| <= |text| && text[i..i + |pattern|] == pattern
  }

  /** Where the array bracket is that ends a quoted key, a colon and white space, if these stand at i. */
  function HeaderAt(isSpace: char -> bool, text: string, key: string, i: nat): (bracket: Option<nat>)
    ensures bracket.Some? ==> i < bracket.value < |text| && text[bracket.value] == '['
  {
    var quoted := "\"" + key + "\"";
    if !StartsAt(text, i, quoted) then None
    else
      var colon := SkipSpaces(isSpace, text, i + |quoted|);
      if |text| <= colon || text[colon] != ':' then None
      else
        var bracket := SkipSpaces(isSpace, text, colon + 1);
        if |text| <= bracket || text[bracket] != '[' then None else Some(bracket)
  }

  /** The leftmost header from i on. */
  function FindHeader(isSpace: char -> bool, text: string, key: string, i: nat): (m: Option<nat>)
    ensures m.Some? ==> i <= m.value < |text| && HeaderAt(isSpace, text, key, m.value).Some?
    ensures forall k: nat :: i <= k && (m.Some? ==> k < m.value) ==> HeaderAt(isSpace, text, key, k).None?
    decreases |text| - i
  {
    if |text| <= i then None
    else if HeaderAt(isSpace, text, key, i).Some? then Some(i)
    else FindHeader(isSpace, text, key, i + 1)
  }

  function FindBracket(text: string, i: nat): (p: nat)
    requires exists k :: i <= k < |text| && text[k] == '['
    ensures i <= p < |text| && text[p] == '[' && forall k :: i <= k < p ==> text[k] != '['
    decreases |text| - i
  {
    if text[i] == '[' then i else FindBracket(text, i + 1)
  }

  // ----- the end of the array -----

  datatype Lexer = Lexer(depth: int, inString: bool, escaped: bool)
  {
    function Next(c: char): Lexer {
      if inString then
        if escaped then this.(escaped := false)
        else if c == '\\' then this.(escaped := true)
        else if c == '"' then this.(inString := false)
        else this
      else if c == '"' then this.(inString := true)
      else if c == '[' then this.(depth := depth + 1)
      else if c == ']' then this.(depth := depth - 1)
      else this
    }

    /** A bracket that closes the array. */
    predicate Ends(c: char) {
      !inString && c == ']' && depth == 1
    }
  }

  const OUTSIDE := Lexer(0, false, false)

  const INSIDE := Lexer(1, false, false)

  const QUOTED := Lexer(1, true, false)

  /** The position after the bracket that closes the array. */
  function EndFrom(text: string, i: nat, lexer: Lexer): (end: Option<nat>)
    requires i <= |text|
    ensures end.Some? ==> i < end.value <= |text|
    decreases |text| - i
  {
    if i == |text| then None
    else if lexer.Ends(text[i]) then Some(i + 1)
    else EndFrom(text, i + 1, lexer.Next(text[i]))
  }

  function ArrayStart(isSpace: char -> bool, text: string, key: string): (start: Option<nat>)
    ensures start.Some? ==> start.value < |text| && text[start.value] == '['
  {
    var m := FindHeader(isSpace, text, key, 0);
    if m.None? then None
    else
      assert text[HeaderAt(isSpace, text, key, m.value).value] == '[';
      Some(FindBracket(text, m.value))
  }

  function SpanOf(isSpace: char -> bool, text: string, key: string): (r: Result<Option<Span>, PolicyError>)
    ensures r.Ok? && r.value.Some? ==> r.value.value.start < r.value.value.end <= |text|
  {
    var start := ArrayStart(isSpace, text, key);
    if start.None? then Ok(None)
    else
      var end := EndFrom(text, start.value, OUTSIDE);
      if end.None? then Err(UnterminatedArray(key)) else Ok(Some(Span(start.value, end.value)))
  }

  lemma EndStep(text: string, i: nat, lexer: Lexer)
    requires i < |text|
    ensures EndFrom(text, i, lexer)
            == if lexer.Ends(text[i]) then Some(i + 1) else EndFrom(text, i + 1, lexer.Next(text[i]))
  {
  }

  lemma EndAtLast(text: string, lexer: Lexer)
    ensures EndFrom(text, |text|, lexer) == None
  {
  }

  lemma SpanFrom(isSpace: char -> bool, text: string, key: string, start: nat)
    requires ArrayStart(isSpace, text, key) == Some(start)
    ensures SpanOf(isSpace, text, key)
            == var end := EndFrom(text, start, OUTSIDE);
               if end.None? then Err(UnterminatedArray(key)) else Ok(Some(Span(start, end.value)))
  {
    hide EndFrom;
  }

  method ArraySpan(isSpace: char -> bool, text: string, key: string) returns (r: Result<Option<Span>, PolicyError>)
    ensures r == SpanOf(isSpace, text, key)
  {
    var header := FindHeader(isSpace, text, key, 0);
    if header.None? {
      return Ok(None);
    }
    assert text[HeaderAt(isSpace, text, key, header.value).value] == '[';
    var start := FindBracket(text, header.value);
    assert ArrayStart(isSpace, text, key) == Some(start);
    SpanFrom(isSpace, text, key, start);
    hide HeaderAt, FindHeader, FindBracket, EndFrom, ArrayStart, SpanOf;
    var inString, escaped, depth := false, false, 0;
    for index := start to |text|
      invariant EndFrom(text, start, OUTSIDE) == EndFrom(text, index, Lexer(depth, inString, escaped))
    {
      EndStep(text, index, Lexer(depth, inString, escaped));
      var character := text[index];
      if inString {
        if escaped {
          escaped := false;
        } else if character == '\\' {
          escaped := true;
        } else if character == '"' {
          inString := false;
        }
        continue;
      }
      if character == '"' {
        inString := true;
      } else if character == '[' {
        depth := depth + 1;
      } else if character == ']' {
        depth := depth - 1;
        if depth == 0 {
          return Ok(Some(Span(start, index + 1)));
        }
      }
    }
    EndAtLast(text, Lexer(depth, inString, escaped));
    return Err(UnterminatedArray(key));
  }

  // ----- JSON strings -----

  const HEX: string := "0123456789abcdef"

  function Hex4(n: nat): string
    requires n < 0x10000
  {
    [HEX[n / 4096], HEX[n / 256 % 16], HEX[n / 16 % 16], HEX[n % 16]]
  }

  /** A character as it is written in a string of plain ASCII. */
  function Escape(c: char): string {
    var n := c as int;
    if c == '"' then "\\\""
    else if c == '\\' then "\\\\"
    else if c == '\n' then "\\n"
    else if c == '\r' then "\\r"
    else if c == '\t' then "\\t"
    else if n == 8 then "\\b"
    else if n == 12 then "\\f"
    else if 32 <= n <= 126 then [c]
    else if n < 0x10000 then "\\u" + Hex4(n)
    else "\\u" + Hex4(0xD800 + (n - 0x10000) / 1024 % 1024) + "\\u" + Hex4(0xDC00 + (n - 0x10000) % 1024)
  }

  function EscapeAll(value: string): string {
    if value == "" then "" else Escape(value[0]) + EscapeAll(value[1..])
  }

  function JsonString(value: string): string {
    "\"" + EscapeAll(value) + "\""
  }

  // ----- the replacement -----

  /** The white space between the leftmost line break that only white space separates from a quote, and that quote. */
  function IndentFrom(isSpace: char -> bool, text: string, i: nat): Option<string>
    decreases |text| - i
  {
    if |text| <= i then None
    else if text[i] == '\n' then
      var j := SkipSpaces(isSpace, text, i + 1);
      if j < |text| && text[j] == '"' then Some(text[i + 1..j]) else IndentFrom(isSpace, text, i + 1)
    else IndentFrom(isSpace, text, i + 1)
  }

  /** The white space between the leftmost line break that only white space separates from the last bracket, and it. */
  function ClosingFrom(isSpace: char -> bool, text: string, i: nat): Option<string>
    decreases |text| - i
  {
    if |text| <= i then None
    else if text[i] == '\n' then
      var j := SkipSpaces(isSpace, text, i + 1);
      if j + 1 == |text| && text[j] == ']' then Some(text[i + 1..j]) else ClosingFrom(isSpace, text, i + 1)
    else ClosingFrom(isSpace, text, i + 1)
  }

  function OrElse(found: Option<string>, default: string): string {
    if found.Some? then found.value else default
  }

  /** The lines of the array, separated by commas. */
  function Body(indent: string, values: seq<string>): string
    requires values != []
  {
    indent + JsonString(values[0]) + if |values| == 1 then "" else ",\n" + Body(indent, values[1..])
  }

  function Layout(indent: string, closing: string, values: seq<string>): string {
    if values == [] then "[]" else "[\n" + Body(indent, values) + "\n" + closing + "]"
  }

  function Splice(text: string, start: nat, end: nat, middle: string): string
    requires start <= end <= |text|
  {
    text[..start] + middle + text[end..]
  }

  /** An array laid out like an array it replaces. */
  function Rebuilt(isSpace: char -> bool, arrayText: string, values: seq<string>): string {
    Layout(OrElse(IndentFrom(isSpace, arrayText, 0), "    "), OrElse(ClosingFrom(isSpace, arrayText, 0), "  "), values)
  }

  function Replaced(isSpace: char -> bool, text: string, key: string, values: seq<string>)
    : Result<string, PolicyError>
  {
    match SpanOf(isSpace, text, key)
    case Err(e) => Err(e)
    case Ok(None) => Err(MissingArray(key))
    case Ok(Some(span)) =>
      Ok(Splice(text, span.start, span.end, Rebuilt(isSpace, text[span.start..span.end], values)))
  }

  // ----- reading over what was written -----

  /** The lexer after a stretch of text in which the array does not end. */
  function Over(lexer: Lexer, text: string): Option<Lexer>
    decreases text
  {
    if text == "" then Some(lexer)
    else if lexer.Ends(text[0]) then None
    else Over(lexer.Next(text[0]), text[1..])
  }

  lemma {:induction false} OverJoin(lexer: Lexer, a: string, b: string)
    requires Over(lexer, a).Some?
    ensures Over(lexer, a + b) == Over(Over(lexer, a).value, b)
    decreases a
  {
    if a == "" {
      assert a + b == b;
    } else {
      OverJoin(lexer.Next(a[0]), a[1..], b);
      assert (a + b)[1..] == a[1..] + b;
    }
  }

  lemma {:induction false} EndOver(text: string, i: nat, j: nat, lexer: Lexer)
    requires i <= j <= |text| && Over(lexer, text[i..j]).Some?
    ensures EndFrom(text, i, lexer) == EndFrom(text, j, Over(lexer, text[i..j]).value)
    decreases j - i
  {
    if i < j {
      assert text[i..j][1..] == text[i + 1..j];
      EndOver(text, i + 1, j, lexer.Next(text[i]));
    }
  }

  lemma {:induction false} OverSpaces(isSpace: char -> bool, text: string)
    requires Spaces(isSpace) && forall c :: c in text ==> isSpace(c) || c == ','
    ensures Over(INSIDE, text) == Some(INSIDE)
  {
    if text != "" {
      assert text[0] in text;
      assert forall c :: c in text[1..] ==> c in text;
      assert text[0] != '"' && text[0] != '[' && text[0] != ']' by {
        assert '"' in "\"\\:,[]" && '[' in "\"\\:,[]" && ']' in "\"\\:,[]";
      }
      OverSpaces(isSpace, text[1..]);
    }
  }

  lemma HexPlain(n: nat)
    requires n < 16
    ensures HEX[n] != '"' && HEX[n] != '\\' && HEX[n] != ']'
  {
  }

  lemma {:induction false} OverPlain(text: string)
    requires forall k :: 0 <= k < |text| ==> text[k] != '"' && text[k] != '\\'
    ensures Over(QUOTED, text) == Some(QUOTED)
  {
    if text != "" {
      OverPlain(text[1..]);
    }
  }

  lemma OverUnicode(n: nat)
    requires n < 0x10000
    ensures Over(QUOTED, "\\u" + Hex4(n)) == Some(QUOTED)
  {
    var text := "\\u" + Hex4(n);
    HexPlain(n / 4096);
    HexPlain(n / 256 % 16);
    HexPlain(n / 16 % 16);
    HexPlain(n % 16);
    assert text[1..] == "u" + Hex4(n) && text[1..][1..] == Hex4(n);
    OverPlain(Hex4(n));
  }

  lemma OverPair(high: nat, low: nat)
    requires high < 0x10000 && low < 0x10000
    ensures Over(QUOTED, "\\u" + Hex4(high) + "\\u" + Hex4(low)) == Some(QUOTED)
  {
    hide Over, Hex4;
    OverUnicode(high);
    OverUnicode(low);
    OverJoin(QUOTED, "\\u" + Hex4(high), "\\u" + Hex4(low));
    assert "\\u" + Hex4(high) + "\\u" + Hex4(low) == ("\\u" + Hex4(high)) + ("\\u" + Hex4(low));
  }

  lemma OverShort(text: string)
    requires |text| == 2 && text[0] == '\\'
    ensures Over(QUOTED, text) == Some(QUOTED)
  {
    assert text[1..][1..] == "";
    assert Over(QUOTED.Next('\\').Next(text[1]), "") == Some(QUOTED);
  }

  lemma OverEscape(c: char)
    ensures Over(QUOTED, Escape(c)) == Some(QUOTED)
  {
    hide Over, Hex4;
    var n, text := c as int, Escape(c);
    if 0x10000 <= n {
      OverPair(0xD800 + (n - 0x10000) / 1024 % 1024, 0xDC00 + (n - 0x10000) % 1024);
    } else if text == "\\u" + Hex4(n) {
      OverUnicode(n);
    } else if text == [c] {
      OverPlain(text);
    } else {
      OverShort(text);
    }
  }

  lemma {:induction false} OverEscapes(value: string)
    ensures Over(QUOTED, EscapeAll(value)) == Some(QUOTED)
  {
    if value != "" {
      OverEscape(value[0]);
      OverEscapes(value[1..]);
      OverJoin(QUOTED, Escape(value[0]), EscapeAll(value[1..]));
    }
  }

  lemma OverString(value: string)
    ensures Over(INSIDE, JsonString(value)) == Some(INSIDE)
  {
    hide EscapeAll, Over;
    OverEscapes(value);
    assert (EscapeAll(value) + "\"") == JsonString(value)[1..];
    OverJoin(QUOTED, EscapeAll(value), "\"");
    OverOpening(JsonString(value));
    OverClosing();
  }

  lemma OverOpening(text: string)
    requires text != "" && text[0] == '"'
    ensures Over(INSIDE, text) == Over(QUOTED, text[1..])
  {
  }

  lemma OverClosing()
    ensures Over(QUOTED, "\"") == Some(INSIDE)
  {
    assert Over(QUOTED.Next('"'), "\""[1..]) == Some(INSIDE);
  }

  lemma {:induction false} OverBody(isSpace: char -> bool, indent: string, values: seq<string>)
    requires Spaces(isSpace) && values != [] && forall c :: c in indent ==> isSpace(c)
    ensures Over(INSIDE, Body(indent, values)) == Some(INSIDE)
  {
    OverSpaces(isSpace, indent);
    OverString(values[0]);
    OverJoin(INSIDE, indent, JsonString(values[0]));
    var first := indent + JsonString(values[0]);
    if |values| == 1 {
      assert Body(indent, values) == first;
    } else {
      OverBody(isSpace, indent, values[1..]);
      OverSpaces(isSpace, ",\n");
      OverJoin(INSIDE, ",\n", Body(indent, values[1..]));
      OverJoin(INSIDE, first, ",\n" + Body(indent, values[1..]));
      assert Body(indent, values) == first + (",\n" + Body(indent, values[1..]));
    }
  }

  // ----- where the rebuilt array ends -----

  ghost predicate AllSpaces(isSpace: char -> bool, text: string) {
    forall c :: c in text ==> isSpace(c)
  }

  /** What stands between the brackets. */
  function Middle(indent: string, closing: string, values: seq<string>): string {
    if values == [] then "" else "\n" + Body(indent, values) + ("\n" + closing)
  }

  lemma OverMiddle(isSpace: char -> bool, indent: string, closing: string, values: seq<string>)
    requires Spaces(isSpace) && AllSpaces(isSpace, indent) && AllSpaces(isSpace, closing)
    ensures Over(INSIDE, Middle(indent, closing, values)) == Some(INSIDE)
  {
    if values != [] {
      hide Over, Body;
      var body, end := Body(indent, values), "\n" + closing;
      OverSpaces(isSpace, "\n");
      OverBody(isSpace, indent, values);
      OverSpaces(isSpace, end);
      hide *;
      OverJoin(INSIDE, "\n", body);
      OverJoin(INSIDE, "\n" + body, end);
    }
  }

  lemma LayoutParts(indent: string, closing: string, values: seq<string>)
    ensures Layout(indent, closing, values) == "[" + Middle(indent, closing, values) + "]"
  {
    hide Body;
  }

  /** Read from its first bracket, an array in which nothing ends it ends at its last one. */
  lemma BracketedEnds(text: string, start: nat, end: nat, middle: string)
    requires Over(INSIDE, middle) == Some(INSIDE) && start <= end <= |text|
    ensures EndFrom(Splice(text, start, end, "[" + middle + "]"), start, OUTSIDE) == Some(start + |middle| + 2)
  {
    var text' := Splice(text, start, end, "[" + middle + "]");
    var j := start + 1 + |middle|;
    assert text'[start] == '[' && text'[start + 1..j] == middle && text'[j] == ']';
    EndOver(text', start + 1, j, INSIDE);
    assert EndFrom(text', start, OUTSIDE) == EndFrom(text', start + 1, INSIDE);
  }

  // ----- the header is found again -----

  /** Two texts that agree up to n. */
  ghost predicate Agree(a: string, b: string, n: nat) {
    n <= |a| && n <= |b| && a[..n] == b[..n]
  }

  lemma AgreeLengths(a: string, b: string, n: nat)
    requires Agree(a, b, n)
    ensures n <= |a| && n <= |b|
  {
  }

  lemma AgreeAt(a: string, b: string, n: nat, k: nat)
    requires Agree(a, b, n) && k < n
    ensures a[k] == b[k]
  {
    assert a[k] == a[..n][k] == b[..n][k];
  }

  lemma AgreeStarts(a: string, b: string, n: nat, i: nat, pattern: string)
    requires Agree(a, b, n) && StartsAt(a, i, pattern) && i + |pattern| <= n
    ensures StartsAt(b, i, pattern)
  {
    assert b[i..i + |pattern|] == b[..n][i..i + |pattern|] == a[..n][i..i + |pattern|] == a[i..i + |pattern|];
  }

  lemma {:induction false} SkipSame(isSpace: char -> bool, a: string, b: string, i: nat, n: nat)
    requires Agree(a, b, n) && i <= n && SkipSpaces(isSpace, a, i) < n
    ensures SkipSpaces(isSpace, b, i) == SkipSpaces(isSpace, a, i)
    decreases n - i
  {
    AgreeAt(a, b, n, i);
    if isSpace(a[i]) {
      SkipSame(isSpace, a, b, i + 1, n);
    }
  }

  /** Whether a header stands at a place depends on the text up to its bracket only. */
  lemma HeaderSame(isSpace: char -> bool, a: string, b: string, key: string, i: nat, n: nat)
    requires Agree(a, b, n)
    requires HeaderAt(isSpace, a, key, i).Some? && HeaderAt(isSpace, a, key, i).value < n
    ensures HeaderAt(isSpace, b, key, i) == HeaderAt(isSpace, a, key, i)
  {
    hide *;
    var quoted := "\"" + key + "\"";
    HeaderSteps(isSpace, a, key, i);
    var colon := SkipSpaces(isSpace, a, i + |quoted|);
    var bracket := SkipSpaces(isSpace, a, colon + 1);
    AgreeLengths(a, b, n);
    AgreeStarts(a, b, n, i, quoted);
    SkipSame(isSpace, a, b, i + |quoted|, n);
    AgreeAt(a, b, n, colon);
    SkipSame(isSpace, a, b, colon + 1, n);
    AgreeAt(a, b, n, bracket);
    HeaderFrom(isSpace, b, key, i, colon, bracket);
  }

  lemma HeaderSteps(isSpace: char -> bool, text: string, key: string, i: nat)
    requires HeaderAt(isSpace, text, key, i).Some?
    ensures var quoted := "\"" + key + "\"";
            var colon := SkipSpaces(isSpace, text, i + |quoted|);
            var bracket := SkipSpaces(isSpace, text, colon + 1);
            && StartsAt(text, i, quoted) && i + |quoted| <= colon < bracket < |text|
            && text[colon] == ':' && text[bracket] == '[' && HeaderAt(isSpace, text, key, i) == Some(bracket)
  {
    hide StartsAt;
  }

  lemma HeaderFrom(isSpace: char -> bool, text: string, key: string, i: nat, colon: nat, bracket: nat)
    requires StartsAt(text, i, "\"" + key + "\"") && colon == SkipSpaces(isSpace, text, i + |"\"" + key + "\""|)
    requires colon < |text| && text[colon] == ':' && bracket == SkipSpaces(isSpace, text, colon + 1)
    requires bracket < |text| && text[bracket] == '['
    ensures HeaderAt(isSpace, text, key, i) == Some(bracket)
  {
    hide StartsAt;
  }

  /** No bracket stands inside a header, so the first bracket after its start is the one that ends it. */
  lemma HeaderBracket(isSpace: char -> bool, text: string, key: string, i: nat)
    requires Spaces(isSpace) && '[' !in key && HeaderAt(isSpace, text, key, i).Some?
    ensures forall k :: i <= k < HeaderAt(isSpace, text, key, i).value ==> text[k] != '['
  {
    var quoted := "\"" + key + "\"";
    var q := i + |quoted|;
    var colon := SkipSpaces(isSpace, text, q);
    assert '[' in "\"\\:,[]" && !isSpace('[');
    forall k | i <= k < HeaderAt(isSpace, text, key, i).value
      ensures text[k] != '['
    {
      if k < q {
        assert text[k] == text[i..q][k - i] && quoted[k - i] in quoted;
      }
    }
  }

  /** A header that starts before a bracket is one of every text that agrees up to that bracket. */
  lemma HeaderBefore(isSpace: char -> bool, a: string, b: string, key: string, i: nat, start: nat)
    requires Spaces(isSpace) && '[' !in key && i <= start && Agree(a, b, start + 1)
    requires a[start] == '[' && HeaderAt(isSpace, a, key, i).Some?
    ensures HeaderAt(isSpace, b, key, i) == HeaderAt(isSpace, a, key, i)
  {
    HeaderBracket(isSpace, a, key, i);
    HeaderSame(isSpace, a, b, key, i, start + 1);
  }

  /** The array starts at the bracket of the leftmost header. */
  lemma StartIsBracket(isSpace: char -> bool, text: string, key: string, m: nat)
    requires Spaces(isSpace) && '[' !in key && HeaderAt(isSpace, text, key, m).Some?
    requires forall k: nat :: k < m ==> HeaderAt(isSpace, text, key, k).None?
    ensures ArrayStart(isSpace, text, key) == HeaderAt(isSpace, text, key, m)
  {
    HeaderBracket(isSpace, text, key, m);
    var found := FindHeader(isSpace, text, key, 0);
    assert found.Some? && found.value == m;
    hide HeaderAt;
  }

  /** The array is found where it was in every text that agrees with this one up to its first bracket. */
  lemma StartKept(isSpace: char -> bool, text: string, text': string, key: string)
    requires Spaces(isSpace) && '[' !in key && ArrayStart(isSpace, text, key).Some?
    requires Agree(text, text', ArrayStart(isSpace, text, key).value + 1)
    ensures ArrayStart(isSpace, text', key) == ArrayStart(isSpace, text, key)
  {
    var m := FindHeader(isSpace, text, key, 0).value;
    var start := ArrayStart(isSpace, text, key).value;
    StartIsBracket(isSpace, text, key, m);
    AgreeAt(text, text', start + 1, start);
    assert Agree(text', text, start + 1);
    hide HeaderAt, FindHeader, ArrayStart, Spaces;
    HeaderBefore(isSpace, text, text', key, m, start);
    forall k: nat | k < m
      ensures HeaderAt(isSpace, text', key, k).None?
    {
      if HeaderAt(isSpace, text', key, k).Some? {
        HeaderBefore(isSpace, text', text, key, k, start);
        assert false;
      }
    }
    StartIsBracket(isSpace, text', key, m);
  }

  /** The array starts at the bracket of the leftmost header exactly for the keys that hold no bracket. */
  lemma StartIff(isSpace: char -> bool, text: string, key: string)
    requires Spaces(isSpace) && FindHeader(isSpace, text, key, 0).Some?
    ensures ArrayStart(isSpace, text, key) == HeaderAt(isSpace, text, key, FindHeader(isSpace, text, key, 0).value)
            <==> '[' !in key
  {
    if '[' !in key {
      StartIsBracket(isSpace, text, key, FindHeader(isSpace, text, key, 0).value);
    } else {
      hide ArrayStart, HeaderAt;
      var i := FirstBracket(key);
      var m := StartOf(isSpace, text, key);
      BracketOfKey(text, m, key, i);
      HeaderSteps(isSpace, text, key, m);
      hide SkipSpaces, StartsAt;
    }
  }

  /** The leftmost header, and the array at the first bracket from there on. */
  lemma StartOf(isSpace: char -> bool, text: string, key: string) returns (m: nat)
    requires FindHeader(isSpace, text, key, 0).Some? || ArrayStart(isSpace, text, key).Some?
    ensures FindHeader(isSpace, text, key, 0) == Some(m) && StartsAt(text, m, "\"" + key + "\"")
    ensures ArrayStart(isSpace, text, key).Some?
    ensures var p := ArrayStart(isSpace, text, key).value;
            m <= p < |text| && text[p] == '[' && NoBracket(text, m, p)
  {
    m := FindHeader(isSpace, text, key, 0).value;
    HeaderSteps(isSpace, text, key, m);
    hide HeaderAt, SkipSpaces, StartsAt;
  }

  predicate NoBracket(text: string, i: nat, j: nat)
    requires j <= |text|
  {
    forall k :: i <= k < j ==> text[k] != '['
  }

  /** The first bracket after the start of a quoted key with a bracket. */
  lemma BracketOfKey(text: string, m: nat, key: string, i: nat)
    requires StartsAt(text, m, "\"" + key + "\"") && i < |key| && key[i] == '[' && NoBracket(key, 0, i)
    ensures m + 1 + i < |text| && text[m + 1 + i] == '[' && NoBracket(text, m, m + 1 + i)
    ensures forall p: nat :: m <= p < |text| && text[p] == '[' && NoBracket(text, m, p) ==> p == m + 1 + i
  {
    QuotedAt(text, m, key, 1 + i);
    forall k | m <= k < m + 1 + i
      ensures text[k] != '['
    {
      QuotedAt(text, m, key, k - m);
    }
    hide StartsAt;
  }

  lemma FirstBracket(key: string) returns (i: nat)
    requires '[' in key
    ensures i < |key| && key[i] == '[' && NoBracket(key, 0, i)
  {
    var p :| 0 <= p < |key| && key[p] == '[';
    i := FindBracket(key, 0);
  }

  /** What stands in a text at which the quoted key starts. */
  lemma QuotedAt(text: string, m: nat, key: string, k: nat)
    requires StartsAt(text, m, "\"" + key + "\"") && k < |key| + 2
    ensures m + k < |text| && text[m + k] == ("\"" + key + "\"")[k]
  {
    var quoted := "\"" + key + "\"";
    assert text[m + k] == text[m..m + |quoted|][k];
  }

  /** With a bracket in the key the array is looked for inside the key: here is a text for which that goes wrong. */
  lemma BracketInKey(isSpace: char -> bool)
    requires Spaces(isSpace)
    ensures SpanOf(isSpace, "\"a[]\":[]", "a[]") == Ok(Some(Span(2, 4)))
    ensures HeaderAt(isSpace, "\"a[]\":[]", "a[]", 0) == Some(6)
  {
    var text := "\"a[]\":[]";
    assert text[0..5] == "\"" + "a[]" + "\"";
    assert ':' in "\"\\:,[]" && '[' in "\"\\:,[]";
    assert SkipSpaces(isSpace, text, 5) == 5 && SkipSpaces(isSpace, text, 6) == 6;
    assert FindHeader(isSpace, text, "a[]", 0) == Some(0);
    assert FindBracket(text, 0) == 2 by {
      assert text[0] != '[' && text[1] != '[' && text[2] == '[';
    }
    assert EndFrom(text, 2, OUTSIDE) == EndFrom(text, 3, INSIDE) == Some(4);
  }

  // ----- the layout is found again -----

  lemma {:induction false} SkipOver(isSpace: char -> bool, text: string, i: nat, j: nat)
    requires i <= j <= |text| && (forall k :: i <= k < j ==> isSpace(text[k])) && (j < |text| ==> !isSpace(text[j]))
    ensures SkipSpaces(isSpace, text, i) == j
    decreases j - i
  {
    if i < j {
      SkipOver(isSpace, text, i + 1, j);
    }
  }

  lemma BodyEnds(indent: string, values: seq<string>)
    requires values != []
    ensures var body := Body(indent, values);
            && |indent| + 2 <= |body| && body[..|indent|] == indent && body[|indent|] == '"' && body[|body| - 1] == '"'
  {
    if |values| > 1 {
      BodyEnds(indent, values[1..]);
    }
  }

  lemma IndentFound(isSpace: char -> bool, indent: string, closing: string, values: seq<string>)
    requires Spaces(isSpace) && AllSpaces(isSpace, indent) && values != []
    ensures IndentFrom(isSpace, Layout(indent, closing, values), 0) == Some(indent)
  {
    var layout, body := Layout(indent, closing, values), Body(indent, values);
    LayoutIs(indent, closing, values);
    hide Body, Layout, IndentFrom, AllSpaces, Spaces, SkipSpaces;
    BodyEnds(indent, values);
    HeadLines(indent, body, "\n" + closing + "]", layout);
    SkipIndent(isSpace, layout, indent, 2 + |indent|);
    IndentAt(isSpace, layout, 2 + |indent|);
  }

  lemma LayoutIs(indent: string, closing: string, values: seq<string>)
    requires values != []
    ensures Layout(indent, closing, values) == "[\n" + Body(indent, values) + ("\n" + closing + "]")
  {
    hide Body;
  }

  lemma HeadLines(indent: string, body: string, rest: string, text: string)
    requires |indent| < |body| && body[..|indent|] == indent && body[|indent|] == '"'
    requires text == "[\n" + body + rest
    ensures 2 + |indent| < |text| && text[0] == '[' && text[1] == '\n' && text[2 + |indent|] == '"'
    ensures text[2..2 + |indent|] == indent
  {
    assert text[2..2 + |indent|] == body[..|indent|];
  }

  lemma SkipIndent(isSpace: char -> bool, text: string, indent: string, j: nat)
    requires Spaces(isSpace) && AllSpaces(isSpace, indent)
    requires 2 <= j < |text| && text[2..j] == indent && text[j] == '"'
    ensures SkipSpaces(isSpace, text, 2) == j
  {
    assert '"' in "\"\\:,[]";
    assert forall k :: 2 <= k < j ==> text[k] == indent[k - 2] && indent[k - 2] in indent;
    SkipOver(isSpace, text, 2, j);
  }

  lemma IndentAt(isSpace: char -> bool, text: string, j: nat)
    requires 2 <= j < |text| && text[0] != '\n' && text[1] == '\n' && text[j] == '"'
    requires SkipSpaces(isSpace, text, 2) == j
    ensures IndentFrom(isSpace, text, 0) == Some(text[2..j])
  {
    hide SkipSpaces;
    assert IndentFrom(isSpace, text, 1) == Some(text[2..j]);
  }

  /** No closing of the text starts at k. */
  predicate NoClosing(isSpace: char -> bool, text: string, k: nat)
    requires k < |text|
  {
    text[k] == '\n' ==> SkipSpaces(isSpace, text, k + 1) + 1 != |text|
  }

  lemma {:induction false} ClosingLater(isSpace: char -> bool, text: string, i: nat, p: nat)
    requires i <= p < |text| && forall k: nat :: i <= k < p ==> NoClosing(isSpace, text, k)
    ensures ClosingFrom(isSpace, text, i) == ClosingFrom(isSpace, text, p)
    decreases p - i
  {
    if i < p {
      assert NoClosing(isSpace, text, i);
      ClosingLater(isSpace, text, i + 1, p);
    }
  }

  /** White space is not skipped over a quote. */
  lemma {:induction false} SkipStops(isSpace: char -> bool, text: string, i: nat, q: nat)
    requires i <= q < |text| && !isSpace(text[q])
    ensures SkipSpaces(isSpace, text, i) <= q
    decreases q - i
  {
    if i < q {
      SkipStops(isSpace, text, i + 1, q);
    }
  }

  lemma ClosingAt(isSpace: char -> bool, text: string, p: nat, closing: string)
    requires Spaces(isSpace) && AllSpaces(isSpace, closing) && p + 2 + |closing| == |text|
    requires text[p] == '\n' && text[p + 1..|text| - 1] == closing && text[|text| - 1] == ']'
    requires 0 < p && text[p - 1] == '"'
    ensures ClosingFrom(isSpace, text, 0) == Some(closing)
  {
    assert '"' in "\"\\:,[]" && ']' in "\"\\:,[]";
    assert AllWithin(isSpace, text, p + 1, |text| - 1) by {
      assert forall k :: p + 1 <= k < |text| - 1 ==> text[k] == closing[k - p - 1] && closing[k - p - 1] in closing;
    }
    hide SkipSpaces, Spaces, AllSpaces, ClosingFrom;
    NoClosingBefore(isSpace, text, p);
    ClosingLater(isSpace, text, 0, p);
    SkipWithin(isSpace, text, p + 1, |text| - 1);
    ClosingHere(isSpace, text, p);
  }

  predicate AllWithin(isSpace: char -> bool, text: string, i: nat, j: nat)
    requires j <= |text|
  {
    forall k :: i <= k < j ==> isSpace(text[k])
  }

  lemma SkipWithin(isSpace: char -> bool, text: string, i: nat, j: nat)
    requires i <= j < |text| && AllWithin(isSpace, text, i, j) && !isSpace(text[j])
    ensures SkipSpaces(isSpace, text, i) == j
  {
    SkipOver(isSpace, text, i, j);
  }

  lemma NoClosingBefore(isSpace: char -> bool, text: string, p: nat)
    requires 0 < p < |text| && text[p - 1] != '\n' && !isSpace(text[p - 1])
    ensures forall k: nat :: k < p ==> NoClosing(isSpace, text, k)
  {
    forall k: nat | k < p
      ensures NoClosing(isSpace, text, k)
    {
      if k < p - 1 {
        SkipStops(isSpace, text, k + 1, p - 1);
      }
    }
  }

  lemma ClosingHere(isSpace: char -> bool, text: string, p: nat)
    requires p + 1 < |text| && text[p] == '\n' && text[|text| - 1] == ']'
    requires SkipSpaces(isSpace, text, p + 1) == |text| - 1
    ensures ClosingFrom(isSpace, text, p) == Some(text[p + 1..|text| - 1])
  {
    hide SkipSpaces;
  }

  lemma ClosingFound(isSpace: char -> bool, indent: string, closing: string, values: seq<string>)
    requires Spaces(isSpace) && AllSpaces(isSpace, closing) && values != []
    ensures ClosingFrom(isSpace, Layout(indent, closing, values), 0) == Some(closing)
  {
    var layout, body := Layout(indent, closing, values), Body(indent, values);
    BodyEnds(indent, values);
    hide Body, ClosingFrom, AllSpaces, Spaces;
    var p := 2 + |body|;
    assert layout[p - 1] == body[|body| - 1] && layout[p + 1..|layout| - 1] == closing;
    ClosingAt(isSpace, layout, p, closing);
  }

  /** What is taken over from an old array is white space. */
  lemma {:induction false} FoundSpaces(isSpace: char -> bool, text: string, i: nat)
    ensures IndentFrom(isSpace, text, i).Some? ==> AllSpaces(isSpace, IndentFrom(isSpace, text, i).value)
    ensures ClosingFrom(isSpace, text, i).Some? ==> AllSpaces(isSpace, ClosingFrom(isSpace, text, i).value)
    decreases |text| - i
  {
    if i < |text| {
      FoundSpaces(isSpace, text, i + 1);
      if text[i] == '\n' {
        var j := SkipSpaces(isSpace, text, i + 1);
        assert forall c :: c in text[i + 1..j] ==> isSpace(c);
      }
    }
  }

  // ----- what the replacement promises -----

  /** A rebuilt array is rebuilt to itself. */
  lemma RebuiltAgain(isSpace: char -> bool, arrayText: string, values: seq<string>)
    requires Spaces(isSpace)
    ensures Rebuilt(isSpace, Rebuilt(isSpace, arrayText, values), values) == Rebuilt(isSpace, arrayText, values)
  {
    var indent := OrElse(IndentFrom(isSpace, arrayText, 0), "    ");
    var closing := OrElse(ClosingFrom(isSpace, arrayText, 0), "  ");
    FoundSpaces(isSpace, arrayText, 0);
    if values != [] {
      IndentFound(isSpace, indent, closing, values);
      ClosingFound(isSpace, indent, closing, values);
    }
    hide IndentFrom, ClosingFrom;
  }

  lemma RebuiltLayout(isSpace: char -> bool, arrayText: string, values: seq<string>)
    returns (indent: string, closing: string)
    requires Spaces(isSpace)
    ensures AllSpaces(isSpace, indent) && AllSpaces(isSpace, closing)
    ensures Rebuilt(isSpace, arrayText, values) == Layout(indent, closing, values)
  {
    indent := OrElse(IndentFrom(isSpace, arrayText, 0), "    ");
    closing := OrElse(ClosingFrom(isSpace, arrayText, 0), "  ");
    FoundSpaces(isSpace, arrayText, 0);
  }

  lemma RebuiltEnds(isSpace: char -> bool, text: string, start: nat, end: nat, arrayText: string, values: seq<string>)
    requires Spaces(isSpace) && start <= end <= |text|
    ensures var rebuilt := Rebuilt(isSpace, arrayText, values);
            && EndFrom(Splice(text, start, end, rebuilt), start, OUTSIDE) == Some(start + |rebuilt|)
            && rebuilt != "" && rebuilt[0] == '['
  {
    hide *;
    var indent, closing := RebuiltLayout(isSpace, arrayText, values);
    OverMiddle(isSpace, indent, closing, values);
    LayoutParts(indent, closing, values);
    BracketedEnds(text, start, end, Middle(indent, closing, values));
  }

  lemma Spliced(text: string, start: nat, end: nat, middle: string)
    requires start < end <= |text| && middle != "" && middle[0] == text[start]
    ensures var text' := Splice(text, start, end, middle);
            && |text'| == |text| - (end - start) + |middle|
            && text'[..start] == text[..start] && text'[start..start + |middle|] == middle
            && text'[start + |middle|..] == text[end..] && Agree(text, text', start + 1)
            && Splice(text', start, start + |middle|, middle) == text'
    ensures Splice(text, start, end, middle) == text[..start] + middle + text[end..]
  {
    var text' := Splice(text, start, end, middle);
    assert text'[start + |middle|..] == text[end..];
  }

  lemma SpanFound(isSpace: char -> bool, text: string, key: string, start: nat, end: nat)
    requires ArrayStart(isSpace, text, key) == Some(start) && EndFrom(text, start, OUTSIDE) == Some(end)
    ensures SpanOf(isSpace, text, key) == Ok(Some(Span(start, end)))
  {
  }

  /** The array of the new text is exactly what was written. */
  lemma SpanKept(isSpace: char -> bool, text: string, key: string, values: seq<string>, span: Span)
    requires Spaces(isSpace) && '[' !in key && SpanOf(isSpace, text, key) == Ok(Some(span))
    ensures var rebuilt := Rebuilt(isSpace, text[span.start..span.end], values);
            && rebuilt != "" && rebuilt[0] == text[span.start]
            && SpanOf(isSpace, Splice(text, span.start, span.end, rebuilt), key)
               == Ok(Some(Span(span.start, span.start + |rebuilt|)))
  {
    hide *;
    SpanOrdered(isSpace, text, key, span);
    var arrayText := text[span.start..span.end];
    var rebuilt := Rebuilt(isSpace, arrayText, values);
    var text' := Splice(text, span.start, span.end, rebuilt);
    RebuiltEnds(isSpace, text, span.start, span.end, arrayText, values);
    Spliced(text, span.start, span.end, rebuilt);
    StartKept(isSpace, text, text', key);
    SpanFound(isSpace, text', key, span.start, span.start + |rebuilt|);
  }

  /**
   For every text that holds the array and every list of strings, whatever quotes, backslashes, brackets or control
   characters are in them: nothing outside the array changes, the array is found again, exactly as rebuilt, and a
   second replacement changes nothing.
   */
  lemma ReplacementPromise(isSpace: char -> bool, text: string, key: string, values: seq<string>, span: Span)
    returns (rebuilt: string, text': string)
    requires Spaces(isSpace) && '[' !in key && SpanOf(isSpace, text, key) == Ok(Some(span))
    ensures Replaced(isSpace, text, key, values) == Ok(text')
    ensures text' == text[..span.start] + rebuilt + text[span.end..]
    ensures SpanOf(isSpace, text', key) == Ok(Some(Span(span.start, span.start + |rebuilt|)))
    ensures Replaced(isSpace, text', key, values) == Ok(text')
  {
    hide *;
    SpanOrdered(isSpace, text, key, span);
    var arrayText := text[span.start..span.end];
    rebuilt := Rebuilt(isSpace, arrayText, values);
    text' := Splice(text, span.start, span.end, rebuilt);
    SpanKept(isSpace, text, key, values, span);
    RebuiltAgain(isSpace, arrayText, values);
    Spliced(text, span.start, span.end, rebuilt);
    ReplacedBy(isSpace, text, key, values, span);
    ReplacedBy(isSpace, text', key, values, Span(span.start, span.start + |rebuilt|));
  }

  lemma SpanOrdered(isSpace: char -> bool, text: string, key: string, span: Span)
    requires SpanOf(isSpace, text, key) == Ok(Some(span))
    ensures span.start < span.end <= |text| && text[span.start] == '['
    ensures ArrayStart(isSpace, text, key) == Some(span.start)
  {
  }

  lemma ReplacedBy(isSpace: char -> bool, text: string, key: string, values: seq<string>, span: Span)
    requires SpanOf(isSpace, text, key) == Ok(Some(span))
    ensures Replaced(isSpace, text, key, values)
            == Ok(Splice(text, span.start, span.end, Rebuilt(isSpace, text[span.start..span.end], values)))
  {
    hide Rebuilt, Splice;
  }

  // ----- what a span is -----

  /** A quoted key, a colon and a bracket, with white space around the colon. */
  function HeaderText(key: string, before: string, after: string): string {
    "\"" + key + "\"" + (before + ":" + after + "[")
  }

  lemma SkipWord(isSpace: char -> bool, text: string, i: nat, spaces: string)
    requires AllSpaces(isSpace, spaces) && i + |spaces| < |text| && text[i..i + |spaces|] == spaces
    requires !isSpace(text[i + |spaces|])
    ensures SkipSpaces(isSpace, text, i) == i + |spaces|
  {
    forall k | i <= k < i + |spaces|
      ensures isSpace(text[k])
    {
      assert text[k] == text[i..i + |spaces|][k - i] && spaces[k - i] in spaces;
    }
    SkipOver(isSpace, text, i, i + |spaces|);
  }

  lemma HeaderPlaces(text: string, i: nat, key: string, before: string, after: string)
    requires StartsAt(text, i, HeaderText(key, before, after))
    ensures var q := i + |key| + 2;
            var colon := q + |before|;
            var bracket := colon + 1 + |after|;
            && bracket < |text| && StartsAt(text, i, "\"" + key + "\"") && text[q..colon] == before
            && text[colon] == ':' && text[colon + 1..bracket] == after && text[bracket] == '['
  {
    var whole, q := HeaderText(key, before, after), |key| + 2;
    var colon := q + |before|;
    HeaderShape(key, before, after);
    hide HeaderText;
    Slice(text, i, whole, 0, q);
    if before != "" {
      Slice(text, i, whole, q, colon);
    }
    Slice(text, i, whole, colon, colon + 1);
    if after != "" {
      Slice(text, i, whole, colon + 1, |whole| - 1);
    }
    Slice(text, i, whole, |whole| - 1, |whole|);
  }

  lemma HeaderShape(key: string, before: string, after: string)
    ensures var (whole, q) := (HeaderText(key, before, after), |key| + 2);
            var colon := q + |before|;
            && |whole| == colon + |after| + 2 && whole[..q] == "\"" + key + "\"" && whole[q..colon] == before
            && whole[colon] == ':' && whole[colon + 1..|whole| - 1] == after && whole[|whole| - 1] == '['
  {
    var rest := before + ":" + after + "[";
    assert rest[..|before|] == before && rest[|before| + 1..|rest| - 1] == after;
  }

  lemma Slice(text: string, i: nat, pattern: string, a: nat, b: nat)
    requires StartsAt(text, i, pattern) && a < b <= |pattern|
    ensures i + b <= |text| && text[i + a..i + b] == pattern[a..b] && text[i + a] == pattern[a]
  {
    var part := text[i..i + |pattern|];
    forall k: nat | k < b - a
      ensures text[i + a..i + b][k] == pattern[a..b][k]
    {
      assert text[i + a..i + b][k] == part[a + k];
    }
    assert text[i + a] == text[i + a..i + b][0];
  }

  lemma NotSpaces(isSpace: char -> bool)
    requires Spaces(isSpace)
    ensures !isSpace(':') && !isSpace('[')
  {
    assert ':' in "\"\\:,[]" && '[' in "\"\\:,[]";
  }

  lemma HeaderLength(key: string, before: string, after: string)
    ensures |HeaderText(key, before, after)| == |key| + |before| + |after| + 4
  {
  }

  lemma HeaderHere(isSpace: char -> bool, text: string, key: string, i: nat, before: string, after: string)
    requires Spaces(isSpace) && AllSpaces(isSpace, before) && AllSpaces(isSpace, after)
    requires StartsAt(text, i, HeaderText(key, before, after))
    ensures HeaderAt(isSpace, text, key, i) == Some(i + |HeaderText(key, before, after)| - 1)
  {
    hide *;
    var q := i + |key| + 2;
    var colon := q + |before|;
    NotSpaces(isSpace);
    HeaderLength(key, before, after);
    HeaderPlaces(text, i, key, before, after);
    SkipWord(isSpace, text, q, before);
    SkipWord(isSpace, text, colon + 1, after);
    HeaderFrom(isSpace, text, key, i, colon, colon + 1 + |after|);
  }

  lemma HeaderWords(isSpace: char -> bool, text: string, key: string, i: nat) returns (before: string, after: string)
    requires HeaderAt(isSpace, text, key, i).Some?
    ensures AllSpaces(isSpace, before) && AllSpaces(isSpace, after)
    ensures StartsAt(text, i, HeaderText(key, before, after))
    ensures HeaderAt(isSpace, text, key, i) == Some(i + |HeaderText(key, before, after)| - 1)
  {
    hide *;
    HeaderSteps(isSpace, text, key, i);
    var q := i + |"\"" + key + "\""|;
    var colon := SkipSpaces(isSpace, text, q);
    var bracket := SkipSpaces(isSpace, text, colon + 1);
    before, after := text[q..colon], text[colon + 1..bracket];
    SkippedSpaces(isSpace, text, q);
    SkippedSpaces(isSpace, text, colon + 1);
    HeaderSpells(text, key, i, colon, bracket);
  }

  lemma SkippedSpaces(isSpace: char -> bool, text: string, i: nat)
    requires i <= |text|
    ensures AllSpaces(isSpace, text[i..SkipSpaces(isSpace, text, i)])
  {
    hide SkipSpaces;
  }

  lemma HeaderSpells(text: string, key: string, i: nat, colon: nat, bracket: nat)
    requires StartsAt(text, i, "\"" + key + "\"") && i + |key| + 2 <= colon < bracket < |text|
    requires text[colon] == ':' && text[bracket] == '['
    ensures var whole := HeaderText(key, text[i + |key| + 2..colon], text[colon + 1..bracket]);
            StartsAt(text, i, whole) && bracket == i + |whole| - 1
  {
    var quoted := "\"" + key + "\"";
    var q := i + |quoted|;
    var before, after := text[q..colon], text[colon + 1..bracket];
    assert text[i..q] == quoted;
    hide StartsAt, HeaderText;
    Glued(text, q, colon, colon + 1);
    Glued(text, q, colon + 1, bracket);
    Glued(text, q, bracket, bracket + 1);
    Glued(text, i, q, bracket + 1);
    HeaderIs(text, i, key, before, after);
  }

  lemma HeaderIs(text: string, i: nat, key: string, before: string, after: string)
    requires i + |key| + |before| + |after| + 4 <= |text|
    requires text[i..i + |key| + |before| + |after| + 4] == "\"" + key + "\"" + (before + ":" + after + "[")
    ensures StartsAt(text, i, HeaderText(key, before, after))
    ensures |HeaderText(key, before, after)| == |key| + |before| + |after| + 4
  {
  }

  /** A header stands where the text has the quoted key, white space, a colon, white space and a bracket. */
  lemma HeaderIff(isSpace: char -> bool, text: string, key: string, i: nat, bracket: nat)
    requires Spaces(isSpace)
    ensures HeaderAt(isSpace, text, key, i) == Some(bracket)
            <==> exists before, after ::
                   && AllSpaces(isSpace, before) && AllSpaces(isSpace, after)
                   && StartsAt(text, i, HeaderText(key, before, after))
                   && bracket == i + |HeaderText(key, before, after)| - 1
  {
    hide HeaderAt, AllSpaces, HeaderText, StartsAt, Spaces;
    if HeaderAt(isSpace, text, key, i).Some? {
      var before, after := HeaderWords(isSpace, text, key, i);
    }
    forall before, after | AllSpaces(isSpace, before) && AllSpaces(isSpace, after)
                           && StartsAt(text, i, HeaderText(key, before, after))
      ensures HeaderAt(isSpace, text, key, i) == Some(i + |HeaderText(key, before, after)| - 1)
    {
      HeaderHere(isSpace, text, key, i, before, after);
    }
  }

  /** What stands in an array: strings with their escapes, arrays again, and anything but quotes and brackets. */
  datatype StringPart = Literally(c: char) | Escaped(c: char)

  datatype Content =
    | Nothing
    | Plain(c: char, rest: Content)
    | Quoted(parts: seq<StringPart>, rest: Content)
    | Nested(inner: Content, rest: Content)

  predicate ProperParts(parts: seq<StringPart>) {
    forall part :: part in parts && part.Literally? ==> part.c != '"' && part.c != '\\'
  }

  predicate Proper(content: Content) {
    match content
    case Nothing => true
    case Plain(c, rest) => c != '"' && c != '[' && c != ']' && Proper(rest)
    case Quoted(parts, rest) => ProperParts(parts) && Proper(rest)
    case Nested(inner, rest) => Proper(inner) && Proper(rest)
  }

  function PartsText(parts: seq<StringPart>): string {
    if parts == [] then ""
    else (if parts[0].Literally? then [parts[0].c] else ['\\', parts[0].c]) + PartsText(parts[1..])
  }

  function ContentText(content: Content): string {
    match content
    case Nothing => ""
    case Plain(c, rest) => [c] + ContentText(rest)
    case Quoted(parts, rest) => "\"" + PartsText(parts) + "\"" + ContentText(rest)
    case Nested(inner, rest) => "[" + ContentText(inner) + "]" + ContentText(rest)
  }

  lemma OverOne(lexer: Lexer, c: char)
    requires !lexer.Ends(c)
    ensures Over(lexer, [c]) == Some(lexer.Next(c))
  {
    assert [c][1..] == "";
  }

  lemma {:induction false} OverParts(depth: int, parts: seq<StringPart>)
    requires ProperParts(parts)
    ensures Over(Lexer(depth, true, false), PartsText(parts)) == Some(Lexer(depth, true, false))
    decreases |parts|
  {
    var quoted := Lexer(depth, true, false);
    if parts != [] {
      assert parts[0] in parts && forall part :: part in parts[1..] ==> part in parts;
      OverParts(depth, parts[1..]);
      hide Over;
      if parts[0].Literally? {
        OverOne(quoted, parts[0].c);
        OverJoin(quoted, [parts[0].c], PartsText(parts[1..]));
      } else {
        OverOne(quoted, '\\');
        OverOne(quoted.Next('\\'), parts[0].c);
        OverJoin(quoted, ['\\'], [parts[0].c]);
        assert ['\\'] + [parts[0].c] == ['\\', parts[0].c];
        OverJoin(quoted, ['\\', parts[0].c], PartsText(parts[1..]));
      }
    }
  }

  lemma OverQuoted(depth: int, parts: seq<StringPart>)
    requires ProperParts(parts)
    ensures Over(Lexer(depth, false, false), "\"" + PartsText(parts) + "\"") == Some(Lexer(depth, false, false))
  {
    var outside, inside := Lexer(depth, false, false), Lexer(depth, true, false);
    hide Over, PartsText;
    OverParts(depth, parts);
    OverOne(outside, '"');
    OverOne(inside, '"');
    OverJoin(outside, "\"", PartsText(parts));
    OverJoin(outside, "\"" + PartsText(parts), "\"");
  }

  /** Reading over the content of an array, whatever arrays and strings are in it, leaves the depth where it was. */
  lemma {:induction false} OverContent(depth: int, content: Content)
    requires 1 <= depth && Proper(content)
    ensures Over(Lexer(depth, false, false), ContentText(content)) == Some(Lexer(depth, false, false))
    decreases content
  {
    var lexer := Lexer(depth, false, false);
    match content
    case Nothing =>
    case Plain(c, rest) =>
      OverContent(depth, rest);
      hide Over;
      OverOne(lexer, c);
      OverJoin(lexer, [c], ContentText(rest));
    case Quoted(parts, rest) =>
      OverContent(depth, rest);
      hide Over, PartsText;
      OverQuoted(depth, parts);
      OverJoin(lexer, "\"" + PartsText(parts) + "\"", ContentText(rest));
    case Nested(inner, rest) =>
      OverContent(depth, rest);
      OverContent(depth + 1, inner);
      hide Over;
      OverNested(depth, ContentText(inner));
      OverJoin(lexer, "[" + ContentText(inner) + "]", ContentText(rest));
  }

  lemma OverNested(depth: int, inner: string)
    requires 1 <= depth && Over(Lexer(depth + 1, false, false), inner) == Some(Lexer(depth + 1, false, false))
    ensures Over(Lexer(depth, false, false), "[" + inner + "]") == Some(Lexer(depth, false, false))
  {
    var lexer := Lexer(depth, false, false);
    hide Over;
    OverOne(lexer, '[');
    OverOne(Lexer(depth + 1, false, false), ']');
    OverJoin(lexer, "[", inner);
    OverJoin(lexer, "[" + inner, "]");
  }

  /**
   The array that starts at a bracket ends at the bracket that matches it, whatever arrays are nested in it and
   whatever brackets, quotes and backslashes stand in its strings.
   */
  lemma MatchingBracketFound(text: string, start: nat, content: Content)
    requires Proper(content) && StartsAt(text, start, "[" + ContentText(content) + "]")
    ensures EndFrom(text, start, OUTSIDE) == Some(start + |ContentText(content)| + 2)
  {
    var middle := ContentText(content);
    var end := start + |middle| + 2;
    OverContent(1, content);
    assert text == text[..start] + ("[" + middle + "]") + text[end..] by {
      assert text[start..end] == "[" + middle + "]";
    }
    BracketedEnds(text, start, end, middle);
    SpliceIs(text, start, end, "[" + middle + "]");
  }

  lemma Glued(text: string, i: nat, k: nat, j: nat)
    requires i <= k <= j <= |text|
    ensures text[i..j] == text[i..k] + text[k..j]
  {
  }

  lemma OutsideStep(text: string, i: nat, depth: int)
    requires i < |text| && 1 <= depth
    ensures EndFrom(text, i, Lexer(depth, false, false))
            == if text[i] == '"' then EndFrom(text, i + 1, Lexer(depth, true, false))
               else if text[i] == '[' then EndFrom(text, i + 1, Lexer(depth + 1, false, false))
               else if text[i] != ']' then EndFrom(text, i + 1, Lexer(depth, false, false))
               else if depth == 1 then Some(i + 1)
               else EndFrom(text, i + 1, Lexer(depth - 1, false, false))
  {
  }

  lemma InsideStep(text: string, i: nat, depth: int)
    requires i < |text|
    ensures EndFrom(text, i, Lexer(depth, true, false))
            == if text[i] == '"' then EndFrom(text, i + 1, Lexer(depth, false, false))
               else if text[i] != '\\' then EndFrom(text, i + 1, Lexer(depth, true, false))
               else if i + 1 == |text| then None
               else EndFrom(text, i + 2, Lexer(depth, true, false))
  {
  }

  /** The rest of a string, when an end is found after it. */
  lemma {:induction false} ReadParts(text: string, i: nat, depth: int) returns (parts: seq<StringPart>, j: nat)
    requires i <= |text| && EndFrom(text, i, Lexer(depth, true, false)).Some?
    ensures i <= j < |text| && text[j] == '"' && ProperParts(parts) && text[i..j] == PartsText(parts)
    ensures EndFrom(text, i, Lexer(depth, true, false)) == EndFrom(text, j + 1, Lexer(depth, false, false))
    decreases |text| - i
  {
    if i == |text| {
      assert false;
    } else {
      InsideStep(text, i, depth);
      hide EndFrom;
      if text[i] == '"' {
        parts, j := [], i;
      } else {
        var part := if text[i] == '\\' then Escaped(text[i + 1]) else Literally(text[i]);
        var k := if text[i] == '\\' then i + 2 else i + 1;
        var more: seq<StringPart>;
        more, j := ReadParts(text, k, depth);
        parts := [part] + more;
        Glued(text, i, k, j);
        assert parts[1..] == more && text[i..k] == PartsText([part]) + "";
      }
    }
  }

  /** The content of an array from i on, up to the bracket at j that closes it. */
  ghost predicate ContentAt(text: string, i: nat, depth: int, content: Content, j: nat)
    requires i <= |text|
  {
    && i <= j < |text| && text[j] == ']' && Proper(content) && text[i..j] == ContentText(content)
    && EndFrom(text, i, Lexer(depth, false, false))
       == if depth == 1 then Some(j + 1) else EndFrom(text, j + 1, Lexer(depth - 1, false, false))
  }

  lemma QuotedAhead(text: string, i: nat, depth: int, parts: seq<StringPart>, k: nat, rest: Content, j: nat)
    requires i < k < |text| && text[i] == '"' && text[k] == '"' && ProperParts(parts)
    requires text[i + 1..k] == PartsText(parts) && ContentAt(text, k + 1, depth, rest, j)
    requires EndFrom(text, i, Lexer(depth, false, false)) == EndFrom(text, k + 1, Lexer(depth, false, false))
    ensures ContentAt(text, i, depth, Quoted(parts, rest), j)
  {
    hide PartsText, ProperParts, EndFrom;
    QuotedSpells(text, i, k, j, PartsText(parts), ContentText(rest));
  }

  lemma NestedAhead(text: string, i: nat, depth: int, inner: Content, k: nat, rest: Content, j: nat)
    requires i < |text| && text[i] == '[' && 1 <= depth && ContentAt(text, i + 1, depth + 1, inner, k)
    requires ContentAt(text, k + 1, depth, rest, j)
    requires EndFrom(text, i, Lexer(depth, false, false)) == EndFrom(text, i + 1, Lexer(depth + 1, false, false))
    ensures ContentAt(text, i, depth, Nested(inner, rest), j)
  {
    hide EndFrom;
    NestedSpells(text, i, k, j, ContentText(inner), ContentText(rest));
  }

  lemma PlainAhead(text: string, i: nat, depth: int, rest: Content, j: nat)
    requires i < |text| && text[i] != '"' && text[i] != '[' && text[i] != ']'
    requires ContentAt(text, i + 1, depth, rest, j)
    requires EndFrom(text, i, Lexer(depth, false, false)) == EndFrom(text, i + 1, Lexer(depth, false, false))
    ensures ContentAt(text, i, depth, Plain(text[i], rest), j)
  {
    hide EndFrom;
    Glued(text, i, i + 1, j);
  }

  lemma ContentFollows(text: string, i: nat, depth: int, content: Content, j: nat)
    requires i <= |text| && ContentAt(text, i, depth, content, j)
    ensures i <= j < |text|
    ensures depth != 1 ==> EndFrom(text, j + 1, Lexer(depth - 1, false, false))
                           == EndFrom(text, i, Lexer(depth, false, false))
  {
    hide EndFrom;
  }

  lemma NothingAhead(text: string, i: nat, depth: int)
    requires i < |text| && text[i] == ']' && 1 <= depth
    ensures ContentAt(text, i, depth, Nothing, i)
  {
    OutsideStep(text, i, depth);
    hide EndFrom;
  }

  lemma {:induction false} ReadContent(text: string, i: nat, depth: int) returns (content: Content, j: nat)
    requires i <= |text| && 1 <= depth && EndFrom(text, i, Lexer(depth, false, false)).Some?
    ensures ContentAt(text, i, depth, content, j)
    decreases |text| - i
  {
    hide *;
    if i == |text| {
      EndAtLast(text, Lexer(depth, false, false));
      assert false;
    } else {
      OutsideStep(text, i, depth);
      var rest: Content;
      if text[i] == '"' {
        var parts, k := ReadParts(text, i + 1, depth);
        rest, j := ReadContent(text, k + 1, depth);
        content := Quoted(parts, rest);
        QuotedAhead(text, i, depth, parts, k, rest, j);
      } else if text[i] == '[' {
        var inner, k := ReadContent(text, i + 1, depth + 1);
        ContentFollows(text, i + 1, depth + 1, inner, k);
        rest, j := ReadContent(text, k + 1, depth);
        content := Nested(inner, rest);
        NestedAhead(text, i, depth, inner, k, rest, j);
      } else if text[i] == ']' {
        content, j := Nothing, i;
        NothingAhead(text, i, depth);
      } else {
        rest, j := ReadContent(text, i + 1, depth);
        content := Plain(text[i], rest);
        PlainAhead(text, i, depth, rest, j);
      }
    }
  }

  lemma QuotedSpells(text: string, i: nat, k: nat, j: nat, inner: string, rest: string)
    requires i < k < j <= |text| && text[i] == '"' && text[k] == '"'
    requires text[i + 1..k] == inner && text[k + 1..j] == rest
    ensures text[i..j] == "\"" + inner + "\"" + rest
  {
    Glued(text, i, i + 1, j);
    Glued(text, i + 1, k, j);
    Glued(text, k, k + 1, j);
  }

  lemma NestedSpells(text: string, i: nat, k: nat, j: nat, inner: string, rest: string)
    requires i < k < j <= |text| && text[i] == '[' && text[k] == ']'
    requires text[i + 1..k] == inner && text[k + 1..j] == rest
    ensures text[i..j] == "[" + inner + "]" + rest
  {
    Glued(text, i, i + 1, j);
    Glued(text, i + 1, k, j);
    Glued(text, k, k + 1, j);
  }

  /** From start to end stands an array: balanced brackets and whole strings. */
  ghost predicate ArrayAt(text: string, start: nat, end: nat, content: Content) {
    && Proper(content) && end == start + |ContentText(content)| + 2
    && StartsAt(text, start, "[" + ContentText(content) + "]")
  }

  lemma ContentEnds(text: string, start: nat, content: Content, j: nat)
    requires start < |text| && text[start] == '[' && ContentAt(text, start + 1, 1, content, j)
    ensures ArrayAt(text, start, j + 1, content) && EndFrom(text, start, OUTSIDE) == Some(j + 1)
  {
    OutsideOpens(text, start);
    hide EndFrom, ContentText;
    NestedSpells(text, start, j, j + 1, ContentText(content), "");
    assert "[" + ContentText(content) + "]" + "" == "[" + ContentText(content) + "]";
  }

  lemma OutsideOpens(text: string, start: nat)
    requires start < |text| && text[start] == '['
    ensures EndFrom(text, start, OUTSIDE) == EndFrom(text, start + 1, INSIDE)
  {
  }

  /** A bracket's array ends where balanced brackets and whole strings end; without such an end it is unterminated. */
  lemma EndIff(text: string, start: nat, end: nat)
    requires start < |text| && text[start] == '['
    ensures EndFrom(text, start, OUTSIDE) == Some(end) <==> exists content :: ArrayAt(text, start, end, content)
  {
    if EndFrom(text, start, OUTSIDE) == Some(end) {
      OutsideOpens(text, start);
      var content, j := ReadContent(text, start + 1, 1);
      hide *;
      ContentEnds(text, start, content, j);
    }
    forall content | ArrayAt(text, start, end, content)
      ensures EndFrom(text, start, OUTSIDE) == Some(end)
    {
      MatchingBracketFound(text, start, content);
    }
  }

  /** A replacement is refused when the text has no header, or when the bracket that is found has no array after it. */
  lemma RefusedIff(isSpace: char -> bool, text: string, key: string, values: seq<string>)
    ensures Replaced(isSpace, text, key, values) == Err(MissingArray(key))
            <==> forall i: nat :: HeaderAt(isSpace, text, key, i).None?
    ensures Replaced(isSpace, text, key, values) == Err(UnterminatedArray(key))
            <==> && ArrayStart(isSpace, text, key).Some?
                 && forall end: nat, content :: !ArrayAt(text, ArrayStart(isSpace, text, key).value, end, content)
    ensures ArrayStart(isSpace, text, key).Some? <==> exists i: nat :: HeaderAt(isSpace, text, key, i).Some?
  {
    var start := ArrayStart(isSpace, text, key);
    hide HeaderAt, Rebuilt, ArrayAt, EndFrom, Splice;
    if start.Some? {
      var end := EndFrom(text, start.value, OUTSIDE);
      if end.Some? {
        EndIff(text, start.value, end.value);
        var content :| ArrayAt(text, start.value, end.value, content);
        assert Replaced(isSpace, text, key, values).Ok?;
      } else {
        forall e: nat, content
          ensures !ArrayAt(text, start.value, e, content)
        {
          EndIff(text, start.value, e);
        }
      }
    }
  }

  // ----- the keys for which the promise holds -----

  /** The array is found again exactly as it was rebuilt, and a second replacement changes nothing. */
  ghost predicate Promised(isSpace: char -> bool, text: string, key: string, values: seq<string>, span: Span)
    requires SpanOf(isSpace, text, key) == Ok(Some(span))
  {
    var rebuilt := Rebuilt(isSpace, text[span.start..span.end], values);
    var text' := Splice(text, span.start, span.end, rebuilt);
    && SpanOf(isSpace, text', key) == Ok(Some(Span(span.start, span.start + |rebuilt|)))
    && Replaced(isSpace, text', key, values) == Ok(text')
  }

  lemma {:induction false} EndsIff(text: string, i: nat, lexer: Lexer)
    requires i <= |text|
    ensures EndFrom(text, i, lexer).Some? <==> Over(lexer, text[i..]).None?
    decreases |text| - i
  {
    if i < |text| {
      assert text[i..][1..] == text[i + 1..];
      EndsIff(text, i + 1, lexer.Next(text[i]));
    }
  }

  /** An array that a text has not ended yet is ended by some continuation. */
  lemma {:induction false} Closers(lexer: Lexer) returns (rest: string)
    requires 1 <= lexer.depth
    ensures Over(lexer, rest).None?
    decreases lexer.depth, lexer.inString, lexer.escaped
  {
    var c := if !lexer.inString then ']' else if lexer.escaped then ' ' else '"';
    if lexer.Ends(c) {
      rest := [c];
    } else {
      var more := Closers(lexer.Next(c));
      rest := [c] + more;
      assert rest[1..] == more;
    }
  }

  lemma {:induction false} StaysInside(lexer: Lexer, text: string)
    requires 1 <= lexer.depth && Over(lexer, text).Some?
    ensures 1 <= Over(lexer, text).value.depth
    decreases text
  {
    if text != "" {
      StaysInside(lexer.Next(text[0]), text[1..]);
    }
  }

  /** Every text can be continued so that an array which starts at a bracket of it ends. */
  lemma Closable(text: string, start: nat) returns (rest: string)
    requires start < |text| && text[start] == '['
    ensures EndFrom(text + rest, start, OUTSIDE).Some?
  {
    var inside := text[start + 1..];
    if Over(INSIDE, inside).None? {
      rest := "";
      assert text + rest == text;
      EndsIff(text, start + 1, INSIDE);
    } else {
      StaysInside(INSIDE, inside);
      rest := Closers(Over(INSIDE, inside).value);
      OverJoin(INSIDE, inside, rest);
      assert (text + rest)[start + 1..] == inside + rest;
      EndsIff(text + rest, start + 1, INSIDE);
    }
  }

  /** The quoted key, a colon and a bracket make a header, whatever follows. */
  lemma PlainHeader(isSpace: char -> bool, key: string, rest: string)
    requires Spaces(isSpace)
    ensures FindHeader(isSpace, "\"" + key + "\":[" + rest, key, 0) == Some(0)
  {
    var quoted := "\"" + key + "\"";
    var text := "\"" + key + "\":[" + rest;
    assert text[0..|quoted|] == quoted && text[|quoted|] == ':' && text[|quoted| + 1] == '[';
    assert ':' in "\"\\:,[]" && '[' in "\"\\:,[]";
    HeaderFrom(isSpace, text, key, 0, |quoted|, |quoted| + 1);
  }

  /** For a key with a bracket, a text whose array is taken to start at that bracket. */
  lemma StartsInKey(isSpace: char -> bool, key: string, i: nat) returns (text: string, span: Span)
    requires Spaces(isSpace) && i < |key| && key[i] == '[' && NoBracket(key, 0, i)
    ensures SpanOf(isSpace, text, key) == Ok(Some(span)) && span.start == 1 + i
    ensures text[..2 + i] == ("\"" + key)[..2 + i]
  {
    var head := "\"" + key + "\":[";
    assert head[1 + i] == '[' && forall k :: 0 <= k < 1 + i ==> head[k] == ("\"" + key)[k] != '[';
    var rest := Closable(head, 1 + i);
    text := head + rest;
    PlainHeader(isSpace, key, rest);
    assert ArrayStart(isSpace, text, key) == Some(1 + i);
    span := Span(1 + i, EndFrom(text, 1 + i, OUTSIDE).value);
    SpanFound(isSpace, text, key, span.start, span.end);
    assert text[..2 + i] == ("\"" + key)[..2 + i];
  }

  /** An array that starts at the place of the first bracket of the key starts inside the key. */
  lemma KeyAtFront(isSpace: char -> bool, text: string, key: string, i: nat)
    requires i < |key| && key[i] == '[' && NoBracket(key, 0, i)
    requires ArrayStart(isSpace, text, key) == Some(1 + i)
    ensures 2 + i < |text| && text[2 + i] == ("\"" + key + "\"")[2 + i]
  {
    hide *;
    var m := StartOf(isSpace, text, key);
    BracketOfKey(text, m, key, i);
    assert m + 1 + i == 1 + i;
    QuotedAt(text, m, key, 2 + i);
  }

  /** The character after the first bracket of a rebuilt array depends on whether the list is empty. */
  lemma SecondCharacter(isSpace: char -> bool, arrayText: string, values: seq<string>)
    ensures var rebuilt := Rebuilt(isSpace, arrayText, values);
            2 <= |rebuilt| && rebuilt[0] == '[' && rebuilt[1] == if values == [] then ']' else '\n'
  {
    hide Body, IndentFrom, ClosingFrom;
  }

  /** For every key with a bracket there are a text and a list for which the promise is broken. */
  lemma BrokenPromise(isSpace: char -> bool, key: string)
    returns (text: string, values: seq<string>, span: Span)
    requires Spaces(isSpace) && '[' in key
    ensures SpanOf(isSpace, text, key) == Ok(Some(span)) && !Promised(isSpace, text, key, values, span)
  {
    hide SpanOf, ArrayStart, Spaces, Rebuilt, Replaced;
    var i := FirstBracket(key);
    text, span := StartsInKey(isSpace, key, i);
    SpanOrdered(isSpace, text, key, span);
    values := if ("\"" + key + "\"")[2 + i] == ']' then [""] else [];
    var rebuilt := Rebuilt(isSpace, text[span.start..span.end], values);
    SecondCharacter(isSpace, text[span.start..span.end], values);
    Spliced(text, span.start, span.end, rebuilt);
    var text' := Splice(text, span.start, span.end, rebuilt);
    assert text'[2 + i] == text'[span.start..span.start + |rebuilt|][1] == rebuilt[1];
    if Promised(isSpace, text, key, values, span) {
      SpanOrdered(isSpace, text', key, Span(span.start, span.start + |rebuilt|));
      KeyAtFront(isSpace, text', key, i);
      assert false;
    }
  }

  /** The replacement keeps its promise for every text and every list exactly when the key holds no bracket. */
  lemma PromiseIff(isSpace: char -> bool, key: string)
    requires Spaces(isSpace)
    ensures (forall text, values, span :: SpanOf(isSpace, text, key) == Ok(Some(span))
                                          ==> Promised(isSpace, text, key, values, span))
            <==> '[' !in key
  {
    hide SpanOf, Spaces, Promised;
    if '[' in key {
      var text, values, span := BrokenPromise(isSpace, key);
    } else {
      forall text, values, span | SpanOf(isSpace, text, key) == Ok(Some(span))
        ensures Promised(isSpace, text, key, values, span)
      {
        PromiseKept(isSpace, text, key, values, span);
      }
    }
  }

  lemma PromiseKept(isSpace: char -> bool, text: string, key: string, values: seq<string>, span: Span)
    requires Spaces(isSpace) && '[' !in key && SpanOf(isSpace, text, key) == Ok(Some(span))
    ensures Promised(isSpace, text, key, values, span)
  {
    hide SpanOf, Spaces, Rebuilt, Replaced, Splice;
    SpanOrdered(isSpace, text, key, span);
    var rebuilt, text' := ReplacementPromise(isSpace, text, key, values, span);
    SpanKept(isSpace, text, key, values, span);
    ReplacedBy(isSpace, text, key, values, span);
  }

  // ----- the layout is taken over -----

  /** An array laid out with some indentation and closing is rebuilt with the same, whatever strings replace its own. */
  lemma LayoutTakenOver(isSpace: char -> bool, indent: string, closing: string, former: seq<string>,
                        values: seq<string>)
    requires Spaces(isSpace) && AllSpaces(isSpace, indent) && AllSpaces(isSpace, closing) && former != []
    ensures Rebuilt(isSpace, Layout(indent, closing, former), values) == Layout(indent, closing, values)
  {
    IndentFound(isSpace, indent, closing, former);
    ClosingFound(isSpace, indent, closing, former);
    hide IndentFrom, ClosingFrom, Layout;
  }

  lemma {:induction false} NoBreaks(isSpace: char -> bool, text: string, i: nat)
    requires '\n' !in text
    ensures IndentFrom(isSpace, text, i) == None && ClosingFrom(isSpace, text, i) == None
    decreases |text| - i
  {
    if i < |text| {
      assert text[i] in text;
      NoBreaks(isSpace, text, i + 1);
    }
  }

  /** An array on one line is spread over lines, with four spaces before its strings and two before its bracket. */
  lemma OneLineSpread(isSpace: char -> bool, arrayText: string, values: seq<string>)
    requires '\n' !in arrayText
    ensures Rebuilt(isSpace, arrayText, values) == Layout("    ", "  ", values)
  {
    NoBreaks(isSpace, arrayText, 0);
    hide IndentFrom, ClosingFrom, Layout;
  }

  /** The text with its array replaced, when the layout of the array is known. */
  lemma ReplacedLayout(isSpace: char -> bool, text: string, key: string, indent: string, closing: string,
                       former: seq<string>, values: seq<string>, span: Span)
    requires Spaces(isSpace) && AllSpaces(isSpace, indent) && AllSpaces(isSpace, closing) && former != []
    requires SpanOf(isSpace, text, key) == Ok(Some(span))
    requires text[span.start..span.end] == Layout(indent, closing, former)
    ensures Replaced(isSpace, text, key, values)
            == Ok(text[..span.start] + Layout(indent, closing, values) + text[span.end..])
  {
    hide *;
    SpanOrdered(isSpace, text, key, span);
    LayoutTakenOver(isSpace, indent, closing, former, values);
    ReplacedBy(isSpace, text, key, values, span);
    SpliceIs(text, span.start, span.end, Layout(indent, closing, values));
  }

  lemma SpliceIs(text: string, start: nat, end: nat, middle: string)
    requires start <= end <= |text|
    ensures Splice(text, start, end, middle) == text[..start] + middle + text[end..]
  {
  }

  /** Replacing the strings of an array and then putting the old ones back restores the text to the letter. */
  lemma ReplacedBack(isSpace: char -> bool, text: string, key: string, indent: string, closing: string,
                     former: seq<string>, values: seq<string>, span: Span)
    requires Spaces(isSpace) && AllSpaces(isSpace, indent) && AllSpaces(isSpace, closing)
    requires '[' !in key && former != [] && values != []
    requires SpanOf(isSpace, text, key) == Ok(Some(span))
    requires text[span.start..span.end] == Layout(indent, closing, former)
    ensures Replaced(isSpace, text, key, values).Ok?
    ensures Replaced(isSpace, Replaced(isSpace, text, key, values).value, key, former) == Ok(text)
  {
    hide *;
    SpanOrdered(isSpace, text, key, span);
    LayoutTakenOver(isSpace, indent, closing, former, values);
    ReplacedLayout(isSpace, text, key, indent, closing, former, values, span);
    SpanKept(isSpace, text, key, values, span);
    var layout := Layout(indent, closing, values);
    var text', span' := Splice(text, span.start, span.end, layout), Span(span.start, span.start + |layout|);
    SpliceIs(text, span.start, span.end, layout);
    Spliced(text, span.start, span.end, layout);
    ReplacedLayout(isSpace, text', key, indent, closing, values, former, span');
    SplicedBack(text, span.start, span.end, layout, Layout(indent, closing, former));
  }

  lemma SplicedBack(text: string, start: nat, end: nat, middle: string, former: string)
    requires start <= end <= |text| && text[start..end] == former
    ensures var text' := text[..start] + middle + text[end..];
            text'[..start] + former + text'[start + |middle|..] == text
  {
    var text' := text[..start] + middle + text[end..];
    assert text'[start + |middle|..] == text[end..];
  }

  /** Lines joined by line breaks. */
  function Joined(lines: seq<string>): string {
    if lines == [] then "" else lines[0] + if |lines| == 1 then "" else "\n" + Joined(lines[1..])
  }

  /** The lines of an array that is not empty: one for each string, between those of the brackets. */
  function ItemLines(indent: string, values: seq<string>): seq<string> {
    if values == [] then []
    else [indent + JsonString(values[0]) + (if |values| == 1 then "" else ",")] + ItemLines(indent, values[1..])
  }

  lemma HexPrintable(n: nat)
    requires n < 0x10000
    ensures forall c :: c in Hex4(n) ==> ' ' <= c <= '~'
  {
    assert forall k :: 0 <= k < |HEX| ==> '0' <= HEX[k] <= 'f';
  }

  lemma EscapePrintable(c: char)
    ensures forall d :: d in Escape(c) ==> ' ' <= d <= '~'
  {
    var n := c as int;
    hide Hex4;
    if 0x10000 <= n {
      HexPrintable(0xD800 + (n - 0x10000) / 1024 % 1024);
      HexPrintable(0xDC00 + (n - 0x10000) % 1024);
    } else {
      HexPrintable(n);
    }
  }

  lemma {:induction false} AllPrintable(value: string)
    ensures forall d :: d in EscapeAll(value) ==> ' ' <= d <= '~'
  {
    if value != "" {
      EscapePrintable(value[0]);
      AllPrintable(value[1..]);
      hide Escape;
    }
  }

  /** Whatever it says, a written string is printable ASCII: it stays on its line. */
  lemma StringPrintable(value: string)
    ensures forall d :: d in JsonString(value) ==> ' ' <= d <= '~'
    ensures '\n' !in JsonString(value)
  {
    AllPrintable(value);
    hide EscapeAll;
  }

  lemma JoinedFirst(first: string, rest: seq<string>)
    requires rest != []
    ensures Joined([first] + rest) == first + ("\n" + Joined(rest))
  {
    assert ([first] + rest)[1..] == rest;
  }

  lemma OneItemLine(indent: string, values: seq<string>)
    requires |values| == 1
    ensures ItemLines(indent, values) == [indent + JsonString(values[0])]
  {
    hide JsonString;
    var line := indent + JsonString(values[0]);
    assert line + "" == line && ItemLines(indent, values[1..]) == [];
  }

  lemma MoreItemLines(indent: string, values: seq<string>)
    requires 1 < |values|
    ensures ItemLines(indent, values) == [indent + JsonString(values[0]) + ","] + ItemLines(indent, values[1..])
  {
    hide JsonString;
  }

  lemma {:induction false} BodyLines(indent: string, values: seq<string>, last: string)
    requires values != []
    ensures Body(indent, values) + "\n" + last == Joined(ItemLines(indent, values) + [last])
  {
    hide *;
    var first := indent + JsonString(values[0]);
    if |values| == 1 {
      OneItemLine(indent, values);
      LastLine(indent, "", values);
      JoinedFirst(first, [last]);
      JoinedOne(last);
      Reassociate(first, "\n", last);
    } else {
      var rest := values[1..];
      BodyLines(indent, rest, last);
      MoreItemLines(indent, values);
      MoreLines(indent, "", values);
      var lines := ItemLines(indent, rest) + [last];
      assert ItemLines(indent, values) + [last] == [first + ","] + lines;
      JoinedFirst(first + ",", lines);
      LinesFollow(first, Body(indent, rest), last);
    }
  }

  lemma JoinedOne(line: string)
    ensures Joined([line]) == line
  {
    assert line + "" == line;
  }

  lemma LinesFollow(first: string, body: string, last: string)
    ensures first + (",\n" + body) + "\n" + last == (first + ",") + ("\n" + (body + "\n" + last))
  {
    assert first + ",\n" == (first + ",") + "\n";
  }

  /** A rebuilt array that is not empty has one line for each string, between the lines of its brackets. */
  lemma LayoutIsLines(indent: string, closing: string, values: seq<string>)
    requires values != []
    ensures Layout(indent, closing, values) == Joined(["["] + ItemLines(indent, values) + [closing + "]"])
  {
    var lines := ItemLines(indent, values) + [closing + "]"];
    hide Joined, ItemLines, Body;
    BodyLines(indent, values, closing + "]");
    JoinedFirst("[", lines);
    assert ["["] + ItemLines(indent, values) + [closing + "]"] == ["["] + lines;
    LayoutText(Body(indent, values), closing);
    Reassociate(Body(indent, values), "\n", closing + "]");
    Reassociate("\n", closing, "]");
  }

  // ----- reading the array back -----

  datatype Parsed = Parsed(value: string, rest: string)

  function HexDigit(c: char): (n: Option<nat>)
    ensures n.Some? ==> n.value < 16
  {
    if '0' <= c <= '9' then Some(c as int - '0' as int)
    else if 'a' <= c <= 'f' then Some(c as int - 'a' as int + 10)
    else if 'A' <= c <= 'F' then Some(c as int - 'A' as int + 10)
    else None
  }

  /** The number that four hexadecimal digits at the front of a text denote. */
  function ReadHex4(text: string): (n: Option<nat>)
    ensures n.Some? ==> 4 <= |text| && n.value < 0x10000
  {
    if |text| < 4 then None
    else
      var a, b, c, d := HexDigit(text[0]), HexDigit(text[1]), HexDigit(text[2]), HexDigit(text[3]);
      if a.None? || b.None? || c.None? || d.None? then None
      else Some(4096 * a.value + 256 * b.value + 16 * c.value + d.value)
  }

  function ShortEscape(c: char): Option<char> {
    match c
    case '"' => Some('"')
    case '\\' => Some('\\')
    case '/' => Some('/')
    case 'n' => Some('\n')
    case 'r' => Some('\r')
    case 't' => Some('\t')
    case 'b' => Some(8 as char)
    case 'f' => Some(12 as char)
    case _ => None
  }

  datatype OneChar = OneChar(c: char, rest: string)

  /** The character that an escape sequence denotes, after its backslash; a pair of surrogates is one character. */
  function ReadEscape(text: string): (r: Option<OneChar>)
    ensures r.Some? ==> |r.value.rest| < |text|
  {
    if text == "" then None
    else if text[0] != 'u' then
      if ShortEscape(text[0]).Some? then Some(OneChar(ShortEscape(text[0]).value, text[1..])) else None
    else
      var n := ReadHex4(text[1..]);
      if n.None? then None
      else if n.value < 0xD800 || 0xE000 <= n.value then Some(OneChar(n.value as char, text[5..]))
      else if 0xDC00 <= n.value || |text| < 11 || text[5..7] != "\\u" then None
      else
        var low := ReadHex4(text[7..]);
        if low.None? || low.value < 0xDC00 || 0xE000 <= low.value then None
        else Some(OneChar((0x10000 + 1024 * (n.value - 0xD800) + (low.value - 0xDC00)) as char, text[11..]))
  }

  /** The rest of a string after its opening quote, and what follows its closing quote. */
  function ReadString(text: string): (r: Option<Parsed>)
    ensures r.Some? ==> |r.value.rest| < |text|
    decreases |text|
  {
    if text == "" then None
    else if text[0] == '"' then Some(Parsed("", text[1..]))
    else
      var one := if text[0] == '\\' then ReadEscape(text[1..]) else Some(OneChar(text[0], text[1..]));
      if one.None? then None
      else
        var more := ReadString(one.value.rest);
        if more.None? then None else Some(Parsed([one.value.c] + more.value.value, more.value.rest))
  }

  function Trim(isSpace: char -> bool, text: string): (r: string)
    ensures |r| <= |text|
  {
    if text != "" && isSpace(text[0]) then Trim(isSpace, text[1..]) else text
  }

  /** One or more strings, separated by commas, up to the closing bracket. */
  function ReadItems(isSpace: char -> bool, text: string): Option<seq<string>>
    decreases |text|
  {
    if text == "" || text[0] != '"' then None
    else
      var first := ReadString(text[1..]);
      if first.None? then None
      else
        var rest := Trim(isSpace, first.value.rest);
        if rest == "]" then Some([first.value.value])
        else if rest == "" || rest[0] != ',' then None
        else
          var more := ReadItems(isSpace, Trim(isSpace, rest[1..]));
          if more.None? then None else Some([first.value.value] + more.value)
  }

  function ReadArray(isSpace: char -> bool, text: string): Option<seq<string>> {
    if text == "" || text[0] != '[' then None
    else
      var rest := Trim(isSpace, text[1..]);
      if rest == "]" then Some([]) else ReadItems(isSpace, rest)
  }

  lemma HexReads(n: nat)
    requires n < 16
    ensures HexDigit(HEX[n]) == Some(n)
  {
  }

  lemma Hex4Reads(n: nat, tail: string)
    requires n < 0x10000
    ensures ReadHex4(Hex4(n) + tail) == Some(n)
  {
    HexReads(n / 4096);
    HexReads(n / 256 % 16);
    HexReads(n / 16 % 16);
    HexReads(n % 16);
    Digits4(n);
    hide HexDigit;
  }

  lemma Div256(n: nat)
    ensures n / 256 == n / 16 / 16
  {
  }

  lemma Div4096(n: nat)
    ensures n / 4096 == n / 256 / 16
  {
  }

  lemma Digits4(n: nat)
    requires n < 0x10000
    ensures n == 4096 * (n / 4096) + 256 * (n / 256 % 16) + 16 * (n / 16 % 16) + n % 16
  {
    Div256(n);
    Div4096(n);
    var a, b := n / 16, n / 256;
    assert n == 16 * a + n % 16;
    assert a == 16 * b + a % 16;
    assert b == 16 * (n / 4096) + b % 16;
  }

  lemma UnicodeReads(n: nat, tail: string)
    requires n < 0xD800 || 0xE000 <= n < 0x10000
    ensures ReadEscape("u" + Hex4(n) + tail) == Some(OneChar(n as char, tail))
  {
    var text := "u" + Hex4(n) + tail;
    Hex4Reads(n, tail);
    assert text[1..] == Hex4(n) + tail && text[5..] == tail;
    hide ReadHex4, Hex4;
  }

  lemma PairParts(high: string, low: string, tail: string)
    requires |high| == 4 && |low| == 4
    ensures var text := "u" + high + ("\\u" + low + tail);
            && |text| >= 11 && text[0] == 'u' && text[1..] == high + ("\\u" + low + tail)
            && text[5..7] == "\\u" && text[7..] == low + tail && text[11..] == tail
  {
    var text := "u" + high + ("\\u" + low + tail);
    assert text[5..7] == "\\u";
  }

  lemma PairNumbers(c: char)
    requires 0x10000 <= c as int
    ensures var n := c as int - 0x10000;
            && 0xD800 <= 0xD800 + n / 1024 % 1024 < 0xDC00 <= 0xDC00 + n % 1024 < 0xE000
            && 0x10000 + 1024 * (n / 1024 % 1024) + n % 1024 == c as int
  {
  }

  lemma PairReads(c: char, tail: string)
    requires 0x10000 <= c as int
    ensures var n := c as int - 0x10000;
            ReadEscape("u" + Hex4(0xD800 + n / 1024 % 1024) + ("\\u" + Hex4(0xDC00 + n % 1024) + tail))
            == Some(OneChar(c, tail))
  {
    var n := c as int - 0x10000;
    var high, low := 0xD800 + n / 1024 % 1024, 0xDC00 + n % 1024;
    hide Hex4, ReadHex4, ReadEscape;
    PairNumbers(c);
    PairParts(Hex4(high), Hex4(low), tail);
    Hex4Reads(high, "\\u" + Hex4(low) + tail);
    Hex4Reads(low, tail);
    PairDecodes("u" + Hex4(high) + ("\\u" + Hex4(low) + tail), high, low, c, tail);
  }

  /** An escaped pair, when its two numbers are read. */
  lemma PairDecodes(text: string, high: nat, low: nat, c: char, rest: string)
    requires 11 <= |text| && text[0] == 'u' && ReadHex4(text[1..]) == Some(high)
    requires text[5..7] == "\\u" && ReadHex4(text[7..]) == Some(low) && text[11..] == rest
    requires 0xD800 <= high < 0xDC00 <= low < 0xE000 && 0x10000 + 1024 * (high - 0xD800) + (low - 0xDC00) == c as int
    ensures ReadEscape(text) == Some(OneChar(c, rest))
  {
    hide ReadHex4;
  }

  lemma ShortReads(c: char, e: char, tail: string)
    requires ShortEscape(e) == Some(c) && e != 'u'
    ensures ReadEscape(['\\', e][1..] + tail) == Some(OneChar(c, tail))
  {
    assert ['\\', e][1..] + tail == [e] + tail && ([e] + tail)[1..] == tail;
  }

  lemma UnicodeEscapeReads(c: char, tail: string)
    requires c as int < 0x10000
    ensures ReadEscape(("\\u" + Hex4(c as int))[1..] + tail) == Some(OneChar(c, tail))
  {
    UnicodeReads(c as int, tail);
    assert ("\\u" + Hex4(c as int))[1..] + tail == "u" + Hex4(c as int) + tail;
    hide Hex4, ReadEscape;
  }

  lemma PairEscapeReads(c: char, tail: string)
    requires 0x10000 <= c as int
    ensures ReadEscape(Escape(c)[1..] + tail) == Some(OneChar(c, tail)) && Escape(c)[0] == '\\'
  {
    var n := c as int - 0x10000;
    hide Hex4, ReadEscape;
    var high, low := Hex4(0xD800 + n / 1024 % 1024), Hex4(0xDC00 + n % 1024);
    assert Escape(c) == "\\u" + high + "\\u" + low;
    hide Escape;
    PairReads(c, tail);
    PairText(high, low, tail);
  }

  lemma PairText(high: string, low: string, tail: string)
    ensures ("\\u" + high + "\\u" + low)[1..] + tail == "u" + high + ("\\u" + low + tail)
  {
  }

  /** An escaped character is read back as itself. */
  lemma EscapeReads(c: char, tail: string)
    ensures Escape(c) != ""
    ensures Escape(c)[0] == '\\' ==> ReadEscape(Escape(c)[1..] + tail) == Some(OneChar(c, tail))
    ensures Escape(c)[0] != '\\' ==> Escape(c) == [c] && c != '"'
  {
    var n := c as int;
    hide ReadEscape, Hex4;
    if 0x10000 <= n {
      PairEscapeReads(c, tail);
    } else if Escape(c) == "\\u" + Hex4(n) {
      UnicodeEscapeReads(c, tail);
    } else if |Escape(c)| == 2 {
      assert ShortEscape(Escape(c)[1]) == Some(c);
      ShortReads(c, Escape(c)[1], tail);
      assert Escape(c) == ['\\', Escape(c)[1]];
    }
  }

  /** One character, written plainly or escaped, and the rest of the string. */
  lemma ReadOn(text: string, c: char, rest: string)
    requires text != "" && text[0] != '"'
    requires if text[0] == '\\' then ReadEscape(text[1..]) == Some(OneChar(c, rest)) else text == [c] + rest
    ensures ReadString(rest).Some?
            ==> ReadString(text) == Some(Parsed([c] + ReadString(rest).value.value, ReadString(rest).value.rest))
  {
    assert text[0] != '\\' ==> text[1..] == rest;
    hide ReadEscape;
  }

  lemma Parts(a: string, b: string, c: string)
    ensures a + b + c == a + (b + c)
    ensures a != "" ==> (a + (b + c))[0] == a[0] && (a + (b + c))[1..] == a[1..] + (b + c)
  {
  }

  lemma EndReads(tail: string)
    ensures ReadString("\"" + tail) == Some(Parsed("", tail))
  {
    assert ("\"" + tail)[1..] == tail;
  }

  lemma {:induction false} StringReads(value: string, tail: string)
    ensures ReadString(EscapeAll(value) + ("\"" + tail)) == Some(Parsed(value, tail))
    decreases value
  {
    var end := "\"" + tail;
    hide Escape, ReadEscape, ReadString;
    if value == "" {
      assert EscapeAll(value) + end == end;
      EndReads(tail);
    } else {
      var escape, more := Escape(value[0]), EscapeAll(value[1..]);
      assert EscapeAll(value) == escape + more;
      hide EscapeAll;
      EscapeReads(value[0], more + end);
      StringReads(value[1..], tail);
      Parts(escape, more, end);
      ReadOn(escape + (more + end), value[0], more + end);
      assert value == [value[0]] + value[1..];
    }
  }

  lemma {:induction false} TrimSpaces(isSpace: char -> bool, spaces: string, tail: string)
    requires AllSpaces(isSpace, spaces) && (tail == "" || !isSpace(tail[0]))
    ensures Trim(isSpace, spaces + tail) == tail
    decreases spaces
  {
    if spaces == "" {
      assert spaces + tail == tail;
    } else {
      assert spaces[0] in spaces && forall c :: c in spaces[1..] ==> c in spaces;
      assert (spaces + tail)[1..] == spaces[1..] + tail;
      TrimSpaces(isSpace, spaces[1..], tail);
    }
  }

  /** The items of an array text, after the white space before the first. */
  function Items(indent: string, end: string, values: seq<string>): string
    requires values != []
  {
    JsonString(values[0]) + if |values| == 1 then end else ",\n" + indent + Items(indent, end, values[1..])
  }

  lemma MoreLines(indent: string, end: string, values: seq<string>)
    requires |values| > 1
    ensures Body(indent, values) == indent + JsonString(values[0]) + (",\n" + Body(indent, values[1..]))
    ensures Items(indent, end, values) == JsonString(values[0]) + (",\n" + indent + Items(indent, end, values[1..]))
  {
    hide JsonString;
  }

  lemma LastLine(indent: string, end: string, values: seq<string>)
    requires |values| == 1
    ensures Body(indent, values) == indent + JsonString(values[0])
    ensures Items(indent, end, values) == JsonString(values[0]) + end
  {
    hide JsonString;
  }

  lemma Reassociate(a: string, b: string, c: string)
    ensures a + b + c == a + (b + c)
  {
  }

  lemma LinesJoin(indent: string, first: string, comma: string, body: string, end: string, items: string)
    requires body + end == indent + items
    ensures indent + first + (comma + body) + end == indent + (first + (comma + indent + items))
  {
    Reassociate(indent + first, comma + body, end);
    Reassociate(comma, body, end);
    Reassociate(comma, indent, items);
    Reassociate(indent, first, comma + (indent + items));
  }

  lemma {:induction false} BodyItems(indent: string, end: string, values: seq<string>)
    requires values != []
    ensures Body(indent, values) + end == indent + Items(indent, end, values)
    decreases |values|
  {
    hide *;
    if |values| == 1 {
      LastLine(indent, end, values);
      Reassociate(indent, JsonString(values[0]), end);
    } else {
      MoreLines(indent, end, values);
      BodyItems(indent, end, values[1..]);
      LinesJoin(indent, JsonString(values[0]), ",\n", Body(indent, values[1..]), end, Items(indent, end, values[1..]));
    }
  }

  lemma ReadLast(isSpace: char -> bool, text: string, value: string, tail: string)
    requires text != "" && text[0] == '"' && ReadString(text[1..]) == Some(Parsed(value, tail))
    requires Trim(isSpace, tail) == "]"
    ensures ReadItems(isSpace, text) == Some([value])
  {
    hide ReadString;
  }

  lemma ReadMore(isSpace: char -> bool, text: string, value: string, tail: string, rest: string, values: seq<string>)
    requires text != "" && text[0] == '"' && ReadString(text[1..]) == Some(Parsed(value, tail))
    requires tail != "" && tail[0] == ',' && !isSpace(',') && Trim(isSpace, tail[1..]) == rest
    requires ReadItems(isSpace, rest) == Some(values)
    ensures ReadItems(isSpace, text) == Some([value] + values)
  {
    hide ReadString;
  }

  lemma StringItem(value: string, tail: string)
    ensures var text := JsonString(value) + tail;
            text != "" && text[0] == '"' && ReadString(text[1..]) == Some(Parsed(value, tail))
  {
    hide EscapeAll, ReadString;
    var text := JsonString(value) + tail;
    assert text[1..] == EscapeAll(value) + ("\"" + tail);
    StringReads(value, tail);
  }

  lemma BreakSpaces(isSpace: char -> bool, spaces: string, tail: string)
    requires Spaces(isSpace) && AllSpaces(isSpace, spaces) && tail != "" && (tail[0] == '"' || tail[0] == ']')
    ensures Trim(isSpace, "\n" + spaces + tail) == tail
  {
    assert ']' in "\"\\:,[]" && '"' in "\"\\:,[]";
    assert AllSpaces(isSpace, "\n" + spaces);
    TrimSpaces(isSpace, "\n" + spaces, tail);
  }

  lemma OneItem(isSpace: char -> bool, closing: string, value: string)
    requires Spaces(isSpace) && AllSpaces(isSpace, closing)
    ensures ReadItems(isSpace, JsonString(value) + ("\n" + closing + "]")) == Some([value])
  {
    var tail := "\n" + closing + "]";
    hide ReadItems, ReadString, JsonString, Trim, Spaces, AllSpaces;
    StringItem(value, tail);
    BreakSpaces(isSpace, closing, "]");
    ReadLast(isSpace, JsonString(value) + tail, value, tail);
  }

  lemma NotComma(isSpace: char -> bool)
    requires Spaces(isSpace)
    ensures !isSpace(',')
  {
    assert ',' in "\"\\:,[]";
  }

  lemma MoreItems(isSpace: char -> bool, indent: string, value: string, more: string, values: seq<string>)
    requires Spaces(isSpace) && AllSpaces(isSpace, indent) && more != "" && more[0] == '"'
    requires ReadItems(isSpace, more) == Some(values)
    ensures ReadItems(isSpace, JsonString(value) + (",\n" + indent + more)) == Some([value] + values)
  {
    var tail := ",\n" + indent + more;
    hide ReadItems, ReadString, JsonString, Trim, Spaces, AllSpaces;
    NotComma(isSpace);
    StringItem(value, tail);
    BreakSpaces(isSpace, indent, more);
    assert tail[1..] == "\n" + indent + more;
    ReadMore(isSpace, JsonString(value) + tail, value, tail, more, values);
  }

  lemma {:induction false} ItemsRead(isSpace: char -> bool, indent: string, closing: string, values: seq<string>)
    requires Spaces(isSpace) && AllSpaces(isSpace, indent) && AllSpaces(isSpace, closing) && values != []
    ensures ReadItems(isSpace, Items(indent, "\n" + closing + "]", values)) == Some(values)
    ensures var items := Items(indent, "\n" + closing + "]", values); items != "" && items[0] == '"'
    decreases |values|
  {
    hide ReadItems, Spaces, AllSpaces, EscapeAll;
    if |values| == 1 {
      OneItem(isSpace, closing, values[0]);
      assert values == [values[0]];
    } else {
      ItemsRead(isSpace, indent, closing, values[1..]);
      MoreItems(isSpace, indent, values[0], Items(indent, "\n" + closing + "]", values[1..]), values[1..]);
      assert values == [values[0]] + values[1..];
    }
  }

  lemma LayoutReads(isSpace: char -> bool, indent: string, closing: string, values: seq<string>)
    requires Spaces(isSpace) && AllSpaces(isSpace, indent) && AllSpaces(isSpace, closing) && values != []
    ensures ReadArray(isSpace, Layout(indent, closing, values)) == Some(values)
  {
    var end := "\n" + closing + "]";
    var body, items := Body(indent, values), Items(indent, end, values);
    LayoutText(body, closing);
    assert Layout(indent, closing, values) == "[" + ("\n" + (body + end));
    hide Body, Items, ReadItems, Trim, Spaces, AllSpaces, Layout;
    BodyItems(indent, end, values);
    ItemsRead(isSpace, indent, closing, values);
    BreakSpaces(isSpace, indent, items);
    Parts("\n", indent, items);
    assert ("[" + ("\n" + (body + end)))[1..] == "\n" + (body + end);
  }

  lemma LayoutText(body: string, closing: string)
    ensures "[\n" + body + "\n" + closing + "]" == "[" + ("\n" + (body + ("\n" + closing + "]")))
  {
  }

  /** Whatever strings are written, the rebuilt array reads back as exactly those strings. */
  lemma RebuiltReadsBack(isSpace: char -> bool, arrayText: string, values: seq<string>)
    requires Spaces(isSpace)
    ensures ReadArray(isSpace, Rebuilt(isSpace, arrayText, values)) == Some(values)
  {
    var indent, closing := RebuiltLayout(isSpace, arrayText, values);
    hide Rebuilt;
    if values == [] {
      assert ']' in "\"\\:,[]" && Layout(indent, closing, values)[1..] == "]";
    } else {
      LayoutReads(isSpace, indent, closing, values);
    }
  }
}
