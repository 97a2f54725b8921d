/**
 The line-by-line markup scanner of the licence policy: which construct a text leaves open, found with searches that
 jump from delimiter to delimiter and carry only a state from one line to the next.
 */
module MarkupScanner {
  import opened Common

  datatype Kind = Comment | CBlock | Instruction

  datatype Quote = Single | Double
  {
    function Char(): char {
      match this
      case Single => '\''
      case Double => '"'
    }
  }

  /** What is open: nothing, a tag (perhaps inside a quoted value), or a block. */
  datatype State =
    | Closed
    | Tag(quote: Option<Quote>)
    | Block(kind: Kind)

  function Opener(kind: Kind): string {
    match kind
    case Comment => "<!--"
    case CBlock => "/*"
    case Instruction => "<?"
  }

  function Terminators(kind: Kind): seq<string> {
    match kind
    case Comment => ["-->", "--!>"]
    case CBlock => ["*/"]
    case Instruction => ["?>"]
  }

  /** The characters that the lookbehind of a tag calls word characters; a space is not one. */
  ghost predicate Words(isWord: char -> bool) {
    !isWord(' ')
  }

  // ----- scanning, one character at a time -----

  predicate MatchAt(line: string, pattern: string, i: nat) {
    i + |pattern| <= |line| && line[i..i + |pattern|] == pattern
  }

  predicate TagLetter(c: char) {
    'a' <= c <= 'z' || 'A' <= c <= 'Z' || c == '!'
  }

  predicate TagAt(isWord: char -> bool, line: string, i: nat) {
    && i + 1 < |line| && line[i] == '<'
    && (i == 0 || !isWord(line[i - 1]))
    && (TagLetter(line[i + 1]) || (line[i + 1] == '/' && i + 2 < |line| && TagLetter(line[i + 2])))
  }

  /** A construct that opens, and how far past its start reading goes on. */
  datatype Opening = Opening(width: nat, state: State)

  function OpenAt(isWord: char -> bool, line: string, i: nat): (o: Option<Opening>)
    ensures o.Some? ==> 1 <= o.value.width && i + o.value.width <= |line|
  {
    if MatchAt(line, "<!--", i) then Some(Opening(4, Block(Comment)))
    else if MatchAt(line, "/*", i) then Some(Opening(2, Block(CBlock)))
    else if MatchAt(line, "<?", i) then Some(Opening(2, Block(Instruction)))
    else if TagAt(isWord, line, i) then Some(Opening(1, Tag(None)))
    else None
  }

  /** The width of the terminator that stands at a position, or 0. */
  function CloseAt(line: string, i: nat, kind: Kind): (w: nat)
    ensures i + w <= |line| || w == 0
  {
    match kind
    case Comment => if MatchAt(line, "-->", i) then 3 else if MatchAt(line, "--!>", i) then 4 else 0
    case CBlock => if MatchAt(line, "*/", i) then 2 else 0
    case Instruction => if MatchAt(line, "?>", i) then 2 else 0
  }

  /** The state after one character inside a tag. */
  function InTag(quote: Option<Quote>, c: char): State {
    if quote.Some? then Tag(if c == quote.value.Char() then None else quote)
    else if c == '"' then Tag(Some(Double))
    else if c == '\'' then Tag(Some(Single))
    else if c == '>' then Closed
    else Tag(None)
  }

  /** What is open at the end of a line, read from position i with a construct open. */
  function Scan(isWord: char -> bool, line: string, i: nat, state: State): State
    requires i <= |line|
    decreases |line| - i
  {
    if i == |line| then state
    else
      match state
      case Tag(quote) => Scan(isWord, line, i + 1, InTag(quote, line[i]))
      case Block(kind) =>
        var w := CloseAt(line, i, kind);
        if w > 0 then Scan(isWord, line, i + w, Closed) else Scan(isWord, line, i + 1, state)
      case Closed =>
        var o := OpenAt(isWord, line, i);
        if o.Some? then Scan(isWord, line, i + o.value.width, o.value.state) else Scan(isWord, line, i + 1, state)
  }

  // ----- what a tag is -----

  /** What stands in a tag before the bracket that closes it: characters, and quoted values that hide everything. */
  datatype TagPart = Bare(c: char) | Value(quote: Quote, text: string)

  predicate ProperPart(part: TagPart) {
    match part
    case Bare(c) => c != '"' && c != '\'' && c != '>'
    case Value(quote, text) => quote.Char() !in text
  }

  function PartText(part: TagPart): string {
    match part
    case Bare(c) => [c]
    case Value(quote, text) => [quote.Char()] + text + [quote.Char()]
  }

  function TagText(parts: seq<TagPart>): string {
    if parts == [] then "" else PartText(parts[0]) + TagText(parts[1..])
  }

  lemma {:induction false} ValueHides(isWord: char -> bool, line: string, i: nat, j: nat, quote: Quote)
    requires i <= j <= |line| && quote.Char() !in line[i..j]
    ensures Scan(isWord, line, i, Tag(Some(quote))) == Scan(isWord, line, j, Tag(Some(quote)))
    decreases j - i
  {
    if i < j {
      assert line[i] == line[i..j][0] && line[i + 1..j] == line[i..j][1..];
      ValueHides(isWord, line, i + 1, j, quote);
    }
  }

  lemma MatchSplit(line: string, a: string, b: string, i: nat)
    requires MatchAt(line, a + b, i)
    ensures MatchAt(line, a, i) && MatchAt(line, b, i + |a|)
  {
    assert line[i..i + |a|] == line[i..i + |a + b|][..|a|];
    assert line[i + |a|..i + |a| + |b|] == line[i..i + |a + b|][|a|..];
  }

  lemma PartReads(isWord: char -> bool, line: string, i: nat, part: TagPart)
    requires ProperPart(part) && MatchAt(line, PartText(part), i)
    ensures Scan(isWord, line, i, Tag(None)) == Scan(isWord, line, i + |PartText(part)|, Tag(None))
  {
    match part
    case Bare(c) => assert line[i] == line[i..i + 1][0] == c;
    case Value(quote, text) =>
      var q, j := [quote.Char()], i + 1 + |text|;
      MatchSplit(line, q + text, q, i);
      MatchSplit(line, q, text, i);
      assert line[i] == line[i..i + 1][0] == quote.Char() && line[j] == line[j..j + 1][0] == quote.Char();
      ValueHides(isWord, line, i + 1, j, quote);
  }

  lemma BracketCloses(isWord: char -> bool, line: string, i: nat)
    requires MatchAt(line, ">", i)
    ensures Scan(isWord, line, i, Tag(None)) == Scan(isWord, line, i + 1, Closed)
  {
    assert line[i] == line[i..i + 1][0] == '>';
  }

  lemma PartsSplit(parts: seq<TagPart>, end: string)
    requires parts != []
    ensures TagText(parts) + end == PartText(parts[0]) + (TagText(parts[1..]) + end)
  {
  }

  /** Whatever stands in its quoted values, brackets too, a tag ends at the first bracket outside them. */
  lemma {:induction false} TagReads(isWord: char -> bool, line: string, i: nat, parts: seq<TagPart>)
    requires (forall part :: part in parts ==> ProperPart(part)) && MatchAt(line, TagText(parts) + ">", i)
    ensures i + |TagText(parts)| + 1 <= |line|
    ensures Scan(isWord, line, i, Tag(None)) == Scan(isWord, line, i + |TagText(parts)| + 1, Closed)
    decreases |parts|
  {
    hide Scan, ProperPart, PartText;
    if parts == [] {
      assert TagText(parts) + ">" == ">";
      BracketCloses(isWord, line, i);
    } else {
      var first, rest := parts[0], parts[1..];
      assert first in parts && forall part :: part in rest ==> part in parts;
      PartsSplit(parts, ">");
      MatchSplit(line, PartText(first), TagText(rest) + ">", i);
      PartReads(isWord, line, i, first);
      TagReads(isWord, line, i + |PartText(first)|, rest);
    }
  }

  /**
   Where the parts of a tag end: at its closing bracket, after which nothing is open; at the end of the line, with
   the tag open; or at a quote that nothing in the line closes, with the tag open inside it.
   */
  ghost predicate TagEnds(isWord: char -> bool, line: string, i: nat, j: nat)
    requires i <= |line|
  {
    && i <= j <= |line|
    && if j == |line| then Scan(isWord, line, i, Tag(None)) == Tag(None)
       else if line[j] == '>' then Scan(isWord, line, i, Tag(None)) == Scan(isWord, line, j + 1, Closed)
       else exists quote: Quote :: line[j] == quote.Char() && quote.Char() !in line[j + 1..]
                                   && Scan(isWord, line, i, Tag(None)) == Tag(Some(quote))
  }

  lemma UnclosedValue(isWord: char -> bool, line: string, i: nat, quote: Quote)
    requires i < |line| && line[i] == quote.Char() && quote.Char() !in line[i + 1..]
    ensures TagEnds(isWord, line, i, i)
  {
    assert line[i + 1..|line|] == line[i + 1..];
    ValueHides(isWord, line, i + 1, |line|, quote);
  }

  lemma {:induction false} FirstOf(line: string, c: char, i: nat) returns (j: nat)
    requires i <= |line| && c in line[i..]
    ensures i <= j < |line| && line[j] == c && c !in line[i..j]
    decreases |line| - i
  {
    if line[i..][0] == c {
      j := i;
    } else {
      assert line[i..][1..] == line[i + 1..];
      j := FirstOf(line, c, i + 1);
      assert line[i..j] == [line[i]] + line[i + 1..j];
    }
  }

  lemma PartAhead(line: string, i: nat) returns (part: TagPart)
    requires i < |line| && line[i] != '>'
    requires line[i] == '"' || line[i] == '\'' ==> line[i] in line[i + 1..]
    ensures ProperPart(part) && MatchAt(line, PartText(part), i) && 1 <= |PartText(part)|
  {
    if line[i] == '"' || line[i] == '\'' {
      var quote := if line[i] == '"' then Double else Single;
      var k := FirstOf(line, quote.Char(), i + 1);
      part := Value(quote, line[i + 1..k]);
      assert line[i..k + 1] == [line[i]] + line[i + 1..k] + [line[k]];
    } else {
      part := Bare(line[i]);
    }
  }

  lemma EndsLater(isWord: char -> bool, line: string, i: nat, k: nat, j: nat)
    requires i <= k <= |line| && TagEnds(isWord, line, k, j)
    requires Scan(isWord, line, i, Tag(None)) == Scan(isWord, line, k, Tag(None))
    ensures TagEnds(isWord, line, i, j)
  {
    hide Scan;
  }

  lemma EndsHere(isWord: char -> bool, line: string, i: nat)
    requires i <= |line|
    requires i == |line| || line[i] == '>'
    ensures TagEnds(isWord, line, i, i)
  {
  }

  lemma TextAhead(line: string, i: nat, j: nat, part: TagPart, more: seq<TagPart>)
    requires MatchAt(line, PartText(part), i) && i + |PartText(part)| <= j <= |line|
    requires line[i + |PartText(part)|..j] == TagText(more)
    ensures line[i..j] == TagText([part] + more)
  {
    hide PartText;
    var k := i + |PartText(part)|;
    assert ([part] + more)[1..] == more && line[i..j] == line[i..k] + line[k..j];
  }

  /** The parts of a tag, up to where they end. */
  lemma {:induction false} ReadTag(isWord: char -> bool, line: string, i: nat) returns (parts: seq<TagPart>, j: nat)
    requires i <= |line|
    ensures TagEnds(isWord, line, i, j)
    ensures i <= j <= |line| && line[i..j] == TagText(parts)
    ensures forall part :: part in parts ==> ProperPart(part)
    decreases |line| - i
  {
    hide Scan, PartText, ProperPart;
    parts, j := [], i;
    if i == |line| || line[i] == '>' {
      EndsHere(isWord, line, i);
    } else if (line[i] == '"' || line[i] == '\'') && line[i] !in line[i + 1..] {
      UnclosedValue(isWord, line, i, if line[i] == '"' then Double else Single);
    } else {
      var part := PartAhead(line, i);
      var k := i + |PartText(part)|;
      PartReads(isWord, line, i, part);
      hide TagEnds;
      var more: seq<TagPart>;
      more, j := ReadTag(isWord, line, k);
      parts := [part] + more;
      EndsWithin(isWord, line, k, j);
      TextAhead(line, i, j, part, more);
      EndsLater(isWord, line, i, k, j);
    }
  }

  lemma EndsWithin(isWord: char -> bool, line: string, i: nat, j: nat)
    requires i <= |line| && TagEnds(isWord, line, i, j)
    ensures i <= j <= |line|
  {
    hide Scan;
  }

  // ----- scanning by searches -----

  /** The first match at or after i, or -1. */
  function Find(line: string, pattern: string, i: nat): (p: int)
    ensures p == -1 || (i <= p && MatchAt(line, pattern, p))
    ensures forall k: nat :: i <= k && (p == -1 || k < p) ==> !MatchAt(line, pattern, k)
    decreases |line| - i
  {
    if |line| < i + |pattern| then -1
    else if MatchAt(line, pattern, i) then i
    else if i == |line| then -1
    else Find(line, pattern, i + 1)
  }

  function FindTag(isWord: char -> bool, line: string, i: nat): (p: int)
    ensures p == -1 || (i <= p && TagAt(isWord, line, p))
    ensures forall k: nat :: i <= k && (p == -1 || k < p) ==> !TagAt(isWord, line, k)
    decreases |line| - i
  {
    if |line| <= i then -1
    else if TagAt(isWord, line, i) then i
    else FindTag(isWord, line, i + 1)
  }

  lemma {:induction false} SkipBlock(isWord: char -> bool, line: string, i: nat, p: nat, kind: Kind)
    requires i <= p <= |line| && forall k: nat :: i <= k < p ==> CloseAt(line, k, kind) == 0
    ensures Scan(isWord, line, i, Block(kind)) == Scan(isWord, line, p, Block(kind))
    decreases p - i
  {
    if i < p {
      assert CloseAt(line, i, kind) == 0;
      SkipBlock(isWord, line, i + 1, p, kind);
    }
  }

  lemma {:induction false} SkipClosed(isWord: char -> bool, line: string, i: nat, p: nat)
    requires i <= p <= |line| && forall k: nat :: i <= k < p ==> OpenAt(isWord, line, k) == None
    ensures Scan(isWord, line, i, Closed) == Scan(isWord, line, p, Closed)
    decreases p - i
  {
    if i < p {
      assert OpenAt(isWord, line, i) == None;
      SkipClosed(isWord, line, i + 1, p);
    }
  }

  /** At most one terminator of a kind stands at a position. */
  lemma CloseByTerminator(line: string, i: nat, kind: Kind)
    ensures (forall m :: 0 <= m < |Terminators(kind)| ==> !MatchAt(line, Terminators(kind)[m], i)) ==>
              CloseAt(line, i, kind) == 0
    ensures forall m :: 0 <= m < |Terminators(kind)| && MatchAt(line, Terminators(kind)[m], i)
                        ==> CloseAt(line, i, kind) == |Terminators(kind)[m]|
  {
    var terminators := Terminators(kind);
    match kind
    case Comment =>
      assert terminators[0] == "-->" && terminators[1] == "--!>";
      assert MatchAt(line, "-->", i) ==> line[i..i + 3][2] == line[i + 2] == '>';
      assert MatchAt(line, "--!>", i) ==> line[i..i + 4][2] == line[i + 2] == '!';
    case CBlock => assert terminators[0] == "*/";
    case Instruction => assert terminators[0] == "?>";
  }

  /** No terminator of a kind stands from i up to p. */
  ghost predicate NoTerminator(line: string, kind: Kind, i: nat, p: nat) {
    forall k: nat, m :: i <= k < p && 0 <= m < |Terminators(kind)| ==> !MatchAt(line, Terminators(kind)[m], k)
  }

  /** A block ends at its first terminator, whatever else stands in it; without one the line ends in it. */
  lemma BlockReads(isWord: char -> bool, line: string, i: nat, p: nat, kind: Kind)
    requires i <= p <= |line| && NoTerminator(line, kind, i, p)
    ensures p == |line| ==> Scan(isWord, line, i, Block(kind)) == Block(kind)
    ensures forall m :: 0 <= m < |Terminators(kind)| && MatchAt(line, Terminators(kind)[m], p)
              ==> Scan(isWord, line, i, Block(kind)) == Scan(isWord, line, p + |Terminators(kind)[m]|, Closed)
  {
    hide CloseAt, MatchAt, Terminators;
    forall k: nat | i <= k < p
      ensures CloseAt(line, k, kind) == 0
    {
      CloseByTerminator(line, k, kind);
    }
    SkipBlock(isWord, line, i, p, kind);
    CloseByTerminator(line, p, kind);
    TerminatorsWide(kind);
  }

  lemma TerminatorsWide(kind: Kind)
    ensures forall m :: 0 <= m < |Terminators(kind)| ==> Terminators(kind)[m] != ""
  {
  }

  datatype Match = Match(position: nat, width: nat)

  /** The earliest terminator at or after a position. */
  method FindTerminator(line: string, index: nat, kind: Kind) returns (r: Option<Match>)
    requires index <= |line|
    ensures r.None? ==> forall k: nat :: index <= k ==> CloseAt(line, k, kind) == 0
    ensures r.Some? ==> && index <= r.value.position && r.value.width == CloseAt(line, r.value.position, kind) > 0
                        && forall k: nat :: index <= k < r.value.position ==> CloseAt(line, k, kind) == 0
  {
    var terminators := Terminators(kind);
    r := None;
    for n := 0 to |terminators|
      invariant r.None? ==> forall m, k: nat :: 0 <= m < n && index <= k ==> !MatchAt(line, terminators[m], k)
      invariant r.Some? ==> && index <= r.value.position
                            && (exists m :: 0 <= m < n && r.value.width == |terminators[m]|
                                            && MatchAt(line, terminators[m], r.value.position))
                            && (forall m, k: nat :: 0 <= m < n && index <= k < r.value.position
                                                    ==> !MatchAt(line, terminators[m], k))
    {
      var position := Find(line, terminators[n], index);
      if position != -1 && (r.None? || position < r.value.position) {
        r := Some(Match(position, |terminators[n]|));
      }
    }
    forall k: nat
      ensures (forall m :: 0 <= m < |terminators| ==> !MatchAt(line, terminators[m], k)) ==> CloseAt(line, k, kind) == 0
      ensures forall m :: 0 <= m < |terminators| && MatchAt(line, terminators[m], k)
                          ==> CloseAt(line, k, kind) == |terminators[m]|
    {
      CloseByTerminator(line, k, kind);
    }
  }

  datatype Candidate = Candidate(position: nat, opening: Opening)

  /** The better of two candidates: the earlier one, or the first when they stand at the same position. */
  function Earlier(best: Option<Candidate>, position: int, opening: Opening): Option<Candidate> {
    if position < 0 || (best.Some? && best.value.position <= position) then best
    else Some(Candidate(position, opening))
  }

  /** The construct that opens first at or after a position; at one position a block wins over a tag. */
  method FindOpening(isWord: char -> bool, line: string, index: nat) returns (best: Option<Candidate>)
    requires index <= |line|
    ensures best.None? ==> forall k: nat :: index <= k ==> OpenAt(isWord, line, k) == None
    ensures best.Some? ==> && index <= best.value.position
                           && OpenAt(isWord, line, best.value.position) == Some(best.value.opening)
                           && forall k: nat :: index <= k < best.value.position ==> OpenAt(isWord, line, k) == None
  {
    best := None;
    best := Earlier(best, Find(line, Opener(Comment), index), Opening(|Opener(Comment)|, Block(Comment)));
    best := Earlier(best, Find(line, Opener(CBlock), index), Opening(|Opener(CBlock)|, Block(CBlock)));
    best := Earlier(best, Find(line, Opener(Instruction), index), Opening(|Opener(Instruction)|, Block(Instruction)));
    best := Earlier(best, FindTag(isWord, line, index), Opening(1, Tag(None)));
  }

  /** One line more: jump from delimiter to delimiter. */
  method AdvanceMarkupState(isWord: char -> bool, line: string, start: State) returns (r: State)
    ensures r == Scan(isWord, line, 0, start)
  {
    hide CloseAt, OpenAt, Terminators, Opener;
    var index, state := 0, start;
    while index <= |line|
      invariant 0 <= index <= |line| && Scan(isWord, line, index, state) == Scan(isWord, line, 0, start)
      decreases |line| - index, if state == Closed then 0 else 1
    {
      match state {
        case Tag(q) =>
          var quote, position := q, index;
          while position < |line| && (quote.Some? || line[position] != '>')
            invariant index <= position <= |line|
            invariant Scan(isWord, line, position, Tag(quote)) == Scan(isWord, line, 0, start)
          {
            if quote.Some? {
              if line[position] == quote.value.Char() {
                quote := None;
              }
            } else if line[position] == '"' {
              quote := Some(Double);
            } else if line[position] == '\'' {
              quote := Some(Single);
            }
            position := position + 1;
          }
          if |line| <= position {
            return Tag(quote);
          }
          index, state := position + 1, Closed;
        case Block(kind) =>
          var closing := FindTerminator(line, index, kind);
          if closing.None? {
            SkipBlock(isWord, line, index, |line|, kind);
            return state;
          }
          SkipBlock(isWord, line, index, closing.value.position, kind);
          index, state := closing.value.position + closing.value.width, Closed;
        case Closed =>
          var opening := FindOpening(isWord, line, index);
          if opening.None? {
            SkipClosed(isWord, line, index, |line|);
            return Closed;
          }
          SkipClosed(isWord, line, index, opening.value.position);
          index, state := opening.value.position + opening.value.opening.width, opening.value.opening.state;
      }
    }
    return state;
  }

  // ----- lines joined by spaces -----

  function Joined2(a: string, b: string): string {
    a + " " + b
  }

  lemma NoSpaceInMatch(text: string, pattern: string, i: nat, k: nat)
    requires ' ' !in pattern && MatchAt(text, pattern, i) && i <= k < i + |pattern|
    ensures text[k] != ' '
  {
    assert text[k] == text[i..i + |pattern|][k - i];
    assert pattern[k - i] in pattern;
  }

  /** No delimiter contains a space, so none stands across a join. */
  lemma MatchJoined(a: string, b: string, pattern: string, i: nat, j: nat)
    requires pattern != [] && ' ' !in pattern
    ensures i <= |a| ==> MatchAt(Joined2(a, b), pattern, i) == MatchAt(a, pattern, i)
    ensures MatchAt(Joined2(a, b), pattern, |a| + 1 + j) == MatchAt(b, pattern, j)
  {
    var text := Joined2(a, b);
    var n := |pattern|;
    assert text[|a|] == ' ';
    if i <= |a| < i + n && MatchAt(text, pattern, i) {
      NoSpaceInMatch(text, pattern, i, |a|);
      assert false;
    }
    if i + n <= |a| {
      assert text[i..i + n] == a[i..i + n];
    }
    if j + n <= |b| {
      assert text[|a| + 1 + j..|a| + 1 + j + n] == b[j..j + n];
    }
  }

  lemma OpenJoined(isWord: char -> bool, a: string, b: string, i: nat, j: nat)
    requires Words(isWord)
    ensures i <= |a| ==> OpenAt(isWord, Joined2(a, b), i) == OpenAt(isWord, a, i)
    ensures OpenAt(isWord, Joined2(a, b), |a| + 1 + j) == OpenAt(isWord, b, j)
  {
    MatchJoined(a, b, "<!--", i, j);
    MatchJoined(a, b, "/*", i, j);
    MatchJoined(a, b, "<?", i, j);
    hide MatchAt;
  }

  lemma CloseJoined(a: string, b: string, i: nat, j: nat, kind: Kind)
    ensures i <= |a| ==> CloseAt(Joined2(a, b), i, kind) == CloseAt(a, i, kind)
    ensures CloseAt(Joined2(a, b), |a| + 1 + j, kind) == CloseAt(b, j, kind)
  {
    MatchJoined(a, b, "-->", i, j);
    MatchJoined(a, b, "--!>", i, j);
    MatchJoined(a, b, "*/", i, j);
    MatchJoined(a, b, "?>", i, j);
    hide MatchAt;
  }

  lemma JoinedChars(a: string, b: string)
    ensures |Joined2(a, b)| == |a| + 1 + |b| && Joined2(a, b)[|a|] == ' '
    ensures forall i :: 0 <= i < |a| ==> Joined2(a, b)[i] == a[i]
    ensures forall j {:trigger b[j]} :: 0 <= j < |b| ==> Joined2(a, b)[|a| + 1 + j] == b[j]
  {
  }

  lemma {:induction false} ScanFirst(isWord: char -> bool, a: string, b: string, i: nat, state: State)
    requires Words(isWord) && i <= |a|
    ensures Scan(isWord, Joined2(a, b), i, state) == Scan(isWord, Joined2(a, b), |a|, Scan(isWord, a, i, state))
    decreases |a| - i
  {
    hide MatchAt, OpenAt, CloseAt, Joined2;
    JoinedChars(a, b);
    if i < |a| {
      OpenJoined(isWord, a, b, i, 0);
      match state
      case Tag(quote) => ScanFirst(isWord, a, b, i + 1, InTag(quote, a[i]));
      case Block(kind) =>
        CloseJoined(a, b, i, 0, kind);
        var w := CloseAt(a, i, kind);
        ScanFirst(isWord, a, b, if w > 0 then i + w else i + 1, if w > 0 then Closed else state);
      case Closed =>
        var o := OpenAt(isWord, a, i);
        ScanFirst(isWord, a, b, if o.Some? then i + o.value.width else i + 1, if o.Some? then o.value.state else state);
    }
  }

  lemma {:induction false} ScanSecond(isWord: char -> bool, a: string, b: string, j: nat, state: State)
    requires Words(isWord) && j <= |b|
    ensures Scan(isWord, Joined2(a, b), |a| + 1 + j, state) == Scan(isWord, b, j, state)
    decreases |b| - j
  {
    hide MatchAt, OpenAt, CloseAt, Joined2;
    JoinedChars(a, b);
    if j < |b| {
      OpenJoined(isWord, a, b, 0, j);
      match state
      case Tag(quote) => ScanSecond(isWord, a, b, j + 1, InTag(quote, b[j]));
      case Block(kind) =>
        CloseJoined(a, b, 0, j, kind);
        var w := CloseAt(b, j, kind);
        ScanSecond(isWord, a, b, if w > 0 then j + w else j + 1, if w > 0 then Closed else state);
      case Closed =>
        var o := OpenAt(isWord, b, j);
        var next, after := if o.Some? then j + o.value.width else j + 1, if o.Some? then o.value.state else state;
        ScanSecond(isWord, a, b, next, after);
    }
  }

  /** The space of a join changes nothing. */
  lemma ScanSpace(isWord: char -> bool, a: string, b: string, state: State)
    requires Words(isWord)
    ensures Scan(isWord, Joined2(a, b), |a|, state) == Scan(isWord, Joined2(a, b), |a| + 1, state)
  {
    JoinedChars(a, b);
    OpenJoined(isWord, a, b, |a|, 0);
    if state.Block? {
      CloseJoined(a, b, |a|, 0, state.kind);
    }
    hide Joined2;
  }

  /** Reading two lines one after the other is reading them joined by a space, from every state. */
  lemma ScanJoin(isWord: char -> bool, a: string, b: string, state: State)
    requires Words(isWord)
    ensures Scan(isWord, a + " " + b, 0, state) == Scan(isWord, b, 0, Scan(isWord, a, 0, state))
  {
    ScanFirst(isWord, a, b, 0, state);
    ScanSpace(isWord, a, b, Scan(isWord, a, 0, state));
    ScanSecond(isWord, a, b, 0, Scan(isWord, a, 0, state));
  }

  /** The state after several lines. */
  function Fold(isWord: char -> bool, lines: seq<string>, state: State): State {
    if lines == [] then state else Fold(isWord, lines[1..], Scan(isWord, lines[0], 0, state))
  }

  function JoinLines(lines: seq<string>): string {
    if lines == [] then "" else if |lines| == 1 then lines[0] else lines[0] + " " + JoinLines(lines[1..])
  }

  /** Folding over lines gives the state of one scan of the lines joined by spaces. */
  lemma {:induction false} FoldIsScan(isWord: char -> bool, lines: seq<string>, state: State)
    requires Words(isWord) && lines != []
    ensures Fold(isWord, lines, state) == Scan(isWord, JoinLines(lines), 0, state)
  {
    var first := Scan(isWord, lines[0], 0, state);
    if |lines| == 1 {
      assert Fold(isWord, lines[1..], first) == first;
    } else {
      FoldIsScan(isWord, lines[1..], first);
      ScanJoin(isWord, lines[0], JoinLines(lines[1..]), state);
    }
  }

  lemma {:induction false} FoldAppend(isWord: char -> bool, lines: seq<string>, line: string, state: State)
    ensures Fold(isWord, lines + [line], state) == Scan(isWord, line, 0, Fold(isWord, lines, state))
  {
    if lines == [] {
      assert [] + [line] == [line];
      assert Fold(isWord, [line][1..], Scan(isWord, line, 0, state)) == Scan(isWord, line, 0, state);
    } else {
      FoldAppend(isWord, lines[1..], line, Scan(isWord, lines[0], 0, state));
      assert (lines + [line])[1..] == lines[1..] + [line];
    }
  }

  // ----- physical lines -----

  /** The characters at which a text is split into lines. */
  predicate LineBreak(c: char) {
    var n := c as int;
    10 <= n <= 13 || 0x1c <= n <= 0x1e || n == 0x85 || n == 0x2028 || n == 0x2029
  }

  predicate BreakFree(line: string) {
    forall i :: 0 <= i < |line| ==> !LineBreak(line[i])
  }

  /** The length of the first line. */
  function LineLength(text: string): (n: nat)
    ensures n <= |text| && BreakFree(text[..n])
    ensures n < |text| ==> LineBreak(text[n])
  {
    if text == "" || LineBreak(text[0]) then 0 else 1 + LineLength(text[1..])
  }

  function SplitLines(text: string): (lines: seq<string>)
    ensures forall k :: 0 <= k < |lines| ==> BreakFree(lines[k])
    decreases |text|
  {
    if text == "" then []
    else
      var n := LineLength(text);
      if n == |text| then [text[..n]]
      else
        var w := if text[n] == '\r' && n + 1 < |text| && text[n + 1] == '\n' then 2 else 1;
        [text[..n]] + SplitLines(text[n + w..])
  }

  /** The lines by which a text is judged; an empty text is one empty line. */
  function PhysicalLines(text: string): seq<string> {
    if SplitLines(text) == [] then [text] else SplitLines(text)
  }

  lemma BreakFreeIsOneLine(text: string)
    requires BreakFree(text)
    ensures PhysicalLines(text) == [text]
  {
    if text != "" {
      assert text[..|text|] == text;
    }
  }

  lemma {:induction false} JoinBreakFree(lines: seq<string>)
    requires forall k :: 0 <= k < |lines| ==> BreakFree(lines[k])
    ensures BreakFree(JoinLines(lines))
  {
    if |lines| > 1 {
      JoinBreakFree(lines[1..]);
    }
  }

  predicate Unterminated(isWord: char -> bool, text: string) {
    Fold(isWord, PhysicalLines(text), Closed) != Closed
  }

  method HasUnterminatedMarkup(isWord: char -> bool, text: string) returns (r: bool)
    ensures r == Unterminated(isWord, text)
  {
    var lines := PhysicalLines(text);
    var state := Closed;
    for k := 0 to |lines|
      invariant state == Fold(isWord, lines[..k], Closed)
    {
      state := AdvanceMarkupState(isWord, lines[k], state);
      FoldAppend(isWord, lines[..k], lines[k], Closed);
      assert lines[..k + 1] == lines[..k] + [lines[k]];
    }
    assert lines[..|lines|] == lines;
    return state != Closed;
  }

  /** A text joined from lines is unterminated exactly when the fold over the lines ends open. */
  lemma JoinedUnterminated(isWord: char -> bool, lines: seq<string>)
    requires Words(isWord) && lines != [] && forall k :: 0 <= k < |lines| ==> BreakFree(lines[k])
    ensures Unterminated(isWord, JoinLines(lines)) <==> Fold(isWord, lines, Closed) != Closed
  {
    JoinBreakFree(lines);
    BreakFreeIsOneLine(JoinLines(lines));
    FoldIsScan(isWord, lines, Closed);
    FoldIsScan(isWord, [JoinLines(lines)], Closed);
  }

  // ----- logical lines -----

  /** Where a forward scan stops, and what is then open. */
  datatype Probed = Probed(last: nat, state: State)

  /** Read on until nothing is open or the lines end. */
  function Probe(isWord: char -> bool, lines: seq<string>, p: nat, state: State): (r: Probed)
    requires p < |lines|
    ensures p <= r.last < |lines|
    decreases |lines| - p
  {
    if p + 1 < |lines| && state != Closed then Probe(isWord, lines, p + 1, Scan(isWord, lines[p + 1], 0, state))
    else Probed(p, state)
  }

  function OpenAfter(isWord: char -> bool, lines: seq<string>, i: nat): State
    requires i < |lines|
  {
    Scan(isWord, lines[i], 0, Closed)
  }

  /** The scan that starts on a line. */
  function ProbeFrom(isWord: char -> bool, lines: seq<string>, i: nat): (r: Probed)
    requires i < |lines|
    ensures i <= r.last < |lines|
  {
    Probe(isWord, lines, i, OpenAfter(isWord, lines, i))
  }

  /** Collect lines from an open one until nothing is open, or to the end. */
  method Follow(isWord: char -> bool, lines: seq<string>, index: nat)
    returns (group: seq<string>, probe: nat, state: State)
    requires index < |lines|
    ensures ProbeFrom(isWord, lines, index) == Probed(probe, state)
    ensures index <= probe < |lines| && group == lines[index..probe + 1]
  {
    probe := index;
    group := [lines[index]];
    state := AdvanceMarkupState(isWord, lines[index], Closed);
    while probe + 1 < |lines| && state != Closed
      invariant index <= probe < |lines| && group == lines[index..probe + 1]
      invariant Probe(isWord, lines, probe, state) == ProbeFrom(isWord, lines, index)
      decreases |lines| - probe
    {
      probe := probe + 1;
      group := group + [lines[probe]];
      state := AdvanceMarkupState(isWord, lines[probe], state);
    }
  }

  /** The first group from line i on, the line after it, and the states remembered by then. */
  datatype Grouped = Grouped(group: seq<string>, next: nat, failed: set<State>)

  function FirstGroup(isWord: char -> bool, lines: seq<string>, i: nat, failed: set<State>): (r: Grouped)
    requires i < |lines|
    ensures i < r.next <= |lines| && r.group == lines[i..r.next]
  {
    var state := OpenAfter(isWord, lines, i);
    if state == Closed || state in failed then Grouped([lines[i]], i + 1, failed)
    else
      var end := ProbeFrom(isWord, lines, i);
      if end.state == Closed then Grouped(lines[i..end.last + 1], end.last + 1, failed)
      else Grouped([lines[i]], i + 1, failed + {end.state})
  }

  /**
   The groups from line i on: a line that leaves something open is joined with the lines up to the one that closes
   it, unless the scan never closes, or an earlier scan never closed and ended in the state that this line leaves.
   */
  function GroupsFrom(isWord: char -> bool, lines: seq<string>, i: nat, failed: set<State>): seq<seq<string>>
    decreases |lines| - i
  {
    if |lines| <= i then []
    else
      var first := FirstGroup(isWord, lines, i, failed);
      [first.group] + GroupsFrom(isWord, lines, first.next, first.failed)
  }

  method NextGroup(isWord: char -> bool, lines: seq<string>, index: nat, memo: map<State, nat>)
    returns (group: seq<string>, next: nat, memo': map<State, nat>)
    requires index < |lines| && forall state :: state in memo ==> memo[state] < index
    ensures FirstGroup(isWord, lines, index, memo.Keys) == Grouped(group, next, memo'.Keys)
    ensures index < next <= |lines| && forall state :: state in memo' ==> memo'[state] < next
  {
    memo' := memo;
    var state := AdvanceMarkupState(isWord, lines[index], Closed);
    group, next := [lines[index]], index + 1;
    if state != Closed && (state !in memo || index < memo[state]) {
      var followed, probe, after := Follow(isWord, lines, index);
      if after != Closed {
        memo' := memo[after := index];
      } else {
        group, next := followed, probe + 1;
      }
    }
  }

  method LogicalLines(isWord: char -> bool, text: string) returns (groups: seq<seq<string>>)
    ensures groups == GroupsFrom(isWord, SplitLines(text), 0, {})
  {
    var lines := SplitLines(text);
    groups := [];
    var index := 0;
    var unterminatedFrom: map<State, nat> := map[];
    assert unterminatedFrom.Keys == {};
    while index < |lines|
      invariant index <= |lines| && forall state :: state in unterminatedFrom ==> unterminatedFrom[state] < index
      invariant groups + GroupsFrom(isWord, lines, index, unterminatedFrom.Keys) == GroupsFrom(isWord, lines, 0, {})
      decreases |lines| - index
    {
      hide FirstGroup;
      var group, next, memo := NextGroup(isWord, lines, index, unterminatedFrom);
      assert groups + ([group] + GroupsFrom(isWord, lines, next, memo.Keys))
          == groups + [group] + GroupsFrom(isWord, lines, next, memo.Keys);
      groups, index, unterminatedFrom := groups + [group], next, memo;
    }
    assert groups + [] == groups;
  }

  // ----- what the groups promise -----

  function Concat(groups: seq<seq<string>>): seq<string> {
    if groups == [] then [] else groups[0] + Concat(groups[1..])
  }

  lemma {:induction false} GroupsConcat(isWord: char -> bool, lines: seq<string>, i: nat, failed: set<State>)
    requires i <= |lines|
    ensures Concat(GroupsFrom(isWord, lines, i, failed)) == lines[i..]
    decreases |lines| - i
  {
    if i < |lines| {
      var first := FirstGroup(isWord, lines, i, failed);
      GroupsConcat(isWord, lines, first.next, first.failed);
      assert lines[i..] == lines[i..first.next] + lines[first.next..];
      var rest := GroupsFrom(isWord, lines, first.next, first.failed);
      assert ([first.group] + rest)[1..] == rest;
      hide FirstGroup;
    }
  }

  /** Lines that stay open up to the last, which closes everything. */
  ghost predicate Enclosed(isWord: char -> bool, group: seq<string>) {
    && Fold(isWord, group, Closed) == Closed
    && forall k :: 0 < k < |group| ==> Fold(isWord, group[..k], Closed) != Closed
  }

  ghost predicate OpenThrough(isWord: char -> bool, lines: seq<string>, i: nat, q: nat)
    requires i <= q < |lines|
  {
    Fold(isWord, lines[i..q + 1], Closed) != Closed
  }

  /** A scan that has read some lines with something open at the end of each. */
  lemma {:induction false} ProbeOpens(isWord: char -> bool, lines: seq<string>, i: nat, p: nat, state: State)
    requires i <= p < |lines| && state == Fold(isWord, lines[i..p + 1], Closed)
    ensures var end := Probe(isWord, lines, p, state);
            && end.state == Fold(isWord, lines[i..end.last + 1], Closed)
            && (end.state != Closed ==> end.last == |lines| - 1)
            && (forall q: nat :: p <= q < end.last ==> OpenThrough(isWord, lines, i, q))
    decreases |lines| - p
  {
    if p + 1 < |lines| && state != Closed {
      FoldAppend(isWord, lines[i..p + 1], lines[p + 1], Closed);
      assert lines[i..p + 2] == lines[i..p + 1] + [lines[p + 1]];
      ProbeOpens(isWord, lines, i, p + 1, Scan(isWord, lines[p + 1], 0, state));
    }
  }

  lemma ProbedGroup(isWord: char -> bool, lines: seq<string>, i: nat)
    requires i < |lines|
    ensures var end := ProbeFrom(isWord, lines, i);
            && end.state == Fold(isWord, lines[i..end.last + 1], Closed)
            && (end.state != Closed ==> end.last == |lines| - 1)
            && (end.state == Closed ==> Enclosed(isWord, lines[i..end.last + 1]))
  {
    assert lines[i..i + 1] == [] + [lines[i]];
    FoldAppend(isWord, [], lines[i], Closed);
    ProbeOpens(isWord, lines, i, i, OpenAfter(isWord, lines, i));
    var end := ProbeFrom(isWord, lines, i);
    var group := lines[i..end.last + 1];
    forall k | 0 < k < |group|
      ensures end.state == Closed ==> Fold(isWord, group[..k], Closed) != Closed
    {
      assert end.state == Closed ==> OpenThrough(isWord, lines, i, i + k - 1);
      assert group[..k] == lines[i..i + k - 1 + 1];
    }
  }

  lemma {:induction false} GroupsEnclosed(isWord: char -> bool, lines: seq<string>, i: nat, failed: set<State>, g: nat)
    requires g < |GroupsFrom(isWord, lines, i, failed)|
    ensures var group := GroupsFrom(isWord, lines, i, failed)[g];
            1 <= |group| && (1 < |group| ==> Enclosed(isWord, group)) && forall l :: l in group ==> l in lines
    decreases |lines| - i
  {
    var first := FirstGroup(isWord, lines, i, failed);
    ProbedGroup(isWord, lines, i);
    if g > 0 {
      GroupsEnclosed(isWord, lines, first.next, first.failed, g - 1);
    }
    hide Enclosed;
  }

  /**
   The logical lines of a text keep its physical lines in order; and when several lines are grouped, the joined text
   of every proper beginning of the group is unterminated while the whole group is terminated.
   */
  lemma LogicalLinesPromise(isWord: char -> bool, text: string)
    requires Words(isWord)
    ensures var groups := GroupsFrom(isWord, SplitLines(text), 0, {});
            && Concat(groups) == SplitLines(text)
            && (forall g, k :: 0 <= g < |groups| && 0 < k < |groups[g]| ==>
                                 Unterminated(isWord, JoinLines(groups[g][..k])))
            && (forall g :: 0 <= g < |groups| && 1 < |groups[g]| ==> !Unterminated(isWord, JoinLines(groups[g])))
  {
    var lines := SplitLines(text);
    var groups := GroupsFrom(isWord, lines, 0, {});
    GroupsConcat(isWord, lines, 0, {});
    forall g, k | 0 <= g < |groups| && 0 < k < |groups[g]|
      ensures Unterminated(isWord, JoinLines(groups[g][..k]))
    {
      GroupsEnclosed(isWord, lines, 0, {}, g);
      GroupPromise(isWord, groups[g], k);
    }
    forall g | 0 <= g < |groups| && 1 < |groups[g]|
      ensures !Unterminated(isWord, JoinLines(groups[g]))
    {
      GroupsEnclosed(isWord, lines, 0, {}, g);
      GroupPromise(isWord, groups[g], 1);
    }
  }

  lemma GroupPromise(isWord: char -> bool, group: seq<string>, k: nat)
    requires Words(isWord) && Enclosed(isWord, group) && 0 < k < |group|
    requires forall l :: l in group ==> BreakFree(l)
    ensures Unterminated(isWord, JoinLines(group[..k])) && !Unterminated(isWord, JoinLines(group))
  {
    assert forall m :: 0 <= m < |group| ==> group[m] in group;
    JoinedUnterminated(isWord, group[..k]);
    JoinedUnterminated(isWord, group);
  }

  // ----- the memory of scans that never closed -----

  /** The groups without that memory: every open line is followed. */
  function PlainGroups(isWord: char -> bool, lines: seq<string>, i: nat): seq<seq<string>>
    decreases |lines| - i
  {
    if |lines| <= i then []
    else
      var first := FirstGroup(isWord, lines, i, {});
      [first.group] + PlainGroups(isWord, lines, first.next)
  }

  /** No line that an earlier scan makes the grouping pass over is closed by a later line. */
  predicate Harmless(isWord: char -> bool, lines: seq<string>, i: nat, failed: set<State>)
    decreases |lines| - i
  {
    |lines| <= i ||
    (var first := FirstGroup(isWord, lines, i, failed);
     && (OpenAfter(isWord, lines, i) in failed && OpenAfter(isWord, lines, i) != Closed
         ==> ProbeFrom(isWord, lines, i).state != Closed)
     && Harmless(isWord, lines, first.next, first.failed))
  }

  /** The memory only saves work exactly when it passes over no line whose construct is closed later. */
  lemma {:induction false} MemoryIff(isWord: char -> bool, lines: seq<string>, i: nat, failed: set<State>)
    ensures GroupsFrom(isWord, lines, i, failed) == PlainGroups(isWord, lines, i)
            <==> Harmless(isWord, lines, i, failed)
    decreases |lines| - i
  {
    if i < |lines| {
      var first, plain := FirstGroup(isWord, lines, i, failed), FirstGroup(isWord, lines, i, {});
      var groups, plains := GroupsFrom(isWord, lines, i, failed), PlainGroups(isWord, lines, i);
      MemoryIff(isWord, lines, first.next, first.failed);
      ProbedGroup(isWord, lines, i);
      assert groups[0] == first.group && groups[1..] == GroupsFrom(isWord, lines, first.next, first.failed);
      assert plains[0] == plain.group && plains[1..] == PlainGroups(isWord, lines, plain.next);
      assert |first.group| == first.next - i && |plain.group| == plain.next - i;
    }
  }

  /** Line i starts a group when every open line is followed, the first group starting at line p. */
  predicate StartsGroup(isWord: char -> bool, lines: seq<string>, p: nat, i: nat)
    decreases |lines| - p
  {
    p < |lines| && (i == p || StartsGroup(isWord, lines, FirstGroup(isWord, lines, p, {}).next, i))
  }

  predicate NeverCloses(isWord: char -> bool, lines: seq<string>, i: nat)
    requires i < |lines|
  {
    ProbeFrom(isWord, lines, i).state != Closed
  }

  /**
   The scan from line i never closes and ends in the very state that line j leaves, though what j leaves open is
   closed later.
   */
  predicate Hides(isWord: char -> bool, lines: seq<string>, i: nat, j: nat)
    requires i < |lines| && j < |lines|
  {
    NeverCloses(isWord, lines, i) && !NeverCloses(isWord, lines, j)
    && OpenAfter(isWord, lines, j) == ProbeFrom(isWord, lines, i).state
  }

  lemma {:induction false} StartInRange(isWord: char -> bool, lines: seq<string>, p: nat, i: nat)
    requires StartsGroup(isWord, lines, p, i)
    ensures p <= i < |lines|
    decreases |lines| - p
  {
    if i != p {
      StartInRange(isWord, lines, FirstGroup(isWord, lines, p, {}).next, i);
    }
  }

  lemma {:induction false} NextStarts(isWord: char -> bool, lines: seq<string>, p: nat, i: nat)
    requires StartsGroup(isWord, lines, p, i) && i < |lines| && FirstGroup(isWord, lines, i, {}).next < |lines|
    ensures StartsGroup(isWord, lines, p, FirstGroup(isWord, lines, i, {}).next)
    decreases |lines| - p
  {
    var next := FirstGroup(isWord, lines, i, {}).next;
    if i != p {
      NextStarts(isWord, lines, FirstGroup(isWord, lines, p, {}).next, i);
    } else {
      assert StartsGroup(isWord, lines, next, next);
    }
  }

  /** Of two starts the later one is reached from the earlier one. */
  lemma {:induction false} LaterStart(isWord: char -> bool, lines: seq<string>, q: nat, p: nat, j: nat)
    requires StartsGroup(isWord, lines, q, p) && StartsGroup(isWord, lines, q, j) && p < j
    ensures p < |lines| && StartsGroup(isWord, lines, FirstGroup(isWord, lines, p, {}).next, j)
    ensures FirstGroup(isWord, lines, p, {}).next <= j
    decreases |lines| - q
  {
    var next := FirstGroup(isWord, lines, q, {}).next;
    StartInRange(isWord, lines, q, p);
    if q == p {
      StartInRange(isWord, lines, next, j);
    } else {
      LaterStart(isWord, lines, next, p, j);
    }
  }

  /**
   The scan from start i never closes, and no earlier remembered one ended in the state that line i leaves: its end
   is remembered.
   */
  predicate Remembered(isWord: char -> bool, lines: seq<string>, i: nat)
    requires i < |lines|
    decreases i
  {
    && StartsGroup(isWord, lines, 0, i) && NeverCloses(isWord, lines, i)
    && (forall h: nat :: h < i && Remembered(isWord, lines, h) ==>
                           ProbeFrom(isWord, lines, h).state != OpenAfter(isWord, lines, i))
  }

  /** No remembered line hides a start from line p on. */
  ghost predicate NothingHidden(isWord: char -> bool, lines: seq<string>, p: nat) {
    forall i: nat, j: nat ::
      i < j < |lines| && p <= j && Remembered(isWord, lines, i) && StartsGroup(isWord, lines, 0, j) ==>
        !Hides(isWord, lines, i, j)
  }

  predicate LeavesAtEnd(isWord: char -> bool, lines: seq<string>, i: nat, state: State)
    requires i < |lines|
  {
    Remembered(isWord, lines, i) && ProbeFrom(isWord, lines, i).state == state
  }

  /** What is remembered when the grouping comes to line p. */
  ghost predicate MemoryAt(isWord: char -> bool, lines: seq<string>, p: nat, failed: set<State>) {
    forall state :: state in failed <==> exists i: nat :: i < p && i < |lines| && LeavesAtEnd(isWord, lines, i, state)
  }

  /** A group of one line, unless its line leaves something open that closes and is not passed over. */
  lemma GroupCases(isWord: char -> bool, lines: seq<string>, p: nat, failed: set<State>)
    requires p < |lines|
    ensures var first, plain := FirstGroup(isWord, lines, p, failed), FirstGroup(isWord, lines, p, {});
            var state, end := OpenAfter(isWord, lines, p), ProbeFrom(isWord, lines, p).state;
            && (state == Closed ==> !NeverCloses(isWord, lines, p))
            && (state !in failed || state == Closed || NeverCloses(isWord, lines, p) ==> first.next == plain.next)
            && first.failed == failed + if state !in failed && NeverCloses(isWord, lines, p) then {end} else {}
  {
  }

  lemma MemoryNext(isWord: char -> bool, lines: seq<string>, p: nat, failed: set<State>, next: nat,
                   failed': set<State>)
    requires p < |lines| && StartsGroup(isWord, lines, 0, p) && MemoryAt(isWord, lines, p, failed)
    requires next == FirstGroup(isWord, lines, p, {}).next
    requires failed' == failed + if OpenAfter(isWord, lines, p) !in failed && NeverCloses(isWord, lines, p)
                                 then {ProbeFrom(isWord, lines, p).state} else {}
    ensures MemoryAt(isWord, lines, next, failed')
  {
    hide StartsGroup, FirstGroup, ProbeFrom, OpenAfter;
    var state := OpenAfter(isWord, lines, p);
    assert Remembered(isWord, lines, p) <==> state !in failed && NeverCloses(isWord, lines, p) by {
      if state in failed {
        var i: nat :| i < p && i < |lines| && LeavesAtEnd(isWord, lines, i, state);
      } else {
        forall h: nat | h < p && Remembered(isWord, lines, h)
          ensures ProbeFrom(isWord, lines, h).state != state
        {
          assert LeavesAtEnd(isWord, lines, h, ProbeFrom(isWord, lines, h).state);
        }
      }
    }
    forall open
      ensures open in failed'
              <==> exists i: nat :: i < next && i < |lines| && LeavesAtEnd(isWord, lines, i, open)
    {
      if i: nat :| i < next && i < |lines| && LeavesAtEnd(isWord, lines, i, open) {
        if p < i {
          LaterStart(isWord, lines, 0, p, i);
        }
      }
      if open in failed {
        var i: nat :| i < p && i < |lines| && LeavesAtEnd(isWord, lines, i, open);
        assert LeavesAtEnd(isWord, lines, i, open);
      } else if open in failed' {
        assert LeavesAtEnd(isWord, lines, p, open);
      }
    }
  }

  lemma HereNotHidden(isWord: char -> bool, lines: seq<string>, p: nat, failed: set<State>, i: nat)
    requires i < p < |lines| && MemoryAt(isWord, lines, p, failed) && Remembered(isWord, lines, i)
    requires OpenAfter(isWord, lines, p) in failed && OpenAfter(isWord, lines, p) != Closed ==>
               NeverCloses(isWord, lines, p)
    ensures !Hides(isWord, lines, i, p)
  {
    hide ProbeFrom, OpenAfter, Remembered;
    assert LeavesAtEnd(isWord, lines, i, ProbeFrom(isWord, lines, i).state);
  }

  /** When start p is not passed over, only later starts matter. */
  lemma NothingHere(isWord: char -> bool, lines: seq<string>, p: nat, failed: set<State>)
    requires p < |lines| && StartsGroup(isWord, lines, 0, p) && MemoryAt(isWord, lines, p, failed)
    requires OpenAfter(isWord, lines, p) in failed && OpenAfter(isWord, lines, p) != Closed ==>
               NeverCloses(isWord, lines, p)
    ensures NothingHidden(isWord, lines, p) <==> NothingHidden(isWord, lines, FirstGroup(isWord, lines, p, {}).next)
  {
    hide StartsGroup, FirstGroup, ProbeFrom, OpenAfter, Remembered, Hides, MemoryAt, NeverCloses;
    var next := FirstGroup(isWord, lines, p, {}).next;
    if NothingHidden(isWord, lines, next) {
      forall i: nat, j: nat |
        i < j < |lines| && p <= j && Remembered(isWord, lines, i) && StartsGroup(isWord, lines, 0, j)
        ensures !Hides(isWord, lines, i, j)
      {
        if p < j {
          LaterStart(isWord, lines, 0, p, j);
        } else {
          HereNotHidden(isWord, lines, p, failed, i);
        }
      }
    }
  }

  lemma {:induction false} HarmlessIff(isWord: char -> bool, lines: seq<string>, p: nat, failed: set<State>)
    requires (p < |lines| ==> StartsGroup(isWord, lines, 0, p)) && MemoryAt(isWord, lines, p, failed)
    ensures Harmless(isWord, lines, p, failed) <==> NothingHidden(isWord, lines, p)
    decreases |lines| - p
  {
    if p < |lines| {
      var state := OpenAfter(isWord, lines, p);
      var first := FirstGroup(isWord, lines, p, failed);
      GroupCases(isWord, lines, p, failed);
      if state in failed && state != Closed && !NeverCloses(isWord, lines, p) {
        var i: nat :| i < p && i < |lines| && LeavesAtEnd(isWord, lines, i, state);
        assert Hides(isWord, lines, i, p);
      } else {
        if first.next < |lines| {
          NextStarts(isWord, lines, 0, p);
        }
        MemoryNext(isWord, lines, p, failed, first.next, first.failed);
        HarmlessIff(isWord, lines, first.next, first.failed);
        NothingHere(isWord, lines, p, failed);
      }
    }
  }

  /**
   When the memory only saves work: the grouping is that of following every open line exactly when no line whose
   never-closing scan is remembered ended in the state that the line of a later group leaves, though what that leaves
   open is closed.
   */
  lemma MemoryHarmlessIff(isWord: char -> bool, lines: seq<string>)
    ensures GroupsFrom(isWord, lines, 0, {}) == PlainGroups(isWord, lines, 0) <==> NothingHidden(isWord, lines, 0)
  {
    HarmlessIff(isWord, lines, 0, {});
    MemoryIff(isWord, lines, 0, {});
  }

  /** In particular the memory is harmless when no two lines at all are so related. */
  lemma MemoryHarmlessOnLines(isWord: char -> bool, lines: seq<string>)
    requires forall i: nat, j: nat :: i < j < |lines| ==> !Hides(isWord, lines, i, j)
    ensures GroupsFrom(isWord, lines, 0, {}) == PlainGroups(isWord, lines, 0)
  {
    MemoryHarmlessIff(isWord, lines);
  }

  const PASSED_OVER: seq<string> := ["<a\"", "/*", "*/", "\">/*"]

  lemma PassedOverStates(isWord: char -> bool)
    ensures Scan(isWord, "<a\"", 0, Closed) == Tag(Some(Double))
    ensures Scan(isWord, "/*", 0, Tag(Some(Double))) == Tag(Some(Double))
    ensures Scan(isWord, "*/", 0, Tag(Some(Double))) == Tag(Some(Double))
    ensures Scan(isWord, "\">/*", 0, Tag(Some(Double))) == Block(CBlock)
    ensures Scan(isWord, "/*", 0, Closed) == Block(CBlock)
    ensures Scan(isWord, "*/", 0, Block(CBlock)) == Closed
  {
    var tag := "<a\"";
    assert !MatchAt(tag, "<!--", 0) && !MatchAt(tag, "/*", 0) && !MatchAt(tag, "<?", 0) by {
      assert tag[0..2][1] == 'a';
    }
    assert Scan(isWord, tag, 2, Tag(None)) == Scan(isWord, tag, 3, Tag(Some(Double)));
    assert Scan(isWord, tag, 1, Tag(None)) == Scan(isWord, tag, 2, Tag(None));
    var open, close, end := "/*", "*/", "\">/*";
    assert MatchAt(open, "/*", 0) && MatchAt(close, "*/", 0) && MatchAt(end, "/*", 2);
    assert Scan(isWord, open, 1, Tag(Some(Double))) == Tag(Some(Double));
    assert Scan(isWord, close, 1, Tag(Some(Double))) == Tag(Some(Double));
    assert Scan(isWord, end, 2, Closed) == Scan(isWord, end, 4, Block(CBlock));
    assert Scan(isWord, end, 1, Tag(None)) == Scan(isWord, end, 2, Closed);
  }

  /** The memory does pass over such lines: here a comment that closes on the next line is not followed. */
  lemma MemoryPassesOver(isWord: char -> bool)
    ensures !Harmless(isWord, PASSED_OVER, 0, {})
    ensures GroupsFrom(isWord, PASSED_OVER, 0, {}) != PlainGroups(isWord, PASSED_OVER, 0)
  {
    PassedOverStates(isWord);
    var lines := PASSED_OVER;
    hide Scan, MatchAt, OpenAt;
    assert Probe(isWord, lines, 2, Tag(Some(Double))) == Probed(3, Block(CBlock));
    assert ProbeFrom(isWord, lines, 0) == Probed(3, Block(CBlock)) by {
      assert Probe(isWord, lines, 1, Tag(Some(Double))) == Probed(3, Block(CBlock));
    }
    assert FirstGroup(isWord, lines, 0, {}) == Grouped([lines[0]], 1, {Block(CBlock)});
    assert ProbeFrom(isWord, lines, 1) == Probed(2, Closed);
    assert !Harmless(isWord, lines, 1, {Block(CBlock)});
    MemoryIff(isWord, lines, 0, {});
  }
}
