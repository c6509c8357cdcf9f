/**
 The frontmatter block of a note, found between two delimiter lines, and the writers that splice
 into it. YAML is not modelled: a dumped mapping is any text.
 */
module Frontmatter {
  import opened Results
  import Lines
  import Seqs

  const DELIMITER := "---"

  datatype Error = Unterminated | BareCarriageReturn

  /** `opening` is the length of the opening delimiter line, negative without frontmatter. */
  datatype Parts = Parts(block: string, body: string, opening: int)

  // ----- Delimiter lines -----

  predicate LineStart(t: string, p: nat)
    requires p <= |t|
  {
    p == 0 || Lines.Break(t[p - 1])
  }

  /** A line that is exactly the delimiter starts at `p`. */
  predicate DelimiterAt(t: string, p: nat) {
    && p + 3 <= |t|
    && LineStart(t, p)
    && t[p..p + 3] == DELIMITER
    && (p + 3 < |t| ==> t[p + 3] == '\r' || t[p + 3] == '\n')
  }

  function FirstDelimiter(t: string, p: nat): (r: Option<nat>)
    ensures r.Some? ==>
      p <= r.value && r.value + 3 <= |t| && DelimiterAt(t, r.value)
      && forall q: nat | p <= q < r.value :: !DelimiterAt(t, q)
    ensures r.None? ==> forall q: nat | p <= q :: !DelimiterAt(t, q)
    decreases |t| - p
  {
    if p + 3 > |t| then None
    else if DelimiterAt(t, p) then Some(p)
    else FirstDelimiter(t, p + 1)
  }

  ghost predicate NoDelimiterLine(t: string) {
    forall p: nat :: !DelimiterAt(t, p)
  }

  lemma TrimmedDelimiter(line: string)
    requires |line| >= 3
    requires forall i | 3 <= i < |line| :: line[i] == '\r' || line[i] == '\n'
    ensures line[..3] == DELIMITER ==> Lines.TrimEnd(line) == DELIMITER
  {
    if |line| > 3 {
      TrimmedDelimiter(line[..|line| - 1]);
      assert line[..|line| - 1][..3] == line[..3];
    } else {
      assert line[..3] == line;
    }
  }

  lemma {:induction false} TrimmedRest(line: string)
    ensures forall i | |Lines.TrimEnd(line)| <= i < |line| :: line[i] == '\r' || line[i] == '\n'
  {
    if line != [] && (line[|line| - 1] == '\r' || line[|line| - 1] == '\n') {
      TrimmedRest(line[..|line| - 1]);
    }
  }

  lemma LineReadsDelimiter(t: string, p: nat, n: nat)
    requires p < |t| && LineStart(t, p) && n == Lines.LineLength(t[p..])
    ensures Lines.TrimEnd(t[p..p + n]) == DELIMITER ==> DelimiterAt(t, p)
  {
    var line := t[p..p + n];
    if Lines.TrimEnd(line) == DELIMITER {
      TrimmedRest(line);
      assert line[..3] == DELIMITER && t[p..p + 3] == line[..3];
      assert forall i | 0 <= i < 3 :: t[p..][i] == line[i] == '-';
      assert 3 < n ==> t[p + 3] == line[3];
    }
  }

  lemma DelimiterIsLine(t: string, p: nat, n: nat)
    requires DelimiterAt(t, p) && n == Lines.LineLength(t[p..])
    ensures Lines.TrimEnd(t[p..p + n]) == DELIMITER
  {
    var rest, line := t[p..], t[p..p + n];
    assert rest[..3] == DELIMITER;
    assert rest[0] == '-' && rest[1] == '-' && rest[2] == '-';
    assert Lines.ContentLength(rest) == 3;
    assert line[..3] == DELIMITER;
    TrimmedDelimiter(line);
  }

  lemma NoneInsideLine(t: string, p: nat, n: nat, q: nat)
    requires p < |t| && n == Lines.LineLength(t[p..]) && p < q < p + n
    ensures !DelimiterAt(t, q)
  {
    var rest := t[p..];
    var k := Lines.ContentLength(rest);
    assert q <= p + k ==> !Lines.Break(rest[q - 1 - p]);
    assert q > p + k ==> rest[q - p] == '\n';
    assert q + 3 <= |t| && t[q] != '-' ==> t[q..q + 3] != DELIMITER;
  }

  /** A line of the loop is the delimiter exactly when one starts where the line starts. */
  lemma LineIsDelimiter(t: string, p: nat)
    requires p < |t| && LineStart(t, p)
    ensures var n := Lines.LineLength(t[p..]);
      (Lines.TrimEnd(t[p..p + n]) == DELIMITER <==> DelimiterAt(t, p)) &&
      forall q: nat | p < q < p + n :: !DelimiterAt(t, q)
    ensures LineStart(t, p + Lines.LineLength(t[p..])) || p + Lines.LineLength(t[p..]) == |t|
  {
    hide Lines.TrimEnd, DelimiterAt;
    var n := Lines.LineLength(t[p..]);
    LineReadsDelimiter(t, p, n);
    if DelimiterAt(t, p) {
      DelimiterIsLine(t, p, n);
    }
    forall q: nat | p < q < p + n ensures !DelimiterAt(t, q) {
      NoneInsideLine(t, p, n, q);
    }
  }

  method FindClosingDelimiter(text: string) returns (found: Option<nat>)
    ensures found == FirstDelimiter(text, 0)
  {
    var offset := 0;
    while offset < |text|
      invariant offset <= |text| && (offset < |text| ==> LineStart(text, offset))
      invariant forall q: nat | q < offset :: !DelimiterAt(text, q)
    {
      var n := Lines.LineLength(text[offset..]);
      LineIsDelimiter(text, offset);
      if Lines.TrimEnd(text[offset..offset + n]) == DELIMITER {
        return Some(offset);
      }
      offset := offset + n;
    }
    return None;
  }

  // ----- Splitting -----

  /** The place of the first character that is, or is not, `c`. */
  function Find(s: string, c: char, equal: bool): (n: nat)
    ensures n <= |s|
    ensures n < |s| ==> (s[n] == c) == equal
    ensures forall i | 0 <= i < n :: (s[i] == c) != equal
  {
    if s == [] || (s[0] == c) == equal then 0 else 1 + Find(s[1..], c, equal)
  }

  /** Whether a text begins with an opening delimiter line. */
  predicate Opens(text: string) {
    |text| > 3 && text[..3] == DELIMITER && (text[3] == '\n' || text[3] == '\r')
  }

  /** The length of the opening delimiter line: any carriage returns and one line feed belong to it. */
  function OpeningLength(text: string): (n: nat)
    requires Opens(text)
    ensures 3 < n <= |text|
  {
    var n := 3 + Find(text[3..], '\r', false);
    if n < |text| && text[n] == '\n' then n + 1 else n
  }

  /** What follows the first line feed. */
  function AfterLineFeed(s: string): string {
    var n := Find(s, '\n', true);
    if n < |s| then s[n + 1..] else ""
  }

  function Split(text: string): Result<Parts, Error> {
    if !Opens(text) then Ok(Parts("", text, -1))
    else
      var rest := text[OpeningLength(text)..];
      match FirstDelimiter(rest, 0)
      case None => Err(Unterminated)
      case Some(end) => Ok(Parts(rest[..end], AfterLineFeed(rest[end..]), OpeningLength(text)))
  }

  predicate LineEnding(s: string) {
    s == "\n" || s == "\r\n"
  }

  predicate StartsWithEnding(s: string) {
    "\n" <= s || "\r\n" <= s
  }

  /** The split the writers accept, with the place of the closing delimiter after the opening line. */
  function ReadableBlock(text: string): Result<(Parts, int), Error> {
    match Split(text)
    case Err(e) => Err(e)
    case Ok(parts) =>
      if parts.opening < 0 then Ok((parts, -1))
      else
        var closing := |parts.block|;
        var afterClosing := text[parts.opening..][closing + 3..];
        if !LineEnding(text[3..parts.opening]) || (afterClosing != "" && !StartsWithEnding(afterClosing))
        then Err(BareCarriageReturn) else Ok((parts, closing))
  }

  /** The text cut into its four parts. */
  ghost predicate CutInto(text: string, ending: string, block: string, close: string, body: string) {
    && text == DELIMITER + ending + block + DELIMITER + close + body
    && LineEnding(ending)
    && (LineEnding(close) || (close == "" && body == ""))
  }

  lemma AfterEnding(s: string)
    requires s == "" || StartsWithEnding(s)
    ensures var r := AfterLineFeed(s); |r| <= |s|
    ensures var r := AfterLineFeed(s); var close := s[..|s| - |r|];
      s == close + r && (LineEnding(close) || (close == "" && r == ""))
  {
    if s != "" {
      assert Find(s, '\n', true) == if s[0] == '\n' then 0 else 1;
    }
  }

  lemma FindBehind(a: string, s: string, c: char)
    requires c !in a
    ensures Find(a + s, c, true) == |a| + Find(s, c, true)
  {
    hide Find;
    var t, m, n := a + s, Find(a + s, c, true), Find(s, c, true);
    assert forall i | 0 <= i < |a| :: t[i] == a[i] && a[i] in a;
    assert forall i | 0 <= i < |s| :: t[|a| + i] == s[i];
    assert m >= |a|;
    assert m < |t| ==> s[m - |a|] == c;
    assert n < |s| ==> t[|a| + n] == c;
  }

  lemma SkipDelimiter(s: string)
    ensures AfterLineFeed(DELIMITER + s) == AfterLineFeed(s)
  {
    hide Find;
    var n := Find(s, '\n', true);
    FindBehind(DELIMITER, s, '\n');
    Behind(DELIMITER, s, n + 1);
  }

  lemma Behind<T>(a: seq<T>, s: seq<T>, n: nat)
    ensures n <= |s| ==> (a + s)[|a| + n..] == s[n..]
  {
  }

  lemma CutAt(rest: string, end: nat)
    requires DelimiterAt(rest, end)
    ensures rest[end..] == DELIMITER + rest[end + 3..]
    ensures rest == rest[..end] + (DELIMITER + rest[end + 3..])
  {
    assert rest == rest[..end] + (rest[end..end + 3] + rest[end + 3..]);
    assert rest[end..] == rest[end..end + 3] + rest[end + 3..];
  }

  /** What follows the opening line. */
  function Inside(text: string): string
    requires Opens(text)
  {
    text[OpeningLength(text)..]
  }

  /** What follows the closing delimiter itself. */
  function AfterClosing(text: string): string
    requires Split(text).Ok? && Split(text).value.opening >= 0
  {
    Inside(text)[|Split(text).value.block| + 3..]
  }

  lemma OpeningCut(text: string)
    requires Opens(text)
    ensures text == DELIMITER + text[3..OpeningLength(text)] + Inside(text)
  {
    var n := OpeningLength(text);
    assert text == text[..3] + text[3..n] + text[n..];
  }

  lemma SplitShape(text: string)
    requires Split(text).Ok? && Split(text).value.opening >= 0
    ensures Opens(text) && Inside(text) == Split(text).value.block + (DELIMITER + AfterClosing(text))
    ensures Split(text).value.opening == OpeningLength(text)
    ensures Split(text).value.body == AfterLineFeed(AfterClosing(text)) && text[..3] == DELIMITER
  {
    hide AfterLineFeed, OpeningLength;
    var parts, rest := Split(text).value, Inside(text);
    CutAt(rest, |parts.block|);
    SkipDelimiter(AfterClosing(text));
  }

  lemma Regroup(a: string, b: string, c: string, d: string, e: string, f: string)
    ensures a + b + (c + (d + (e + f))) == a + b + c + d + e + f
  {
  }

  /** Every accepted text with frontmatter is its opening line, block, closing line and body, byte for byte. */
  lemma AcceptedIsLossless(text: string)
    requires ReadableBlock(text).Ok? && ReadableBlock(text).value.0.opening >= 0
    ensures var parts := ReadableBlock(text).value.0;
      && ReadableBlock(text).value.1 == |parts.block|
      && exists close :: CutInto(text, text[3..parts.opening], parts.block, close, parts.body)
  {
    hide AfterLineFeed, FirstDelimiter, Opens;
    SplitShape(text);
    OpeningCut(text);
    var parts, after := Split(text).value, AfterClosing(text);
    AfterEnding(after);
    var close := after[..|after| - |parts.body|];
    Regroup(DELIMITER, text[3..parts.opening], parts.block, DELIMITER, close, parts.body);
    assert CutInto(text, text[3..parts.opening], parts.block, close, parts.body);
  }

  ghost predicate KeepsBody(text: string, parts: Parts, close: string) {
    && Inside.requires(text)
    && (LineEnding(close) || (close == "" && parts.body == ""))
    && Inside(text) == parts.block + (DELIMITER + (close + parts.body))
  }

  lemma SameFront(a: string, b: string, x: string, y: string)
    requires a + (b + x) == a + (b + y)
    ensures x == y
  {
    assert x == (a + (b + x))[|a| + |b|..] && y == (a + (b + y))[|a| + |b|..];
  }

  lemma KeptBehind(text: string, parts: Parts, close: string, after: string)
    requires KeepsBody(text, parts, close) && Inside(text) == parts.block + (DELIMITER + after)
    ensures after == close + parts.body && (after == "" || StartsWithEnding(after))
  {
    SameFront(parts.block, DELIMITER, after, close + parts.body);
  }

  lemma BehindKept(text: string, parts: Parts, after: string)
    requires Inside.requires(text) && Inside(text) == parts.block + (DELIMITER + after)
    requires parts.body == AfterLineFeed(after) && (after == "" || StartsWithEnding(after))
    ensures exists close :: KeepsBody(text, parts, close)
  {
    hide AfterLineFeed, Inside;
    AfterEnding(after);
    assert KeepsBody(text, parts, after[..|after| - |parts.body|]);
  }

  /**
   Splitting loses nothing of the closing line and the body exactly when the closing line ends in
   a line feed or ends the text, which is what the writers demand.
   */
  lemma SplitLosesNothingExactly(text: string)
    requires Split(text).Ok? && Split(text).value.opening >= 0
    ensures AfterClosing(text) == "" || StartsWithEnding(AfterClosing(text)) <==>
      exists close :: KeepsBody(text, Split(text).value, close)
  {
    hide AfterLineFeed, FirstDelimiter, Inside, Opens, KeepsBody, StartsWithEnding, Split;
    SplitShape(text);
    var parts, after := Split(text).value, AfterClosing(text);
    if after == "" || StartsWithEnding(after) {
      BehindKept(text, parts, after);
    }
    forall close: string | KeepsBody(text, parts, close) ensures after == "" || StartsWithEnding(after) {
      KeptBehind(text, parts, close, after);
    }
  }

  // ----- Writing -----

  ghost predicate EndsLine(block: string) {
    block == "" || Lines.Break(block[|block| - 1])
  }

  lemma OpeningOf(ending: string, rest: string)
    requires LineEnding(ending)
    ensures var text := DELIMITER + ending + rest;
      Opens(text) && OpeningLength(text) == 3 + |ending| && text[3 + |ending|..] == rest
  {
    var text := DELIMITER + ending + rest;
    assert text[..3] == DELIMITER && text[3..] == ending + rest;
    assert text[3] == ending[0];
    if ending == "\r\n" {
      assert text[4] == '\n';
      assert Find(text[3..], '\r', false) == 1;
    } else {
      assert Find(text[3..], '\r', false) == 0;
    }
  }

  /** A delimiter line of a text made of whole lines and more lies in the one or the other. */
  lemma DelimiterSomewhere(a: string, b: string, p: nat)
    requires EndsLine(a)
    ensures DelimiterAt(a + b, p) <==> if p < |a| then DelimiterAt(a, p) else DelimiterAt(b, p - |a|)
  {
    var t := a + b;
    if p >= |a| {
      if p + 3 <= |t| {
        assert t[p..p + 3] == b[p - |a|..p - |a| + 3];
      }
    } else if p + 3 < |a| {
      assert t[p..p + 3] == a[p..p + 3];
    } else {
      assert a[|a| - 1] != '-' && t[|a| - 1] == a[|a| - 1];
      if p + 3 <= |t| {
        assert t[p..p + 3][|a| - 1 - p] == a[|a| - 1];
        if p + 3 <= |a| {
          assert a[p..p + 3][|a| - 1 - p] == a[|a| - 1];
        }
      }
    }
  }

  lemma NoDelimiterInBoth(a: string, b: string)
    requires EndsLine(a)
    ensures NoDelimiterLine(a + b) <==> NoDelimiterLine(a) && NoDelimiterLine(b)
  {
    hide DelimiterAt, EndsLine;
    forall p: nat ensures DelimiterAt(a + b, p) <==> if p < |a| then DelimiterAt(a, p) else DelimiterAt(b, p - |a|) {
      DelimiterSomewhere(a, b, p);
    }
    forall p: nat ensures DelimiterAt(b, p) <==> DelimiterAt(a + b, p + |a|) {
      DelimiterSomewhere(a, b, p + |a|);
    }
    forall p: nat | p >= |a| ensures !DelimiterAt(a, p) {
      TooShort(a, p);
    }
  }

  lemma TooShort(a: string, p: nat)
    requires p >= |a|
    ensures !DelimiterAt(a, p)
  {
  }

  lemma DelimiterFirst(after: string)
    requires after == "" || StartsWithEnding(after)
    ensures DelimiterAt(DELIMITER + after, 0)
  {
    var rest := DELIMITER + after;
    assert rest[..3] == DELIMITER && (after != "" ==> rest[3] == after[0]);
  }

  lemma FirstExactly(t: string, n: nat)
    requires DelimiterAt(t, n)
    ensures FirstDelimiter(t, 0) == Some(n) <==> forall p: nat | p < n :: !DelimiterAt(t, p)
  {
    hide DelimiterAt, FirstDelimiter;
  }

  lemma NoneInBlockExactly(block: string, rest: string)
    requires EndsLine(block)
    ensures NoDelimiterLine(block) <==> forall p: nat | p < |block| :: !DelimiterAt(block + rest, p)
  {
    hide DelimiterAt, EndsLine;
    forall p: nat | p < |block| ensures DelimiterAt(block + rest, p) <==> DelimiterAt(block, p) {
      DelimiterSomewhere(block, rest, p);
    }
    forall p: nat | p >= |block| ensures !DelimiterAt(block, p) {
      TooShort(block, p);
    }
  }

  /** The closing delimiter is found where it was put exactly when the block has no delimiter line. */
  lemma ClosingFoundExactly(block: string, after: string)
    requires EndsLine(block) && (after == "" || StartsWithEnding(after))
    ensures FirstDelimiter(block + (DELIMITER + after), 0) == Some(|block|) <==> NoDelimiterLine(block)
  {
    hide DelimiterAt, EndsLine, FirstDelimiter, StartsWithEnding, NoDelimiterLine;
    var rest := DELIMITER + after;
    DelimiterFirst(after);
    DelimiterSomewhere(block, rest, |block|);
    FirstExactly(block + rest, |block|);
    NoneInBlockExactly(block, rest);
  }

  /** A text put together of whole parts is split into those parts exactly when the block has no delimiter line. */
  lemma SplitOfExactly(ending: string, block: string, after: string)
    requires LineEnding(ending) && EndsLine(block) && (after == "" || StartsWithEnding(after))
    ensures Split(DELIMITER + ending + (block + (DELIMITER + after))) ==
      Ok(Parts(block, AfterLineFeed(after), 3 + |ending|))
      <==> NoDelimiterLine(block)
  {
    hide DelimiterAt, EndsLine, StartsWithEnding, LineEnding, Opens, OpeningLength, AfterLineFeed, NoDelimiterLine;
    var rest := block + (DELIMITER + after);
    OpeningOf(ending, rest);
    ClosingFoundExactly(block, after);
    SkipDelimiter(after);
    var text := DELIMITER + ending + rest;
    var found := FirstDelimiter(rest, 0);
    assert found.Some? ==>
      Split(text) == Ok(Parts(rest[..found.value], AfterLineFeed(rest[found.value..]), 3 + |ending|));
    assert found.None? ==> Split(text).Err?;
    if found.Some? && found.value != |block| {
      assert rest[..found.value] != block;
    }
  }

  lemma FoundBlock(text: string)
    requires Split(text).Ok? && Split(text).value.opening >= 0
    ensures EndsLine(Split(text).value.block) && NoDelimiterLine(Split(text).value.block)
  {
    hide AfterLineFeed, OpeningLength;
    BeforeFirst(Inside(text), |Split(text).value.block|);
  }

  lemma BeforeFirst(rest: string, end: nat)
    requires FirstDelimiter(rest, 0) == Some(end)
    ensures EndsLine(rest[..end]) && NoDelimiterLine(rest[..end])
  {
    hide FirstDelimiter;
    var block := rest[..end];
    assert EndsLine(block) by {
      assert end > 0 ==> block[end - 1] == rest[end - 1];
    }
    assert rest == block + rest[end..];
    hide EndsLine, DelimiterAt;
    forall p: nat ensures !DelimiterAt(block, p) {
      if p < end {
        DelimiterSomewhere(block, rest[end..], p);
      } else {
        TooShort(block, p);
      }
    }
  }

  /** Opening line, block and closing line, each a whole line or lines, and no delimiter line in the block. */
  ghost predicate Whole(text: string, ending: string, block: string, after: string) {
    && text == DELIMITER + ending + (block + (DELIMITER + after))
    && LineEnding(ending) && EndsLine(block) && NoDelimiterLine(block) && (after == "" || StartsWithEnding(after))
  }

  lemma WholeIsAccepted(text: string, ending: string, block: string, after: string)
    requires Whole(text, ending, block, after)
    ensures ReadableBlock(text) == Ok((Parts(block, AfterLineFeed(after), 3 + |ending|), |block|))
  {
    hide DelimiterAt, EndsLine, Opens, OpeningLength, AfterLineFeed, NoDelimiterLine, FirstDelimiter;
    SplitOfExactly(ending, block, after);
    var rest := block + (DELIMITER + after);
    assert text[3..3 + |ending|] == ending && text[3 + |ending|..] == rest && rest[|block| + 3..] == after;
  }

  /** Writers accept a text with frontmatter exactly if it is put together so. */
  lemma AcceptedExactly(text: string)
    ensures ReadableBlock(text).Ok? && ReadableBlock(text).value.0.opening >= 0 <==>
      exists ending, block, after :: Whole(text, ending, block, after)
  {
    hide DelimiterAt, EndsLine, Opens, OpeningLength, AfterLineFeed, NoDelimiterLine, FirstDelimiter, ReadableBlock,
      StartsWithEnding, LineEnding;
    if ending, block, after :| Whole(text, ending, block, after) {
      WholeIsAccepted(text, ending, block, after);
    }
    if ReadableBlock(text).Ok? && ReadableBlock(text).value.0.opening >= 0 {
      var parts := AcceptedSplit(text);
      SplicedParts(text, parts.block);
      FoundBlock(text);
      SplicedSame(text);
      assert Whole(text, text[3..parts.opening], parts.block, AfterClosing(text));
    }
  }

  lemma AcceptedSplit(text: string) returns (parts: Parts)
    requires ReadableBlock(text).Ok? && ReadableBlock(text).value.0.opening >= 0
    ensures Split(text) == Ok(parts) && parts == ReadableBlock(text).value.0
  {
    parts := Split(text).value;
  }

  /** The text with another block: every byte before and after the block stays. */
  function Spliced(text: string, block: string): string
    requires ReadableBlock(text).Ok? && ReadableBlock(text).value.0.opening >= 0
  {
    var (parts, closing) := ReadableBlock(text).value;
    text[..parts.opening] + block + text[parts.opening + closing..]
  }

  lemma CutAround(text: string, opening: nat, block: string, more: string)
    requires 3 <= opening <= |text| && text[..3] == DELIMITER && text[opening..] == block + more
    ensures text[..opening] == DELIMITER + text[3..opening] && text[opening + |block|..] == more
  {
    assert text[..opening] == text[..3] + text[3..opening];
    assert text[opening + |block|..] == text[opening..][|block|..];
  }

  lemma SplicedParts(text: string, block: string)
    requires ReadableBlock(text).Ok? && ReadableBlock(text).value.0.opening >= 0
    ensures var parts := Split(text).value;
      && LineEnding(text[3..parts.opening]) && parts.opening == 3 + |text[3..parts.opening]|
      && Spliced(text, block) == DELIMITER + text[3..parts.opening] + (block + (DELIMITER + AfterClosing(text)))
      && parts.body == AfterLineFeed(AfterClosing(text))
      && (AfterClosing(text) == "" || StartsWithEnding(AfterClosing(text)))
  {
    hide DelimiterAt, Opens, OpeningLength, AfterLineFeed, FirstDelimiter;
    SplitShape(text);
    var parts := Split(text).value;
    CutAround(text, parts.opening, parts.block, DELIMITER + AfterClosing(text));
    Seqs.Assoc(DELIMITER + text[3..parts.opening], block, DELIMITER + AfterClosing(text));
  }

  /** Splicing in the block that is there changes nothing. */
  lemma SplicedSame(text: string)
    requires ReadableBlock(text).Ok? && ReadableBlock(text).value.0.opening >= 0
    ensures Spliced(text, ReadableBlock(text).value.0.block) == text
  {
    hide DelimiterAt, Opens, OpeningLength, AfterLineFeed, FirstDelimiter;
    SplitShape(text);
    var parts := Split(text).value;
    PutBack(text, parts.opening, parts.block, DELIMITER + AfterClosing(text));
  }

  lemma PutBack(text: string, opening: nat, block: string, more: string)
    requires opening <= |text| && text[opening..] == block + more
    ensures opening + |block| <= |text| && text[..opening] + block + text[opening + |block|..] == text
  {
    assert text == text[..opening] + (block + more);
    assert text[opening + |block|..] == more;
    Seqs.Assoc(text[..opening], block, more);
  }

  /** A splice is read back as the new block and the same body exactly when no line of the new block is a delimiter. */
  lemma SpliceReadsBackExactly(text: string, block: string)
    requires ReadableBlock(text).Ok? && ReadableBlock(text).value.0.opening >= 0 && EndsLine(block)
    ensures Split(Spliced(text, block)) == Ok(Split(text).value.(block := block)) <==> NoDelimiterLine(block)
  {
    hide DelimiterAt, Opens, OpeningLength, AfterLineFeed, FirstDelimiter, EndsLine, NoDelimiterLine, LineEnding,
      StartsWithEnding;
    SplicedParts(text, block);
    SplitOfExactly(text[3..Split(text).value.opening], block, AfterClosing(text));
  }

  /** A dump ends its lines in line feeds; the fragment uses the endings of the text. */
  function WithEnding(dump: string, ending: string): string {
    if dump == "" then ""
    else (if dump[0] == '\n' then ending else [dump[0]]) + WithEnding(dump[1..], ending)
  }

  /** `_appended`, for additions that dump to `dump`. */
  function Appended(text: string, dump: string): string
    requires ReadableBlock(text).Ok? && ReadableBlock(text).value.0.opening >= 0
  {
    var (parts, closing) := ReadableBlock(text).value;
    var insertion := parts.opening + closing;
    text[..insertion] + WithEnding(dump, text[3..parts.opening]) + text[insertion..]
  }

  lemma {:induction false} EndsWithEnding(dump: string, ending: string)
    requires LineEnding(ending) && EndsLine(dump)
    ensures EndsLine(WithEnding(dump, ending))
  {
    if dump != "" {
      EndsWithEnding(dump[1..], ending);
    }
  }

  lemma ShiftDelimiter(first: string, more: string, p: nat)
    requires DelimiterAt(first + more, p) && p >= |first|
    ensures DelimiterAt(more, p - |first|)
  {
    var t := first + more;
    assert t[p..p + 3] == more[p - |first|..p - |first| + 3];
  }

  lemma UnshiftDelimiter(c: char, more: string, q: nat)
    requires DelimiterAt(more, q) && (q == 0 ==> Lines.Break(c))
    ensures DelimiterAt([c] + more, q + 1)
  {
    var t := [c] + more;
    assert t[q + 1..q + 4] == more[q..q + 3];
  }

  lemma DelimiterStart(t: string, p: nat)
    requires DelimiterAt(t, p)
    ensures t[p] == '-'
  {
    assert t[p..p + 3][0] == '-';
  }

  /** The other line ending brings in no delimiter line. */
  lemma {:induction false} EndingKeepsLines(dump: string, ending: string, p: nat) returns (q: nat)
    requires LineEnding(ending) && DelimiterAt(WithEnding(dump, ending), p)
    ensures DelimiterAt(dump, q) && (q == 0 ==> p == 0)
  {
    if p == 0 {
      q := 0;
      StartsAlike(dump, ending);
    } else {
      DelimiterStart(WithEnding(dump, ending), p);
      var first := if dump[0] == '\n' then ending else [dump[0]];
      assert p >= |first|;
      ShiftDelimiter(first, WithEnding(dump[1..], ending), p);
      var inner := EndingKeepsLines(dump[1..], ending, p - |first|);
      UnshiftDelimiter(dump[0], dump[1..], inner);
      assert dump == [dump[0]] + dump[1..];
      q := inner + 1;
    }
  }

  lemma StartsAlike(dump: string, ending: string)
    requires LineEnding(ending) && DelimiterAt(WithEnding(dump, ending), 0)
    ensures DelimiterAt(dump, 0)
  {
    var t := WithEnding(dump, ending);
    assert t[..3] == t[0..3] && t[0] == '-' && t[1] == '-' && t[2] == '-';
    assert dump[0] == '-' && t[1..] == WithEnding(dump[1..], ending);
    assert dump[1] == '-' && t[2..] == WithEnding(dump[2..], ending) by {
      assert dump[1..][1..] == dump[2..] && t[1..][1..] == t[2..];
    }
    assert dump[2] == '-' && t[3..] == WithEnding(dump[3..], ending) by {
      assert dump[2..][1..] == dump[3..] && t[2..][1..] == t[3..];
    }
    assert dump[0..3] == DELIMITER;
  }

  /**
   Appending a dump without a delimiter line gives a text that splits into the old block followed
   by the added lines, and the same body: no byte of the old text is lost or moved otherwise.
   */
  lemma AppendedReadsBack(text: string, dump: string)
    requires ReadableBlock(text).Ok? && ReadableBlock(text).value.0.opening >= 0
    requires EndsLine(dump) && NoDelimiterLine(dump)
    ensures var parts := Split(text).value;
      Split(Appended(text, dump)) == Ok(parts.(block := parts.block + WithEnding(dump, text[3..parts.opening])))
  {
    hide DelimiterAt, Opens, OpeningLength, AfterLineFeed, FirstDelimiter, LineEnding, StartsWithEnding, WithEnding,
      NoDelimiterLine, EndsLine, Appended, Spliced;
    var parts := Split(text).value;
    AppendedIsSplice(text, dump);
    var fragment := WithEnding(dump, text[3..parts.opening]);
    FragmentHasNoDelimiter(dump, text[3..parts.opening]);
    FoundBlock(text);
    NoDelimiterInBoth(parts.block, fragment);
    EndsLater(parts.block, fragment);
    SpliceReadsBackExactly(text, parts.block + fragment);
  }

  lemma EndsLater(a: string, b: string)
    requires EndsLine(a) && EndsLine(b)
    ensures EndsLine(a + b)
  {
  }

  lemma FragmentHasNoDelimiter(dump: string, ending: string)
    requires LineEnding(ending) && EndsLine(dump) && NoDelimiterLine(dump)
    ensures EndsLine(WithEnding(dump, ending)) && NoDelimiterLine(WithEnding(dump, ending))
  {
    hide DelimiterAt, EndsLine, WithEnding;
    EndsWithEnding(dump, ending);
    forall p: nat ensures !DelimiterAt(WithEnding(dump, ending), p) {
      if DelimiterAt(WithEnding(dump, ending), p) {
        var q := EndingKeepsLines(dump, ending, p);
      }
    }
  }

  lemma AppendedIsSplice(text: string, dump: string)
    requires ReadableBlock(text).Ok? && ReadableBlock(text).value.0.opening >= 0
    ensures var parts := Split(text).value;
      && 3 <= parts.opening <= |text| && LineEnding(text[3..parts.opening])
      && Appended(text, dump) == Spliced(text, parts.block + WithEnding(dump, text[3..parts.opening]))
  {
    hide DelimiterAt, Opens, OpeningLength, AfterLineFeed, FirstDelimiter, LineEnding, StartsWithEnding, WithEnding;
    var parts := Split(text).value;
    var fragment := WithEnding(dump, text[3..parts.opening]);
    SplitShape(text);
    Taken(text, parts.opening, parts.block, DELIMITER + AfterClosing(text));
    Seqs.Assoc(text[..parts.opening], parts.block, fragment);
  }

  lemma Taken(text: string, opening: nat, block: string, more: string)
    requires opening <= |text| && text[opening..] == block + more
    ensures text[..opening + |block|] == text[..opening] + block
  {
    assert text[..opening + |block|] == text[..opening] + text[opening..][..|block|];
  }

  /** A document from a dumped mapping and a body. */
  function Compose(block: string, body: string): string {
    if block == "" then body else DELIMITER + "\n" + Closed(block) + DELIMITER + "\n" + body
  }

  function Closed(block: string): string {
    if block != "" && block[|block| - 1] == '\n' then block else block + "\n"
  }

  /**
   A composed document splits back into its block and body exactly when the block has no delimiter
   line, or, for an empty mapping, when the body does not itself open with one.
   */
  lemma ComposeReadsBackExactly(block: string, body: string)
    ensures block != "" ==> (Split(Compose(block, body)) == Ok(Parts(Closed(block), body, 4)) <==>
      NoDelimiterLine(Closed(block)))
    ensures block == "" ==>
      ((Split(Compose(block, body)).Ok? && Split(Compose(block, body)).value.block == ""
        && Split(Compose(block, body)).value.body == body) <==> !Opens(body))
  {
    hide DelimiterAt, FirstDelimiter, NoDelimiterLine, Find, Opens, AfterLineFeed;
    if block != "" {
      ComposedSplit(block, body);
    } else if Opens(body) && Split(body).Ok? {
      SplitShape(body);
      ShorterAfter(AfterClosing(body));
    }
  }

  lemma ShorterAfter(s: string)
    ensures |AfterLineFeed(s)| <= |s|
  {
  }

  lemma ComposedSplit(block: string, body: string)
    requires block != ""
    ensures Split(Compose(block, body)) == Ok(Parts(Closed(block), body, 4)) <==> NoDelimiterLine(Closed(block))
  {
    hide DelimiterAt, FirstDelimiter, NoDelimiterLine, Find, Opens, Split, AfterLineFeed;
    var closed := Closed(block);
    SplitOfExactly("\n", closed, "\n" + body);
    LineFeedFirst(body);
    Seqs.Assoc(DELIMITER, "\n", body);
    Seqs.Assoc(closed, DELIMITER + "\n", body);
    Seqs.Assoc(closed, DELIMITER, "\n");
    Seqs.Assoc(DELIMITER + "\n", closed + DELIMITER + "\n", body);
    Seqs.Assoc(DELIMITER + "\n", closed + DELIMITER, "\n");
    Seqs.Assoc(DELIMITER + "\n", closed, DELIMITER);
  }

  lemma LineFeedFirst(body: string)
    ensures AfterLineFeed("\n" + body) == body
  {
    assert Find("\n" + body, '\n', true) == 0;
  }
}
