/**
 The text of a note cut into prose and code, so that image embeds are rewritten in prose only. Code
 is fenced blocks, indented blocks and code spans, as sections 4.4, 4.5 and 6.1 of CommonMark 0.31
 describe them.
 */
module Embeds {
  import opened Results
  import Lines
  import Naming
  import Seqs

  datatype Piece = Piece(text: string, code: bool)

  function Text(pieces: seq<Piece>): string {
    if pieces == [] then "" else pieces[0].text + Text(pieces[1..])
  }

  lemma {:induction false} TextAppend(a: seq<Piece>, b: seq<Piece>)
    ensures Text(a + b) == Text(a) + Text(b)
  {
    if a == [] {
      assert a + b == b;
    } else {
      TextAppend(a[1..], b);
      assert (a + b)[1..] == a[1..] + b && (a + b)[0] == a[0];
      Seqs.Assoc(a[0].text, Text(a[1..]), Text(b));
    }
  }

  lemma TextOne(p: Piece)
    ensures Text([p]) == p.text
  {
    assert [p][1..] == [] && p.text + "" == p.text;
  }

  // ----- Code spans -----

  /** A maximal run of backticks. */
  datatype Run = Run(start: nat, length: nat)

  function RunLength(s: string, p: nat, mark: char): (n: nat)
    requires p <= |s|
    ensures p + n <= |s| && (p + n < |s| ==> s[p + n] != mark) && forall i | p <= i < p + n :: s[i] == mark
    decreases |s| - p
  {
    if p < |s| && s[p] == mark then 1 + RunLength(s, p + 1, mark) else 0
  }

  function Runs(text: string, p: nat): seq<Run>
    requires p <= |text|
    decreases |text| - p
  {
    if p == |text| then []
    else if text[p] == '`' then
      var n := RunLength(text, p, '`');
      [Run(p, n)] + Runs(text, p + n)
    else Runs(text, p + 1)
  }

  function End(r: Run): nat {
    r.start + r.length
  }

  ghost predicate Ordered(text: string, runs: seq<Run>, from: nat) {
    && (forall i | 0 <= i < |runs| :: from <= runs[i].start < End(runs[i]) <= |text|)
    && forall i, j | 0 <= i < j < |runs| :: End(runs[i]) <= runs[j].start
  }

  lemma {:induction false} RunsAreOrdered(text: string, p: nat)
    requires p <= |text|
    ensures Ordered(text, Runs(text, p), p)
    decreases |text| - p
  {
    if p < |text| {
      if text[p] == '`' {
        var n := RunLength(text, p, '`');
        RunsAreOrdered(text, p + n);
        var rest := Runs(text, p + n);
        assert Runs(text, p) == [Run(p, n)] + rest;
      } else {
        RunsAreOrdered(text, p + 1);
      }
    }
  }

  /** The next run as long as run `i`. */
  function Closer(runs: seq<Run>, i: nat, from: nat): (j: nat)
    requires i < |runs| && from <= |runs|
    ensures from <= j <= |runs| && (j < |runs| ==> runs[j].length == runs[i].length)
    ensures forall k | from <= k < j :: runs[k].length != runs[i].length
    decreases |runs| - from
  {
    if from == |runs| || runs[from].length == runs[i].length then from else Closer(runs, i, from + 1)
  }

  /** The pairs of runs that delimit code spans, from run `index` on. */
  function Spans(runs: seq<Run>, index: nat): seq<(nat, nat)>
    decreases |runs| - index
  {
    if index >= |runs| then []
    else
      var c := Closer(runs, index, index + 1);
      if c == |runs| then Spans(runs, index + 1) else [(index, c)] + Spans(runs, c + 1)
  }

  ghost predicate SpansOrdered(runs: seq<Run>, spans: seq<(nat, nat)>, index: nat) {
    && (forall i | 0 <= i < |spans| :: index <= spans[i].0 < spans[i].1 < |runs|)
    && forall i, j | 0 <= i < j < |spans| :: spans[i].1 < spans[j].0
  }

  ghost predicate Inside(spans: seq<(nat, nat)>, k: nat) {
    exists i | 0 <= i < |spans| :: spans[i].0 <= k <= spans[i].1
  }

  /** A code span runs from a backtick string to the next one of equal length; what opens none has no equal after it. */
  ghost predicate Matched(runs: seq<Run>, spans: seq<(nat, nat)>, index: nat) {
    && (forall i | 0 <= i < |spans| ::
      spans[i].0 < |runs| && spans[i].1 == Closer(runs, spans[i].0, spans[i].0 + 1) < |runs|)
    && forall k: nat | index <= k < |runs| && !Inside(spans, k) :: Closer(runs, k, k + 1) == |runs|
  }

  lemma InsideLater(span: (nat, nat), rest: seq<(nat, nat)>, k: nat)
    ensures Inside([span] + rest, k) <==> span.0 <= k <= span.1 || Inside(rest, k)
  {
    var all := [span] + rest;
    assert all[0] == span;
    assert forall i | 0 <= i < |rest| :: all[i + 1] == rest[i];
    if i :| 0 <= i < |all| && all[i].0 <= k <= all[i].1 {
      assert i > 0 ==> rest[i - 1] == all[i];
    }
  }

  lemma {:induction false} SpansInOrder(runs: seq<Run>, index: nat)
    ensures SpansOrdered(runs, Spans(runs, index), index)
    decreases |runs| - index
  {
    hide SpansOrdered;
    if index < |runs| {
      var c := Closer(runs, index, index + 1);
      if c == |runs| {
        SpansInOrder(runs, index + 1);
        OrderedFrom(runs, Spans(runs, index + 1), index + 1, index);
      } else {
        SpansInOrder(runs, c + 1);
        OrderedSnoc(runs, (index, c), Spans(runs, c + 1));
      }
    } else {
      NoSpans(runs, index);
    }
  }

  lemma OrderedFrom(runs: seq<Run>, spans: seq<(nat, nat)>, index: nat, before: nat)
    requires SpansOrdered(runs, spans, index) && before <= index
    ensures SpansOrdered(runs, spans, before)
  {
  }

  lemma NoSpans(runs: seq<Run>, index: nat)
    ensures SpansOrdered(runs, [], index)
  {
  }

  lemma OrderedSnoc(runs: seq<Run>, span: (nat, nat), rest: seq<(nat, nat)>)
    requires span.0 < span.1 < |runs| && SpansOrdered(runs, rest, span.1 + 1)
    ensures SpansOrdered(runs, [span] + rest, span.0)
  {
    var all := [span] + rest;
    assert forall i | 1 <= i < |all| :: all[i] == rest[i - 1];
  }

  lemma MatchedSnoc(runs: seq<Run>, span: (nat, nat), rest: seq<(nat, nat)>)
    requires span.0 < span.1 < |runs| && span.1 == Closer(runs, span.0, span.0 + 1) && Matched(runs, rest, span.1 + 1)
    ensures Matched(runs, [span] + rest, span.0)
  {
    hide Inside;
    var all := [span] + rest;
    assert forall i | 1 <= i < |all| :: all[i] == rest[i - 1];
    forall k: nat ensures Inside(all, k) <==> span.0 <= k <= span.1 || Inside(rest, k) {
      InsideLater(span, rest, k);
    }
  }

  lemma {:induction false} SpansAreMatched(runs: seq<Run>, index: nat)
    ensures SpansOrdered(runs, Spans(runs, index), index) && Matched(runs, Spans(runs, index), index)
    decreases |runs| - index
  {
    hide Inside, SpansOrdered, Matched;
    SpansInOrder(runs, index);
    if index < |runs| {
      var c := Closer(runs, index, index + 1);
      if c == |runs| {
        SpansAreMatched(runs, index + 1);
        MatchedSkip(runs, Spans(runs, index + 1), index);
      } else {
        SpansAreMatched(runs, c + 1);
        MatchedSnoc(runs, (index, c), Spans(runs, c + 1));
      }
    } else {
      NothingMatched(runs, index);
    }
  }

  lemma MatchedSkip(runs: seq<Run>, spans: seq<(nat, nat)>, index: nat)
    requires index < |runs| && Closer(runs, index, index + 1) == |runs| && Matched(runs, spans, index + 1)
    ensures Matched(runs, spans, index)
  {
  }

  lemma NothingMatched(runs: seq<Run>, index: nat)
    requires index >= |runs|
    ensures Matched(runs, [], index)
  {
  }

  function Prose(text: string): seq<Piece> {
    if text == "" then [] else [Piece(text, false)]
  }

  /** The text from `start` on, cut at the spans. */
  function Cut(text: string, runs: seq<Run>, spans: seq<(nat, nat)>, start: nat): seq<Piece>
    requires Ordered(text, runs, 0) && SpansOrdered(runs, spans, 0)
    requires start <= |text| && (spans != [] ==> start <= runs[spans[0].0].start)
    decreases |spans|
  {
    if spans == [] then Prose(text[start..])
    else
      var opener, closer := runs[spans[0].0], runs[spans[0].1];
      Prose(text[start..opener.start]) + [Piece(text[opener.start..End(closer)], true)]
        + Cut(text, runs, spans[1..], End(closer))
  }

  lemma {:induction false} CutLosesNothing(text: string, runs: seq<Run>, spans: seq<(nat, nat)>, start: nat)
    requires Ordered(text, runs, 0) && SpansOrdered(runs, spans, 0)
    requires start <= |text| && (spans != [] ==> start <= runs[spans[0].0].start)
    ensures Text(Cut(text, runs, spans, start)) == text[start..]
    decreases |spans|
  {
    if spans == [] {
      ProseText(text[start..]);
    } else {
      var a, b := runs[spans[0].0].start, End(runs[spans[0].1]);
      CutLosesNothing(text, runs, spans[1..], b);
      ThreeParts(text, start, a, b, Cut(text, runs, spans[1..], b));
    }
  }

  lemma ProseText(text: string)
    ensures Text(Prose(text)) == text
  {
    if text != "" {
      TextOne(Piece(text, false));
    }
  }

  lemma ThreeParts(text: string, start: nat, a: nat, b: nat, more: seq<Piece>)
    requires start <= a <= b <= |text| && Text(more) == text[b..]
    ensures Text(Prose(text[start..a]) + [Piece(text[a..b], true)] + more) == text[start..]
  {
    hide Text, Prose;
    ProseText(text[start..a]);
    TextOne(Piece(text[a..b], true));
    TextAppend(Prose(text[start..a]), [Piece(text[a..b], true)]);
    TextAppend(Prose(text[start..a]) + [Piece(text[a..b], true)], more);
    assert text[start..] == text[start..a] + text[a..b] + text[b..];
  }

  function CodeSpans(text: string): seq<Piece> {
    RunsAreOrdered(text, 0);
    SpansAreMatched(Runs(text, 0), 0);
    Cut(text, Runs(text, 0), Spans(Runs(text, 0), 0), 0)
  }

  lemma CodeSpansLoseNothing(text: string)
    ensures Text(CodeSpans(text)) == text
  {
    RunsAreOrdered(text, 0);
    SpansAreMatched(Runs(text, 0), 0);
    CutLosesNothing(text, Runs(text, 0), Spans(Runs(text, 0), 0), 0);
    assert text[0..] == text;
  }

  /** The loop has read the text up to `start` and the runs up to `index`. */
  ghost predicate At(text: string, runs: seq<Run>, index: nat, start: nat) {
    && Ordered(text, runs, 0) && SpansOrdered(runs, Spans(runs, index), 0)
    && index <= |runs| && start <= |text|
    && forall k: nat | index <= k < |runs| :: start <= runs[k].start
  }

  function Remaining(text: string, runs: seq<Run>, index: nat, start: nat): seq<Piece>
    requires At(text, runs, index, start)
  {
    SpansAreMatched(runs, index);
    Cut(text, runs, Spans(runs, index), start)
  }

  lemma Begins(text: string)
    ensures At(text, Runs(text, 0), 0, 0) && Remaining(text, Runs(text, 0), 0, 0) == CodeSpans(text)
  {
    RunsAreOrdered(text, 0);
    SpansAreMatched(Runs(text, 0), 0);
  }

  lemma SkipOpener(text: string, runs: seq<Run>, index: nat, start: nat)
    requires At(text, runs, index, start) && index < |runs| && Closer(runs, index, index + 1) == |runs|
    ensures At(text, runs, index + 1, start)
      && Remaining(text, runs, index + 1, start) == Remaining(text, runs, index, start)
  {
    hide Cut;
    SpansAreMatched(runs, index + 1);
  }

  lemma TakeSpan(text: string, runs: seq<Run>, index: nat, start: nat)
    requires At(text, runs, index, start) && index < |runs| && Closer(runs, index, index + 1) < |runs|
    ensures var opener, c := runs[index], Closer(runs, index, index + 1);
      && start <= opener.start <= End(runs[c]) <= |text|
      && At(text, runs, c + 1, End(runs[c]))
      && Remaining(text, runs, index, start) ==
           Prose(text[start..opener.start]) + [Piece(text[opener.start..End(runs[c])], true)]
             + Remaining(text, runs, c + 1, End(runs[c]))
  {
    hide Matched, Prose, Cut, Closer, At, Ordered, SpansOrdered, Spans;
    var c := Closer(runs, index, index + 1);
    AtGives(text, runs, index, start);
    SpansFirst(runs, index);
    NextPlace(text, runs, index, c, start);
    CutFirst(text, runs, (index, c), Spans(runs, c + 1), start);
  }

  lemma AtGives(text: string, runs: seq<Run>, index: nat, start: nat)
    requires At(text, runs, index, start)
    ensures Ordered(text, runs, 0) && SpansOrdered(runs, Spans(runs, index), 0)
  {
  }

  lemma SpansFirst(runs: seq<Run>, index: nat)
    requires index < |runs| && Closer(runs, index, index + 1) < |runs|
    ensures Spans(runs, index) == [(index, Closer(runs, index, index + 1))]
      + Spans(runs, Closer(runs, index, index + 1) + 1)
  {
  }

  lemma NextPlace(text: string, runs: seq<Run>, index: nat, c: nat, start: nat)
    requires At(text, runs, index, start) && index < c < |runs|
    ensures start <= runs[index].start <= End(runs[c]) <= |text|
    ensures At(text, runs, c + 1, End(runs[c])) && SpansOrdered(runs, Spans(runs, c + 1), 0)
    ensures Spans(runs, c + 1) != [] ==>
      Spans(runs, c + 1)[0].0 < |runs| && End(runs[c]) <= runs[Spans(runs, c + 1)[0].0].start
  {
    hide Spans, Closer;
    SpansInOrder(runs, c + 1);
  }

  lemma CutFirst(text: string, runs: seq<Run>, span: (nat, nat), rest: seq<(nat, nat)>, start: nat)
    requires Ordered(text, runs, 0) && SpansOrdered(runs, [span] + rest, 0) && SpansOrdered(runs, rest, 0)
    requires span.0 < span.1 < |runs| && start <= runs[span.0].start && End(runs[span.1]) <= |text|
    requires rest != [] ==> End(runs[span.1]) <= runs[rest[0].0].start
    ensures Cut(text, runs, [span] + rest, start) ==
      Prose(text[start..runs[span.0].start]) + [Piece(text[runs[span.0].start..End(runs[span.1])], true)]
        + Cut(text, runs, rest, End(runs[span.1]))
  {
  }

  lemma LastProse(text: string, runs: seq<Run>, start: nat)
    requires At(text, runs, |runs|, start)
    ensures Remaining(text, runs, |runs|, start) == Prose(text[start..])
  {
  }

  /** The loop over the runs. */
  method CodeSpansSplit(text: string) returns (pieces: seq<Piece>)
    ensures pieces == CodeSpans(text)
  {
    hide Text, Cut, Spans, Remaining, At, Closer, CodeSpans;
    var start: nat, runs, index: nat := 0, Runs(text, 0), 0;
    Begins(text);
    pieces := [];
    while index < |runs|
      invariant At(text, runs, index, start) && index <= |runs|
      invariant pieces + Remaining(text, runs, index, start) == CodeSpans(text)
      decreases |runs| - index
    {
      var opener := runs[index];
      var c := Closer(runs, index, index + 1);
      if c == |runs| {
        SkipOpener(text, runs, index, start);
        index := index + 1;
      } else {
        TakeSpan(text, runs, index, start);
        ghost var before := pieces;
        if opener.start > start {
          pieces := pieces + [Piece(text[start..opener.start], false)];
        }
        assert pieces == before + Prose(text[start..opener.start]);
        pieces := pieces + [Piece(text[opener.start..End(runs[c])], true)];
        start, index := End(runs[c]), c + 1;
      }
    }
    LastProse(text, runs, start);
    StartInText(text, runs, start);
    if start < |text| {
      pieces := pieces + [Piece(text[start..], false)];
    }
  }

  lemma StartInText(text: string, runs: seq<Run>, start: nat)
    requires At(text, runs, |runs|, start)
    ensures start <= |text|
  {
  }

  /** Whether a character of a text cut into pieces is code. */
  function IsCode(pieces: seq<Piece>, i: nat): bool
    requires i < |Text(pieces)|
  {
    if i < |pieces[0].text| then pieces[0].code else IsCode(pieces[1..], i - |pieces[0].text|)
  }

  lemma {:induction false} IsCodeAppend(a: seq<Piece>, b: seq<Piece>, i: nat)
    requires i < |Text(a)| + |Text(b)|
    ensures Text(a + b) == Text(a) + Text(b)
    ensures IsCode(a + b, i) == if i < |Text(a)| then IsCode(a, i) else IsCode(b, i - |Text(a)|)
  {
    TextAppend(a, b);
    if a == [] {
      assert a + b == b;
    } else {
      assert (a + b)[1..] == a[1..] + b && (a + b)[0] == a[0];
      if i >= |a[0].text| {
        IsCodeAppend(a[1..], b, i - |a[0].text|);
      }
    }
  }

  lemma OneIsCode(p: Piece, i: nat)
    requires i < |p.text|
    ensures Text([p]) == p.text && IsCode([p], i) == p.code
  {
    TextOne(p);
  }

  lemma ProseIsNoCode(text: string, i: nat)
    requires i < |text|
    ensures Text(Prose(text)) == text && !IsCode(Prose(text), i)
  {
    OneIsCode(Piece(text, false), i);
  }

  /** A place lies between the first backtick of a span and its last one. */
  ghost predicate InSpan(runs: seq<Run>, spans: seq<(nat, nat)>, i: nat) {
    exists m | 0 <= m < |spans| && spans[m].0 < |runs| && spans[m].1 < |runs| ::
      runs[spans[m].0].start <= i < End(runs[spans[m].1])
  }

  lemma InSpanFirst(runs: seq<Run>, spans: seq<(nat, nat)>, i: nat)
    requires spans != [] && spans[0].0 < |runs| && spans[0].1 < |runs|
    ensures InSpan(runs, spans, i) <==>
      runs[spans[0].0].start <= i < End(runs[spans[0].1]) || InSpan(runs, spans[1..], i)
  {
    assert forall m | 0 <= m < |spans[1..]| :: spans[1..][m] == spans[m + 1];
    forall m | 1 <= m < |spans| ensures spans[m] == spans[1..][m - 1] {
    }
  }

  lemma LaterSpans(text: string, runs: seq<Run>, spans: seq<(nat, nat)>, i: nat)
    requires Ordered(text, runs, 0) && SpansOrdered(runs, spans, 0)
    requires spans != [] ==> i < runs[spans[0].0].start
    ensures !InSpan(runs, spans, i)
  {
    forall m | 0 <= m < |spans| ensures i < runs[spans[m].0].start {
      if m > 0 {
        assert spans[0].1 < spans[m].0;
      }
    }
  }

  lemma {:induction false} CutMarks(text: string, runs: seq<Run>, spans: seq<(nat, nat)>, start: nat, i: nat)
    requires Ordered(text, runs, 0) && SpansOrdered(runs, spans, 0) && start <= i < |text|
    requires spans != [] ==> start <= runs[spans[0].0].start
    ensures Text(Cut(text, runs, spans, start)) == text[start..]
    ensures IsCode(Cut(text, runs, spans, start), i - start) <==> InSpan(runs, spans, i)
    decreases |spans|
  {
    hide InSpan, IsCode, Text;
    CutLosesNothing(text, runs, spans, start);
    if spans == [] {
      ProseIsNoCode(text[start..], i - start);
      LaterSpans(text, runs, spans, i);
    } else {
      var a, b, rest := runs[spans[0].0].start, End(runs[spans[0].1]), spans[1..];
      InSpanFirst(runs, spans, i);
      assert SpansOrdered(runs, rest, 0) && (rest != [] ==> b <= runs[rest[0].0].start) by {
        assert forall m | 0 <= m < |rest| :: rest[m] == spans[m + 1];
      }
      var more := Cut(text, runs, rest, b);
      CutLosesNothing(text, runs, rest, b);
      var before, code := Prose(text[start..a]), Piece(text[a..b], true);
      ProseText(text[start..a]);
      TextOne(code);
      TextAppend(before, [code]);
      IsCodeAppend(before + [code], more, i - start);
      if i < b {
        LaterSpans(text, runs, rest, i);
        IsCodeAppend(before, [code], i - start);
        if i < a {
          ProseIsNoCode(text[start..a], i - start);
        } else {
          OneIsCode(code, i - a);
        }
      } else {
        CutMarks(text, runs, rest, b, i);
      }
    }
  }

  /** Of a paragraph exactly what stands in a code span is code. */
  lemma SpanIsCodeExactly(text: string, i: nat)
    requires i < |text|
    ensures Text(CodeSpans(text)) == text
    ensures IsCode(CodeSpans(text), i) <==> InSpan(Runs(text, 0), Spans(Runs(text, 0), 0), i)
  {
    hide Cut, IsCode, InSpan, Text, Spans, Runs, Ordered, Matched;
    RunsAreOrdered(text, 0);
    SpansAreMatched(Runs(text, 0), 0);
    CutMarks(text, Runs(text, 0), Spans(Runs(text, 0), 0), 0, i);
    assert text[0..] == text;
  }

  /** The runs are the backtick strings of the text, each as long as it can be. */
  lemma {:induction false} RunsAreMaximal(text: string, p: nat)
    requires p <= |text| && (p > 0 ==> text[p - 1] != '`' || p == |text| || text[p] != '`')
    ensures forall r | r in Runs(text, p) ::
      && p <= r.start && 0 < r.length && End(r) <= |text|
      && (forall i | r.start <= i < End(r) :: text[i] == '`')
      && (r.start > 0 ==> text[r.start - 1] != '`') && (End(r) < |text| ==> text[End(r)] != '`')
    ensures forall i | p <= i < |text| && text[i] == '`' :: exists r | r in Runs(text, p) :: r.start <= i < End(r)
    decreases |text| - p
  {
    if p < |text| {
      if text[p] == '`' {
        var n := RunLength(text, p, '`');
        var rest := Runs(text, p + n);
        assert Runs(text, p) == [Run(p, n)] + rest && Run(p, n) in Runs(text, p);
        RunsAreMaximal(text, p + n);
        forall i | p <= i < |text| && text[i] == '`' ensures exists r | r in Runs(text, p) :: r.start <= i < End(r) {
          if i >= p + n {
            var r :| r in rest && r.start <= i < End(r);
            assert r in Runs(text, p);
          }
        }
      } else {
        RunsAreMaximal(text, p + 1);
      }
    }
  }

  // ----- One line -----

  function Blanks(s: string, p: nat): (q: nat)
    requires p <= |s|
    ensures p <= q <= |s|
    decreases |s| - p
  {
    if p < |s| && (s[p] == ' ' || s[p] == '\t') then Blanks(s, p + 1) else p
  }

  function Spaces(s: string, p: nat): (q: nat)
    requires p <= |s|
    ensures p <= q <= |s|
    decreases |s| - p
  {
    if p < |s| && s[p] == ' ' then Spaces(s, p + 1) else p
  }

  function Quotes(s: string, p: nat): (q: nat)
    requires p <= |s|
    ensures p <= q <= |s|
    decreases |s| - p
  {
    if p < |s| && s[p] == '>' then Quotes(s, Blanks(s, p + 1)) else p
  }

  function Digits(s: string, p: nat): (n: nat)
    requires p <= |s|
    ensures p + n <= |s|
    decreases |s| - p
  {
    if p < |s| && '0' <= s[p] <= '9' then 1 + Digits(s, p + 1) else 0
  }

  /** Where a list marker at `p` ends: a bullet, or one to nine digits and a point or parenthesis. */
  function MarkerEnd(s: string, p: nat): (q: Option<nat>)
    requires p <= |s|
    ensures q.Some? ==> p < q.value <= |s|
  {
    var n := Digits(s, p);
    if p < |s| && s[p] in "-*+" then Some(p + 1)
    else if 1 <= n <= 9 && p + n < |s| && s[p + n] in ".)" then Some(p + n + 1)
    else None
  }

  function Markers(s: string, p: nat): (q: nat)
    requires p <= |s|
    ensures p <= q <= |s|
    decreases |s| - p
  {
    match MarkerEnd(s, p)
    case None => p
    case Some(e) => if Blanks(s, e) > e then Markers(s, Blanks(s, e)) else p
  }

  datatype Opening = Opening(mark: char, length: nat, info: string)

  /** A run of three or more backticks or tildes, after any quote and list markers. */
  function MatchFence(s: string): Option<Opening> {
    var p := Markers(s, Quotes(s, Blanks(s, 0)));
    if p < |s| && (s[p] == '`' || s[p] == '~') && RunLength(s, p, s[p]) >= 3
    then Some(Opening(s[p], RunLength(s, p, s[p]), s[p + RunLength(s, p, s[p])..])) else None
  }

  /** A list marker after spaces only: where it ends, and the spaces behind it. */
  datatype Marker = Marker(end: nat, spaces: nat)

  function MatchMarker(measured: string): (m: Option<Marker>)
    ensures m.Some? ==> m.value.end > Spaces(measured, 0)
  {
    match MarkerEnd(measured, Spaces(measured, 0))
    case None => None
    case Some(e) =>
      var k := Spaces(measured, e) - e;
      if k > 0 || e == |measured| then Some(Marker(e, k)) else None
  }

  /** `s.expandtabs(4)` from a column on. */
  function Expanded(s: string, column: nat): string {
    if s == "" then ""
    else if s[0] == '\t' then seq(4 - column % 4, i => ' ') + Expanded(s[1..], column + 4 - column % 4)
    else [s[0]] + Expanded(s[1..], if s[0] == '\n' || s[0] == '\r' then 0 else column + 1)
  }

  predicate Blank(s: string) {
    forall c | c in s :: Naming.White(c)
  }

  // ----- The scan, line by line -----

  /** `items` are the content columns of the list items that are open. */
  datatype Scan = Scan(fence: Option<Opening>, prose: string, items: seq<nat>, blank: bool, code: bool)

  function Column(items: seq<nat>): nat {
    if items == [] then 0 else items[|items| - 1]
  }

  function Popped(items: seq<nat>, indent: nat): seq<nat> {
    if items != [] && indent < items[|items| - 1] then Popped(items[..|items| - 1], indent) else items
  }

  /** Where a paragraph ends: after a line feed, before a blank line. */
  predicate ParagraphAt(text: string, p: nat) {
    0 < p < |text| && text[p - 1] == '\n' && Blanks(text, p) < |text| && text[Blanks(text, p)] == '\n'
  }

  function ParagraphEnd(text: string, p: nat): (q: nat)
    requires p <= |text|
    ensures p <= q <= |text|
    decreases |text| - p
  {
    if p == |text| || ParagraphAt(text, p) then p else ParagraphEnd(text, p + 1)
  }

  /** The prose collected so far, paragraph by paragraph. */
  function Flushed(prose: string): seq<Piece>
    decreases |prose|
  {
    if prose == "" then []
    else
      var q := ParagraphEnd(prose, 1);
      CodeSpans(prose[..q]) + Flushed(prose[q..])
  }

  lemma {:induction false} FlushLosesNothing(prose: string)
    ensures Text(Flushed(prose)) == prose
    decreases |prose|
  {
    hide CodeSpans, Text;
    if prose == "" {
      NoText();
    } else {
      var q := ParagraphEnd(prose, 1);
      CodeSpansLoseNothing(prose[..q]);
      FlushLosesNothing(prose[q..]);
      TextAppend(CodeSpans(prose[..q]), Flushed(prose[q..]));
      assert prose == prose[..q] + prose[q..];
    }
  }

  lemma NoText()
    ensures Text([]) == ""
  {
  }

  lemma {:induction false} BlanksAlike(a: string, b: string, p: nat)
    requires p < |a| && a[|a| - 1] == '\n'
    ensures Blanks(a + b, p) == Blanks(a, p) < |a|
    decreases |a| - p
  {
    assert (a + b)[p] == a[p];
    if a[p] == ' ' || a[p] == '\t' {
      BlanksAlike(a, b, p + 1);
    }
  }

  lemma {:induction false} ParagraphEndAlike(a: string, b: string, p: nat)
    requires 0 < p <= |a| && a[|a| - 1] == '\n' && (p == |a| ==> ParagraphAt(a + b, |a|))
    requires ParagraphAt(a + b, |a|)
    ensures ParagraphEnd(a + b, p) == ParagraphEnd(a, p)
    decreases |a| - p
  {
    if p < |a| {
      BlanksAlike(a, b, p);
      assert (a + b)[p - 1] == a[p - 1] && (a + b)[Blanks(a, p)] == a[Blanks(a, p)];
      if !ParagraphAt(a, p) {
        ParagraphEndAlike(a, b, p + 1);
      }
    }
  }

  /** Paragraphs are cut apart before every blank line, and code spans are looked for in each by itself. */
  lemma {:induction false} ParagraphsApart(a: string, b: string)
    requires a != "" && ParagraphAt(a + b, |a|)
    ensures Flushed(a + b) == Flushed(a) + Flushed(b)
    decreases |a|
  {
    hide CodeSpans, ParagraphAt;
    assert a[|a| - 1] == '\n' by {
      LineFeedBefore(a, b);
    }
    ParagraphEndAlike(a, b, 1);
    var q := ParagraphEnd(a, 1);
    var rest := a[q..];
    assert (a + b)[..q] == a[..q] && (a + b)[q..] == rest + b;
    if rest == "" {
      assert rest + b == b && CodeSpans(a[..q]) + [] == CodeSpans(a[..q]);
    } else {
      ParagraphLater(a, b, q);
      ParagraphsApart(rest, b);
      Seqs.Assoc(CodeSpans(a[..q]), Flushed(rest), Flushed(b));
    }
  }

  lemma LineFeedBefore(a: string, b: string)
    requires a != "" && ParagraphAt(a + b, |a|)
    ensures a[|a| - 1] == '\n'
  {
  }

  lemma {:induction false} BlanksBehind(s: string, q: nat, p: nat)
    requires q <= p <= |s|
    ensures Blanks(s[q..], p - q) == Blanks(s, p) - q
    decreases |s| - p
  {
    if p < |s| {
      assert s[q..][p - q] == s[p];
      if s[p] == ' ' || s[p] == '\t' {
        BlanksBehind(s, q, p + 1);
      }
    }
  }

  lemma ParagraphLater(a: string, b: string, q: nat)
    requires q < |a| && ParagraphAt(a + b, |a|)
    ensures ParagraphAt(a[q..] + b, |a[q..]|)
  {
    var s := a + b;
    assert s[q..] == a[q..] + b;
    BlanksBehind(s, q, |a|);
  }

  lemma {:induction false} NoEndBefore(text: string, p: nat)
    requires p <= |text| && forall k: nat :: !ParagraphAt(text, k)
    ensures ParagraphEnd(text, p) == |text|
    decreases |text| - p
  {
    hide ParagraphAt;
    if p < |text| {
      NoEndBefore(text, p + 1);
    }
  }

  lemma OneParagraph(prose: string)
    requires forall k: nat :: !ParagraphAt(prose, k)
    ensures prose != "" ==> Flushed(prose) == CodeSpans(prose)
  {
    hide CodeSpans, ParagraphAt;
    if prose != "" {
      NoEndBefore(prose, 1);
      assert prose[..|prose|] == prose && prose[|prose|..] == "" && Flushed("") == [];
    }
  }

  predicate Closes(fence: Opening, s: string) {
    var m := MatchFence(s);
    m.Some? && m.value.mark == fence.mark && m.value.length >= fence.length && Blank(m.value.info)
  }

  predicate Opens(s: string) {
    var m := MatchFence(s);
    m.Some? && !(m.value.mark == '`' && '`' in m.value.info)
  }

  function MarkerWidth(m: Marker): nat {
    if 1 <= m.spaces <= 4 then m.end + m.spaces else m.end + 1
  }

  /** A line outside fences and with something on it, once the list items it does not belong to are closed. */
  function Classified(s: Scan, line: string, items: seq<nat>, indent: nat, marker: Option<Marker>): (Scan, seq<Piece>) {
    var stripped := Lines.TrimEnd(line);
    if indent - Column(items) >= 4 && (s.blank || s.code) then
      (Scan(None, "", items, false, true), Flushed(s.prose) + [Piece(line, true)])
    else
      var nested := if marker.Some? then items + [MarkerWidth(marker.value)] else items;
      if Opens(stripped) then
        (Scan(MatchFence(stripped), "", nested, false, true), Flushed(s.prose) + [Piece(line, true)])
      else (Scan(None, s.prose + line, nested, false, false), [])
  }

  function Step(s: Scan, line: string): (Scan, seq<Piece>) {
    var stripped := Lines.TrimEnd(line);
    if s.fence.Some? then
      (s.(fence := if Closes(s.fence.value, stripped) then None else s.fence, blank := false, code := true),
        [Piece(line, true)])
    else if Blank(stripped) then (s.(prose := s.prose + line, blank := true, code := false), [])
    else
      var measured := Expanded(stripped, 0);
      var marker := MatchMarker(measured);
      var lazily := s.items != [] && marker.None? && !s.blank && !s.code;
      Classified(s, line, if lazily then s.items else Popped(s.items, Spaces(measured, 0)), Spaces(measured, 0), marker)
  }

  const START: Scan := Scan(None, "", [], true, false)

  /** The state after some lines, and the pieces given out up to then. */
  function Scanned(lines: seq<string>): (Scan, seq<Piece>) {
    if lines == [] then (START, [])
    else
      var (s, pieces) := Scanned(lines[..|lines| - 1]);
      var (t, more) := Step(s, lines[|lines| - 1]);
      (t, pieces + more)
  }

  function Segmented(body: string): seq<Piece> {
    var (s, pieces) := Scanned(Lines.SplitLines(body));
    pieces + Flushed(s.prose)
  }

  /** Within a fence no prose waits; list items nest, each further in than the one around it. */
  ghost predicate Sound(s: Scan) {
    && (s.fence.Some? ==> s.prose == "")
    && Increasing(s.items)
  }

  ghost predicate Increasing(items: seq<nat>) {
    forall i, j | 0 <= i < j < |items| :: items[i] < items[j]
  }

  lemma IncreasingSnoc(items: seq<nat>, width: nat)
    requires Increasing(items) && (items != [] ==> Column(items) < width)
    ensures Increasing(items + [width])
  {
    forall i | 0 <= i < |items| ensures items[i] < width {
      assert i < |items| - 1 ==> items[i] < items[|items| - 1];
    }
  }

  lemma {:induction false} PoppedFits(items: seq<nat>, indent: nat)
    ensures Popped(items, indent) <= items && Column(Popped(items, indent)) <= indent
  {
    if items != [] && indent < items[|items| - 1] {
      PoppedFits(items[..|items| - 1], indent);
    }
  }

  lemma StepKeepsNesting(s: Scan, line: string)
    requires Sound(s)
    ensures Sound(Step(s, line).0)
  {
    hide Text, Lines.TrimEnd, MatchFence, Expanded, Popped, Blank, Opens, Closes, Flushed, MatchMarker, Increasing,
      Spaces, Column, Prose;
    var measured := Expanded(Lines.TrimEnd(line), 0);
    var indent, marker := Spaces(measured, 0), MatchMarker(measured);
    PoppedFits(s.items, indent);
    PrefixIncreasing(s.items, Popped(s.items, indent));
    if marker.Some? {
      IncreasingSnoc(Popped(s.items, indent), MarkerWidth(marker.value));
    }
  }

  lemma PrefixIncreasing(items: seq<nat>, part: seq<nat>)
    requires Increasing(items) && part <= items
    ensures Increasing(part)
  {
  }

  lemma StepLosesNothing(s: Scan, line: string)
    requires Sound(s)
    ensures Text(Step(s, line).1) + Step(s, line).0.prose == s.prose + line
  {
    hide Text, Lines.TrimEnd, MatchFence, Expanded, MatchMarker, Popped, Blank, Opens, Closes, Flushed;
    NoText();
    TextOne(Piece(line, true));
    FlushLosesNothing(s.prose);
    TextAppend(Flushed(s.prose), [Piece(line, true)]);
    assert line + "" == line && s.prose + line + "" == s.prose + line && "" + (s.prose + line) == s.prose + line;
    assert "" + line == line;
  }

  lemma {:induction false} ScannedLosesNothing(lines: seq<string>)
    ensures Sound(Scanned(lines).0)
    ensures Text(Scanned(lines).1) + Scanned(lines).0.prose == Lines.Joined(lines)
  {
    hide Step, Text, Lines.Joined, Sound;
    if lines == [] {
      NoText();
      StartIsSound();
    } else {
      var init, line := lines[..|lines| - 1], lines[|lines| - 1];
      ScannedLosesNothing(init);
      var (s, pieces) := Scanned(init);
      StepKeepsNesting(s, line);
      StepLosesNothing(s, line);
      TextAppend(pieces, Step(s, line).1);
      Seqs.SplitLast(lines);
      Lines.JoinedAppend(init, [line]);
      JoinedOne(line);
      Seqs.Assoc(Text(pieces), s.prose, line);
      Seqs.Assoc(Text(pieces), Text(Step(s, line).1), Step(s, line).0.prose);
    }
  }

  lemma StartIsSound()
    ensures Sound(START) && Lines.Joined([]) == "" && START.prose == ""
  {
  }

  lemma JoinedOne(line: string)
    ensures Lines.Joined([line]) == line
  {
    assert [line][1..] == [] && line + "" == line;
  }

  /** The pieces of every body, through fences, lists, indented code and code spans, make up the body. */
  lemma SegmentationIsLossless(body: string)
    ensures Text(Segmented(body)) == body
  {
    hide Scanned, Flushed, Text, Lines.SplitLines, Lines.Joined;
    var lines := Lines.SplitLines(body);
    Lines.LinesJoin(body);
    ScannedLosesNothing(lines);
    var (s, pieces) := Scanned(lines);
    FlushLosesNothing(s.prose);
    TextAppend(pieces, Flushed(s.prose));
  }

  lemma ScannedLine(lines: seq<string>, k: nat)
    requires 0 < k <= |lines|
    ensures Scanned(lines[..k]).0 == Step(Scanned(lines[..k - 1]).0, lines[k - 1]).0
    ensures Scanned(lines[..k]).1 == Scanned(lines[..k - 1]).1 + Step(Scanned(lines[..k - 1]).0, lines[k - 1]).1
  {
    hide Step;
    assert lines[..k][..k - 1] == lines[..k - 1];
  }

  lemma ScannedNone(lines: seq<string>)
    ensures Scanned(lines[..0]) == (START, [])
  {
  }

  lemma FencedLine(s: Scan, line: string)
    requires s.fence.Some? && !Closes(s.fence.value, Lines.TrimEnd(line))
    ensures Step(s, line).0.fence == s.fence && Step(s, line).1 == [Piece(line, true)]
  {
  }

  function CodeLines(lines: seq<string>): seq<Piece> {
    if lines == [] then [] else CodeLines(lines[..|lines| - 1]) + [Piece(lines[|lines| - 1], true)]
  }

  /** From the line after the one that opens a fence up to the line that closes it, every line is code. */
  lemma {:induction false} FenceHolds(lines: seq<string>, i: nat, k: nat, fence: Opening)
    requires i <= k <= |lines| && Scanned(lines[..i]).0.fence == Some(fence)
    requires forall j | i <= j < k :: !Closes(fence, Lines.TrimEnd(lines[j]))
    ensures Scanned(lines[..k]).0.fence == Some(fence)
    ensures Scanned(lines[..k]).1 == Scanned(lines[..i]).1 + CodeLines(lines[i..k])
  {
    hide Closes, Lines.TrimEnd, Scanned, Step;
    if i == k {
      assert lines[i..k] == [];
    } else {
      FenceHolds(lines, i, k - 1, fence);
      ScannedLine(lines, k);
      FencedLine(Scanned(lines[..k - 1]).0, lines[k - 1]);
      assert lines[i..k][..k - 1 - i] == lines[i..k - 1];
      Seqs.Assoc(Scanned(lines[..i]).1, CodeLines(lines[i..k - 1]), [Piece(lines[k - 1], true)]);
    }
  }

  /** What the scan keeps of the line before: whether it was blank outside a fence, and whether it was code. */
  lemma FlagsMean(lines: seq<string>, k: nat)
    requires 0 < k <= |lines|
    ensures var s, t, line := Scanned(lines[..k - 1]), Scanned(lines[..k]), lines[k - 1];
      && (t.0.blank <==> s.0.fence.None? && Blank(Lines.TrimEnd(line)))
      && (t.0.code <==> t.1 != s.1)
      && (t.0.code ==> t.0.prose == "" && |t.1| > |s.1| && t.1[|t.1| - 1] == Piece(line, true))
      && (!t.0.code ==> t.0.prose == s.0.prose + line)
  {
    hide Scanned, Lines.TrimEnd, MatchFence, MatchMarker, Expanded, Flushed, Spaces, Blank, Popped, Opens, Closes;
    ScannedLine(lines, k);
    var s, line := Scanned(lines[..k - 1]), lines[k - 1];
    ScannedLosesNothing(lines[..k - 1]);
    assert s.1 + [] == s.1;
  }

  /** A line outside fences opens one. */
  ghost predicate OpensFence(lines: seq<string>, i: nat) {
    && i < |lines| && Scanned(lines[..i]).0.fence.None? && Scanned(lines[..i + 1]).0.fence.Some?
  }

  /** No line between closes it. */
  ghost predicate Unclosed(lines: seq<string>, i: nat, k: nat, fence: Opening)
    requires k <= |lines|
  {
    forall j | i < j < k :: !Closes(fence, Lines.TrimEnd(lines[j]))
  }

  lemma FenceStep(s: Scan, line: string)
    ensures var stripped, t := Lines.TrimEnd(line), Step(s, line).0;
      && (s.fence.Some? ==> t.fence == if Closes(s.fence.value, stripped) then None else s.fence)
      && (s.fence.None? && t.fence.Some? ==> Opens(stripped) && t.fence == MatchFence(stripped))
      && (s.fence.None? && Opens(stripped) && !Blank(stripped) && t.fence.None? ==>
            s.blank || s.code)
  {
    hide Lines.TrimEnd, MatchFence, MatchMarker, Expanded, Flushed, Spaces, Blank, Popped, Closes;
  }

  /** Inside a fence is exactly where a line before opened it and none since closed it. */
  lemma {:induction false} FenceOpenExactly(lines: seq<string>, k: nat)
    requires k <= |lines|
    ensures Scanned(lines[..k]).0.fence.Some? <==>
      exists i: nat :: i < k && FenceFrom(lines, i, k)
    ensures forall i: nat | i < k && FenceFrom(lines, i, k) ::
      Scanned(lines[..k]).0.fence == MatchFence(Lines.TrimEnd(lines[i]))
  {
    hide Scanned, Lines.TrimEnd, MatchFence, Closes, Opens, Step;
    if k == 0 {
      StartScan(lines);
    } else {
      FenceOpenExactly(lines, k - 1);
      ScannedLine(lines, k);
      var s := Scanned(lines[..k - 1]).0;
      FenceStep(s, lines[k - 1]);
      if s.fence.None? {
        forall i: nat | i < k && FenceFrom(lines, i, k) ensures i == k - 1 {
          assert i < k - 1 ==> FenceFrom(lines, i, k - 1);
        }
        if Scanned(lines[..k]).0.fence.Some? {
          assert FenceFrom(lines, k - 1, k);
        }
      } else {
        var from: nat :| from < k - 1 && FenceFrom(lines, from, k - 1);
        forall i: nat | i < k && FenceFrom(lines, i, k)
          ensures i < k - 1 && FenceFrom(lines, i, k - 1) && !Closes(s.fence.value, Lines.TrimEnd(lines[k - 1])) {
        }
        if !Closes(s.fence.value, Lines.TrimEnd(lines[k - 1])) {
          assert FenceFrom(lines, from, k);
        }
      }
    }
  }

  ghost predicate FenceFrom(lines: seq<string>, i: nat, k: nat)
    requires k <= |lines|
  {
    && i < k && OpensFence(lines, i) && MatchFence(Lines.TrimEnd(lines[i])).Some?
    && Unclosed(lines, i, k, MatchFence(Lines.TrimEnd(lines[i])).value)
  }

  lemma StartScan(lines: seq<string>)
    ensures Scanned(lines[..0]) == (START, []) && START.fence.None?
  {
  }

  method Flush(prose: string) returns (pieces: seq<Piece>)
    ensures pieces == Flushed(prose)
  {
    hide CodeSpans, ParagraphAt;
    pieces := [];
    var rest := prose;
    while rest != ""
      invariant pieces + Flushed(rest) == Flushed(prose)
      decreases |rest|
    {
      var q := ParagraphEnd(rest, 1);
      var paragraph := CodeSpansSplit(rest[..q]);
      Seqs.Assoc(pieces, paragraph, Flushed(rest[q..]));
      pieces, rest := pieces + paragraph, rest[q..];
    }
  }

  method CloseItems(open: seq<nat>, indent: nat, lazily: bool) returns (items: seq<nat>)
    ensures items == if lazily then open else Popped(open, indent)
  {
    items := open;
    while items != [] && indent < items[|items| - 1] && !lazily
      invariant lazily ==> items == open
      invariant Popped(items, indent) == Popped(open, indent)
      decreases |items|
    {
      items := items[..|items| - 1];
    }
  }

  /** The loop over the lines of a body. */
  method ProseAndCode(body: string) returns (pieces: seq<Piece>)
    ensures pieces == Segmented(body)
  {
    hide Lines.SplitLines, Lines.TrimEnd, MatchFence, MatchMarker, Expanded, Flushed, Spaces, Blank, Popped, Scanned;
    var fence: Option<Opening>, prose: string, items: seq<nat> := None, "", [];
    var previousBlank, previousCode := true, false;
    var lines := Lines.SplitLines(body);
    pieces := [];
    ScannedNone(lines);
    for i := 0 to |lines|
      invariant Scanned(lines[..i]) == (Scan(fence, prose, items, previousBlank, previousCode), pieces)
    {
      ScannedLine(lines, i + 1);
      var line := lines[i];
      ghost var before, given := Scan(fence, prose, items, previousBlank, previousCode), pieces;
      assert given + [] == given;
      var stripped := Lines.TrimEnd(line);
      if fence.Some? {
        var m := MatchFence(stripped);
        if m.Some? && m.value.mark == fence.value.mark && m.value.length >= fence.value.length && Blank(m.value.info) {
          fence := None;
        }
        pieces := pieces + [Piece(line, true)];
        previousBlank, previousCode := false, true;
      } else if Blank(stripped) {
        prose, previousBlank, previousCode := prose + line, true, false;
      } else {
        var measured := Expanded(stripped, 0);
        var indent, marker := Spaces(measured, 0), MatchMarker(measured);
        var lazily := items != [] && marker.None? && !previousBlank && !previousCode;
        items := CloseItems(items, indent, lazily);
        var m := MatchFence(stripped);
        if indent - Column(items) >= 4 && (previousBlank || previousCode) {
          var flushed := Flush(prose);
          pieces, prose := pieces + (flushed + [Piece(line, true)]), "";
          previousBlank, previousCode := false, true;
        } else {
          if marker.Some? {
            items := items + [MarkerWidth(marker.value)];
          }
          if m.Some? && !(m.value.mark == '`' && '`' in m.value.info) {
            var flushed := Flush(prose);
            pieces, prose, fence := pieces + (flushed + [Piece(line, true)]), "", m;
            previousBlank, previousCode := false, true;
          } else {
            prose, previousBlank, previousCode := prose + line, false, false;
          }
        }
      }
      assert Step(before, line).0 == Scan(fence, prose, items, previousBlank, previousCode);
      assert pieces == given + Step(before, line).1;
    }
    assert lines[..|lines|] == lines;
    var last := Flush(prose);
    pieces := pieces + last;
  }

  // ----- Rewriting -----

  /** An embed at the start of a text: its length, what it names, and what stands around the name. */
  datatype Embed = Embed(length: nat, target: string, head: string, tail: string, quoted: bool)

  /** How far the characters from `p` on stay clear of `stops`. */
  function Clear(s: string, p: nat, stops: string): (q: nat)
    requires p <= |s|
    ensures p <= q <= |s| && (q < |s| ==> s[q] in stops) && forall i | p <= i < q :: s[i] !in stops
    decreases |s| - p
  {
    if p < |s| && s[p] !in stops then Clear(s, p + 1, stops) else p
  }

  /** What can stand as the name of a wiki embed. */
  predicate Nameable(name: string) {
    name != "" && forall c | c in name :: c !in "]|\n"
  }

  /** What can stand behind it: nothing, or a bar and a text to show. */
  predicate Showable(shown: string) {
    shown == "" || (shown[0] == '|' && forall c | c in shown :: c !in "]\n")
  }

  /** An embed as it is written. */
  function Written(name: string, shown: string): string {
    "![[" + name + shown + "]]"
  }

  lemma InFour(s: string, p: nat, q: nat, r: nat, n: nat)
    requires p <= q <= r <= n <= |s|
    ensures s[..n] == s[..p] + s[p..q] + (s[q..r] + s[r..n])
  {
  }

  /** Where the name of an embed that opens a text ends, and where what it shows ends. */
  function NameEnd(s: string): (q: nat)
    requires |s| >= 3
    ensures 3 <= q <= |s|
  {
    Clear(s, 3, "]|\n")
  }

  function ShownEnd(s: string): (r: nat)
    requires |s| >= 3
    ensures NameEnd(s) <= r <= |s| && (r < |s| ==> s[r] in "]\n")
    ensures forall i | 3 <= i < r :: s[i] !in "]\n"
  {
    var q := NameEnd(s);
    if q < |s| && s[q] == '|' then Clear(s, q + 1, "]\n") else q
  }

  /** `![[name]]` or `![[name|shown]]` */
  function WikiEmbed(s: string): (e: Option<Embed>)
    ensures e.Some? ==> 0 < e.value.length <= |s| && s[..e.value.length] == e.value.head + e.value.target + e.value.tail
  {
    if |s| < 3 || s[..3] != "![[" then None
    else
      var q, r := NameEnd(s), ShownEnd(s);
      if q == 3 || r + 2 > |s| || s[r..r + 2] != "]]" then None
      else
        InFour(s, 3, q, r, r + 2);
        Some(Embed(r + 2, s[3..q], "![[", s[q..r] + "]]", false))
  }

  /** The filed artifact of a target, the quoting of a link destination, and where a Markdown embed is recognised. */
  datatype Filing = Filing(resolve: string -> Option<string>, quote: string -> string,
                           markdown: string -> Option<Embed>)

  /** One substitution from left to right. */
  function Substituted(f: Filing, find: string -> Option<Embed>, s: string): string
    decreases |s|
  {
    if s == "" then ""
    else
      var e := find(s);
      if e.None? || e.value.length == 0 || e.value.length > |s| then [s[0]] + Substituted(f, find, s[1..])
      else Shown(f, e.value, s[..e.value.length]) + Substituted(f, find, s[e.value.length..])
  }

  function Shown(f: Filing, e: Embed, written: string): string {
    match f.resolve(e.target)
    case None => written
    case Some(filed) => e.head + (if e.quoted then f.quote(filed) else filed) + e.tail
  }

  function WikiRewritten(f: Filing, text: string): string {
    Substituted(f, s => WikiEmbed(s), text)
  }

  function ProseRewritten(f: Filing, text: string): string {
    Substituted(f, f.markdown, WikiRewritten(f, text))
  }

  function PieceRewritten(f: Filing, p: Piece): Piece {
    if p.code then p else Piece(ProseRewritten(f, p.text), false)
  }

  function PiecesRewritten(f: Filing, pieces: seq<Piece>): (r: seq<Piece>)
    ensures |r| == |pieces|
  {
    if pieces == [] then [] else PiecesRewritten(f, pieces[..|pieces| - 1]) + [PieceRewritten(f, pieces[|pieces| - 1])]
  }

  method RewriteEmbeds(f: Filing, body: string) returns (rewritten: string)
    ensures rewritten == Text(PiecesRewritten(f, Segmented(body)))
  {
    hide Segmented, ProseRewritten, Text;
    var pieces := ProseAndCode(body);
    rewritten := "";
    NoText();
    for i := 0 to |pieces|
      invariant rewritten == Text(PiecesRewritten(f, pieces[..i]))
    {
      assert pieces[..i + 1][..i] == pieces[..i];
      var p := pieces[i];
      TextAppend(PiecesRewritten(f, pieces[..i]), [PieceRewritten(f, p)]);
      TextOne(PieceRewritten(f, p));
      rewritten := rewritten + if p.code then p.text else ProseRewritten(f, p.text);
    }
    assert pieces[..|pieces|] == pieces;
  }

  /** Rewriting leaves every code piece where and as it was. */
  lemma {:induction false} CodeIsUntouched(f: Filing, pieces: seq<Piece>, i: nat)
    requires i < |pieces|
    ensures PiecesRewritten(f, pieces)[i].code == pieces[i].code
    ensures pieces[i].code ==> PiecesRewritten(f, pieces)[i] == pieces[i]
  {
    if i < |pieces| - 1 {
      CodeIsUntouched(f, pieces[..|pieces| - 1], i);
    }
  }

  predicate Unresolved(f: Filing, e: Option<Embed>) {
    e.Some? ==> f.resolve(e.value.target).None?
  }

  /** No embed found anywhere in a text names an artifact. */
  ghost predicate NamesNone(f: Filing, find: string -> Option<Embed>, s: string) {
    forall i | 0 <= i <= |s| :: Unresolved(f, find(s[i..]))
  }

  lemma NamesNoneHere(f: Filing, find: string -> Option<Embed>, s: string)
    requires NamesNone(f, find, s)
    ensures Unresolved(f, find(s))
  {
    assert s[0..] == s;
  }

  lemma NamesNoneBehind(f: Filing, find: string -> Option<Embed>, s: string, n: nat)
    requires NamesNone(f, find, s) && n <= |s|
    ensures NamesNone(f, find, s[n..])
  {
    forall i | 0 <= i <= |s[n..]| ensures Unresolved(f, find(s[n..][i..])) {
      assert s[n..][i..] == s[n + i..];
    }
  }

  /** Where nothing resolves, a step copies what it reads. */
  lemma StepCopies(f: Filing, find: string -> Option<Embed>, s: string) returns (n: nat)
    requires s != "" && Unresolved(f, find(s))
    ensures 1 <= n <= |s| && Substituted(f, find, s) == s[..n] + Substituted(f, find, s[n..])
  {
    var e := find(s);
    n := if e.None? || e.value.length == 0 || e.value.length > |s| then 1 else e.value.length;
    assert s[..1] == [s[0]];
  }

  lemma {:induction false} NothingSubstituted(f: Filing, find: string -> Option<Embed>, s: string)
    requires NamesNone(f, find, s)
    ensures Substituted(f, find, s) == s
    decreases |s|
  {
    hide NamesNone, Unresolved;
    if s != "" {
      NamesNoneHere(f, find, s);
      var n := StepCopies(f, find, s);
      NamesNoneBehind(f, find, s, n);
      NothingSubstituted(f, find, s[n..]);
      assert s == s[..n] + s[n..];
    }
  }

  /** Nothing a piece embeds names an artifact; code embeds nothing. */
  ghost predicate EmbedsNone(f: Filing, p: Piece) {
    p.code || (NamesNone(f, s => WikiEmbed(s), p.text) && NamesNone(f, f.markdown, p.text))
  }

  lemma {:induction false} NothingRewritten(f: Filing, pieces: seq<Piece>)
    requires forall p | p in pieces :: EmbedsNone(f, p)
    ensures PiecesRewritten(f, pieces) == pieces
  {
    hide NamesNone;
    if pieces != [] {
      var last := pieces[|pieces| - 1];
      assert last in pieces;
      NothingRewritten(f, pieces[..|pieces| - 1]);
      if !last.code {
        NothingSubstituted(f, s => WikiEmbed(s), last.text);
        NothingSubstituted(f, f.markdown, last.text);
      }
      Seqs.SplitLast(pieces);
    }
  }

  /** Whatever artifacts there are, a body whose prose embeds none of them stays as it is. */
  lemma UnresolvedIsIdentity(f: Filing, body: string)
    requires forall p | p in Segmented(body) :: EmbedsNone(f, p)
    ensures Text(PiecesRewritten(f, Segmented(body))) == body
  {
    hide Segmented, Text, EmbedsNone;
    NothingRewritten(f, Segmented(body));
    SegmentationIsLossless(body);
  }

  /**
   In prose, an embed of a name that resolves, with or without a text to show, comes to name the
   filed artifact and keeps that text, and the rest is read on.
   */
  lemma EmbedIsRewritten(f: Filing, name: string, shown: string, rest: string)
    requires Nameable(name)
    requires Showable(shown)
    requires f.resolve(name).Some?
    ensures WikiRewritten(f, Written(name, shown) + rest) ==
      Written(f.resolve(name).value, shown) + WikiRewritten(f, rest)
  {
    hide WikiEmbed;
    var e := "![[" + name + shown + "]]";
    WikiFound(name, shown, rest);
    FoundIsRewritten(f, s => WikiEmbed(s), e, rest, Embed(|e|, name, "![[", shown + "]]", false));
    var filed := f.resolve(name).value;
    assert "![[" + filed + (shown + "]]") == "![[" + filed + shown + "]]";
  }

  /** One step of a substitution that finds its embed at the start. */
  lemma FoundIsRewritten(f: Filing, find: string -> Option<Embed>, written: string, rest: string, e: Embed)
    requires written != "" && find(written + rest) == Some(e) && e.length == |written|
    ensures Substituted(f, find, written + rest) ==
      (match f.resolve(e.target)
       case None => written
       case Some(filed) => e.head + (if e.quoted then f.quote(filed) else filed) + e.tail) + Substituted(f, find, rest)
  {
    assert (written + rest)[..|written|] == written && (written + rest)[|written|..] == rest;
  }

  // ----- One substitution, said of the text cut at its embeds -----

  /** A stretch without an embed, or an embed as it is written. */
  datatype Part = Plain(text: string) | Embedded(written: string, embed: Embed)

  function Source(parts: seq<Part>): string {
    if parts == [] then ""
    else (match parts[0] case Plain(text) => text case Embedded(written, _) => written) + Source(parts[1..])
  }

  /** Each embed whose target resolves names the filed artifact, in the notation it had. */
  function Target(f: Filing, parts: seq<Part>): string {
    if parts == [] then ""
    else
      (match parts[0]
       case Plain(text) => text
       case Embedded(written, e) =>
         match f.resolve(e.target)
         case None => written
         case Some(filed) => e.head + (if e.quoted then f.quote(filed) else filed) + e.tail)
      + Target(f, parts[1..])
  }

  /** An embed is found at the start of a text. */
  predicate FoundAt(find: string -> Option<Embed>, s: string) {
    find(s).Some? && 0 < find(s).value.length <= |s|
  }

  /** From left to right: no embed starts in a stretch, and every other part is the embed that is found there. */
  ghost predicate AtEmbeds(find: string -> Option<Embed>, parts: seq<Part>)
    decreases |parts|
  {
    parts != [] ==>
      && AtEmbeds(find, parts[1..])
      && match parts[0]
         case Plain(text) => forall k | 0 <= k < |text| :: !FoundAt(find, text[k..] + Source(parts[1..]))
         case Embedded(written, e) =>
           written != "" && find(written + Source(parts[1..])) == Some(e) && e.length == |written|
  }

  lemma {:induction false} PlainCopied(f: Filing, find: string -> Option<Embed>, text: string, rest: string)
    requires forall k | 0 <= k < |text| :: !FoundAt(find, text[k..] + rest)
    ensures Substituted(f, find, text + rest) == text + Substituted(f, find, rest)
    decreases |text|
  {
    if text == "" {
      assert text + rest == rest;
    } else {
      assert text[0..] == text && !FoundAt(find, text[0..] + rest);
      forall k | 0 <= k < |text[1..]| ensures !FoundAt(find, text[1..][k..] + rest) {
        assert text[1..][k..] == text[k + 1..];
      }
      PlainCopied(f, find, text[1..], rest);
      assert (text + rest)[1..] == text[1..] + rest && (text + rest)[0] == text[0];
      assert text + Substituted(f, find, rest) == [text[0]] + (text[1..] + Substituted(f, find, rest));
    }
  }

  lemma {:induction false} SubstitutedAtEmbeds(f: Filing, find: string -> Option<Embed>, parts: seq<Part>)
    requires AtEmbeds(find, parts)
    ensures Substituted(f, find, Source(parts)) == Target(f, parts)
    decreases |parts|
  {
    if parts != [] {
      var rest := Source(parts[1..]);
      SubstitutedAtEmbeds(f, find, parts[1..]);
      match parts[0]
      case Plain(text) => PlainCopied(f, find, text, rest);
      case Embedded(written, e) => FoundIsRewritten(f, find, written, rest, e);
    }
  }

  /** Every text can be cut so. */
  lemma {:induction false} PartsOf(find: string -> Option<Embed>, s: string) returns (parts: seq<Part>)
    ensures AtEmbeds(find, parts) && Source(parts) == s
    decreases |s|
  {
    parts := [];
    if s != "" {
      var n := if FoundAt(find, s) then find(s).value.length else 1;
      var rest := PartsOf(find, s[n..]);
      var first := if FoundAt(find, s) then Embedded(s[..n], find(s).value) else Plain(s[..n]);
      parts := [first] + rest;
      assert parts[1..] == rest && s == s[..n] + s[n..];
      if first.Plain? {
        assert s[..n][0..] == s[..n];
      }
    }
  }

  /**
   Prose is rewritten in two passes over texts cut at their embeds: first those in the wiki notation,
   and then, in what that gives, the Markdown ones.
   */
  lemma ProseIsRewrittenTwice(f: Filing, text: string) returns (wiki: seq<Part>, markdown: seq<Part>)
    ensures AtEmbeds(s => WikiEmbed(s), wiki) && Source(wiki) == text
    ensures AtEmbeds(f.markdown, markdown) && Source(markdown) == Target(f, wiki)
    ensures ProseRewritten(f, text) == Target(f, markdown)
  {
    hide WikiEmbed, Substituted, AtEmbeds;
    wiki := PartsOf(s => WikiEmbed(s), text);
    SubstitutedAtEmbeds(f, s => WikiEmbed(s), wiki);
    markdown := PartsOf(f.markdown, Target(f, wiki));
    SubstitutedAtEmbeds(f, f.markdown, markdown);
  }

  lemma WikiFound(name: string, shown: string, rest: string)
    requires Nameable(name)
    requires Showable(shown)
    ensures WikiEmbed(Written(name, shown) + rest) ==
      Some(Embed(|Written(name, shown)|, name, "![[", shown + "]]", false))
  {
    hide Clear;
    var s, n := "![[" + name + shown + "]]" + rest, 3 + |name|;
    var m := n + |shown|;
    WikiParts(name, shown, rest);
    ClearTo(s, 3, n, "]|\n");
    if shown != "" {
      ClearTo(s, n + 1, m, "]\n");
    }
    assert s[n..m] == shown;
  }

  lemma WikiParts(name: string, shown: string, rest: string)
    requires forall c | c in name :: c !in "]|\n"
    requires Showable(shown)
    ensures var s, n := "![[" + name + shown + "]]" + rest, 3 + |name|;
      var m := n + |shown|;
      && |s| >= m + 2 && s[..3] == "![[" && s[3..n] == name && s[n..m] == shown && s[m..m + 2] == "]]" && s[m] == ']'
      && (shown != "" ==> s[n] == '|')
      && (forall i | 3 <= i < n :: s[i] !in "]|\n") && (forall i | n < i < m :: s[i] !in "]\n")
  {
    var s, n := "![[" + name + shown + "]]" + rest, 3 + |name|;
    Apart("![[", name, shown, "]]", rest);
    StaysClear(s, 3, name, "]|\n");
    if shown != "" {
      assert shown == [shown[0]] + shown[1..];
      assert s[n] == s[n..n + |shown|][0];
      StaysClear(s, n, shown, "]\n");
    }
    assert s[n + |shown|] == s[n + |shown|..n + |shown| + 2][0];
  }

  lemma StaysClear(s: string, n: nat, part: string, stops: string)
    requires n + |part| <= |s| && s[n..n + |part|] == part && forall c | c in part :: c !in stops
    ensures forall i | n <= i < n + |part| :: s[i] !in stops
  {
    forall i | n <= i < n + |part| ensures s[i] !in stops {
      assert s[i] == part[i - n] && part[i - n] in part;
    }
  }

  lemma Apart(a: string, b: string, c: string, d: string, e: string)
    ensures var s := a + b + c + d + e;
      var l, m := |a| + |b|, |a| + |b| + |c|;
      s[..|a|] == a && s[|a|..l] == b && s[l..m] == c && s[m..m + |d|] == d
  {
  }

  lemma ClearTo(s: string, p: nat, n: nat, stops: string)
    requires p <= n < |s| && s[n] in stops && forall i | p <= i < n :: s[i] !in stops
    ensures Clear(s, p, stops) == n
  {
    hide Clear;
  }

  // ----- Refiling never rewrites twice -----

  /** An embed closes at the first bracket or line end behind its opening. */
  lemma WikiCloses(s: string)
    requires WikiEmbed(s).Some?
    ensures var r := WikiEmbed(s).value.length - 2;
      && 4 <= r <= |s| - 2 && s[..3] == "![[" && s[r..r + 2] == "]]" && s[r] == ']'
      && forall i | 3 <= i < r :: s[i] !in "]\n"
  {
    hide Clear;
    var r := WikiEmbed(s).value.length - 2;
    assert s[r..r + 2][0] == s[r];
  }

  /** An embed is its opening, a name, what it shows and its closing. */
  lemma WikiReads(s: string) returns (name: string, shown: string)
    requires WikiEmbed(s).Some?
    ensures var e := WikiEmbed(s).value;
      && e == Embed(e.length, name, "![[", shown + "]]", false) && s[..e.length] == Written(name, shown)
    ensures Nameable(name) && Showable(shown)
  {
    hide Clear;
    var q, r := NameEnd(s), ShownEnd(s);
    name, shown := s[3..q], s[q..r];
    Seqs.Assoc("![[" + name, shown, "]]");
    assert shown != "" ==> shown[0] == s[q];
  }

  /** Up to the first embed a text is copied, and with it the character that follows. */
  lemma {:induction false} CopiedUpTo(f: Filing, s: string, n: nat)
    requires n <= |s| && forall j | 0 <= j < n :: WikiEmbed(s[j..]).None?
    ensures var t := WikiRewritten(f, s);
      && n <= |t| && t[..n] == s[..n]
      && (n < |s| ==> n < |t| && t[n] == s[n]) && (n == |s| ==> |t| == n)
    decreases n
  {
    hide WikiEmbed;
    assert s[0..] == s;
    if n > 0 {
      forall j | 0 <= j < n - 1 ensures WikiEmbed(s[1..][j..]).None? {
        assert s[1..][j..] == s[j + 1..];
      }
      CopiedUpTo(f, s[1..], n - 1);
      var u := WikiRewritten(f, s[1..]);
      assert WikiRewritten(f, s) == [s[0]] + u;
      assert s[..n] == [s[0]] + s[1..][..n - 1];
      assert ([s[0]] + u)[..n] == [s[0]] + u[..n - 1];
    } else if s != "" && WikiEmbed(s).Some? {
      var name, shown := WikiReads(s);
      assert s[..WikiEmbed(s).value.length][0] == '!';
    }
  }

  /** Where no embed opens, rewriting what follows opens none. */
  lemma NoneOpens(f: Filing, s: string)
    requires s != "" && WikiEmbed(s).None? && (|s| < 3 || s[..3] != "![[")
    ensures var t := WikiRewritten(f, s); |t| < 3 || t[..3] != "![["
  {
    var t := WikiRewritten(f, s);
    assert s[0..] == s;
    CopiedUpTo(f, s, 1);
    assert t[0] == t[..1][0] == s[..1][0] == s[0];
    if |s| > 1 && s[0] == '!' && s[1] == '[' {
      CopiedUpTo(f, s, 2);
      assert |s| > 2 ==> s[..3] == [s[0], s[1], s[2]];
    }
  }

  /** An embed inside an open one closes it as well. */
  lemma InnerCloses(s: string, j: nat)
    requires |s| >= 3 && s[..3] == "![[" && 0 < j <= ShownEnd(s) && j < |s| && WikiEmbed(s[j..]).Some?
    ensures var r := ShownEnd(s); r + 2 <= |s| && s[r..r + 2] == "]]"
  {
    hide NameEnd, WikiEmbed;
    var r, inner := ShownEnd(s), s[j..];
    WikiCloses(inner);
    var end := j + WikiEmbed(inner).value.length - 2;
    assert s[j] == inner[..3][0] && s[j + 1] == inner[..3][1] && s[j + 2] == inner[..3][2];
    assert s[1] == s[..3][1] && s[2] == s[..3][2];
    forall i | j + 3 <= i < end ensures s[i] !in "]\n" {
      assert s[i] == inner[i - j];
    }
    assert s[end] == inner[end - j];
    assert s[end..end + 2] == inner[end - j..end - j + 2];
  }

  lemma NoEmbedInside(s: string, j: nat)
    requires |s| >= 3 && s[..3] == "![[" && WikiEmbed(s).None? && NameEnd(s) > 3
    requires j <= ShownEnd(s) && j < |s|
    ensures WikiEmbed(s[j..]).None?
  {
    hide Clear;
    assert s[0..] == s;
    if j > 0 && WikiEmbed(s[j..]).Some? {
      InnerCloses(s, j);
    }
  }

  lemma ClearAlike(s: string, t: string, p: nat, stops: string)
    requires p <= |s| && p <= |t|
    requires var q := Clear(s, p, stops);
      && q <= |t| && (q == |s| ==> q == |t|) && (q < |s| ==> q < |t| && s[q] == t[q])
      && forall i | p <= i < q :: t[i] == s[i]
    ensures Clear(t, p, stops) == Clear(s, p, stops)
  {
    hide Clear;
  }

  /** Where a name and what it shows end depends on nothing that follows. */
  lemma EndsAlike(s: string, t: string)
    requires |s| >= 3 && |t| >= 3
    requires var r := ShownEnd(s);
      && r <= |t| && (r == |s| ==> r == |t|) && (r < |s| ==> r < |t| && s[r] == t[r])
      && forall i | 3 <= i < r :: t[i] == s[i]
    ensures NameEnd(t) == NameEnd(s) && ShownEnd(t) == ShownEnd(s)
  {
    hide Clear;
    var q := NameEnd(s);
    ClearAlike(s, t, 3, "]|\n");
    if q < |s| && s[q] == '|' {
      ClearAlike(s, t, q + 1, "]\n");
    }
  }

  /**
   A text that is alike up to where an opened embed ends, and with it the character that follows, opens
   it no better.
   */
  lemma OpensAlike(s: string, t: string)
    requires |s| >= 3 && s[..3] == "![[" && NameEnd(s) > 3 && WikiEmbed(s).None?
    requires var r := ShownEnd(s);
      var n := if r < |s| then r + 1 else r;
      && n <= |t| && t[..n] == s[..n] && (n < |s| ==> n < |t| && t[n] == s[n]) && (n == |s| ==> |t| == n)
    ensures WikiEmbed(t).None?
  {
    hide NameEnd, ShownEnd;
    var r := ShownEnd(s);
    var n := if r < |s| then r + 1 else r;
    forall i | 0 <= i < n ensures t[i] == s[i] {
      assert t[..n][i] == s[..n][i];
    }
    EndsAlike(s, t);
    TwoBrackets(s, r);
    TwoBrackets(t, r);
  }

  lemma TwoBrackets(s: string, r: nat)
    ensures r + 2 <= |s| ==> (s[r..r + 2] == "]]" <==> s[r] == ']' && s[r + 1] == ']')
  {
    if r + 2 <= |s| {
      assert s[r..r + 2] == [s[r], s[r + 1]];
    }
  }

  /** Where no embed starts, none starts after rewriting. */
  lemma NoneStays(f: Filing, s: string)
    requires s != "" && WikiEmbed(s).None?
    ensures WikiEmbed(WikiRewritten(f, s)).None?
  {
    hide Clear, WikiRewritten;
    if |s| < 3 || s[..3] != "![[" {
      NoneOpens(f, s);
    } else if NameEnd(s) == 3 {
      NoNameOpens(f, s);
    } else {
      hide NameEnd, ShownEnd, WikiEmbed;
      var r := ShownEnd(s);
      var n := if r < |s| then r + 1 else r;
      forall j | 0 <= j < n ensures WikiEmbed(s[j..]).None? {
        NoEmbedInside(s, j);
      }
      CopiedUpTo(f, s, n);
      OpensAlike(s, WikiRewritten(f, s));
    }
  }

  lemma NoNameOpens(f: Filing, s: string)
    requires |s| >= 3 && s[..3] == "![[" && NameEnd(s) == 3
    ensures WikiEmbed(WikiRewritten(f, s)).None?
  {
    hide Clear, WikiRewritten;
    assert s[0] == s[..3][0] && s[1] == s[..3][1] && s[2] == s[..3][2];
    assert s[0..] == s;
    CopiedUpTo(f, s, 3);
    assert WikiRewritten(f, s)[..3] == s[..3];
    ClearAlike(s, WikiRewritten(f, s), 3, "]|\n");
  }

  /** A text that ends in the closing of an embed, or what such a closing leaves. */
  predicate Closed(x: string) {
    x == "" || x == "]" || (|x| >= 2 && x[|x| - 2] == ']' && x[|x| - 1] == ']')
  }

  /** What follows a closed text opens or closes nothing in it. */
  lemma ClosedAlike(x: string, rest: string)
    requires x != "" && Closed(x)
    ensures WikiEmbed(x + rest) == WikiEmbed(x)
  {
    hide NameEnd, ShownEnd;
    var s := x + rest;
    assert |x| >= 3 ==> s[..3] == x[..3];
    assert |s| >= 3 ==> s[0] == s[..3][0];
    if |x| >= 3 && x[..3] == "![[" {
      assert x[2] == x[..3][2] == '[';
      var q, r := NameEnd(x), ShownEnd(x);
      assert r <= |x| - 2;
      EndsAlike(x, s);
      Stretches(x, rest, q, r);
    }
  }

  lemma Stretches(x: string, rest: string, q: nat, r: nat)
    requires 3 <= q <= r <= |x| - 2
    ensures var s := x + rest; s[3..q] == x[3..q] && s[q..r] == x[q..r] && s[r..r + 2] == x[r..r + 2]
  {
  }

  lemma {:induction false} ClosedSplits(f: Filing, x: string, rest: string)
    requires Closed(x)
    ensures WikiRewritten(f, x + rest) == WikiRewritten(f, x) + WikiRewritten(f, rest)
    decreases |x|
  {
    hide WikiEmbed;
    if x == "" {
      assert x + rest == rest;
    } else {
      ClosedAlike(x, rest);
      var e := WikiEmbed(x);
      var n := if e.None? then 1 else e.value.length;
      assert (x + rest)[..n] == x[..n] && (x + rest)[n..] == x[n..] + rest;
      ClosedSplits(f, x[n..], rest);
      var first := if e.None? then [x[0]] else Shown(f, e.value, x[..n]);
      Seqs.Assoc(first, WikiRewritten(f, x[n..]), WikiRewritten(f, rest));
    }
  }

  /** Rewriting leaves the embed of a filed path alone. */
  predicate Stays(f: Filing, filed: string, shown: string) {
    WikiRewritten(f, Written(filed, shown)) == Written(filed, shown)
  }

  /** It does so whatever text is shown. */
  ghost predicate AlwaysStays(f: Filing, filed: string) {
    forall shown | Showable(shown) :: Stays(f, filed, shown)
  }

  /** The embeds of every filed path stay. */
  ghost predicate FiledStay(f: Filing) {
    forall name | Nameable(name) && f.resolve(name).Some? :: AlwaysStays(f, f.resolve(name).value)
  }

  /** An embed stays as the first rewriting left it. */
  lemma EmbedStays(f: Filing, s: string, rest: string)
    requires FiledStay(f) && WikiEmbed(s).Some?
    ensures var shown := Shown(f, WikiEmbed(s).value, s[..WikiEmbed(s).value.length]);
      WikiRewritten(f, shown + rest) == shown + WikiRewritten(f, rest)
  {
    hide WikiEmbed, WikiRewritten, Closed;
    var name, shown := WikiReads(s);
    if f.resolve(name).Some? {
      var filed := f.resolve(name).value;
      assert AlwaysStays(f, filed);
      assert Stays(f, filed, shown);
      assert "![[" + filed + (shown + "]]") == Written(filed, shown);
      WrittenIsClosed(filed, shown);
      ClosedSplits(f, Written(filed, shown), rest);
    } else {
      UnknownStays(f, name, shown, rest);
    }
  }

  lemma WrittenIsClosed(name: string, shown: string)
    ensures Closed(Written(name, shown))
  {
  }

  lemma UnknownStays(f: Filing, name: string, shown: string, rest: string)
    requires Nameable(name) && Showable(shown) && f.resolve(name).None?
    ensures WikiRewritten(f, Written(name, shown) + rest) == Written(name, shown) + WikiRewritten(f, rest)
  {
    hide WikiEmbed;
    var e := Written(name, shown);
    WikiFound(name, shown, rest);
    FoundIsRewritten(f, s => WikiEmbed(s), e, rest, Embed(|e|, name, "![[", shown + "]]", false));
  }

  lemma {:induction false} RewrittenOnce(f: Filing, s: string)
    requires FiledStay(f)
    ensures WikiRewritten(f, WikiRewritten(f, s)) == WikiRewritten(f, s)
    decreases |s|
  {
    hide WikiEmbed, FiledStay, Shown;
    if s != "" {
      var e := WikiEmbed(s);
      if e.None? {
        NoneStays(f, s);
        RewrittenOnce(f, s[1..]);
        var u := WikiRewritten(f, s[1..]);
        assert WikiRewritten(f, s) == [s[0]] + u;
        assert ([s[0]] + u)[1..] == u;
      } else {
        var rest := s[e.value.length..];
        RewrittenOnce(f, rest);
        EmbedStays(f, s, WikiRewritten(f, rest));
      }
    }
  }

  // A shown text may hold the opening of an embed, so what matters is whether `![[` and the filed
  // path leave one open that runs on to the closing brackets.

  /** Reading a text and a bar behind it ends inside an embed. */
  predicate LeavesOpen(x: string)
    decreases |x|
  {
    if x == "" then false
    else
      var e := WikiEmbed(x + "|]]");
      if e.None? then LeavesOpen(x[1..])
      else if e.value.length <= |x| then LeavesOpen(x[e.value.length..])
      else true
  }

  /** What is shown decides neither whether an embed opens nor what it names. */
  lemma ShownAlike(x: string, shown: string) returns (e: Option<Embed>, mid: string)
    requires x != "" && shown != "" && Showable(shown)
    ensures e == WikiEmbed(x + "|]]") && (e.None? ==> WikiEmbed(x + shown + "]]").None?)
    ensures e.Some? && e.value.length <= |x| ==> WikiEmbed(x + shown + "]]") == e
    ensures e.Some? && e.value.length > |x| ==>
      var o := WikiEmbed(x + shown + "]]");
      && e.value == Embed(|x| + 3, e.value.target, "![[", mid + "|]]", false)
      && o == Some(Embed(|x| + |shown| + 2, e.value.target, "![[", mid + shown + "]]", false))
  {
    hide NameEnd, ShownEnd;
    var s, t := x + "|]]", x + shown + "]]";
    e, mid := WikiEmbed(s), "";
    if |x| < 3 {
      assert s[..3][|x|] == '|' && t[..3][|x|] == shown[0] == '|';
    } else {
      SamePrefix(x, shown);
      if x[..3] == "![[" {
        var q, r := NameEnd(s), ShownEnd(s);
        EndsWithin(x, shown);
        if r < |x| {
          EndedWithin(x, shown, q, r);
        } else {
          ShownRuns(x, shown, q, r, ShownEnd(t));
          mid := x[q..];
        }
      }
    }
  }

  lemma SamePrefix(x: string, shown: string)
    requires |x| >= 3
    ensures (x + "|]]")[..3] == x[..3] && (x + shown + "]]")[..3] == x[..3]
  {
  }

  lemma EndsWithin(x: string, shown: string)
    requires |x| >= 3 && shown != "" && Showable(shown)
    ensures var s, t := x + "|]]", x + shown + "]]";
      && NameEnd(t) == NameEnd(s) <= |x|
      && (ShownEnd(s) < |x| ==> ShownEnd(t) == ShownEnd(s))
      && (ShownEnd(s) >= |x| ==> ShownEnd(s) == |x| + 1 && ShownEnd(t) == |x| + |shown|)
  {
    hide Clear;
    var s, t := x + "|]]", x + shown + "]]";
    assert s[|x|] == '|' && s[|x| + 1] == ']' && t[|x|] == shown[0] == '|';
    forall i | |x| <= i < |x| + |shown| ensures t[i] !in "]\n" {
      assert t[i] == shown[i - |x|] && shown[i - |x|] in shown;
    }
    assert t[|x| + |shown|] == ']';
    var q := NameEnd(s);
    ClearAlike(s, t, 3, "]|\n");
    if ShownEnd(s) < |x| {
      EndsAlike(s, t);
    } else {
      assert forall i | q < i < |x| :: t[i] == s[i];
      ClearTo(s, q + 1, |x| + 1, "]\n");
      ClearTo(t, q + 1, |x| + |shown|, "]\n");
    }
  }

  lemma EndedWithin(x: string, shown: string, q: nat, r: nat)
    requires 3 <= q <= r < |x| && shown != "" && shown[0] == '|'
    ensures var s, t := x + "|]]", x + shown + "]]";
      && s[3..q] == t[3..q] && s[q..r] == t[q..r] && (s[r..r + 2] == "]]" <==> t[r..r + 2] == "]]")
      && (s[r..r + 2] == "]]" ==> r + 2 <= |x|)
  {
    var s, t := x + "|]]", x + shown + "]]";
    assert s[r + 1] == t[r + 1];
    TwoBrackets(s, r);
    TwoBrackets(t, r);
  }

  lemma ShownRuns(x: string, shown: string, q: nat, r: nat, u: nat)
    requires 3 <= q <= |x| <= r && |shown| > 0
    requires r == |x| + 1 && u == |x| + |shown|
    ensures var s, t := x + "|]]", x + shown + "]]";
      && s[r..r + 2] == "]]" && t[u..u + 2] == "]]" && s[3..q] == x[3..q] == t[3..q]
      && s[q..r] == x[q..] + "|" && t[q..u] == x[q..] + shown
      && s[q..r] + "]]" == x[q..] + "|]]" && t[q..u] + "]]" == x[q..] + shown + "]]"
  {
  }

  lemma BarStays(f: Filing)
    ensures WikiRewritten(f, "|]]") == "|]]" && WikiRewritten(f, "") == ""
  {
    assert "|]]"[1..] == "]]" && "]]"[1..] == "]" && "]"[1..] == "";
    assert WikiRewritten(f, "]") == "]";
    assert WikiRewritten(f, "]]") == "]]";
  }

  /** What is read before the shown text comes out the same whatever is shown. */
  lemma {:induction false} ReadAlike(f: Filing, x: string, shown: string) returns (read: string)
    requires shown != "" && Showable(shown)
    ensures WikiRewritten(f, x + "|]]") == read + "|]]"
    ensures LeavesOpen(x) ==> WikiRewritten(f, x + shown + "]]") == read + shown + "]]"
    ensures !LeavesOpen(x) ==> WikiRewritten(f, x + shown + "]]") == read + WikiRewritten(f, shown + "]]")
    decreases |x|
  {
    hide WikiEmbed, Showable;
    BarStays(f);
    if x == "" {
      read := "";
      assert x + "|]]" == "|]]" && x + shown + "]]" == shown + "]]";
    } else {
      var e, mid := ShownAlike(x, shown);
      if e.Some? && e.value.length > |x| {
        read := if f.resolve(e.value.target).None? then x else "![[" + f.resolve(e.value.target).value + mid;
        ReadWhole(f, x, shown, mid, e.value.target, read);
      } else {
        var n := if e.None? then 1 else e.value.length;
        CutBefore(x, shown, n);
        var behind := ReadAlike(f, x[n..], shown);
        var first := if e.None? then [x[0]] else Shown(f, e.value, x[..n]);
        read := first + behind;
        Seqs.Assoc(first, behind, "|]]");
        Seqs.Assoc(first, behind, shown + "]]");
        Seqs.Assoc(behind, shown, "]]");
        Seqs.Assoc(read, shown, "]]");
        Seqs.Assoc(first, behind, WikiRewritten(f, shown + "]]"));
      }
    }
  }

  lemma CutBefore(x: string, shown: string, n: nat)
    requires n <= |x|
    ensures var s, t := x + "|]]", x + shown + "]]";
      && s[..n] == t[..n] == x[..n] && s[n..] == x[n..] + "|]]" && t[n..] == x[n..] + shown + "]]"
      && (n > 0 ==> s[0] == t[0] == x[0])
  {
  }

  lemma ReadWhole(f: Filing, x: string, shown: string, mid: string, target: string, read: string)
    requires WikiEmbed(x + "|]]") == Some(Embed(|x| + 3, target, "![[", mid + "|]]", false))
    requires WikiEmbed(x + shown + "]]") == Some(Embed(|x| + |shown| + 2, target, "![[", mid + shown + "]]", false))
    requires read == if f.resolve(target).None? then x else "![[" + f.resolve(target).value + mid
    ensures WikiRewritten(f, x + "|]]") == read + "|]]" && WikiRewritten(f, x + shown + "]]") == read + shown + "]]"
  {
    hide WikiEmbed;
    OnlyIsRewritten(f, x + "|]]", target, mid + "|]]");
    OnlyIsRewritten(f, x + shown + "]]", target, mid + shown + "]]");
    if f.resolve(target).Some? {
      var opening := "![[" + f.resolve(target).value;
      Seqs.Assoc(opening, mid, "|]]");
      Seqs.Assoc(opening, mid, shown + "]]");
      Seqs.Assoc(mid, shown, "]]");
      Seqs.Assoc(opening + mid, shown, "]]");
    }
  }

  lemma OnlyIsRewritten(f: Filing, s: string, target: string, tail: string)
    requires s != "" && WikiEmbed(s) == Some(Embed(|s|, target, "![[", tail, false))
    ensures WikiRewritten(f, s) == if f.resolve(target).None? then s else "![[" + f.resolve(target).value + tail
  {
    hide WikiEmbed;
    assert s + "" == s;
    BarStays(f);
    FoundIsRewritten(f, s => WikiEmbed(s), s, "", Embed(|s|, target, "![[", tail, false));
  }

  lemma SameHead(a: string, b: string, c: string)
    requires a + c == b + c
    ensures a == b
  {
    assert (a + c)[..|a|] == a && (b + c)[..|b|] == b;
  }

  lemma NameableLeavesOpen(name: string)
    requires Nameable(name)
    ensures LeavesOpen("![[" + name)
  {
    hide WikiEmbed;
    var x := "![[" + name;
    WikiFound(name, "|", "");
    assert x + "|]]" == Written(name, "|") + "";
  }

  /** A path behind which no embed is left open does not keep an embed that stands in the shown text. */
  lemma InnerIsRewritten(f: Filing, name: string, filed: string)
    requires Nameable(name) && f.resolve(name) == Some(filed) && !LeavesOpen("![[" + filed)
    ensures !(Stays(f, filed, "|") && Stays(f, filed, "|![[" + name))
  {
    hide WikiRewritten, LeavesOpen, Nameable;
    var x, shown := "![[" + filed, "|![[" + name;
    InnerIsShowable(name);
    var read := ReadAlike(f, x, shown);
    BarCopied(f, Written(name, ""));
    AloneIsRewritten(f, name);
    if Stays(f, filed, "|") && Stays(f, filed, shown) {
      assert Written(filed, "|") == x + "|]]";
      SameHead(read, x, "|]]");
      assert shown + "]]" == "|" + Written(name, "");
      assert Written(filed, shown) == x + shown + "]]" == x + ("|" + Written(name, ""));
      SameTail(x + "|![[", filed, name, "]]");
      assert x + ("|" + Written(filed, "")) == x + "|![[" + filed + "]]";
      assert x + ("|" + Written(name, "")) == x + "|![[" + name + "]]";
      assert filed == name;
      NameableLeavesOpen(name);
    }
  }

  lemma SameTail(a: string, b: string, c: string, d: string)
    ensures a + b + d == a + c + d ==> b == c
  {
    if b != c {
      MiddleTells(a, b, c, d);
    }
  }

  lemma InnerIsShowable(name: string)
    requires Nameable(name)
    ensures Showable("|![[" + name)
  {
    forall c | c in "|![[" + name ensures c !in "]\n" {
      if c !in "|![[" {
        assert c in name;
      }
    }
  }

  lemma BarCopied(f: Filing, rest: string)
    ensures WikiRewritten(f, "|" + rest) == "|" + WikiRewritten(f, rest)
  {
    assert ("|" + rest)[1..] == rest && ("|" + rest)[0] == '|';
    assert |"|" + rest| >= 3 ==> ("|" + rest)[..3][0] == '|';
  }

  lemma AloneIsRewritten(f: Filing, name: string)
    requires Nameable(name) && f.resolve(name).Some?
    ensures WikiRewritten(f, Written(name, "")) == Written(f.resolve(name).value, "")
  {
    ShownIsRewritten(f, name, "");
  }

  lemma ShownIsRewritten(f: Filing, name: string, shown: string)
    requires Nameable(name) && Showable(shown) && f.resolve(name).Some?
    ensures WikiRewritten(f, Written(name, shown)) == Written(f.resolve(name).value, shown)
  {
    hide WikiEmbed, WikiRewritten, Showable;
    BarStays(f);
    var filed := f.resolve(name).value;
    assert Written(name, shown) + "" == Written(name, shown) && Written(filed, shown) + "" == Written(filed, shown);
    EmbedIsRewritten(f, name, shown, "");
  }

  lemma MiddleTells(a: string, b: string, c: string, d: string)
    requires b != c
    ensures a + b + d != a + c + d
  {
    assert (a + b + d)[|a|..|a| + |b|] == b && (a + c + d)[|a|..|a| + |c|] == c;
    assert |b| != |c| ==> |a + b + d| != |a + c + d|;
  }

  /** Three embeds of a filed path stay: alone, with nothing shown, and showing the embed it was filed for. */
  predicate StaysShown(f: Filing, name: string, filed: string) {
    Stays(f, filed, "") && Stays(f, filed, "|") && Stays(f, filed, "|![[" + name)
  }

  lemma ThreeEmbedsDecide(f: Filing, name: string, filed: string)
    requires Nameable(name) && f.resolve(name) == Some(filed)
    ensures StaysShown(f, name, filed) <==> AlwaysStays(f, filed)
  {
    hide WikiRewritten, LeavesOpen, Nameable;
    InnerIsShowable(name);
    if AlwaysStays(f, filed) {
      assert Showable("") && Showable("|");
    }
    if StaysShown(f, name, filed) {
      if !LeavesOpen("![[" + filed) {
        InnerIsRewritten(f, name, filed);
      }
      forall shown | Showable(shown) ensures Stays(f, filed, shown) {
        if shown != "" {
          OpenStays(f, filed, shown);
        }
      }
    }
  }

  lemma OpenStays(f: Filing, filed: string, shown: string)
    requires shown != "" && Showable(shown) && LeavesOpen("![[" + filed) && Stays(f, filed, "|")
    ensures Stays(f, filed, shown)
  {
    hide WikiRewritten, LeavesOpen, Showable;
    var x := "![[" + filed;
    var read := ReadAlike(f, x, shown);
    assert Written(filed, "|") == x + "|]]";
    SameHead(read, x, "|]]");
  }

  /**
   Rewriting the wiki embeds of a text a second time changes nothing, for any text, if and only if
   for every artifact the three embeds of its filed path stay.
   */
  lemma RefilingRewritesOnceExactly(f: Filing)
    ensures (forall s: string :: WikiRewritten(f, WikiRewritten(f, s)) == WikiRewritten(f, s)) <==>
      (forall name | Nameable(name) && f.resolve(name).Some? :: StaysShown(f, name, f.resolve(name).value))
  {
    hide WikiRewritten, Nameable, StaysShown, AlwaysStays;
    if forall name | Nameable(name) && f.resolve(name).Some? :: StaysShown(f, name, f.resolve(name).value) {
      forall name | Nameable(name) && f.resolve(name).Some? ensures AlwaysStays(f, f.resolve(name).value) {
        ThreeEmbedsDecide(f, name, f.resolve(name).value);
      }
      forall s: string ensures WikiRewritten(f, WikiRewritten(f, s)) == WikiRewritten(f, s) {
        RewrittenOnce(f, s);
      }
    }
    if forall s: string :: WikiRewritten(f, WikiRewritten(f, s)) == WikiRewritten(f, s) {
      forall name | Nameable(name) && f.resolve(name).Some? ensures StaysShown(f, name, f.resolve(name).value) {
        OnceIsStaying(f, name);
        ThreeEmbedsDecide(f, name, f.resolve(name).value);
      }
    }
  }

  lemma OnceIsStaying(f: Filing, name: string)
    requires Nameable(name) && f.resolve(name).Some?
    requires forall s: string :: WikiRewritten(f, WikiRewritten(f, s)) == WikiRewritten(f, s)
    ensures AlwaysStays(f, f.resolve(name).value)
  {
    hide WikiRewritten, Nameable, Showable;
    forall shown | Showable(shown) ensures Stays(f, f.resolve(name).value, shown) {
      ShownIsRewritten(f, name, shown);
      assert WikiRewritten(f, WikiRewritten(f, Written(name, shown))) == WikiRewritten(f, Written(name, shown));
    }
  }

  /** For a path that can stand in an embed they do exactly if it names no artifact, or only what it is itself. */
  lemma NameableStaysExactly(f: Filing, name: string, filed: string)
    requires Nameable(name) && f.resolve(name) == Some(filed) && Nameable(filed)
    ensures StaysShown(f, name, filed) <==> f.resolve(filed) in {None, Some(filed)}
  {
    hide WikiRewritten, Nameable, Showable;
    ThreeEmbedsDecide(f, name, filed);
    if f.resolve(filed).Some? {
      var other := f.resolve(filed).value;
      AloneIsRewritten(f, filed);
      SameTail("![[", filed, other, "]]");
      assert Written(filed, "") == "![[" + filed + "]]" && Written(other, "") == "![[" + other + "]]";
      forall shown | Showable(shown) && other == filed ensures Stays(f, filed, shown) {
        ShownIsRewritten(f, filed, shown);
      }
    } else {
      forall shown | Showable(shown) ensures Stays(f, filed, shown) {
        BarStays(f);
        UnknownStays(f, filed, shown, "");
        assert Written(filed, shown) + "" == Written(filed, shown);
      }
    }
  }

  /** A folder may have a bracket in its name. Where a path has one that closes nothing, they do not all stay. */
  lemma BracketDefeatsRefiling(f: Filing, name: string, filed: string)
    requires Nameable(name) && f.resolve(name) == Some(filed)
    requires '!' !in filed && ']' in filed && filed[|filed| - 1] != ']'
    requires forall i | 0 <= i < |filed| - 1 && filed[i] == ']' :: filed[i + 1] != ']'
    ensures !StaysShown(f, name, filed)
  {
    var x := "![[" + filed;
    assert WikiEmbed(x + "|]]").None? by {
      ClosesNothing(filed);
    }
    assert forall i | 1 <= i < |x| :: x[i] != '!';
    LeavesNoneOpen(x[1..]);
    InnerIsRewritten(f, name, filed);
  }

  lemma {:induction false} LeavesNoneOpen(x: string)
    requires '!' !in x
    ensures !LeavesOpen(x)
  {
    if x != "" {
      var s := x + "|]]";
      assert |s| >= 3 && s[..3][0] == s[0] == x[0] && x[0] in x;
      LeavesNoneOpen(x[1..]);
    }
  }

  lemma ClosesNothing(filed: string)
    requires ']' in filed && filed[|filed| - 1] != ']'
    requires forall i | 0 <= i < |filed| - 1 && filed[i] == ']' :: filed[i + 1] != ']'
    ensures WikiEmbed("![[" + filed + "|]]").None?
  {
    hide Clear;
    var s := "![[" + filed + "|]]";
    var i :| 0 <= i < |filed| && filed[i] == ']';
    assert s[3 + i] == ']';
    var r := ShownEnd(s);
    assert r <= 3 + i;
    TwoBrackets(s, r);
    assert s[r] == filed[r - 3] && s[r + 1] == filed[r - 2];
  }

  // ----- What the classification means -----

  lemma {:induction false} BlanksOver(k: nat, rest: string)
    requires rest != "" && rest[0] != ' ' && rest[0] != '\t'
    ensures Blanks(Indent(k) + rest, 0) == k
  {
    BlanksFrom(k, rest, 0);
  }

  function Indent(k: nat): (s: string)
    ensures |s| == k && forall i | 0 <= i < k :: s[i] == ' '
  {
    if k == 0 then "" else [' '] + Indent(k - 1)
  }

  lemma {:induction false} BlanksFrom(k: nat, rest: string, p: nat)
    requires p <= k && rest != "" && rest[0] != ' ' && rest[0] != '\t'
    ensures Blanks(Indent(k) + rest, p) == k
    decreases k - p
  {
    var s := Indent(k) + rest;
    if p < k {
      assert s[p] == ' ';
      BlanksFrom(k, rest, p + 1);
    } else {
      assert s[k] == rest[0];
    }
  }

  lemma {:induction false} RunOver(mark: char, n: nat, before: string, info: string, p: nat)
    requires p <= n && (info == "" || info[0] != mark)
    ensures RunLength(before + (Marks(mark, n) + info), |before| + p, mark) == n - p
    decreases n - p
  {
    var s := before + (Marks(mark, n) + info);
    if p < n {
      assert s[|before| + p] == Marks(mark, n)[p];
      RunOver(mark, n, before, info, p + 1);
    } else if info != "" {
      assert s[|before| + n] == info[0];
    }
  }

  function Marks(mark: char, n: nat): (s: string)
    ensures |s| == n && forall i | 0 <= i < n :: s[i] == mark
  {
    if n == 0 then "" else [mark] + Marks(mark, n - 1)
  }

  /**
   Section 4.5: an indented run of at least three marks, and what follows it, is a fence with that info
   string; a shorter run is none.
   */
  lemma FenceIsRecognised(k: nat, mark: char, n: nat, info: string)
    requires (mark == '`' || mark == '~') && n > 0 && (info == "" || info[0] != mark)
    ensures MatchFence(Indent(k) + (Marks(mark, n) + info)) == if n >= 3 then Some(Opening(mark, n, info)) else None
  {
    hide Blanks, RunLength, Quotes, Markers, Marks, Indent, MatchFence;
    var rest := Marks(mark, n) + info;
    var s := Indent(k) + rest;
    assert rest[0] == mark && s[k] == mark;
    BlanksOver(k, rest);
    NoMarkers(s, k);
    RunOver(mark, n, Indent(k), info, 0);
    Behind(Indent(k), Marks(mark, n), info);
    FenceAt(s, k, mark, n, info);
  }

  lemma FenceAt(s: string, k: nat, mark: char, n: nat, info: string)
    requires k + n <= |s| && k < |s| && Blanks(s, 0) == k && Quotes(s, k) == k && Markers(s, k) == k
    requires s[k] == mark && (mark == '`' || mark == '~') && RunLength(s, k, mark) == n && s[k + n..] == info
    ensures MatchFence(s) == if n >= 3 then Some(Opening(mark, n, info)) else None
  {
    hide Blanks, RunLength, Quotes, Markers;
  }

  lemma NoMarkers(s: string, k: nat)
    requires k < |s| && (s[k] == '`' || s[k] == '~')
    ensures Quotes(s, k) == k && Markers(s, k) == k
  {
    assert Digits(s, k) == 0 && MarkerEnd(s, k) == None;
  }

  lemma Behind(a: string, b: string, c: string)
    ensures (a + (b + c))[|a| + |b|..] == c
  {
  }

  // ----- Indented lines -----

  /** The column after some spaces and tabs; tab stops are four apart (section 2.2). */
  function Columns(lead: string, column: nat): nat {
    if lead == "" then column
    else Columns(lead[1..], if lead[0] == '\t' then column + 4 - column % 4 else column + 1)
  }

  lemma {:induction false} SpacesOver(n: nat, lead: string, rest: string, p: nat)
    requires |lead| == n && (forall c | c in lead :: c == ' ') && rest != "" && rest[0] != ' ' && p <= n
    ensures Spaces(lead + rest, p) == n
    decreases n - p
  {
    if p < n {
      assert (lead + rest)[p] == lead[p] && lead[p] in lead;
      SpacesOver(n, lead, rest, p + 1);
    } else {
      assert (lead + rest)[n] == rest[0];
    }
  }

  lemma {:induction false} ExpandedLead(lead: string, rest: string, column: nat) returns (spaces: string)
    requires forall c | c in lead :: c == ' ' || c == '\t'
    ensures |spaces| == Columns(lead, column) - column && forall c | c in spaces :: c == ' '
    ensures Expanded(lead + rest, column) == spaces + Expanded(rest, Columns(lead, column))
    decreases |lead|
  {
    if lead == "" {
      spaces := "";
      assert lead + rest == rest && spaces + Expanded(rest, column) == Expanded(rest, column);
    } else {
      var width := if lead[0] == '\t' then 4 - column % 4 else 1;
      assert lead[0] in lead && forall c | c in lead[1..] :: c in lead;
      var more := ExpandedLead(lead[1..], rest, column + width);
      var first := if lead[0] == '\t' then seq(width, i => ' ') else " ";
      spaces := first + more;
      assert (lead + rest)[0] == lead[0] && (lead + rest)[1..] == lead[1..] + rest;
      Seqs.Assoc(first, more, Expanded(rest, Columns(lead, column)));
    }
  }

  lemma ExpandedFirst(rest: string, column: nat)
    requires rest != "" && rest[0] != '\t'
    ensures Expanded(rest, column) != "" && Expanded(rest, column)[0] == rest[0]
  {
  }

  /** The indentation of a line is the column its spaces and tabs lead to. */
  lemma IndentIsColumns(lead: string, rest: string)
    requires (forall c | c in lead :: c == ' ' || c == '\t') && rest != "" && rest[0] != ' ' && rest[0] != '\t'
    ensures Spaces(Expanded(lead + rest, 0), 0) == Columns(lead, 0)
  {
    var spaces := ExpandedLead(lead, rest, 0);
    ExpandedFirst(rest, Columns(lead, 0));
    SpacesOver(|spaces|, spaces, Expanded(rest, Columns(lead, 0)), 0);
  }

  lemma {:induction false} TrimmedBehind(lead: string, rest: string)
    requires rest != "" && rest[0] != '\r' && rest[0] != '\n'
    ensures Lines.TrimEnd(lead + rest) == lead + Lines.TrimEnd(rest) && Lines.TrimEnd(rest) != ""
      && Lines.TrimEnd(rest)[0] == rest[0]
    decreases |rest|
  {
    var c := rest[|rest| - 1];
    assert (lead + rest)[|lead + rest| - 1] == c;
    if c == '\r' || c == '\n' {
      assert |rest| > 1 && (lead + rest)[..|lead + rest| - 1] == lead + rest[..|rest| - 1];
      TrimmedBehind(lead, rest[..|rest| - 1]);
    }
  }

  /** Closing items leaves the innermost one that the line is indented to. */
  lemma {:induction false} PoppedIsInnermost(items: seq<nat>, indent: nat)
    requires Increasing(items)
    ensures forall c | c in items && c <= indent :: c <= Column(Popped(items, indent))
    ensures Popped(items, indent) != [] ==>
      Column(Popped(items, indent)) in items && Column(Popped(items, indent)) <= indent
  {
    if items != [] {
      var last := items[|items| - 1];
      assert items == items[..|items| - 1] + [last];
      if indent < last {
        PoppedIsInnermost(items[..|items| - 1], indent);
      } else {
        forall c | c in items ensures c <= last {
          var k :| 0 <= k < |items| && items[k] == c;
        }
      }
    }
  }

  /**
   Sections 2.2 and 4.4: outside fences, a line indented by any spaces and tabs, whose text opens no
   fence, is code exactly if it goes on with no paragraph, and stands at least four columns past the
   margin and past the content of every open list item it is indented to. Otherwise it stays prose.
   */
  lemma IndentedLineIsCodeExactly(s: Scan, lead: string, rest: string)
    requires s.fence.None? && Increasing(s.items) && (forall c | c in lead :: c == ' ' || c == '\t')
    requires rest != "" && !Naming.White(rest[0]) && !Opens(Lines.TrimEnd(lead + rest))
    ensures var indent := Columns(lead, 0);
      var code := (s.blank || s.code) && indent >= 4 && forall c | c in s.items && c <= indent :: indent >= c + 4;
      && Step(s, lead + rest).1 == (if code then Flushed(s.prose) + [Piece(lead + rest, true)] else [])
      && Step(s, lead + rest).0.prose == (if code then "" else s.prose + (lead + rest))
      && (code ==> forall c | c in s.items && c <= indent :: c in Step(s, lead + rest).0.items)
  {
    hide MatchMarker, MatchFence, Expanded, Opens, Lines.TrimEnd, Flushed, Popped, Spaces, Columns, MarkerWidth, Column;
    var line, indent := lead + rest, Columns(lead, 0);
    TrimmedBehind(lead, rest);
    var stripped := Lines.TrimEnd(line);
    assert stripped == lead + Lines.TrimEnd(rest);
    IndentIsColumns(lead, Lines.TrimEnd(rest));
    assert stripped[|lead|] == rest[0] && stripped[|lead|] in stripped;
    PoppedIsInnermost(s.items, indent);
    PoppedFits(s.items, indent);
    NoItems(s.items, indent);
    InnermostKept(s.items, indent);
  }

  lemma NoItems(items: seq<nat>, indent: nat)
    ensures Popped(items, indent) == [] ==> Column(Popped(items, indent)) == 0
  {
  }

  /** The items that stay open are those the line is indented to. */
  lemma {:induction false} InnermostKept(items: seq<nat>, indent: nat)
    requires Increasing(items)
    ensures forall c | c in items && c <= indent :: c in Popped(items, indent)
  {
    if items != [] && indent < items[|items| - 1] {
      InnermostKept(items[..|items| - 1], indent);
      assert items == items[..|items| - 1] + [items[|items| - 1]];
    }
  }

  // ----- List markers -----

  /** A bullet, or one to nine digits and a point or parenthesis (section 5.2). */
  predicate IsMarker(m: string) {
    || (|m| == 1 && m[0] in "-*+")
    || (2 <= |m| <= 10 && m[|m| - 1] in ".)" && forall i | 0 <= i < |m| - 1 :: '0' <= m[i] <= '9')
  }

  lemma {:induction false} DigitsOver(before: string, m: string, rest: string, p: nat)
    requires m != "" && p < |m| && m[|m| - 1] in ".)" && forall i | 0 <= i < |m| - 1 :: '0' <= m[i] <= '9'
    ensures Digits(before + (m + rest), |before| + p) == |m| - 1 - p
    decreases |m| - p
  {
    assert (before + (m + rest))[|before| + p] == m[p];
    if p < |m| - 1 {
      DigitsOver(before, m, rest, p + 1);
    }
  }

  lemma MarkerEndOver(before: string, m: string, rest: string)
    requires IsMarker(m)
    ensures MarkerEnd(before + (m + rest), |before|) == Some(|before| + |m|)
  {
    var s := before + (m + rest);
    assert s[|before|] == m[0] && s[|before| + |m| - 1] == m[|m| - 1];
    if |m| > 1 {
      DigitsOver(before, m, rest, 0);
    } else {
      assert Digits(s, |before|) == 0;
    }
  }

  /**
   A list item's content stands as many columns behind its marker as there are spaces, if these are one
   to four, and one column behind it otherwise.
   */
  lemma ContentColumn(k: nat, m: string, n: nat, rest: string)
    requires IsMarker(m) && (rest == "" || rest[0] != ' ') && (n == 0 ==> rest == "")
    ensures var read := MatchMarker(Indent(k) + (m + (Indent(n) + rest)));
      read.Some? && MarkerWidth(read.value) == k + |m| + if 1 <= n <= 4 then n else 1
  {
    hide MarkerEnd, Spaces, Indent, IsMarker, MatchMarker;
    var before, behind := Indent(k), Indent(n) + rest;
    var s := before + (m + behind);
    MarkerEndOver(before, m, behind);
    MarkerFirst(m, behind);
    SpacesBefore(k, m + behind);
    SpacesBehind(before + m, n, rest);
    Seqs.Assoc(before, m, behind);
    MarkerRead(s, k, k + |m|, n);
  }

  lemma MarkerFirst(m: string, rest: string)
    requires IsMarker(m)
    ensures m != "" && (m + rest)[0] == m[0] != ' '
  {
  }

  lemma MarkerRead(s: string, start: nat, end: nat, n: nat)
    requires start <= |s| && end <= |s| && Spaces(s, 0) == start && MarkerEnd(s, start) == Some(end)
    requires Spaces(s, end) == end + n && (n > 0 || end == |s|)
    ensures MatchMarker(s) == Some(Marker(end, n))
  {
    hide MarkerEnd, Spaces;
  }

  lemma SpacesBefore(k: nat, rest: string)
    requires rest != "" && rest[0] != ' '
    ensures Spaces(Indent(k) + rest, 0) == k
  {
    SpacesOver(k, Indent(k), rest, 0);
  }

  lemma {:induction false} SpacesFrom(before: string, n: nat, rest: string, p: nat)
    requires p <= n && (rest == "" || rest[0] != ' ')
    ensures Spaces(before + (Indent(n) + rest), |before| + p) == |before| + n
    decreases n - p
  {
    var s := before + (Indent(n) + rest);
    if p < n {
      assert s[|before| + p] == Indent(n)[p];
      SpacesFrom(before, n, rest, p + 1);
    } else if rest != "" {
      assert s[|before| + n] == rest[0];
    }
  }

  lemma SpacesBehind(before: string, n: nat, rest: string)
    requires rest == "" || rest[0] != ' '
    ensures Spaces(before + (Indent(n) + rest), |before|) == |before| + n
  {
    SpacesFrom(before, n, rest, 0);
  }
}
