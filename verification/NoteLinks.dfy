/** Wiki links in a note body and their replacement, one pattern after another. */
module NoteLinks {
  import Seqs

  /** `[[path without .md]]` */
  function Link(path: string): string {
    "[[" + WithoutMd(path) + "]]"
  }

  function WithoutMd(s: string): string {
    if |s| >= 3 && s[|s| - 3..] == ".md" then s[..|s| - 3] else s
  }

  /** The brackets of a link stand at its two ends only. */
  ghost predicate Single(path: string) {
    var l := Link(path);
    && (forall i | 1 <= i < |l| - 1 :: !(l[i] == '[' && l[i + 1] == '['))
    && (forall i | 0 <= i < |l| - 2 :: !(l[i] == ']' && l[i + 1] == ']'))
  }

  ghost predicate At(s: string, i: nat, p: string) {
    i + |p| <= |s| && s[i..i + |p|] == p
  }

  ghost predicate Occurs(s: string, p: string) {
    exists i: nat :: At(s, i, p)
  }

  /** `s.replace(p, q)`: leftmost occurrences, none overlapping. */
  function Replace(s: string, p: string, q: string): string
    requires p != []
    decreases |s|
  {
    if |s| < |p| then s
    else if s[..|p|] == p then q + Replace(s[|p|..], p, q)
    else [s[0]] + Replace(s[1..], p, q)
  }

  /** Stretches of text, with the same text between any two. */
  function Joined(cuts: seq<string>, between: string): string
    requires cuts != []
  {
    if |cuts| == 1 then cuts[0] else cuts[0] + (between + Joined(cuts[1..], between))
  }

  /** Between the stretches stand the leftmost matches, and there is none behind them. */
  ghost predicate CutAt(cuts: seq<string>, p: string)
    requires cuts != []
  {
    && (forall i, k: nat | 0 <= i < |cuts| - 1 && k < |cuts[i]| :: !At(cuts[i] + p, k, p))
    && !Occurs(cuts[|cuts| - 1], p)
  }

  lemma NotAtFront(s: string, p: string)
    requires !At(s, 0, p)
    ensures |s| < |p| || s[..|p|] != p
  {
    assert |s| >= |p| ==> s[0..0 + |p|] == s[..|p|];
  }

  lemma {:induction false} NothingReplaced(s: string, p: string, q: string)
    requires p != [] && !Occurs(s, p)
    ensures Replace(s, p, q) == s
    decreases |s|
  {
    assert !At(s, 0, p);
    NotAtFront(s, p);
    if |s| >= |p| {
      assert s == [s[0]] + s[1..];
      if Occurs(s[1..], p) {
        OccursBehind([s[0]], s[1..], p);
      }
      NothingReplaced(s[1..], p, q);
    }
  }

  lemma {:induction false} FirstReplaced(a: string, rest: string, p: string, q: string)
    requires p != [] && forall k: nat | k < |a| :: !At(a + p, k, p)
    ensures Replace(a + (p + rest), p, q) == a + (q + Replace(rest, p, q))
    decreases |a|
  {
    var s := a + (p + rest);
    if a == [] {
      assert s[..|p|] == p && s[|p|..] == rest;
    } else {
      assert !At(a + p, 0, p);
      NotAtFront(a + p, p);
      assert s[..|p|] == (a + p)[..|p|] && s[1..] == a[1..] + (p + rest);
      forall k: nat | k < |a[1..]| ensures !At(a[1..] + p, k, p) {
        assert a + p == [a[0]] + (a[1..] + p);
        assert !At(a + p, k + 1, p);
        assert k + |p| <= |a[1..] + p| ==> (a + p)[k + 1..k + 1 + |p|] == (a[1..] + p)[k..k + |p|];
      }
      FirstReplaced(a[1..], rest, p, q);
      assert a + (q + Replace(rest, p, q)) == [a[0]] + (a[1..] + (q + Replace(rest, p, q)));
    }
  }

  /** A text cut at its leftmost matches is replaced at exactly these cuts. */
  lemma {:induction false} ReplacedAtCuts(cuts: seq<string>, p: string, q: string)
    requires p != [] && cuts != [] && CutAt(cuts, p)
    ensures Replace(Joined(cuts, p), p, q) == Joined(cuts, q)
    decreases |cuts|
  {
    if |cuts| == 1 {
      NothingReplaced(cuts[0], p, q);
    } else {
      var rest := cuts[1..];
      forall i, k: nat | 0 <= i < |rest| - 1 && k < |rest[i]| ensures !At(rest[i] + p, k, p) {
        assert rest[i] == cuts[i + 1];
      }
      ReplacedAtCuts(rest, p, q);
      FirstReplaced(cuts[0], Joined(rest, p), p, q);
    }
  }

  lemma CutBefore(s: string, n: nat, p: string)
    requires At(s, n, p) && forall k: nat | k < n :: !At(s, k, p)
    ensures s[..n] + p == s[..n + |p|] && forall k: nat | k < n :: !At(s[..n] + p, k, p)
  {
    assert s[..n] + p == s[..n + |p|] by {
      assert s[n..n + |p|] == p;
    }
    forall k: nat | k < n ensures !At(s[..n] + p, k, p) {
      assert !At(s, k, p);
      assert s[..n + |p|][k..k + |p|] == s[k..k + |p|];
    }
  }

  lemma CutInFront(a: string, rest: seq<string>, p: string)
    requires rest != [] && CutAt(rest, p) && forall k: nat | k < |a| :: !At(a + p, k, p)
    ensures CutAt([a] + rest, p) && Joined([a] + rest, p) == a + (p + Joined(rest, p))
  {
    var cuts := [a] + rest;
    forall i, k: nat | 0 <= i < |cuts| - 1 && k < |cuts[i]| ensures !At(cuts[i] + p, k, p) {
      if i > 0 {
        assert cuts[i] == rest[i - 1];
      }
    }
    assert cuts[|cuts| - 1] == rest[|rest| - 1] && cuts[1..] == rest;
  }

  /** Every text can be cut so. */
  lemma {:induction false} CutsOf(s: string, p: string) returns (cuts: seq<string>)
    requires p != []
    ensures cuts != [] && CutAt(cuts, p) && Joined(cuts, p) == s
    decreases |s|
  {
    hide At;
    if !Occurs(s, p) {
      return [s];
    }
    var n := FirstMatch(s, p);
    AtMeans(s, n, p);
    var rest := CutsOf(s[n + |p|..], p);
    CutBefore(s, n, p);
    CutInFront(s[..n], rest, p);
    cuts := [s[..n]] + rest;
    assert s == s[..n] + (p + s[n + |p|..]);
  }

  lemma AtMeans(s: string, n: nat, p: string)
    requires At(s, n, p)
    ensures n + |p| <= |s| && s[n..n + |p|] == p
  {
  }

  lemma FirstMatch(s: string, p: string) returns (n: nat)
    requires Occurs(s, p)
    ensures At(s, n, p) && forall k: nat | k < n :: !At(s, k, p)
  {
    n :| At(s, n, p);
    while exists k: nat :: k < n && At(s, k, p)
      invariant At(s, n, p)
      decreases n
    {
      var k: nat :| k < n && At(s, k, p);
      n := k;
    }
  }

  lemma OccursBehind(a: string, b: string, p: string)
    requires Occurs(b, p)
    ensures Occurs(a + b, p)
  {
    var i: nat :| At(b, i, p);
    assert (a + b)[|a| + i..|a| + i + |p|] == b[i..i + |p|];
    assert At(a + b, |a| + i, p);
  }

  lemma LinkEnds(path: string)
    ensures var l := Link(path); |l| >= 4 && l[0] == '[' && l[1] == '[' && l[|l| - 2] == ']' && l[|l| - 1] == ']'
  {
  }

  lemma OccursSplit(a: string, b: string, p: string)
    requires Occurs(a + b, p)
    ensures Occurs(b, p) || exists i: nat :: i < |a| && At(a + b, i, p)
  {
    var i: nat :| At(a + b, i, p);
    if i >= |a| {
      assert b[i - |a|..i - |a| + |p|] == (a + b)[i..i + |p|];
      assert At(b, i - |a|, p);
    }
  }

  /** The end of one link is not the beginning of another. */
  lemma EndIsNoBeginning(t: string, to: string, rest: string)
    requires Single(to) && t != "" && t <= Link(to) + rest && |t| < |Link(to)|
    ensures t[|t| - 1] != ']' || (|t| > 1 && t[|t| - 2] != ']')
  {
    LinkEnds(to);
    var l, n := Link(to), |t|;
    assert forall k | 0 <= k < n :: t[k] == (l + rest)[k] == l[k];
  }

  /** What a replacement has put a text's end behind, the original had there: no link is made of pieces. */
  lemma {:induction false} TailKept(s: string, p: string, to: string, other: string, k: nat)
    requires p != [] && Single(to) && !Occurs(Link(other), Link(to))
    requires k < |Link(other)| && Link(other)[k..] <= Replace(s, p, Link(to))
    ensures Link(other)[k..] <= s
    decreases |s|
  {
    hide Link, Single;
    LinkEnds(other);
    var o, q := Link(other), Link(to);
    if |s| >= |p| {
      if s[..|p|] == p {
        NoTailInLink(to, other, Replace(s[|p|..], p, q), k);
      } else {
        var r := Replace(s[1..], p, q);
        Tails(o, k, s, r);
        if k + 1 < |o| {
          TailKept(s[1..], p, to, other, k + 1);
          assert s == [s[0]] + s[1..] && o[k..] == [o[k]] + o[k + 1..];
        }
      }
    }
  }

  lemma Tails(o: string, k: nat, s: string, r: string)
    requires k < |o| && s != "" && o[k..] <= [s[0]] + r
    ensures o[k] == s[0] && o[k + 1..] <= r
    ensures k + 1 == |o| ==> o[k..] <= s
  {
    assert o[k..][0] == ([s[0]] + r)[0];
    assert o[k + 1..] == o[k..][1..] && r == ([s[0]] + r)[1..];
  }

  lemma Contained(o: string, k: nat, q: string, rest: string)
    requires k <= |o| && |q| <= |o| - k && o[k..] <= q + rest
    ensures Occurs(o, q)
  {
    assert (q + rest)[..|q|] == q;
    assert o[k..k + |q|] == o[k..][..|q|];
    assert At(o, k, q);
  }

  lemma TailEnds(path: string, k: nat)
    requires k < |Link(path)|
    ensures var t := Link(path)[k..]; t[|t| - 1] == ']' && (|t| > 1 ==> t[|t| - 2] == ']')
  {
    LinkEnds(path);
  }

  lemma NoTailInLink(to: string, other: string, rest: string, k: nat)
    requires Single(to) && !Occurs(Link(other), Link(to)) && k < |Link(other)|
    ensures !(Link(other)[k..] <= Link(to) + rest)
  {
    hide Link;
    LinkEnds(to);
    var o, q := Link(other), Link(to);
    var t := o[k..];
    if t <= q + rest {
      if |t| >= |q| {
        Contained(o, k, q, rest);
      } else {
        TailEnds(other, k);
        EndIsNoBeginning(t, to, rest);
      }
    }
  }

  lemma Characters(s: string, i: nat, p: string)
    ensures At(s, i, p) <==> i + |p| <= |s| && forall k | 0 <= k < |p| :: s[i + k] == p[k]
  {
    if i + |p| <= |s| {
      var t := s[i..i + |p|];
      assert forall k | 0 <= k < |p| :: t[k] == s[i + k];
    }
  }

  lemma BracketsAt(s: string, i: nat, path: string)
    requires At(s, i, Link(path))
    ensures i + 1 < |s| && s[i] == '[' && s[i + 1] == '['
  {
    LinkEnds(path);
    Characters(s, i, Link(path));
    assert s[i + 0] == '[' && s[i + 1] == '[';
  }

  /** A link cannot begin inside another one. */
  lemma NoBeginningInLink(rest: string, i: nat, to: string, other: string)
    requires Single(to) && 1 <= i < |Link(to)|
    ensures !At(Link(to) + rest, i, Link(other))
  {
    LinkEnds(to);
    if At(Link(to) + rest, i, Link(other)) {
      BracketsAt(Link(to) + rest, i, other);
    }
  }

  lemma MatchStep(s: string, p: string, to: string, other: string)
    requires p != [] && Single(to) && !Occurs(Link(other), Link(to))
    requires |s| >= |p| && s[..|p|] == p && Occurs(Replace(s, p, Link(to)), Link(other))
    ensures Occurs(Replace(s[|p|..], p, Link(to)), Link(other))
  {
    hide Link, Single;
    LinkEnds(other);
    var rest := Replace(s[|p|..], p, Link(to));
    OccursSplit(Link(to), rest, Link(other));
    if i: nat :| i < |Link(to)| && At(Link(to) + rest, i, Link(other)) {
      if i > 0 {
        NoBeginningInLink(rest, i, to, other);
      } else {
        assert Link(other)[0..] == Link(other);
        NoTailInLink(to, other, rest, 0);
      }
    }
  }

  lemma PlainStep(s: string, p: string, to: string, other: string)
    requires p != [] && Single(to) && !Occurs(Link(other), Link(to))
    requires |s| >= |p| && s[..|p|] != p && Occurs(Replace(s, p, Link(to)), Link(other))
    ensures Occurs(Replace(s[1..], p, Link(to)), Link(other)) || (At(s, 0, Link(other)) && Link(other) != p)
  {
    hide Link, Single;
    LinkEnds(other);
    var rest, o := Replace(s[1..], p, Link(to)), Link(other);
    OccursSplit([s[0]], rest, o);
    if !Occurs(rest, o) {
      assert ([s[0]] + rest)[0..|o|] == o;
      assert o[0..] == o && o <= Replace(s, p, Link(to));
      TailKept(s, p, to, other, 0);
      assert s[0..0 + |o|] == o;
    }
  }

  /**
   Replacing a text by links to one page makes no link to a third page, and leaves no link that is
   that text; only links that contain the new one are not spoken of.
   */
  lemma {:induction false} ReplaceMovesLinks(s: string, p: string, to: string, other: string)
    requires p != [] && Single(to) && !Occurs(Link(other), Link(to))
    requires Occurs(Replace(s, p, Link(to)), Link(other))
    ensures Occurs(s, Link(other)) && Link(other) != p
    decreases |s|
  {
    hide Link, Single;
    var n := |p|;
    if |s| < n {
      var i: nat :| At(s, i, Link(other));
      assert |Link(other)| <= |s|;
    } else if s[..n] == p {
      MatchStep(s, p, to, other);
      ReplaceMovesLinks(s[n..], p, to, other);
      OccursBehind(s[..n], s[n..], Link(other));
      assert s == s[..n] + s[n..];
    } else {
      PlainStep(s, p, to, other);
      if Occurs(Replace(s[1..], p, Link(to)), Link(other)) {
        ReplaceMovesLinks(s[1..], p, to, other);
        OccursBehind([s[0]], s[1..], Link(other));
      } else {
        assert Occurs(s, Link(other));
      }
      assert s == [s[0]] + s[1..];
    }
  }

  /** A link with brackets at its ends only contains no link but itself. */
  lemma SingleHoldsOnlyItself(path: string, to: string)
    requires Single(path) && Occurs(Link(path), Link(to))
    ensures Link(path) == Link(to)
  {
    LinkEnds(path);
    LinkEnds(to);
    var l, q := Link(path), Link(to);
    var i: nat :| At(l, i, q);
    BracketsAt(l, i, to);
    Characters(l, i, q);
    assert l[i + (|q| - 2)] == ']' && l[i + (|q| - 1)] == ']';
    assert i == 0 && |q| == |l|;
    assert l[0..0 + |q|] == l;
  }

  // ----- Exactly when a replaced text can survive -----

  /** A proper end of `q` is a proper beginning of `p`. */
  ghost predicate EndBegins(p: string, q: string) {
    exists n: nat :: n < |p| && n < |q| && Overlap(p, q, n)
  }

  predicate Overlap(p: string, q: string, n: nat) {
    0 < n <= |p| && n <= |q| && p[..n] == q[|q| - n..]
  }

  /** From `j` on, `p` is a proper beginning of `q`; and `p` put where that begins is not found earlier. */
  ghost predicate LateStart(p: string, q: string, j: nat) {
    && 0 < j < |p| && |p| - j < |q| && q[..|p| - j] == p[j..]
    && forall k: nat | k < j :: !At(p[..j] + p, k, p)
  }

  /** What replacing `p` by `q` leaves can hold `p` again in these four ways only. */
  ghost predicate CanSurvive(p: string, q: string) {
    || Occurs(p, q)
    || Occurs(q, p)
    || EndBegins(p, q)
    || exists j: nat :: LateStart(p, q, j)
  }

  lemma {:induction false} ReplaceBehind(a: string, s: string, p: string, q: string)
    requires p != [] && forall i | 0 <= i < |a| :: !(p <= a[i..] + s)
    ensures Replace(a + s, p, q) == a + Replace(s, p, q)
    decreases |a|
  {
    if a == "" {
      assert a + s == s;
    } else {
      var t := a[1..];
      assert forall i | 0 <= i < |t| :: t[i..] == a[i + 1..];
      ReplaceBehind(t, s, p, q);
      assert a[0..] == a && a == [a[0]] + t;
      NotFoundFirst(a[0], t + s, p, q);
      Seqs.Assoc([a[0]], t, s);
      Seqs.Assoc([a[0]], t, Replace(s, p, q));
    }
  }

  lemma NotFoundFirst(c: char, s: string, p: string, q: string)
    requires p != [] && !(p <= [c] + s)
    ensures Replace([c] + s, p, q) == [c] + Replace(s, p, q)
  {
    assert ([c] + s)[1..] == s;
    if |s| + 1 < |p| {
      assert Replace(s, p, q) == s;
    }
  }

  lemma {:induction false} FirstAt(s: string, p: string, i: nat) returns (first: nat)
    requires At(s, i, p)
    ensures At(s, first, p) && forall j: nat | j < first :: !At(s, j, p)
  {
    if j: nat :| j < i && At(s, j, p) {
      first := FirstAt(s, p, j);
    } else {
      first := i;
    }
  }

  lemma InnerAt(s: string, k: nat, p: string, i: nat, q: string)
    requires At(s, k, p) && At(p, i, q)
    ensures At(s, k + i, q)
  {
    Characters(s, k, p);
    Characters(p, i, q);
    Characters(s, k + i, q);
    forall m | 0 <= m < |q| ensures s[k + i + m] == q[m] {
      assert s[k + (i + m)] == p[i + m];
    }
  }

  lemma PartAt(s: string, k: nat, p: string, j: nat, q: string)
    requires At(s, k, p) && k <= j && j + |q| <= k + |p| && At(s, j, q)
    ensures At(p, j - k, q)
  {
    Characters(s, k, p);
    Characters(s, j, q);
    Characters(p, j - k, q);
    forall m | 0 <= m < |q| ensures p[j - k + m] == q[m] {
      assert s[k + (j - k + m)] == p[j - k + m];
    }
  }

  lemma Suffix(a: string, p: string, c: string, k: nat)
    requires k < |a| && p <= a[k..] + (p + c)
    ensures At(a + p + c, k, p)
  {
    var t := a[k..] + (p + c);
    Characters(a + p + c, k, p);
    assert (a + p + c)[k..] == t;
    assert forall m | 0 <= m < |p| :: p[m] == t[m] == (a + p + c)[k + m];
  }

  // ----- A text that survives can -----

  /** The end of `p` from `k` on, at the start of `s`, is to be made by a match `j - k` further on. */
  ghost predicate MadeAt(s: string, p: string, q: string, k: nat, j: nat) {
    && k <= j < |p| && |p| - j < |q| && q[..|p| - j] == p[j..]
    && p[k..j] + p <= s
    && forall m: nat | m < j - k :: !At(s, m, p)
  }

  lemma MadeEarlier(s: string, p: string, q: string, k: nat, j: nat)
    requires s != "" && k + 1 < |p| && p[k] == s[0] && !(p <= s) && MadeAt(s[1..], p, q, k + 1, j)
    ensures MadeAt(s, p, q, k, j)
  {
    assert s == [s[0]] + s[1..] && p[k..j] == [p[k]] + p[k + 1..j];
    Seqs.Assoc([p[k]], p[k + 1..j], p);
    forall m: nat | m < j - k ensures !At(s, m, p) {
      AtStart(s, p);
      if m > 0 {
        Shifted(s, m, p);
      }
    }
  }

  lemma AtStart(s: string, p: string)
    ensures At(s, 0, p) <==> p <= s
  {
  }

  lemma Shifted(s: string, m: nat, p: string)
    requires 0 < m && s != ""
    ensures At(s, m, p) <==> At(s[1..], m - 1, p)
  {
    var t := s[1..];
    Characters(s, m, p);
    Characters(t, m - 1, p);
    if m + |p| <= |s| {
      forall k | 0 <= k < |p| ensures s[m + k] == p[k] <==> t[m - 1 + k] == p[k] {
        assert t[m - 1 + k] == s[1 + (m - 1 + k)];
      }
    }
  }

  /** An end of `p` at the start of the result was there before, or is made by the first match. */
  lemma {:induction false} TailMade(s: string, p: string, q: string, k: nat)
    requires k < |p| && !Occurs(p, q) && p[k..] <= Replace(s, p, q)
    ensures p[k..] <= s || exists j: nat :: MadeAt(s, p, q, k, j)
    decreases |s|
  {
    if |s| >= |p| {
      if s[..|p|] == p {
        TailInMatch(s, p, q, k);
      } else {
        var r := Replace(s[1..], p, q);
        Tails(p, k, s, r);
        if k + 1 < |p| {
          TailMade(s[1..], p, q, k + 1);
          if p[k + 1..] <= s[1..] {
            assert s == [s[0]] + s[1..] && p[k..] == [p[k]] + p[k + 1..];
          } else {
            var j: nat :| MadeAt(s[1..], p, q, k + 1, j);
            MadeEarlier(s, p, q, k, j);
          }
        }
      }
    }
  }

  lemma TailInMatch(s: string, p: string, q: string, k: nat)
    requires k < |p| && !Occurs(p, q) && |s| >= |p| && s[..|p|] == p
    requires p[k..] <= q + Replace(s[|p|..], p, q)
    ensures MadeAt(s, p, q, k, k)
  {
    var r := Replace(s[|p|..], p, q);
    if |q| <= |p| - k {
      Contained(p, k, q, r);
    } else {
      assert p[k..] == (q + r)[..|p| - k] == q[..|p| - k];
      assert p[k..k] + p == p;
    }
  }

  /** A text that begins in what replaces it. */
  lemma BeginsInside(p: string, q: string, r: string, i: nat)
    requires p != "" && i < |q| && At(q + r, i, p)
    ensures CanSurvive(p, q)
  {
    hide LateStart;
    var t := q + r;
    if i + |p| <= |q| {
      assert t[i..i + |p|] == q[i..i + |p|];
      assert At(q, i, p);
    } else {
      var n := |q| - i;
      assert p == t[i..i + |p|];
      assert p[..n] == t[i..|q|] == q[i..];
      if i == 0 {
        assert p[0..0 + |q|] == q;
        assert At(p, 0, q);
      } else {
        assert Overlap(p, q, n);
      }
    }
  }

  /** A text that begins before the first match and is completed by it. */
  lemma BeginsBefore(s: string, p: string, q: string)
    requires p != "" && !Occurs(p, q) && !(p <= s) && p <= Replace(s, p, q)
    ensures CanSurvive(p, q)
  {
    assert p[0..] == p;
    TailMade(s, p, q, 0);
    var j: nat :| MadeAt(s, p, q, 0, j);
    assert p[0..j] == p[..j];
    WholeBehindNothing(p);
    if j > 0 {
      forall k: nat | k < j ensures !At(p[..j] + p, k, p) {
        PrefixAt(p[..j] + p, s, k, p);
      }
      assert LateStart(p, q, j);
    }
  }

  lemma WholeBehindNothing(p: string)
    ensures p[..0] + p == p
  {
  }

  lemma PrefixAt(a: string, s: string, k: nat, p: string)
    requires a <= s
    ensures At(a, k, p) ==> At(s, k, p)
  {
    if At(a, k, p) {
      assert s[k..k + |p|] == a[k..k + |p|];
    }
  }

  lemma {:induction false} SurvivesOnly(s: string, p: string, q: string)
    requires p != "" && Occurs(Replace(s, p, q), p)
    ensures CanSurvive(p, q)
    decreases |s|
  {
    hide CanSurvive;
    var out := Replace(s, p, q);
    var i: nat :| At(out, i, p);
    if |s| < |p| {
    } else if s[..|p|] == p {
      var r := Replace(s[|p|..], p, q);
      if i < |q| {
        BeginsInside(p, q, r, i);
      } else {
        OccursSplit(q, r, p);
        if i0: nat :| i0 < |q| && At(q + r, i0, p) {
          BeginsInside(p, q, r, i0);
        } else {
          SurvivesOnly(s[|p|..], p, q);
        }
      }
    } else if i == 0 {
      assert out[0..0 + |p|] == p;
      if Occurs(p, q) {
        ContainsNew(p, q);
      } else {
        BeginsBefore(s, p, q);
      }
    } else {
      Shifted(out, i, p);
      assert out[1..] == Replace(s[1..], p, q);
      SurvivesOnly(s[1..], p, q);
    }
  }

  lemma ContainsNew(p: string, q: string)
    requires Occurs(p, q)
    ensures CanSurvive(p, q)
  {
  }

  // ----- A text that can survives -----

  /** Put behind its own beginning, a text is found no earlier than where what replaces it begins in it. */
  lemma NotFoundEarlier(p: string, i: nat, q: string, k: nat, c: string)
    requires At(p, i, q) && (forall j: nat | j < i :: !At(p, j, q)) && k < i
    ensures !At(p[..i] + p + c, k, p)
  {
    var t := p[..i] + p + c;
    if At(t, k, p) {
      assert t[i..i + |p|] == p;
      InnerAt(t, k, p, i, q);
      PartAt(t, i, p, k + i, q);
    }
  }

  /** A text that contains what replaces it survives behind its own beginning. */
  lemma ContainedSurvives(p: string, q: string) returns (body: string)
    requires p != "" && q != "" && Occurs(p, q)
    ensures Occurs(Replace(body, p, q), p)
  {
    hide Replace;
    var some: nat :| At(p, some, q);
    var i := FirstAt(p, q, some);
    var a, c := p[..i], p[i + |q|..];
    body := a + (p + c);
    forall k | 0 <= k < |a| ensures !(p <= a[k..] + (p + c)) {
      NotFoundEarlier(p, i, q, k, c);
      if p <= a[k..] + (p + c) {
        Suffix(a, p, c, k);
      }
    }
    ReplaceBehind(a, p + c, p, q);
    FoundFirst(p, c, q);
    assert a + (q + c) == p;
    assert At(p, 0, p);
  }

  lemma FoundFirst(p: string, c: string, q: string)
    requires p != [] && |c| < |p|
    ensures Replace(p + c, p, q) == q + c
  {
    assert (p + c)[..|p|] == p && (p + c)[|p|..] == c;
  }

  /** Where the replacing text ends as the replaced one begins, the rest of it completes it again. */
  lemma OverlapSurvives(p: string, q: string, n: nat)
    requires n < |p| && Overlap(p, q, n)
    ensures Occurs(Replace(p + p[n..], p, q), p)
  {
    FoundFirst(p, p[n..], q);
    var out, k := q + p[n..], |q| - n;
    assert out[k..k + |p|] == q[k..] + p[n..] == p[..n] + p[n..] == p;
    assert At(out, k, p);
  }

  /** Where the replacing text begins as the replaced one ends, what stands before completes it again. */
  lemma LateStartSurvives(p: string, q: string, j: nat)
    requires LateStart(p, q, j)
    ensures Occurs(Replace(p[..j] + p, p, q), p)
  {
    hide Replace;
    var a := p[..j];
    forall k | 0 <= k < |a| ensures !(p <= a[k..] + p) {
      assert !At(a + p, k, p);
      if p <= a[k..] + p {
        assert p + "" == p && a + p + "" == a + p;
        Suffix(a, p, "", k);
      }
    }
    ReplaceBehind(a, p, p, q);
    assert p + "" == p && q + "" == q;
    FoundFirst(p, "", q);
    var out := a + q;
    assert out[0..0 + |p|] == p[..j] + q[..|p| - j] == p;
    assert At(out, 0, p);
  }

  lemma HeldSurvives(p: string, q: string)
    requires p != "" && Occurs(q, p)
    ensures Occurs(Replace(p, p, q), p)
  {
    assert p + "" == p && q + "" == q;
    FoundFirst(p, "", q);
  }

  lemma Survives(p: string, q: string) returns (body: string)
    requires p != "" && q != "" && CanSurvive(p, q)
    ensures Occurs(Replace(body, p, q), p)
  {
    hide Replace, Overlap;
    if Occurs(q, p) {
      HeldSurvives(p, q);
      return p;
    }
    if Occurs(p, q) {
      body := ContainedSurvives(p, q);
      return;
    }
    if n: nat :| n < |p| && n < |q| && Overlap(p, q, n) {
      OverlapSurvives(p, q, n);
      return p + p[n..];
    }
    var j: nat :| LateStart(p, q, j);
    LateStartSurvives(p, q, j);
    return p[..j] + p;
  }

  /** Some body keeps a link that is replaced if and only if the two links stand in one of the four ways. */
  lemma LinkCanSurviveExactly(from: string, to: string)
    ensures (exists body :: Occurs(Replace(body, Link(from), Link(to)), Link(from))) <==>
      CanSurvive(Link(from), Link(to))
  {
    hide Link, CanSurvive, Replace;
    LinkEnds(from);
    LinkEnds(to);
    if CanSurvive(Link(from), Link(to)) {
      var body := Survives(Link(from), Link(to));
    } else if body :| Occurs(Replace(body, Link(from), Link(to)), Link(from)) {
      SurvivesOnly(body, Link(from), Link(to));
    }
  }

  /** With brackets at the ends of the new link only, there is one way: the former link contains it. */
  lemma SingleCanSurviveExactly(from: string, to: string)
    requires Single(to)
    ensures CanSurvive(Link(from), Link(to)) <==> Occurs(Link(from), Link(to))
  {
    hide Link, Single, CanSurvive, Replace;
    LinkEnds(from);
    LinkCanSurviveExactly(from, to);
    if Occurs(Link(from), Link(to)) {
      ContainsNew(Link(from), Link(to));
    } else if CanSurvive(Link(from), Link(to)) {
      var body :| Occurs(Replace(body, Link(from), Link(to)), Link(from));
      ReplaceMovesLinks(body, Link(from), to, from);
    }
  }

  // ----- Rewriting every outstanding link of a filing -----

  /** One pair per replacement: the page a link may still name, and the page it is to name. */
  datatype Move = Move(from: string, to: string)

  function Rewritten(body: string, moves: seq<Move>): string {
    if moves == [] then body
    else Replace(Rewritten(body, moves[..|moves| - 1]), Link(moves[|moves| - 1].from), Link(moves[|moves| - 1].to))
  }

  /**
   After all replacements, in any order, a link that contains none of the new ones was in the body
   before and names no page that was to be moved away from.
   */
  lemma {:induction false} RewrittenLinks(body: string, moves: seq<Move>, other: string)
    requires forall m | m in moves :: Single(m.to) && !Occurs(Link(other), Link(m.to))
    requires Occurs(Rewritten(body, moves), Link(other))
    ensures Occurs(body, Link(other))
    ensures forall m | m in moves :: Link(m.from) != Link(other)
  {
    hide Link, Single, Replace;
    if moves != [] {
      var before, last := moves[..|moves| - 1], moves[|moves| - 1];
      Seqs.SplitLast(moves);
      assert last in moves;
      LinkEnds(last.from);
      ReplaceMovesLinks(Rewritten(body, before), Link(last.from), last.to, other);
      RewrittenLinks(body, before, other);
    }
  }

  /** The loop of `body.replace` calls. */
  method Rewrite(body: string, moves: seq<Move>) returns (result: string)
    ensures result == Rewritten(body, moves)
  {
    result := body;
    for i := 0 to |moves|
      invariant result == Rewritten(body, moves[..i])
    {
      assert moves[..i + 1][..i] == moves[..i];
      result := Replace(result, Link(moves[i].from), Link(moves[i].to));
    }
    assert moves[..|moves|] == moves;
  }

  // ----- What rewriting makes of a body, said without the program that does it -----

  /** In one place a former link becomes the link to the new page. */
  predicate ExchangedAt(m: Move, a: string, b: string, s: string, t: string) {
    s == a + (Link(m.from) + b) && t == a + (Link(m.to) + b)
  }

  ghost predicate Exchanged(moves: seq<Move>, s: string, t: string) {
    exists m, a, b :: m in moves && ExchangedAt(m, a, b, s, t)
  }

  ghost predicate ExchangedTimes(n: nat, moves: seq<Move>, s: string, t: string) {
    if n == 0 then s == t else exists u :: Exchanged(moves, s, u) && ExchangedTimes(n - 1, moves, u, t)
  }

  /** One text comes of another by such exchanges and nothing else. */
  ghost predicate ComesOf(moves: seq<Move>, s: string, t: string) {
    exists n: nat :: ExchangedTimes(n, moves, s, t)
  }

  lemma {:induction false} TimesCompose(n: nat, k: nat, moves: seq<Move>, s: string, t: string, u: string)
    requires ExchangedTimes(n, moves, s, t) && ExchangedTimes(k, moves, t, u)
    ensures ExchangedTimes(n + k, moves, s, u)
  {
    hide Exchanged;
    if n > 0 {
      var v :| Exchanged(moves, s, v) && ExchangedTimes(n - 1, moves, v, t);
      TimesCompose(n - 1, k, moves, v, t, u);
    }
  }

  lemma ExchangedMore(moves: seq<Move>, more: seq<Move>, a: string, s: string, t: string)
    requires Exchanged(moves, s, t) && forall m | m in moves :: m in more
    ensures Exchanged(more, a + s, a + t)
  {
    hide Link;
    var m, b, c :| m in moves && ExchangedAt(m, b, c, s, t);
    Seqs.Assoc(a, b, Link(m.from) + c);
    Seqs.Assoc(a, b, Link(m.to) + c);
    assert ExchangedAt(m, a + b, c, a + s, a + t);
  }

  lemma {:induction false} TimesMore(n: nat, moves: seq<Move>, more: seq<Move>, a: string, s: string, t: string)
    requires ExchangedTimes(n, moves, s, t) && forall m | m in moves :: m in more
    ensures ExchangedTimes(n, more, a + s, a + t)
  {
    hide Exchanged;
    if n > 0 {
      var v :| Exchanged(moves, s, v) && ExchangedTimes(n - 1, moves, v, t);
      ExchangedMore(moves, more, a, s, v);
      TimesMore(n - 1, moves, more, a, v, t);
    }
  }

  lemma {:induction false} ReplaceExchanges(s: string, m: Move) returns (n: nat)
    ensures ExchangedTimes(n, [m], s, Replace(s, Link(m.from), Link(m.to)))
    decreases |s|
  {
    hide Link, Exchanged;
    LinkEnds(m.from);
    var p, q := Link(m.from), Link(m.to);
    if |s| < |p| {
      return 0;
    }
    if s[..|p|] == p {
      var rest := s[|p|..];
      var k := ReplaceExchanges(rest, m);
      FirstExchanged(m, rest, s);
      TimesMore(k, [m], [m], q, rest, Replace(rest, p, q));
      assert Exchanged([m], s, q + rest);
      return k + 1;
    }
    n := ReplaceExchanges(s[1..], m);
    TimesMore(n, [m], [m], [s[0]], s[1..], Replace(s[1..], p, q));
    assert s == [s[0]] + s[1..];
  }

  lemma FirstExchanged(m: Move, rest: string, s: string)
    requires s == Link(m.from) + rest
    ensures Exchanged([m], s, Link(m.to) + rest)
  {
    assert [] + (Link(m.from) + rest) == s && [] + (Link(m.to) + rest) == Link(m.to) + rest;
    assert m in [m] && ExchangedAt(m, [], rest, s, Link(m.to) + rest);
  }

  /** A rewritten body comes of the body by exchanging former links for new ones. */
  lemma {:induction false} RewrittenComesOf(body: string, moves: seq<Move>)
    ensures ComesOf(moves, body, Rewritten(body, moves))
  {
    hide Replace, Link, Exchanged;
    if moves == [] {
      assert ExchangedTimes(0, moves, body, body);
    } else {
      var before, last := moves[..|moves| - 1], moves[|moves| - 1];
      RewrittenComesOf(body, before);
      var mid := Rewritten(body, before);
      var n: nat :| ExchangedTimes(n, before, body, mid);
      var k := ReplaceExchanges(mid, last);
      TimesMore(n, before, moves, [], body, mid);
      TimesMore(k, [last], moves, [], mid, Rewritten(body, moves));
      assert [] + body == body && [] + mid == mid && [] + Rewritten(body, moves) == Rewritten(body, moves);
      TimesCompose(n, k, moves, body, mid, Rewritten(body, moves));
    }
  }

  /** A body without a former link stays as it is. */
  lemma NoneExchanged(moves: seq<Move>, s: string, t: string)
    requires ComesOf(moves, s, t) && forall m | m in moves :: !Occurs(s, Link(m.from))
    ensures t == s
  {
    hide Link;
    var n: nat :| ExchangedTimes(n, moves, s, t);
    if n > 0 {
      var u :| Exchanged(moves, s, u) && ExchangedTimes(n - 1, moves, u, t);
      var m, a, b :| m in moves && ExchangedAt(m, a, b, s, u);
      ExchangedOccurs(m, a, b, s, u);
    }
  }

  lemma ExchangedOccurs(m: Move, a: string, b: string, s: string, t: string)
    requires ExchangedAt(m, a, b, s, t)
    ensures Occurs(s, Link(m.from))
  {
    hide Link;
    assert s[|a|..|a| + |Link(m.from)|] == Link(m.from);
    assert At(s, |a|, Link(m.from));
  }

  // ----- The stretches between the links stay -----

  /** A stretch that stays, or a link that becomes another. */
  datatype Piece = Kept(text: string) | Swapped(move: Move)

  function Was(pieces: seq<Piece>): string {
    if pieces == [] then ""
    else (match pieces[0] case Kept(text) => text case Swapped(m) => Link(m.from)) + Was(pieces[1..])
  }

  function Now(pieces: seq<Piece>): string {
    if pieces == [] then ""
    else (match pieces[0] case Kept(text) => text case Swapped(m) => Link(m.to)) + Now(pieces[1..])
  }

  ghost predicate PiecesOf(pieces: seq<Piece>, moves: seq<Move>) {
    forall i | 0 <= i < |pieces| && pieces[i].Swapped? :: pieces[i].move in moves
  }

  /** The new links have brackets at their ends only, and a former link that contains one stays as it is. */
  ghost predicate Apart(moves: seq<Move>) {
    && (forall m | m in moves :: Single(m.to))
    && forall m, n | m in moves && n in moves && Occurs(Link(n.from), Link(m.to)) :: Link(n.from) == Link(n.to)
  }

  lemma FirstPiece(p: Piece, rest: seq<Piece>)
    ensures Was([p] + rest) == (match p case Kept(text) => text case Swapped(m) => Link(m.from)) + Was(rest)
    ensures Now([p] + rest) == (match p case Kept(text) => text case Swapped(m) => Link(m.to)) + Now(rest)
  {
    assert ([p] + rest)[1..] == rest;
  }

  lemma BehindFirst(m: Move, a: string, b: string, head: string, tail: string)
    requires a + (Link(m.from) + b) == head + tail && |a| >= |head|
    ensures a == head + a[|head|..] && a[|head|..] + (Link(m.from) + b) == tail
  {
    var s := head + tail;
    assert a[..|head|] == s[..|head|] == head;
    assert (a + (Link(m.from) + b))[|head|..] == a[|head|..] + (Link(m.from) + b);
    assert s[|head|..] == tail;
  }

  /** What stands at the start of a text that begins with another one. */
  lemma TailInto(o: string, a: string, b: string, head: string, tail: string)
    requires a + (o + b) == head + tail && |a| <= |head| < |a| + |o|
    ensures o[|head| - |a|..] <= tail && |head| - |a| < |o|
  {
    var s, k := a + (o + b), |head| - |a|;
    assert s[|head|..] == tail && s[|head|..] == (o + b)[k..] == o[k..] + b;
  }

  lemma NotIntoLink(m: Move, n: Move, a: string, b: string, head: string, tail: string)
    requires Single(m.to) && !Occurs(Link(n.from), Link(m.to))
    requires a + (Link(n.from) + b) == head + (Link(m.to) + tail) && |a| < |head| + |Link(m.to)|
    ensures |a| + |Link(n.from)| <= |head|
  {
    hide Link, Single;
    LinkEnds(n.from);
    LinkEnds(m.to);
    var o, l := Link(n.from), Link(m.to);
    if |a| <= |head| < |a| + |o| {
      TailInto(o, a, b, head, l + tail);
      NoTailInLink(m.to, n.from, tail, |head| - |a|);
    } else if |head| < |a| {
      StandsBehind(a, o, b, head, l + tail);
      NoBeginningInLink(tail, |a| - |head|, m.to, n.from);
    }
  }

  lemma StandsBehind(a: string, o: string, b: string, head: string, tail: string)
    requires a + (o + b) == head + tail && |a| >= |head|
    ensures At(tail, |a| - |head|, o)
  {
    var i := |a| - |head|;
    assert tail[i..i + |o|] == (head + tail)[|a|..|a| + |o|] == (a + (o + b))[|a|..|a| + |o|] == o;
  }

  /** One more exchange, in a text that is pieces already, falls into a stretch that stayed so far. */
  lemma {:induction false} OneMorePiece(pieces: seq<Piece>, moves: seq<Move>, m: Move, a: string, b: string, t: string)
    returns (next: seq<Piece>)
    requires PiecesOf(pieces, moves) && m in moves && ExchangedAt(m, a, b, Now(pieces), t)
    requires forall n | n in moves :: Single(n.to) && !Occurs(Link(m.from), Link(n.to))
    ensures PiecesOf(next, moves) && Was(next) == Was(pieces) && Now(next) == t
    decreases |pieces|
  {
    hide Link, Single, Occurs;
    LinkEnds(m.from);
    var p, rest := pieces[0], pieces[1..];
    assert pieces == [p] + rest;
    FirstPiece(p, rest);
    var head := match p case Kept(text) => text case Swapped(n) => Link(n.to);
    if |a| >= |head| {
      BehindFirst(m, a, b, head, Now(rest));
      var u := a[|head|..] + (Link(m.to) + b);
      var behind := OneMorePiece(rest, moves, m, a[|head|..], b, u);
      next := [p] + behind;
      FirstPiece(p, behind);
      assert head + u == t;
    } else if p.Swapped? {
      assert [] + (head + Now(rest)) == head + Now(rest);
      assert p.move in moves;
      NotIntoLink(p.move, m, a, b, [], Now(rest));
      assert false;
    } else if |a| + |Link(m.from)| <= |head| {
      next := SplitStretch(p.text, rest, m, a, b, t);
    } else {
      var q, more := rest[0], rest[1..];
      assert rest == [q] + more;
      FirstPiece(q, more);
      if q.Swapped? {
        assert q.move in moves;
        NotIntoLink(q.move, m, a, b, head, Now(more));
        assert false;
      } else {
        FirstPiece(Kept(p.text + q.text), more);
        Seqs.Assoc(p.text, q.text, Was(more));
        Seqs.Assoc(p.text, q.text, Now(more));
        next := OneMorePiece([Kept(p.text + q.text)] + more, moves, m, a, b, t);
      }
    }
  }

  lemma SplitStretch(text: string, rest: seq<Piece>, m: Move, a: string, b: string, t: string)
    returns (next: seq<Piece>)
    requires ExchangedAt(m, a, b, text + Now(rest), t) && |a| + |Link(m.from)| <= |text|
    ensures next == [Kept(a), Swapped(m), Kept(text[|a| + |Link(m.from)|..])] + rest
    ensures Was(next) == text + Was(rest) && Now(next) == t
  {
    hide Link;
    var o, end := Link(m.from), text[|a| + |Link(m.from)|..];
    var s := text + Now(rest);
    assert text[..|a|] == s[..|a|] == a;
    assert text[|a|..|a| + |o|] == s[|a|..|a| + |o|] == o;
    assert b == s[|a| + |o|..] == end + Now(rest);
    assert text == a + (o + end);
    var third, second := [Kept(end)] + rest, [Swapped(m)] + ([Kept(end)] + rest);
    next := [Kept(a)] + second;
    FirstPiece(Kept(end), rest);
    FirstPiece(Swapped(m), third);
    FirstPiece(Kept(a), second);
    assert next == [Kept(a), Swapped(m), Kept(end)] + rest;
    assert a + (o + (end + Was(rest))) == text + Was(rest);
  }

  lemma {:induction false} TimesInPieces(k: nat, moves: seq<Move>, pieces: seq<Piece>, t: string)
    returns (next: seq<Piece>)
    requires Apart(moves) && PiecesOf(pieces, moves) && ExchangedTimes(k, moves, Now(pieces), t)
    ensures PiecesOf(next, moves) && Was(next) == Was(pieces) && Now(next) == t
    decreases k
  {
    hide Link, Single, Occurs, Was, Now;
    next := pieces;
    if k > 0 {
      var u :| Exchanged(moves, Now(pieces), u) && ExchangedTimes(k - 1, moves, u, t);
      var m, a, b :| m in moves && ExchangedAt(m, a, b, Now(pieces), u);
      if Link(m.from) != Link(m.to) {
        next := OneMorePiece(pieces, moves, m, a, b, u);
      }
      next := TimesInPieces(k - 1, moves, next, t);
    }
  }

  /**
   Where former and new links stand apart, the body is stretches and former links, and what it comes
   to be is the same stretches, in the same order, with the new link of its move in the place of each.
   */
  lemma StretchesStay(moves: seq<Move>, s: string, t: string) returns (pieces: seq<Piece>)
    requires Apart(moves) && ComesOf(moves, s, t)
    ensures PiecesOf(pieces, moves) && Was(pieces) == s && Now(pieces) == t
  {
    var n: nat :| ExchangedTimes(n, moves, s, t);
    FirstPiece(Kept(s), []);
    assert [Kept(s)] + [] == [Kept(s)] && s + "" == s;
    assert Was([]) == "" && Now([]) == "";
    pieces := TimesInPieces(n, moves, [Kept(s)], t);
  }
}
