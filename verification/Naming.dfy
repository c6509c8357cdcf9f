/**
 File names that every device accepts: a stem is trimmed to a budget of characters and of bytes,
 and a stem already taken, compared without regard to case, gains the first free number.
 */
module Naming {
  import Seqs

  const MAX_CHARS: nat := 120
  const MAX_BYTES: nat := 252

  /** The length of a character in UTF-8. */
  function Width(c: char): (w: nat)
    ensures 1 <= w <= 4
  {
    if c as int < 0x80 then 1 else if c as int < 0x800 then 2 else if c as int < 0x1_0000 then 3 else 4
  }

  function Bytes(s: string): nat {
    if s == [] then 0 else Bytes(s[..|s| - 1]) + Width(s[|s| - 1])
  }

  predicate White(c: char) {
    var n := c as int;
    || 9 <= n <= 13 || 0x1c <= n <= 0x20 || n == 0x85 || n == 0xa0 || n == 0x1680 || 0x2000 <= n <= 0x200a
    || n in {0x2028, 0x2029, 0x202f, 0x205f, 0x3000}
  }

  function StripRight(s: string, drop: char -> bool): (r: string)
    ensures r <= s && (r != [] ==> !drop(r[|r| - 1]))
  {
    if s != [] && drop(s[|s| - 1]) then StripRight(s[..|s| - 1], drop) else s
  }

  function StripLeft(s: string, drop: char -> bool): (r: string)
    ensures |r| <= |s| && r == s[|s| - |r|..] && (r != [] ==> !drop(r[0]))
  {
    if s != [] && drop(s[0]) then StripLeft(s[1..], drop) else s
  }

  /** `stem.rstrip(". ").strip()` */
  function Stripped(s: string): string {
    StripLeft(StripRight(StripRight(s, c => c == '.' || c == ' '), c => White(c)), c => White(c))
  }

  predicate Within(s: string, maxChars: int, maxBytes: int) {
    |s| <= maxChars && Bytes(s) <= maxBytes
  }

  /** The longest prefix that meets both budgets. */
  ghost predicate LongestWithin(p: string, s: string, maxChars: int, maxBytes: int) {
    && p <= s
    && Within(p, maxChars, maxBytes)
    && forall k: nat | |p| < k <= |s| :: !Within(s[..k], maxChars, maxBytes)
  }

  function Longest(s: string, maxChars: int, maxBytes: int): (p: string)
    ensures p <= s
  {
    if s == [] || Within(s, maxChars, maxBytes) then s else Longest(s[..|s| - 1], maxChars, maxBytes)
  }

  lemma {:induction false} LongestIsLongest(s: string, maxChars: int, maxBytes: int)
    requires maxChars > 0 && maxBytes > 0
    ensures LongestWithin(Longest(s, maxChars, maxBytes), s, maxChars, maxBytes)
  {
    if s != [] && !Within(s, maxChars, maxBytes) {
      var shorter := s[..|s| - 1];
      LongestIsLongest(shorter, maxChars, maxBytes);
      forall k: nat | |Longest(shorter, maxChars, maxBytes)| < k <= |s| ensures !Within(s[..k], maxChars, maxBytes) {
        if k < |s| {
          assert s[..k] == shorter[..k];
        } else {
          assert s[..k] == s;
        }
      }
    } else {
      assert s[..|s|] == s;
    }
  }

  function Fitted(stem: string, maxChars: int, maxBytes: int): string {
    if maxChars <= 0 || maxBytes <= 0 then "" else Stripped(Longest(stem, maxChars, maxBytes))
  }

  lemma {:induction false} BytesSplit(a: string, b: string)
    ensures Bytes(a + b) == Bytes(a) + Bytes(b)
  {
    if b == [] {
      assert a + b == a;
    } else {
      var init := b[..|b| - 1];
      BytesSplit(a, init);
      assert (a + b)[..|a + b| - 1] == a + init;
    }
  }

  lemma PartIsSmaller(s: string, i: nat, j: nat)
    requires i <= j <= |s|
    ensures Bytes(s[i..j]) <= Bytes(s)
  {
    hide Bytes;
    assert s == s[..i] + (s[i..j] + s[j..]);
    BytesSplit(s[..i], s[i..j] + s[j..]);
    BytesSplit(s[i..j], s[j..]);
  }

  predicate Dropped(c: char) {
    White(c) || c == '.'
  }

  /** `r` is `p` without white space at its beginning, and without white space and full stops at its end. */
  ghost predicate TrimmedTo(p: string, i: nat, j: nat, r: string) {
    && i <= j <= |p|
    && r == p[i..j]
    && (forall k | 0 <= k < i :: White(p[k]))
    && (forall k | j <= k < |p| :: Dropped(p[k]))
    && (r != "" ==> !White(r[0]) && !White(r[|r| - 1]))
  }

  lemma {:induction false} RightDropped(s: string, drop: char -> bool)
    ensures forall k | |StripRight(s, drop)| <= k < |s| :: drop(s[k])
  {
    if s != [] && drop(s[|s| - 1]) {
      RightDropped(s[..|s| - 1], drop);
    }
  }

  lemma {:induction false} LeftDropped(s: string, drop: char -> bool)
    ensures forall k | 0 <= k < |s| - |StripLeft(s, drop)| :: drop(s[k])
  {
    if s != [] && drop(s[0]) {
      LeftDropped(s[1..], drop);
    }
  }

  lemma TrimsCompose(s: string, a: string, b: string, r: string)
    requires b <= a <= s
    requires |r| <= |b| && r == b[|b| - |r|..]
    requires forall k | |a| <= k < |s| :: Dropped(s[k])
    requires forall k | |b| <= k < |a| :: White(a[k])
    requires forall k | 0 <= k < |b| - |r| :: White(b[k])
    requires r != "" ==> !White(r[0]) && !White(b[|b| - 1])
    ensures TrimmedTo(s, |b| - |r|, |b|, r)
  {
    hide White;
    var i, j := |b| - |r|, |b|;
    assert r == s[i..j];
    forall k | j <= k < |s| ensures Dropped(s[k]) {
      if k < |a| {
        assert s[k] == a[k];
      }
    }
    if r != "" {
      assert r[|r| - 1] == b[|b| - 1];
    }
  }

  lemma StrippedExactly(s: string) returns (i: nat, j: nat)
    ensures TrimmedTo(s, i, j, Stripped(s))
  {
    hide White, TrimmedTo;
    var a := StripRight(s, c => c == '.' || c == ' ');
    var b := StripRight(a, c => White(c));
    var r := StripLeft(b, c => White(c));
    RightDropped(s, c => c == '.' || c == ' ');
    RightDropped(a, c => White(c));
    LeftDropped(b, c => White(c));
    SpaceIsWhite();
    TrimsCompose(s, a, b, r);
    i, j := |b| - |r|, |b|;
  }

  lemma SpaceIsWhite()
    ensures White(' ')
  {
  }

  lemma EmptyBytes()
    ensures Bytes("") == 0
  {
  }

  /** `r` is the longest prefix of `stem` within both budgets, trimmed at its ends. */
  ghost predicate IsFit(r: string, stem: string, maxChars: int, maxBytes: int) {
    exists p, i: nat, j: nat ::
      LongestWithin(p, stem, maxChars, maxBytes) && TrimmedTo(p, i, j, r)
  }

  /** A fitted stem meets both budgets and is the longest prefix that does, trimmed. */
  lemma FittedFits(stem: string, maxChars: int, maxBytes: int)
    requires maxChars >= 0 && maxBytes >= 0
    ensures Within(Fitted(stem, maxChars, maxBytes), maxChars, maxBytes)
    ensures maxChars > 0 && maxBytes > 0 ==> IsFit(Fitted(stem, maxChars, maxBytes), stem, maxChars, maxBytes)
  {
    hide Stripped, Longest, Bytes, White;
    if maxChars > 0 && maxBytes > 0 {
      var p := Longest(stem, maxChars, maxBytes);
      LongestIsLongest(stem, maxChars, maxBytes);
      var i, j := StrippedExactly(p);
      PartIsSmaller(p, i, j);
      assert LongestWithin(p, stem, maxChars, maxBytes) && TrimmedTo(p, i, j, Stripped(p));
    } else {
      EmptyBytes();
    }
  }

  /** A stem within both budgets that neither begins nor ends with what is trimmed stays whole. */
  lemma WholeStemStays(stem: string, r: string, maxChars: int, maxBytes: int)
    requires IsFit(r, stem, maxChars, maxBytes) && Within(stem, maxChars, maxBytes)
    requires stem != "" && !White(stem[0]) && !Dropped(stem[|stem| - 1])
    ensures r == stem
  {
    hide Bytes, White;
    var p, i: nat, j: nat :|
      LongestWithin(p, stem, maxChars, maxBytes) && TrimmedTo(p, i, j, r);
    assert stem[..|stem|] == stem;
    assert |p| == |stem| && p == stem;
    assert r == p[i..j];
  }

  /** The loop that drops one character after another. */
  method Fit(stem: string, maxChars: int, maxBytes: int) returns (fitted: string)
    ensures fitted == Fitted(stem, maxChars, maxBytes)
  {
    if maxChars <= 0 || maxBytes <= 0 {
      return "";
    }
    var s := stem;
    if |s| > maxChars {
      s := s[..maxChars];
      CutOff(stem, maxChars, maxBytes);
    }
    while s != [] && Bytes(s) > maxBytes
      invariant |s| <= maxChars
      invariant Longest(s, maxChars, maxBytes) == Longest(stem, maxChars, maxBytes)
    {
      s := s[..|s| - 1];
    }
    fitted := Stripped(s);
  }

  lemma {:induction false} CutOff(s: string, maxChars: int, maxBytes: int)
    requires 0 <= maxChars < |s|
    ensures Longest(s[..maxChars], maxChars, maxBytes) == Longest(s, maxChars, maxBytes)
  {
    var shorter := s[..|s| - 1];
    if maxChars < |shorter| {
      CutOff(shorter, maxChars, maxBytes);
      assert shorter[..maxChars] == s[..maxChars];
    }
  }

  // ----- Numbered names -----

  function Decimal(n: nat): (d: string)
    ensures d != [] && forall c | c in d :: '0' <= c <= '9'
  {
    if n < 10 then [Digit(n)] else Decimal(n / 10) + [Digit(n % 10)]
  }

  function Digit(n: nat): (c: char)
    requires n < 10
    ensures '0' <= c <= '9'
  {
    '0' + n as char
  }

  function Value(d: string): int {
    if d == [] then 0 else Value(d[..|d| - 1]) * 10 + (d[|d| - 1] as int - '0' as int)
  }

  lemma {:induction false} ValueOfDecimal(n: nat)
    ensures Value(Decimal(n)) == n
  {
    if n < 10 {
      assert Decimal(n)[..0] == [] && Value([]) == 0;
    } else {
      ValueOfDecimal(n / 10);
      assert Decimal(n)[..|Decimal(n)| - 1] == Decimal(n / 10);
    }
  }

  function Tail(n: nat): string {
    " (" + Decimal(n) + ")"
  }

  function Candidate(stem: string, n: nat): string {
    Fitted(stem, MAX_CHARS - |Tail(n)|, MAX_BYTES - Bytes(Tail(n))) + Tail(n)
  }

  /** A numbered name is the stem, fitted to what its number leaves of the budgets, and the number. */
  lemma CandidateShows(stem: string, n: nat)
    requires |Tail(n)| < MAX_CHARS
    ensures exists head ::
      Candidate(stem, n) == head + Tail(n) && IsFit(head, stem, MAX_CHARS - |Tail(n)|, MAX_BYTES - |Tail(n)|)
    ensures stem != "" && !White(stem[0]) && !Dropped(stem[|stem| - 1])
      && Within(stem, MAX_CHARS - |Tail(n)|, MAX_BYTES - |Tail(n)|)
      ==> Candidate(stem, n) == stem + Tail(n)
  {
    hide Fitted, Bytes, Tail, White, IsFit;
    TailIsCaseless(n);
    AsciiBytes(Tail(n));
    var chars, bytes := MAX_CHARS - |Tail(n)|, MAX_BYTES - |Tail(n)|;
    var head := Fitted(stem, chars, bytes);
    FittedFits(stem, chars, bytes);
    assert Candidate(stem, n) == head + Tail(n) && IsFit(head, stem, chars, bytes);
    if
      && stem != "" && !White(stem[0]) && !Dropped(stem[|stem| - 1])
      && Within(stem, chars, bytes)
    {
      WholeStemStays(stem, head, chars, bytes);
    }
  }

  /** Case folding, character by character: what each character becomes is a parameter. */
  function Folded(fold: char -> string, s: string): string {
    if s == [] then [] else Folded(fold, s[..|s| - 1]) + fold(s[|s| - 1])
  }

  predicate Caseless(c: char) {
    c == ' ' || c == '(' || c == ')' || '0' <= c <= '9'
  }

  ghost predicate IsCaseFold(fold: char -> string) {
    forall c | Caseless(c) :: fold(c) == [c]
  }

  lemma {:induction false} FoldedTail(fold: char -> string, s: string, t: string)
    requires IsCaseFold(fold) && forall c | c in t :: Caseless(c)
    ensures Folded(fold, s + t) == Folded(fold, s) + t
  {
    if t == [] {
      assert s + t == s;
    } else {
      var init := t[..|t| - 1];
      FoldedTail(fold, s, init);
      assert (s + t)[..|s + t| - 1] == s + init;
      assert t[|t| - 1] in t;
      assert t == init + [t[|t| - 1]];
      assert Folded(fold, s + t) == Folded(fold, s) + init + [t[|t| - 1]];
    }
  }

  lemma DigitsAgree(a: string, b: string, n: nat, m: nat)
    requires a + Tail(n) == b + Tail(m)
    ensures |Decimal(n)| >= |Decimal(m)|
  {
    var s, i := a + Tail(n), |Decimal(n)|;
    assert s[|s| - 2 - i] == '(';
    if i < |Decimal(m)| {
      DigitPlace(b, m, i + 1);
    }
  }

  lemma DigitPlace(b: string, m: nat, j: nat)
    requires 1 <= j <= |Decimal(m)|
    ensures '0' <= (b + Tail(m))[|b + Tail(m)| - 1 - j] <= '9'
  {
    var k := |Decimal(m)| - j;
    assert Decimal(m)[k] in Decimal(m);
    assert (b + Tail(m))[|b + Tail(m)| - 1 - j] == Decimal(m)[k];
  }

  /** Two names with different numbers differ, whatever stands before the number. */
  lemma TailsTellApart(a: string, b: string, n: nat, m: nat)
    requires a + Tail(n) == b + Tail(m)
    ensures n == m
  {
    DigitsAgree(a, b, n, m);
    DigitsAgree(b, a, m, n);
    var s, i := a + Tail(n), |Decimal(n)|;
    assert s[|s| - 1 - i..|s| - 1] == Decimal(n);
    assert (b + Tail(m))[|s| - 1 - i..|s| - 1] == Decimal(m);
    ValueOfDecimal(n);
    ValueOfDecimal(m);
  }

  lemma TailIsCaseless(n: nat)
    ensures forall c | c in Tail(n) :: Caseless(c)
  {
  }

  /** Distinct numbers give candidates that stay distinct under case folding. */
  lemma CandidatesDiffer(fold: char -> string, stem: string, n: nat, m: nat)
    requires IsCaseFold(fold) && Folded(fold, Candidate(stem, n)) == Folded(fold, Candidate(stem, m))
    ensures n == m
  {
    hide Fitted, Folded, Tail, IsCaseFold;
    var a := Fitted(stem, MAX_CHARS - |Tail(n)|, MAX_BYTES - Bytes(Tail(n)));
    var b := Fitted(stem, MAX_CHARS - |Tail(m)|, MAX_BYTES - Bytes(Tail(m)));
    TailIsCaseless(n);
    TailIsCaseless(m);
    FoldedTail(fold, a, Tail(n));
    FoldedTail(fold, b, Tail(m));
    TailsTellApart(Folded(fold, a), Folded(fold, b), n, m);
  }

  ghost function Tried(fold: char -> string, stem: string, n: nat): set<string> {
    set k: nat | 2 <= k < n :: Folded(fold, Candidate(stem, k))
  }

  lemma {:induction false} TriedSize(fold: char -> string, stem: string, n: nat)
    requires IsCaseFold(fold) && n >= 2
    ensures |Tried(fold, stem, n)| == n - 2
  {
    hide Candidate, Folded, IsCaseFold;
    if n == 2 {
      assert Tried(fold, stem, n) == {};
    } else {
      TriedSize(fold, stem, n - 1);
      var last := Folded(fold, Candidate(stem, n - 1));
      if last in Tried(fold, stem, n - 1) {
        var k: nat :| 2 <= k < n - 1 && last == Folded(fold, Candidate(stem, k));
        CandidatesDiffer(fold, stem, n - 1, k);
      }
      assert Tried(fold, stem, n) == Tried(fold, stem, n - 1) + {last};
    }
  }

  /** If every number below `n` is taken, at least so many names are taken. */
  lemma Pigeonhole(fold: char -> string, stem: string, taken: set<string>, n: nat)
    requires IsCaseFold(fold) && n >= 2
    requires forall k: nat | 2 <= k < n :: Folded(fold, Candidate(stem, k)) in taken
    ensures n - 2 <= |taken|
  {
    hide Candidate, Folded, IsCaseFold;
    TriedSize(fold, stem, n);
    Seqs.SubsetSize(Tried(fold, stem, n), taken);
  }

  /**
   The first free name, found after at most one more numbered try than there are names taken.
   `number` is none if the stem itself was free.
   */
  method UniqueStem(fold: char -> string, stem: string, taken: seq<string>) returns (free: string, number: int)
    requires IsCaseFold(fold)
    ensures forall t | t in taken :: Folded(fold, t) != Folded(fold, free)
    ensures number == 0 ==> free == stem
    ensures number != 0 ==> 2 <= number <= |taken| + 2 && free == Candidate(stem, number)
    ensures number != 0 ==> exists t :: t in taken && Folded(fold, t) == Folded(fold, stem)
    ensures forall k: nat | 2 <= k < number :: exists t ::
      t in taken && Folded(fold, t) == Folded(fold, Candidate(stem, k))
  {
    hide Fitted, Folded, Tail, IsCaseFold;
    var lowered := set t | t in taken :: Folded(fold, t);
    LoweredSize(fold, taken, lowered);
    if Folded(fold, stem) !in lowered {
      return stem, 0;
    }
    var suffix := 2;
    while true
      invariant 2 <= suffix <= |taken| + 2
      invariant forall k: nat | 2 <= k < suffix :: Folded(fold, Candidate(stem, k)) in lowered
      decreases |taken| + 2 - suffix
    {
      var tail := Tail(suffix);
      var head := Fit(stem, MAX_CHARS - |tail|, MAX_BYTES - Bytes(tail));
      var candidate := head + tail;
      assert candidate == Candidate(stem, suffix);
      if Folded(fold, candidate) !in lowered {
        return candidate, suffix;
      }
      Pigeonhole(fold, stem, lowered, suffix + 1);
      suffix := suffix + 1;
    }
  }

  lemma {:induction false} LoweredSize(fold: char -> string, taken: seq<string>, lowered: set<string>)
    requires lowered == set t | t in taken :: Folded(fold, t)
    ensures |lowered| <= |taken|
  {
    if taken == [] {
      assert lowered == {};
    } else {
      var init := taken[..|taken| - 1];
      var before := set t | t in init :: Folded(fold, t);
      LoweredSize(fold, init, before);
      assert lowered == before + {Folded(fold, taken[|taken| - 1])} by {
        assert taken == init + [taken[|taken| - 1]];
      }
    }
  }

  // ----- The budgets -----

  lemma {:induction false} AsciiBytes(s: string)
    requires forall c | c in s :: Caseless(c)
    ensures Bytes(s) == |s|
  {
    if s != [] {
      AsciiBytes(s[..|s| - 1]);
      assert s[|s| - 1] in s;
    }
  }

  /** A numbered name meets both budgets exactly while its number has at most 117 digits. */
  lemma CandidateFitsExactly(stem: string, n: nat)
    ensures Within(Candidate(stem, n), MAX_CHARS, MAX_BYTES) <==> |Decimal(n)| <= 117
  {
    hide Bytes, Fitted, Decimal;
    var tail := Tail(n);
    AsciiBytes(tail);
    var head := Fitted(stem, MAX_CHARS - |tail|, MAX_BYTES - Bytes(tail));
    BytesSplit(head, tail);
    if |tail| <= MAX_CHARS {
      FittedFits(stem, MAX_CHARS - |tail|, MAX_BYTES - Bytes(tail));
    }
  }

  function Power(k: nat): (p: nat)
    ensures p > 0
  {
    if k == 0 then 1 else 10 * Power(k - 1)
  }

  lemma {:induction false} DigitsExactly(n: nat, k: nat)
    requires k > 0
    ensures |Decimal(n)| <= k <==> n < Power(k)
  {
    if n < 10 {
      assert Power(k) >= 10 by {
        assert Power(k) == 10 * Power(k - 1);
      }
    } else if k == 1 {
      assert Power(1) == 10 * Power(0) == 10;
    } else {
      DigitsExactly(n / 10, k - 1);
    }
  }

  /** In a folder with fewer than 10^117 - 2 notes every free name that `UniqueStem` may give fits. */
  lemma FreeNamesFit(stem: string, taken: seq<string>, n: nat)
    requires n <= |taken| + 2 < Power(117)
    ensures Within(Candidate(stem, n), MAX_CHARS, MAX_BYTES)
  {
    DigitsExactly(n, 117);
    CandidateFitsExactly(stem, n);
  }

  /** What stands behind the date: the fitted stem, or a word for it where nothing is left of the stem. */
  ghost predicate IsDatedTitle(title: string, stem: string) {
    || (title != "" && IsFit(title, stem, MAX_CHARS - 11, MAX_BYTES - 11))
    || (title == "Untitled" && IsFit("", stem, MAX_CHARS - 11, MAX_BYTES - 11))
  }

  /** The name of a dated note: the date is never trimmed away. */
  method DatedStem(stem: string, date: string) returns (name: string)
    requires |date| == 10 && forall c | c in date :: c == '-' || '0' <= c <= '9'
    ensures Within(name, MAX_CHARS, MAX_BYTES)
    ensures exists title ::
      && name == date + " " + title
      && IsDatedTitle(title, stem)
  {
    hide Fitted, Bytes;
    var prefix := date + " ";
    DateBytes(prefix);
    var fitted := Fit(stem, MAX_CHARS - |prefix|, MAX_BYTES - Bytes(prefix));
    FittedFits(stem, MAX_CHARS - |prefix|, MAX_BYTES - Bytes(prefix));
    if fitted == "" {
      fitted := "Untitled";
      DateBytes(fitted);
    }
    name := prefix + fitted;
    BytesSplit(prefix, fitted);
    assert name == date + " " + fitted && IsDatedTitle(fitted, stem);
  }

  predicate Ascii(c: char) {
    c as int < 0x80
  }

  lemma {:induction false} DateBytes(s: string)
    requires forall c | c in s :: Ascii(c)
    ensures Bytes(s) == |s|
  {
    if s != [] {
      DateBytes(s[..|s| - 1]);
      assert s[|s| - 1] in s;
    }
  }
}
