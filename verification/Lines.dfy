/** Lines as `splitlines(keepends=True)` cuts them. */
module Lines {

  predicate Break(c: char) {
    var n := c as int;
    0x0a <= n <= 0x0d || 0x1c <= n <= 0x1e || n == 0x85 || n == 0x2028 || n == 0x2029
  }

  /** The characters before the first line break. */
  function ContentLength(t: string): (n: nat)
    ensures n <= |t| && (n < |t| ==> Break(t[n])) && forall i | 0 <= i < n :: !Break(t[i])
  {
    if t == [] || Break(t[0]) then 0 else 1 + ContentLength(t[1..])
  }

  /** A carriage return and a line feed together end one line. */
  function LineLength(t: string): (n: nat)
    requires t != []
    ensures 1 <= n <= |t| && ContentLength(t) <= n <= ContentLength(t) + 2
    ensures n < |t| ==> Break(t[n - 1])
  {
    var k := ContentLength(t);
    if k == |t| then k
    else if t[k] == '\r' && k + 1 < |t| && t[k + 1] == '\n' then k + 2
    else k + 1
  }

  function SplitLines(t: string): seq<string>
    decreases |t|
  {
    if t == [] then [] else [t[..LineLength(t)]] + SplitLines(t[LineLength(t)..])
  }

  function Joined(parts: seq<string>): string {
    if parts == [] then "" else parts[0] + Joined(parts[1..])
  }

  /** Cutting into lines loses nothing. */
  lemma {:induction false} LinesJoin(t: string)
    ensures Joined(SplitLines(t)) == t
    decreases |t|
  {
    hide LineLength;
    if t != [] {
      var n := LineLength(t);
      LinesJoin(t[n..]);
      assert t == t[..n] + t[n..];
    }
  }

  lemma {:induction false} JoinedAppend(a: seq<string>, b: seq<string>)
    ensures Joined(a + b) == Joined(a) + Joined(b)
  {
    if a == [] {
      assert a + b == b;
    } else {
      JoinedAppend(a[1..], b);
      assert (a + b)[1..] == a[1..] + b;
    }
  }

  /** `s.rstrip("\r\n")` */
  function TrimEnd(s: string): (r: string)
    ensures r <= s
  {
    if s != [] && (s[|s| - 1] == '\r' || s[|s| - 1] == '\n') then TrimEnd(s[..|s| - 1]) else s
  }
}
