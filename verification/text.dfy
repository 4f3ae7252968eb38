/**
 * The JavaScript string operations the application relies on, over Dafny strings.
 * Every string in this model is made of Basic Multilingual Plane characters or is compared
 * through `Rank`, so one Dafny `char` stands for one UTF-16 code unit where lengths matter.
 */
module Text {

  /** JavaScript's white space and line terminators: what `trim` removes and what `\s` matches. */
  predicate IsSpace(c: char) {
    var n := c as int;
    n == 0x09 || n == 0x0A || n == 0x0B || n == 0x0C || n == 0x0D || n == 0x20 || n == 0xA0
    || n == 0x1680 || (0x2000 <= n <= 0x200A) || n == 0x2028 || n == 0x2029 || n == 0x202F
    || n == 0x205F || n == 0x3000 || n == 0xFEFF
  }

  ghost predicate AllSpace(s: string) {
    forall i :: 0 <= i < |s| ==> IsSpace(s[i])
  }

  /** Neither end of `s` is white space: `trim` leaves it alone. */
  ghost predicate Trimmed(s: string) {
    s == [] || (!IsSpace(s[0]) && !IsSpace(s[|s| - 1]))
  }

  /** The first position at or after `k` that does not hold white space (`|s|` when there is none). */
  function SkipSpaces(s: string, k: nat): (r: nat)
    requires k <= |s|
    ensures k <= r <= |s|
    ensures forall i :: k <= i < r ==> IsSpace(s[i])
    ensures r < |s| ==> !IsSpace(s[r])
    decreases |s| - k
  {
    if k < |s| && IsSpace(s[k]) then SkipSpaces(s, k + 1) else k
  }

  /** Where `s[lo..e]` ends once the white space at its end is dropped. */
  function BackSpaces(s: string, lo: nat, e: nat): (r: nat)
    requires lo <= e <= |s|
    ensures lo <= r <= e
    ensures forall i :: r <= i < e ==> IsSpace(s[i])
    ensures r > lo ==> !IsSpace(s[r - 1])
    decreases e
  {
    if e > lo && IsSpace(s[e - 1]) then BackSpaces(s, lo, e - 1) else e
  }

  /** JavaScript's `String.prototype.trim`: white space dropped from the start, then from the end. */
  function Trim(s: string): (r: string)
    ensures Trimmed(r)
  {
    var lo := SkipSpaces(s, 0);
    s[lo..BackSpaces(s, lo, |s|)]
  }

  /** `trim` yields the empty string exactly for all-white-space input. */
  lemma TrimEmpty(s: string)
    ensures Trim(s) == [] <==> AllSpace(s)
  {
    var lo := SkipSpaces(s, 0);
    var hi := BackSpaces(s, lo, |s|);
    if Trim(s) == [] {
      assert hi == lo;
      assert lo == |s|;
    }
  }

  /** Trimming only ever removes white space from the two ends. */
  lemma TrimExact(pre: string, core: string, post: string)
    requires AllSpace(pre) && AllSpace(post) && Trimmed(core)
    ensures Trim(pre + core + post) == core
  {
    var s := pre + core + post;
    var lo := SkipSpaces(s, 0);
    if core == [] {
      assert AllSpace(s) by {
        forall i | 0 <= i < |s| ensures IsSpace(s[i]) {
          if i < |pre| { assert s[i] == pre[i]; } else { assert s[i] == post[i - |pre|]; }
        }
      }
      TrimEmpty(s);
    } else {
      assert s[|pre|] == core[0];
      assert lo == |pre|;
      var hi := BackSpaces(s, lo, |s|);
      var end := |pre| + |core|;
      assert s[end - 1] == core[|core| - 1];
      assert hi == end;
      assert s[lo..hi] == core;
    }
  }

  /** What `trim` removes is white space on either side of what it keeps. */
  lemma TrimSplit(s: string) returns (pre: string, post: string)
    ensures s == pre + Trim(s) + post && AllSpace(pre) && AllSpace(post)
  {
    var lo := SkipSpaces(s, 0);
    var hi := BackSpaces(s, lo, |s|);
    pre, post := s[..lo], s[hi..];
    assert s == s[..lo] + s[lo..hi] + s[hi..];
  }

  /** A string with no white space at either end is its own trim. */
  lemma TrimNoop(s: string)
    requires Trimmed(s)
    ensures Trim(s) == s
  {
    TrimExact([], s, []);
    assert [] + s + [] == s;
  }

  /** `s.startsWith(p)`. */
  predicate StartsWith(s: string, p: string) {
    |p| <= |s| && s[..|p|] == p
  }

  /** `p` occurs in `s` at position `i`. */
  predicate OccursAt(s: string, p: string, i: int) {
    0 <= i && i + |p| <= |s| && forall j :: 0 <= j < |p| ==> s[i + j] == p[j]
  }

  ghost predicate Contains(s: string, p: string) {
    exists i :: OccursAt(s, p, i)
  }

  function IndexFrom(s: string, p: string, k: nat): (r: int)
    requires forall i :: 0 <= i < k ==> !OccursAt(s, p, i)
    ensures r == -1 || OccursAt(s, p, r)
    ensures r == -1 ==> forall i :: !OccursAt(s, p, i)
    ensures r >= 0 ==> forall i :: 0 <= i < r ==> !OccursAt(s, p, i)
    decreases |s| - k
  {
    if k + |p| > |s| then -1
    else if OccursAt(s, p, k) then k
    else IndexFrom(s, p, k + 1)
  }

  /** JavaScript's `s.indexOf(p)`: the first position of `p` in `s`, or -1. */
  function IndexOf(s: string, p: string): (r: int)
    ensures r == -1 || OccursAt(s, p, r)
    ensures r == -1 <==> !Contains(s, p)
    ensures r >= 0 ==> forall i :: 0 <= i < r ==> !OccursAt(s, p, i)
  {
    IndexFrom(s, p, 0)
  }

  /**
   * The first occurrence of `m` in `pre + m + rest` is right after `pre`, provided some character
   * of `m` (at offset `k`) occurs neither in `pre` nor earlier in `m`.
   */
  lemma FirstOccurrence(pre: string, m: string, rest: string, k: nat)
    requires k < |m|
    requires m[k] !in pre && m[k] !in m[..k]
    ensures IndexOf(pre + m + rest, m) == |pre|
  {
    var s := pre + m + rest;
    assert OccursAt(s, m, |pre|);
    forall i | 0 <= i < |pre| ensures !OccursAt(s, m, i) {
    }
  }

  /** Join `parts`, putting `sep` between consecutive parts (JavaScript's `parts.join(sep)`). */
  function Join(parts: seq<string>, sep: string): string {
    if |parts| == 0 then ""
    else if |parts| == 1 then parts[0]
    else parts[0] + sep + Join(parts[1..], sep)
  }

  /** All `parts` one after the other. */
  function Concat(parts: seq<string>): (r: string)
    ensures |parts| == 0 ==> r == ""
  {
    if |parts| == 0 then "" else Concat(parts[..|parts| - 1]) + parts[|parts| - 1]
  }

  lemma ConcatOne(s: string)
    ensures Concat([s]) == s
  {
    assert [s][..0] == [];
  }

  lemma {:induction false} ConcatAppend(a: seq<string>, b: seq<string>)
    ensures Concat(a + b) == Concat(a) + Concat(b)
    decreases |b|
  {
    if b == [] {
      assert a + b == a;
    } else {
      assert (a + b)[..|a + b| - 1] == a + b[..|b| - 1];
      ConcatAppend(a, b[..|b| - 1]);
    }
  }

  /** Each of `lines` followed by the separator. */
  function Terminated(lines: seq<string>, sep: char): string {
    if lines == [] then "" else lines[0] + [sep] + Terminated(lines[1..], sep)
  }

  lemma {:induction false} TerminatedAppend(a: seq<string>, b: seq<string>, sep: char)
    ensures Terminated(a + b, sep) == Terminated(a, sep) + Terminated(b, sep)
  {
    if a == [] {
      assert a + b == b;
    } else {
      assert (a + b)[1..] == a[1..] + b;
      TerminatedAppend(a[1..], b, sep);
    }
  }

  function IndexOfChar(s: string, c: char): (r: int)
    ensures -1 <= r
    ensures r == -1 <==> c !in s
    ensures r >= 0 ==> r < |s| && s[r] == c && c !in s[..r]
  {
    if |s| == 0 then -1
    else if s[0] == c then 0
    else
      var r := IndexOfChar(s[1..], c);
      if r == -1 then -1
      else
        assert s[..r + 1] == [s[0]] + s[1..][..r];
        r + 1
  }

  /**
   * JavaScript's `s.split(sep)` for a one-character separator: every piece is free of `sep`, and
   * the pieces but the last, each followed by `sep`, then the last piece, give back `s`.
   */
  function Split(s: string, sep: char): (r: seq<string>)
    ensures |r| >= 1
    ensures forall i :: 0 <= i < |r| ==> sep !in r[i]
    ensures Terminated(r[..|r| - 1], sep) + r[|r| - 1] == s
    decreases |s|
  {
    var i := IndexOfChar(s, sep);
    if i < 0 then
      assert [s][..0] == [];
      [s]
    else
      var rest := Split(s[i + 1..], sep);
      SplitCons(s[..i], rest, s[i + 1..], sep);
      Around(s, i);
      [s[..i]] + rest
  }

  lemma Around<T>(s: seq<T>, i: int)
    requires 0 <= i < |s|
    ensures s == s[..i] + [s[i]] + s[i + 1..]
  {
  }

  /** A separator-free piece in front of the split of `tail` is the split of `head`, separator, `tail`. */
  lemma SplitCons(head: string, rest: seq<string>, tail: string, sep: char)
    requires |rest| >= 1 && sep !in head
    requires forall i :: 0 <= i < |rest| ==> sep !in rest[i]
    requires Terminated(rest[..|rest| - 1], sep) + rest[|rest| - 1] == tail
    ensures var r := [head] + rest;
      && (forall i :: 0 <= i < |r| ==> sep !in r[i])
      && Terminated(r[..|r| - 1], sep) + r[|r| - 1] == head + [sep] + tail
  {
    var r := [head] + rest;
    assert r[..|r| - 1] == [head] + rest[..|rest| - 1];
    assert r[..|r| - 1][1..] == rest[..|rest| - 1];
    assert forall i :: 1 <= i < |r| ==> r[i] == rest[i - 1];
  }

  /** The pieces of a string are determined by it: a separator-free framing is the split. */
  lemma {:induction false} SplitUnique(lines: seq<string>, last: string, sep: char)
    requires forall i :: 0 <= i < |lines| ==> sep !in lines[i]
    requires sep !in last
    ensures Split(Terminated(lines, sep) + last, sep) == lines + [last]
  {
    if lines == [] {
      assert Terminated(lines, sep) + last == last;
      assert IndexOfChar(last, sep) == -1;
    } else {
      var l := lines[0];
      var t := Terminated(lines[1..], sep) + last;
      assert Terminated(lines, sep) + last == l + [sep] + t;
      SplitHead(l, t, sep);
      SplitUnique(lines[1..], last, sep);
      ConsSnoc(lines, last);
    }
  }

  lemma ConsSnoc<T>(xs: seq<T>, x: T)
    requires xs != []
    ensures xs + [x] == [xs[0]] + (xs[1..] + [x])
  {
  }

  /** A separator-free first piece is split off at the first separator. */
  lemma SplitHead(l: string, t: string, sep: char)
    requires sep !in l
    ensures Split(l + [sep] + t, sep) == [l] + Split(t, sep)
  {
    var s := l + [sep] + t;
    IndexAfter(l, t, sep);
    assert s[..|l|] == l;
    assert s[|l| + 1..] == t;
  }

  lemma {:induction false} IndexAfter(l: string, t: string, sep: char)
    requires sep !in l
    ensures IndexOfChar(l + [sep] + t, sep) == |l|
  {
    var s := l + [sep] + t;
    if l == [] {
      assert s[0] == sep;
    } else {
      assert s[0] == l[0];
      assert s[1..] == l[1..] + [sep] + t;
      assert l[0] in l;
      assert sep !in l[1..] by {
        forall k | 0 <= k < |l[1..]| ensures l[1..][k] != sep {
          assert l[1..][k] == l[k + 1];
          assert l[k + 1] in l;
        }
      }
      IndexAfter(l[1..], t, sep);
    }
  }

  function Digit(d: nat): char
    requires d < 10
  {
    ('0' as int + d) as char
  }

  /** The decimal numeral of `n`, as JavaScript prints a non-negative integer. */
  function ShowNat(n: nat): (r: string)
    ensures |r| >= 1
    ensures forall i :: 0 <= i < |r| ==> '0' <= r[i] <= '9'
  {
    if n < 10 then [Digit(n)] else ShowNat(n / 10) + [Digit(n % 10)]
  }

  /** How JavaScript prints an integer. */
  function ShowInt(n: int): (r: string)
    ensures forall i :: 0 <= i < |r| ==> r[i] == '-' || '0' <= r[i] <= '9'
  {
    if n < 0 then "-" + ShowNat(-n) else ShowNat(n)
  }

  /**
   * The UTF-16 code unit order of characters, which `Array.prototype.sort` uses: characters
   * outside the Basic Multilingual Plane sort between U+D7FF and U+E000.
   */
  function Rank(c: char): int {
    var n := c as int;
    if 0xE000 <= n < 0x10000 then n + 0x110000 else n
  }

  lemma RankInjective(a: char, b: char)
    ensures Rank(a) == Rank(b) ==> a == b
  {
  }

  /** `a` sorts strictly before `b` under JavaScript's default string order. */
  predicate Before(a: string, b: string) {
    if |a| == 0 then |b| > 0
    else if |b| == 0 then false
    else if a[0] != b[0] then Rank(a[0]) < Rank(b[0])
    else Before(a[1..], b[1..])
  }

  /** The string order is a strict total order: exactly one of three cases holds. */
  lemma {:induction false} BeforeTrichotomy(a: string, b: string)
    ensures a == b || Before(a, b) || Before(b, a)
    ensures !(Before(a, b) && Before(b, a))
    ensures a == b ==> !Before(a, b)
  {
    if |a| > 0 && |b| > 0 {
      RankInjective(a[0], b[0]);
      BeforeTrichotomy(a[1..], b[1..]);
      if a[0] == b[0] && a[1..] == b[1..] {
        assert a == [a[0]] + a[1..];
        assert b == [b[0]] + b[1..];
      }
    }
  }

  /** `[x, y].sort()`. */
  function Sort2(x: string, y: string): (r: seq<string>)
    ensures |r| == 2 && multiset(r) == multiset{x, y}
    ensures !Before(r[1], r[0])
  {
    BeforeTrichotomy(x, y);
    if Before(y, x) then [y, x] else [x, y]
  }

  /** Sorting two strings does not depend on the order they were given in. */
  lemma Sort2Symmetric(x: string, y: string)
    ensures Sort2(x, y) == Sort2(y, x)
  {
    BeforeTrichotomy(x, y);
  }
}
