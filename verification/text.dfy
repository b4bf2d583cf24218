/** String operations with the semantics of the Python `str` methods the
    server relies on: `isspace`, `strip`, `find`, `rfind`, `count`, `split`,
    `startswith`, `replace(old, new, 1)` and decimal `int()` / `str()`. */
module Text {

  /** Python's `str.isspace` for a single character: Unicode White_Space plus
      the information separators U+001C..U+001F, which Python also strips. */
  predicate IsSpace(c: char) {
    var n := c as int;
    || n == 0x20 || (0x09 <= n <= 0x0D) || (0x1C <= n <= 0x1F)
    || n == 0x85 || n == 0xA0 || n == 0x1680 || (0x2000 <= n <= 0x200A)
    || n == 0x2028 || n == 0x2029 || n == 0x202F || n == 0x205F || n == 0x3000
  }

  predicate IsDigit(c: char) {
    '0' <= c <= '9'
  }

  predicate AllDigits(s: string) {
    forall i :: 0 <= i < |s| ==> IsDigit(s[i])
  }

  /** ASCII lower-casing, the part of `re.IGNORECASE` the model keeps. */
  function Lower(c: char): char {
    if 'A' <= c <= 'Z' then (c as int + 32) as char else c
  }

  /** End of the whitespace run starting at `i` (greedy `\s*`). */
  function SpaceEnd(s: string, i: nat): (e: nat)
    requires i <= |s|
    ensures i <= e <= |s|
    ensures forall j :: i <= j < e ==> IsSpace(s[j])
    ensures e == |s| || !IsSpace(s[e])
    decreases |s| - i
  {
    if i < |s| && IsSpace(s[i]) then SpaceEnd(s, i + 1) else i
  }

  /** `s.lstrip()`: drops the longest all-whitespace prefix. */
  function LStrip(s: string): (r: string)
    ensures |r| <= |s| && r == s[|s| - |r|..]
    ensures |r| > 0 ==> !IsSpace(r[0])
    ensures forall i :: 0 <= i < |s| - |r| ==> IsSpace(s[i])
  {
    if |s| > 0 && IsSpace(s[0]) then LStrip(s[1..]) else s
  }

  /** Leading whitespace before a text that does not start with any is
      exactly what `lstrip` removes. */
  lemma {:induction false} StripLeading(ws: string, u: string)
    requires forall i :: 0 <= i < |ws| ==> IsSpace(ws[i])
    requires |u| > 0 ==> !IsSpace(u[0])
    ensures LStrip(ws + u) == u
  {
    var s := ws + u;
    assert forall i :: 0 <= i < |ws| ==> s[i] == ws[i];
    assert |u| > 0 ==> s[|ws|] == u[0];
    assert s[|ws|..] == u;
  }

  /** `s.rstrip()`: drops the longest all-whitespace suffix. */
  function RStrip(s: string): (r: string)
    ensures |r| <= |s| && r == s[..|r|]
    ensures |r| > 0 ==> !IsSpace(r[|r| - 1])
    ensures forall i :: |r| <= i < |s| ==> IsSpace(s[i])
  {
    if |s| > 0 && IsSpace(s[|s| - 1]) then RStrip(s[..|s| - 1]) else s
  }

  /** `s.strip()` */
  function Strip(s: string): string {
    RStrip(LStrip(s))
  }

  /** Whitespace around an already-trimmed text is exactly what `strip` removes. */
  lemma {:induction false} StripPadded(pre: string, t: string, post: string)
    requires forall i :: 0 <= i < |pre| ==> IsSpace(pre[i])
    requires forall i :: 0 <= i < |post| ==> IsSpace(post[i])
    requires |t| > 0 ==> !IsSpace(t[0]) && !IsSpace(t[|t| - 1])
    ensures Strip(pre + t + post) == t
  {
    var l := LStrip(pre + t + post);
    if |t| > 0 {
      assert (pre + t + post)[|pre|] == t[0];
      assert l == t + post;
      assert (t + post)[|t| - 1] == t[|t| - 1];
      assert RStrip(t + post) == (t + post)[..|t|] == t;
    }
  }

  /** A text with no whitespace at either end is its own `strip`. */
  lemma {:induction false} StripTrimmed(s: string)
    requires |s| > 0 ==> !IsSpace(s[0]) && !IsSpace(s[|s| - 1])
    ensures Strip(s) == s
  {
    StripPadded("", s, "");
    assert "" + s + "" == s;
  }

  /** `pat` occurs in `s` starting at index `i`. */
  predicate OccursAt(s: string, pat: string, i: int) {
    0 <= i && i + |pat| <= |s| && s[i..i + |pat|] == pat
  }

  /** `pat` occurs nowhere in `s`. */
  ghost predicate Lacks(s: string, pat: string) {
    forall j :: !OccursAt(s, pat, j)
  }

  /** `s.find(pat, start)`: the first occurrence at or after `start`, else -1. */
  function FindFrom(s: string, pat: string, start: nat): (r: int)
    ensures r == -1 || (start <= r && OccursAt(s, pat, r))
    ensures forall j :: start <= j && (r == -1 || j < r) ==> !OccursAt(s, pat, j)
    decreases |s| + 1 - start
  {
    if start + |pat| > |s| then -1
    else if s[start..start + |pat|] == pat then start
    else FindFrom(s, pat, start + 1)
  }

  /** `s.find(pat)` */
  function Find(s: string, pat: string): (r: int)
    ensures r == -1 || OccursAt(s, pat, r)
    ensures forall j :: 0 <= j && (r == -1 || j < r) ==> !OccursAt(s, pat, j)
  {
    FindFrom(s, pat, 0)
  }

  /** `s.rfind(c)` for a one-character needle. */
  function RFind(s: string, c: char): (r: int)
    ensures -1 <= r < |s|
    ensures r >= 0 ==> s[r] == c
    ensures forall j :: r < j < |s| ==> s[j] != c
  {
    if |s| == 0 then -1
    else if s[|s| - 1] == c then |s| - 1
    else RFind(s[..|s| - 1], c)
  }

  /** `s.count(c)` for a one-character needle. */
  function Count(s: string, c: char): nat {
    if |s| == 0 then 0
    else Count(s[..|s| - 1], c) + (if s[|s| - 1] == c then 1 else 0)
  }

  lemma {:induction false} CountAppend(a: string, b: string, c: char)
    ensures Count(a + b, c) == Count(a, c) + Count(b, c)
    decreases |b|
  {
    if |b| > 0 {
      assert (a + b)[..|a + b| - 1] == a + b[..|b| - 1];
      CountAppend(a, b[..|b| - 1], c);
    } else {
      assert a + b == a;
    }
  }

  lemma {:induction false} CountNone(s: string, c: char)
    requires forall k :: 0 <= k < |s| ==> s[k] != c
    ensures Count(s, c) == 0
    decreases |s|
  {
    if |s| > 0 {
      CountNone(s[..|s| - 1], c);
    }
  }

  /** A text that starts with `x` and has no other `c`. */
  lemma {:induction false} CountHead(x: char, s: string, c: char)
    requires forall k :: 0 <= k < |s| ==> s[k] != c
    ensures Count([x] + s, c) == (if x == c then 1 else 0)
  {
    CountAppend([x], s, c);
    CountNone(s, c);
    assert [x][..0] == "";
  }

  /** Texts with `c` at the same places have the same count of it. */
  lemma {:induction false} CountSame(a: string, b: string, c: char)
    requires |a| == |b| && forall k :: 0 <= k < |a| ==> (a[k] == c <==> b[k] == c)
    ensures Count(a, c) == Count(b, c)
    decreases |a|
  {
    if |a| > 0 {
      CountSame(a[..|a| - 1], b[..|b| - 1], c);
    }
  }

  /** `c * n` (Python gives the empty string for n <= 0). */
  function Repeat(c: char, n: int): (r: string)
    ensures |r| == (if n <= 0 then 0 else n)
    ensures forall i :: 0 <= i < |r| ==> r[i] == c
    decreases if n <= 0 then 0 else n
  {
    if n <= 0 then [] else Repeat(c, n - 1) + [c]
  }

  lemma {:induction false} CountRepeat(c: char, d: char, n: int)
    ensures Count(Repeat(c, n), d) == (if c == d && n > 0 then n else 0)
    decreases if n <= 0 then 0 else n
  {
    if n > 0 {
      assert Repeat(c, n)[..|Repeat(c, n)| - 1] == Repeat(c, n - 1);
      CountRepeat(c, d, n - 1);
    }
  }

  /** `s.startswith(p)` */
  predicate StartsWith(s: string, p: string) {
    |p| <= |s| && s[..|p|] == p
  }

  /** `s.replace(before, after, 1)` */
  function ReplaceFirst(s: string, before: string, after: string): (r: string)
    ensures Find(s, before) == -1 ==> r == s
    ensures Find(s, before) >= 0 ==>
      r == s[..Find(s, before)] + after + s[Find(s, before) + |before|..]
  {
    var i := Find(s, before);
    if i < 0 then s else s[..i] + after + s[i + |before|..]
  }

  /** `s.split(d)` for a non-empty separator. */
  function Split(s: string, d: string): (parts: seq<string>)
    requires |d| > 0
    ensures |parts| >= 1
    decreases |s|
  {
    var i := Find(s, d);
    if i < 0 then [s] else [s[..i]] + Split(s[i + |d|..], d)
  }

  /** No part contains the separator. */
  lemma {:induction false} SplitPartsLack(s: string, d: string)
    requires |d| > 0
    ensures forall k :: 0 <= k < |Split(s, d)| ==> Lacks(Split(s, d)[k], d)
    decreases |s|
  {
    var i := Find(s, d);
    if i >= 0 {
      var head := s[..i];
      forall j | OccursAt(head, d, j) ensures OccursAt(s, d, j) {
        assert s[j..j + |d|] == head[j..j + |d|];
      }
      SplitPartsLack(s[i + |d|..], d);
      assert Split(s, d) == [head] + Split(s[i + |d|..], d);
    }
  }

  /** Inverse of `Split`: `d.join(parts)`. */
  function Join(parts: seq<string>, d: string): string
    requires |parts| >= 1
  {
    if |parts| == 1 then parts[0] else parts[0] + d + Join(parts[1..], d)
  }

  lemma {:induction false} JoinCons(a: string, parts: seq<string>, d: string)
    requires |parts| >= 1
    ensures Join([a] + parts, d) == a + d + Join(parts, d)
  {
    assert ([a] + parts)[1..] == parts;
  }

  /** Splitting loses nothing: joining the parts back gives the input. */
  lemma {:induction false} SplitJoin(s: string, d: string)
    requires |d| > 0
    ensures Join(Split(s, d), d) == s
    decreases |s|
  {
    var i := Find(s, d);
    if i >= 0 {
      var head, rest := s[..i], s[i + |d|..];
      SplitJoin(rest, d);
      Rejoin(s, d, i);
      JoinBack(s, head, rest, Split(rest, d), d);
    } else {
      assert Split(s, d) == [s];
    }
  }

  /** Cutting at an occurrence of `d` and putting `d` back gives `s`. */
  lemma {:induction false} Rejoin(s: string, d: string, i: int)
    requires OccursAt(s, d, i)
    ensures s == s[..i] + d + s[i + |d|..]
  {
    assert s == s[..i] + s[i..i + |d|] + s[i + |d|..];
  }

  lemma {:induction false} JoinBack(s: string, head: string, rest: string, parts: seq<string>, d: string)
    requires |parts| >= 1 && Join(parts, d) == rest && s == head + d + rest
    ensures Join([head] + parts, d) == s
  {
    JoinCons(head, parts, d);
  }

  /** Where `d` starts with a character that `a` lacks, splitting `a + d + b`
      cuts exactly at the end of `a`. */
  lemma {:induction false} SplitAfterClean(a: string, d: string, b: string)
    requires |d| > 0
    requires forall i :: 0 <= i < |a| ==> a[i] != d[0]
    ensures Split(a + d + b, d) == [a] + Split(b, d)
  {
    var s := a + d + b;
    assert OccursAt(s, d, |a|) by { assert s[|a|..|a| + |d|] == d; }
    var i := Find(s, d);
    assert 0 <= i;
    assert s[i] == d[0] by { assert s[i..i + |d|] == d; }
    assert i >= |a|;
    assert s[..i] == a;
    assert s[i + |d|..] == b;
  }

  /** Splitting `a + d + b` where `d` first occurs right after `a`. */
  lemma {:induction false} SplitAtFirst(a: string, d: string, b: string)
    requires |d| > 0
    requires forall j :: 0 <= j < |a| ==> !OccursAt(a + d + b, d, j)
    ensures Split(a + d + b, d) == [a] + Split(b, d)
  {
    var s := a + d + b;
    assert OccursAt(s, d, |a|) by { assert s[|a|..|a| + |d|] == d; }
    assert s[..|a|] == a;
    assert s[|a| + |d|..] == b;
  }

  /** A text that starts with `d` splits into an empty part and the rest. */
  lemma {:induction false} SplitAtStart(d: string, b: string)
    requires |d| > 0
    ensures Split(d + b, d) == [""] + Split(b, d)
  {
    SplitAtFirst("", d, b);
    assert "" + d + b == d + b;
  }

  /** A text with no occurrence of `d` is one part. */
  lemma {:induction false} SplitNone(a: string, d: string)
    requires |d| > 0
    requires forall j :: 0 <= j < |a| ==> !OccursAt(a, d, j)
    ensures Split(a, d) == [a]
  {
  }

  /** A one-character needle occurs exactly where that character is. */
  lemma {:induction false} OccursChar(s: string, c: char, j: int)
    ensures OccursAt(s, [c], j) <==> 0 <= j < |s| && s[j] == c
  {
    if 0 <= j < |s| && s[j] == c {
      assert s[j..j + 1] == [c];
    }
  }

  /** A text lacking the first character of `d` is not split at all. */
  lemma {:induction false} SplitClean(a: string, d: string)
    requires |d| > 0
    requires forall i :: 0 <= i < |a| ==> a[i] != d[0]
    ensures Split(a, d) == [a]
  {
    forall j | 0 <= j && j + |d| <= |a|
      ensures !OccursAt(a, d, j)
    {
      assert a[j..j + |d|][0] == a[j];
    }
  }

  /** Python `int()` of an ASCII decimal numeral. */
  function DigitsValue(ds: string): nat
    requires AllDigits(ds)
  {
    if |ds| == 0 then 0
    else DigitsValue(ds[..|ds| - 1]) * 10 + (ds[|ds| - 1] as int - '0' as int)
  }

  /** Python `str()` of a non-negative integer. */
  function DecimalString(n: nat): (r: string)
    ensures |r| >= 1 && AllDigits(r)
    ensures r[0] != '0' || n == 0
  {
    if n < 10 then [('0' as int + n) as char]
    else DecimalString(n / 10) + [('0' as int + n % 10) as char]
  }

  /** Reading back a printed number gives the number. */
  lemma {:induction false} DecimalRoundTrip(n: nat)
    ensures DigitsValue(DecimalString(n)) == n
  {
    if n >= 10 {
      var r := DecimalString(n);
      assert r[..|r| - 1] == DecimalString(n / 10);
      DecimalRoundTrip(n / 10);
    }
  }
}
