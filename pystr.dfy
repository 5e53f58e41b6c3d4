/**
 * The few Python 3.5 string primitives the router client relies on, with the
 * semantics CPython gives them: `str.split`, `str.join`, `str.splitlines`,
 * `str.strip`, `str.startswith`, `str.find`, slicing with negative bounds,
 * `str(int)`/`'%s' % int` and `int(str)`.
 */
module PyStr {
  import opened Wrappers

  /** `c.isspace()`: the characters CPython treats as whitespace (also what `int()` and `strip()` skip). */
  predicate IsSpace(c: char) {
    ('\t' <= c <= '\r') || ('\U{1C}' <= c <= '\U{1F}') || c == ' ' || c == '\U{85}' || c == '\U{A0}'
    || c == '\U{1680}' || ('\U{2000}' <= c <= '\U{200A}') || c == '\U{2028}' || c == '\U{2029}'
    || c == '\U{202F}' || c == '\U{205F}' || c == '\U{3000}'
  }

  /** The characters at which `str.splitlines()` ends a line. */
  predicate IsLineBreak(c: char) {
    c == '\n' || c == '\r' || c == '\U{B}' || c == '\U{C}' || c == '\U{1C}' || c == '\U{1D}'
    || c == '\U{1E}' || c == '\U{85}' || c == '\U{2028}' || c == '\U{2029}'
  }

  predicate IsDigit(c: char) {
    '0' <= c <= '9'
  }

  /** A non-empty run of ASCII decimal digits. */
  predicate IsDigits(s: string) {
    |s| > 0 && forall k :: 0 <= k < |s| ==> IsDigit(s[k])
  }

  /** No character of `s` satisfies `bad`. */
  predicate Avoids(s: string, bad: char -> bool) {
    forall k :: 0 <= k < |s| ==> !bad(s[k])
  }

  // ---------------------------------------------------------------- prefixes, search, slices

  /** `s.startswith(p)` */
  predicate StartsWith(s: string, p: string) {
    |p| <= |s| && s[..|p|] == p
  }

  /** `k` occurs in `s` at index `j`. */
  predicate OccursAt(s: string, k: string, j: int) {
    0 <= j && j + |k| <= |s| && s[j..j + |k|] == k
  }

  /** `s.find(k)`: the first index at which `k` occurs in `s`, or -1. */
  function Find(s: string, k: string): (r: int)
    ensures r == -1 || OccursAt(s, k, r)
    ensures forall j :: 0 <= j < (if r < 0 then |s| + 1 else r) ==> !OccursAt(s, k, j)
  {
    FindFrom(s, k, 0)
  }

  function FindFrom(s: string, k: string, from: nat): (r: int)
    requires from <= |s|
    ensures r == -1 || (from <= r && OccursAt(s, k, r))
    ensures forall j :: from <= j < (if r < 0 then |s| + 1 else r) ==> !OccursAt(s, k, j)
    decreases |s| - from
  {
    if OccursAt(s, k, from) then from
    else if from == |s| then -1
    else FindFrom(s, k, from + 1)
  }

  function Clamp(i: int, n: nat): (r: nat)
    ensures r <= n
  {
    if i < 0 then 0 else if i > n then n else i
  }

  /** `s[start:stop]` with Python's treatment of negative and out-of-range bounds. */
  function Slice(s: string, start: int, stop: int): (r: string)
    ensures |r| <= |s|
  {
    var a := Clamp(if start < 0 then start + |s| else start, |s|);
    var b := Clamp(if stop < 0 then stop + |s| else stop, |s|);
    if a < b then s[a..b] else []
  }

  lemma SliceOfFraming(pre: string, mid: string, post: string)
    requires |post| > 0
    ensures Slice(pre + mid + post, |pre|, -|post|) == mid
  {
    var s := pre + mid + post;
    if |mid| > 0 {
      assert s[|pre|..|pre| + |mid|] == mid;
    }
  }

  // ---------------------------------------------------------------- whitespace

  function TrimLeft(s: string): (r: string)
    ensures |r| <= |s|
    ensures r != [] ==> !IsSpace(r[0])
  {
    if s != [] && IsSpace(s[0]) then TrimLeft(s[1..]) else s
  }

  function TrimRight(s: string): (r: string)
    ensures |r| <= |s|
    ensures r != [] ==> !IsSpace(r[|r| - 1])
  {
    if s != [] && IsSpace(s[|s| - 1]) then TrimRight(s[..|s| - 1]) else s
  }

  /** Trimming on the left keeps a suffix. */
  lemma {:induction false} TrimLeftSuffix(s: string)
    ensures TrimLeft(s) == s[|s| - |TrimLeft(s)|..]
  {
    if s != [] && IsSpace(s[0]) {
      TrimLeftSuffix(s[1..]);
      assert s[1..][|s| - 1 - |TrimLeft(s)|..] == s[|s| - |TrimLeft(s)|..];
    }
  }

  /** Trimming on the right keeps a prefix. */
  lemma {:induction false} TrimRightPrefix(s: string)
    ensures TrimRight(s) == s[..|TrimRight(s)|]
  {
    if s != [] && IsSpace(s[|s| - 1]) {
      TrimRightPrefix(s[..|s| - 1]);
    }
  }

  /** `s.strip()` */
  function Strip(s: string): string {
    TrimRight(TrimLeft(s))
  }

  lemma StripNoEdgeSpace(s: string)
    requires s != [] && !IsSpace(s[0]) && !IsSpace(s[|s| - 1])
    ensures Strip(s) == s
  {
  }

  /** Text made of whitespace only. */
  predicate Blank(s: string) {
    forall k :: 0 <= k < |s| ==> IsSpace(s[k])
  }

  lemma {:induction false} TrimLeftBlank(lead: string, s: string)
    requires Blank(lead)
    ensures TrimLeft(lead + s) == TrimLeft(s)
  {
    if lead == [] {
      assert lead + s == s;
    } else {
      assert (lead + s)[0] == lead[0] && IsSpace(lead[0]);
      assert (lead + s)[1..] == lead[1..] + s;
      assert Blank(lead[1..]) by {
        forall k | 0 <= k < |lead[1..]| ensures IsSpace(lead[1..][k]) {
          assert lead[1..][k] == lead[k + 1];
        }
      }
      TrimLeftBlank(lead[1..], s);
    }
  }

  lemma {:induction false} TrimRightBlank(s: string, trail: string)
    requires Blank(trail)
    ensures TrimRight(s + trail) == TrimRight(s)
  {
    if trail == [] {
      assert s + trail == s;
    } else {
      assert (s + trail)[|s + trail| - 1] == trail[|trail| - 1] && IsSpace(trail[|trail| - 1]);
      assert (s + trail)[..|s + trail| - 1] == s + trail[..|trail| - 1];
      assert Blank(trail[..|trail| - 1]) by {
        var front := trail[..|trail| - 1];
        forall k | 0 <= k < |front| ensures IsSpace(front[k]) {
          assert front[k] == trail[k];
        }
      }
      TrimRightBlank(s, trail[..|trail| - 1]);
    }
  }

  /** `strip` removes any whitespace padding around a text it leaves as it is. */
  lemma StripPadded(lead: string, x: string, trail: string)
    requires Blank(lead) && Blank(trail) && Strip(x) == x
    ensures Strip(lead + x + trail) == x
  {
    assert lead + x + trail == lead + (x + trail);
    TrimLeftBlank(lead, x + trail);
    if x == [] {
      assert x + trail == trail + [];
      TrimLeftBlank(trail, []);
    } else {
      TrimRightPrefix(TrimLeft(x));
      assert x[0] == TrimLeft(x)[0];
      assert (x + trail)[0] == x[0];
      assert TrimLeft(x) == x;
      assert TrimLeft(x + trail) == x + trail;
      TrimRightBlank(x, trail);
    }
  }

  // ---------------------------------------------------------------- split and join

  /** `s.split(sep)` for a one-character separator: always at least one piece. */
  function SplitOn(s: string, sep: char): (r: seq<string>)
    ensures |r| >= 1
    ensures forall i :: 0 <= i < |r| ==> sep !in r[i]
  {
    if s == [] then [[]]
    else
      var rest := SplitOn(s[1..], sep);
      if s[0] == sep then [[]] + rest
      else [[s[0]] + rest[0]] + rest[1..]
  }

  /** `sep.join(parts)` */
  function Join(parts: seq<string>, sep: char): string {
    if |parts| == 0 then []
    else if |parts| == 1 then parts[0]
    else parts[0] + [sep] + Join(parts[1..], sep)
  }

  /** `sep.join(parts)` for a separator of any length, such as `", "`. */
  function JoinStr(parts: seq<string>, sep: string): string {
    if |parts| == 0 then []
    else if |parts| == 1 then parts[0]
    else parts[0] + sep + JoinStr(parts[1..], sep)
  }

  /** The parts with `pad` written before every one but the first. */
  function PadTail(parts: seq<string>, pad: string): (r: seq<string>)
    requires |parts| >= 1
    ensures |r| == |parts| && r[0] == parts[0]
    ensures forall i :: 1 <= i < |parts| ==> r[i] == pad + parts[i]
  {
    [parts[0]] + seq(|parts| - 1, i requires 0 <= i < |parts| - 1 => pad + parts[i + 1])
  }

  lemma {:induction false} JoinHeadPrefix(parts: seq<string>, pad: string, sep: char)
    requires |parts| >= 1
    ensures Join([pad + parts[0]] + parts[1..], sep) == pad + Join(parts, sep)
  {
    var q := [pad + parts[0]] + parts[1..];
    if |parts| > 1 {
      assert q[1..] == parts[1..];
      assert pad + parts[0] + [sep] + Join(parts[1..], sep) == pad + (parts[0] + [sep] + Join(parts[1..], sep));
    }
  }

  /** Joining with a separator `c` followed by `pad` is joining with `c` once every part but the first carries `pad`. */
  lemma {:induction false} JoinPadTail(parts: seq<string>, c: char, pad: string)
    requires |parts| >= 1
    ensures Join(PadTail(parts, pad), c) == JoinStr(parts, [c] + pad)
  {
    if |parts| > 1 {
      var p := PadTail(parts, pad);
      var rest := PadTail(parts[1..], pad);
      assert p[1..] == [pad + rest[0]] + rest[1..];
      JoinHeadPrefix(rest, pad, c);
      JoinPadTail(parts[1..], c, pad);
      assert parts[0] + [c] + (pad + JoinStr(parts[1..], [c] + pad))
          == parts[0] + ([c] + pad) + JoinStr(parts[1..], [c] + pad);
    }
  }

  lemma {:induction false} SplitNoSep(s: string, sep: char)
    requires sep !in s
    ensures SplitOn(s, sep) == [s]
  {
    if s != [] {
      SplitNoSep(s[1..], sep);
      assert [s[0]] + s[1..] == s;
    }
  }

  lemma {:induction false} SplitAfterFirst(a: string, b: string, sep: char)
    requires sep !in a
    ensures SplitOn(a + [sep] + b, sep) == [a] + SplitOn(b, sep)
  {
    if a == [] {
      assert a + [sep] + b == [sep] + b;
      assert (a + [sep] + b)[1..] == b;
    } else {
      assert (a + [sep] + b)[1..] == a[1..] + [sep] + b;
      SplitAfterFirst(a[1..], b, sep);
      assert [a[0]] + a[1..] == a;
    }
  }

  /** Splitting a join gives the parts back when no part holds the separator. */
  lemma {:induction false} SplitJoin(parts: seq<string>, sep: char)
    requires |parts| >= 1
    requires forall i :: 0 <= i < |parts| ==> sep !in parts[i]
    ensures SplitOn(Join(parts, sep), sep) == parts
  {
    if |parts| == 1 {
      SplitNoSep(parts[0], sep);
    } else {
      SplitJoin(parts[1..], sep);
      SplitAfterFirst(parts[0], Join(parts[1..], sep), sep);
      assert [parts[0]] + parts[1..] == parts;
    }
  }

  /** Joining the pieces of a split gives the string back. */
  lemma {:induction false} JoinSplit(s: string, sep: char)
    ensures Join(SplitOn(s, sep), sep) == s
  {
    if s != [] {
      var rest := SplitOn(s[1..], sep);
      JoinSplit(s[1..], sep);
      if s[0] == sep {
        assert SplitOn(s, sep) == [[]] + rest;
        assert ([[]] + rest)[1..] == rest;
        assert s == [] + [sep] + s[1..];
      } else {
        var r := SplitOn(s, sep);
        assert r == [[s[0]] + rest[0]] + rest[1..];
        if |rest| == 1 {
          assert s == [s[0]] + rest[0];
        } else {
          assert r[1..] == rest[1..];
          assert Join(rest, sep) == rest[0] + [sep] + Join(rest[1..], sep);
          assert s == [s[0]] + s[1..];
        }
      }
    }
  }

  /** Splitting before a last piece that holds no separator adds that piece to the split of the front. */
  lemma {:induction false} SplitBeforeLast(a: string, b: string, sep: char)
    requires sep !in b
    ensures SplitOn(a + [sep] + b, sep) == SplitOn(a, sep) + [b]
  {
    if a == [] {
      assert (a + [sep] + b)[1..] == b;
      SplitNoSep(b, sep);
    } else {
      assert (a + [sep] + b)[1..] == a[1..] + [sep] + b;
      SplitBeforeLast(a[1..], b, sep);
    }
  }

  /** Joining one more part appends the separator and that part. */
  lemma {:induction false} JoinSnoc(parts: seq<string>, x: string, sep: char)
    requires |parts| >= 1
    ensures Join(parts + [x], sep) == Join(parts, sep) + [sep] + x
  {
    if |parts| > 1 {
      JoinSnoc(parts[1..], x, sep);
      assert (parts + [x])[1..] == parts[1..] + [x];
    }
  }

  /** A join holds only the separator and characters of its parts. */
  lemma {:induction false} JoinAvoids(parts: seq<string>, sep: char, bad: char -> bool)
    requires !bad(sep)
    requires forall i :: 0 <= i < |parts| ==> Avoids(parts[i], bad)
    ensures Avoids(Join(parts, sep), bad)
  {
    if |parts| > 1 {
      JoinAvoids(parts[1..], sep, bad);
      var j := Join(parts[1..], sep);
      var s := parts[0] + [sep] + j;
      forall k | 0 <= k < |s| ensures !bad(s[k]) {
        if k < |parts[0]| {
          assert s[k] == parts[0][k];
        } else if k > |parts[0]| {
          assert s[k] == j[k - |parts[0]| - 1];
        }
      }
    }
  }

  /** The length of the longest prefix of `s` none of whose characters satisfies `stop`. */
  function RunLength(s: string, stop: char -> bool): (n: nat)
    ensures n <= |s|
    ensures forall k :: 0 <= k < n ==> !stop(s[k])
    ensures n < |s| ==> stop(s[n])
  {
    if s == [] || stop(s[0]) then 0 else 1 + RunLength(s[1..], stop)
  }

  /** `s.split(sep, 1)`: the text before and after the first separator, or `[s]` if there is none. */
  function SplitOnce(s: string, sep: char): (r: seq<string>)
    ensures 1 <= |r| <= 2
    ensures |r| == 1 <==> sep !in s
    ensures |r| == 1 ==> r[0] == s
    ensures |r| == 2 ==> s == r[0] + [sep] + r[1] && sep !in r[0]
  {
    var n := RunLength(s, c => c == sep);
    if n == |s| then [s]
    else
      assert s == s[..n] + [sep] + s[n + 1..];
      [s[..n], s[n + 1..]]
  }

  /** `s.split()`: the maximal runs of non-whitespace, leading and trailing whitespace dropped. */
  function SplitWs(s: string): seq<string>
    decreases |s|
  {
    var t := TrimLeft(s);
    if t == [] then []
    else
      var n := RunLength(t, IsSpace);
      [t[..n]] + SplitWs(t[n..])
  }

  /** `s.splitlines()`: `\r\n` ends one line; a final line break adds no empty line. */
  function SplitLines(s: string): (r: seq<string>)
    ensures forall i :: 0 <= i < |r| ==> Avoids(r[i], IsLineBreak)
    decreases |s|
  {
    if s == [] then []
    else
      var n := RunLength(s, IsLineBreak);
      if n == |s| then [s]
      else
        var skip := if s[n] == '\r' && n + 1 < |s| && s[n + 1] == '\n' then 2 else 1;
        [s[..n]] + SplitLines(s[n + skip..])
  }

  lemma SplitLinesOneLine(s: string)
    requires s != [] && Avoids(s, IsLineBreak)
    ensures SplitLines(s) == [s]
  {
  }

  /** A run without a stopping character, followed by a stop or by nothing, is the whole prefix. */
  lemma {:induction false} RunLengthPrefix(a: string, rest: string, stop: char -> bool)
    requires forall k :: 0 <= k < |a| ==> !stop(a[k])
    requires rest == [] || stop(rest[0])
    ensures RunLength(a + rest, stop) == |a|
  {
    if a != [] {
      assert (a + rest)[1..] == a[1..] + rest;
      RunLengthPrefix(a[1..], rest, stop);
    }
  }

  /** `(" " + b).split() == [b]` for a word without whitespace. */
  lemma SplitWsSpacedWord(b: string)
    requires b != [] && Avoids(b, IsSpace)
    ensures SplitWs(" " + b) == [b]
  {
    var s := " " + b;
    assert s[1..] == b;
    assert !IsSpace(b[0]);
    assert TrimLeft(b) == b;
    assert TrimLeft(s) == b;
    assert b + [] == b;
    RunLengthPrefix(b, [], IsSpace);
    assert b[..|b|] == b && b[|b|..] == [];
  }

  /** `(a + " " + b).split() == [a, b]` for two words without whitespace. */
  lemma SplitWsTwoWords(a: string, b: string)
    requires a != [] && b != [] && Avoids(a, IsSpace) && Avoids(b, IsSpace)
    ensures SplitWs(a + " " + b) == [a, b]
  {
    var s := a + " " + b;
    assert TrimLeft(s) == s by {
      assert s[0] == a[0];
    }
    assert s == a + (" " + b);
    RunLengthPrefix(a, " " + b, IsSpace);
    assert s[..|a|] == a && s[|a|..] == " " + b;
    SplitWsSpacedWord(b);
  }

  /** `(a + sep + b).split(sep, 1) == [a, b]` when `a` holds no separator. */
  lemma SplitOnceAt(a: string, b: string, sep: char)
    requires sep !in a
    ensures SplitOnce(a + [sep] + b, sep) == [a, b]
  {
    var s := a + [sep] + b;
    assert s == a + ([sep] + b);
    RunLengthPrefix(a, [sep] + b, c => c == sep);
    assert s[..|a|] == a && s[|a| + 1..] == b;
  }

  /** ASCII `str.upper()`: the same text with no lower-case ASCII letter left. */
  function Upper(s: string): (r: string)
    ensures |r| == |s|
    ensures forall k :: 0 <= k < |r| ==> !('a' <= r[k] <= 'z')
    ensures forall k :: 0 <= k < |r| && !('a' <= s[k] <= 'z') ==> r[k] == s[k]
    ensures forall k :: 0 <= k < |s| && 'a' <= s[k] <= 'z' ==> r[k] == s[k] - 'a' + 'A'
  {
    seq(|s|, k requires 0 <= k < |s| => if 'a' <= s[k] <= 'z' then s[k] - 'a' + 'A' else s[k])
  }

  /** Upper-casing twice is upper-casing once. */
  lemma UpperIdempotent(s: string)
    ensures Upper(Upper(s)) == Upper(s)
  {
  }

  // ---------------------------------------------------------------- integers

  function DigitChar(d: nat): (c: char)
    requires d < 10
    ensures IsDigit(c)
  {
    '0' + d as char
  }

  /** The decimal value of a run of digits. */
  function DigitsValue(s: string): nat
    requires IsDigits(s)
  {
    var last := (s[|s| - 1] - '0') as nat;
    if |s| == 1 then last else DigitsValue(s[..|s| - 1]) * 10 + last
  }

  /** `str(n)` for a natural number: its shortest decimal numeral. */
  function NatStr(n: nat): (r: string)
    ensures IsDigits(r)
    ensures DigitsValue(r) == n
  {
    if n < 10 then [DigitChar(n)]
    else
      var r := NatStr(n / 10) + [DigitChar(n % 10)];
      assert r[..|r| - 1] == NatStr(n / 10);
      r
  }

  function Pow10(k: nat): (r: nat)
    ensures r >= 1
  {
    if k == 0 then 1 else 10 * Pow10(k - 1)
  }

  /** A numeral has at most `k` digits exactly when the number is below `10^k`. */
  lemma {:induction false} NatStrLength(n: nat, k: nat)
    requires k >= 1
    ensures |NatStr(n)| <= k <==> n < Pow10(k)
  {
    if n >= 10 {
      assert |NatStr(n)| == |NatStr(n / 10)| + 1;
      if k > 1 {
        NatStrLength(n / 10, k - 1);
        assert n / 10 < Pow10(k - 1) <==> n < 10 * Pow10(k - 1);
      } else {
        assert |NatStr(n / 10)| >= 1;
      }
    } else if k > 1 {
      assert Pow10(k) == 10 * Pow10(k - 1);
    }
  }

  /** `str(i)` / `'%s' % i` for an int. */
  function IntStr(i: int): (r: string)
    ensures r != []
  {
    if i < 0 then "-" + NatStr(-i) else NatStr(i)
  }

  /** `int(s)`: optional surrounding whitespace, an optional sign, then ASCII digits; anything else raises ValueError. */
  function ParseInt(s: string): Option<int> {
    var t := Strip(s);
    if t != [] && (t[0] == '+' || t[0] == '-') then
      if IsDigits(t[1..]) then
        var v: int := DigitsValue(t[1..]);
        Some(if t[0] == '-' then -v else v)
      else None
    else if IsDigits(t) then Some(DigitsValue(t))
    else None
  }

  /** `int(text)` as a step that may raise: its failure is a ValueError. */
  function IntOf(text: string): Result<int, PyError> {
    match ParseInt(text)
    case Some(n) => Ok(n)
    case None => Err(ValueError)
  }

  /** `int(str(i)) == i` */
  lemma ParseIntStr(i: int)
    ensures ParseInt(IntStr(i)) == Some(i)
  {
    var s := IntStr(i);
    if i < 0 {
      var d := NatStr(-i);
      assert s[1..] == d && s[|s| - 1] == d[|d| - 1];
      assert IsDigit(s[|s| - 1]);
      StripNoEdgeSpace(s);
    } else {
      assert IsDigit(s[0]) && IsDigit(s[|s| - 1]);
      StripNoEdgeSpace(s);
    }
  }
  /** `int(str(n)) == n`, as a step that cannot raise. */
  lemma IntOfIntStr(n: int)
    ensures IntOf(IntStr(n)) == Ok(n)
  {
    ParseIntStr(n);
  }


  /** `str(i)` holds no whitespace. */
  lemma IntStrNoSpace(i: int)
    ensures Avoids(IntStr(i), IsSpace)
  {
    if i < 0 {
      var d := NatStr(-i);
      forall k | 0 <= k < |IntStr(i)| ensures !IsSpace(IntStr(i)[k]) {
        if k > 0 {
          assert IntStr(i)[k] == d[k - 1];
        }
      }
    }
  }

  /** The numeral of a natural number is free of every non-digit. */
  lemma NatStrAvoids(n: nat, bad: char -> bool)
    requires forall c :: IsDigit(c) ==> !bad(c)
    ensures Avoids(IntStr(n), bad)
  {
  }

  /** The number an int-parse accepts never needs a '-' when the text has none. */
  lemma ParseIntNoMinus(s: string)
    requires '-' !in s && ParseInt(s).Some?
    ensures ParseInt(s).value >= 0
  {
    var t := Strip(s);
    TrimLeftSuffix(s);
    TrimRightPrefix(TrimLeft(s));
    assert t == s[|s| - |TrimLeft(s)|..][..|t|];
  }
}
