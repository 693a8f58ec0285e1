/**
 * The Python string operations the pipeline is built from, over `string`
 * (a sequence of Unicode code points): `str.strip()`, `str.startswith`,
 * `str.split(sep)`, `sep.join(xs)` and `str.splitlines()`.
 */
module Text {
  import opened Wrappers

  /** The code points for which Python's `str.isspace()` holds: what `strip()` removes. */
  predicate IsSpace(c: char) {
    || ('\t' <= c <= '\r')
    || ('\U{1C}' <= c <= '\U{1F}')
    || c == ' ' || c == '\U{85}' || c == '\U{A0}' || c == '\U{1680}'
    || ('\U{2000}' <= c <= '\U{200A}')
    || c == '\U{2028}' || c == '\U{2029}' || c == '\U{202F}' || c == '\U{205F}' || c == '\U{3000}'
  }

  predicate AllSpace(s: string) {
    forall i :: 0 <= i < |s| ==> IsSpace(s[i])
  }

  /** `s.lstrip()`. */
  function TrimLeft(s: string): string {
    if s != [] && IsSpace(s[0]) then TrimLeft(s[1..]) else s
  }

  /** `s.rstrip()`. */
  function TrimRight(s: string): string {
    if s != [] && IsSpace(s[|s| - 1]) then TrimRight(s[..|s| - 1]) else s
  }

  /** `lstrip` removes the longest whitespace prefix. */
  lemma {:induction false} TrimLeftRemovesPrefix(s: string)
    ensures var r := TrimLeft(s);
      && |r| <= |s| && r == s[|s| - |r|..]
      && AllSpace(s[..|s| - |r|])
      && (r == [] || !IsSpace(r[0]))
    decreases |s|
  {
    if s != [] && IsSpace(s[0]) {
      TrimLeftRemovesPrefix(s[1..]);
      var r := TrimLeft(s);
      assert s[..|s| - |r|] == [s[0]] + s[1..][..|s| - 1 - |r|];
    }
  }

  /** `rstrip` removes the longest whitespace suffix. */
  lemma {:induction false} TrimRightRemovesSuffix(s: string)
    ensures var r := TrimRight(s);
      && |r| <= |s| && r == s[..|r|]
      && AllSpace(s[|r|..])
      && (r == [] || !IsSpace(r[|r| - 1]))
    decreases |s|
  {
    if s != [] && IsSpace(s[|s| - 1]) {
      TrimRightRemovesSuffix(s[..|s| - 1]);
      var r := TrimRight(s);
      assert s[|r|..] == s[..|s| - 1][|r|..] + [s[|s| - 1]];
    }
  }

  /** `rstrip` after `lstrip` keeps one stretch of `s` between two all-whitespace ends. */
  lemma StripBounds(s: string)
    ensures var l := TrimLeft(s); var r := TrimRight(l); var a := |s| - |l|;
      && 0 <= a && a + |r| <= |s| && r == s[a..a + |r|]
      && AllSpace(s[..a]) && AllSpace(s[a + |r|..])
      && (r != [] ==> !IsSpace(r[0]) && !IsSpace(r[|r| - 1]))
  {
    TrimLeftRemovesPrefix(s);
    TrimRightRemovesSuffix(TrimLeft(s));
    Stretch(s, TrimLeft(s), TrimRight(TrimLeft(s)));
  }

  /**
   * A prefix `r` of a suffix `l` of `s`, each cut off at whitespace only,
   * is one stretch of `s` with nothing but whitespace around it.
   */
  lemma Stretch(s: string, l: string, r: string)
    requires |l| <= |s| && l == s[|s| - |l|..] && AllSpace(s[..|s| - |l|]) && (l == [] || !IsSpace(l[0]))
    requires |r| <= |l| && r == l[..|r|] && AllSpace(l[|r|..]) && (r == [] || !IsSpace(r[|r| - 1]))
    ensures var a := |s| - |l|;
      && a + |r| <= |s| && r == s[a..a + |r|]
      && AllSpace(s[..a]) && AllSpace(s[a + |r|..])
      && (r != [] ==> !IsSpace(r[0]) && !IsSpace(r[|r| - 1]))
  {
    var a := |s| - |l|;
    assert s[a + |r|..] == l[|r|..];
    assert r != [] ==> r[0] == l[0];
  }

  /** `s.strip()`: `s` without its leading and trailing whitespace. */
  function Strip(s: string): (r: string)
    ensures |r| <= |s|
    ensures r == [] <==> AllSpace(s)
    ensures r != [] ==> !IsSpace(r[0]) && !IsSpace(r[|r| - 1])
    ensures var a := |s| - |TrimLeft(s)|;
      && 0 <= a && a + |r| <= |s| && r == s[a..a + |r|]
      && AllSpace(s[..a]) && AllSpace(s[a + |r|..])
  {
    StripBounds(s);
    var r := TrimRight(TrimLeft(s));
    var a := |s| - |TrimLeft(s)|;
    assert r == [] <==> AllSpace(s) by {
      if r == [] {
        assert s == s[..a] + s[a..];
      } else {
        assert s[a] == r[0];
      }
    }
    r
  }

  /** A non-empty string with no whitespace at either end: what `strip()` leaves of non-blank text. */
  predicate Trimmed(s: string) {
    s != [] && !IsSpace(s[0]) && !IsSpace(s[|s| - 1])
  }

  /** Text with no whitespace at either end is left alone by `strip()`. */
  lemma StripTrimmed(s: string)
    requires Trimmed(s)
    ensures Strip(s) == s
  {
    assert TrimLeft(s) == s;
    assert TrimRight(s) == s;
  }

  /** Stripping twice strips nothing more. */
  lemma StripIdempotent(s: string)
    ensures Strip(Strip(s)) == Strip(s)
  {
    var r := Strip(s);
    if r != [] {
      assert TrimLeft(r) == r;
      assert TrimRight(r) == r;
    }
  }

  /** `s.startswith(p)`. */
  predicate StartsWith(s: string, p: string) {
    |p| <= |s| && s[..|p|] == p
  }

  /** `d` occurs in `s` starting at index `j`. */
  predicate OccursAt(s: string, d: string, j: int) {
    0 <= j && j + |d| <= |s| && s[j..j + |d|] == d
  }

  /** `d in s` (substring test). */
  predicate Contains(s: string, d: string) {
    exists j :: 0 <= j <= |s| && OccursAt(s, d, j)
  }

  /** `s.find(d, i)`: the first occurrence of `d` in `s` at or after `i`. */
  function FindFrom(s: string, d: string, i: nat): (r: Option<nat>)
    requires |d| > 0 && i <= |s|
    ensures r.Some? ==> i <= r.value && OccursAt(s, d, r.value)
    ensures r.Some? ==> forall j :: i <= j < r.value ==> !OccursAt(s, d, j)
    ensures r.None? ==> forall j :: i <= j ==> !OccursAt(s, d, j)
    decreases |s| - i
  {
    if i + |d| > |s| then None
    else if s[i..i + |d|] == d then Some(i)
    else FindFrom(s, d, i + 1)
  }

  /** `sep.join(xs)`. */
  function Join(xs: seq<string>, sep: string): string
  {
    if |xs| == 0 then ""
    else if |xs| == 1 then xs[0]
    else xs[0] + sep + Join(xs[1..], sep)
  }

  /**
   * `s.split(d)` for a non-empty separator: cut at each leftmost,
   * non-overlapping occurrence of `d`. Joining the pieces with `d` gives `s`
   * back, no piece contains `d`, and every cut is at the first occurrence
   * of `d` after the previous cut.
   */
  function Split(s: string, d: string): (r: seq<string>)
    requires |d| > 0
    ensures |r| >= 1
    ensures Join(r, d) == s
    ensures forall k :: 0 <= k < |r| ==> !Contains(r[k], d)
    ensures forall k :: 0 <= k < |r| - 1 ==> NoEarlyMatch(r[k], d)
    decreases |s|
  {
    match FindFrom(s, d, 0)
    case None => [s]
    case Some(i) =>
      SplitHead(s, d, i);
      var rest := Split(s[i + |d|..], d);
      var r := [s[..i]] + rest;
      assert forall k :: 0 < k < |r| ==> r[k] == rest[k - 1];
      assert r[1..] == rest;
      r
  }

  /**
   * `f` is a piece that `Split` keeps whole when `d` follows it: in `f + d`
   * no occurrence of `d` starts before the appended one.
   */
  predicate NoEarlyMatch(f: string, d: string)
    requires |d| > 0
  {
    forall j :: 0 <= j < |f| ==> !OccursAt(f + d, d, j)
  }

  /** A piece that does not match early is cut exactly where `d` is appended. */
  lemma NoEarlyMatchFind(f: string, d: string)
    requires |d| > 0 && NoEarlyMatch(f, d)
    ensures FindFrom(f + d, d, 0) == Some(|f|)
  {
    assert (f + d)[|f|..|f| + |d|] == d;
    assert OccursAt(f + d, d, |f|);
  }

  /** A piece that does not match early does not contain `d` either. */
  lemma NoEarlyMatchNotContains(f: string, d: string)
    requires |d| > 0 && NoEarlyMatch(f, d)
    ensures !Contains(f, d)
  {
    forall j | 0 <= j <= |f| ensures !OccursAt(f, d, j) {
      if j + |d| <= |f| {
        assert (f + d)[j..j + |d|] == f[j..j + |d|];
        assert !OccursAt(f + d, d, j);
      }
    }
  }

  /** What comes before the first occurrence of `d` is a piece that neither contains `d` nor matches early. */
  lemma SplitHead(s: string, d: string, i: nat)
    requires |d| > 0 && OccursAt(s, d, i)
    requires forall j :: 0 <= j < i ==> !OccursAt(s, d, j)
    ensures i + |d| <= |s| && s == s[..i] + d + s[i + |d|..]
    ensures !Contains(s[..i], d) && NoEarlyMatch(s[..i], d)
  {
    var head := s[..i];
    assert NoEarlyMatch(head, d) by {
      assert head + d == s[..i + |d|];
      forall j | 0 <= j < |head| ensures !OccursAt(head + d, d, j) {
        assert (head + d)[j..j + |d|] == s[j..j + |d|];
        assert !OccursAt(s, d, j);
      }
    }
    NoEarlyMatchNotContains(head, d);
  }

  lemma FindInPrefix(p: string, q: string, d: string, i: nat)
    requires |d| > 0 && i <= |p| && FindFrom(p, d, i).Some?
    ensures FindFrom(p + q, d, i) == FindFrom(p, d, i)
    decreases |p| - i
  {
    assert (p + q)[i..i + |d|] == p[i..i + |d|];
    if p[i..i + |d|] != d {
      FindInPrefix(p, q, d, i + 1);
    }
  }

  lemma SplitAt(s: string, d: string, i: nat)
    requires |d| > 0 && FindFrom(s, d, 0) == Some(i)
    ensures Split(s, d) == [s[..i]] + Split(s[i + |d|..], d)
  {
  }

  /** Text that does not contain `d` splits into itself alone. */
  lemma SplitWhole(f: string, d: string)
    requires |d| > 0 && !Contains(f, d)
    ensures Split(f, d) == [f]
  {
  }

  /** A piece that does not match early is cut off whole, at the separator that follows it. */
  lemma SplitFirst(f: string, tail: string, d: string)
    requires |d| > 0 && NoEarlyMatch(f, d)
    ensures Split(f + d + tail, d) == [f] + Split(tail, d)
  {
    var s := f + d + tail;
    assert s == (f + d) + tail;
    NoEarlyMatchFind(f, d);
    FindInPrefix(f + d, tail, d, 0);
    SplitAt(s, d, |f|);
    assert s[..|f|] == f;
    assert s[|f| + |d|..] == tail;
  }

  /**
   * Splitting a join gives the pieces back when no piece but the last
   * matches early and the last does not contain the separator at all.
   */
  lemma {:induction false} SplitJoin(fs: seq<string>, d: string)
    requires |d| > 0 && |fs| >= 1
    requires forall k :: 0 <= k < |fs| - 1 ==> NoEarlyMatch(fs[k], d)
    requires !Contains(fs[|fs| - 1], d)
    ensures Split(Join(fs, d), d) == fs
  {
    if |fs| == 1 {
      SplitWhole(fs[0], d);
    } else {
      SplitFirst(fs[0], Join(fs[1..], d), d);
      assert fs[1..][|fs| - 2] == fs[|fs| - 1];
      SplitJoin(fs[1..], d);
      assert fs == [fs[0]] + fs[1..];
    }
  }

  /** The line boundaries of Python's `str.splitlines()`. */
  predicate IsLineBreak(c: char) {
    || c == '\n' || c == '\r' || c == '\U{0B}' || c == '\U{0C}'
    || c == '\U{1C}' || c == '\U{1D}' || c == '\U{1E}' || c == '\U{85}'
    || c == '\U{2028}' || c == '\U{2029}'
  }

  /** The index of the first line boundary in `s` at or after `i`, or `|s|`. */
  function FirstBreak(s: string, i: nat): (r: nat)
    requires i <= |s|
    ensures i <= r <= |s|
    ensures r < |s| ==> IsLineBreak(s[r])
    ensures forall j :: i <= j < r ==> !IsLineBreak(s[j])
    decreases |s| - i
  {
    if i == |s| || IsLineBreak(s[i]) then i else FirstBreak(s, i + 1)
  }

  /**
   * `s.splitlines()`: the lines of `s` without their boundaries; `"\r\n"` is
   * one boundary, and a final boundary does not start an empty last line.
   */
  function SplitLines(s: string): (r: seq<string>)
    ensures (r == []) == (s == [])
    ensures r != [] ==> r[0] == s[..FirstBreak(s, 0)]
    ensures forall k, j :: 0 <= k < |r| && 0 <= j < |r[k]| ==> !IsLineBreak(r[k][j])
    decreases |s|
  {
    if s == [] then []
    else
      var i := FirstBreak(s, 0);
      if i == |s| then [s]
      else
        var w := if s[i] == '\r' && i + 1 < |s| && s[i + 1] == '\n' then 2 else 1;
        [s[..i]] + SplitLines(s[i + w..])
  }

  /** No line boundary anywhere in `x`. */
  predicate NoBreak(x: string) {
    forall j :: 0 <= j < |x| ==> !IsLineBreak(x[j])
  }

  /**
   * `"\n".join(lines).splitlines()` gives the lines back, with or without a
   * final `"\n"`, when no line holds a boundary and the last is not empty.
   */
  lemma SplitLinesJoin(lines: seq<string>)
    requires |lines| >= 1 && lines[|lines| - 1] != []
    requires forall k :: 0 <= k < |lines| ==> NoBreak(lines[k])
    ensures SplitLines(Join(lines, "\n")) == lines
    ensures SplitLines(Join(lines, "\n") + "\n") == lines
  {
    SplitLinesJoinThen(lines, "");
    assert Join(lines, "\n") + "" == Join(lines, "\n");
    SplitLinesJoinThen(lines, "\n");
  }

  /** The join of the lines, then nothing or a final `"\n"`, splits back into the lines. */
  lemma {:induction false} SplitLinesJoinThen(lines: seq<string>, tail: string)
    requires |lines| >= 1 && lines[|lines| - 1] != []
    requires forall k :: 0 <= k < |lines| ==> NoBreak(lines[k])
    requires tail == "" || tail == "\n"
    ensures SplitLines(Join(lines, "\n") + tail) == lines
  {
    if |lines| == 1 {
      SplitLinesOne(lines[0]);
      assert lines[0] + "" == lines[0];
    } else {
      assert lines[1..][|lines| - 2] == lines[|lines| - 1];
      SplitLinesJoinThen(lines[1..], tail);
      SplitLinesJoinStep(lines, tail);
    }
  }

  /** One more line in front of a join that splits back puts that line in front of the lines. */
  lemma SplitLinesJoinStep(lines: seq<string>, tail: string)
    requires |lines| >= 2 && NoBreak(lines[0])
    requires SplitLines(Join(lines[1..], "\n") + tail) == lines[1..]
    ensures SplitLines(Join(lines, "\n") + tail) == lines
  {
    var x := lines[0];
    var rest := Join(lines[1..], "\n");
    assert Join(lines, "\n") + tail == x + "\n" + (rest + tail);
    SplitLinesAfterLine(x, rest + tail);
    assert lines == [x] + lines[1..];
  }

  /** A single non-empty line without a boundary is its own only line, with or without a final `"\n"`. */
  lemma SplitLinesOne(x: string)
    requires x != [] && NoBreak(x)
    ensures SplitLines(x) == [x] && SplitLines(x + "\n") == [x]
  {
    var t := x + "\n";
    assert t[|x|] == '\n' && forall j :: 0 <= j < |x| ==> t[j] == x[j];
    assert t[..|x|] == x && t[|x| + 1..] == [];
  }

  /** A line without a boundary, then `"\n"`, is the first line of the text. */
  lemma SplitLinesAfterLine(x: string, rest: string)
    requires NoBreak(x)
    ensures SplitLines(x + "\n" + rest) == [x] + SplitLines(rest)
  {
    var t := x + "\n" + rest;
    assert t[|x|] == '\n' && forall j :: 0 <= j < |x| ==> t[j] == x[j];
    assert FirstBreak(t, 0) == |x|;
    assert t[..|x|] == x && t[|x| + 1..] == rest;
  }
}
