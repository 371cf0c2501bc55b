/**
 * The few Python `str` builtins the tool relies on: `isspace` (which is also
 * what `\s` matches in a `str` regex), `strip()` with no argument,
 * `find` of one character and `splitlines()`.
 */
module PyStr {

  /** `c.isspace()`: the ASCII controls 9-13 and 28-31, the space, and the Unicode spaces. */
  predicate IsSpace(c: char) {
    c == ' ' || ('\t' <= c <= '\r') || ('\U{1C}' <= c <= '\U{1F}')
    || c == '\U{85}' || c == '\U{A0}' || c == '\U{1680}' || ('\U{2000}' <= c <= '\U{200A}')
    || c == '\U{2028}' || c == '\U{2029}' || c == '\U{202F}' || c == '\U{205F}' || c == '\U{3000}'
  }

  predicate AllSpace(s: string) {
    forall i :: 0 <= i < |s| ==> IsSpace(s[i])
  }

  /** What `strip()` returns is empty or starts and ends with a non-space. */
  predicate IsStripped(s: string) {
    s == [] || (!IsSpace(s[0]) && !IsSpace(s[|s| - 1]))
  }

  /** The end of the run of spaces that starts at `i`. */
  function SkipSpace(s: string, i: nat): (j: nat)
    requires i <= |s|
    ensures i <= j <= |s| && AllSpace(s[i..j])
    ensures j < |s| ==> !IsSpace(s[j])
    decreases |s| - i
  {
    if i < |s| && IsSpace(s[i]) then SkipSpace(s, i + 1) else i
  }

  /** The start of the run of spaces that ends at `j`, not going below `lo`. */
  function BackSpace(s: string, j: nat, lo: nat): (k: nat)
    requires lo <= j <= |s|
    ensures lo <= k <= j && AllSpace(s[k..j])
    ensures lo < k ==> !IsSpace(s[k - 1])
    decreases j
  {
    if lo < j && IsSpace(s[j - 1]) then
      var k := BackSpace(s, j - 1, lo);
      assert s[k..j] == s[k..j - 1] + [s[j - 1]];
      k
    else j
  }

  /** The slice `strip()` keeps: spaces before it, spaces after it, none at its ends. */
  function StripBounds(s: string): (b: (nat, nat))
    ensures b.0 <= b.1 <= |s|
    ensures AllSpace(s[..b.0]) && AllSpace(s[b.1..])
    ensures IsStripped(s[b.0..b.1])
  {
    var i := SkipSpace(s, 0);
    (i, BackSpace(s, |s|, i))
  }

  /** `s.strip()` */
  function Strip(s: string): (r: string)
    ensures IsStripped(r)
    ensures |r| <= |s|
  {
    var b := StripBounds(s);
    s[b.0..b.1]
  }

  /** `strip()` is the only slice with spaces around it and none at its own ends. */
  lemma StripUnique(s: string, i: nat, j: nat)
    requires i <= j <= |s|
    requires AllSpace(s[..i]) && AllSpace(s[j..]) && IsStripped(s[i..j])
    ensures Strip(s) == s[i..j]
  {
    var b := StripBounds(s);
    if i < j {
      assert b.0 == i;
      assert b.1 == j;
    } else {
      assert b.0 == b.1;
    }
  }

  /** A string that has no space at either end is its own `strip()`. */
  lemma StripOfStripped(s: string)
    requires IsStripped(s)
    ensures Strip(s) == s
  {
    assert s[..0] == [] && s[|s|..] == [] && s[0..|s|] == s;
    StripUnique(s, 0, |s|);
  }

  /** Spaces appended to a string do not change its `strip()`. */
  lemma StripIgnoresTrailingSpace(x: string, w: string)
    requires AllSpace(w)
    ensures Strip(x + w) == Strip(x)
  {
    var b := StripBounds(x);
    var t := x + w;
    assert t[..b.0] == x[..b.0];
    assert t[b.1..] == x[b.1..] + w;
    assert t[b.0..b.1] == x[b.0..b.1];
    StripUnique(t, b.0, b.1);
  }

  /** `s.find(c, i)`, with `|s|` in place of -1 when there is no `c` from `i` on. */
  function IndexFrom(s: string, c: char, i: nat): (j: nat)
    ensures j <= |s|
    ensures j < |s| ==> i <= j && s[j] == c
    ensures forall k :: i <= k < j ==> s[k] != c
    ensures i <= |s| ==> i <= j
    decreases |s| - i
  {
    if |s| <= i then |s| else if s[i] == c then i else IndexFrom(s, c, i + 1)
  }

  /** The characters `splitlines()` breaks at. */
  predicate IsLineBreak(c: char) {
    c == '\n' || c == '\r' || c == '\U{0B}' || c == '\U{0C}' || ('\U{1C}' <= c <= '\U{1E}')
    || c == '\U{85}' || c == '\U{2028}' || c == '\U{2029}'
  }

  predicate NoLineBreak(s: string) {
    forall i :: 0 <= i < |s| ==> !IsLineBreak(s[i])
  }

  /** The first line break at or after `i`, or `|s|`. */
  function LineEnd(s: string, i: nat): (j: nat)
    requires i <= |s|
    ensures i <= j <= |s| && NoLineBreak(s[i..j])
    ensures j < |s| ==> IsLineBreak(s[j])
    decreases |s| - i
  {
    if i < |s| && !IsLineBreak(s[i]) then LineEnd(s, i + 1) else i
  }

  /**
   * `s.splitlines()`: the pieces between line breaks, `\r\n` counting as one
   * break, and no empty piece after a final break.
   */
  function SplitLines(s: string): (lines: seq<string>)
    ensures forall k :: 0 <= k < |lines| ==> NoLineBreak(lines[k])
    ensures lines == [] <==> s == []
    decreases |s|
  {
    if s == [] then []
    else
      var i := LineEnd(s, 0);
      if i == |s| then [s]
      else
        var next := if s[i] == '\r' && i + 1 < |s| && s[i + 1] == '\n' then i + 2 else i + 1;
        [s[..i]] + SplitLines(s[next..])
  }

  /** The first line break at or after `i` is the one found by scanning. */
  lemma {:induction false} LineEndAt(s: string, i: nat, j: nat)
    requires i <= j <= |s| && NoLineBreak(s[i..j]) && (j < |s| ==> IsLineBreak(s[j]))
    ensures LineEnd(s, i) == j
    decreases j - i
  {
    if i < j {
      assert s[i] == s[i..j][0];
      assert s[i + 1..j] == s[i..j][1..];
      LineEndAt(s, i + 1, j);
    }
  }

  /** Lines each followed by `\n`, as a file holding them is written. */
  function JoinLines(lines: seq<string>): string
    decreases |lines|
  {
    if lines == [] then [] else lines[0] + "\n" + JoinLines(lines[1..])
  }

  /** `splitlines()` undoes writing lines out one per `\n`, as long as no line holds a break of its own. */
  lemma {:induction false} SplitJoinLines(lines: seq<string>)
    requires forall k :: 0 <= k < |lines| ==> NoLineBreak(lines[k])
    ensures SplitLines(JoinLines(lines)) == lines
    decreases |lines|
  {
    if lines != [] {
      var s := JoinLines(lines);
      var l := lines[0];
      assert s == l + "\n" + JoinLines(lines[1..]);
      assert s[..|l|] == l;
      assert s[|l|] == '\n';
      LineEndAt(s, 0, |l|);
      assert s[|l| + 1..] == JoinLines(lines[1..]);
      SplitJoinLines(lines[1..]);
      assert [l] + lines[1..] == lines;
    }
  }

  /** A non-empty text without line breaks is one line. */
  lemma SplitOneLine(s: string)
    requires s != [] && NoLineBreak(s)
    ensures SplitLines(s) == [s]
  {
    assert s[0..|s|] == s;
    LineEndAt(s, 0, |s|);
  }

  /**
   * A line ended by a single break character: the line comes first, and
   * splitting goes on after the break. A `\r` counts alone unless a `\n`
   * follows it.
   */
  lemma SplitLinesBreak(a: string, c: char, b: string)
    requires NoLineBreak(a) && IsLineBreak(c)
    requires c == '\r' ==> b == [] || b[0] != '\n'
    ensures SplitLines(a + [c] + b) == [a] + SplitLines(b)
  {
    var s := a + [c] + b;
    assert s[..|a|] == a && s[|a|] == c;
    assert s[0..|a|] == a;
    LineEndAt(s, 0, |a|);
    assert s[|a| + 1..] == b;
  }

  /** A line ended by `\r\n`: the pair is one break. */
  lemma SplitLinesCrLf(a: string, b: string)
    requires NoLineBreak(a)
    ensures SplitLines(a + "\r\n" + b) == [a] + SplitLines(b)
  {
    var s := a + "\r\n" + b;
    assert s[..|a|] == a && s[|a|] == '\r' && s[|a| + 1] == '\n';
    assert s[0..|a|] == a;
    LineEndAt(s, 0, |a|);
    assert s[|a| + 2..] == b;
  }
}
