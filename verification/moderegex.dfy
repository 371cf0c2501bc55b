/**
 * The mode-line pattern `^\s*(\d+)\s*\|\s*(.+?)\s*\|\s*(.+)$` as the regex
 * engine searches it (autoCrack.py:113-119), as a reference for the scanner in
 * ModeEnumerator. Each greedy repeat is tried from its longest run down to its
 * shortest, and a failure further on gives back one more character: the
 * leading `\s*`, the id `\d+`, the `\s*` before the first bar, then, after
 * it, the `\s*` in front of the name and the lazy group, tried at each length
 * from one upward. `PrefixAt` also states the prefix declaratively.
 */
module ModeRegex {
  import opened Wrappers
  import opened PyStr
  import opened Seqs
  import opened ModeEnumerator

  /**
   * Does `\s*\|\s*(.+)$` match `rest[j..]`? The spaces go greedily; fewer
   * would leave a space where the bar must be. After the bar, `\s*(.+)$`
   * matches any non-empty remainder.
   */
  predicate TailMatches(rest: string, j: nat)
    requires j <= |rest|
  {
    var q := SkipSpace(rest, j);
    q < |rest| && rest[q] == '|' && q + 1 < |rest|
  }

  /** The lazy group `(.+?)`: the first end from `j` on after which the tail matches. */
  function LazyEnd(rest: string, j: nat): (e: Option<nat>)
    ensures e.Some? ==> j <= e.value <= |rest|
    decreases |rest| - j
  {
    if |rest| < j then None
    else if TailMatches(rest, j) then Some(j)
    else if j == |rest| then None
    else LazyEnd(rest, j + 1)
  }

  /**
   * The greedy `\s*` in front of the group holds `s` of the leading spaces;
   * the group starts at `s` and is at least one character long.
   */
  function Backtrack(rest: string, s: nat): (name: Option<string>)
    requires s <= |rest|
    decreases s
  {
    match LazyEnd(rest, s + 1)
    case Some(e) => Some(Strip(rest[s..e]))
    case None => if s == 0 then None else Backtrack(rest, s - 1)
  }

  /** `group(2).strip()` of the first match the engine finds, if any. */
  function RegexName(rest: string): Option<string> {
    Backtrack(rest, SkipSpace(rest, 0))
  }

  /**
   * `\s*\|` after the id digits `line[a..d]`: the spaces end at `g`, tried
   * from the longest run down to none; the first bar found goes on into the
   * name part, and when that fails the engine gives back one more space.
   */
  function BarTry(line: string, a: nat, d: nat, g: nat): Option<Mode>
    requires a <= d <= g <= |line|
    decreases g
  {
    var m := NameAt(line, a, d, g);
    if m.Some? || g == d then m else BarTry(line, a, d, g - 1)
  }

  /** The bar at `g`, then the name part on the text after it. */
  function NameAt(line: string, a: nat, d: nat, g: nat): Option<Mode>
    requires a <= d <= g <= |line|
  {
    if g < |line| && line[g] == '|' && RegexName(line[g + 1..]).Some? then
      Some(Mode(Strip(line[a..d]), RegexName(line[g + 1..]).value))
    else None
  }

  /** `(\d+)` from `a`: the digits end at `f`, tried from the longest run down to one digit. */
  function DigitsTry(line: string, a: nat, f: nat): Option<Mode>
    requires a <= f <= |line|
    decreases f
  {
    if f == a then None
    else
      var m := BarTry(line, a, f, SkipSpace(line, f));
      if m.Some? then m else DigitsTry(line, a, f - 1)
  }

  /** `^\s*`: the leading spaces end at `e`, tried from the longest run down to none. */
  function SpacesTry(line: string, e: nat): Option<Mode>
    requires e <= |line|
    decreases e
  {
    var m := DigitsTry(line, e, SkipDigits(line, e));
    if m.Some? || e == 0 then m else SpacesTry(line, e - 1)
  }

  /** What `pattern.match(line)` yields, as `(group(1).strip(), group(2).strip())`, in the engine's search order. */
  function RegexModeLine(line: string): Option<Mode> {
    SpacesTry(line, SkipSpace(line, 0))
  }

  /** From inside a run of spaces, the run ends where it ends. */
  lemma {:induction false} SkipSpaceWithin(r: string, j: nat, k: nat)
    requires j <= k <= |r|
    requires forall t :: j <= t < k ==> IsSpace(r[t])
    requires k < |r| ==> !IsSpace(r[k])
    ensures SkipSpace(r, j) == k
    decreases k - j
  {
    if j < k {
      SkipSpaceWithin(r, j + 1, k);
    }
  }

  /** Up to the first bar `q`, the lazy group ends just before the spaces in front of `q`, if the tail after `q` is non-empty. */
  lemma {:induction false} LazyEndToBar(r: string, j: nat, q: nat)
    requires j <= q <= |r|
    requires forall t :: j <= t < q ==> r[t] != '|'
    requires q < |r| ==> r[q] == '|'
    ensures q + 1 < |r| ==> LazyEnd(r, j).Some? && LazyEnd(r, j).value <= q && AllSpace(r[LazyEnd(r, j).value..q])
    ensures |r| <= q + 1 ==> LazyEnd(r, j) == None
    decreases q - j
  {
    var p := SkipSpace(r, j);
    assert p <= q;
    if TailMatches(r, j) {
      assert p == q;
    } else if j == |r| {
    } else if j == q {
      assert LazyEnd(r, j) == LazyEnd(r, j + 1);
    } else {
      LazyEndToBar(r, j + 1, q);
    }
  }

  /** Across a run of spaces whose end admits no group end, none before it does either. */
  lemma {:induction false} LazyEndAcrossSpaces(r: string, j: nat, k: nat)
    requires j <= k <= |r|
    requires forall t :: j <= t < k ==> IsSpace(r[t])
    requires k < |r| ==> !IsSpace(r[k])
    requires LazyEnd(r, k) == None
    ensures LazyEnd(r, j) == None
    decreases k - j
  {
    if j < k {
      SkipSpaceWithin(r, j, k);
      SkipSpaceWithin(r, k, k);
      assert !TailMatches(r, k);
      LazyEndAcrossSpaces(r, j + 1, k);
    }
  }

  /** Giving back spaces cannot help once the group may not start at the first non-space. */
  lemma {:induction false} BacktrackFails(r: string, s: nat, k: nat)
    requires s < k <= |r|
    requires forall t :: 0 <= t < k ==> IsSpace(r[t])
    requires k < |r| ==> !IsSpace(r[k])
    requires LazyEnd(r, k) == None
    ensures Backtrack(r, s) == None
    decreases s
  {
    LazyEndAcrossSpaces(r, s + 1, k);
    if s > 0 {
      BacktrackFails(r, s - 1, k);
    }
  }

  /** When a bar after the first non-space is followed by more text, the group ends at that bar's spaces. */
  lemma RegexNameAtBar(r: string, k: nat, q: nat)
    requires k == SkipSpace(r, 0) && q == IndexFrom(r, '|', k + 1) && q + 1 < |r|
    ensures RegexName(r) == Some(Strip(r[k..q]))
  {
    LazyEndToBar(r, k + 1, q);
    var e := LazyEnd(r, k + 1).value;
    SliceSplit(r, k, e, q);
    StripIgnoresTrailingSpace(r[k..e], r[e..q]);
    assert Backtrack(r, k) == Some(Strip(r[k..e]));
  }

  /** One leading space is all the group needs when a bar follows the spaces. */
  lemma RegexNameSpaceGroup(r: string, k: nat)
    requires k == SkipSpace(r, 0) && LazyEnd(r, k + 1) == None
    requires 0 < k && k + 1 < |r| && r[k] == '|'
    ensures RegexName(r) == Some([])
  {
    SkipSpaceWithin(r, k, k);
    assert TailMatches(r, k);
    assert LazyEnd(r, k) == Some(k);
    assert Backtrack(r, k) == Backtrack(r, k - 1) == Some(Strip(r[k - 1..k]));
    var x := r[k - 1..k];
    assert AllSpace(x[0..]);
    StripUnique(x, 0, 0);
  }

  /** Otherwise no split of the leading spaces lets the pattern match. */
  lemma RegexNameNone(r: string, k: nat)
    requires k == SkipSpace(r, 0) && LazyEnd(r, k + 1) == None
    requires !(0 < k && k + 1 < |r| && r[k] == '|')
    ensures RegexName(r) == None
  {
    if 0 < k {
      SkipSpaceWithin(r, k, k);
      assert !TailMatches(r, k);
      assert LazyEnd(r, k) == None;
      assert Backtrack(r, k) == Backtrack(r, k - 1);
      if 1 < k {
        BacktrackFails(r, k - 2, k);
      }
    }
  }

  /** The scanner finds the same name as the regex engine, and matches exactly when it does. */
  lemma NameFieldIsRegex(r: string)
    ensures NameField(r) == RegexName(r)
  {
    var k := SkipSpace(r, 0);
    var q := IndexFrom(r, '|', k + 1);
    if q + 1 < |r| {
      RegexNameAtBar(r, k, q);
    } else {
      if k < |r| {
        LazyEndToBar(r, k + 1, q);
      }
      if 0 < k && k + 1 < |r| && r[k] == '|' {
        RegexNameSpaceGroup(r, k);
      } else {
        RegexNameNone(r, k);
      }
    }
  }

  /** `ParseModeLine` agrees with the pattern on every line: same matches, same id, same name. */
  lemma ParseModeLineIsRegex(line: string)
    ensures ParseModeLine(line) == RegexModeLine(line)
  {
    var a := SkipSpace(line, 0);
    var d := SkipDigits(line, a);
    var b := SkipSpace(line, d);
    if a < d && b < |line| && line[b] == '|' {
      MatchedPrefixIsRegex(line, a, d, b);
    } else {
      UnmatchedPrefixIsRegex(line, a, d, b);
    }
  }

  /** With the prefix matched, both go on into the name part of the text after the bar. */
  lemma MatchedPrefixIsRegex(line: string, a: nat, d: nat, b: nat)
    requires a == SkipSpace(line, 0) && d == SkipDigits(line, a) && b == SkipSpace(line, d)
    requires a < d && b < |line| && line[b] == '|'
    ensures ParseModeLine(line) == RegexModeLine(line)
  {
    var rest := line[b + 1..];
    RegexModeLinePrefix(line, a, d, b);
    ModePrefixScan(line, a, d, b);
    ParseAfterPrefix(line, line[a..d], rest);
    NameFieldIsRegex(rest);
    NameAtBar(line, a, d, b);
  }

  /** With the bar at `b`, the name part decides. */
  lemma NameAtBar(line: string, a: nat, d: nat, b: nat)
    requires a <= d <= b < |line| && line[b] == '|'
    ensures NameAt(line, a, d, b) ==
      if RegexName(line[b + 1..]).Some? then Some(Mode(Strip(line[a..d]), RegexName(line[b + 1..]).value)) else None
  {
  }

  /** After a matched prefix, the scanner's answer is the name part's. */
  lemma ParseAfterPrefix(line: string, digits: string, rest: string)
    requires ModePrefix(line) == Some((digits, rest))
    ensures ParseModeLine(line) ==
      if NameField(rest).Some? then Some(Mode(Strip(digits), NameField(rest).value)) else None
  {
  }

  /** Without the prefix, neither matches. */
  lemma UnmatchedPrefixIsRegex(line: string, a: nat, d: nat, b: nat)
    requires a == SkipSpace(line, 0) && d == SkipDigits(line, a) && b == SkipSpace(line, d)
    requires !(a < d && b < |line| && line[b] == '|')
    ensures ParseModeLine(line) == None && RegexModeLine(line) == None
  {
    RegexModeLinePrefix(line, a, d, b);
    ModePrefixScan(line, a, d, b);
    assert a < d ==> NameAt(line, a, d, b) == None;
  }

  /** The engine's search for the prefix ends where the scanner's does, and then goes on into the name part. */
  lemma RegexModeLinePrefix(line: string, a: nat, d: nat, b: nat)
    requires a == SkipSpace(line, 0) && d == SkipDigits(line, a) && b == SkipSpace(line, d)
    ensures RegexModeLine(line) == if a < d then NameAt(line, a, d, b) else None
  {
    DigitsTryTop(line, a);
    if a < d {
      BarTryTop(line, a, d);
    }
    if DigitsTry(line, a, d).None? && 0 < a {
      SpacesTryBelow(line, a - 1);
    }
  }

  /** Below the longest run of spaces in front of the bar, the spaces tried end on a space, never on a bar. */
  lemma {:induction false} BarTryBelow(line: string, a: nat, d: nat, g: nat)
    requires a <= d <= g < |line| && g < SkipSpace(line, d)
    ensures BarTry(line, a, d, g) == None
    decreases g
  {
    var j := SkipSpace(line, d);
    assert line[d..j][g - d] == line[g];
    assert NameAt(line, a, d, g) == None;
    if g > d {
      BarTryBelow(line, a, d, g - 1);
    }
  }

  /** Only the longest run of spaces after the digits can be followed by the bar. */
  lemma BarTryTop(line: string, a: nat, d: nat)
    requires a <= d <= |line|
    ensures BarTry(line, a, d, SkipSpace(line, d)) == NameAt(line, a, d, SkipSpace(line, d))
  {
    var b := SkipSpace(line, d);
    if d < b {
      BarTryBelow(line, a, d, b - 1);
    }
  }

  /** Fewer digits than the longest run leave a digit where the spaces or the bar must go. */
  lemma {:induction false} DigitsTryBelow(line: string, a: nat, f: nat)
    requires a <= f < |line| && f < SkipDigits(line, a)
    ensures DigitsTry(line, a, f) == None
    decreases f
  {
    if a < f {
      var j := SkipDigits(line, a);
      assert line[a..j][f - a] == line[f];
      DigitsTryStep(line, a, f);
      DigitsTryBelow(line, a, f - 1);
    }
  }

  /** Digits that stop just before another digit have no bar after them. */
  lemma DigitsTryStep(line: string, a: nat, f: nat)
    requires a < f < |line| && IsDigit(line[f])
    ensures DigitsTry(line, a, f) == DigitsTry(line, a, f - 1)
  {
    assert SkipSpace(line, f) == f;
    assert BarTry(line, a, f, f) == None;
  }

  /** Only the longest run of digits can be followed by what the pattern needs. */
  lemma DigitsTryTop(line: string, a: nat)
    requires a <= |line|
    ensures var d := SkipDigits(line, a);
      DigitsTry(line, a, d) == if a < d then BarTry(line, a, d, SkipSpace(line, d)) else None
  {
    var d := SkipDigits(line, a);
    if a < d {
      DigitsTryBelow(line, a, d - 1);
    }
  }

  /** Fewer leading spaces than the longest run leave a space where the first digit must go. */
  lemma {:induction false} SpacesTryBelow(line: string, e: nat)
    requires e < SkipSpace(line, 0)
    ensures SpacesTry(line, e) == None
    decreases e
  {
    var j := SkipSpace(line, 0);
    assert line[0..j][e] == line[e];
    assert SkipDigits(line, e) == e;
    if 0 < e {
      SpacesTryBelow(line, e - 1);
    }
  }

  /**
   * The prefix `^\s*(\d+)\s*\|` matched with spaces `line[..a]`, digits
   * `line[a..d]`, spaces `line[d..b]` and the bar at `b`.
   */
  ghost predicate PrefixAt(line: string, a: nat, d: nat, b: nat) {
    a < d <= b < |line| && AllSpace(line[..a]) && AllDigits(line[a..d]) && AllSpace(line[d..b]) && line[b] == '|'
  }

  /** A run of digits ends where it ends. */
  lemma {:induction false} SkipDigitsWithin(r: string, j: nat, k: nat)
    requires j <= k <= |r|
    requires forall t :: j <= t < k ==> IsDigit(r[t])
    requires k < |r| ==> !IsDigit(r[k])
    ensures SkipDigits(r, j) == k
    decreases k - j
  {
    if j < k {
      SkipDigitsWithin(r, j + 1, k);
    }
  }

  /** Every way of matching the prefix is the scanner's: the scanner finds it, with the same id and the same text after the bar. */
  lemma ModePrefixOnly(line: string, a: nat, d: nat, b: nat)
    requires PrefixAt(line, a, d, b)
    ensures ModePrefix(line) == Some((line[a..d], line[b + 1..]))
  {
    forall t | 0 <= t < a
      ensures IsSpace(line[t])
    {
      assert line[..a][t] == line[t];
    }
    assert line[a..d][0] == line[a];
    SkipSpaceWithin(line, 0, a);
    forall t | a <= t < d
      ensures IsDigit(line[t])
    {
      assert line[a..d][t - a] == line[t];
    }
    if d < b {
      assert line[d..b][0] == line[d];
    }
    SkipDigitsWithin(line, a, d);
    forall t | d <= t < b
      ensures IsSpace(line[t])
    {
      assert line[d..b][t - d] == line[t];
    }
    SkipSpaceWithin(line, d, b);
  }

  /** The scanner's answer in terms of the positions it scans to. */
  lemma ModePrefixScan(line: string, a: nat, d: nat, b: nat)
    requires a == SkipSpace(line, 0) && d == SkipDigits(line, a) && b == SkipSpace(line, d)
    ensures ModePrefix(line) == if a < d && b < |line| && line[b] == '|' then Some((line[a..d], line[b + 1..])) else None
  {
  }

  /** What the scanner finds is a way of matching the prefix. */
  lemma ModePrefixSome(line: string)
    requires ModePrefix(line).Some?
    ensures var a := SkipSpace(line, 0);
      var d := SkipDigits(line, a);
      var b := SkipSpace(line, d);
      PrefixAt(line, a, d, b) && ModePrefix(line) == Some((line[a..d], line[b + 1..]))
  {
  }
}
