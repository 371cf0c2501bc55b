/**
 * Reading back what one mode cracked: the parsing half of
 * `extract_cracked_from_pot` (autoCrack.py:147-153). The tool prints
 * `<hash>:<cleartext>` lines; the cleartext may itself hold colons.
 */
module ResultExtractor {
  import opened Wrappers
  import opened PyStr
  import opened Seqs

  /** A cracked hash and its cleartext. */
  type Pair = (string, string)

  /** `line.split(":", 1)` when `":" in line`; nothing otherwise. */
  function SplitFirstColon(line: string): (p: Option<Pair>)
    ensures p.None? <==> ':' !in line
    ensures p.Some? ==> ':' !in p.value.0 && p.value.0 + ":" + p.value.1 == line
  {
    var i := IndexFrom(line, ':', 0);
    if i == |line| then None
    else
      assert line == line[..i] + ":" + line[i + 1..];
      Some((line[..i], line[i + 1..]))
  }

  /** The converse: a line written as `hash:cleartext` with no colon in `hash` splits back into that pair. */
  lemma SplitFirstColonOf(h: string, c: string)
    requires ':' !in h
    ensures SplitFirstColon(h + ":" + c) == Some((h, c))
  {
    var line := h + ":" + c;
    var i := IndexFrom(line, ':', 0);
    assert line[|h|] == ':';
    assert forall k :: 0 <= k < |h| ==> line[k] == h[k];
    assert line[..i] == h;
    assert line[i + 1..] == c;
  }

  /** The lines `stdout.strip().splitlines()` of a show call. */
  function ShowLines(stdout: string): seq<string> {
    SplitLines(Strip(stdout))
  }

  /** The pairs a show call's output yields, in line order. */
  function ShowPairs(stdout: string): seq<Pair> {
    FilterMap(SplitFirstColon, ShowLines(stdout))
  }

  /** The loop of `extract_cracked_from_pot` over the output lines. */
  method ExtractCracked(stdout: string) returns (pairs: seq<Pair>)
    ensures pairs == ShowPairs(stdout)
    ensures forall k :: 0 <= k < |pairs| ==>
      ':' !in pairs[k].0 && pairs[k].0 + ":" + pairs[k].1 in ShowLines(stdout)
  {
    var lines := SplitLines(Strip(stdout));
    pairs := [];
    for i := 0 to |lines|
      invariant pairs == FilterMap(SplitFirstColon, lines[..i])
    {
      FilterMapSnoc(SplitFirstColon, lines, i);
      if ':' in lines[i] {
        var c := IndexFrom(lines[i], ':', 0);
        assert SplitFirstColon(lines[i]) == Some((lines[i][..c], lines[i][c + 1..]));
        assert Image(SplitFirstColon(lines[i])) == [(lines[i][..c], lines[i][c + 1..])];
        pairs := pairs + [(lines[i][..c], lines[i][c + 1..])];
      } else {
        assert Image(SplitFirstColon(lines[i])) == [];
      }
    }
    assert lines[..|lines|] == lines;
    forall k | 0 <= k < |pairs|
      ensures ':' !in pairs[k].0 && pairs[k].0 + ":" + pairs[k].1 in lines
    {
      FilterMapMember(SplitFirstColon, lines, pairs[k]);
    }
  }

  /** A line with a colon, kept whole. */
  function ColonLine(line: string): Option<string> {
    if ':' in line then Some(line) else None
  }

  /** Each pair written back as `hash:cleartext`. */
  function Rejoined(pairs: seq<Pair>): (lines: seq<string>)
    ensures |lines| == |pairs|
  {
    seq(|pairs|, k requires 0 <= k < |pairs| => pairs[k].0 + ":" + pairs[k].1)
  }

  /**
   * Splitting loses nothing and invents nothing: joining the pairs back gives
   * exactly the lines that hold a colon, in order; the others are dropped.
   */
  lemma {:induction false} RejoinedPairs(lines: seq<string>)
    ensures Rejoined(FilterMap(SplitFirstColon, lines)) == FilterMap(ColonLine, lines)
    decreases |lines|
  {
    if lines != [] {
      var init := lines[..|lines| - 1];
      RejoinedPairs(init);
      var last := lines[|lines| - 1];
      var p := FilterMap(SplitFirstColon, init);
      var tail := Image(SplitFirstColon(last));
      RejoinedConcat(p, tail);
    }
  }

  /** Rejoining works pair by pair. */
  lemma RejoinedConcat(a: seq<Pair>, b: seq<Pair>)
    ensures Rejoined(a + b) == Rejoined(a) + Rejoined(b)
  {
  }
}
