/**
 * Mode enumeration: the parsing half of `get_candidate_modes`
 * (autoCrack.py:111-122). Each line of the tool's stdout is matched against
 * `^\s*(\d+)\s*\|\s*(.+?)\s*\|\s*(.+)$`; this module is a hand-written scanner
 * for that pattern, and module ModeRegex checks it against the pattern's own
 * search order. Lines reach the scanner from `splitlines()`, so none holds a
 * `\n`: on them `.` is any character and `$` is the end of the line.
 */
module ModeEnumerator {
  import opened Wrappers
  import opened PyStr
  import opened Seqs

  /** A hash mode as the tool lists it: its numeric id and its label. */
  datatype Mode = Mode(id: string, name: string)

  /** `\d`, on ASCII digits. */
  predicate IsDigit(c: char) {
    '0' <= c <= '9'
  }

  predicate AllDigits(s: string) {
    forall i :: 0 <= i < |s| ==> IsDigit(s[i])
  }

  /** The end of the run of digits that starts at `i`. */
  function SkipDigits(s: string, i: nat): (j: nat)
    requires i <= |s|
    ensures i <= j <= |s| && AllDigits(s[i..j])
    ensures j < |s| ==> !IsDigit(s[j])
    decreases |s| - i
  {
    if i < |s| && IsDigit(s[i]) then SkipDigits(s, i + 1) else i
  }

  /**
   * `^\s*(\d+)\s*\|`: the id digits and the text after the first bar. Every
   * part is forced: a digit is not a space and neither is a bar, so no other
   * split of the spaces and digits can be followed by what the pattern needs.
   */
  function ModePrefix(line: string): (p: Option<(string, string)>)
    ensures p.Some? ==> p.value.0 != [] && AllDigits(p.value.0)
  {
    var a := SkipSpace(line, 0);
    var d := SkipDigits(line, a);
    var b := SkipSpace(line, d);
    if a < d && b < |line| && line[b] == '|' then Some((line[a..d], line[b + 1..])) else None
  }

  /**
   * `\s*(.+?)\s*\|\s*(.+)$` on the text after the first bar, and then
   * `group(2).strip()`. With `k` spaces in front, the name runs up to the
   * first bar after position `k` if that bar is not the last character;
   * failing that, the leading spaces give one of theirs to the group when a
   * bar sits right after them (and then the name strips to "").
   */
  function NameField(rest: string): (name: Option<string>)
    ensures name.Some? ==> IsStripped(name.value)
  {
    var k := SkipSpace(rest, 0);
    var q := IndexFrom(rest, '|', k + 1);
    if q + 1 < |rest| then Some(Strip(rest[k..q]))
    else if 0 < k && k + 1 < |rest| && rest[k] == '|' then Some([])
    else None
  }

  /** A non-empty run of digits has no space at its ends, so `strip()` keeps it whole. */
  lemma DigitsAreStripped(s: string)
    requires s != [] && AllDigits(s)
    ensures Strip(s) == s
  {
    assert IsDigit(s[0]) && IsDigit(s[|s| - 1]);
    StripOfStripped(s);
  }

  /** One line of the enumeration output, as `(mode_id, mode_name)` when it matches. */
  function ParseModeLine(line: string): (m: Option<Mode>)
    ensures m.Some? ==> m.value.id != [] && AllDigits(m.value.id) && IsStripped(m.value.name)
  {
    match ModePrefix(line)
    case None => None
    case Some((digits, rest)) =>
      match NameField(rest)
      case None => None
      case Some(name) =>
        DigitsAreStripped(digits);
        Some(Mode(Strip(digits), name))
  }

  /** The modes of an enumeration output, in the order of its lines. */
  function ModesOf(stdout: string): seq<Mode> {
    FilterMap(ParseModeLine, SplitLines(stdout))
  }

  /** The loop of `get_candidate_modes` over `stdout.splitlines()`. */
  method CandidateModes(stdout: string) returns (modes: seq<Mode>)
    ensures modes == ModesOf(stdout)
    ensures forall k :: 0 <= k < |modes| ==>
      modes[k].id != [] && AllDigits(modes[k].id) && IsStripped(modes[k].name)
  {
    var lines := SplitLines(stdout);
    modes := [];
    for i := 0 to |lines|
      invariant modes == FilterMap(ParseModeLine, lines[..i])
    {
      FilterMapSnoc(ParseModeLine, lines, i);
      var m := ParseModeLine(lines[i]);
      if m.Some? {
        assert Image(m) == [m.value];
        modes := modes + [m.value];
      } else {
        assert Image(m) == [];
      }
    }
    assert lines[..|lines|] == lines;
    ModesWellFormed(stdout);
  }

  /** Every listed mode has a non-empty all-digit id and a stripped name. */
  lemma ModesWellFormed(stdout: string)
    ensures forall k :: 0 <= k < |ModesOf(stdout)| ==>
      ModesOf(stdout)[k].id != [] && AllDigits(ModesOf(stdout)[k].id) && IsStripped(ModesOf(stdout)[k].name)
  {
    var modes := ModesOf(stdout);
    forall k | 0 <= k < |modes|
      ensures modes[k].id != [] && AllDigits(modes[k].id) && IsStripped(modes[k].name)
    {
      FilterMapMember(ParseModeLine, SplitLines(stdout), modes[k]);
    }
  }

  /** A mode is listed exactly when some output line parses to it: lines that do not match add nothing. */
  lemma ModesMember(stdout: string, m: Mode)
    ensures var lines := SplitLines(stdout);
      m in ModesOf(stdout) <==> exists i :: 0 <= i < |lines| && ParseModeLine(lines[i]) == Some(m)
  {
    var lines := SplitLines(stdout);
    FilterMapMember(ParseModeLine, lines, m);
    if i :| 0 <= i < |lines| && ParseModeLine(lines[i]) == Some(m) {
      assert (ParseModeLine)(lines[i]) == Some(m);
    }
  }
}
