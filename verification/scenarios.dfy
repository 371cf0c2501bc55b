/**
 * One worked run of `main` (autoCrack.py:155-230) and the run after it. The
 * corpus holds a hex digest `d` (for instance MD5 of "password",
 * 5f4dcc3b5aa765d61d8327deb882cf99) and a comment line; the tool lists one
 * mode, and the attack recovers the cleartext "password".
 */
module Scenarios {
  import opened Wrappers
  import opened Seqs
  import opened PyStr
  import opened HashLoader
  import opened ModeEnumerator
  import opened ResultExtractor
  import opened Ledger
  import opened Orchestrator
  import opened RunFacts

  /** The comment line of the corpus, without its line end. */
  const Comment: string := "# not a hash"

  /** The line the tool prints for the one mode it proposes. */
  const ModeLine: string := "0 | MD5 | Raw Hash"

  /** The corpus file's lines as they are read, each with its line end. */
  function Corpus(d: string): seq<string> {
    [d + "\n", Comment + "\n"]
  }

  /** The tool's stdout for the show call after a successful attack. */
  function Shown(d: string): string {
    JoinLines([d + ":password"])
  }

  predicate IsLowerHex(s: string) {
    forall i :: 0 <= i < |s| ==> '0' <= s[i] <= '9' || 'a' <= s[i] <= 'f'
  }

  /** Hex digits are neither spaces, colons nor line breaks. */
  lemma HexIsPlain(s: string)
    requires IsLowerHex(s)
    ensures IsStripped(s) && ':' !in s && NoLineBreak(s)
  {
    assert forall i :: 0 <= i < |s| ==> !IsSpace(s[i]) && s[i] != ':' && !IsLineBreak(s[i]);
  }

  /** A line that strips to `t` once its line end is gone. */
  lemma StripLine(t: string)
    requires IsStripped(t)
    ensures Strip(t + "\n") == t
  {
    var line := t + "\n";
    assert line[..0] == [] && line[|t|..] == "\n" && line[0..|t|] == t;
    StripUnique(line, 0, |t|);
  }

  /** `get_all_hashes` keeps the digest and drops the comment. */
  lemma CorpusHashes(d: string)
    requires d != [] && IsLowerHex(d)
    ensures HashesOf(Corpus(d)) == [d]
  {
    HexIsPlain(d);
    assert d[0] != '#';
    StripLine(d);
    HashesOfOneLine(d + "\n");
    assert Comment[0] == '#' && Comment[|Comment| - 1] == 'h';
    StripLine(Comment);
    HashesOfOneLine(Comment + "\n");
    assert Corpus(d) == [d + "\n"] + [Comment + "\n"];
    HashesConcat([d + "\n"], [Comment + "\n"]);
  }

  /** `ModeLine` matches the pattern; its prefix has id "0". */
  lemma ModeLinePrefix()
    ensures ModePrefix(ModeLine) == Some(("0", " MD5 | Raw Hash"))
  {
    var line := ModeLine;
    assert SkipSpace(line, 0) == 0;
    assert SkipDigits(line, 1) == 1;
    assert SkipDigits(line, 0) == 1;
    assert SkipSpace(line, 2) == 2;
    assert SkipSpace(line, 1) == 2;
    assert line[0..1] == "0" && line[2] == '|';
    assert line[3..] == " MD5 | Raw Hash";
  }

  /** The name field of `ModeLine` is "MD5", with the spaces around it stripped. */
  lemma ModeLineName()
    ensures NameField(" MD5 | Raw Hash") == Some("MD5")
  {
    var rest := " MD5 | Raw Hash";
    assert SkipSpace(rest, 1) == 1;
    assert SkipSpace(rest, 0) == 1;
    assert IndexFrom(rest, '|', 5) == 5;
    assert IndexFrom(rest, '|', 4) == 5;
    assert IndexFrom(rest, '|', 3) == 5;
    assert IndexFrom(rest, '|', 2) == 5;
    var field := rest[1..5];
    assert field == "MD5 ";
    assert field[..0] == [] && field[3..] == " " && field[0..3] == "MD5";
    StripUnique(field, 0, 3);
  }

  /** `ModeLine` is the mode ("0", "MD5"). */
  lemma ModeLineParses()
    ensures ParseModeLine(ModeLine) == Some(Mode("0", "MD5"))
  {
    ModeLinePrefix();
    ModeLineName();
    DigitsAreStripped("0");
  }

  /** `ModeLine` holds no line break. */
  lemma ModeLineIsOneLine()
    ensures NoLineBreak(ModeLine)
  {
    var line := ModeLine;
    assert forall i :: 0 <= i < |line| ==> line[i] == ' ' || line[i] == '|' || '0' <= line[i] <= 'z';
  }

  /** `ModeLine` is a line of the enumeration output listing mode "0" as "MD5". */
  lemma ModeLineIsMdFive()
    ensures MdFiveLine(ModeLine)
  {
    ModeLineParses();
    ModeLineIsOneLine();
  }

  /** The modes of an output written one line per `\n` are those of its lines. */
  lemma ModesOfLines(lines: seq<string>)
    requires forall k :: 0 <= k < |lines| ==> NoLineBreak(lines[k])
    ensures ModesOf(JoinLines(lines)) == FilterMap(ParseModeLine, lines)
  {
    SplitJoinLines(lines);
  }

  /** A line of the enumeration output that lists mode "0" as "MD5", such as `ModeLine`. */
  predicate MdFiveLine(line: string) {
    NoLineBreak(line) && ParseModeLine(line) == Some(Mode("0", "MD5"))
  }

  /** An enumeration output of one line, which parses as `m`. */
  lemma EnumeratedOnce(line: string, m: Mode)
    requires NoLineBreak(line) && ParseModeLine(line) == Some(m)
    ensures ModesOf(JoinLines([line])) == [m]
  {
    ModesOfLines([line]);
    assert [line][..0] == [];
  }

  /** An enumeration output listing the same line twice. */
  lemma EnumeratedTwice(line: string, m: Mode)
    requires NoLineBreak(line) && ParseModeLine(line) == Some(m)
    ensures ModesOf(JoinLines([line, line])) == [m, m]
  {
    ModesOfLines([line, line]);
    assert [line, line][..1] == [line];
    assert [line][..0] == [];
  }

  /** The show output yields the one pair (digest, "password"). */
  lemma ShownPairs(d: string)
    requires d != [] && IsLowerHex(d)
    ensures ShowPairs(Shown(d)) == [(d, "password")]
  {
    HexIsPlain(d);
    var line := d + ":password";
    assert NoLineBreak(line) by {
      assert forall i :: |d| <= i < |line| ==> line[i] == ":password"[i - |d|];
    }
    assert IsStripped(line) by {
      assert line[0] == d[0] && line[|line| - 1] == 'd';
    }
    assert d + ":" + "password" == line;
    ShownLine(line, d, "password");
  }

  /** A show output of one stripped line `h:c` yields the one pair (h, c). */
  lemma ShownLine(line: string, h: string, c: string)
    requires line != [] && NoLineBreak(line) && IsStripped(line)
    requires ':' !in h && line == h + ":" + c
    ensures ShowPairs(JoinLines([line])) == [(h, c)]
  {
    assert JoinLines([line]) == line + "\n";
    StripLine(line);
    SplitOneLine(line);
    assert ShowLines(JoinLines([line])) == [line];
    SplitFirstColonOf(h, c);
    OnePair(line, (h, c));
  }

  /** A show output of one line yields the pair that line splits into. */
  lemma OnePair(line: string, p: Pair)
    requires SplitFirstColon(line) == Some(p)
    ensures FilterMap(SplitFirstColon, [line]) == [p]
  {
    assert [line][..0] == [];
  }

  /**
   * First run, with no ledger file yet: the one mode is attempted on the
   * digest, the attack succeeds, and exactly one entry is logged, under mode
   * "0" with cleartext "password"; the summary has one tuple.
   */
  lemma FirstRun(d: string, line: string, attack: AttackOracle, show: ShowOracle, clock: Clock)
    requires d != [] && IsLowerHex(d) && MdFiveLine(line)
    requires attack("0", [d]) && show("0", [d]) == Shown(d)
    ensures var run := RunModes(ModesOf(JoinLines([line])), HashesOf(Corpus(d)), Load(Missing).0,
                                attack, show, clock);
      && run.appended == [Entry(d, "0", "password", clock(0))]
      && run.summary == [SummaryItem("0", "MD5", [(d, "password")])]
      && run.outcomes == [Found([(d, "password")])]
  {
    CorpusHashes(d);
    EnumeratedOnce(line, Mode("0", "MD5"));
    assert Load(Missing).0 == {};
    FoundOnce(d, attack, show, clock);
  }

  /** The run of `FirstRun` on the parsed mode and hashes. */
  lemma FoundOnce(d: string, attack: AttackOracle, show: ShowOracle, clock: Clock)
    requires d != [] && IsLowerHex(d)
    requires attack("0", [d]) && show("0", [d]) == Shown(d)
    ensures var run := RunModes([Mode("0", "MD5")], [d], {}, attack, show, clock);
      && run.appended == [Entry(d, "0", "password", clock(0))]
      && run.summary == [SummaryItem("0", "MD5", [(d, "password")])]
      && run.outcomes == [Found([(d, "password")])]
  {
    var m := Mode("0", "MD5");
    var o := Found([(d, "password")]);
    FoundOutcome(d, attack, show);
    assert Outcomes([m], [d], {}, attack, show) == [o];
    OneModeRun(m, o, clock);
  }

  /** The mode of `FirstRun` finds the digest pending and reads back its cleartext. */
  lemma FoundOutcome(d: string, attack: AttackOracle, show: ShowOracle)
    requires d != [] && IsLowerHex(d)
    requires attack("0", [d]) && show("0", [d]) == Shown(d)
    ensures OutcomeOf(Mode("0", "MD5"), [d], {}, attack, show) == Found([(d, "password")])
  {
    ShownPairs(d);
    PendingOne(d, "0", {});
  }

  /** A run over one mode: what it logs and summarises is that mode's step. */
  lemma OneModeRun(m: Mode, o: Outcome, clock: Clock)
    ensures var pairs := PairsOf(o);
      var run := Fold([m], [o], clock);
      && run.appended == Logged(m, pairs, clock, 0)
      && run.summary == Copies(SummaryItem(m.id, m.name, pairs), |pairs|)
      && run.outcomes == [o]
  {
    assert [m][..0] == [] && [o][..0] == [];
  }

  /**
   * The next run, started from the ledger the first run saved: the digest is
   * known under mode "0", so the mode is skipped and nothing is touched.
   */
  lemma SecondRun(d: string, line: string, attack: AttackOracle, show: ShowOracle, clock: Clock, stamp: string)
    requires d != [] && IsLowerHex(d) && MdFiveLine(line)
    ensures var saved := Records([Entry(d, "0", "password", stamp)]);
      var run := RunModes(ModesOf(JoinLines([line])), HashesOf(Corpus(d)), Load(saved).0,
                          attack, show, clock);
      && run.outcomes == [Skipped] && run.appended == [] && run.summary == [] && run.trace == []
  {
    CorpusHashes(d);
    EnumeratedOnce(line, Mode("0", "MD5"));
    SkippedOnce(d, attack, show, clock, stamp);
  }

  /** The run of `SecondRun` on the parsed mode and hashes. */
  lemma SkippedOnce(d: string, attack: AttackOracle, show: ShowOracle, clock: Clock, stamp: string)
    ensures var keys := Load(Records([Entry(d, "0", "password", stamp)])).0;
      var run := RunModes([Mode("0", "MD5")], [d], keys, attack, show, clock);
      && run.outcomes == [Skipped] && run.appended == [] && run.summary == [] && run.trace == []
  {
    var keys := Load(Records([Entry(d, "0", "password", stamp)])).0;
    assert KeyOf(Entry(d, "0", "password", stamp)) in keys;
    AllLoggedSkipsAll([Mode("0", "MD5")], [d], keys, attack, show, clock);
  }

  /**
   * The stale start-up key set: when the tool lists mode "0" twice, both
   * attempts see the digest as pending and the digest is logged twice under
   * the same key.
   */
  lemma ListedTwice(d: string, line: string, attack: AttackOracle, show: ShowOracle, clock: Clock)
    requires d != [] && IsLowerHex(d) && MdFiveLine(line)
    requires attack("0", [d]) && show("0", [d]) == Shown(d)
    ensures var run := RunModes(ModesOf(JoinLines([line, line])), HashesOf(Corpus(d)), {},
                                attack, show, clock);
      && |run.appended| == 2
      && KeyOf(run.appended[0]) == KeyOf(run.appended[1]) == (d, "0")
  {
    CorpusHashes(d);
    EnumeratedTwice(line, Mode("0", "MD5"));
    ShownPairs(d);
    var m := Mode("0", "MD5");
    PendingOne(d, "0", {});
    assert PairsOf(OutcomeOf(m, [d], {}, attack, show)) == [(d, "password")];
    RepeatedModeLogsTwice(m, m, [d], {}, attack, show, clock);
  }

  /** A run over one mode whose one hash is pending and whose attack reads back one pair logs exactly that pair. */
  lemma OneFoundRun(m: Mode, x: string, keys: set<Key>, attack: AttackOracle, show: ShowOracle, clock: Clock, p: Pair)
    requires (x, m.id) !in keys && attack(m.id, [x]) && ShowPairs(show(m.id, [x])) == [p]
    ensures RunModes([m], [x], keys, attack, show, clock).appended == [Entry(p.0, m.id, p.1, clock(0))]
  {
    PendingOne(x, m.id, keys);
    var o := Found([p]);
    assert Outcomes([m], [x], keys, attack, show) == [o];
    OneModeRun(m, o, clock);
  }

  /**
   * A run whose one pending hash `x` reads back as a pair for a different
   * hash logs a key that never matches `x`, so a second run from the saved
   * ledger logs that key again.
   */
  lemma RelogFromSaved(m: Mode, x: string, q: Pair, attack: AttackOracle, show: ShowOracle, clock: Clock, clock2: Clock)
    requires q.0 != x && attack(m.id, [x]) && ShowPairs(show(m.id, [x])) == [q]
    ensures var first := RunModes([m], [x], Load(Missing).0, attack, show, clock);
      var saved := Records(first.appended);
      var second := RunModes([m], [x], Load(saved).0, attack, show, clock2);
      && first.appended == [Entry(q.0, m.id, q.1, clock(0))]
      && second.appended == [Entry(q.0, m.id, q.1, clock2(0))]
      && KeyOf(second.appended[0]) in Load(saved).0
  {
    assert Load(Missing).0 == {};
    OneFoundRun(m, x, {}, attack, show, clock, q);
    var e := Entry(q.0, m.id, q.1, clock(0));
    assert Load(Records([e])).0 == KeysOf([e]) == {KeyOf(e)};
    OneFoundRun(m, x, KeysOf([e]), attack, show, clock2, q);
  }

  /**
   * A salted corpus line `h:s` whose show output is `h:s:p`. The first colon
   * splits off `h` alone, so the run logs the key (h, id), and that key never
   * matches the pending line `h:s`. A second run started from the saved
   * ledger therefore attacks the line again and logs the same key again.
   */
  lemma SaltedHashLoggedAgain(m: Mode, h: string, s: string, p: string,
                              attack: AttackOracle, show: ShowOracle, clock: Clock, clock2: Clock)
    requires h != [] && s != [] && p != [] && IsLowerHex(h) && IsLowerHex(s) && IsLowerHex(p)
    requires attack(m.id, [h + ":" + s]) && show(m.id, [h + ":" + s]) == JoinLines([h + ":" + s + ":" + p])
    ensures var first := RunModes([m], [h + ":" + s], Load(Missing).0, attack, show, clock);
      var saved := Records(first.appended);
      var second := RunModes([m], [h + ":" + s], Load(saved).0, attack, show, clock2);
      && first.appended == [Entry(h, m.id, s + ":" + p, clock(0))]
      && second.appended == [Entry(h, m.id, s + ":" + p, clock2(0))]
      && KeyOf(second.appended[0]) in Load(saved).0
  {
    var line := h + ":" + s + ":" + p;
    SaltedLine(h, s, p);
    ShownLine(line, h, s + ":" + p);
    assert |h + ":" + s| != |h|;
    RelogFromSaved(m, h + ":" + s, (h, s + ":" + p), attack, show, clock, clock2);
  }

  /** The show line `h:s:p` of hex fields is a single stripped line whose first field is `h`. */
  lemma SaltedLine(h: string, s: string, p: string)
    requires h != [] && p != [] && IsLowerHex(h) && IsLowerHex(s) && IsLowerHex(p)
    ensures var line := h + ":" + s + ":" + p;
      && line != [] && NoLineBreak(line) && IsStripped(line)
      && ':' !in h && line == h + ":" + (s + ":" + p)
  {
    HexIsPlain(h);
    HexIsPlain(s);
    HexIsPlain(p);
    var line := h + ":" + s + ":" + p;
    var a := |h| + 1;
    var b := a + |s| + 1;
    assert NoLineBreak(line) by {
      forall i | 0 <= i < |line|
        ensures !IsLineBreak(line[i])
      {
        if i < |h| {
          assert line[i] == h[i];
        } else if i < a {
          assert line[i] == ':';
        } else if i < b - 1 {
          assert line[i] == s[i - a];
        } else if i < b {
          assert line[i] == ':';
        } else {
          assert line[i] == p[i - b];
        }
      }
    }
    assert line[0] == h[0] && line[|line| - 1] == p[|p| - 1];
  }
}
