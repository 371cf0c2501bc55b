/**
 * The per-mode loop of `main` (autoCrack.py:155-230). The cracking tool is an
 * oracle: one function says whether the attack call exits with 0, another
 * gives the stdout of the show call, and a clock gives the timestamps.
 */
module Orchestrator {
  import opened Wrappers
  import opened Seqs
  import opened HashLoader
  import opened ModeEnumerator
  import opened ResultExtractor
  import opened Ledger

  /**
   * `run_hashcat_with_pot`: whether the attack on the subset file holding these
   * pending hashes exits with 0 under this mode id. The wordlist is fixed for
   * the run and the pot file is fresh and empty, so nothing else varies.
   */
  type AttackOracle = (string, seq<string>) -> bool

  /** The stdout of the show call on the same mode, subset file and pot file. */
  type ShowOracle = (string, seq<string>) -> string

  /** The timestamp taken for the n-th entry appended during the run. */
  type Clock = nat -> string

  /** How a mode ended: `[SKIPPED]`, `[NOT FOUND]` or `[FOUND]` with the pairs read back. */
  datatype Outcome = Skipped | NotFound | Found(pairs: seq<Pair>)

  /** One element of `cracked_summary`: `(mode_id, mode_name, pairs)`. */
  datatype SummaryItem = SummaryItem(modeId: string, modeName: string, pairs: seq<Pair>)

  /** The two temporary files of the mode at a given position in the candidate list. */
  datatype Resource = SubsetFile(mode: nat) | PotFile(mode: nat)

  /** What the loop does to the outside world, in order. */
  datatype Event = Create(res: Resource) | Remove(res: Resource) | Attack(mode: nat) | ShowCall(mode: nat)

  /** The effect of a run: entries appended to the ledger, the summary, the outcomes and the events. */
  datatype Run = Run(appended: seq<Entry>, summary: seq<SummaryItem>, outcomes: seq<Outcome>, trace: seq<Event>)

  /** The filter of the pending-hash comprehension: keep `h` unless `(h, modeId)` was cracked before. */
  function Unlogged(modeId: string, keys: set<Key>): string -> Option<string> {
    (h: string) => if (h, modeId) in keys then None else Some(h)
  }

  /** `[h for h in all_hashes if (h, mode_id) not in already_cracked]` */
  function Pending(hashes: seq<string>, modeId: string, keys: set<Key>): seq<string> {
    FilterMap(Unlogged(modeId, keys), hashes)
  }

  /** How the mode ends, given the key set read at start-up. */
  function OutcomeOf(m: Mode, hashes: seq<string>, keys: set<Key>, attack: AttackOracle, show: ShowOracle): Outcome {
    var pending := Pending(hashes, m.id, keys);
    if pending == [] then Skipped
    else if attack(m.id, pending) then Found(ShowPairs(show(m.id, pending)))
    else NotFound
  }

  /** The pairs a mode logs: those read back after a successful attack, else none. */
  function PairsOf(o: Outcome): seq<Pair> {
    if o.Found? then o.pairs else []
  }

  /** The ledger entries built for the pairs of one mode, timestamps counted from `base`. */
  function Logged(m: Mode, pairs: seq<Pair>, clock: Clock, base: nat): seq<Entry> {
    seq(|pairs|, k requires 0 <= k < |pairs| => Entry(pairs[k].0, m.id, pairs[k].1, clock(base + k)))
  }

  /** Logging one more pair appends its entry, stamped with the next timestamp. */
  lemma LoggedSnoc(m: Mode, pairs: seq<Pair>, clock: Clock, base: nat, j: nat)
    requires j < |pairs|
    ensures Logged(m, pairs[..j + 1], clock, base)
         == Logged(m, pairs[..j], clock, base) + [Entry(pairs[j].0, m.id, pairs[j].1, clock(base + j))]
  {
    var longer := Logged(m, pairs[..j + 1], clock, base);
    var shorter := Logged(m, pairs[..j], clock, base);
    forall k | 0 <= k < j
      ensures longer[k] == shorter[k]
    {
      assert pairs[..j + 1][k] == pairs[..j][k];
    }
  }

  /** `n` copies of one summary tuple. */
  function Copies(item: SummaryItem, n: nat): seq<SummaryItem> {
    seq(n, _ => item)
  }

  /** One more copy is one more tuple at the end. */
  lemma CopiesSnoc(item: SummaryItem, n: nat)
    ensures Copies(item, n + 1) == Copies(item, n) + [item]
  {
  }

  /**
   * The events of the mode at position `i`: a skipped mode touches nothing;
   * otherwise the subset file, then the pot file, the attack, the show call if
   * the attack succeeded, and the removal of the pot file and the subset file.
   */
  function ModeTrace(i: nat, o: Outcome): seq<Event> {
    if o.Skipped? then []
    else
      [Create(SubsetFile(i)), Create(PotFile(i)), Attack(i)]
      + (if o.Found? then [ShowCall(i)] else [])
      + [Remove(PotFile(i)), Remove(SubsetFile(i))]
  }

  /** One iteration of the loop for the mode at position `i`, ending with outcome `o`. */
  function Step(run: Run, i: nat, m: Mode, o: Outcome, clock: Clock): Run {
    var pairs := PairsOf(o);
    Run(run.appended + Logged(m, pairs, clock, |run.appended|),
        run.summary + Copies(SummaryItem(m.id, m.name, pairs), |pairs|),
        run.outcomes + [o],
        run.trace + ModeTrace(i, o))
  }

  /** The outcome of every candidate, in order, each decided by the start-up key set alone. */
  function Outcomes(modes: seq<Mode>, hashes: seq<string>, keys: set<Key>,
                    attack: AttackOracle, show: ShowOracle): (outcomes: seq<Outcome>)
    ensures |outcomes| == |modes|
  {
    seq(|modes|, i requires 0 <= i < |modes| => OutcomeOf(modes[i], hashes, keys, attack, show))
  }

  /** The bookkeeping of the loop over the candidates, given how each of them ends. */
  function Fold(modes: seq<Mode>, outcomes: seq<Outcome>, clock: Clock): Run
    requires |outcomes| == |modes|
    decreases |modes|
  {
    if modes == [] then Run([], [], [], [])
    else
      var n := |modes| - 1;
      Step(Fold(modes[..n], outcomes[..n], clock), n, modes[n], outcomes[n], clock)
  }

  /** The whole loop over the candidate modes, in their order. */
  function RunModes(modes: seq<Mode>, hashes: seq<string>, keys: set<Key>,
                    attack: AttackOracle, show: ShowOracle, clock: Clock): Run
  {
    Fold(modes, Outcomes(modes, hashes, keys, attack, show), clock)
  }

  /** The loop's progress: the run over one more mode is one more step. */
  lemma FoldPrefix(modes: seq<Mode>, outcomes: seq<Outcome>, i: nat, clock: Clock)
    requires |outcomes| == |modes| && i < |modes|
    ensures var run := Fold(modes[..i], outcomes[..i], clock);
      var next := Fold(modes[..i + 1], outcomes[..i + 1], clock);
      var pairs := PairsOf(outcomes[i]);
      && next.appended == run.appended + Logged(modes[i], pairs, clock, |run.appended|)
      && next.summary == run.summary + Copies(SummaryItem(modes[i].id, modes[i].name, pairs), |pairs|)
      && next.outcomes == run.outcomes + [outcomes[i]]
      && next.trace == run.trace + ModeTrace(i, outcomes[i])
  {
    assert modes[..i + 1][..i] == modes[..i];
    assert outcomes[..i + 1][..i] == outcomes[..i];
  }

  /** The inner loop over the pairs of a successful mode: one ledger entry and one summary tuple per pair. */
  method LogPairs(log: CrackLog, m: Mode, pairs: seq<Pair>, clock: Clock, base: nat)
    returns (items: seq<SummaryItem>)
    requires log.Valid()
    modifies log
    ensures log.Valid()
    ensures log.entries == old(log.entries) + Logged(m, pairs, clock, base)
    ensures items == Copies(SummaryItem(m.id, m.name, pairs), |pairs|)
    ensures log.file == if pairs == [] then old(log.file) else Records(log.entries)
  {
    items := [];
    var item := SummaryItem(m.id, m.name, pairs);
    for j := 0 to |pairs|
      invariant log.Valid()
      invariant log.entries == old(log.entries) + Logged(m, pairs[..j], clock, base)
      invariant items == Copies(item, j)
      invariant log.file == if j == 0 then old(log.file) else Records(log.entries)
    {
      var (h, clear) := pairs[j];
      var entry := Entry(h, m.id, clear, clock(base + j));
      log.Append(entry);
      items := items + [item];
      LoggedSnoc(m, pairs, clock, base, j);
      ConcatAssoc(old(log.entries), Logged(m, pairs[..j], clock, base), [entry]);
      CopiesSnoc(item, j);
    }
    assert pairs[..|pairs|] == pairs;
  }

  /**
   * One iteration for the mode at position `i`: skip it when nothing is
   * pending; otherwise write the subset file, create the pot file, attack, on
   * success read back and log the pairs, and remove both files.
   */
  method CrackMode(log: CrackLog, i: nat, m: Mode, keys: set<Key>, hashes: seq<string>,
                   attack: AttackOracle, show: ShowOracle, clock: Clock, base: nat)
    returns (outcome: Outcome, items: seq<SummaryItem>, events: seq<Event>)
    requires log.Valid()
    modifies log
    ensures log.Valid()
    ensures outcome == OutcomeOf(m, hashes, keys, attack, show)
    ensures log.entries == old(log.entries) + Logged(m, PairsOf(outcome), clock, base)
    ensures items == Copies(SummaryItem(m.id, m.name, PairsOf(outcome)), |PairsOf(outcome)|)
    ensures events == ModeTrace(i, outcome)
    ensures log.file == if PairsOf(outcome) == [] then old(log.file) else Records(log.entries)
  {
    var pending := Pending(hashes, m.id, keys);
    if pending == [] {
      return Skipped, [], [];
    }
    events := [Create(SubsetFile(i)), Create(PotFile(i))];
    var cracked := attack(m.id, pending);
    events := events + [Attack(i)];
    var shown: seq<Event> := [];
    if cracked {
      var pairs := ExtractCracked(show(m.id, pending));
      shown := [ShowCall(i)];
      items := LogPairs(log, m, pairs, clock, base);
      outcome := Found(pairs);
      assert outcome == OutcomeOf(m, hashes, keys, attack, show);
    } else {
      items := [];
      outcome := NotFound;
    }
    events := events + shown + [Remove(PotFile(i)), Remove(SubsetFile(i))];
  }

  /**
   * The loop of `main`: pending hashes from the start-up key set `keys`, which
   * the loop never updates; entries appended through the ledger; one summary
   * tuple per pair; both temporary files removed after every attempted mode.
   */
  method CrackModes(log: CrackLog, keys: set<Key>, modes: seq<Mode>, hashes: seq<string>,
                    attack: AttackOracle, show: ShowOracle, clock: Clock)
    returns (summary: seq<SummaryItem>, outcomes: seq<Outcome>, trace: seq<Event>)
    requires log.Valid()
    modifies log
    ensures log.Valid()
    ensures var run := RunModes(modes, hashes, keys, attack, show, clock);
      && log.entries == old(log.entries) + run.appended
      && summary == run.summary && outcomes == run.outcomes && trace == run.trace
      && log.file == if run.appended == [] then old(log.file) else Records(log.entries)
  {
    summary, outcomes, trace := [], [], [];
    ghost var all := Outcomes(modes, hashes, keys, attack, show);
    var logged: nat := 0;
    for i := 0 to |modes|
      invariant log.Valid()
      invariant var run := Fold(modes[..i], all[..i], clock);
        && log.entries == old(log.entries) + run.appended && logged == |run.appended|
        && summary == run.summary && outcomes == run.outcomes && trace == run.trace
        && log.file == if logged == 0 then old(log.file) else Records(log.entries)
    {
      ghost var run := Fold(modes[..i], all[..i], clock);
      var outcome, items, events := CrackMode(log, i, modes[i], keys, hashes, attack, show, clock, logged);
      assert outcome == all[i];
      ghost var added := Logged(modes[i], PairsOf(outcome), clock, logged);
      FoldPrefix(modes, all, i, clock);
      ConcatAssoc(old(log.entries), run.appended, added);
      summary := summary + items;
      outcomes := outcomes + [outcome];
      trace := trace + events;
      logged := logged + |PairsOf(outcome)|;
    }
    assert modes[..|modes|] == modes;
    assert all[..|modes|] == all;
  }

  /**
   * `main` after argument checking: load the ledger, enumerate the modes
   * (`None` when the tool cannot be started), stop with exit code 1 when there
   * is no mode, read the corpus, run the loop, and exit with 0. `saved` is the
   * ledger file as the run leaves it.
   */
  method AutoCrack(file: LogFile, corpus: seq<string>, enumeration: Option<string>,
                   attack: AttackOracle, show: ShowOracle, clock: Clock)
    returns (exitCode: int, summary: seq<SummaryItem>, outcomes: seq<Outcome>, trace: seq<Event>, saved: LogFile)
    ensures exitCode == 0 || exitCode == 1
    ensures exitCode == 1 <==> enumeration.None? || ModesOf(enumeration.value) == []
    ensures exitCode == 1 ==> saved == file && summary == [] && outcomes == [] && trace == []
    ensures exitCode == 0 ==>
      var run := RunModes(ModesOf(enumeration.value), HashesOf(corpus), Load(file).0, attack, show, clock);
      && summary == run.summary && outcomes == run.outcomes && trace == run.trace
      && saved == if run.appended == [] then file else Records(Load(file).1 + run.appended)
  {
    var log := new CrackLog.Open(file);
    var alreadyCracked := log.Keys();
    summary, outcomes, trace := [], [], [];
    if enumeration.None? {
      return 1, summary, outcomes, trace, log.file;
    }
    var candidates := CandidateModes(enumeration.value);
    if candidates == [] {
      return 1, summary, outcomes, trace, log.file;
    }
    var allHashes := GetAllHashes(corpus);
    summary, outcomes, trace := CrackModes(log, alreadyCracked, candidates, allHashes, attack, show, clock);
    return 0, summary, outcomes, trace, log.file;
  }
}
