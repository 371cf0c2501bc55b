/**
 * What the per-mode loop of `main` (autoCrack.py:179-230) does to the ledger
 * and to the summary, stated over the specification `RunModes`.
 */
module RunFacts {
  import opened Wrappers
  import opened Seqs
  import opened ModeEnumerator
  import opened ResultExtractor
  import opened Ledger
  import opened Orchestrator

  /** A hash is pending for a mode exactly when it is in the corpus and was not cracked under that mode before. */
  lemma PendingMember(hashes: seq<string>, modeId: string, keys: set<Key>, h: string)
    ensures h in Pending(hashes, modeId, keys) <==> h in hashes && (h, modeId) !in keys
  {
    FilterMapMember(Unlogged(modeId, keys), hashes, h);
    if h in hashes && (h, modeId) !in keys {
      var i :| 0 <= i < |hashes| && hashes[i] == h;
      assert Unlogged(modeId, keys)(hashes[i]) == Some(h);
    }
  }

  /** The pending hashes keep the corpus order: pending of a concatenation is the concatenation of the pendings. */
  lemma PendingConcat(a: seq<string>, b: seq<string>, modeId: string, keys: set<Key>)
    ensures Pending(a + b, modeId, keys) == Pending(a, modeId, keys) + Pending(b, modeId, keys)
  {
    FilterMapConcat(Unlogged(modeId, keys), a, b);
  }

  /** A single line of the corpus is pending unless its key is known, and duplicates are kept. */
  lemma PendingOne(h: string, modeId: string, keys: set<Key>)
    ensures Pending([h], modeId, keys) == if (h, modeId) in keys then [] else [h]
  {
    assert [h][..0] == [];
  }

  /** A mode is skipped exactly when every hash of the corpus was already cracked under its id. */
  lemma PendingEmpty(hashes: seq<string>, modeId: string, keys: set<Key>)
    ensures Pending(hashes, modeId, keys) == [] <==> forall h :: h in hashes ==> (h, modeId) in keys
  {
    var pending := Pending(hashes, modeId, keys);
    forall h | h in hashes && pending == []
      ensures (h, modeId) in keys
    {
      PendingMember(hashes, modeId, keys, h);
    }
    if pending != [] {
      PendingMember(hashes, modeId, keys, pending[0]);
    }
  }

  /** The outcomes the loop reports are the given ones, in order. */
  lemma {:induction false} FoldOutcomes(modes: seq<Mode>, outcomes: seq<Outcome>, clock: Clock)
    requires |outcomes| == |modes|
    ensures Fold(modes, outcomes, clock).outcomes == outcomes
    decreases |modes|
  {
    if modes != [] {
      var n := |modes| - 1;
      var prev := Fold(modes[..n], outcomes[..n], clock);
      FoldOutcomes(modes[..n], outcomes[..n], clock);
      assert Fold(modes, outcomes, clock).outcomes == prev.outcomes + [outcomes[n]];
      FrontLast(outcomes);
    }
  }

  /** There is one summary tuple per ledger entry. */
  lemma {:induction false} FoldCounts(modes: seq<Mode>, outcomes: seq<Outcome>, clock: Clock)
    requires |outcomes| == |modes|
    ensures |Fold(modes, outcomes, clock).summary| == |Fold(modes, outcomes, clock).appended|
    decreases |modes|
  {
    if modes != [] {
      var n := |modes| - 1;
      var prev := Fold(modes[..n], outcomes[..n], clock);
      var pairs := PairsOf(outcomes[n]);
      FoldCounts(modes[..n], outcomes[..n], clock);
      assert |Fold(modes, outcomes, clock).appended| == |prev.appended| + |pairs|;
    }
  }

  /**
   * The outcomes of a run: one per candidate, each decided by the start-up
   * key set alone, since the loop never refreshes it.
   */
  lemma RunOutcomes(modes: seq<Mode>, hashes: seq<string>, keys: set<Key>,
                    attack: AttackOracle, show: ShowOracle, clock: Clock)
    ensures var run := RunModes(modes, hashes, keys, attack, show, clock);
      && |run.outcomes| == |modes|
      && |run.summary| == |run.appended|
      && forall i :: 0 <= i < |modes| ==> run.outcomes[i] == OutcomeOf(modes[i], hashes, keys, attack, show)
  {
    FoldOutcomes(modes, Outcomes(modes, hashes, keys, attack, show), clock);
    FoldCounts(modes, Outcomes(modes, hashes, keys, attack, show), clock);
  }

  /**
   * The k-th summary tuple belongs to the k-th ledger entry: same mode id, and
   * the entry's pair is one of the tuple's pairs (each tuple carries the whole
   * pair list of its mode, once per pair).
   */
  lemma {:induction false} LedgerMatchesSummary(modes: seq<Mode>, outcomes: seq<Outcome>, clock: Clock)
    requires |outcomes| == |modes|
    ensures var run := Fold(modes, outcomes, clock);
      && |run.summary| == |run.appended|
      && forall k :: 0 <= k < |run.appended| ==>
           run.appended[k].modeId == run.summary[k].modeId
           && (run.appended[k].hash, run.appended[k].clear) in run.summary[k].pairs
    decreases |modes|
  {
    if modes != [] {
      var n := |modes| - 1;
      LedgerMatchesSummary(modes[..n], outcomes[..n], clock);
      var prev := Fold(modes[..n], outcomes[..n], clock);
      var pairs := PairsOf(outcomes[n]);
      var item := SummaryItem(modes[n].id, modes[n].name, pairs);
      var entries := Logged(modes[n], pairs, clock, |prev.appended|);
      BlockMatches(modes[n], pairs, clock, |prev.appended|);
      MatchesConcat(prev.appended, prev.summary, entries, Copies(item, |pairs|));
    }
  }

  /** Entry `k` of the ledger and tuple `k` of the summary name the same mode, and the entry's pair is in the tuple. */
  ghost predicate Matches(appended: seq<Entry>, summary: seq<SummaryItem>) {
    && |summary| == |appended|
    && forall k :: 0 <= k < |appended| ==>
         appended[k].modeId == summary[k].modeId && (appended[k].hash, appended[k].clear) in summary[k].pairs
  }

  /** One mode's entries match its copies of the summary tuple. */
  lemma BlockMatches(m: Mode, pairs: seq<Pair>, clock: Clock, base: nat)
    ensures Matches(Logged(m, pairs, clock, base), Copies(SummaryItem(m.id, m.name, pairs), |pairs|))
  {
    var entries := Logged(m, pairs, clock, base);
    forall k | 0 <= k < |entries|
      ensures (entries[k].hash, entries[k].clear) in pairs
    {
      assert (entries[k].hash, entries[k].clear) == pairs[k];
    }
  }

  /** Matching ledgers and summaries stay matched when put one after the other. */
  lemma MatchesConcat(a: seq<Entry>, s: seq<SummaryItem>, b: seq<Entry>, t: seq<SummaryItem>)
    requires Matches(a, s) && Matches(b, t)
    ensures Matches(a + b, s + t)
  {
    forall k | |a| <= k < |a + b|
      ensures (a + b)[k] == b[k - |a|] && (s + t)[k] == t[k - |a|]
    {
    }
  }

  /** Every ledger entry comes from a pair that its own mode read back: `i` is the position of that mode. */
  lemma {:induction false} EntryOrigin(modes: seq<Mode>, outcomes: seq<Outcome>, clock: Clock, k: nat)
    returns (i: nat)
    requires |outcomes| == |modes|
    requires k < |Fold(modes, outcomes, clock).appended|
    ensures var e := Fold(modes, outcomes, clock).appended[k];
      && i < |modes| && e.modeId == modes[i].id && (e.hash, e.clear) in PairsOf(outcomes[i])
    decreases |modes|
  {
    var n := |modes| - 1;
    var prev := Fold(modes[..n], outcomes[..n], clock);
    var run := Fold(modes, outcomes, clock);
    var pairs := PairsOf(outcomes[n]);
    var b := |prev.appended|;
    if k < b {
      assert run.appended[k] == prev.appended[k];
      i := EntryOrigin(modes[..n], outcomes[..n], clock, k);
      assert modes[..n][i] == modes[i] && outcomes[..n][i] == outcomes[i];
    } else {
      assert run.appended[k] == Entry(pairs[k - b].0, modes[n].id, pairs[k - b].1, clock(b + (k - b)));
      assert pairs[k - b] in pairs;
      i := n;
    }
  }

  /**
   * The tool's show call reports only hashes of the subset file it was given.
   * Nothing in autoCrack.py establishes this: a salted `hash:salt` line is
   * read back with `hash` alone as its first field (see
   * Scenarios.SaltedHashLoggedAgain).
   */
  ghost predicate ShowConfined(show: ShowOracle) {
    forall id: string, pending: seq<string>, x :: x in ShowPairs(show(id, pending)) ==> x.0 in pending
  }

  /** With a confined show call, a mode reads back only pairs whose hash was pending for it. */
  lemma FoundPairsWerePending(m: Mode, hashes: seq<string>, keys: set<Key>,
                              attack: AttackOracle, show: ShowOracle, x: Pair)
    requires ShowConfined(show)
    requires x in PairsOf(OutcomeOf(m, hashes, keys, attack, show))
    ensures x.0 in hashes && (x.0, m.id) !in keys
  {
    var pending := Pending(hashes, m.id, keys);
    assert x in ShowPairs(show(m.id, pending));
    PendingMember(hashes, m.id, keys, x.0);
  }

  /** With a confined show call, a run never logs a key that the ledger held at start-up. */
  lemma NoStartupKeyRelogged(modes: seq<Mode>, hashes: seq<string>, keys: set<Key>,
                             attack: AttackOracle, show: ShowOracle, clock: Clock)
    requires ShowConfined(show)
    ensures forall e :: e in RunModes(modes, hashes, keys, attack, show, clock).appended ==> KeyOf(e) !in keys
  {
    var outcomes := Outcomes(modes, hashes, keys, attack, show);
    var appended := Fold(modes, outcomes, clock).appended;
    forall e | e in appended
      ensures KeyOf(e) !in keys
    {
      var k :| 0 <= k < |appended| && appended[k] == e;
      var i := EntryOrigin(modes, outcomes, clock, k);
      FoundPairsWerePending(modes[i], hashes, keys, attack, show, (e.hash, e.clear));
    }
  }

  /**
   * Across runs the saved ledger does its job: a second run started from the
   * file the first run left behind logs no key that the first run's ledger
   * held, neither an old one nor one the first run added.
   */
  lemma RerunLogsNothingAgain(file: LogFile, modes: seq<Mode>, hashes: seq<string>,
                              attack: AttackOracle, show: ShowOracle, clock: Clock,
                              modes2: seq<Mode>, hashes2: seq<string>,
                              attack2: AttackOracle, show2: ShowOracle, clock2: Clock)
    requires ShowConfined(show2)
    ensures var first := RunModes(modes, hashes, Load(file).0, attack, show, clock);
      var saved := if first.appended == [] then file else Records(Load(file).1 + first.appended);
      var second := RunModes(modes2, hashes2, Load(saved).0, attack2, show2, clock2);
      forall e :: e in second.appended ==>
        KeyOf(e) !in KeysOf(Load(file).1) && KeyOf(e) !in KeysOf(first.appended)
  {
    var first := RunModes(modes, hashes, Load(file).0, attack, show, clock);
    var saved := if first.appended == [] then file else Records(Load(file).1 + first.appended);
    KeysOfAppend(Load(file).1, first.appended);
    if first.appended == [] {
      assert Load(file).1 + first.appended == Load(file).1;
    }
    assert Load(saved).0 == KeysOf(Load(file).1) + KeysOf(first.appended);
    NoStartupKeyRelogged(modes2, hashes2, Load(saved).0, attack2, show2, clock2);
  }

  /** A run in which every candidate is skipped logs nothing, summarises nothing and touches no file. */
  lemma {:induction false} AllSkippedTouchesNothing(modes: seq<Mode>, outcomes: seq<Outcome>, clock: Clock)
    requires |outcomes| == |modes|
    requires forall i :: 0 <= i < |outcomes| ==> outcomes[i] == Skipped
    ensures var run := Fold(modes, outcomes, clock);
      run.appended == [] && run.summary == [] && run.trace == []
    decreases |modes|
  {
    if modes != [] {
      var n := |modes| - 1;
      AllSkippedTouchesNothing(modes[..n], outcomes[..n], clock);
    }
  }

  /** When every hash was cracked under every candidate id, the run skips every mode and touches nothing. */
  lemma AllLoggedSkipsAll(modes: seq<Mode>, hashes: seq<string>, keys: set<Key>,
                          attack: AttackOracle, show: ShowOracle, clock: Clock)
    requires forall i, h :: 0 <= i < |modes| && h in hashes ==> (h, modes[i].id) in keys
    ensures var run := RunModes(modes, hashes, keys, attack, show, clock);
      && run.appended == [] && run.summary == [] && run.trace == []
      && |run.outcomes| == |modes| && forall i :: 0 <= i < |modes| ==> run.outcomes[i] == Skipped
  {
    var outcomes := Outcomes(modes, hashes, keys, attack, show);
    forall i | 0 <= i < |modes|
      ensures outcomes[i] == Skipped
    {
      PendingEmpty(hashes, modes[i].id, keys);
    }
    AllSkippedTouchesNothing(modes, outcomes, clock);
    FoldOutcomes(modes, outcomes, clock);
  }

  /**
   * The stale key set: a mode id listed twice is attempted twice on the same
   * pending hashes, so the second attempt ends exactly like the first even
   * though the first logged its pairs.
   */
  lemma RepeatedModeRepeatsOutcome(modes: seq<Mode>, hashes: seq<string>, keys: set<Key>,
                                   attack: AttackOracle, show: ShowOracle, clock: Clock, i: nat, j: nat)
    requires i < j < |modes| && modes[i].id == modes[j].id
    ensures var run := RunModes(modes, hashes, keys, attack, show, clock);
      |run.outcomes| == |modes| && run.outcomes[j] == run.outcomes[i]
  {
    RunOutcomes(modes, hashes, keys, attack, show, clock);
  }

  /**
   * The stale key set, concretely: two candidates with the same id whose
   * attack reads back `k` pairs log the same `k` keys twice.
   */
  lemma RepeatedModeLogsTwice(a: Mode, b: Mode, hashes: seq<string>, keys: set<Key>,
                              attack: AttackOracle, show: ShowOracle, clock: Clock)
    requires a.id == b.id
    ensures var pairs := PairsOf(OutcomeOf(a, hashes, keys, attack, show));
      var run := RunModes([a, b], hashes, keys, attack, show, clock);
      && |run.appended| == 2 * |pairs|
      && forall k :: 0 <= k < |pairs| ==>
           KeyOf(run.appended[k]) == KeyOf(run.appended[|pairs| + k]) == (pairs[k].0, a.id)
  {
    var o := OutcomeOf(a, hashes, keys, attack, show);
    assert Outcomes([a, b], hashes, keys, attack, show) == [o, o];
    SameOutcomeLogsTwice(a, b, o, clock);
  }

  /** Two candidates with the same id and the same outcome append the same keys, one block after the other. */
  lemma SameOutcomeLogsTwice(a: Mode, b: Mode, o: Outcome, clock: Clock)
    requires a.id == b.id
    ensures var pairs := PairsOf(o);
      var appended := Fold([a, b], [o, o], clock).appended;
      && |appended| == 2 * |pairs|
      && forall k :: 0 <= k < |pairs| ==>
           KeyOf(appended[k]) == KeyOf(appended[|pairs| + k]) == (pairs[k].0, a.id)
  {
    var pairs := PairsOf(o);
    assert [a, b][..1] == [a] && [o, o][..1] == [o];
    assert [a][..0] == [] && [o][..0] == [];
    assert Fold([a], [o], clock).appended == Logged(a, pairs, clock, 0);
    assert Fold([a, b], [o, o], clock).appended == Logged(a, pairs, clock, 0) + Logged(b, pairs, clock, |pairs|);
  }
}
