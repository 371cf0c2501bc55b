/**
 * The temporary files of the loop of `main` (autoCrack.py:189-199 create
 * them, autoCrack.py:222-230 remove them), read off the event trace.
 */
module TraceFacts {
  import opened ModeEnumerator
  import opened Ledger
  import opened Orchestrator

  /** The live temporary files after one event. */
  function Apply(live: set<Resource>, e: Event): set<Resource> {
    match e
    case Create(r) => live + {r}
    case Remove(r) => live - {r}
    case Attack(_) => live
    case ShowCall(_) => live
  }

  /** The live temporary files after a sequence of events. */
  function LiveAfter(live: set<Resource>, t: seq<Event>): set<Resource>
    decreases |t|
  {
    if t == [] then live else LiveAfter(Apply(live, t[0]), t[1..])
  }

  /** The position of the mode an event belongs to. */
  function ModeOfEvent(e: Event): nat {
    match e
    case Create(r) => r.mode
    case Remove(r) => r.mode
    case Attack(i) => i
    case ShowCall(i) => i
  }

  /** A call of the tool, which reads the subset file and the pot file. */
  predicate IsToolCall(e: Event) {
    e.Attack? || e.ShowCall?
  }

  /** Replaying a trace event by event. */
  lemma LiveAfterCons(live: set<Resource>, e: Event, t: seq<Event>)
    ensures LiveAfter(live, [e] + t) == LiveAfter(Apply(live, e), t)
  {
    assert ([e] + t)[1..] == t;
  }

  /** Replaying a trace in two pieces gives the same live files. */
  lemma {:induction false} LiveAfterConcat(live: set<Resource>, a: seq<Event>, b: seq<Event>)
    ensures LiveAfter(live, a + b) == LiveAfter(LiveAfter(live, a), b)
    decreases |a|
  {
    if a == [] {
      assert a + b == b;
    } else {
      assert a + b == [a[0]] + (a[1..] + b);
      LiveAfterCons(live, a[0], a[1..] + b);
      LiveAfterConcat(Apply(live, a[0]), a[1..], b);
    }
  }

  /** Every event of one mode is tagged with the mode's position. */
  lemma ModeTraceTagged(i: nat, o: Outcome)
    ensures forall e :: e in ModeTrace(i, o) ==> ModeOfEvent(e) == i
  {
  }

  /** Replaying one event. */
  lemma LiveAfterOne(live: set<Resource>, e: Event)
    ensures LiveAfter(live, [e]) == Apply(live, e)
  {
    LiveAfterCons(live, e, []);
    assert [e] + [] == [e];
  }

  /** Replaying two events. */
  lemma LiveAfterTwo(live: set<Resource>, e: Event, f: Event)
    ensures LiveAfter(live, [e, f]) == Apply(Apply(live, e), f)
  {
    LiveAfterCons(live, e, [f]);
    assert [e] + [f] == [e, f];
    LiveAfterOne(Apply(live, e), f);
  }

  /** Replaying three events. */
  lemma LiveAfterThree(live: set<Resource>, e: Event, f: Event, g: Event)
    ensures LiveAfter(live, [e, f, g]) == Apply(Apply(Apply(live, e), f), g)
  {
    LiveAfterCons(live, e, [f, g]);
    assert [e] + [f, g] == [e, f, g];
    LiveAfterTwo(Apply(live, e), f, g);
  }

  /**
   * One mode's events: a skipped mode leaves the live files as they were; an
   * attempted one removes both of its files, whether or not the attack
   * succeeded.
   */
  lemma ModeTraceReleases(live: set<Resource>, i: nat, o: Outcome)
    ensures LiveAfter(live, ModeTrace(i, o))
         == if o.Skipped? then live else live - {SubsetFile(i), PotFile(i)}
  {
    if !o.Skipped? {
      var sub, pot := SubsetFile(i), PotFile(i);
      var start := [Create(sub), Create(pot), Attack(i)];
      var mid: seq<Event> := if o.Found? then [ShowCall(i)] else [];
      var tail := [Remove(pot), Remove(sub)];
      assert ModeTrace(i, o) == start + mid + tail;
      LiveAfterConcat(live, start + mid, tail);
      LiveAfterConcat(live, start, mid);
      var held := LiveAfter(live, start);
      LiveAfterThree(live, Create(sub), Create(pot), Attack(i));
      assert held == live + {sub} + {pot};
      if o.Found? {
        LiveAfterOne(held, ShowCall(i));
      }
      assert LiveAfter(held, mid) == held;
      LiveAfterTwo(held, Remove(pot), Remove(sub));
      assert held - {pot} - {sub} == live - {sub, pot};
    }
  }

  /** The mode at position `n` calls the tool for itself only: an attack unless skipped, a show call when found. */
  lemma ModeTraceCalls(n: nat, o: Outcome, i: nat)
    ensures Attack(i) in ModeTrace(n, o) <==> i == n && !o.Skipped?
    ensures ShowCall(i) in ModeTrace(n, o) <==> i == n && o.Found?
  {
    if !o.Skipped? {
      assert ModeTrace(n, o)[2] == Attack(n);
      if o.Found? {
        assert ModeTrace(n, o)[3] == ShowCall(n);
      }
    }
  }

  /** While the tool runs for the mode at position `i`, exactly that mode's two files are live. */
  lemma ModeTraceToolCalls(i: nat, o: Outcome, q: nat)
    requires q < |ModeTrace(i, o)| && IsToolCall(ModeTrace(i, o)[q])
    ensures ModeOfEvent(ModeTrace(i, o)[q]) == i
    ensures LiveAfter({}, ModeTrace(i, o)[..q]) == {SubsetFile(i), PotFile(i)}
  {
    var t := ModeTrace(i, o);
    var sub, pot := SubsetFile(i), PotFile(i);
    assert q == 2 || (o.Found? && q == 3);
    var rest: seq<Event> := if q == 2 then [] else [Attack(i)];
    assert t[..q] == [Create(sub)] + ([Create(pot)] + rest);
    var one := Apply({}, Create(sub));
    var both := Apply(one, Create(pot));
    LiveAfterCons({}, Create(sub), [Create(pot)] + rest);
    LiveAfterCons(one, Create(pot), rest);
    if q == 3 {
      assert rest == [Attack(i)] + [];
      LiveAfterCons(both, Attack(i), []);
    }
    assert both == {sub, pot};
  }

  /** Every event of a run belongs to one of its modes. */
  lemma {:induction false} TraceModesBelow(modes: seq<Mode>, outcomes: seq<Outcome>, clock: Clock)
    requires |outcomes| == |modes|
    ensures forall e :: e in Fold(modes, outcomes, clock).trace ==> ModeOfEvent(e) < |modes|
    decreases |modes|
  {
    if modes != [] {
      var n := |modes| - 1;
      TraceModesBelow(modes[..n], outcomes[..n], clock);
      ModeTraceTagged(n, outcomes[n]);
    }
  }

  /** No temporary file outlives the loop: both files of every attempted mode are removed. */
  lemma {:induction false} RunReleasesAll(modes: seq<Mode>, outcomes: seq<Outcome>, clock: Clock)
    requires |outcomes| == |modes|
    ensures LiveAfter({}, Fold(modes, outcomes, clock).trace) == {}
    decreases |modes|
  {
    if modes != [] {
      var n := |modes| - 1;
      var prev := Fold(modes[..n], outcomes[..n], clock).trace;
      RunReleasesAll(modes[..n], outcomes[..n], clock);
      LiveAfterConcat({}, prev, ModeTrace(n, outcomes[n]));
      ModeTraceReleases({}, n, outcomes[n]);
    }
  }

  /**
   * Each tool call sees exactly the two files of its own mode: the files of
   * earlier modes were removed before the next mode started.
   */
  lemma {:induction false} ToolSeesOwnFiles(modes: seq<Mode>, outcomes: seq<Outcome>, clock: Clock, p: nat)
    requires |outcomes| == |modes|
    requires p < |Fold(modes, outcomes, clock).trace| && IsToolCall(Fold(modes, outcomes, clock).trace[p])
    ensures var i := ModeOfEvent(Fold(modes, outcomes, clock).trace[p]);
      LiveAfter({}, Fold(modes, outcomes, clock).trace[..p]) == {SubsetFile(i), PotFile(i)}
    decreases |modes|
  {
    var n := |modes| - 1;
    var prev := Fold(modes[..n], outcomes[..n], clock).trace;
    var mine := ModeTrace(n, outcomes[n]);
    var trace := Fold(modes, outcomes, clock).trace;
    assert trace == prev + mine;
    if p < |prev| {
      assert trace[..p] == prev[..p];
      assert trace[p] == prev[p];
      ToolSeesOwnFiles(modes[..n], outcomes[..n], clock, p);
    } else {
      var q := p - |prev|;
      assert trace[..p] == prev + mine[..q];
      assert trace[p] == mine[q];
      LiveAfterConcat({}, prev, mine[..q]);
      RunReleasesAll(modes[..n], outcomes[..n], clock);
      ModeTraceToolCalls(n, outcomes[n], q);
    }
  }

  /**
   * The tool is called for a mode exactly when it is not skipped, and its
   * show call is made exactly when the attack succeeded.
   */
  lemma {:induction false} ToolCalledIffAttempted(modes: seq<Mode>, outcomes: seq<Outcome>, clock: Clock, i: nat)
    requires |outcomes| == |modes|
    ensures Attack(i) in Fold(modes, outcomes, clock).trace <==> i < |modes| && !outcomes[i].Skipped?
    ensures ShowCall(i) in Fold(modes, outcomes, clock).trace <==> i < |modes| && outcomes[i].Found?
    decreases |modes|
  {
    if modes != [] {
      var n := |modes| - 1;
      var prev := Fold(modes[..n], outcomes[..n], clock).trace;
      assert Fold(modes, outcomes, clock).trace == prev + ModeTrace(n, outcomes[n]);
      ToolCalledIffAttempted(modes[..n], outcomes[..n], clock, i);
      ModeTraceCalls(n, outcomes[n], i);
      if i < n {
        assert outcomes[..n][i] == outcomes[i];
      } else {
        TraceModesBelow(modes[..n], outcomes[..n], clock);
        assert ModeOfEvent(Attack(i)) == i && ModeOfEvent(ShowCall(i)) == i;
      }
    }
  }

  /**
   * In terms of the corpus: the mode at position `i` is attacked exactly when
   * some hash is pending for it, and read back exactly when that attack
   * exits with 0.
   */
  lemma AttackedIffPending(modes: seq<Mode>, hashes: seq<string>, keys: set<Key>,
                           attack: AttackOracle, show: ShowOracle, clock: Clock, i: nat)
    ensures Attack(i) in RunModes(modes, hashes, keys, attack, show, clock).trace
        <==> i < |modes| && Pending(hashes, modes[i].id, keys) != []
    ensures ShowCall(i) in RunModes(modes, hashes, keys, attack, show, clock).trace
        <==> i < |modes| && Pending(hashes, modes[i].id, keys) != []
             && attack(modes[i].id, Pending(hashes, modes[i].id, keys))
  {
    ToolCalledIffAttempted(modes, Outcomes(modes, hashes, keys, attack, show), clock, i);
  }
}
