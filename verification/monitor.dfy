/**
 One iteration of the capture loop: `run` in src/lib.rs and the loop of
 `main` in src/main.rs, after the packet source has produced an event.
 Printing is returned as lines; the table dump (`dbg!(&statistics)`) is
 returned as an optional snapshot of the table.
 */
module Monitor {
  import opened Wrappers
  import opened Dns
  import opened Lines
  import opened Records
  import opened Display
  import opened Capture
  import opened Stats

  /** What `cap.next_packet()` yields and the loop continues on; a fatal
      capture error ends the loop and is not an event. */
  datatype Event = Frame(packet: seq<byte>) | Timeout

  /** The model assumes every frame reaching `process` is at least as long as
      the 42 skipped header bytes. The source does not check this: a shorter
      frame panics in `&packet[42..]` and ends the program, a path this model
      leaves out. */
  predicate Admissible(ev: Event)
  {
    ev.Frame? ==> |ev.packet| >= HeaderLength
  }

  predicate AllAdmissible(evs: seq<Event>)
  {
    forall i :: 0 <= i < |evs| ==> Admissible(evs[i])
  }

  /** The observation an event produces, if any. */
  function Accepted(ev: Event, decode: seq<byte> -> Option<Message>): Option<QueryResult>
    requires Admissible(ev)
  {
    if ev.Frame? then Process(ev.packet, decode) else None
  }

  /** The names of all observations in a trace of events, in order. */
  function Observed(evs: seq<Event>, decode: seq<byte> -> Option<Message>): (names: seq<string>)
    requires AllAdmissible(evs)
    ensures |names| <= |evs|
  {
    if |evs| == 0 then []
    else
      var init := Observed(evs[..|evs| - 1], decode);
      match Accepted(evs[|evs| - 1], decode)
      case Some(qr) => init + [qr.name]
      case None => init
  }

  const SnapshotEvery: nat := 10

  /** What one iteration produced: the new state, the printed lines and the dumped table. */
  datatype Step<S> = Step(state: S, printed: seq<string>, snapshot: Option<map<string, nat>>)

  // ---------------------------------------------------------------------
  // src/lib.rs `run`

  datatype RunState = RunState(totalCounts: nat, statistics: map<string, nat>)

  /** One iteration of the library loop: an observation is shown, counted in
      `total_counts` and in the table; then the table is dumped whenever
      `total_counts` is a multiple of 10, on every iteration. */
  function RunStep(s: RunState, ev: Event, decode: seq<byte> -> Option<Message>): (st: Step<RunState>)
    requires Admissible(ev)
    ensures Accepted(ev, decode).None? ==> st.state == s && st.printed == []
    ensures Accepted(ev, decode).Some? ==>
              var qr := Accepted(ev, decode).value;
              && st.state.totalCounts == s.totalCounts + 1
              && st.state.statistics == Increment(s.statistics, qr.name)
              && st.printed == Print(ShowLines(qr))
    ensures st.snapshot.Some? <==> st.state.totalCounts % SnapshotEvery == 0
    ensures st.snapshot.Some? ==> st.snapshot.value == st.state.statistics
    ensures MapSum(s.statistics) == s.totalCounts ==> MapSum(st.state.statistics) == st.state.totalCounts
  {
    var (next, printed) :=
      match Accepted(ev, decode)
      case Some(qr) =>
        (IncrementSum(s.statistics, qr.name);
         (RunState(s.totalCounts + 1, Increment(s.statistics, qr.name)), Print(ShowLines(qr))))
      case None => (s, []);
    Step(next, printed, if next.totalCounts % SnapshotEvery == 0 then Some(next.statistics) else None)
  }

  /** The library loop's state after a trace of events, from the empty start:
      at most one count per event, and the table always sums to `total_counts`. */
  function Run(evs: seq<Event>, decode: seq<byte> -> Option<Message>): (r: RunState)
    requires AllAdmissible(evs)
    ensures r.totalCounts <= |evs|
    ensures MapSum(r.statistics) == r.totalCounts
  {
    if |evs| == 0 then RunState(0, map[])
    else RunStep(Run(evs[..|evs| - 1], decode), evs[|evs| - 1], decode).state
  }

  /** After any trace, `total_counts` is the number of observations and the
      table is their tally. */
  lemma {:induction false} RunCounts(evs: seq<Event>, decode: seq<byte> -> Option<Message>)
    requires AllAdmissible(evs)
    ensures Run(evs, decode).totalCounts == |Observed(evs, decode)|
    ensures Run(evs, decode).statistics == Tally(Observed(evs, decode))
    decreases |evs|
  {
    if |evs| > 0 {
      var init := evs[..|evs| - 1];
      assert AllAdmissible(init);
      RunCounts(init, decode);
      var names := Observed(init, decode);
      if Accepted(evs[|evs| - 1], decode).Some? {
        var name := Accepted(evs[|evs| - 1], decode).value.name;
        assert (names + [name])[..|names|] == names;
      }
    }
  }

  /** The frequency-table invariant: every name seen is counted exactly as often
      as it was seen, and the counts sum to `total_counts`. */
  lemma RunInvariant(evs: seq<Event>, decode: seq<byte> -> Option<Message>)
    requires AllAdmissible(evs)
    ensures var s, names := Run(evs, decode), Observed(evs, decode);
            && MapSum(s.statistics) == s.totalCounts
            && (forall n :: n in s.statistics <==> n in names)
            && (forall n :: n in s.statistics ==> s.statistics[n] == multiset(names)[n])
  {
    RunCounts(evs, decode);
    TallyCounts(Observed(evs, decode));
    TallySum(Observed(evs, decode));
  }

  /** An iteration that observes nothing (a timeout, a decode error, a message
      without a question) still dumps the unchanged table while `total_counts`
      sits at a multiple of 10. */
  lemma IdleIterationDumps(s: RunState, ev: Event, decode: seq<byte> -> Option<Message>)
    requires Admissible(ev) && Accepted(ev, decode).None?
    requires s.totalCounts % SnapshotEvery == 0
    ensures RunStep(s, ev, decode).snapshot == Some(s.statistics)
  {
  }

  // ---------------------------------------------------------------------
  // src/main.rs loop

  /** One iteration of the binary's loop: an observation is shown and counted
      in the table; then the table is dumped whenever the number of DISTINCT
      names is a multiple of 10. */
  function MainStep(counts: map<string, nat>, ev: Event, decode: seq<byte> -> Option<Message>): (st: Step<map<string, nat>>)
    requires Admissible(ev)
    ensures Accepted(ev, decode).None? ==> st.state == counts && st.printed == []
    ensures Accepted(ev, decode).Some? ==>
              var qr := Accepted(ev, decode).value;
              st.state == Increment(counts, qr.name) && st.printed == Print(QueryResultLines(qr))
    ensures st.snapshot.Some? <==> |st.state| % SnapshotEvery == 0
    ensures st.snapshot.Some? ==> st.snapshot.value == st.state
    ensures counts.Keys <= st.state.Keys && |counts| <= |st.state| <= |counts| + 1
  {
    var (next, printed) :=
      match Accepted(ev, decode)
      case Some(qr) => (Increment(counts, qr.name), Print(QueryResultLines(qr)))
      case None => (counts, []);
    Step(next, printed, if |next| % SnapshotEvery == 0 then Some(next) else None)
  }

  /** The binary loop's table after a trace of events, from the empty start:
      it never holds more names than there were observations. */
  function MainRun(evs: seq<Event>, decode: seq<byte> -> Option<Message>): (r: map<string, nat>)
    requires AllAdmissible(evs)
    ensures |r| <= |Observed(evs, decode)|
  {
    if |evs| == 0 then map[]
    else MainStep(MainRun(evs[..|evs| - 1], decode), evs[|evs| - 1], decode).state
  }

  /** The binary keeps the same table as the library. */
  lemma {:induction false} MainRunCounts(evs: seq<Event>, decode: seq<byte> -> Option<Message>)
    requires AllAdmissible(evs)
    ensures MainRun(evs, decode) == Run(evs, decode).statistics
    decreases |evs|
  {
    if |evs| > 0 {
      var init := evs[..|evs| - 1];
      assert AllAdmissible(init);
      MainRunCounts(init, decode);
    }
  }

  /** The two dump policies differ: ten (or twenty, ...) observations of one
      name dump the table in the library but not in the binary. */
  lemma SnapshotPoliciesDiffer(evs: seq<Event>, decode: seq<byte> -> Option<Message>)
    requires AllAdmissible(evs)
    requires var names := Observed(evs, decode);
             |names| > 0 && |names| % SnapshotEvery == 0 && forall i :: 0 <= i < |names| ==> names[i] == names[0]
    ensures Run(evs, decode).totalCounts % SnapshotEvery == 0
    ensures |MainRun(evs, decode)| % SnapshotEvery != 0
  {
    var names := Observed(evs, decode);
    var tally := Run(evs, decode).statistics;
    assert Run(evs, decode).totalCounts == |names| && tally == Tally(names) by {
      RunCounts(evs, decode);
    }
    assert |tally| == 1 by {
      SingleNameTally(names);
    }
    assert MainRun(evs, decode) == tally by {
      MainRunCounts(evs, decode);
    }
    assert |MainRun(evs, decode)| % SnapshotEvery == 1 % 10;
  }

  /** In the binary, a repeated name (or no observation) leaves the number of
      distinct names unchanged, so a due dump is repeated. */
  lemma MainDumpRepeats(counts: map<string, nat>, ev: Event, decode: seq<byte> -> Option<Message>)
    requires Admissible(ev)
    requires |counts| % SnapshotEvery == 0
    requires Accepted(ev, decode).Some? ==> Accepted(ev, decode).value.name in counts
    ensures MainStep(counts, ev, decode).snapshot.Some?
  {
    if Accepted(ev, decode).Some? {
      assert Increment(counts, Accepted(ev, decode).value.name).Keys == counts.Keys;
    }
  }
}
