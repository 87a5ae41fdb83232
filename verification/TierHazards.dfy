/** Runs in which the tier machine does not do what its comments expect: a check point that claims
    an unwritten message, a timed wake-up that hits the assertion in `_swap_mem_indexer`, and an
    update thread that is never woken again, after a timed dump and after a signalled one. Each comes with a concrete run from an empty index and
    the exact condition under which it happens. */
module TierHazards {
  import opened Prelude
  import opened Tiers
  import opened TierRuns
  import opened TierOrder
  import opened TierDurability

  const EMPTY := State(
    map[], None, [CLEARED, CLEARED, CLEARED], [CLEARED, CLEARED],
    0, 0, false, true, 0, 0, 0, 0, UpdIdle, DayIdle, HisIdle, 0, [], map[])

  const DOC1 := Doc(1, map[7 := 0])
  const DOC2 := Doc(2, map[7 := 0])
  const ONE: Tier := map[7 := [Posting(1, 0)]]
  const TWO: Tier := map[7 := [Posting(2, 0)]]

  lemma From(s0: State, run: seq<Action>, s: State, a: Action, t: State)
    requires Legal(s0, run) && Exec(s0, run) == s && Enabled(s, a) && Apply(s, a) == t
    ensures Legal(s0, run + [a]) && Exec(s0, run + [a]) == t
  {
    Extend(s0, run, s, a);
  }

  lemma NoSteps()
    ensures Init(EMPTY) && Legal(EMPTY, []) && Exec(EMPTY, []) == EMPTY
  {
  }

  /** Inserting the single term of a message into an empty MEM0. */
  lemma InsertOnly(s: State, doc: Doc)
    requires s.mem0 == map[] && s.upd == UpdRunning(doc, {7}) && doc.terms == map[7 := 0]
    ensures Inserted(s, doc, {7}, 7)
         == s.(mem0 := map[7 := [Posting(doc.id, 0)]], upd := UpdRunning(doc, {}))
  {
    assert {7} - {7} == {};
    assert [Posting(doc.id, 0)] + [] == [Posting(doc.id, 0)];
  }

  lemma InsertFirst() returns (run: seq<Action>)
    ensures Legal(EMPTY, run) && forall a :: a in run ==> !a.DayCapture?
    ensures Exec(EMPTY, run) == EMPTY.(mem0 := ONE, upd := UpdRunning(DOC1, {}), lastId := 1)
  {
    var s1 := EMPTY.(upd := UpdRunning(DOC1, {7}), lastId := 1);
    assert 7 in DOC1.terms && DOC1.terms.Keys == {7};
    NoSteps();
    hide Legal, Exec;
    From(EMPTY, [], EMPTY, BeginDoc(DOC1), s1);
    InsertOnly(s1, DOC1);
    From(EMPTY, [] + [BeginDoc(DOC1)], s1, InsertTerm(7), s1.(mem0 := ONE, upd := UpdRunning(DOC1, {})));
    run := [] + [BeginDoc(DOC1)] + [InsertTerm(7)];
  }

  /** From a state with an empty MEM0 and no message in progress, the second message goes in. */
  lemma InsertSecond(run: seq<Action>, s: State) returns (run': seq<Action>)
    requires Legal(EMPTY, run) && Exec(EMPTY, run) == s
    requires s.mem0 == map[] && s.upd.UpdIdle? && s.lastId == 1
    ensures run' == run + [BeginDoc(DOC2)] + [InsertTerm(7)] && Legal(EMPTY, run')
    ensures Exec(EMPTY, run') == s.(mem0 := TWO, upd := UpdRunning(DOC2, {}), lastId := 2)
  {
    var s1 := s.(upd := UpdRunning(DOC2, {7}), lastId := 2);
    assert 7 in DOC2.terms && DOC2.terms.Keys == {7};
    hide Legal, Exec;
    From(EMPTY, run, s, BeginDoc(DOC2), s1);
    InsertOnly(s1, DOC2);
    From(EMPTY, run + [BeginDoc(DOC2)], s1, InsertTerm(7), s1.(mem0 := TWO, upd := UpdRunning(DOC2, {})));
    run' := run + [BeginDoc(DOC2)] + [InsertTerm(7)];
  }

  /** The first message fills MEM0 and is swapped out; the second is then accepted into the new
      MEM0 before the day merger, already signalled, has run. */
  lemma FillSwapFill() returns (run: seq<Action>)
    ensures Init(EMPTY) && Legal(EMPTY, run) && forall a :: a in run ==> !a.DayCapture?
    ensures Exec(EMPTY, run)
         == EMPTY.(mem0 := TWO, mem1 := Some(ONE), lastId := 2, log := [DOC1, DOC2])
  {
    NoSteps();
    var r := InsertFirst();
    hide Legal, Exec;
    var s := Exec(EMPTY, r);
    var s1 := s.(mem0 := map[], mem1 := Some(ONE));
    From(EMPTY, r, s, SwapMem, s1);
    var s2 := s1.(upd := UpdIdle, log := [DOC1]);
    From(EMPTY, r + [SwapMem], s1, EndDoc, s2);
    var r2 := InsertSecond(r + [SwapMem] + [EndDoc], s2);
    var s3 := Exec(EMPTY, r2);
    From(EMPTY, r2, s3, EndDoc, s3.(upd := UpdIdle, log := [DOC1, DOC2]));
    run := r2 + [EndDoc];
  }

  // ---------- a check point that outruns the disk ----------

  /** A signalled dump can lose an accepted message: after this run and this dump the check point
      covers both messages, but a crash leaves nothing of the second. */
  lemma SignalledDumpCanLose() returns (run: seq<Action>)
    ensures Init(EMPTY) && Legal(EMPTY, run) && Legal(Exec(EMPTY, run), DUMP)
    ensures !Durable(Exec(Exec(EMPTY, run), DUMP), 7)
  {
    run := FillSwapFill();
    var s := EMPTY.(mem0 := TWO, mem1 := Some(ONE), lastId := 2, log := [DOC1, DOC2]);
    assert |At(s.mem0, 7)| == 1 && |InFlight(s.upd, 7)| == 0 && Enabled(s, DayCapture(false));
    EmptyInvariants();
    hide *;
    RunKey(EMPTY, run, 7);
    RunOrder(EMPTY, run, 7, -1);
    TailAck(EMPTY, run, 7);
    DumpDecides(s, 7, -1);
  }

  lemma EmptyInvariants()
    ensures Init(EMPTY) && Ownership(EMPTY) && KeyInv(EMPTY, 7) && KeyOrder(EMPTY, 7, -1) && KeyAck(EMPTY, 7)
  {
    EmptyInit();
    EmptyOrder();
    hide *;
    InitInv(EMPTY);
    InitAck(EMPTY, 7);
  }

  lemma EmptyInit()
    ensures Init(EMPTY)
  {
  }

  lemma EmptyOrder()
    ensures KeyOrder(EMPTY, 7, -1)
  {
  }

  // ---------- the assertion in _swap_mem_indexer ----------

  /** The day merger's wait can end by timeout while MEM1 is taken and MEM0 is not empty: it then
      swaps although MEM1 is occupied, which the assertion answers by killing the process. */
  predicate TimedWakeAborts(s: State) {
    s.dayPc.DayIdle? && s.mem0 != map[] && s.mem1.Some?
  }

  lemma TimedWakeCanAbort() returns (run: seq<Action>)
    ensures Init(EMPTY) && Legal(EMPTY, run) && TimedWakeAborts(Exec(EMPTY, run))
  {
    run := FillSwapFill();
    assert 7 in TWO;
  }

  // ---------- the update thread that never wakes ----------

  predicate NoSpuriousWake(run: seq<Action>) {
    forall a :: a in run ==> a != Wake(true)
  }

  /** The update thread waits, nobody has signalled it, and no dump that would signal is under way. */
  predicate Stuck(s: State) {
    && s.upd.UpdWaiting? && !s.upd.signalled
    && (if s.dayPc.DayIdle? then s.mem1.None? else s.dayPc.timed)
  }

  lemma StepStuck(s: State, a: Action)
    requires Stuck(s) && Enabled(s, a) && a != Wake(true)
    ensures Stuck(Apply(s, a)) && Apply(s, a).log == s.log && Apply(s, a).upd == s.upd
  {
  }

  /** Once stuck, no run without a spurious wake-up ever accepts another message. */
  lemma {:induction false} StuckForever(s: State, run: seq<Action>)
    requires Stuck(s) && Legal(s, run) && NoSpuriousWake(run)
    ensures Stuck(Exec(s, run)) && Exec(s, run).log == s.log && Exec(s, run).upd == s.upd
    decreases |run|
  {
    if run != [] {
      assert run[0] in run && forall a :: a in run[1..] ==> a in run;
      StepStuck(s, run[0]);
      StuckForever(Apply(s, run[0]), run[1..]);
    }
  }

  /** The step the day merger takes next when it runs alone. */
  function NextDayStep(m: DayMerger): Action {
    match m
    case DayIdle => DayCapture(false)
    case DayCaptured(_) => DayBegin(false)
    case DayMerging(_, _, _, _) => DayFinish
    case DayWritten(_, _) => DaySetCur
    case DayCurSet(_, _) => DaySetCheck
    case DayChecked(_, _) => DayPublish
  }

  function StepsLeft(m: DayMerger): nat {
    match m
    case DayIdle => 6
    case DayCaptured(_) => 5
    case DayMerging(_, _, _, _) => 4
    case DayWritten(_, _) => 3
    case DayCurSet(_, _) => 2
    case DayChecked(_, _) => 1
  }

  /** One step of the dump closer to the signal. */
  lemma DumpStep(s: State)
    requires Ownership(s) && s.upd.UpdWaiting? && !s.upd.signalled && !Stuck(s) && !s.dayPc.DayChecked?
    ensures Enabled(s, NextDayStep(s.dayPc))
    ensures var t := Apply(s, NextDayStep(s.dayPc));
            t.upd == s.upd && !Stuck(t) && StepsLeft(t.dayPc) == StepsLeft(s.dayPc) - 1
  {
    hide *;
    DumpStepEnabled(s);
    DumpStepEffect(s, NextDayStep(s.dayPc));
  }

  lemma DumpStepEffect(s: State, a: Action)
    requires a == NextDayStep(s.dayPc) && Enabled(s, a) && s.upd.UpdWaiting? && !Stuck(s) && !s.dayPc.DayChecked?
    ensures var t := Apply(s, a); t.upd == s.upd && !Stuck(t) && StepsLeft(t.dayPc) == StepsLeft(s.dayPc) - 1
  {
    hide Merge, SetFinish, Visible, DayTier, Day2Tier, HisTier, Swapped, Enabled;
    match a
    case DayCapture(_) => CaptureEffect(s);
    case _ =>
  }

  lemma CaptureEffect(s: State)
    requires Enabled(s, DayCapture(false))
    ensures var t := Apply(s, DayCapture(false)); t.upd == s.upd && t.dayPc == DayCaptured(false) && t.mem1 == s.mem1
  {
    hide Merge, SetFinish, Visible, DayTier, Day2Tier, HisTier;
  }

  lemma DumpStepEnabled(s: State)
    requires Ownership(s) && s.upd.UpdWaiting? && !s.upd.signalled && !Stuck(s) && !s.dayPc.DayChecked?
    ensures Enabled(s, NextDayStep(s.dayPc))
  {
    hide Merge, SetFinish, Visible;
  }

  /** A waiting update thread that is not stuck can be woken: let the dump in progress finish. */
  lemma {:induction false} RescueRun(s: State) returns (run: seq<Action>)
    requires Ownership(s) && s.upd.UpdWaiting? && !s.upd.signalled && !Stuck(s)
    ensures Legal(s, run) && NoSpuriousWake(run) && Exec(s, run).upd.UpdRunning?
    decreases StepsLeft(s.dayPc)
  {
    var a := NextDayStep(s.dayPc);
    if s.dayPc.DayChecked? {
      var t := DayPublished(s);
      assert Legal(Apply(t, Wake(false)), []);
      assert [Wake(false)][1..] == [] && Legal(t, [Wake(false)]);
      run := [a, Wake(false)];
      assert run[1..] == [Wake(false)];
    } else {
      DumpStep(s);
      StepOwnership(s, a);
      var rest := RescueRun(Apply(s, a));
      run := [a] + rest;
      assert run[1..] == rest;
    }
  }

  /** In every reachable state an unsignalled waiting update thread can be woken again, without a
      spurious wake-up, exactly when it is not stuck: what it waits for must be a dump that signals, and
      that dump must not have been published before the wait began. */
  lemma WakeableIffNotStuck(s: State, run: seq<Action>)
    requires Init(s) && Legal(s, run)
    requires Exec(s, run).upd.UpdWaiting? && !Exec(s, run).upd.signalled
    ensures var t := Exec(s, run);
            !Stuck(t) <==> exists more :: Legal(t, more) && NoSpuriousWake(more) && !Exec(t, more).upd.UpdWaiting?
  {
    var t := Exec(s, run);
    InitInv(s);
    RunInv(s, run);
    if Stuck(t) {
      forall more | Legal(t, more) && NoSpuriousWake(more) ensures Exec(t, more).upd.UpdWaiting? {
        StuckForever(t, more);
      }
    } else {
      var more := RescueRun(t);
    }
  }

  lemma TimedCapture() returns (run: seq<Action>)
    ensures Init(EMPTY) && Legal(EMPTY, run) && DayCapture(false) !in run
    ensures Exec(EMPTY, run)
         == EMPTY.(mem1 := Some(ONE), lastId := 1, log := [DOC1], dumpPos := 1, dayPc := DayCaptured(true))
  {
    NoSteps();
    var r := InsertFirst();
    assert 7 in ONE;
    hide Legal, Exec, Merge, SetFinish;
    var s := Exec(EMPTY, r);
    var s1 := s.(upd := UpdIdle, log := [DOC1]);
    From(EMPTY, r, s, EndDoc, s1);
    From(EMPTY, r + [EndDoc], s1, DayCapture(true),
         s1.(mem0 := map[], mem1 := Some(ONE), dumpPos := 1, dayPc := DayCaptured(true)));
    run := r + [EndDoc] + [DayCapture(true)];
  }

  /** A timed dump that is still running when the next message needs a swap strands the update
      thread: `update_day_indexer` does not signal after a timed dump. */
  lemma TimedDumpCanStrandUpdater() returns (run: seq<Action>)
    ensures Init(EMPTY) && Legal(EMPTY, run) && Stuck(Exec(EMPTY, run)) && DayCapture(false) !in run
  {
    hide Legal, Exec, Merge, SetFinish;
    var r := TimedCapture();
    var s := Exec(EMPTY, r);
    var r3 := InsertSecond(r, s);
    var s3 := s.(mem0 := TWO, upd := UpdRunning(DOC2, {}), lastId := 2);
    var s4 := s3.(upd := UpdChecked(DOC2, {}));
    From(EMPTY, r3, s3, CheckMem1, s4);
    From(EMPTY, r3 + [CheckMem1], s4, WaitForMem1, s3.(upd := UpdWaiting(DOC2, {}, false)));
    run := r3 + [CheckMem1] + [WaitForMem1];
  }

  // ---------- a wake-up that comes too early ----------

  /** The first message, swapped out and accepted. */
  lemma FirstSwapped() returns (run: seq<Action>)
    ensures Init(EMPTY) && Legal(EMPTY, run) && forall a :: a in run ==> !a.DayCapture?
    ensures Exec(EMPTY, run) == EMPTY.(mem1 := Some(ONE), lastId := 1, log := [DOC1])
  {
    NoSteps();
    var r := InsertFirst();
    hide Legal, Exec;
    var s := Exec(EMPTY, r);
    var s1 := s.(mem0 := map[], mem1 := Some(ONE));
    From(EMPTY, r, s, SwapMem, s1);
    From(EMPTY, r + [SwapMem], s1, EndDoc, s1.(upd := UpdIdle, log := [DOC1]));
    run := r + [SwapMem] + [EndDoc];
  }

  /** The state after a signalled dump, into an ordinary day directory or day/2, has written its index. */
  function DumpWritten(s: State, toDay2: bool): State
    requires |s.day| == 3 && s.dayIdx < 2 && s.mem1.Some?
  {
    var dst := if toDay2 then 2 else 1 - s.dayIdx;
    s.(dumpPos := |s.log|, canDump := s.canDump && !toDay2,
       day := s.day[dst := SetFinish(Merge(s.mem1.value, DayTier(s)))], dayPc := DayWritten(false, dst))
  }

  lemma DumpWrites(s0: State, run: seq<Action>, s: State, toDay2: bool) returns (run': seq<Action>)
    requires Legal(s0, run) && Exec(s0, run) == s && Enabled(s, DayCapture(false))
    requires |s.day| == 3 && s.dayIdx < 2 && (toDay2 ==> s.canDump)
    ensures run' == run + [DayCapture(false)] + [DayBegin(toDay2)] + [DayFinish]
    ensures Legal(s0, run') && Exec(s0, run') == DumpWritten(s, toDay2)
  {
    hide Legal, Exec, Merge, SetFinish, Visible;
    var dst, out := if toDay2 then 2 else 1 - s.dayIdx, SetFinish(Merge(s.mem1.value, DayTier(s)));
    var s1 := s.(dumpPos := |s.log|, dayPc := DayCaptured(false));
    From(s0, run, s, DayCapture(false), s1);
    var s2 := DayBegun(s1, toDay2);
    From(s0, run + [DayCapture(false)], s1, DayBegin(toDay2), s2);
    assert s.day[dst := CLEARED][dst := out] == s.day[dst := out];
    From(s0, run + [DayCapture(false)] + [DayBegin(toDay2)], s2, DayFinish, DumpWritten(s, toDay2));
    run' := run + [DayCapture(false)] + [DayBegin(toDay2)] + [DayFinish];
  }

  /** And then its `cur` file and its check point. */
  function Dumped(s: State, toDay2: bool): State
    requires |s.day| == 3 && s.dayIdx < 2 && s.mem1.Some?
  {
    var t := DumpWritten(s, toDay2);
    t.(curDay := if t.dayPc.dst == 0 then 0 else 1, check := |s.log|, dayPc := DayChecked(false, t.dayPc.dst))
  }

  lemma DumpUpToCheck(s0: State, run: seq<Action>, s: State, toDay2: bool) returns (run': seq<Action>)
    requires Legal(s0, run) && Exec(s0, run) == s && Enabled(s, DayCapture(false))
    requires |s.day| == 3 && s.dayIdx < 2 && (toDay2 ==> s.canDump)
    ensures run' == run + [DayCapture(false)] + [DayBegin(toDay2)] + [DayFinish] + [DaySetCur] + [DaySetCheck]
    ensures Legal(s0, run') && Exec(s0, run') == Dumped(s, toDay2)
  {
    hide Legal, Exec, Merge, SetFinish, Visible;
    var r1 := DumpWrites(s0, run, s, toDay2);
    var s1 := DumpWritten(s, toDay2);
    var s2 := s1.(curDay := if s1.dayPc.dst == 0 then 0 else 1, dayPc := DayCurSet(false, s1.dayPc.dst));
    From(s0, r1, s1, DaySetCur, s2);
    From(s0, r1 + [DaySetCur], s2, DaySetCheck, Dumped(s, toDay2));
    run' := r1 + [DaySetCur] + [DaySetCheck];
  }

  /** A signalled dump strands the update thread too, when it is published between the thread's check of
      MEM1 and its wait: the publication holds only the list lock, and its signal finds nobody waiting. */
  lemma SignalledDumpCanStrandUpdater() returns (run: seq<Action>)
    ensures Init(EMPTY) && Legal(EMPTY, run) && Stuck(Exec(EMPTY, run)) && DayCapture(true) !in run
  {
    var r := FirstSwapped();
    hide Legal, Exec, Merge, SetFinish;
    var s := EMPTY.(mem1 := Some(ONE), lastId := 1, log := [DOC1]);
    var r1 := DumpUpToCheck(EMPTY, r, s, false);
    var s1 := Dumped(s, false);
    var r2 := InsertSecond(r1, s1);
    var s2 := s1.(mem0 := TWO, upd := UpdRunning(DOC2, {}), lastId := 2);
    var s3 := s2.(upd := UpdChecked(DOC2, {}));
    From(EMPTY, r2, s2, CheckMem1, s3);
    From(EMPTY, r2 + [CheckMem1], s3, DayPublish, DayPublished(s3));
    var s5 := Apply(DayPublished(s3), WaitForMem1);
    From(EMPTY, r2 + [CheckMem1] + [DayPublish], DayPublished(s3), WaitForMem1, s5);
    run := r2 + [CheckMem1] + [DayPublish] + [WaitForMem1];
  }
}
