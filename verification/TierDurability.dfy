/** Crash durability: what the check point claims must be found again in the directories that the
    `cur` files name, together with day/2, whichever step the process dies after. */
module TierDurability {
  import opened Prelude
  import opened Tiers
  import opened TierRuns
  import opened TierOrder

  /** How many postings of a term the first n accepted messages, and the start state, account for. */
  function Acked(s: State, n: nat, k: Key): nat
    requires n <= |s.log|
  {
    |LogOf(s.log[..n], k)| + |At(s.base, k)|
  }

  function RecoveredDay(s: State): Tier {
    if s.curDay < |s.day| then Visible(s.day[s.curDay]) else map[]
  }

  function RecoveredHis(s: State): Tier {
    if s.curHis < |s.his| then Visible(s.his[s.curHis]) else map[]
  }

  /** A term's postings after a restart: both memory tiers and every other directory are gone. */
  function Recovered(s: State, k: Key): seq<Posting> {
    At(RecoveredDay(s), k) + At(Day2Tier(s), k) + At(RecoveredHis(s), k)
  }

  /** No posting covered by the written check point is lost, unless MAX newer ones displaced it. */
  ghost predicate Durable(s: State, k: Key) {
    s.check <= |s.log| && Acked(s, s.check, k) <= |Hist(s, k)|
    && forall i :: |Hist(s, k)| - Acked(s, s.check, k) <= i < |Hist(s, k)| && i < MAX_POSTINGLIST_SIZE
         ==> Hist(s, k)[i] in Recovered(s, k)
  }

  /** At the capture MEM0 holds nothing but postings of the message being inserted. */
  ghost predicate SafeCapture(s: State) {
    forall k :: |At(s.mem0, k)| <= |InFlight(s.upd, k)|
  }

  /** Every dump that starts because MEM1 is full captures its position safely; timed dumps swap
      and capture in one critical section and need no condition. */
  ghost predicate SafeRun(s: State, run: seq<Action>)
    requires Legal(s, run)
    decreases |run|
  {
    run == []
    || ((run[0] == DayCapture(false) ==> SafeCapture(s)) && SafeRun(Apply(s, run[0]), run[1..]))
  }

  predicate Pending(m: DayMerger) {
    m.DayCaptured? || m.DayMerging? || m.DayWritten? || m.DayCurSet?
  }

  /** Whatever the check point covers has left MEM0, and MEM1 too unless its dump is on disk. */
  predicate KeyAck(s: State, k: Key) {
    && s.check <= |s.log| && s.dumpPos <= |s.log|
    && |At(s.mem0, k)| + (if s.dayPc.DayChecked? then 0 else |Mem1At(s, k)|) + Acked(s, s.check, k) <= |Hist(s, k)|
    && (Pending(s.dayPc) ==> |At(s.mem0, k)| + Acked(s, s.dumpPos, k) <= |Hist(s, k)|)
  }

  lemma InitAck(s: State, k: Key)
    requires Init(s)
    ensures KeyAck(s, k)
  {
  }

  lemma AckFrame(s: State, t: State, k: Key)
    requires KeyAck(s, k)
    requires t.check == s.check && t.dumpPos == s.dumpPos && t.base == s.base
    requires t.log == s.log && |Hist(t, k)| - |Hist(s, k)| == |At(t.mem0, k)| - |At(s.mem0, k)|
    requires t.dayPc == s.dayPc && Mem1At(t, k) == Mem1At(s, k)
    ensures KeyAck(t, k)
  {
  }

  lemma InsertAck(s: State, ins: Key, k: Key)
    requires Ownership(s) && Enabled(s, InsertTerm(ins)) && KeyAck(s, k)
    ensures KeyAck(Apply(s, InsertTerm(ins)), k)
  {
    hide Merge, SetFinish, Visible, DayProgress, HisProgress;
    var t := Apply(s, InsertTerm(ins));
    assert Past(t, k) == Past(s, k);
    AckFrame(s, t, k);
  }

  lemma EndDocAck(s: State, k: Key)
    requires Ownership(s) && Enabled(s, EndDoc) && KeyAck(s, k)
    ensures KeyAck(Apply(s, EndDoc), k)
  {
    hide Merge, SetFinish, Visible, DayProgress, HisProgress;
    var t := Apply(s, EndDoc);
    EndDocHist(s, s.upd.doc, k);
    assert t.log[..s.check] == s.log[..s.check] && t.log[..s.dumpPos] == s.log[..s.dumpPos];
  }

  lemma CaptureAck(s: State, timed: bool, k: Key)
    requires Ownership(s) && Enabled(s, DayCapture(timed)) && KeyAck(s, k)
    requires timed || |At(s.mem0, k)| <= |InFlight(s.upd, k)|
    ensures KeyAck(Apply(s, DayCapture(timed)), k)
  {
    hide Merge, SetFinish, Visible, DayProgress, HisProgress;
    var t := Apply(s, DayCapture(timed));
    assert s.log[..|s.log|] == s.log;
    assert Hist(t, k) == Hist(s, k) && |Past(s, k)| == Acked(t, t.dumpPos, k);
  }

  lemma MergerKeeps(s: State, a: Action, k: Key)
    requires Enabled(s, a) && ((IsDayAction(a) && !a.DayCapture?) || IsHisAction(a))
    ensures var t := Apply(s, a);
            && t.mem0 == s.mem0 && t.log == s.log && t.base == s.base && t.dumpPos == s.dumpPos
            && InFlight(t.upd, k) == InFlight(s.upd, k)
            && Mem1At(t, k) == (if a.DayPublish? then [] else Mem1At(s, k))
            && t.check == if a.DaySetCheck? then s.dumpPos else s.check
  {
    hide Merge, SetFinish, Visible, LogOf, DayTier, Day2Tier, HisTier;
  }

  lemma MergerAck(s: State, a: Action, k: Key)
    requires Ownership(s) && Enabled(s, a) && KeyAck(s, k)
    requires (IsDayAction(a) && !a.DayCapture?) || IsHisAction(a)
    ensures KeyAck(Apply(s, a), k)
  {
    hide Ownership, Merge, SetFinish, Visible, LogOf, InFlight, Mem1At;
    var t := Apply(s, a);
    MergerKeeps(s, a, k);
    assert Hist(t, k) == Hist(s, k);
  }

  lemma SwapAck(s: State, k: Key)
    requires Ownership(s) && Enabled(s, SwapMem) && KeyAck(s, k)
    ensures KeyAck(Apply(s, SwapMem), k)
  {
    hide Merge, SetFinish, Visible, HisProgress, LogOf;
    assert s.dayPc.DayIdle?;
  }

  /** Taking up a message, waiting and waking. */
  lemma WaitAck(s: State, a: Action, k: Key)
    requires Enabled(s, a) && (a.BeginDoc? || a.CheckMem1? || a.WaitForMem1? || a.Wake?) && KeyAck(s, k)
    ensures KeyAck(Apply(s, a), k)
  {
    hide Merge, SetFinish, Visible, LogOf;
    assert Past(Apply(s, a), k) == Past(s, k) && InFlight(Apply(s, a).upd, k) == InFlight(s.upd, k);
    AckFrame(s, Apply(s, a), k);
  }

  lemma StepAck(s: State, a: Action, k: Key)
    requires Ownership(s) && Enabled(s, a) && KeyAck(s, k)
    requires a == DayCapture(false) ==> |At(s.mem0, k)| <= |InFlight(s.upd, k)|
    ensures KeyAck(Apply(s, a), k)
  {
    hide Ownership, KeyAck, Enabled, Apply, InFlight;
    if a.InsertTerm? {
      InsertAck(s, a.k, k);
    } else if a.EndDoc? {
      EndDocAck(s, k);
    } else if a.DayCapture? {
      CaptureAck(s, a.timed, k);
    } else if IsDayAction(a) || IsHisAction(a) {
      MergerAck(s, a, k);
    } else if a.SwapMem? {
      SwapAck(s, k);
    } else {
      WaitAck(s, a, k);
    }
  }

  lemma {:induction false} RunAck(s: State, run: seq<Action>, k: Key)
    requires Ownership(s) && KeyAck(s, k) && Legal(s, run) && SafeRun(s, run)
    ensures KeyAck(Exec(s, run), k)
    decreases |run|
  {
    if run != [] {
      StepOwnership(s, run[0]);
      StepAck(s, run[0], k);
      RunAck(Apply(s, run[0]), run[1..], k);
    }
  }

  // ---------- what is on disk at a crash ----------

  predicate CurMoved(s: State) {
    s.dayPc.DayCurSet? || s.dayPc.DayChecked?
  }

  /** The `cur` file names a finished dump that is not published yet. */
  predicate DumpNamed(s: State) {
    DayTarget(s) == Some(s.curDay)
  }

  /** What a restart finds as DAY, tier by tier. */
  lemma RecoveredDayTier(s: State)
    requires Ownership(s)
    ensures CurMoved(s) ==> Day2Window(s) || DumpNamed(s)
    ensures !CurMoved(s) && s.curDay != s.dayIdx ==> DayTier(s) == map[]
    ensures Day2Window(s) ==> s.mem1.Some? && Day2Tier(s) == Merge(s.mem1.value, DayTier(s))
    ensures Day2Window(s) ==> RecoveredDay(s) == (if s.curDay == s.dayIdx then DayTier(s) else map[])
    ensures !Day2Window(s) && DumpNamed(s) ==> s.mem1.Some? && RecoveredDay(s) == Merge(s.mem1.value, DayTier(s))
    ensures !Day2Window(s) && !DumpNamed(s) ==> RecoveredDay(s) == DayTier(s)
  {
    hide Merge, SetFinish, HisProgress;
    if s.mem1.Some? {
      MergeAt(s.mem1.value, DayTier(s), 0);
    }
  }

  lemma RecoveredHisTier(s: State)
    requires Ownership(s)
    ensures RecoveredHis(s) == if s.hisPc.HisCurSet? then Merge(Day2Tier(s), HisTier(s)) else HisTier(s)
    ensures Day2Window(s) ==> s.hisPc.HisIdle?
  {
    hide Merge, SetFinish, DayProgress;
    MergeAt(Day2Tier(s), HisTier(s), 0);
  }

  /** The three lists a restart finds for a term, from those the five tiers hold. While a dump to day/2 is
      readable but unpublished, `cur` may still name the DAY that was merged into it; and once `cur` of the
      history is rewritten, the merged history is found next to the day/2 that went into it. */
  lemma RecoveredParts(s: State, k: Key)
    requires Ownership(s)
    ensures var m1, d, h := Mem1At(s, k), At(DayTier(s), k), At(HisTier(s), k);
            && (Day2Window(s) ==>
                  && At(RecoveredDay(s), k) == (if s.curDay == s.dayIdx then d else [])
                  && At(Day2Tier(s), k) == Take(MAX_POSTINGLIST_SIZE, m1 + d) && At(RecoveredHis(s), k) == h)
            && (!Day2Window(s) ==>
                  && At(RecoveredDay(s), k) == (if DumpNamed(s) then Take(MAX_POSTINGLIST_SIZE, m1 + d) else d)
                  && At(RecoveredHis(s), k)
                     == (if s.hisPc.HisCurSet? then Take(MAX_POSTINGLIST_SIZE, At(Day2Tier(s), k) + h) else h))
    ensures CurMoved(s) ==> Day2Window(s) || DumpNamed(s)
    ensures !CurMoved(s) && s.curDay != s.dayIdx ==> At(DayTier(s), k) == []
  {
    hide Merge, SetFinish, Ownership, Visible, DayTier, Day2Tier, HisTier, RecoveredDay, RecoveredHis, Take, Day2Window, DumpNamed, CurMoved;
    RecoveredDayTier(s);
    RecoveredHisTier(s);
    if s.mem1.Some? {
      MergeAt(s.mem1.value, DayTier(s), k);
    }
    MergeAt(Day2Tier(s), HisTier(s), k);
  }

  /** Once `cur` is rewritten the finished dump is found again; until then the old DAY is. */
  lemma RecoveredDayPart(s: State, k: Key)
    requires Ownership(s)
    ensures CurMoved(s) ==>
              forall p :: p in Take(MAX_POSTINGLIST_SIZE, Mem1At(s, k) + At(DayTier(s), k)) ==> p in Recovered(s, k)
    ensures !CurMoved(s) ==> forall p :: p in At(DayTier(s), k) ==> p in Recovered(s, k)
  {
    hide Ownership, Merge, SetFinish, Visible, DayTier, Day2Tier, HisTier, RecoveredDay, RecoveredHis, Take, Day2Window, CurMoved;
    RecoveredParts(s, k);
    if !CurMoved(s) && DumpNamed(s) {
      NamedIsNotCurrent(s);
    }
  }

  lemma NamedIsNotCurrent(s: State)
    requires Ownership(s) && DumpNamed(s)
    ensures s.curDay != s.dayIdx
  {
    hide Merge, SetFinish, Visible, HisProgress;
  }

  lemma RecoveredHisPart(s: State, k: Key)
    requires Ownership(s)
    ensures forall p :: p in Take(MAX_POSTINGLIST_SIZE, At(PublishedDay2(s), k) + At(HisTier(s), k))
              ==> p in Recovered(s, k)
  {
    hide Ownership, Merge, SetFinish, Visible, DayTier, Day2Tier, HisTier, RecoveredDay, RecoveredHis, Day2Window, DumpNamed, CurMoved;
    RecoveredParts(s, k);
    var d2, h := At(PublishedDay2(s), k), At(HisTier(s), k);
    forall p | p in Take(MAX_POSTINGLIST_SIZE, d2 + h) ensures p in Recovered(s, k) {
      assert p in d2 || p in h;
    }
  }

  lemma TakePrefix(a: seq<Posting>, i: nat)
    requires i < |a| && i < MAX_POSTINGLIST_SIZE
    ensures a[i] in Take(MAX_POSTINGLIST_SIZE, a)
  {
    assert Take(MAX_POSTINGLIST_SIZE, a)[i] == a[i];
  }

  /** Where the i-th newest posting is: in a memory tier, or within reach of the disk tiers. */
  lemma Locate(m0: seq<Posting>, m1: seq<Posting>, d: seq<Posting>, rest: seq<Posting>, hist: seq<Posting>, i: nat)
    requires Tracks(m0 + m1, d + rest, hist) && |m0| <= i < |hist| && i < MAX_POSTINGLIST_SIZE
    ensures i < |m0| + |m1| ==> hist[i] in Take(MAX_POSTINGLIST_SIZE, m1 + d)
    ensures i >= |m0| + |m1| ==>
              (hist[i] in d && hist[i] in Take(MAX_POSTINGLIST_SIZE, m1 + d))
              || hist[i] in Take(MAX_POSTINGLIST_SIZE, rest)
  {
    var j := i - |m0| - |m1|;
    if j < 0 {
      assert hist[i] == (m0 + m1)[i] == (m1 + d)[i - |m0|];
      TakePrefix(m1 + d, i - |m0|);
    } else {
      assert hist[|m0 + m1|..][j] == hist[i];
      TakeMember(MAX_POSTINGLIST_SIZE, d + rest, hist[|m0 + m1|..], j);
      if j < |d| {
        assert (m1 + d)[|m1| + j] == d[j];
        TakePrefix(m1 + d, |m1| + j);
      } else {
        TakePrefix(rest, j - |d|);
      }
    }
  }

  lemma CoveredPosting(s: State, k: Key, i: nat)
    requires Ownership(s) && KeyInv(s, k) && KeyAck(s, k)
    requires |Hist(s, k)| - Acked(s, s.check, k) <= i < |Hist(s, k)| && i < MAX_POSTINGLIST_SIZE
    ensures Hist(s, k)[i] in Recovered(s, k)
  {
    hide Ownership, Recovered;
    var rest := At(PublishedDay2(s), k) + At(HisTier(s), k);
    assert Back(s, k) == At(DayTier(s), k) + rest;
    Locate(At(s.mem0, k), Mem1At(s, k), At(DayTier(s), k), rest, Hist(s, k), i);
    RecoveredDayPart(s, k);
    RecoveredHisPart(s, k);
  }

  lemma CrashIsDurable(s: State, k: Key)
    requires Ownership(s) && KeyInv(s, k) && KeyAck(s, k)
    ensures Durable(s, k)
  {
    forall i | |Hist(s, k)| - Acked(s, s.check, k) <= i < |Hist(s, k)| && i < MAX_POSTINGLIST_SIZE
      ensures Hist(s, k)[i] in Recovered(s, k)
    {
      CoveredPosting(s, k, i);
    }
  }

  /** Crash durability: whichever step of a dump or a history merge the process dies after, the
      disks hold every posting of every message up to the written check point, up to the limit. */
  lemma CheckpointedMessagesSurviveACrash(s: State, run: seq<Action>, k: Key)
    requires Init(s) && Legal(s, run) && SafeRun(s, run)
    ensures Durable(Exec(s, run), k)
  {
    InitInv(s);
    RunInv(s, run);
    InitAck(s, k);
    RunAck(s, run, k);
    CrashIsDurable(Exec(s, run), k);
  }

  // ---------- the condition is exact ----------

  /** The dump that follows a signalled capture, up to the write of its check point. */
  const DUMP: seq<Action> := [DayCapture(false), DayBegin(false), DayFinish, DaySetCur, DaySetCheck]

  lemma DumpIsLegal(s: State)
    requires Ownership(s) && Enabled(s, DayCapture(false))
    ensures Legal(s, DUMP)
    ensures var t := Exec(s, DUMP);
            t.mem0 == s.mem0 && t.upd == s.upd && t.log == s.log && t.base == s.base && t.check == |t.log|
  {
    assert |s.day| == 3 && s.dayIdx < 2;
    hide Ownership;
    var r1 := [] + [DayCapture(false)];
    Snoc(s, [], DayCapture(false));
    var s1 := Exec(s, r1);
    assert s1 == s.(dumpPos := |s.log|, dayPc := DayCaptured(false));
    var r2 := r1 + [DayBegin(false)];
    Snoc(s, r1, DayBegin(false));
    DumpTail(s, s1, r2);
  }

  lemma DumpTail(s: State, s1: State, r2: seq<Action>)
    requires |s.day| == 3 && s.dayIdx < 2 && s.mem1.Some?
    requires s1 == s.(dumpPos := |s.log|, dayPc := DayCaptured(false))
    requires r2 == DUMP[..2] && Legal(s, r2) && Exec(s, r2) == DayBegun(s1, false)
    ensures Legal(s, DUMP)
    ensures var t := Exec(s, DUMP);
            t.mem0 == s.mem0 && t.upd == s.upd && t.log == s.log && t.base == s.base && t.check == |t.log|
  {
    hide Legal, Exec;
    var r3 := r2 + [DayFinish];
    Snoc(s, r2, DayFinish);
    var r4 := r3 + [DaySetCur];
    Snoc(s, r3, DaySetCur);
    Snoc(s, r4, DaySetCheck);
    assert r4 + [DaySetCheck] == DUMP;
  }

  /** Nothing that survives a crash is as new as what MEM0 holds. */
  lemma RecoveredIsOlder(s: State, k: Key)
    requires Ownership(s)
    ensures forall p :: p in Recovered(s, k) ==> p in Mem1At(s, k) + Back(s, k)
  {
    hide Ownership, Merge, SetFinish, Visible, DayTier, Day2Tier, HisTier, RecoveredDay, RecoveredHis, Day2Window, DumpNamed, CurMoved;
    RecoveredParts(s, k);
    var older := Mem1At(s, k) + Back(s, k);
    assert forall p :: p in Mem1At(s, k) + At(DayTier(s), k) ==> p in older;
    assert forall p :: p in At(PublishedDay2(s), k) || p in At(HisTier(s), k) ==> p in older;
    forall p | p in Recovered(s, k) ensures p in older {
      assert p in At(RecoveredDay(s), k) || p in At(Day2Tier(s), k) || p in At(RecoveredHis(s), k);
    }
  }

  lemma {:induction false} RunKey(s: State, run: seq<Action>, k: Key)
    requires Ownership(s) && KeyInv(s, k) && Legal(s, run)
    ensures Ownership(Exec(s, run)) && KeyInv(Exec(s, run), k)
    decreases |run|
  {
    if run != [] {
      StepOwnership(s, run[0]);
      StepKey(s, run[0], k);
      RunKey(Apply(s, run[0]), run[1..], k);
    }
  }

  /** A posting in MEM0 that the check point covers is lost: nothing recovered is as new. */
  lemma StrandedPosting(s: State, k: Key, bound: int)
    requires Ownership(s) && KeyInv(s, k) && KeyOrder(s, k, bound) && s.check == |s.log|
    requires |At(s.mem0, k)| > |InFlight(s.upd, k)|
    ensures !Durable(s, k)
  {
    hide Ownership, Recovered, Back, Sorted, Below, LogOf;
    RecoveredIsOlder(s, k);
    var i := |InFlight(s.upd, k)|;
    assert s.log[..|s.log|] == s.log;
    var m0 := At(s.mem0, k);
    assert Hist(s, k)[i] == Front(s, k)[i] == m0[i];
    var older := Mem1At(s, k) + Back(s, k);
    assert Published(s, k) == m0 + older;
    NewerIsNotOlder(m0, older, i, bound);
  }

  lemma NewerIsNotOlder(m0: seq<Posting>, older: seq<Posting>, i: nat, bound: int)
    requires Sorted(m0 + older, bound) && i < |m0| && m0[i].id > bound
    ensures m0[i] !in older
  {
    forall j | 0 <= j < |older| ensures older[j] != m0[i] {
      assert (m0 + older)[|m0| + j].id > bound ==> (m0 + older)[i].id > (m0 + older)[|m0| + j].id;
    }
  }

  /** In every reachable state a signalled dump may let its check point outlive a crash exactly when,
      at the capture, MEM0 holds only postings of the message still being inserted. */
  lemma SignalledCaptureIsSafeIff(s: State, run: seq<Action>)
    requires Init(s) && Legal(s, run) && SafeRun(s, run) && Enabled(Exec(s, run), DayCapture(false))
    requires forall k :: Below(At(s.base, k), s.lastId)
    ensures var t := Exec(s, run);
            Legal(t, DUMP) && (SafeCapture(t) <==> forall k :: Durable(Exec(t, DUMP), k))
  {
    hide Ownership, KeyInv, KeyOrder, KeyAck, Durable, Exec, Legal, SafeRun, Enabled, Init, Below;
    var t := Exec(s, run);
    InitInv(s);
    RunInv(s, run);
    DumpIsLegal(t);
    forall k ensures |At(t.mem0, k)| <= |InFlight(t.upd, k)| <==> Durable(Exec(t, DUMP), k) {
      InitOwnership(s);
      InitAck(s, k);
      RunAck(s, run, k);
      assert Below(At(s.base, k), s.lastId);
      RunFromInit(s, run, k);
      DumpDecides(t, k, s.lastId);
    }
  }

  lemma DumpDecides(s: State, k: Key, bound: int)
    requires Ownership(s) && Enabled(s, DayCapture(false)) && KeyInv(s, k) && KeyOrder(s, k, bound) && KeyAck(s, k)
    ensures Legal(s, DUMP)
    ensures |At(s.mem0, k)| <= |InFlight(s.upd, k)| <==> Durable(Exec(s, DUMP), k)
  {
    hide *;
    DumpIsLegal(s);
    RunKey(s, DUMP, k);
    RunOrder(s, DUMP, k, bound);
    if |At(s.mem0, k)| <= |InFlight(s.upd, k)| {
      DumpAck(s, k);
      CrashIsDurable(Exec(s, DUMP), k);
    } else {
      StrandedPosting(Exec(s, DUMP), k, bound);
    }
  }

  /** One safe capture covers the whole dump: no other step of it captures a position. */
  lemma DumpAck(s: State, k: Key)
    requires Ownership(s) && Enabled(s, DayCapture(false)) && KeyAck(s, k) && Legal(s, DUMP)
    requires |At(s.mem0, k)| <= |InFlight(s.upd, k)|
    ensures KeyAck(Exec(s, DUMP), k)
  {
    hide Ownership, KeyAck, Apply, Enabled, InFlight;
    var s1, tail := Apply(s, DUMP[0]), DUMP[1..];
    StepOwnership(s, DUMP[0]);
    StepAck(s, DUMP[0], k);
    assert Exec(s, DUMP) == Exec(s1, tail);
    assert forall a :: a in tail ==> !a.DayCapture?;
    TailAck(s1, tail, k);
  }

  lemma {:induction false} TailAck(s: State, run: seq<Action>, k: Key)
    requires Ownership(s) && KeyAck(s, k) && Legal(s, run)
    requires forall a :: a in run ==> !a.DayCapture?
    ensures KeyAck(Exec(s, run), k)
    decreases |run|
  {
    if run != [] {
      StepOwnership(s, run[0]);
      StepAck(s, run[0], k);
      TailAck(Apply(s, run[0]), run[1..], k);
    }
  }
}
