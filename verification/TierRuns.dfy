/** What every run of the tier state machine keeps: who owns day/2, that the two mergers work on
    frozen sources, and that the slots together hold the newest postings of every term. */
module TierRuns {
  import opened Prelude
  import opened Tiers

  // ---------- ownership ----------

  /** Day/2 has one owner at a time, and idle disk directories are unreadable. */
  predicate Ownership(s: State) {
    && |s.day| == 3 && |s.his| == 2 && s.dayIdx < 2 && s.hisIdx < 2 && s.curDay < 2 && s.curHis < 2
    && (s.canDump ==> !s.day[2].complete && !s.hisReady)
    && (ToDay2(s) ==> !s.canDump && !s.hisReady)
    && (!s.hisPc.HisIdle? ==> s.hisReady && s.day[2].complete)
    && (s.day[2].complete ==> s.hisReady || Day2Window(s))
    && (s.day[1 - s.dayIdx].complete ==> DayTarget(s) == Some(1 - s.dayIdx))
    && (s.his[1 - s.hisIdx].complete ==> s.hisPc.HisWritten? || s.hisPc.HisCurSet?)
    && DayProgress(s) && HisProgress(s)
    && s.check <= |s.log| && s.dumpPos <= |s.log|
    && (!s.upd.UpdIdle? ==> s.upd.pending <= s.upd.doc.terms.Keys)
  }

  /** The directory holding a finished, not yet published day dump. */
  function DayTarget(s: State): Option<nat> {
    match s.dayPc
    case DayIdle => None
    case DayCaptured(_) => None
    case DayMerging(_, _, _, _) => None
    case DayWritten(_, dst) => Some(dst)
    case DayCurSet(_, dst) => Some(dst)
    case DayChecked(_, dst) => Some(dst)
  }

  predicate CurSettled(s: State)
    requires |s.day| == 3 && s.dayIdx < 2
  {
    s.curDay == s.dayIdx || !s.day[s.dayIdx].complete
  }

  /** A running day merge reads exactly MEM1 and DAY, and what it wrote is exactly their merge. */
  predicate DayProgress(s: State)
    requires |s.day| == 3 && s.dayIdx < 2
  {
    match s.dayPc
    case DayIdle => CurSettled(s)
    case DayCaptured(_) => s.mem1.Some? && CurSettled(s)
    case DayMerging(_, dst, src1, src2) =>
      && dst < 3 && dst != s.dayIdx && !s.day[dst].complete && CurSettled(s)
      && s.mem1 == Some(src1) && DayTier(s) == src2
    case DayWritten(_, dst) => DayOutput(s, dst) && CurSettled(s)
    case DayCurSet(_, dst) => DayOutput(s, dst) && s.curDay == (if dst == 0 then 0 else 1)
    case DayChecked(_, dst) => DayOutput(s, dst) && s.curDay == (if dst == 0 then 0 else 1)
  }

  predicate DayOutput(s: State, dst: nat)
    requires |s.day| == 3 && s.dayIdx < 2
  {
    dst < 3 && dst != s.dayIdx && s.mem1.Some? && s.day[dst] == SetFinish(Merge(s.mem1.value, DayTier(s)))
  }

  predicate HisProgress(s: State)
    requires |s.his| == 2 && s.hisIdx < 2
  {
    match s.hisPc
    case HisIdle => s.curHis == s.hisIdx
    case HisMerging(dst, src1, src2) =>
      dst == 1 - s.hisIdx && s.curHis == s.hisIdx && Day2Tier(s) == src1 && HisTier(s) == src2
    case HisWritten(dst) => s.curHis == s.hisIdx && HisOutput(s, dst)
    case HisCurSet(dst) => s.curHis == dst && HisOutput(s, dst)
  }

  predicate HisOutput(s: State, dst: nat)
    requires |s.his| == 2 && s.hisIdx < 2
  {
    dst == 1 - s.hisIdx && s.his[dst] == SetFinish(Merge(Day2Tier(s), HisTier(s)))
  }

  lemma InitOwnership(s: State)
    requires Init(s)
    ensures Ownership(s)
  {
  }

  predicate IsDayAction(a: Action) {
    a.DayCapture? || a.DayBegin? || a.DayFinish? || a.DaySetCur? || a.DaySetCheck? || a.DayPublish?
  }

  predicate IsHisAction(a: Action) {
    a.HisBegin? || a.HisFinish? || a.HisSetCur? || a.HisPublish?
  }

  /** Steps that leave the disks, the files and both mergers alone keep ownership. */
  lemma OwnershipFrame(s: State, t: State)
    requires Ownership(s)
    requires t == s.(mem0 := t.mem0, mem1 := t.mem1, upd := t.upd, lastId := t.lastId, log := t.log)
    requires t.mem1 == s.mem1 || s.dayPc.DayIdle?
    requires |s.log| <= |t.log|
    requires !t.upd.UpdIdle? ==> t.upd.pending <= t.upd.doc.terms.Keys
    ensures Ownership(t)
  {
    hide Merge, SetFinish, Visible;
    assert DayTier(t) == DayTier(s) && Day2Tier(t) == Day2Tier(s) && HisTier(t) == HisTier(s);
  }

  lemma UpdaterOwnership(s: State, a: Action)
    requires Ownership(s) && Enabled(s, a) && !IsDayAction(a) && !IsHisAction(a)
    ensures Ownership(Apply(s, a))
  {
    hide Merge, SetFinish, Visible, HisProgress;
    assert s.mem1.None? ==> s.dayPc.DayIdle?;
    OwnershipFrame(s, Apply(s, a));
  }

  lemma DayCaptureOwnership(s: State, timed: bool)
    requires Ownership(s) && Enabled(s, DayCapture(timed))
    ensures Ownership(Apply(s, DayCapture(timed)))
  {
    hide Merge, SetFinish, Visible;
    var t := Apply(s, DayCapture(timed));
    assert t.day == s.day && t.his == s.his;
  }

  lemma DayBeginOwnership(s: State, toDay2: bool)
    requires Ownership(s) && Enabled(s, DayBegin(toDay2))
    ensures Ownership(DayBegun(s, toDay2))
  {
    hide Merge, SetFinish, Visible;
    var t := DayBegun(s, toDay2);
    assert DayTier(t) == DayTier(s);
    assert toDay2 || Day2Tier(t) == Day2Tier(s);
  }

  lemma DayFinishOwnership(s: State)
    requires Ownership(s) && Enabled(s, DayFinish)
    ensures Ownership(DayFinished(s))
  {
    hide Merge, SetFinish, Visible;
    var t := DayFinished(s);
    assert DayTier(t) == DayTier(s);
    assert s.dayPc.dst == 2 || t.day[2] == s.day[2];
  }

  lemma DayFilesOwnership(s: State, a: Action)
    requires Ownership(s) && Enabled(s, a) && (a.DaySetCur? || a.DaySetCheck?)
    ensures Ownership(Apply(s, a))
  {
    hide Merge, SetFinish, Visible;
    var t := Apply(s, a);
    assert t.day == s.day && t.his == s.his && DayTier(t) == DayTier(s);
  }

  lemma DayPublishOwnership(s: State)
    requires Ownership(s) && Enabled(s, DayPublish)
    ensures Ownership(DayPublished(s))
  {
    hide Merge, SetFinish;
  }

  lemma HisBeginOwnership(s: State)
    requires Ownership(s) && Enabled(s, HisBegin)
    ensures Ownership(HisBegun(s))
  {
    hide Merge, SetFinish, Visible;
    var t := HisBegun(s);
    assert t.day == s.day && DayTier(t) == DayTier(s) && HisTier(t) == HisTier(s);
  }

  lemma HisFinishOwnership(s: State)
    requires Ownership(s) && Enabled(s, HisFinish)
    ensures Ownership(HisFinished(s))
  {
    hide Merge, SetFinish, Visible;
    var t := HisFinished(s);
    assert t.day == s.day && DayTier(t) == DayTier(s) && HisTier(t) == HisTier(s);
  }

  lemma HisSetCurOwnership(s: State)
    requires Ownership(s) && Enabled(s, HisSetCur)
    ensures Ownership(Apply(s, HisSetCur))
  {
    hide Merge, SetFinish, Visible;
    var t := Apply(s, HisSetCur);
    assert t.day == s.day && t.his == s.his && DayTier(t) == DayTier(s);
  }

  lemma HisPublishOwnership(s: State)
    requires Ownership(s) && Enabled(s, HisPublish)
    ensures Ownership(HisPublished(s))
  {
    hide Merge, SetFinish, Visible;
    var t := HisPublished(s);
    assert !ToDay2(s) && DayTier(t) == DayTier(s);
  }

  lemma StepOwnership(s: State, a: Action)
    requires Ownership(s) && Enabled(s, a)
    ensures Ownership(Apply(s, a))
  {
    hide Ownership, DayBegun, DayFinished, DayPublished, HisBegun, HisFinished, HisPublished, Inserted, Swapped;
    match a
    case DayCapture(timed) => DayCaptureOwnership(s, timed);
    case DayBegin(toDay2) => DayBeginOwnership(s, toDay2);
    case DayFinish => DayFinishOwnership(s);
    case DaySetCur => DayFilesOwnership(s, a);
    case DaySetCheck => DayFilesOwnership(s, a);
    case DayPublish => DayPublishOwnership(s);
    case HisBegin => HisBeginOwnership(s);
    case HisFinish => HisFinishOwnership(s);
    case HisSetCur => HisSetCurOwnership(s);
    case HisPublish => HisPublishOwnership(s);
    case _ => UpdaterOwnership(s, a);
  }

  // ---------- the newest postings survive ----------

  function Front(s: State, k: Key): seq<Posting> {
    At(s.mem0, k) + Mem1At(s, k)
  }

  /** Day/2 as a reader would see it if unpublished dumps were hidden. */
  function PublishedDay2(s: State): Tier {
    if Day2Window(s) then map[] else Day2Tier(s)
  }

  function Back(s: State, k: Key): seq<Posting> {
    At(DayTier(s), k) + At(PublishedDay2(s), k) + At(HisTier(s), k)
  }

  /** The postings of the history that have left the two memory tiers. */
  function Flushed(s: State, k: Key): seq<Posting>
    requires |Front(s, k)| <= |Hist(s, k)|
  {
    Hist(s, k)[|Front(s, k)|..]
  }

  predicate KeyInv(s: State, k: Key) {
    Tracks(Front(s, k), Back(s, k), Hist(s, k))
  }

  /** The memory tiers are the newest part of the history, and the disk tiers agree with the rest
      up to the length limit. */
  predicate Tracks(front: seq<Posting>, back: seq<Posting>, hist: seq<Posting>) {
    && |front| <= |hist|
    && front == hist[..|front|]
    && Take(MAX_POSTINGLIST_SIZE, back) == Take(MAX_POSTINGLIST_SIZE, hist[|front|..])
  }

  ghost predicate Inv(s: State) {
    Ownership(s) && forall k :: KeyInv(s, k)
  }

  lemma InitInv(s: State)
    requires Init(s)
    ensures Inv(s)
  {
    InitOwnership(s);
    forall k ensures KeyInv(s, k) {
      assert Hist(s, k) == At(s.base, k) == Back(s, k);
    }
  }

  /** A merged list holds nothing else. */
  lemma MergeFrom(newer: Tier, older: Tier, k: Key)
    ensures forall p :: p in At(Merge(newer, older), k) ==> p in At(newer, k) || p in At(older, k)
    ensures Visible(SetFinish(Merge(newer, older))) == Merge(newer, older)
  {
    MergeAt(newer, older, k);
  }

  lemma MergeAt(newer: Tier, older: Tier, k: Key)
    ensures At(Merge(newer, older), k) == Take(MAX_POSTINGLIST_SIZE, At(newer, k) + At(older, k))
    ensures Visible(SetFinish(Merge(newer, older))) == Merge(newer, older)
  {
  }

  /** Moving MEM1 behind the front, merged and truncated with whatever follows it. */
  lemma FlushMath(m0: seq<Posting>, m1: seq<Posting>, d: seq<Posting>, rest: seq<Posting>, hist: seq<Posting>)
    requires Tracks(m0 + m1, d + rest, hist)
    ensures Tracks(m0, Take(MAX_POSTINGLIST_SIZE, m1 + d) + rest, hist)
  {
    var n := MAX_POSTINGLIST_SIZE;
    assert m0 == hist[..|m0|] by { assert (m0 + m1)[..|m0|] == m0; }
    assert hist[|m0|..] == m1 + hist[|m0 + m1|..];
    TakeCongruence(n, m1, d + rest, hist[|m0 + m1|..]);
    assert m1 + (d + rest) == [] + (m1 + d) + rest;
    assert [] + Take(n, m1 + d) + rest == Take(n, m1 + d) + rest;
    TakeAbsorbs(n, [], m1 + d, rest);
  }

  lemma PublishedDayTiers(s: State)
    requires Ownership(s) && Enabled(s, DayPublish)
    ensures var t := DayPublished(s); var merged := Merge(s.mem1.value, DayTier(s));
            && t.mem0 == s.mem0 && t.mem1 == None && HisTier(t) == HisTier(s)
            && DayTier(t) == (if s.dayPc.dst == 2 then map[] else merged)
            && PublishedDay2(t) == (if s.dayPc.dst == 2 then merged else PublishedDay2(s))
            && (s.dayPc.dst == 2 ==> PublishedDay2(s) == map[])
            && t.log == s.log && t.base == s.base
            && forall k :: InFlight(t.upd, k) == InFlight(s.upd, k)
  {
    hide Merge, SetFinish, HisProgress;
    MergeAt(s.mem1.value, DayTier(s), 0);
  }

  lemma FlushSeqs(m0: seq<Posting>, m1: seq<Posting>, d: seq<Posting>, d2: seq<Posting>, h: seq<Posting>,
                  d': seq<Posting>, d2': seq<Posting>, hist: seq<Posting>)
    requires Tracks(m0 + m1, d + d2 + h, hist)
    requires d' + d2' == Take(MAX_POSTINGLIST_SIZE, m1 + d) + d2
    ensures Tracks(m0 + [], d' + d2' + h, hist)
  {
    assert d + d2 + h == d + (d2 + h);
    FlushMath(m0, m1, d, d2 + h, hist);
    assert m0 + [] == m0;
    assert d' + d2' + h == Take(MAX_POSTINGLIST_SIZE, m1 + d) + (d2 + h);
  }

  /** Publishing a day merge replaces MEM1 and DAY by their truncated merge. */
  lemma PublishDayKey(s: State, k: Key)
    requires Ownership(s) && Enabled(s, DayPublish) && KeyInv(s, k)
    ensures KeyInv(DayPublished(s), k)
  {
    var t := DayPublished(s);
    var merged := Take(MAX_POSTINGLIST_SIZE, Mem1At(s, k) + At(DayTier(s), k));
    PublishedDayTiers(s);
    MergeAt(s.mem1.value, DayTier(s), k);
    assert s.dayPc.dst == 2 ==> [] + merged == merged + [];
    FlushSeqs(At(s.mem0, k), Mem1At(s, k), At(DayTier(s), k), At(PublishedDay2(s), k), At(HisTier(s), k),
              At(DayTier(t), k), At(PublishedDay2(t), k), Hist(s, k));
  }

  lemma PublishedHisTiers(s: State)
    requires Ownership(s) && Enabled(s, HisPublish)
    ensures var t := HisPublished(s);
            && PublishedDay2(s) == Day2Tier(s)
            && DayTier(t) == DayTier(s) && PublishedDay2(t) == map[]
            && HisTier(t) == Merge(Day2Tier(s), HisTier(s))
  {
    hide Merge, SetFinish, DayProgress;
    MergeAt(Day2Tier(s), HisTier(s), 0);
  }

  lemma HisFlushSeqs(front: seq<Posting>, d: seq<Posting>, d2: seq<Posting>, h: seq<Posting>, hist: seq<Posting>)
    requires Tracks(front, d + d2 + h, hist)
    ensures Tracks(front, d + [] + Take(MAX_POSTINGLIST_SIZE, d2 + h), hist)
  {
    var n := MAX_POSTINGLIST_SIZE;
    TakeAbsorbs(n, d, d2 + h, []);
    assert d + (d2 + h) + [] == d + d2 + h;
    assert d + Take(n, d2 + h) + [] == d + [] + Take(n, d2 + h);
  }

  lemma PublishHisKey(s: State, k: Key)
    requires Ownership(s) && Enabled(s, HisPublish) && KeyInv(s, k)
    ensures KeyInv(HisPublished(s), k)
  {
    PublishedHisTiers(s);
    MergeAt(Day2Tier(s), HisTier(s), k);
    HisFlushSeqs(Front(s, k), At(DayTier(s), k), At(Day2Tier(s), k), At(HisTier(s), k), Hist(s, k));
  }

  lemma InsertMath(cell: seq<Posting>, m0: seq<Posting>, m1: seq<Posting>, back: seq<Posting>, hist: seq<Posting>)
    requires Tracks(m0 + m1, back, hist)
    ensures Tracks((cell + m0) + m1, back, cell + hist)
  {
    assert (cell + m0) + m1 == cell + (m0 + m1);
    assert (cell + hist)[|cell + (m0 + m1)|..] == hist[|m0 + m1|..];
  }

  lemma InsertKey(s: State, doc: Doc, pending: set<Key>, ins: Key, k: Key)
    requires s.upd == UpdRunning(doc, pending) && ins in pending && KeyInv(s, k)
    ensures KeyInv(Inserted(s, doc, pending, ins), k)
  {
    var t := Inserted(s, doc, pending, ins);
    assert Back(t, k) == Back(s, k) && Past(t, k) == Past(s, k);
    if k == ins {
      var cell := PostingsOf(doc, k);
      assert [] + Past(s, k) == Past(s, k);
      InsertMath(cell, At(s.mem0, k), Mem1At(s, k), Back(s, k), Hist(s, k));
    }
  }

  /** Accepting the message moves its postings from the in-flight part into the log. */
  lemma EndDocHist(s: State, doc: Doc, k: Key)
    requires s.upd == UpdRunning(doc, {})
    ensures Hist(s.(upd := UpdIdle, log := s.log + [doc]), k) == Hist(s, k)
  {
    assert (s.log + [doc])[..|s.log|] == s.log;
    assert InFlight(s.upd, k) == PostingsOf(doc, k);
    assert LogOf(s.log + [doc], k) == PostingsOf(doc, k) + LogOf(s.log, k);
    assert [] + ((PostingsOf(doc, k) + LogOf(s.log, k)) + At(s.base, k)) == PostingsOf(doc, k) + Past(s, k);
  }

  lemma KeyFrame(s: State, t: State, k: Key)
    requires KeyInv(s, k)
    requires Front(t, k) == Front(s, k) && Back(t, k) == Back(s, k) && Hist(t, k) == Hist(s, k)
    ensures KeyInv(t, k)
  {
  }

  /** A running day merge leaves the published tiers alone. */
  lemma DayStepTiers(s: State, a: Action)
    requires Ownership(s) && Enabled(s, a) && IsDayAction(a) && !a.DayPublish?
    ensures var t := Apply(s, a);
            DayTier(t) == DayTier(s) && HisTier(t) == HisTier(s) && PublishedDay2(t) == PublishedDay2(s)
  {
    hide Ownership, Apply, Enabled, Visible, Day2Window;
    DayStepSlots(s, a);
    DayStepDay2(s, a);
  }

  lemma DayStepSlots(s: State, a: Action)
    requires Ownership(s) && Enabled(s, a) && IsDayAction(a) && !a.DayPublish?
    ensures var t := Apply(s, a);
            && t.dayIdx == s.dayIdx < |t.day| == |s.day| && t.day[t.dayIdx] == s.day[s.dayIdx]
            && t.his == s.his && t.hisIdx == s.hisIdx
  {
    hide Merge, SetFinish, Visible, HisProgress;
  }

  lemma DayStepDay2(s: State, a: Action)
    requires Ownership(s) && Enabled(s, a) && IsDayAction(a) && !a.DayPublish?
    ensures PublishedDay2(Apply(s, a)) == PublishedDay2(s)
  {
    hide Merge, SetFinish, HisProgress, DayProgress;
  }

  lemma DayStepKey(s: State, a: Action, k: Key)
    requires Ownership(s) && Enabled(s, a) && IsDayAction(a) && !a.DayPublish? && KeyInv(s, k)
    ensures KeyInv(Apply(s, a), k)
  {
    hide Ownership, Merge, SetFinish, Visible, LogOf, Tracks, DayTier, HisTier, PublishedDay2;
    DayStepTiers(s, a);
    assert [] + At(s.mem0, k) == At(s.mem0, k) + [];
    KeyFrame(s, Apply(s, a), k);
  }

  lemma HisStepTiers(s: State, a: Action)
    requires Ownership(s) && Enabled(s, a) && IsHisAction(a) && !a.HisPublish?
    ensures var t := Apply(s, a);
            DayTier(t) == DayTier(s) && HisTier(t) == HisTier(s) && PublishedDay2(t) == PublishedDay2(s)
  {
    hide Merge, SetFinish, Visible;
    var t := Apply(s, a);
    HisStepSlots(s, a);
    assert t.day == s.day && t.dayIdx == s.dayIdx && t.dayPc == s.dayPc;
  }

  lemma HisStepSlots(s: State, a: Action)
    requires Ownership(s) && Enabled(s, a) && IsHisAction(a) && !a.HisPublish?
    ensures var t := Apply(s, a);
            t.hisIdx == s.hisIdx < |t.his| == |s.his| && t.his[t.hisIdx] == s.his[s.hisIdx]
            && t.day == s.day && t.dayIdx == s.dayIdx && t.dayPc == s.dayPc
  {
    hide Merge, SetFinish, Visible, DayProgress;
  }

  lemma HisStepKey(s: State, a: Action, k: Key)
    requires Ownership(s) && Enabled(s, a) && IsHisAction(a) && !a.HisPublish? && KeyInv(s, k)
    ensures KeyInv(Apply(s, a), k)
  {
    hide Ownership, Merge, SetFinish, Visible, LogOf, Tracks, DayTier, HisTier, PublishedDay2;
    HisStepTiers(s, a);
    KeyFrame(s, Apply(s, a), k);
  }

  /** Taking up a message, waiting and waking move no posting. */
  lemma WaitStepKey(s: State, a: Action, k: Key)
    requires Enabled(s, a) && (a.BeginDoc? || a.CheckMem1? || a.WaitForMem1? || a.Wake?) && KeyInv(s, k)
    ensures KeyInv(Apply(s, a), k)
  {
    hide Merge, SetFinish, Visible, LogOf, Tracks, At, Inserted, Swapped, DayBegun, DayFinished, DayPublished, HisBegun, HisFinished, HisPublished;
    var t := Apply(s, a);
    assert Past(t, k) == Past(s, k) && InFlight(t.upd, k) == InFlight(s.upd, k);
    KeyFrame(s, t, k);
  }

  lemma SwapStepKey(s: State, k: Key)
    requires Enabled(s, SwapMem) && KeyInv(s, k)
    ensures KeyInv(Swapped(s), k)
  {
    hide Merge, SetFinish, Visible, LogOf, Tracks;
    assert [] + At(s.mem0, k) == At(s.mem0, k) + [];
    KeyFrame(s, Swapped(s), k);
  }

  lemma EndDocKey(s: State, k: Key)
    requires Ownership(s) && Enabled(s, EndDoc) && KeyInv(s, k)
    ensures KeyInv(Apply(s, EndDoc), k)
  {
    hide Ownership, Merge, SetFinish, Visible, LogOf, Tracks, Hist;
    EndDocHist(s, s.upd.doc, k);
    KeyFrame(s, Apply(s, EndDoc), k);
  }

  lemma UpdaterStepKey(s: State, a: Action, k: Key)
    requires Ownership(s) && Enabled(s, a) && !IsDayAction(a) && !IsHisAction(a) && KeyInv(s, k)
    ensures KeyInv(Apply(s, a), k)
  {
    hide Ownership, KeyInv, Inserted, Swapped;
    match a
    case InsertTerm(ins) => InsertKey(s, s.upd.doc, s.upd.pending, ins, k);
    case EndDoc => EndDocKey(s, k);
    case SwapMem => SwapStepKey(s, k);
    case _ => WaitStepKey(s, a, k);
  }

  lemma StepKey(s: State, a: Action, k: Key)
    requires Ownership(s) && Enabled(s, a) && KeyInv(s, k)
    ensures KeyInv(Apply(s, a), k)
  {
    hide Ownership, KeyInv, DayPublished, HisPublished;
    if a.DayPublish? {
      PublishDayKey(s, k);
    } else if a.HisPublish? {
      PublishHisKey(s, k);
    } else if IsDayAction(a) {
      DayStepKey(s, a, k);
    } else if IsHisAction(a) {
      HisStepKey(s, a, k);
    } else {
      UpdaterStepKey(s, a, k);
    }
  }

  lemma {:induction false} RunInv(s: State, run: seq<Action>)
    requires Inv(s) && Legal(s, run)
    ensures Inv(Exec(s, run))
    decreases |run|
  {
    if run != [] {
      var t := Apply(s, run[0]);
      StepOwnership(s, run[0]);
      forall k ensures KeyInv(t, k) { StepKey(s, run[0], k); }
      RunInv(t, run[1..]);
    }
  }

  // ---------- main results ----------

  /** Over every interleaving day/2 has one owner, and no two mergers ever use it together. */
  lemma Day2HasOneOwner(s: State, run: seq<Action>)
    requires Init(s) && Legal(s, run)
    ensures var t := Exec(s, run);
            && |t.day| == 3
            && (t.canDump ==> !t.day[2].complete)
            && !(t.canDump && t.hisReady)
            && !(ToDay2(t) && !t.hisPc.HisIdle?)
            && (ToDay2(t) && t.day[2].complete ==> Day2Window(t))
  {
    InitInv(s);
    RunInv(s, run);
  }

  /** Both mergers see frozen sources: what a merge publishes is the merge of the slots it replaces. */
  lemma MergesPublishWhatTheyReplace(s: State, run: seq<Action>)
    requires Init(s) && Legal(s, run)
    ensures var t := Exec(s, run);
            && (t.dayPc.DayChecked? ==>
                  t.dayPc.dst < |t.day| && t.mem1.Some?
                  && t.day[t.dayPc.dst] == SetFinish(Merge(t.mem1.value, DayTier(t))))
            && (t.hisPc.HisCurSet? ==>
                  t.hisPc.dst < |t.his| && t.his[t.hisPc.dst] == SetFinish(Merge(Day2Tier(t), HisTier(t))))
  {
    InitInv(s);
    RunInv(s, run);
  }

  lemma FrontThenBack(s: State, k: Key)
    requires KeyInv(s, k)
    ensures Take(MAX_POSTINGLIST_SIZE, Front(s, k) + Back(s, k)) == Take(MAX_POSTINGLIST_SIZE, Hist(s, k))
  {
    assert Hist(s, k) == Front(s, k) + Flushed(s, k);
    TakeCongruence(MAX_POSTINGLIST_SIZE, Front(s, k), Back(s, k), Flushed(s, k));
  }

  lemma TakeMember(n: nat, a: seq<Posting>, b: seq<Posting>, i: nat)
    requires Take(n, a) == Take(n, b) && i < n && i < |b|
    ensures i < |a| && a[i] == b[i]
  {
    assert Take(n, b)[i] == b[i];
    assert Take(n, a)[i] == a[i];
  }

  lemma SplitView(s: State, k: Key)
    ensures View(s, k) == Front(s, k) + At(DayTier(s), k) + At(Day2Tier(s), k) + At(HisTier(s), k)
    ensures !Day2Window(s) ==> View(s, k) == Front(s, k) + Back(s, k)
    ensures forall p :: p in Front(s, k) + Back(s, k) ==> p in View(s, k)
  {
    var d, d2, h := At(DayTier(s), k), At(Day2Tier(s), k), At(HisTier(s), k);
    if !Day2Window(s) {
      assert Front(s, k) + d + d2 + h == Front(s, k) + (d + d2 + h);
    }
  }

  /** Newest-MAX preservation. Each merge truncates on its own, yet after every run the five slots
      read newest to oldest give the newest MAX postings ever inserted; and even while a day/2 dump
      is readable but unpublished no posting of those is missing from a reader's view. */
  lemma NewestPostingsSurvive(s: State, run: seq<Action>, k: Key)
    requires Init(s) && Legal(s, run)
    ensures var t := Exec(s, run);
            && (!Day2Window(t) ==>
                  Take(MAX_POSTINGLIST_SIZE, View(t, k)) == Take(MAX_POSTINGLIST_SIZE, Hist(t, k)))
            && forall i :: 0 <= i < |Hist(t, k)| && i < MAX_POSTINGLIST_SIZE ==> Hist(t, k)[i] in View(t, k)
  {
    InitInv(s);
    RunInv(s, run);
    var t := Exec(s, run);
    FrontThenBack(t, k);
    SplitView(t, k);
    forall i | 0 <= i < |Hist(t, k)| && i < MAX_POSTINGLIST_SIZE
      ensures Hist(t, k)[i] in View(t, k)
    {
      TakeMember(MAX_POSTINGLIST_SIZE, Front(t, k) + Back(t, k), Hist(t, k), i);
    }
  }
}
