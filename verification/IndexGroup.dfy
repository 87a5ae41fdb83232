/** `index_group` in its own form: the slots, flags and check-point fields are overwritten in place,
    one method per critical section. Each method performs the atomic steps of the state machine in
    `Tiers` in the order of the source; the ghost field `model` follows the machine, and `Valid`
    ties every real field to it. */
module IndexGroup {
  import opened Prelude
  import opened Tiers
  import opened TierRuns
  import TierOrder
  import SlotReader

  /** Extends the record of a run by the step just performed. */
  lemma AddStep(s0: State, run: seq<Action>, s: State, a: Action) returns (run': seq<Action>)
    requires Legal(s0, run) && Exec(s0, run) == s && Enabled(s, a)
    ensures run' == run + [a] && Legal(s0, run') && Exec(s0, run') == Apply(s, a)
  {
    Extend(s0, run, s, a);
    run' := run + [a];
  }

  lemma NoRun(s: State)
    ensures Legal(s, []) && Exec(s, []) == s
  {
  }

  // ---------- what each step changes ----------

  lemma SwapStep(s: State)
    requires Ownership(s) && Enabled(s, SwapMem)
    ensures Ownership(Apply(s, SwapMem))
    ensures Apply(s, SwapMem) == s.(mem1 := Some(s.mem0), mem0 := map[])
  {
    hide Ownership, Merge, SetFinish, Visible;
    StepOwnership(s, SwapMem);
  }

  lemma BeginDocStep(s: State, doc: Doc)
    requires Ownership(s) && s.upd.UpdIdle? && doc.id > s.lastId && doc.terms != map[]
    ensures Enabled(s, BeginDoc(doc)) && Ownership(Apply(s, BeginDoc(doc)))
    ensures Apply(s, BeginDoc(doc)) == s.(upd := UpdRunning(doc, doc.terms.Keys), lastId := doc.id)
  {
    hide Ownership, Merge, SetFinish, Visible;
    StepOwnership(s, BeginDoc(doc));
  }

  lemma WakeStep(s: State, spurious: bool)
    requires Ownership(s) && s.upd.UpdWaiting? && (spurious || s.upd.signalled)
    ensures Enabled(s, Wake(spurious)) && Ownership(Apply(s, Wake(spurious)))
    ensures Apply(s, Wake(spurious)) == s.(upd := UpdRunning(s.upd.doc, s.upd.pending))
  {
    hide Ownership, Merge, SetFinish, Visible;
    StepOwnership(s, Wake(spurious));
  }

  lemma InsertStep(s: State, doc: Doc, pending: set<Key>, k: Key)
    requires Ownership(s) && s.upd == UpdRunning(doc, pending) && k in pending
    ensures Enabled(s, InsertTerm(k)) && Ownership(Apply(s, InsertTerm(k))) && k in doc.terms
    ensures Apply(s, InsertTerm(k)) == s.(mem0 := s.mem0[k := [Posting(doc.id, doc.terms[k])] + At(s.mem0, k)],
                                          upd := UpdRunning(doc, pending - {k}))
  {
    hide DayProgress, HisProgress, Merge, SetFinish, Visible;
    StepOwnership(s, InsertTerm(k));
  }

  lemma EndStep(s: State, doc: Doc)
    requires Ownership(s) && s.upd == UpdRunning(doc, {})
    ensures Enabled(s, EndDoc) && Ownership(Apply(s, EndDoc))
    ensures Apply(s, EndDoc) == s.(upd := UpdIdle, log := s.log + [doc])
  {
    hide Ownership, Merge, SetFinish, Visible;
    StepOwnership(s, EndDoc);
  }

  lemma CaptureStep(s: State, timed: bool)
    requires Ownership(s) && Enabled(s, DayCapture(timed))
    ensures Ownership(Apply(s, DayCapture(timed)))
    ensures Apply(s, DayCapture(timed))
         == s.(mem1 := if timed then Some(s.mem0) else s.mem1, mem0 := if timed then map[] else s.mem0,
               dumpPos := |s.log|, dayPc := DayCaptured(timed))
  {
    StepOwnership(s, DayCapture(timed));
    hide Ownership, Merge, SetFinish, Visible;
  }

  lemma BeginStep(s: State, toDay2: bool)
    requires Ownership(s) && s.dayPc.DayCaptured? && (toDay2 ==> s.canDump)
    ensures Enabled(s, DayBegin(toDay2)) && Ownership(Apply(s, DayBegin(toDay2)))
    ensures var dst := if toDay2 then 2 else 1 - s.dayIdx;
            && dst < |s.day| && s.mem1.Some?
            && Apply(s, DayBegin(toDay2))
               == s.(canDump := s.canDump && !toDay2, day := s.day[dst := CLEARED],
                     dayPc := DayMerging(s.dayPc.timed, dst, s.mem1.value, DayTier(s)))
  {
    hide Merge, SetFinish, Visible, HisProgress;
    StepOwnership(s, DayBegin(toDay2));
  }

  lemma FinishStep(s: State)
    requires Ownership(s) && s.dayPc.DayMerging?
    ensures Enabled(s, DayFinish) && Ownership(Apply(s, DayFinish))
    ensures s.dayPc.dst < |s.day| && s.mem1.Some? && s.dayIdx < |s.day|
    ensures Apply(s, DayFinish)
         == s.(day := s.day[s.dayPc.dst := SetFinish(Merge(s.mem1.value, Visible(s.day[s.dayIdx])))],
               dayPc := DayWritten(s.dayPc.timed, s.dayPc.dst))
  {
    hide Merge, SetFinish, Visible, HisProgress;
    StepOwnership(s, DayFinish);
  }

  lemma DayFileSteps(s: State)
    requires Ownership(s)
    ensures s.dayPc.DayWritten? ==>
              Enabled(s, DaySetCur) && Ownership(Apply(s, DaySetCur))
              && Apply(s, DaySetCur) == s.(curDay := if s.dayPc.dst == 0 then 0 else 1,
                                           dayPc := DayCurSet(s.dayPc.timed, s.dayPc.dst))
    ensures s.dayPc.DayCurSet? ==>
              Enabled(s, DaySetCheck) && Ownership(Apply(s, DaySetCheck))
              && Apply(s, DaySetCheck) == s.(check := s.dumpPos, dayPc := DayChecked(s.dayPc.timed, s.dayPc.dst))
  {
    hide Ownership, Merge, SetFinish, Visible;
    if s.dayPc.DayWritten? {
      StepOwnership(s, DaySetCur);
    } else if s.dayPc.DayCurSet? {
      StepOwnership(s, DaySetCheck);
    }
  }

  lemma PublishStep(s: State)
    requires Ownership(s) && s.dayPc.DayChecked?
    ensures Enabled(s, DayPublish) && Ownership(Apply(s, DayPublish)) && s.dayIdx < |s.day|
    ensures Apply(s, DayPublish)
         == s.(mem1 := None, day := s.day[s.dayIdx := CLEARED], hisReady := s.hisReady || s.dayPc.dst == 2,
               dayIdx := if s.dayPc.dst == 2 then s.dayIdx else s.dayPc.dst,
               upd := Apply(s, DayPublish).upd, dayPc := DayIdle)
  {
    hide Merge, SetFinish, Visible, HisProgress, DayProgress;
    StepOwnership(s, DayPublish);
  }

  lemma HisBeginStep(s: State)
    requires Ownership(s) && Enabled(s, HisBegin)
    ensures Ownership(Apply(s, HisBegin)) && s.hisIdx < 2 && |s.his| == 2
    ensures Apply(s, HisBegin)
         == s.(his := s.his[1 - s.hisIdx := CLEARED], hisPc := HisMerging(1 - s.hisIdx, Day2Tier(s), HisTier(s)))
  {
    StepOwnership(s, HisBegin);
    hide Ownership, Merge, SetFinish, Visible;
  }

  lemma HisFinishStep(s: State)
    requires Ownership(s) && s.hisPc.HisMerging?
    ensures Enabled(s, HisFinish) && Ownership(Apply(s, HisFinish)) && |s.day| == 3 && s.hisIdx < |s.his| && s.hisPc.dst < |s.his|
    ensures Apply(s, HisFinish)
         == s.(his := s.his[s.hisPc.dst := SetFinish(Merge(Visible(s.day[2]), Visible(s.his[s.hisIdx])))],
               hisPc := HisWritten(s.hisPc.dst))
  {
    hide Merge, SetFinish, Visible, DayProgress;
    StepOwnership(s, HisFinish);
  }

  lemma HisSetCurStep(s: State)
    requires Ownership(s) && s.hisPc.HisWritten?
    ensures Enabled(s, HisSetCur) && Ownership(Apply(s, HisSetCur))
    ensures Apply(s, HisSetCur) == s.(curHis := s.hisPc.dst, hisPc := HisCurSet(s.hisPc.dst))
  {
    hide Ownership, Merge, SetFinish, Visible;
    StepOwnership(s, HisSetCur);
  }

  lemma HisPublishStep(s: State)
    requires Ownership(s) && s.hisPc.HisCurSet?
    ensures Enabled(s, HisPublish) && Ownership(Apply(s, HisPublish)) && 2 < |s.day| && s.hisIdx < |s.his|
    ensures Apply(s, HisPublish)
         == s.(day := s.day[2 := CLEARED], his := s.his[s.hisIdx := CLEARED], hisIdx := s.hisPc.dst,
               hisReady := false, canDump := true, hisPc := HisIdle)
  {
    hide Merge, SetFinish, Visible, HisProgress, DayProgress;
    StepOwnership(s, HisPublish);
  }

  // ---------- where the postings of a message go ----------

  /** A memory tier with the postings of some terms of a message in front of its lists. */
  function WithPostings(t: Tier, doc: Doc, ks: set<Key>): Tier
    requires ks <= doc.terms.Keys
  {
    map k | k in t.Keys + ks :: (if k in ks then [Posting(doc.id, doc.terms[k])] else []) + At(t, k)
  }

  lemma WithPostingsAt(t: Tier, doc: Doc, ks: set<Key>, k: Key)
    requires ks <= doc.terms.Keys
    ensures At(WithPostings(t, doc, ks), k) == (if k in ks then [Posting(doc.id, doc.terms[k])] else []) + At(t, k)
  {
  }

  lemma WithNothing(t: Tier, doc: Doc)
    ensures WithPostings(t, doc, {}) == t
  {
    var u := WithPostings(t, doc, {});
    assert u.Keys == t.Keys;
    forall k | k in t ensures u[k] == t[k] {
      assert [] + t[k] == t[k];
    }
  }

  lemma WithOneMore(t: Tier, doc: Doc, ks: set<Key>, k: Key)
    requires ks <= doc.terms.Keys && k in doc.terms && k !in ks
    ensures var u := WithPostings(t, doc, ks);
            u[k := [Posting(doc.id, doc.terms[k])] + At(u, k)] == WithPostings(t, doc, ks + {k})
  {
    var u := WithPostings(t, doc, ks);
    var v := u[k := [Posting(doc.id, doc.terms[k])] + At(u, k)];
    WithPostingsAt(t, doc, ks, k);
    assert [] + At(t, k) == At(t, k);
    assert v.Keys == WithPostings(t, doc, ks + {k}).Keys;
  }

  /** Of the terms taken so far, those `before` a swap are in what MEM0 was, those `after` it in the new MEM0.
      The swap comes at the first term that meets a full MEM0. */
  ghost predicate Placed(m0: Tier, m1: Option<Tier>, doc: Doc, full: set<Key>, before: set<Key>, after: set<Key>,
                         swapped: bool, mem0: Tier, mem1: Option<Tier>)
  {
    && before <= doc.terms.Keys && after <= doc.terms.Keys && before !! after && before !! full
    && if swapped then
         m1.None? && mem1 == Some(WithPostings(m0, doc, before)) && mem0 == WithPostings(map[], doc, after) && |full * after| == 1
       else
         after == {} && mem1 == m1 && mem0 == WithPostings(m0, doc, before)
  }

  lemma NothingPlaced(m0: Tier, m1: Option<Tier>, doc: Doc, full: set<Key>)
    ensures Placed(m0, m1, doc, full, {}, {}, false, m0, m1)
  {
    WithNothing(m0, doc);
  }

  /** One more term that MEM0 takes. */
  lemma PlaceOne(m0: Tier, m1: Option<Tier>, doc: Doc, full: set<Key>, before: set<Key>, after: set<Key>, swapped: bool,
                 mem0: Tier, mem1: Option<Tier>, k: Key)
    requires Placed(m0, m1, doc, full, before, after, swapped, mem0, mem1)
    requires k in doc.terms && k !in before + after && k !in full
    ensures Placed(m0, m1, doc, full, if swapped then before else before + {k}, if swapped then after + {k} else after, swapped,
                   mem0[k := [Posting(doc.id, doc.terms[k])] + At(mem0, k)], mem1)
  {
    hide WithPostings;
    if swapped {
      WithOneMore(map[], doc, after, k);
      assert full * (after + {k}) == full * after;
    } else {
      WithOneMore(m0, doc, before, k);
    }
  }

  /** One for which MEM0 has to be swapped first. */
  lemma PlaceAfterSwap(m0: Tier, m1: Option<Tier>, doc: Doc, full: set<Key>, before: set<Key>, after: set<Key>, swapped: bool,
                       mem0: Tier, mem1: Option<Tier>, k: Key)
    requires Placed(m0, m1, doc, full, before, after, swapped, mem0, mem1) && mem1.None?
    requires k in doc.terms && k !in before + after && k in full
    ensures after == {} && Placed(m0, m1, doc, full, before, {k}, true, map[k := [Posting(doc.id, doc.terms[k])] + []], Some(mem0))
  {
    hide WithPostings;
    WithNothing(map[], doc);
    WithOneMore(map[], doc, {}, k);
    assert full * {k} == {k} && {} + {k} == {k};
    assert At(map[], k) == [];
    assert map[k := [Posting(doc.id, doc.terms[k])] + []] == map[][k := [Posting(doc.id, doc.terms[k])] + []];
  }

  /** How the loop over the terms ends: it stops at a full term with MEM1 taken, or has placed all. */
  ghost predicate LoopEnds(m0: Tier, m1: Option<Tier>, doc: Doc, full: set<Key>, start: set<Key>, before: set<Key>, after: set<Key>,
                           swapped: bool, mem0: Tier, mem1: Option<Tier>, pending: set<Key>, stopped: Option<Key>)
  {
    && Placed(m0, m1, doc, full, before, after, swapped, mem0, mem1)
    && before + after == start - pending && pending <= start
    && if stopped.Some? then mem1.Some? && stopped.value in pending && stopped.value in full else pending == {}
  }

  /** When the loop stops: with MEM1 taken at the first full term, otherwise at the second. */
  lemma StopsIff(m0: Tier, m1: Option<Tier>, doc: Doc, full: set<Key>, start: set<Key>, before: set<Key>, after: set<Key>,
                 swapped: bool, mem0: Tier, mem1: Option<Tier>, pending: set<Key>, stopped: Option<Key>)
    requires LoopEnds(m0, m1, doc, full, start, before, after, swapped, mem0, mem1, pending, stopped)
    ensures stopped.Some? <==> if m1.Some? then full * start != {} else |full * start| >= 2
    ensures swapped ==> full * start != {}
    ensures !swapped && stopped.None? ==> full * start == {}
  {
    hide WithPostings;
    FullParts(full, start, before, after, pending);
    assert stopped.None? ==> full * pending == {};
    assert !swapped ==> full * after == {};
  }

  /** Full terms are among those after the swap or those still pending. */
  lemma FullParts(full: set<Key>, start: set<Key>, before: set<Key>, after: set<Key>, pending: set<Key>)
    requires before !! full && before + after == start - pending && pending <= start
    ensures |full * start| == |full * after| + |full * pending|
    ensures full * start == {} <==> full * after == {} && full * pending == {}
    ensures (exists k :: k in pending && k in full) ==> full * pending != {} && |full * pending| >= 1
  {
    var a, b := full * after, full * pending;
    assert forall x :: x in start - pending <==> x in before || x in after;
    assert full * start == a + b && a !! b;
    if k :| k in pending && k in full {
      assert k in b && b == {k} + (b - {k});
    }
  }

  /** What an accepted message leaves in the memory tiers, term by term. */
  lemma AcceptedPostings(m0: Tier, m1: Option<Tier>, doc: Doc, full: set<Key>, start: set<Key>, before: set<Key>, after: set<Key>,
                         swapped: bool, mem0: Tier, mem1: Option<Tier>)
    requires LoopEnds(m0, m1, doc, full, start, before, after, swapped, mem0, mem1, {}, None)
    ensures !swapped ==> mem1 == m1 && forall k ::
              At(mem0, k) == (if k in doc.terms && k in start then [Posting(doc.id, doc.terms[k])] else []) + At(m0, k)
    ensures swapped ==> m1.None? && mem1.Some? && forall k ::
              At(mem0, k) + At(mem1.value, k) == (if k in doc.terms && k in start then [Posting(doc.id, doc.terms[k])] else []) + At(m0, k)
    ensures swapped ==> forall k :: k in doc.terms && k in full && k in start ==>
              At(mem0, k) == [Posting(doc.id, doc.terms[k])] && At(mem1.value, k) == At(m0, k)
  {
    hide WithPostings;
    assert before + after == start;
    forall k
      ensures !swapped ==>
        At(mem0, k) == (if k in doc.terms && k in start then [Posting(doc.id, doc.terms[k])] else []) + At(m0, k)
      ensures swapped ==>
        At(mem0, k) + At(mem1.value, k) == (if k in doc.terms && k in start then [Posting(doc.id, doc.terms[k])] else []) + At(m0, k)
      ensures swapped && k in doc.terms && k in full && k in start ==>
        At(mem0, k) == [Posting(doc.id, doc.terms[k])] && At(mem1.value, k) == At(m0, k)
    {
      WithPostingsAt(m0, doc, before, k);
      WithPostingsAt(map[], doc, after, k);
      assert k in start <==> k in before || k in after;
      EmptyEnds(At(m0, k), k);
    }
  }

  lemma EmptyEnds(l: seq<Posting>, k: Key)
    ensures [] + l == l && At(map[], k) == []
    ensures forall p: Posting :: [p] + [] == [p]
  {
  }

  lemma NoPostings()
    ensures forall k :: At(map[], k) == []
  {
  }

  lemma FirstPosting(t: Tier, p: Posting, first: Key)
    requires t == map[][first := [p] + At(map[], first)]
    ensures forall k :: At(t, k) == if k == first then [p] else []
  {
    assert [p] + [] == [p];
  }

  lemma TakenAway(start: set<Key>, left: set<Key>, k: Key)
    requires k in left && left <= start
    ensures start - (left - {k}) == (start - left) + {k}
  {
  }

  /** All that the loop over the terms of a message leaves behind. */
  lemma PlacedTerms(m0: Tier, m1: Option<Tier>, doc: Doc, full: set<Key>, before: set<Key>, after: set<Key>, swapped: bool,
                    mem0: Tier, mem1: Option<Tier>, pending: set<Key>, stopped: Option<Key>)
    requires LoopEnds(m0, m1, doc, full, doc.terms.Keys, before, after, swapped, mem0, mem1, pending, stopped)
    ensures stopped.Some? <==> if m1.Some? then full * doc.terms.Keys != {} else |full * doc.terms.Keys| >= 2
    ensures if stopped.Some? then mem1.Some? && stopped.value in pending && stopped.value in full else pending == {}
    ensures swapped ==> full * doc.terms.Keys != {} && m1.None? && mem1.Some?
    ensures !swapped ==> mem1 == m1 && (stopped.None? ==> full * doc.terms.Keys == {})
    ensures stopped.None? && !swapped ==> forall k ::
              At(mem0, k) == (if k in doc.terms then [Posting(doc.id, doc.terms[k])] else []) + At(m0, k)
    ensures stopped.None? && swapped ==> forall k ::
              At(mem0, k) + At(mem1.value, k) == (if k in doc.terms then [Posting(doc.id, doc.terms[k])] else []) + At(m0, k)
    ensures stopped.None? && swapped ==> forall k :: k in full && k in doc.terms ==>
              At(mem0, k) == [Posting(doc.id, doc.terms[k])] && At(mem1.value, k) == At(m0, k)
    ensures m1.Some? ==> forall k ::
              At(mem0, k) == (if k in doc.terms && k !in pending then [Posting(doc.id, doc.terms[k])] else []) + At(m0, k)
  {
    hide WithPostings, At;
    StopsIff(m0, m1, doc, full, doc.terms.Keys, before, after, swapped, mem0, mem1, pending, stopped);
    if stopped.None? {
      AcceptedPostings(m0, m1, doc, full, doc.terms.Keys, before, after, swapped, mem0, mem1);
    }
    if m1.Some? {
      BlockedPostings(m0, m1, doc, full, before, after, swapped, mem0, mem1);
      assert forall k :: k in before <==> k in doc.terms && k !in pending;
    }
  }

  /** And the loop over the rest of a message, after a swap and the first of its pending terms. */
  lemma PlacedRest(doc: Doc, pending: set<Key>, first: Key, full: set<Key>, m0: Tier, m1: Option<Tier>,
                   before: set<Key>, after: set<Key>, swapped: bool, mem0: Tier, mem1: Option<Tier>,
                   rest: set<Key>, stopped: Option<Key>)
    requires first in pending && pending <= doc.terms.Keys && m1.Some?
    requires forall k :: At(m0, k) == if k == first then [Posting(doc.id, doc.terms[first])] else []
    requires LoopEnds(m0, m1, doc, full, pending - {first}, before, after, swapped, mem0, mem1, rest, stopped)
    ensures stopped.Some? <==> full * (pending - {first}) != {}
    ensures if stopped.Some? then stopped.value in rest else rest == {}
    ensures mem1 == m1
    ensures stopped.None? ==> forall k ::
              At(mem0, k) == if k in doc.terms && k in pending then [Posting(doc.id, doc.terms[k])] else []
  {
    hide WithPostings, At;
    StopsIff(m0, m1, doc, full, pending - {first}, before, after, swapped, mem0, mem1, rest, stopped);
    BlockedPostings(m0, m1, doc, full, before, after, swapped, mem0, mem1);
    if stopped.None? {
      forall k ensures At(mem0, k) == if k in doc.terms && k in pending then [Posting(doc.id, doc.terms[k])] else [] {
        assert k in before <==> k in pending && k != first;
        assert [] + At(m0, k) == At(m0, k);
      }
    }
  }

  /** Blocked before any swap, MEM0 holds what was inserted so far. */
  lemma BlockedPostings(m0: Tier, m1: Option<Tier>, doc: Doc, full: set<Key>, before: set<Key>, after: set<Key>,
                        swapped: bool, mem0: Tier, mem1: Option<Tier>)
    requires Placed(m0, m1, doc, full, before, after, swapped, mem0, mem1) && m1.Some?
    ensures mem1 == m1 && after == {}
    ensures forall k :: At(mem0, k) == (if k in doc.terms && k in before then [Posting(doc.id, doc.terms[k])] else []) + At(m0, k)
  {
    hide WithPostings;
    forall k ensures At(mem0, k) == (if k in doc.terms && k in before then [Posting(doc.id, doc.terms[k])] else []) + At(m0, k) {
      WithPostingsAt(m0, doc, before, k);
    }
  }

  class IndexGroup {
    var mem0: Tier
    var mem1: Option<Tier>
    var day: seq<Disk>
    var his: seq<Disk>
    var dayIdx: nat
    var hisIdx: nat
    var hisReady: bool
    var canDump: bool
    /** `m_file_no`/`m_block_id`: how many messages have been accepted. */
    var pos: nat
    var dumpPos: nat
    /** The two `cur` files and the check point file. */
    var curDay: nat
    var curHis: nat
    var check: nat
    ghost var model: State

    ghost predicate Valid()
      reads this
    {
      && Ownership(model)
      && mem0 == model.mem0 && mem1 == model.mem1 && day == model.day && his == model.his
      && dayIdx == model.dayIdx && hisIdx == model.hisIdx
      && hisReady == model.hisReady && canDump == model.canDump
      && pos == |model.log| && dumpPos == model.dumpPos
      && curDay == model.curDay && curHis == model.curHis && check == model.check
    }

    /** Starts on what the disk holds: the directories the `cur` files name and day/2 are kept, the two
        others are cleared. `base` is what a reader finds at that moment. */
    constructor (day: seq<Disk>, his: seq<Disk>, dayCur: nat, hisCur: nat, ghost lastId: nat, ghost base: Tier)
      requires |day| == 3 && |his| == 2 && dayCur < 2 && hisCur < 2
      requires forall k :: At(base, k) == At(Visible(day[dayCur]), k) + At(Visible(day[2]), k) + At(Visible(his[hisCur]), k)
      ensures Valid() && Init(model) && model.base == base && model.lastId == lastId
      ensures this.day == day[1 - dayCur := CLEARED] && this.his == his[1 - hisCur := CLEARED]
    {
      mem0, mem1 := map[], None;
      this.day, this.his := day[1 - dayCur := CLEARED], his[1 - hisCur := CLEARED];
      dayIdx, hisIdx, curDay, curHis := dayCur, hisCur, dayCur, hisCur;
      hisReady, canDump := day[2].complete, !day[2].complete;
      pos, dumpPos, check := 0, 0, 0;
      model := State(map[], None, day[1 - dayCur := CLEARED], his[1 - hisCur := CLEARED], dayCur, hisCur,
                     day[2].complete, !day[2].complete, 0, dayCur, hisCur, 0,
                     UpdIdle, DayIdle, HisIdle, lastId, [], base);
      new;
      assert Init(model);
      InitInv(model);
    }

    // ---------- the update thread ----------

    /** `_swap_mem_indexer`, reached by the update thread once MEM1 is free. */
    method SwapMemIndexer()
      requires Valid() && Enabled(model, SwapMem)
      modifies this`mem0, this`mem1, this`model
      ensures Valid() && model == Apply(old(model), SwapMem) && mem1 == Some(old(mem0)) && mem0 == map[]
      ensures model.upd == old(model).upd && model.log == old(model).log
    {
      hide Ownership, Enabled, Apply, Merge, SetFinish, Visible;
      SwapStep(model);
      mem1 := Some(mem0);
      mem0 := map[];
      model := Apply(model, SwapMem);
    }

    /** The posting goes in front of what MEM0 already holds for the term. */
    method InsertOne(doc: Doc, ghost pending: set<Key>, k: Key)
      requires Valid() && model.upd == UpdRunning(doc, pending) && k in pending
      modifies this`mem0, this`model
      ensures Valid() && model == Apply(old(model), InsertTerm(k))
      ensures k in doc.terms && mem0 == old(mem0)[k := [Posting(doc.id, doc.terms[k])] + At(old(mem0), k)]
      ensures model.upd == UpdRunning(doc, pending - {k}) && model.log == old(model).log
    {
      hide Ownership, Enabled, Apply, Merge, SetFinish, Visible;
      InsertStep(model, doc, pending, k);
      mem0 := mem0[k := [Posting(doc.id, doc.terms[k])] + At(mem0, k)];
      model := Apply(model, InsertTerm(k));
    }

    /** The queue position moves only after every term of the message is in. */
    method AcceptMessage(doc: Doc)
      requires Valid() && model.upd == UpdRunning(doc, {})
      modifies this`pos, this`model
      ensures Valid() && model == Apply(old(model), EndDoc)
      ensures model.upd.UpdIdle? && model.log == old(model).log + [doc]
    {
      hide Ownership, Enabled, Apply, Merge, SetFinish, Visible;
      EndStep(model, doc);
      pos := pos + 1;
      model := Apply(model, EndDoc);
    }

    /** `pthread_cond_wait`, after MEM1 was found taken: the thread gives up the mutex in the middle of its
        message. Here nothing happens between the check and the wait. */
    ghost method BlockOnMem1(doc: Doc, pending: set<Key>, s0: State, run0: seq<Action>) returns (run: seq<Action>)
      requires Valid() && model.upd == UpdRunning(doc, pending) && mem1.Some?
      requires Legal(s0, run0) && Exec(s0, run0) == model
      modifies this`model
      ensures Valid() && Legal(s0, run) && model == Exec(s0, run)
      ensures model.upd == UpdWaiting(doc, pending, false) && model.log == old(model).log
    {
      hide Legal, Exec, Ownership;
      var s1 := Apply(model, CheckMem1);
      StepOwnership(model, CheckMem1);
      run := AddStep(s0, run0, model, CheckMem1);
      StepOwnership(s1, WaitForMem1);
      run := AddStep(s0, run, s1, WaitForMem1);
      model := Apply(s1, WaitForMem1);
    }

    lemma PendingTerms(doc: Doc, pending: set<Key>)
      requires Valid() && model.upd == UpdRunning(doc, pending)
      ensures pending <= doc.terms.Keys
    {
      hide DayProgress, HisProgress;
    }

    /** The loop over the terms still to insert; it stops where the thread has to wait. */
    method InsertTerms(ghost s0: State, ghost run0: seq<Action>, doc: Doc, start: set<Key>, full: set<Key>)
      returns (stopped: Option<Key>, swapped: bool, ghost before: set<Key>, ghost after: set<Key>,
               ghost pending: set<Key>, ghost run: seq<Action>)
      requires Valid() && model.upd == UpdRunning(doc, start)
      requires Legal(s0, run0) && Exec(s0, run0) == model
      modifies this`mem0, this`mem1, this`model
      ensures Valid() && Legal(s0, run) && model == Exec(s0, run)
      ensures model.upd == UpdRunning(doc, pending) && model.log == old(model).log
      ensures LoopEnds(old(mem0), old(mem1), doc, full, start, before, after, swapped, mem0, mem1, pending, stopped)
    {
      hide Legal, Exec, Ownership, Apply, Valid, Placed, Enabled;
      PendingTerms(doc, start);
      NothingPlaced(mem0, mem1, doc, full);
      run, before, after := run0, {}, {};
      stopped, swapped := None, false;
      var left := start;
      while left != {} && stopped.None?
        invariant Valid() && model.upd == UpdRunning(doc, left) && model.log == old(model).log
        invariant left <= start <= doc.terms.Keys && before + after == start - left
        invariant stopped.Some? ==> mem1.Some? && stopped.value in left && stopped.value in full
        invariant Placed(old(mem0), old(mem1), doc, full, before, after, swapped, mem0, mem1)
        invariant Legal(s0, run) && model == Exec(s0, run)
        decreases left, stopped.None?
      {
        var k :| k in left;
        if k in full && mem1.Some? {
          stopped := Some(k);
        } else {
          if k in full {
            PlaceAfterSwap(old(mem0), old(mem1), doc, full, before, after, swapped, mem0, mem1, k);
            SwapEnabled(doc, left);
            run := AddStep(s0, run, model, SwapMem);
            SwapMemIndexer();
            swapped, after := true, {k};
            TakenAway(start, left, k);
          } else {
            PlaceOne(old(mem0), old(mem1), doc, full, before, after, swapped, mem0, mem1, k);
            before, after := if swapped then before else before + {k}, if swapped then after + {k} else after;
            TakenAway(start, left, k);
          }
          InsertEnabled(doc, left, k);
          run := AddStep(s0, run, model, InsertTerm(k));
          InsertOne(doc, left, k);
          left := left - {k};
        }
      }
      pending := left;
    }

    lemma SwapEnabled(doc: Doc, pending: set<Key>)
      requires Valid() && model.upd == UpdRunning(doc, pending) && mem1.None?
      ensures Enabled(model, SwapMem)
    {
      hide Ownership;
    }

    lemma EndEnabled(doc: Doc)
      requires model.upd == UpdRunning(doc, {})
      ensures Enabled(model, EndDoc)
    {
    }

    lemma InsertEnabled(doc: Doc, pending: set<Key>, k: Key)
      requires Valid() && model.upd == UpdRunning(doc, pending) && k in pending
      ensures Enabled(model, InsertTerm(k))
    {
      hide Ownership;
    }

    /** Inserts every term of a message. `full` are the terms for which MEM0 answers FULL, `nearly`
        says whether it ever answered NEARLY_FULL. A full term, or else a nearly full index, asks for a swap;
        the thread blocks if it must swap while MEM1 is still taken, at `term` if it stopped at one. The
        message is then not yet counted as accepted. */
    method SetPostingList(doc: Doc, full: set<Key>, nearly: bool) returns (blocked: bool, term: Option<Key>, ghost run: seq<Action>)
      requires Valid() && model.upd.UpdIdle? && doc.id > model.lastId
      modifies this`mem0, this`mem1, this`pos, this`model
      ensures Valid() && Legal(old(model), run) && model == Exec(old(model), run)
      ensures doc.terms == map[] ==> !blocked && run == []
      ensures doc.terms != map[] && !blocked ==> model.upd.UpdIdle? && model.log == old(model.log) + [doc]
      ensures blocked ==> model.upd.UpdWaiting? && model.upd.doc == doc && model.log == old(model.log) && mem1.Some?
      ensures blocked ==> if term.Some? then term.value in model.upd.pending && term.value in full else model.upd.pending == {}
      ensures doc.terms != map[] ==>
                (blocked <==> if old(mem1).Some? then nearly || full * doc.terms.Keys != {} else |full * doc.terms.Keys| >= 2)
      ensures !blocked && doc.terms != map[] && full * doc.terms.Keys == {} ==>
                && (if nearly then mem1.Some? && mem0 == map[] else mem1 == old(mem1))
                && forall k :: At(if nearly then mem1.value else mem0, k)
                               == (if k in doc.terms then [Posting(doc.id, doc.terms[k])] else []) + At(old(mem0), k)
      ensures !blocked && full * doc.terms.Keys != {} ==>
                && mem1.Some?
                && (forall k :: At(mem0, k) + At(mem1.value, k)
                                == (if k in doc.terms then [Posting(doc.id, doc.terms[k])] else []) + At(old(mem0), k))
                && forall k :: k in full && k in doc.terms ==>
                     At(mem0, k) == [Posting(doc.id, doc.terms[k])] && At(mem1.value, k) == At(old(mem0), k)
      ensures blocked && old(mem1).Some? ==>
                && mem1 == old(mem1)
                && forall k :: At(mem0, k) == (if k in doc.terms && k !in model.upd.pending then [Posting(doc.id, doc.terms[k])] else [])
                                              + At(old(mem0), k)
    {
      hide Legal, Exec, Ownership, Apply, Merge, SetFinish, Visible, LoopEnds, At, Valid, Enabled;
      run, term := [], None;
      blocked := false;
      NoRun(model);
      if doc.terms == map[] {
        return;
      }
      ghost var s0 := model;
      run := BeginMessage(doc);
      var swapped;
      ghost var m0, m1, before, after, pending := mem0, mem1, {}, {}, {};
      term, swapped, before, after, pending, run := InsertTerms(s0, run, doc, doc.terms.Keys, full);
      PlacedTerms(m0, m1, doc, full, before, after, swapped, mem0, mem1, pending, term);
      blocked := term.Some?;
      if !blocked && nearly && !swapped {
        if mem1.Some? {
          blocked := true;
        } else {
          SwapEnabled(doc, pending);
          run := AddStep(s0, run, model, SwapMem);
          SwapMemIndexer();
        }
      }
      if blocked {
        run := BlockOnMem1(doc, pending, s0, run);
      } else {
        EndEnabled(doc);
        run := AddStep(s0, run, model, EndDoc);
        AcceptMessage(doc);
      }
    }

    /** Taking up a message. */
    ghost method BeginMessage(doc: Doc) returns (run: seq<Action>)
      requires Valid() && model.upd.UpdIdle? && doc.id > model.lastId && doc.terms != map[]
      modifies this`model
      ensures Valid() && Legal(old(model), run) && model == Exec(old(model), run)
      ensures model.upd == UpdRunning(doc, doc.terms.Keys) && model.log == old(model).log
    {
      hide Legal, Exec, Ownership, Apply, Merge, SetFinish, Visible;
      NoRun(model);
      BeginDocStep(model, doc);
      run := AddStep(model, [], model, BeginDoc(doc));
      model := Apply(model, BeginDoc(doc));
    }

    /** The start of a woken thread. */
    ghost method WakeUp(doc: Doc, pending: set<Key>, spurious: bool) returns (run: seq<Action>)
      requires Valid() && model.upd.UpdWaiting? && model.upd.doc == doc && model.upd.pending == pending
      requires spurious || model.upd.signalled
      modifies this`model
      ensures Valid() && Legal(old(model), run) && model == Exec(old(model), run)
      ensures model.upd == UpdRunning(doc, pending) && model.log == old(model).log
    {
      hide Legal, Exec, Ownership, Apply, Merge, SetFinish, Visible;
      NoRun(model);
      WakeStep(model, spurious);
      run := AddStep(model, [], model, Wake(spurious));
      model := Apply(model, Wake(spurious));
    }

    /** Woken, the thread looks at MEM1 again. If it is free the thread swaps, inserts the term it stopped at
        and goes on with the rest of its message; otherwise it waits again. `full` are the terms for which
        the new MEM0 answers FULL. */
    method Resume(doc: Doc, pending: set<Key>, term: Option<Key>, full: set<Key>, spurious: bool)
      returns (blocked: bool, next: Option<Key>, ghost run: seq<Action>)
      requires Valid() && model.upd.UpdWaiting? && model.upd.doc == doc && model.upd.pending == pending
      requires if term.Some? then term.value in pending else pending == {}
      requires spurious || model.upd.signalled
      modifies this`mem0, this`mem1, this`pos, this`model
      ensures Valid() && Legal(old(model), run) && model == Exec(old(model), run)
      ensures blocked <==> old(mem1).Some? || (term.Some? && full * (pending - {term.value}) != {})
      ensures !blocked ==> model.upd.UpdIdle? && model.log == old(model.log) + [doc]
      ensures blocked ==> model.upd.UpdWaiting? && model.upd.doc == doc && model.log == old(model.log) && mem1.Some?
      ensures blocked ==> if next.Some? then next.value in model.upd.pending else model.upd.pending == {}
      ensures old(mem1).Some? ==> mem0 == old(mem0) && mem1 == old(mem1)
      ensures !blocked ==> mem1 == Some(old(mem0))
      ensures !blocked ==> forall k :: At(mem0, k) == if k in doc.terms && k in pending then [Posting(doc.id, doc.terms[k])] else []
    {
      hide Legal, Exec, Ownership, Apply, Merge, SetFinish, Visible, LoopEnds, At, Valid, Enabled;
      ghost var s0 := model;
      run := WakeUp(doc, pending, spurious);
      ghost var rest := pending;
      blocked, next := mem1.Some?, term;
      PendingTerms(doc, pending);
      NoPostings();
      if !blocked {
        SwapEnabled(doc, pending);
        run := AddStep(s0, run, model, SwapMem);
        SwapMemIndexer();
        if term.Some? {
          var k := term.value;
          InsertEnabled(doc, pending, k);
          run := AddStep(s0, run, model, InsertTerm(k));
          InsertOne(doc, pending, k);
          ghost var first, m1 := mem0, mem1;
          FirstPosting(mem0, Posting(doc.id, doc.terms[k]), k);
          var swapped;
          ghost var before, after;
          next, swapped, before, after, rest, run := InsertTerms(s0, run, doc, pending - {k}, full);
          blocked := next.Some?;
          PlacedRest(doc, pending, k, full, first, m1, before, after, swapped, mem0, mem1, rest, next);
        }
      }
      if blocked {
        run := BlockOnMem1(doc, rest, s0, run);
      } else {
        EndEnabled(doc);
        run := AddStep(s0, run, model, EndDoc);
        AcceptMessage(doc);
      }
    }

    // ---------- the day merger ----------

    /** The mutex-protected start: swap if the wait timed out, and capture the queue position. */
    method CapturePosition(timedOut: bool)
      requires Valid() && Enabled(model, DayCapture(timedOut))
      modifies this`mem0, this`mem1, this`dumpPos, this`model
      ensures Valid() && model == Apply(old(model), DayCapture(timedOut)) && dumpPos == pos
      ensures model.dayPc.DayCaptured?
    {
      hide Ownership, Enabled, Apply, Merge, SetFinish, Visible;
      CaptureStep(model, timedOut);
      if timedOut {
        mem1 := Some(mem0);
        mem0 := map[];
      }
      dumpPos := pos;
      model := Apply(model, DayCapture(timedOut));
    }

    /** `need_to_dump_day2` and the choice and clearing of the target. */
    method ChooseTarget(quiet: bool) returns (dst: nat)
      requires Valid() && model.dayPc.DayCaptured?
      modifies this`canDump, this`day, this`model
      ensures Enabled(old(model), DayBegin(quiet && old(canDump)))
      ensures Valid() && model == Apply(old(model), DayBegin(quiet && old(canDump)))
      ensures model.dayPc.DayMerging? && model.dayPc.dst == dst
    {
      hide Ownership, Enabled, Apply, Merge, SetFinish, Visible;
      var toDay2 := canDump && quiet;
      BeginStep(model, toDay2);
      dst := if toDay2 then 2 else 1 - dayIdx;
      if toDay2 {
        canDump := false;
      }
      day := day[dst := CLEARED];
      model := Apply(model, DayBegin(toDay2));
    }

    /** `merger` over MEM1 and the current DAY, then `set_finish`. */
    method MergeDay(dst: nat)
      requires Valid() && model.dayPc.DayMerging? && model.dayPc.dst == dst
      modifies this`day, this`model
      ensures Enabled(old(model), DayFinish)
      ensures Valid() && model == Apply(old(model), DayFinish)
      ensures model.dayPc.DayWritten? && model.dayPc.dst == dst
    {
      hide Ownership, Enabled, Apply, Merge, SetFinish, Visible;
      FinishStep(model);
      day := day[dst := SetFinish(Merge(mem1.value, Visible(day[dayIdx])))];
      model := Apply(model, DayFinish);
    }

    method SetDayCur(dst: nat)
      requires Valid() && model.dayPc.DayWritten? && model.dayPc.dst == dst
      modifies this`curDay, this`model
      ensures Enabled(old(model), DaySetCur)
      ensures Valid() && model == Apply(old(model), DaySetCur)
      ensures model.dayPc.DayCurSet? && model.dayPc.dst == dst
    {
      hide Ownership, Enabled, Apply, Merge, SetFinish, Visible;
      DayFileSteps(model);
      curDay := if dst == 0 then 0 else 1;
      model := Apply(model, DaySetCur);
    }

    method SetCheckPoint(ghost dst: nat)
      requires Valid() && model.dayPc.DayCurSet? && model.dayPc.dst == dst
      modifies this`check, this`model
      ensures Enabled(old(model), DaySetCheck)
      ensures Valid() && model == Apply(old(model), DaySetCheck) && check == dumpPos
      ensures model.dayPc.DayChecked? && model.dayPc.dst == dst
    {
      hide Ownership, Enabled, Apply, Merge, SetFinish, Visible;
      DayFileSteps(model);
      check := dumpPos;
      model := Apply(model, DaySetCheck);
    }

    /** The write-locked end: MEM1 and the old DAY go, the new index is listed. The signal at the
        end, omitted after a timed dump, concerns only the waiting update thread. */
    method PublishDay(dst: nat)
      requires Valid() && model.dayPc.DayChecked? && model.dayPc.dst == dst
      modifies this`mem1, this`day, this`hisReady, this`dayIdx, this`model
      ensures Enabled(old(model), DayPublish)
      ensures Valid() && model == Apply(old(model), DayPublish) && mem1.None?
    {
      hide Ownership, Enabled, Apply, Merge, SetFinish, Visible;
      PublishStep(model);
      mem1 := None;
      day := day[dayIdx := CLEARED];
      if dst == 2 {
        hisReady := true;
      } else {
        dayIdx := dst;
      }
      model := Apply(model, DayPublish);
    }

    /** The rest of the round, after the mutex is released. */
    method DumpMem1(quiet: bool, ghost s0: State, ghost run0: seq<Action>) returns (ghost run: seq<Action>)
      requires Valid() && model.dayPc.DayCaptured? && Legal(s0, run0) && Exec(s0, run0) == model
      modifies this`mem1, this`day, this`dayIdx, this`hisReady, this`canDump, this`curDay, this`check, this`model
      ensures Valid() && Legal(s0, run) && model == Exec(s0, run) && mem1.None? && check == dumpPos
      ensures run == run0 + [DayBegin(quiet && old(canDump))] + [DayFinish] + [DaySetCur] + [DaySetCheck] + [DayPublish]
    {
      hide Legal, Exec, Ownership, Apply, Enabled, Valid;
      ghost var s1 := model;
      MirrorsFlags();
      var dst := ChooseTarget(quiet);
      run := AddStep(s0, run0, s1, DayBegin(quiet && s1.canDump));
      ghost var s2 := model;
      MergeDay(dst);
      run := AddStep(s0, run, s2, DayFinish);
      ghost var s3 := model;
      SetDayCur(dst);
      run := AddStep(s0, run, s3, DaySetCur);
      ghost var s4 := model;
      SetCheckPoint(dst);
      run := AddStep(s0, run, s4, DaySetCheck);
      ghost var s5 := model;
      PublishDay(dst);
      run := AddStep(s0, run, s5, DayPublish);
    }

    lemma MirrorsFlags()
      requires Valid()
      ensures canDump == model.canDump && hisReady == model.hisReady && day == model.day && |day| == 3 && pos == |model.log|
      ensures mem0 == model.mem0 && mem1 == model.mem1 && |model.his| == 2 && model.hisIdx < 2
    {
      hide DayProgress, HisProgress;
    }

    /** One round of the day merger, run without interference after its wait ended; it holds the mutex then,
        so the update thread is idle or waiting. `quiet` stands
        for the clock conditions of `need_to_dump_day2`. It aborts on the assertion of the swap. */
    method UpdateDayIndexer(timedOut: bool, quiet: bool) returns (aborted: bool, ghost run: seq<Action>)
      requires Valid() && model.dayPc.DayIdle? && (timedOut || mem1.Some?)
      requires model.upd.UpdIdle? || model.upd.UpdWaiting?
      modifies this
      ensures aborted <==> timedOut && old(mem0) != map[] && old(mem1).Some?
      ensures Valid() && Legal(old(model), run) && model == Exec(old(model), run)
      ensures aborted || (timedOut && old(mem0) == map[]) ==> run == []
      ensures !aborted && !(timedOut && old(mem0) == map[]) ==>
                mem1.None? && check == old(pos) && dumpPos == old(pos)
                && run == [DayCapture(timedOut), DayBegin(quiet && old(canDump)), DayFinish,
                           DaySetCur, DaySetCheck, DayPublish]
    {
      hide Legal, Exec, Ownership, Apply, Enabled, Valid;
      ghost var s0 := model;
      MirrorsFlags();
      run := [];
      NoRun(s0);
      aborted := timedOut && mem0 != map[] && mem1.Some?;
      if aborted || (timedOut && mem0 == map[]) {
        return;
      }
      CaptureEnabled(timedOut);
      run := AddStep(s0, run, model, DayCapture(timedOut));
      CapturePosition(timedOut);
      run := DumpMem1(quiet, s0, run);
    }

    lemma CaptureEnabled(timedOut: bool)
      requires Valid() && model.dayPc.DayIdle? && (model.upd.UpdIdle? || model.upd.UpdWaiting?)
      requires if timedOut then mem0 != map[] && mem1.None? else mem1.Some?
      ensures Enabled(model, DayCapture(timedOut))
    {
      hide Ownership;
    }

    // ---------- the history merger ----------

    /** Clears the idle history directory. */
    method ClearHis() returns (dst: nat)
      requires Valid() && Enabled(model, HisBegin)
      modifies this`his, this`model
      ensures Valid() && model == Apply(old(model), HisBegin) && model.hisPc.HisMerging? && model.hisPc.dst == dst
    {
      hide Ownership, Enabled, Apply, Merge, SetFinish, Visible;
      HisBeginStep(model);
      dst := if hisIdx == 0 then 1 else 0;
      his := his[dst := CLEARED];
      model := Apply(model, HisBegin);
    }

    /** Writes the merge of day/2 and HIS into it. */
    method MergeHis(dst: nat)
      requires Valid() && model.hisPc.HisMerging? && model.hisPc.dst == dst
      modifies this`his, this`model
      ensures Enabled(old(model), HisFinish)
      ensures Valid() && model == Apply(old(model), HisFinish) && model.hisPc == HisWritten(dst)
    {
      hide Ownership, Enabled, Apply, Merge, SetFinish, Visible;
      HisFinishStep(model);
      his := his[dst := SetFinish(Merge(Visible(day[2]), Visible(his[hisIdx])))];
      model := Apply(model, HisFinish);
    }

    method SetHisCur(dst: nat)
      requires Valid() && model.hisPc == HisWritten(dst)
      modifies this`curHis, this`model
      ensures Enabled(old(model), HisSetCur)
      ensures Valid() && model == Apply(old(model), HisSetCur) && model.hisPc == HisCurSet(dst)
    {
      hide Ownership, Enabled, Apply, Merge, SetFinish, Visible;
      HisSetCurStep(model);
      curHis := dst;
      model := Apply(model, HisSetCur);
    }

    method PublishHis(dst: nat)
      requires Valid() && model.hisPc == HisCurSet(dst)
      modifies this`day, this`his, this`hisIdx, this`hisReady, this`canDump, this`model
      ensures Enabled(old(model), HisPublish)
      ensures Valid() && model == Apply(old(model), HisPublish) && canDump && !hisReady
    {
      hide Ownership, Enabled, Apply, Merge, SetFinish, Visible;
      HisPublishStep(model);
      day := day[2 := CLEARED];
      his := his[hisIdx := CLEARED];
      hisIdx := dst;
      hisReady := false;
      canDump := true;
      model := Apply(model, HisPublish);
    }

    /** One round of the history merger: nothing happens until day/2 is announced and not empty. */
    method UpdateHisIndexer() returns (ghost run: seq<Action>)
      requires Valid() && model.hisPc.HisIdle?
      modifies this`day, this`his, this`hisIdx, this`hisReady, this`canDump, this`curHis, this`model
      ensures Valid() && Legal(old(model), run) && model == Exec(old(model), run)
      ensures run == if old(hisReady && |day| == 3 && day[2].complete)
                     then [HisBegin, HisFinish, HisSetCur, HisPublish] else []
    {
      hide Legal, Exec, Ownership, Apply, Valid;
      ghost var s0 := model;
      MirrorsFlags();
      run := [];
      NoRun(s0);
      if !hisReady || !day[2].complete {
        return;
      }
      run := AddStep(s0, run, s0, HisBegin);
      hide Enabled;
      var dst := ClearHis();
      ghost var s1 := model;
      MergeHis(dst);
      run := AddStep(s0, run, s1, HisFinish);
      ghost var s2 := model;
      SetHisCur(dst);
      run := AddStep(s0, run, s2, HisSetCur);
      ghost var s3 := model;
      PublishHis(dst);
      run := AddStep(s0, run, s3, HisPublish);
    }

    // ---------- readers ----------

    /** Reads the slots newest to oldest into a buffer of `length` bytes. The memory tiers fill what whole
        cells there are; behind them DAY, day/2 and HIS follow, each whole if it still fits and otherwise not
        at all. A buffer large enough for every slot receives exactly their concatenation. */
    method GetPostingList(k: Key, cell: nat, length: nat) returns (buff: seq<Posting>)
      requires Valid() && cell > 0
      ensures var room := length / cell;
              var b0 := Take(room, At(mem0, k) + if mem1.Some? then At(mem1.value, k) else []);
              var d, d2, h := At(Visible(day[dayIdx]), k), At(Visible(day[2]), k), At(Visible(his[hisIdx]), k);
              var b1 := if |b0| + |d| <= room then b0 + d else b0;
              var b2 := if |b1| + |d2| <= room then b1 + d2 else b1;
              buff == if |b2| + |h| <= room then b2 + h else b2
      ensures buff == SlotReader.Collected(Slots(model, k), length / cell)
      ensures |View(model, k)| <= length / cell ==> buff == View(model, k)
    {
      hide View, Ownership, Take, At, Visible, SlotReader.Collected;
      OwnedShape(model);
      var slots := [SlotReader.MemSlot(At(mem0, k))];
      if mem1.Some? {
        slots := slots + [SlotReader.MemSlot(At(mem1.value, k))];
      }
      slots := slots + [SlotReader.DiskSlot(At(Visible(day[dayIdx]), k)),
                        SlotReader.DiskSlot(At(Visible(day[2]), k)),
                        SlotReader.DiskSlot(At(Visible(his[hisIdx]), k))];
      assert slots == Slots(model, k);
      buff := SlotReader.ReadSlots(slots, cell, length);
      BigBuffer(model, k, length / cell);
      SlotsInOrder(model, k, length / cell);
    }
  }

  lemma OwnedShape(s: State)
    requires Ownership(s)
    ensures |s.day| == 3 && |s.his| == 2 && s.dayIdx < 2 && s.hisIdx < 2
  {
    hide DayProgress, HisProgress;
  }

  /** What a reader collects, slot by slot. */
  lemma SlotsInOrder(s: State, k: Key, room: nat)
    ensures var b0 := Take(room, At(s.mem0, k) + if s.mem1.Some? then At(s.mem1.value, k) else []);
            var d, d2, h := At(DayTier(s), k), At(Day2Tier(s), k), At(HisTier(s), k);
            var b1 := if |b0| + |d| <= room then b0 + d else b0;
            var b2 := if |b1| + |d2| <= room then b1 + d2 else b1;
            SlotReader.Collected(Slots(s, k), room) == if |b2| + |h| <= room then b2 + h else b2
  {
    hide At, DayTier, Day2Tier, HisTier, Take, SlotReader.Collected;
    var m0, d, d2, h := At(s.mem0, k), At(DayTier(s), k), At(Day2Tier(s), k), At(HisTier(s), k);
    if s.mem1.Some? {
      SlotReader.TwoMemsInOrder(m0, At(s.mem1.value, k), d, d2, h, room);
    } else {
      SlotReader.OneMemInOrder(m0, d, d2, h, room);
      assert m0 + [] == m0;
      assert [SlotReader.MemSlot(m0)] + [] == [SlotReader.MemSlot(m0)];
    }
  }

  /** The non-null entries of the slot list, newest first. */
  function Slots(s: State, k: Key): seq<SlotReader.Slot> {
    [SlotReader.MemSlot(At(s.mem0, k))]
      + (if s.mem1.Some? then [SlotReader.MemSlot(At(s.mem1.value, k))] else [])
      + [SlotReader.DiskSlot(At(DayTier(s), k)), SlotReader.DiskSlot(At(Day2Tier(s), k)),
         SlotReader.DiskSlot(At(HisTier(s), k))]
  }

  lemma {:induction false} AllOfConcat(a: seq<SlotReader.Slot>, b: seq<SlotReader.Slot>)
    ensures SlotReader.AllOf(a + b) == SlotReader.AllOf(a) + SlotReader.AllOf(b)
  {
    if a == [] {
      assert a + b == b;
    } else {
      assert (a + b)[1..] == a[1..] + b;
      AllOfConcat(a[1..], b);
    }
  }

  lemma AllOfThree(a: SlotReader.Slot, b: SlotReader.Slot, c: SlotReader.Slot)
    ensures SlotReader.AllOf([a]) == a.list
    ensures SlotReader.AllOf([a, b, c]) == a.list + b.list + c.list
  {
    AllOfConcat([a] + [b], [c]);
    AllOfConcat([a], [b]);
    assert [a] + [b] + [c] == [a, b, c];
  }

  lemma SlotsHoldView(s: State, k: Key)
    ensures SlotReader.AllOf(Slots(s, k)) == View(s, k)
  {
    var m0 := SlotReader.MemSlot(At(s.mem0, k));
    var m1 := if s.mem1.Some? then [SlotReader.MemSlot(At(s.mem1.value, k))] else [];
    var disks := [SlotReader.DiskSlot(At(DayTier(s), k)), SlotReader.DiskSlot(At(Day2Tier(s), k)),
                  SlotReader.DiskSlot(At(HisTier(s), k))];
    AllOfConcat([m0] + m1, disks);
    AllOfConcat([m0], m1);
    AllOfThree(disks[0], disks[1], disks[2]);
    AllOfThree(m0, m0, m0);
    if s.mem1.Some? {
      AllOfThree(m1[0], m0, m0);
    }
    assert SlotReader.AllOf(m1) == Mem1At(s, k);
    FiveParts(At(s.mem0, k), Mem1At(s, k), disks[0].list, disks[1].list, disks[2].list);
  }

  lemma FiveParts(a: seq<Posting>, b: seq<Posting>, c: seq<Posting>, d: seq<Posting>, e: seq<Posting>)
    ensures (a + b) + (c + d + e) == a + b + c + d + e
  {
  }

  lemma BigBuffer(s: State, k: Key, room: nat)
    ensures |View(s, k)| <= room ==> SlotReader.Collected(Slots(s, k), room) == View(s, k)
  {
    SlotsHoldView(s, k);
    if |View(s, k)| <= room {
      SlotReader.BigBufferCollectsAll(Slots(s, k), room);
    }
  }

  /** What a reader gets from a buffer of any size: on descending tiers, the newest postings that
      fit, exactly when no disk tier is refused while there is room. */
  lemma ReaderGetsNewestIff(s: State, k: Key, room: nat)
    requires TierOrder.Descending(View(s, k))
    ensures SlotReader.Collected(Slots(s, k), room) == Take(room, View(s, k))
       <==> SlotReader.Fits(Slots(s, k), room)
  {
    SlotsHoldView(s, k);
    SlotReader.NewestPrefixIff(Slots(s, k), room);
  }
}
