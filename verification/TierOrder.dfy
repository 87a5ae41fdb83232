/** Posting order over runs: everything inserted since the start stays strictly descending in inner id, in
    front of what was there, and if the disks were descending at the start everything does. With distinct
    ids the duplicates of an unpublished day/2 dump can be described exactly. */
module TierOrder {
  import opened Prelude
  import opened Tiers
  import opened TierRuns

  /** Ids above the bound strictly descend, in front of all others. */
  predicate Sorted(s: seq<Posting>, bound: int) {
    forall i, j :: 0 <= i < j < |s| && s[j].id > bound ==> s[i].id > s[j].id
  }

  /** All ids strictly descend. */
  predicate Descending(s: seq<Posting>) {
    Sorted(s, -1)
  }

  predicate Below(s: seq<Posting>, bound: nat) {
    forall i :: 0 <= i < |s| ==> s[i].id <= bound
  }

  predicate Above(s: seq<Posting>, bound: int) {
    forall i :: 0 <= i < |s| ==> s[i].id > bound
  }

  /** What the published tiers hold for a term, newest tier first. */
  function Published(s: State, k: Key): seq<Posting> {
    Front(s, k) + Back(s, k)
  }

  /** The bound stands between the ids found at the start and those inserted since; -1 asks for the order of
      all. */
  predicate KeyOrder(s: State, k: Key, bound: int) {
    && bound <= s.lastId
    && Sorted(Published(s, k), bound)
    && Below(Published(s, k), s.lastId)
    && Above(Front(s, k), bound)
    && (!s.upd.UpdIdle? ==>
          s.upd.doc.id == s.lastId && s.lastId > 0 && s.lastId > bound
          && (k in s.upd.pending ==> Below(Published(s, k), s.lastId - 1)))
  }

  /** Dropping the tail of a middle part keeps the order and the bounds. */
  lemma OrderTake(a: seq<Posting>, b: seq<Posting>, c: seq<Posting>, bound: int, top: nat)
    requires Sorted(a + b + c, bound) && Below(a + b + c, top)
    ensures Sorted(a + Take(MAX_POSTINGLIST_SIZE, b) + c, bound)
    ensures Below(a + Take(MAX_POSTINGLIST_SIZE, b) + c, top)
  {
    var n := MAX_POSTINGLIST_SIZE;
    if |b| > n {
      var x, y := a + b + c, a + b[..n] + c;
      var gap := |b| - n;
      assert forall i :: 0 <= i < |y| ==> y[i] == x[if i < |a| + n then i else i + gap];
    }
  }

  lemma OrderCons(cell: Posting, l: seq<Posting>, bound: int, top: nat)
    requires Sorted(l, bound) && Below(l, top) && cell.id == top + 1
    ensures Sorted([cell] + l, bound) && Below([cell] + l, top + 1)
  {
  }

  lemma DayCutSeqs(m0: seq<Posting>, m1: seq<Posting>, d: seq<Posting>, d2: seq<Posting>, h: seq<Posting>,
                   d': seq<Posting>, d2': seq<Posting>)
    requires d' + d2' == Take(MAX_POSTINGLIST_SIZE, m1 + d) + d2
    ensures (m0 + m1) + (d + d2 + h) == m0 + (m1 + d) + (d2 + h)
    ensures (m0 + []) + (d' + d2' + h) == m0 + Take(MAX_POSTINGLIST_SIZE, m1 + d) + (d2 + h)
  {
    assert (m0 + []) + (d' + d2' + h) == m0 + (d' + d2') + h;
  }

  lemma DayPublishOrder(s: State, k: Key, bound: int, top: nat)
    requires Ownership(s) && Enabled(s, DayPublish)
    requires Sorted(Published(s, k), bound) && Below(Published(s, k), top)
    ensures Sorted(Published(DayPublished(s), k), bound) && Below(Published(DayPublished(s), k), top)
  {
    hide Merge, SetFinish, Sorted, Below, HisProgress, Visible;
    var t := DayPublished(s);
    var merged := Take(MAX_POSTINGLIST_SIZE, Mem1At(s, k) + At(DayTier(s), k));
    PublishedDayTiers(s);
    MergeAt(s.mem1.value, DayTier(s), k);
    assert s.dayPc.dst == 2 ==> [] + merged == merged + [];
    DayCutSeqs(At(s.mem0, k), Mem1At(s, k), At(DayTier(s), k), At(PublishedDay2(s), k), At(HisTier(s), k),
               At(DayTier(t), k), At(PublishedDay2(t), k));
    OrderTake(At(s.mem0, k), Mem1At(s, k) + At(DayTier(s), k), At(PublishedDay2(s), k) + At(HisTier(s), k), bound, top);
  }

  lemma HisCutSeqs(front: seq<Posting>, d: seq<Posting>, d2: seq<Posting>, h: seq<Posting>)
    ensures front + (d + d2 + h) == (front + d) + (d2 + h) + []
    ensures front + (d + [] + Take(MAX_POSTINGLIST_SIZE, d2 + h))
         == (front + d) + Take(MAX_POSTINGLIST_SIZE, d2 + h) + []
  {
  }

  lemma HisPublishOrder(s: State, k: Key, bound: int, top: nat)
    requires Ownership(s) && Enabled(s, HisPublish)
    requires Sorted(Published(s, k), bound) && Below(Published(s, k), top)
    ensures Sorted(Published(HisPublished(s), k), bound) && Below(Published(HisPublished(s), k), top)
  {
    hide Merge, SetFinish, Sorted, Below, DayProgress, HisProgress, Visible;
    PublishedHisTiers(s);
    MergeAt(Day2Tier(s), HisTier(s), k);
    HisCutSeqs(Front(s, k), At(DayTier(s), k), At(Day2Tier(s), k), At(HisTier(s), k));
    OrderTake(Front(s, k) + At(DayTier(s), k), At(Day2Tier(s), k) + At(HisTier(s), k), [], bound, top);
  }

  lemma OrderFrame(s: State, t: State, k: Key, bound: int)
    requires KeyOrder(s, k, bound) && Published(t, k) == Published(s, k) && t.lastId == s.lastId
    requires Above(Front(t, k), bound)
    requires t.upd.UpdIdle?
          || (!s.upd.UpdIdle? && t.upd.doc == s.upd.doc && (k in t.upd.pending ==> k in s.upd.pending))
    ensures KeyOrder(t, k, bound)
  {
    hide Published, Sorted, Below, Above, Front;
  }

  lemma DayStepOrder(s: State, a: Action, k: Key, bound: int)
    requires Ownership(s) && Enabled(s, a) && IsDayAction(a) && !a.DayPublish? && KeyOrder(s, k, bound)
    ensures KeyOrder(Apply(s, a), k, bound)
  {
    hide Ownership, Merge, SetFinish, Visible, Sorted, Below, Above, DayTier, HisTier, PublishedDay2;
    DayStepTiers(s, a);
    assert [] + At(s.mem0, k) == At(s.mem0, k) + [];
    assert Front(Apply(s, a), k) == Front(s, k);
    OrderFrame(s, Apply(s, a), k, bound);
  }

  lemma HisStepOrder(s: State, a: Action, k: Key, bound: int)
    requires Ownership(s) && Enabled(s, a) && IsHisAction(a) && !a.HisPublish? && KeyOrder(s, k, bound)
    ensures KeyOrder(Apply(s, a), k, bound)
  {
    hide Ownership, Merge, SetFinish, Visible, Sorted, Below, Above, DayTier, HisTier, PublishedDay2;
    HisStepTiers(s, a);
    OrderFrame(s, Apply(s, a), k, bound);
  }

  /** A publication that only cuts the published list keeps the order, whatever the update thread does. */
  lemma PublishFrame(s: State, t: State, k: Key, bound: int)
    requires KeyOrder(s, k, bound) && t.lastId == s.lastId
    requires t.upd.UpdIdle? == s.upd.UpdIdle?
    requires !s.upd.UpdIdle? ==> t.upd.doc == s.upd.doc && t.upd.pending == s.upd.pending
    requires Sorted(Published(t, k), bound) && Above(Front(t, k), bound)
    requires forall top :: Below(Published(s, k), top) ==> Below(Published(t, k), top)
    ensures KeyOrder(t, k, bound)
  {
    hide Published, Sorted, Below, Above, Front;
  }

  lemma DayPublishKeyOrder(s: State, k: Key, bound: int)
    requires Ownership(s) && Enabled(s, DayPublish) && KeyOrder(s, k, bound)
    ensures KeyOrder(DayPublished(s), k, bound)
  {
    hide Merge, SetFinish, Sorted, Below, DayProgress, HisProgress, Visible, Published;
    DayPublishOrder(s, k, bound, s.lastId);
    forall top: nat | Below(Published(s, k), top)
      ensures Below(Published(DayPublished(s), k), top)
    {
      DayPublishOrder(s, k, bound, top);
    }
    assert Front(DayPublished(s), k) == At(s.mem0, k) + [] <= Front(s, k);
    PublishFrame(s, DayPublished(s), k, bound);
  }

  lemma HisPublishKeyOrder(s: State, k: Key, bound: int)
    requires Ownership(s) && Enabled(s, HisPublish) && KeyOrder(s, k, bound)
    ensures KeyOrder(HisPublished(s), k, bound)
  {
    hide Merge, SetFinish, Sorted, Below, Above, DayProgress, HisProgress, Visible, Published;
    HisPublishOrder(s, k, bound, s.lastId);
    forall top: nat | Below(Published(s, k), top)
      ensures Below(Published(HisPublished(s), k), top)
    {
      HisPublishOrder(s, k, bound, top);
    }
    PublishFrame(s, HisPublished(s), k, bound);
  }

  lemma InsertPublished(s: State, doc: Doc, pending: set<Key>, k: Key, cell: Posting)
    requires s.upd == UpdRunning(doc, pending) && PostingsOf(doc, k) == [cell]
    ensures var t := Inserted(s, doc, pending, k);
            Front(t, k) == [cell] + Front(s, k) && Published(t, k) == [cell] + Published(s, k)
  {
    hide Merge, SetFinish, Visible;
    var t := Inserted(s, doc, pending, k);
    assert ([cell] + At(s.mem0, k)) + Mem1At(s, k) == [cell] + Front(s, k);
    assert Back(t, k) == Back(s, k);
    assert ([cell] + Front(s, k)) + Back(s, k) == [cell] + Published(s, k);
  }

  lemma InsertOrder(s: State, doc: Doc, pending: set<Key>, ins: Key, k: Key, bound: int)
    requires s.upd == UpdRunning(doc, pending) && ins in pending && pending <= doc.terms.Keys && KeyOrder(s, k, bound)
    ensures KeyOrder(Inserted(s, doc, pending, ins), k, bound)
  {
    hide Sorted, Below, Merge, SetFinish, Visible, Back;
    var t := Inserted(s, doc, pending, ins);
    if k == ins {
      var cell := Posting(doc.id, doc.terms[k]);
      InsertPublished(s, doc, pending, k, cell);
      OrderCons(cell, Published(s, k), bound, s.lastId - 1);
    } else {
      InsertOther(s, doc, pending, ins, k);
      OrderFrame(s, t, k, bound);
    }
  }

  lemma InsertOther(s: State, doc: Doc, pending: set<Key>, ins: Key, k: Key)
    requires s.upd == UpdRunning(doc, pending) && k != ins
    ensures var t := Inserted(s, doc, pending, ins); Front(t, k) == Front(s, k) && Published(t, k) == Published(s, k)
  {
    hide Merge, SetFinish, Visible;
  }

  lemma BeginOrder(s: State, doc: Doc, k: Key, bound: int)
    requires Enabled(s, BeginDoc(doc)) && KeyOrder(s, k, bound)
    ensures KeyOrder(Apply(s, BeginDoc(doc)), k, bound)
  {
    hide Merge, SetFinish, Visible, Sorted, Above;
    var t := Apply(s, BeginDoc(doc));
    assert Front(t, k) == Front(s, k) && Published(t, k) == Published(s, k);
  }

  /** Steps of the update thread that move no posting between the tiers a reader sees. */
  lemma QuietStepOrder(s: State, a: Action, k: Key, bound: int)
    requires Enabled(s, a) && KeyOrder(s, k, bound)
    requires a.SwapMem? || a.CheckMem1? || a.WaitForMem1? || a.Wake? || a.EndDoc?
    ensures KeyOrder(Apply(s, a), k, bound)
  {
    hide Merge, SetFinish, Visible, Sorted, Below, Above;
    var t := Apply(s, a);
    assert [] + At(s.mem0, k) == At(s.mem0, k) + [];
    assert Front(t, k) == Front(s, k) && Back(t, k) == Back(s, k);
    OrderFrame(s, t, k, bound);
  }

  lemma UpdaterStepOrder(s: State, a: Action, k: Key, bound: int)
    requires Ownership(s) && Enabled(s, a) && !IsDayAction(a) && !IsHisAction(a) && KeyOrder(s, k, bound)
    ensures KeyOrder(Apply(s, a), k, bound)
  {
    hide KeyOrder, Inserted, DayProgress, HisProgress, Swapped;
    if a.InsertTerm? {
      InsertOrder(s, s.upd.doc, s.upd.pending, a.k, k, bound);
    } else if a.BeginDoc? {
      BeginOrder(s, a.doc, k, bound);
    } else {
      QuietStepOrder(s, a, k, bound);
    }
  }

  lemma StepOrder(s: State, a: Action, k: Key, bound: int)
    requires Ownership(s) && Enabled(s, a) && KeyOrder(s, k, bound)
    ensures KeyOrder(Apply(s, a), k, bound)
  {
    hide Ownership, KeyOrder, DayPublished, HisPublished;
    if a.DayPublish? {
      DayPublishKeyOrder(s, k, bound);
    } else if a.HisPublish? {
      HisPublishKeyOrder(s, k, bound);
    } else if IsDayAction(a) {
      DayStepOrder(s, a, k, bound);
    } else if IsHisAction(a) {
      HisStepOrder(s, a, k, bound);
    } else {
      UpdaterStepOrder(s, a, k, bound);
    }
  }

  lemma {:induction false} RunOrder(s: State, run: seq<Action>, k: Key, bound: int)
    requires Ownership(s) && KeyOrder(s, k, bound) && Legal(s, run)
    ensures KeyOrder(Exec(s, run), k, bound)
    decreases |run|
  {
    hide Ownership, KeyOrder, Apply, Enabled;
    if run != [] {
      StepOwnership(s, run[0]);
      StepOrder(s, run[0], k, bound);
      RunOrder(Apply(s, run[0]), run[1..], k, bound);
    }
  }

  /** On disks that hold no id above the last one given out, the order of a start is that of `base`. */
  lemma InitOrder(s: State, k: Key)
    requires Init(s) && Below(At(s.base, k), s.lastId)
    ensures Published(s, k) == At(s.base, k) && KeyOrder(s, k, s.lastId)
    ensures Descending(At(s.base, k)) ==> KeyOrder(s, k, -1)
  {
    assert Published(s, k) == At(s.base, k);
  }

  /** What every run from a start keeps, from what the disks held. */
  lemma RunFromInit(s: State, run: seq<Action>, k: Key)
    requires Init(s) && Legal(s, run) && Below(At(s.base, k), s.lastId)
    ensures var t := Exec(s, run);
            && Ownership(t) && KeyInv(t, k) && KeyOrder(t, k, s.lastId)
            && (Descending(At(s.base, k)) ==> KeyOrder(t, k, -1))
  {
    hide Init, Ownership, KeyOrder, KeyInv, Below, Descending, Exec, Legal;
    InitInv(s);
    RunInv(s, run);
    InitOrder(s, k);
    RunOrder(s, run, k, s.lastId);
    if Descending(At(s.base, k)) {
      RunOrder(s, run, k, -1);
    }
  }

  /** Every run keeps what it inserts for a term strictly descending in inner id, in front of all older
      postings, however often merges truncate; and all of the term's published postings if and only if
      they were descending at the start. */
  lemma PostingsStayDescending(s: State, run: seq<Action>, k: Key)
    requires Init(s) && Legal(s, run) && Below(At(s.base, k), s.lastId)
    ensures Sorted(Published(Exec(s, run), k), s.lastId)
    ensures Descending(At(s.base, k)) ==> Descending(Published(Exec(s, run), k))
    ensures !Day2Window(Exec(s, run)) ==> View(Exec(s, run), k) == Published(Exec(s, run), k)
  {
    hide Ownership, KeyInv, Sorted, Below, Above, Init, View, Published, Exec, Legal, Day2Window;
    RunFromInit(s, run, k);
    ViewIsPublished(Exec(s, run), k);
  }

  lemma ViewIsPublished(s: State, k: Key)
    ensures !Day2Window(s) ==> View(s, k) == Published(s, k)
  {
    hide View, Front, Back, Day2Window, At, DayTier, Day2Tier, HisTier;
    SplitView(s, k);
  }

  predicate OrderedAfter(s: State, run: seq<Action>, k: Key) {
    Legal(s, run) ==> Descending(Published(Exec(s, run), k))
  }

  /** The start decides: all runs stay in order exactly when the disks were. */
  lemma OrderedRunsIff(s: State, k: Key)
    requires Init(s) && Below(At(s.base, k), s.lastId)
    ensures Descending(At(s.base, k)) <==> forall run :: OrderedAfter(s, run, k)
  {
    hide Ownership, Sorted, Below, Above, Published;
    InitOrder(s, k);
    if Descending(At(s.base, k)) {
      forall run ensures OrderedAfter(s, run, k) {
        if Legal(s, run) {
          PostingsStayDescending(s, run, k);
        }
      }
    } else {
      assert !OrderedAfter(s, [], k);
    }
  }

  lemma WindowView(s: State, k: Key)
    requires Ownership(s) && Day2Window(s)
    ensures var x := Front(s, k) + At(DayTier(s), k);
            var dup := Take(MAX_POSTINGLIST_SIZE, Mem1At(s, k) + At(DayTier(s), k));
            View(s, k) == x + dup + At(HisTier(s), k) && Published(s, k) == x + At(HisTier(s), k)
            && forall p :: p in dup ==> p in x
  {
    hide Merge, SetFinish, Take;
    MergeAt(s.mem1.value, DayTier(s), k);
    MergeFrom(s.mem1.value, DayTier(s), k);
    SplitView(s, k);
    NoMiddle(Front(s, k), At(DayTier(s), k), At(HisTier(s), k));
  }

  lemma NoMiddle(front: seq<Posting>, d: seq<Posting>, h: seq<Posting>)
    ensures front + (d + [] + h) == front + d + h
  {
  }

  /** Repeating part of x between x and h is harmless past the limit; and only there, when what is repeated
      first is above the bound, or everything fits the limit. */
  lemma RepeatIsHarmlessIff(x: seq<Posting>, dup: seq<Posting>, h: seq<Posting>, bound: int)
    requires Sorted(x + h, bound) && forall p :: p in dup ==> p in x
    ensures var same := Take(MAX_POSTINGLIST_SIZE, x + dup + h) == Take(MAX_POSTINGLIST_SIZE, x + h);
            && (dup == [] || |x| >= MAX_POSTINGLIST_SIZE ==> same)
            && (same && (dup == [] || dup[0].id > bound || |x + h| < MAX_POSTINGLIST_SIZE) ==>
                  dup == [] || |x| >= MAX_POSTINGLIST_SIZE)
  {
    var n := MAX_POSTINGLIST_SIZE;
    if |x| >= n {
      assert (x + dup + h)[..n] == x[..n] == (x + h)[..n];
    } else if dup == [] {
      assert x + dup + h == x + h;
    } else {
      assert dup[0] in dup && dup[0] in x;
      var i :| 0 <= i < |x| && x[i] == dup[0];
      assert Take(n, x + dup + h)[|x|] == dup[0];
      if h != [] {
        assert Take(n, x + h)[|x|] == (x + h)[|x|] == h[0];
        assert (x + h)[|x|].id > bound ==> (x + h)[i].id > (x + h)[|x|].id;
      }
    }
  }

  /** The dump in the window shows a posting inserted since the start before any other. */
  predicate NewInDump(s: State, k: Key, bound: int) {
    var dump := Mem1At(s, k) + At(DayTier(s), k);
    dump != [] && dump[0].id > bound
  }

  lemma WindowIff(s: State, k: Key, bound: int)
    requires Ownership(s) && Day2Window(s) && KeyInv(s, k) && KeyOrder(s, k, bound)
    ensures var harmless := Mem1At(s, k) + At(DayTier(s), k) == []
                         || |Front(s, k) + At(DayTier(s), k)| >= MAX_POSTINGLIST_SIZE;
            var same := Take(MAX_POSTINGLIST_SIZE, View(s, k)) == Take(MAX_POSTINGLIST_SIZE, Hist(s, k));
            && (harmless ==> same)
            && (same && (NewInDump(s, k, bound) || |Published(s, k)| < MAX_POSTINGLIST_SIZE) ==> harmless)
  {
    var dump := Mem1At(s, k) + At(DayTier(s), k);
    hide Ownership, Day2Window, KeyInv, View, Hist, Mem1At, DayTier, HisTier, Front, Back, Sorted;
    WindowView(s, k);
    FrontThenBack(s, k);
    RepeatIsHarmlessIff(Front(s, k) + At(DayTier(s), k), Take(MAX_POSTINGLIST_SIZE, dump), At(HisTier(s), k), bound);
  }

  /** While a day/2 dump is readable but unpublished, a reader sees the newest MAX postings of a term
      without repetition when the dump holds none of its postings, or the tiers in front of day/2 already
      fill the limit; and only then, if the start was in order, or the dump holds a posting inserted since,
      or all of the term's postings fit the limit. */
  lemma WindowShowsDuplicatesIff(s: State, run: seq<Action>, k: Key)
    requires Init(s) && Legal(s, run) && Day2Window(Exec(s, run)) && Below(At(s.base, k), s.lastId)
    ensures var t := Exec(s, run);
            var harmless := Mem1At(t, k) + At(DayTier(t), k) == []
                         || |Front(t, k) + At(DayTier(t), k)| >= MAX_POSTINGLIST_SIZE;
            var same := Take(MAX_POSTINGLIST_SIZE, View(t, k)) == Take(MAX_POSTINGLIST_SIZE, Hist(t, k));
            var telling := Descending(At(s.base, k)) || NewInDump(t, k, s.lastId) || |Published(t, k)| < MAX_POSTINGLIST_SIZE;
            (harmless ==> same) && (same && telling ==> harmless)
  {
    hide Init, Ownership, KeyInv, KeyOrder, Day2Window, View, Hist, Mem1At, DayTier, Front, Published, Exec, Legal, Below, Descending;
    var t := Exec(s, run);
    RunFromInit(s, run, k);
    WindowIff(t, k, s.lastId);
    if Descending(At(s.base, k)) {
      WindowIff(t, k, -1);
    }
  }

  // ---------- what the merger relies on ----------

  /** Lists a merge may read back: never empty, and never longer than its buffer. */
  predicate Readable(t: Tier) {
    forall k :: k in t ==> 0 < |t[k]| <= MAX_POSTINGLIST_SIZE
  }

  predicate NonEmptyLists(t: Tier) {
    forall k :: k in t ==> t[k] != []
  }

  predicate Sizes(s: State) {
    && NonEmptyLists(s.mem0) && (s.mem1.Some? ==> NonEmptyLists(s.mem1.value))
    && (forall i :: 0 <= i < |s.day| ==> Readable(s.day[i].rows))
    && (forall i :: 0 <= i < |s.his| ==> Readable(s.his[i].rows))
    && (!s.upd.UpdIdle? ==> s.upd.pending <= s.upd.doc.terms.Keys)
    && (s.dayPc.DayMerging? ==> NonEmptyLists(s.dayPc.src1) && Readable(s.dayPc.src2))
    && (s.hisPc.HisMerging? ==> NonEmptyLists(s.hisPc.src1) && Readable(s.hisPc.src2))
  }

  lemma MergeReadable(newer: Tier, older: Tier)
    requires NonEmptyLists(newer) && NonEmptyLists(older)
    ensures Readable(Merge(newer, older))
  {
  }

  lemma DayStepSizes(s: State, a: Action)
    requires Sizes(s) && Enabled(s, a) && IsDayAction(a)
    ensures Sizes(Apply(s, a))
  {
    hide Merge;
    match a
    case DayFinish => MergeReadable(s.dayPc.src1, s.dayPc.src2);
    case DayBegin(toDay2) => assert Readable(DayTier(s));
    case _ =>
  }

  lemma HisStepSizes(s: State, a: Action)
    requires Sizes(s) && Enabled(s, a) && IsHisAction(a)
    ensures Sizes(Apply(s, a))
  {
    hide Merge;
    match a
    case HisFinish => MergeReadable(s.hisPc.src1, s.hisPc.src2);
    case HisBegin => assert Readable(Day2Tier(s)) && Readable(HisTier(s));
    case _ =>
  }

  lemma UpdaterStepSizes(s: State, a: Action)
    requires Sizes(s) && Enabled(s, a) && !IsDayAction(a) && !IsHisAction(a)
    ensures Sizes(Apply(s, a))
  {
    hide Merge, SetFinish, Readable, Visible;
  }

  lemma StepSizes(s: State, a: Action)
    requires Sizes(s) && Enabled(s, a)
    ensures Sizes(Apply(s, a))
  {
    hide Sizes, Enabled, Apply;
    if IsDayAction(a) {
      DayStepSizes(s, a);
    } else if IsHisAction(a) {
      HisStepSizes(s, a);
    } else {
      UpdaterStepSizes(s, a);
    }
  }

  /** Whenever a merge runs, both sources have only non-empty lists and the older one fits the
      merge buffer, so neither the `num > 0` assertion nor a refused disk read can occur. */
  lemma {:induction false} MergesNeverStarve(s: State, run: seq<Action>)
    requires Sizes(s) && Legal(s, run)
    ensures Sizes(Exec(s, run))
    decreases |run|
  {
    if run != [] {
      StepSizes(s, run[0]);
      MergesNeverStarve(Apply(s, run[0]), run[1..]);
    }
  }
}
