/** What a reader gets from a restarted index: where each posting of the history stands in the list found,
    and with it which of those the check point covers are still among the newest MAX. */
module TierReader {
  import opened Prelude
  import opened Tiers
  import opened TierRuns
  import opened TierOrder
  import opened TierDurability
  import opened TierHazards
  import opened TierRestart

  /** How many of the newest postings of a term are in no directory that a restart finds. */
  function Unwritten(s: State, k: Key): nat {
    |At(s.mem0, k)| + if Day2Window(s) || DumpNamed(s) then 0 else |Mem1At(s, k)|
  }

  /** Where the i-th newest posting stands in the list a restart finds. Repeated postings push others back:
      in the day/2 window the DAY that `cur` still names comes before the dump that contains it, and after
      the history's `cur` is rewritten day/2 comes before the history that contains it. */
  function RestartIndex(s: State, k: Key, i: nat): int {
    var m0, m1, d := |At(s.mem0, k)|, |Mem1At(s, k)|, |At(DayTier(s), k)|;
    if Day2Window(s) then
      if s.curDay != s.dayIdx then i - m0
      else if m0 + m1 <= i < m0 + m1 + d then i - m0 - m1
      else i - m0 + d
    else
      var d2 := |At(Day2Tier(s), k)|;
      i - Unwritten(s, k) + if s.hisPc.HisCurSet? && i >= m0 + m1 + d + d2 then d2 else 0
  }

  /** Every posting the written check point covers, up to the limit of the history, is among the newest MAX
      that a reader of the restarted index gets. */
  ghost predicate DurableForReaders(s: State, k: Key)
    requires Ownership(s)
  {
    s.check <= |s.log| && Acked(s, s.check, k) <= |Hist(s, k)|
    && forall i :: Covered(s, k, i) ==> Hist(s, k)[i] in Take(MAX_POSTINGLIST_SIZE, View(Restart(s), k))
  }

  predicate Covered(s: State, k: Key, i: int) {
    s.check <= |s.log| && |Hist(s, k)| - Acked(s, s.check, k) <= i < |Hist(s, k)| && 0 <= i < MAX_POSTINGLIST_SIZE
  }

  // ---------- positions in concatenations ----------

  /** p is found at this position of r, for the first time if the history x is in order. */
  predicate FoundAt(x: seq<Posting>, r: seq<Posting>, p: Posting, pos: int) {
    && 0 <= pos < |r| && r[pos] == p
    && (Descending(x) ==> forall q :: 0 <= q < pos ==> r[q] != p)
  }

  lemma FirstAt(x: seq<Posting>, r: seq<Posting>, p: Posting, pos: int, n: nat)
    requires FoundAt(x, r, p, pos)
    ensures pos < n ==> p in Take(n, r)
    ensures Descending(x) ==> (p in Take(n, r) <==> pos < n)
  {
    hide Descending;
    if pos < n {
      assert Take(n, r)[pos] == p;
    }
  }

  lemma WindowFoundAt(m0: seq<Posting>, m1: seq<Posting>, d: seq<Posting>, h: seq<Posting>, i: nat)
    requires |m0| <= i < |m0 + (m1 + d) + h| && i < MAX_POSTINGLIST_SIZE
    ensures var x := m0 + (m1 + d) + h; var w := Take(MAX_POSTINGLIST_SIZE, m1 + d);
            && FoundAt(x, w + h, x[i], i - |m0|)
            && FoundAt(x, d + w + h, x[i],
                       if |m0| + |m1| <= i < |m0| + |m1| + |d| then i - |m0| - |m1| else i - |m0| + |d|)
  {
    var x, w := m0 + (m1 + d) + h, Take(MAX_POSTINGLIST_SIZE, m1 + d);
    var p, j := x[i], i - |m0|;
    assert (w + h)[j] == p && forall q :: 0 <= q < j ==> (w + h)[q] == x[|m0| + q];
    assert forall q :: 0 <= q < |d| ==> (d + w + h)[q] == x[|m0| + |m1| + q];
    assert forall q :: 0 <= q < |w + h| ==> (d + w + h)[|d| + q] == (w + h)[q];
    if |m0| + |m1| <= i < |m0| + |m1| + |d| {
      assert (d + w + h)[j - |m1|] == p;
    } else if Descending(x) {
      forall q | 0 <= q < j + |d| ensures (d + w + h)[q] != p {
        if q >= |d| {
          assert (d + w + h)[q] == (w + h)[q - |d|] == x[|m0| + (q - |d|)];
        }
      }
    }
  }

  /** DAY, written with MEM1 or without, then the rest. */
  lemma DayFoundAt(m0: seq<Posting>, m1: seq<Posting>, d: seq<Posting>, rest: seq<Posting>, named: bool, i: nat)
    requires |m0| + (if named then 0 else |m1|) <= i < |m0 + (m1 + d) + rest| && i < MAX_POSTINGLIST_SIZE
    ensures var x := m0 + (m1 + d) + rest; var rd := if named then Take(MAX_POSTINGLIST_SIZE, m1 + d) else d;
            var off := |m0| + if named then 0 else |m1|;
            && FoundAt(x, rd + rest, x[i], i - off)
            && (forall q :: 0 <= q <= i - off ==> q < |rd + rest| && (rd + rest)[q] == x[off + q])
            && (i >= |m0| + |m1| + |d| ==> |rd| == |m0| + |m1| + |d| - off)
  {
    var x, rd := m0 + (m1 + d) + rest, if named then Take(MAX_POSTINGLIST_SIZE, m1 + d) else d;
    var off := |m0| + if named then 0 else |m1|;
    assert forall q :: 0 <= q <= i - off ==> (rd + rest)[q] == x[off + q];
  }

  lemma PlainFoundAt(m0: seq<Posting>, m1: seq<Posting>, d: seq<Posting>, d2: seq<Posting>, h: seq<Posting>,
                     named: bool, moved: bool, i: nat)
    requires |m0| + (if named then 0 else |m1|) <= i < |m0 + (m1 + d) + (d2 + h)| && i < MAX_POSTINGLIST_SIZE
    ensures var x := m0 + (m1 + d) + (d2 + h); var rd := if named then Take(MAX_POSTINGLIST_SIZE, m1 + d) else d;
            var rh := if moved then Take(MAX_POSTINGLIST_SIZE, d2 + h) else h;
            var off := |m0| + if named then 0 else |m1|;
            FoundAt(x, rd + d2 + rh, x[i], i - off + if moved && i >= |m0| + |m1| + |d| + |d2| then |d2| else 0)
  {
    var x, rd := m0 + (m1 + d) + (d2 + h), if named then Take(MAX_POSTINGLIST_SIZE, m1 + d) else d;
    var rh := if moved then Take(MAX_POSTINGLIST_SIZE, d2 + h) else h;
    var off := |m0| + if named then 0 else |m1|;
    var r, p, j := rd + d2 + rh, x[i], i - off;
    DayFoundAt(m0, m1, d, d2 + h, named, i);
    hide FoundAt, Take;
    if moved && i >= |m0| + |m1| + |d| + |d2| {
      MovedFoundAt(x, rd, d2, h, off, i);
    } else if !moved {
      assert r == rd + (d2 + h);
    } else {
      assert j < |rd| + |d2|;
      SameFrontFound(x, rd + d2, h, rh, p, j);
      assert (rd + d2) + h == rd + (d2 + h);
    }
  }

  /** A position in the common front of two lists. */
  lemma SameFrontFound(x: seq<Posting>, front: seq<Posting>, b: seq<Posting>, c: seq<Posting>, p: Posting, pos: int)
    requires pos < |front|
    ensures FoundAt(x, front + b, p, pos) <==> FoundAt(x, front + c, p, pos)
  {
    assert forall q :: 0 <= q < |front| ==> (front + b)[q] == front[q] == (front + c)[q];
  }

  /** A posting of the old history, behind a day/2 that is found twice. */
  lemma MovedFoundAt(x: seq<Posting>, rd: seq<Posting>, d2: seq<Posting>, h: seq<Posting>, off: nat, i: nat)
    requires i < |x| && off + |rd| + |d2| <= i < MAX_POSTINGLIST_SIZE && i - off < |rd + (d2 + h)|
    requires forall q :: 0 <= q <= i - off ==> (rd + (d2 + h))[q] == x[off + q]
    ensures FoundAt(x, rd + d2 + Take(MAX_POSTINGLIST_SIZE, d2 + h), x[i], i - off + |d2|)
  {
    var rh := Take(MAX_POSTINGLIST_SIZE, d2 + h);
    var r, j := rd + d2 + rh, i - off;
    forall u | 0 <= u <= j - |rd| ensures rh[u] == x[off + |rd| + u] {
      assert rh[u] == (d2 + h)[u] == (rd + (d2 + h))[|rd| + u];
    }
    assert r[j + |d2|] == rh[j - |rd|] == x[i];
    if Descending(x) {
      forall q | 0 <= q < j + |d2| ensures r[q] != x[i] {
        if q < |rd| + |d2| {
          assert r[q] == (rd + (d2 + h))[q] == x[off + q];
        } else {
          var u := q - |rd| - |d2|;
          assert r[q] == rh[u] == x[off + |rd| + u];
        }
      }
    }
  }

  // ---------- the restarted list ----------

  /** Within the limit the history and the published tiers agree. */
  lemma HistIsPublished(s: State, k: Key, i: nat)
    requires KeyInv(s, k) && i < |Hist(s, k)| && i < MAX_POSTINGLIST_SIZE
    ensures i < |Published(s, k)| && Hist(s, k)[i] == Published(s, k)[i]
  {
    hide KeyInv, Front, Back, Hist;
    FrontThenBack(s, k);
    TakeMember(MAX_POSTINGLIST_SIZE, Front(s, k) + Back(s, k), Hist(s, k), i);
  }

  lemma WindowRecovered(s: State, k: Key, i: nat)
    requires Ownership(s) && Day2Window(s)
    requires Unwritten(s, k) <= i < |Published(s, k)| && i < MAX_POSTINGLIST_SIZE
    ensures FoundAt(Published(s, k), Recovered(s, k), Published(s, k)[i], RestartIndex(s, k, i))
  {
    hide Ownership, DayTier, Day2Tier, HisTier, RecoveredDay, RecoveredHis, Take, Day2Window, Published, FoundAt, DumpNamed, At, Mem1At;
    RecoveredParts(s, k);
    PublishedParts(s, k);
    WindowHidesDay2(s, k);
    var h, w := At(HisTier(s), k), At(Day2Tier(s), k);
    WindowFoundAt(At(s.mem0, k), Mem1At(s, k), At(DayTier(s), k), h, i);
    assert [] + h == h && [] + w + h == w + h;
  }

  lemma PlainRecovered(s: State, k: Key, i: nat)
    requires Ownership(s) && !Day2Window(s)
    requires Unwritten(s, k) <= i < |Published(s, k)| && i < MAX_POSTINGLIST_SIZE
    ensures FoundAt(Published(s, k), Recovered(s, k), Published(s, k)[i], RestartIndex(s, k, i))
  {
    hide Ownership, DayTier, Day2Tier, HisTier, RecoveredDay, RecoveredHis, Take, Day2Window, Published, FoundAt, DumpNamed, At, Mem1At;
    RecoveredParts(s, k);
    PublishedParts(s, k);
    PlainPublishedDay2(s);
    PlainFoundAt(At(s.mem0, k), Mem1At(s, k), At(DayTier(s), k), At(Day2Tier(s), k), At(HisTier(s), k),
                 DumpNamed(s), s.hisPc.HisCurSet?, i);
  }

  lemma WindowHidesDay2(s: State, k: Key)
    ensures Day2Window(s) ==> At(PublishedDay2(s), k) == []
  {
  }

  lemma PlainPublishedDay2(s: State)
    ensures !Day2Window(s) ==> PublishedDay2(s) == Day2Tier(s)
  {
  }

  /** What no directory holds is not found. */
  lemma UnwrittenIsLost(s: State, k: Key, i: nat)
    requires Ownership(s) && Descending(Published(s, k)) && i < Unwritten(s, k)
    ensures i < |Published(s, k)| && Published(s, k)[i] !in Recovered(s, k)
  {
    hide Ownership, DayTier, Day2Tier, HisTier, RecoveredDay, RecoveredHis, Day2Window, Published, DumpNamed, At, Mem1At, Descending;
    RecoveredParts(s, k);
    PublishedParts(s, k);
    var m0, m1, d, h := At(s.mem0, k), Mem1At(s, k), At(DayTier(s), k), At(HisTier(s), k);
    var rest := At(PublishedDay2(s), k) + h;
    var x, p := Published(s, k), Published(s, k)[i];
    PlainPublishedDay2(s);
    if Day2Window(s) || DumpNamed(s) {
      assert x == m0 + ((m1 + d) + rest);
      NotBehind(m0, (m1 + d) + rest, i);
      RecoveredInParts(s, k, (m1 + d) + rest);
    } else {
      assert x == (m0 + m1) + (d + rest);
      NotBehind(m0 + m1, d + rest, i);
      RecoveredInParts(s, k, d + rest);
    }
  }

  lemma NotBehind(a: seq<Posting>, b: seq<Posting>, i: nat)
    requires Descending(a + b) && i < |a|
    ensures a[i] == (a + b)[i] && a[i] !in b
  {
    NewerIsNotOlder(a, b, i, -1);
  }

  lemma RecoveredInParts(s: State, k: Key, rest: seq<Posting>)
    requires forall p :: p in At(RecoveredDay(s), k) || p in At(Day2Tier(s), k) || p in At(RecoveredHis(s), k) ==> p in rest
    ensures forall p :: p in Recovered(s, k) ==> p in rest
  {
  }

  /** Which postings a reader of the restarted index gets: the i-th newest of the history is among the
      newest MAX found if some directory holds it and it stands below the limit there; on disks that were in
      order, only then. */
  lemma RestartedReaderSeesIff(s: State, run: seq<Action>, k: Key, i: nat)
    requires Init(s) && Legal(s, run) && Below(At(s.base, k), s.lastId)
    requires i < |Hist(Exec(s, run), k)| && i < MAX_POSTINGLIST_SIZE
    ensures Ownership(Exec(s, run))
    ensures var t := Exec(s, run);
            var seen := Hist(t, k)[i] in Take(MAX_POSTINGLIST_SIZE, View(Restart(t), k));
            var inReach := i >= Unwritten(t, k) && RestartIndex(t, k, i) < MAX_POSTINGLIST_SIZE;
            (inReach ==> seen) && (seen && Descending(At(s.base, k)) ==> inReach)
  {
    hide Init, Ownership, KeyInv, View, Recovered, Restart, Published, Sorted, Below, Exec, Legal, Hist, RestartIndex, Unwritten, Take, FoundAt;
    var t := Exec(s, run);
    RunFromInit(s, run, k);
    RestartIsClean(s, run, k);
    HistIsPublished(t, k, i);
    if i >= Unwritten(t, k) {
      if Day2Window(t) {
        WindowRecovered(t, k, i);
      } else {
        PlainRecovered(t, k, i);
      }
      FirstAt(Published(t, k), Recovered(t, k), Hist(t, k)[i], RestartIndex(t, k, i), MAX_POSTINGLIST_SIZE);
    } else if Descending(At(s.base, k)) {
      UnwrittenIsLost(t, k, i);
      TakeIsPart(Recovered(t, k));
    }
  }

  lemma TakeIsPart(l: seq<Posting>)
    ensures forall p :: p in Take(MAX_POSTINGLIST_SIZE, l) ==> p in l
  {
  }

  lemma CoveredIsWritten(s: State, k: Key, i: nat)
    requires Ownership(s) && KeyAck(s, k) && Covered(s, k, i)
    ensures i >= Unwritten(s, k)
  {
    hide Ownership, DayTier, Day2Tier, HisTier, LogOf, At, Merge, SetFinish;
    RecoveredParts(s, k);
  }

  lemma NoRepeatsNoPush(s: State, k: Key, i: nat)
    requires Ownership(s) && NoRepeats(s, k) && i >= Unwritten(s, k)
    ensures 0 <= RestartIndex(s, k, i) <= i
  {
    hide Ownership, DayTier, Day2Tier, HisTier, RecoveredDay, RecoveredHis, At, Mem1At, Day2Window, DumpNamed;
    RecoveredParts(s, k);
  }

  /** Crash durability as a reader sees it: after any run with safe captures, everything the written check
      point covers is among the newest MAX postings a restarted reader gets, if no directory repeats a
      posting; and in general if none of it is pushed beyond the limit, on disks that were in order exactly
      then. */
  lemma CheckpointedMessagesAreRead(s: State, run: seq<Action>, k: Key)
    requires Init(s) && Legal(s, run) && SafeRun(s, run) && Below(At(s.base, k), s.lastId)
    ensures Ownership(Exec(s, run))
    ensures NoRepeats(Exec(s, run), k) ==> DurableForReaders(Exec(s, run), k)
    ensures var t := Exec(s, run);
            var inReach := forall i :: Covered(t, k, i) ==> RestartIndex(t, k, i) < MAX_POSTINGLIST_SIZE;
            (inReach ==> DurableForReaders(t, k)) && (DurableForReaders(t, k) && Descending(At(s.base, k)) ==> inReach)
  {
    hide Init, Ownership, KeyInv, KeyOrder, KeyAck, View, Restart, Sorted, Below, Exec, Legal, Hist, RestartIndex, Unwritten, Take, SafeRun, Covered, Acked;
    var t := Exec(s, run);
    RunFromInit(s, run, k);
    InitOwnership(s);
    InitAck(s, k);
    RunAck(s, run, k);
    AckedAll(t, k);
    forall i | Covered(t, k, i)
      ensures 0 <= i < |Hist(t, k)|
      ensures RestartIndex(t, k, i) < MAX_POSTINGLIST_SIZE ==> Hist(t, k)[i] in Take(MAX_POSTINGLIST_SIZE, View(Restart(t), k))
      ensures Hist(t, k)[i] in Take(MAX_POSTINGLIST_SIZE, View(Restart(t), k)) && Descending(At(s.base, k)) ==>
                RestartIndex(t, k, i) < MAX_POSTINGLIST_SIZE
      ensures NoRepeats(t, k) ==> RestartIndex(t, k, i) < MAX_POSTINGLIST_SIZE
    {
      CoveredRange(t, k, i);
      CoveredIsWritten(t, k, i);
      RestartedReaderSeesIff(s, run, k, i);
      if NoRepeats(t, k) {
        NoRepeatsNoPush(t, k, i);
      }
    }
  }

  lemma AckedAll(s: State, k: Key)
    requires KeyAck(s, k)
    ensures s.check <= |s.log| && Acked(s, s.check, k) <= |Hist(s, k)|
  {
  }

  lemma CoveredRange(s: State, k: Key, i: int)
    requires Covered(s, k, i)
    ensures 0 <= i < |Hist(s, k)| && i < MAX_POSTINGLIST_SIZE
  {
  }

  // ---------- a covered message that readers lose ----------

  /** A DAY that is already full for the term. */
  const FULL: seq<Posting> := seq(MAX_POSTINGLIST_SIZE, i requires 0 <= i < MAX_POSTINGLIST_SIZE => Posting(MAX_POSTINGLIST_SIZE - i, 0))
  const FULL_DAY: Tier := map[7 := FULL]
  const START := EMPTY.(day := [CLEARED, Disk(FULL_DAY, true), CLEARED], dayIdx := 1, curDay := 1,
                        lastId := MAX_POSTINGLIST_SIZE, base := FULL_DAY)
  const NEXT := Doc(MAX_POSTINGLIST_SIZE + 1, map[7 := 0])
  const NEW: Tier := map[7 := [Posting(MAX_POSTINGLIST_SIZE + 1, 0)]]

  lemma StartIsInit()
    ensures Init(START) && Descending(At(START.base, 7)) && Below(At(START.base, 7), START.lastId)
    ensures Legal(START, []) && Exec(START, []) == START
  {
    assert 7 in FULL_DAY;
  }

  lemma NextInserted() returns (run: seq<Action>)
    ensures Legal(START, run) && Exec(START, run) == START.(mem1 := Some(NEW), lastId := NEXT.id, log := [NEXT])
  {
    assert 7 in NEXT.terms && NEXT.terms.Keys == {7};
    StartIsInit();
    hide Legal, Exec, Merge, SetFinish;
    var s1 := START.(upd := UpdRunning(NEXT, {7}), lastId := NEXT.id);
    From(START, [], START, BeginDoc(NEXT), s1);
    InsertOnly(s1, NEXT);
    var s2 := s1.(mem0 := NEW, upd := UpdRunning(NEXT, {}));
    From(START, [] + [BeginDoc(NEXT)], s1, InsertTerm(7), s2);
    var s3 := s2.(mem0 := map[], mem1 := Some(NEW));
    From(START, [] + [BeginDoc(NEXT)] + [InsertTerm(7)], s2, SwapMem, s3);
    From(START, [] + [BeginDoc(NEXT)] + [InsertTerm(7)] + [SwapMem], s3, EndDoc, s3.(upd := UpdIdle, log := [NEXT]));
    run := [] + [BeginDoc(NEXT)] + [InsertTerm(7)] + [SwapMem] + [EndDoc];
  }

  lemma NextDumped() returns (run: seq<Action>, t: State)
    ensures Legal(START, run) && Exec(START, run) == t
    ensures t == START.(mem1 := Some(NEW), lastId := NEXT.id, log := [NEXT], dumpPos := 1, check := 1, canDump := false,
                        day := t.day, dayPc := DayChecked(false, 2))
    ensures |t.day| == 3 && t.day[1] == Disk(FULL_DAY, true) && t.day[2] == SetFinish(Merge(NEW, FULL_DAY))
  {
    var r := NextInserted();
    hide Legal, Exec, Merge, SetFinish;
    var s := START.(mem1 := Some(NEW), lastId := NEXT.id, log := [NEXT]);
    run := DumpUpToCheck(START, r, s, true);
    t := Dumped(s, true);
  }

  /** The history of the term: the new posting in front of the full list, all of it covered. */
  lemma NextCovered(t: State)
    requires t.log == [NEXT] && t.upd.UpdIdle? && t.base == FULL_DAY && t.check == 1
    ensures Hist(t, 7) == [Posting(NEXT.id, 0)] + FULL && Acked(t, 1, 7) == |Hist(t, 7)| && Covered(t, 7, 0)
  {
    assert 7 in NEXT.terms && 7 in FULL_DAY && t.log[..1] == t.log && t.log[..0] == [];
    assert LogOf(t.log, 7) == [Posting(NEXT.id, 0)] + [] == [Posting(NEXT.id, 0)];
    assert [] + ([Posting(NEXT.id, 0)] + FULL) == [Posting(NEXT.id, 0)] + FULL;
  }

  lemma NextRecovered(t: State)
    requires t.curDay == t.dayIdx == 1 && t.mem0 == map[] && t.mem1 == Some(NEW) && t.dayPc == DayChecked(false, 2)
    requires |t.day| == 3 && t.day[1] == Disk(FULL_DAY, true) && t.day[2] == SetFinish(Merge(NEW, FULL_DAY))
    ensures forall p :: p in [Posting(NEXT.id, 0)] + FULL ==> p in Recovered(t, 7)
    ensures RestartIndex(t, 7, 0) == MAX_POSTINGLIST_SIZE
  {
    hide Merge, SetFinish;
    MergeAt(NEW, FULL_DAY, 7);
    assert 7 in NEW && 7 in FULL_DAY;
    var w := Take(MAX_POSTINGLIST_SIZE, [Posting(NEXT.id, 0)] + FULL);
    assert w[0] == Posting(NEXT.id, 0) && At(Day2Tier(t), 7) == w && At(RecoveredDay(t), 7) == FULL;
  }

  /** The failing run: a term whose DAY is full, one more message, and a crash between the check point of its
      dump to day/2 and the publication, when `cur` still names that DAY. The message is covered and its
      posting is on disk, but no reader of the restarted index gets it. */
  lemma CoveredMessageIsHidden() returns (run: seq<Action>)
    ensures Init(START) && Legal(START, run) && Ownership(Exec(START, run))
    ensures var t := Exec(START, run);
            && Covered(t, 7, 0) && Hist(t, 7)[0] == Posting(NEXT.id, 0) && Durable(t, 7)
            && Posting(NEXT.id, 0) !in Take(MAX_POSTINGLIST_SIZE, View(Restart(t), 7)) && !DurableForReaders(t, 7)
  {
    var t;
    run, t := NextDumped();
    StartIsInit();
    hide Init, Ownership, View, Recovered, Restart, Sorted, Below, Exec, Legal, Hist, RestartIndex, Unwritten, Take, Acked, LogOf;
    NextCovered(t);
    NextRecovered(t);
    RestartedReaderSeesIff(START, run, 7, 0);
  }
}
