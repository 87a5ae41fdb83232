/** What a process finds when it starts again after a crash: an initial state of the machine, the order of
    its postings, and how much of what the check point covers a reader gets from it. */
module TierRestart {
  import opened Prelude
  import opened Tiers
  import opened TierRuns
  import opened TierOrder
  import opened TierDurability
  import opened TierHazards

  // ---------- restarting ----------

  function Reopened(d: Disk): Disk {
    if d.complete then d else CLEARED
  }

  /** The state a restarted process builds: memory is lost, the directories not named by a `cur`
      file are cleared, incomplete indexes are cleared, and the flags follow from day/2. */
  function Restart(s: State): State
    requires Ownership(s)
  {
    var day2 := Reopened(s.day[2]);
    var d, h := Reopened(s.day[s.curDay]), Reopened(s.his[s.curHis]);
    s.(mem0 := map[], mem1 := None,
       day := if s.curDay == 0 then [d, CLEARED, day2] else [CLEARED, d, day2],
       his := if s.curHis == 0 then [h, CLEARED] else [CLEARED, h],
       dayIdx := s.curDay, hisIdx := s.curHis,
       hisReady := day2.complete, canDump := !day2.complete,
       dumpPos := 0, check := 0, upd := UpdIdle, dayPc := DayIdle, hisPc := HisIdle, log := [],
       base := map k | k in RecoveredDay(s).Keys + Day2Tier(s).Keys + RecoveredHis(s).Keys :: Recovered(s, k))
  }

  predicate RestartBase(s: State, k: Key)
    requires Ownership(s)
  {
    var t := Restart(s);
    At(t.base, k) == At(DayTier(t), k) + At(Day2Tier(t), k) + At(HisTier(t), k)
  }

  lemma RestartView(s: State, k: Key)
    requires Ownership(s)
    ensures View(Restart(s), k) == Recovered(s, k) == At(Restart(s).base, k) && RestartBase(s, k)
  {
    hide Merge, SetFinish, DayProgress, HisProgress;
    var t := Restart(s);
    assert DayTier(t) == RecoveredDay(s) && Day2Tier(t) == Day2Tier(s) && HisTier(t) == RecoveredHis(s);
    assert At(t.base, k) == Recovered(s, k);
    assert [] + [] + At(DayTier(t), k) == At(DayTier(t), k);
  }

  lemma RestartInit(s: State)
    requires Ownership(s) && forall k :: RestartBase(s, k)
    ensures Init(Restart(s))
  {
    hide Merge, SetFinish, DayProgress, HisProgress;
  }

  /** A crash after any step leaves disks from which an initial state starts again, with exactly the
      postings that were recovered and none above the last id given out. Whether they are in order,
      RestartOrderIff decides. */
  lemma RestartIsClean(s: State, run: seq<Action>, k: Key)
    requires Init(s) && Legal(s, run)
    ensures Ownership(Exec(s, run))
    ensures var t := Restart(Exec(s, run)); Init(t) && View(t, k) == Recovered(Exec(s, run), k) == At(t.base, k)
    ensures Below(At(s.base, k), s.lastId) ==> Below(At(Restart(Exec(s, run)).base, k), Restart(Exec(s, run)).lastId)
  {
    hide Init, Ownership, View, Recovered, Restart, RestartBase, Below;
    InitInv(s);
    RunInv(s, run);
    var t := Exec(s, run);
    RestartView(t, k);
    forall x ensures RestartBase(t, x) {
      RestartView(t, x);
    }
    RestartInit(t);
    if Below(At(s.base, k), s.lastId) {
      RunFromInit(s, run, k);
      RecoveredBelow(t, k, s.lastId);
      SameLastId(t);
    }
  }

  lemma SameLastId(s: State)
    requires Ownership(s)
    ensures Restart(s).lastId == s.lastId
  {
    hide Merge, SetFinish, DayProgress, HisProgress, Recovered;
  }

  lemma RecoveredBelow(s: State, k: Key, bound: int)
    requires Ownership(s) && KeyOrder(s, k, bound)
    ensures Below(Recovered(s, k), s.lastId)
  {
    hide Ownership, Recovered, Sorted, Above, Mem1At, Back;
    RecoveredIsOlder(s, k);
    var all, r := Published(s, k), Recovered(s, k);
    assert all == At(s.mem0, k) + (Mem1At(s, k) + Back(s, k));
    forall i | 0 <= i < |r| ensures r[i].id <= s.lastId {
      assert r[i] in r && r[i] in Mem1At(s, k) + Back(s, k);
      assert r[i] in all;
    }
  }

  // ---------- the order of what is found ----------

  /** No directory found again repeats a posting of another: a dump to day/2 that was finished but not
      published must not meet the DAY it contains, nor a merged history the day/2 it contains. */
  predicate NoRepeats(s: State, k: Key) {
    && (Day2Window(s) ==> At(RecoveredDay(s), k) == [])
    && (s.hisPc.HisCurSet? ==> At(Day2Tier(s), k) == [])
  }

  lemma SortedPart(a: seq<Posting>, b: seq<Posting>, c: seq<Posting>)
    requires Descending(a + b + c)
    ensures Descending(b) && Descending(b + c) && Descending(a + b)
  {
    assert forall i :: 0 <= i < |b + c| ==> (b + c)[i] == (a + b + c)[|a| + i];
    assert forall i :: 0 <= i < |b| ==> b[i] == (a + b + c)[|a| + i];
    assert forall i :: 0 <= i < |a + b| ==> (a + b)[i] == (a + b + c)[i];
  }

  lemma TwiceIsUnordered(x: seq<Posting>, i: nat, j: nat)
    requires i < j < |x| && x[i].id <= x[j].id
    ensures !Descending(x)
  {
  }

  /** The order found after a crash in the day/2 window. */
  lemma WindowOrder(m0: seq<Posting>, m1: seq<Posting>, d: seq<Posting>, h: seq<Posting>, rd: seq<Posting>)
    requires Descending(m0 + (m1 + d) + h) && (rd == d || rd == [])
    ensures Descending(rd + Take(MAX_POSTINGLIST_SIZE, m1 + d) + h) <==> rd == []
  {
    var w := Take(MAX_POSTINGLIST_SIZE, m1 + d);
    if rd == [] {
      hide Descending;
      assert m0 + (m1 + d) + h == m0 + (m1 + d) + h + [];
      OrderTakeDescending(m0, m1 + d, h);
      SortedPart(m0, w, h);
      assert rd + w + h == w + h;
    } else {
      SortedPart(m0, m1 + d, h);
      assert w[0] == (m1 + d)[0];
      assert (m1 + d)[|m1|] == d[0];
      TwiceIsUnordered(rd + w + h, 0, |rd|);
    }
  }

  lemma OrderTakeDescending(a: seq<Posting>, b: seq<Posting>, c: seq<Posting>)
    requires Descending(a + b + c)
    ensures Descending(a + Take(MAX_POSTINGLIST_SIZE, b) + c)
  {
    var all := a + b + c;
    var top := if all == [] then 0 else all[0].id;
    assert Below(all, top);
    OrderTake(a, b, c, -1, top);
  }

  /** And at any other moment; `moved` says that the history's `cur` already names the merged one. */
  lemma PlainOrder(m0: seq<Posting>, m1: seq<Posting>, d: seq<Posting>, d2: seq<Posting>, h: seq<Posting>,
                   rd: seq<Posting>, moved: bool)
    requires Descending(m0 + (m1 + d) + (d2 + h))
    requires rd == d || rd == Take(MAX_POSTINGLIST_SIZE, m1 + d)
    ensures Descending(rd + d2 + if moved then Take(MAX_POSTINGLIST_SIZE, d2 + h) else h) <==> moved ==> d2 == []
  {
    var rh := if moved then Take(MAX_POSTINGLIST_SIZE, d2 + h) else h;
    if moved && d2 != [] {
      assert rh[0] == d2[0];
      TwiceIsUnordered(rd + d2 + rh, |rd|, |rd| + |d2|);
    } else {
      hide Descending;
      PlainDay(m0, m1, d, d2 + h, rd);
      if moved {
        assert rd + (d2 + h) == rd + (d2 + h) + [];
        OrderTakeDescending(rd, d2 + h, []);
        assert rd + rh + [] == rd + d2 + rh;
      } else {
        assert rd + (d2 + h) == rd + d2 + rh;
      }
    }
  }

  lemma PlainDay(m0: seq<Posting>, m1: seq<Posting>, d: seq<Posting>, rest: seq<Posting>, rd: seq<Posting>)
    requires Descending(m0 + (m1 + d) + rest)
    requires rd == d || rd == Take(MAX_POSTINGLIST_SIZE, m1 + d)
    ensures Descending(rd + rest)
  {
    hide Descending;
    if rd == d {
      assert m0 + (m1 + d) + rest == (m0 + m1) + d + rest;
      SortedPart(m0 + m1, d, rest);
    } else {
      OrderTakeDescending(m0, m1 + d, rest);
      SortedPart(m0, rd, rest);
    }
  }

  lemma PublishedParts(s: State, k: Key)
    ensures var m0, m1, d, d2, h := At(s.mem0, k), Mem1At(s, k), At(DayTier(s), k), At(PublishedDay2(s), k), At(HisTier(s), k);
            Published(s, k) == m0 + (m1 + d) + (d2 + h)
  {
    hide At, DayTier, PublishedDay2, HisTier, Mem1At;
    var m0, m1, d, d2, h := At(s.mem0, k), Mem1At(s, k), At(DayTier(s), k), At(PublishedDay2(s), k), At(HisTier(s), k);
    DayCutSeqs(m0, m1, d, d2, h, Take(MAX_POSTINGLIST_SIZE, m1 + d), d2);
  }

  lemma RecoveredOrder(s: State, k: Key)
    requires Ownership(s) && Descending(Published(s, k))
    ensures Descending(Recovered(s, k)) <==> NoRepeats(s, k)
  {
    hide Ownership, Descending, DayTier, Day2Tier, HisTier, RecoveredDay, RecoveredHis, Take, Day2Window, Published;
    RecoveredParts(s, k);
    PublishedParts(s, k);
    WindowHasIdleHis(s);
    var m0, m1, d, h := At(s.mem0, k), Mem1At(s, k), At(DayTier(s), k), At(HisTier(s), k);
    if Day2Window(s) {
      assert [] + h == h;
      WindowOrder(m0, m1, d, h, At(RecoveredDay(s), k));
    } else {
      PlainOrder(m0, m1, d, At(Day2Tier(s), k), h, At(RecoveredDay(s), k), s.hisPc.HisCurSet?);
    }
  }

  lemma WindowHasIdleHis(s: State)
    requires Ownership(s)
    ensures Day2Window(s) ==> s.hisPc.HisIdle?
  {
    hide Merge, SetFinish, DayProgress, HisProgress, Visible;
  }

  /** The order after a crash: on disks that were in order, a restart after any run finds a term's postings
      in order if and only if no directory repeats them. */
  lemma RestartOrderIff(s: State, run: seq<Action>, k: Key)
    requires Init(s) && Legal(s, run) && Descending(At(s.base, k)) && Below(At(s.base, k), s.lastId)
    ensures Ownership(Exec(s, run))
    ensures Descending(View(Restart(Exec(s, run)), k)) <==> NoRepeats(Exec(s, run), k)
  {
    hide Init, Ownership, KeyInv, View, Recovered, Restart, NoRepeats, Published, Sorted, Below, Exec, Legal;
    RunFromInit(s, run, k);
    RestartIsClean(s, run, k);
    RecoveredOrder(Exec(s, run), k);
  }

  // ---------- many lives ----------

  /** The state the process starts from after a run and a crash. */
  function NextLife(s: State, run: seq<Action>): (t: State)
    requires Init(s) && Legal(s, run)
    ensures Init(t)
  {
    RestartIsClean(s, run, 0);
    Restart(Exec(s, run))
  }

  /** The runs of a process that crashes after each of them. */
  ghost predicate Lives(s: State, runs: seq<seq<Action>>)
    requires Init(s)
    decreases |runs|
  {
    runs == [] || (Legal(s, runs[0]) && Lives(NextLife(s, runs[0]), runs[1..]))
  }

  ghost function LastStart(s: State, runs: seq<seq<Action>>): (t: State)
    requires Init(s) && Lives(s, runs)
    ensures Init(t)
    decreases |runs|
  {
    if runs == [] then s else LastStart(NextLife(s, runs[0]), runs[1..])
  }

  /** No crash of the term's history comes at a moment at which a directory repeats its postings. */
  ghost predicate NeverRepeats(s: State, runs: seq<seq<Action>>, k: Key)
    requires Init(s) && Lives(s, runs)
    decreases |runs|
  {
    runs == [] || (NoRepeats(Exec(s, runs[0]), k) && NeverRepeats(NextLife(s, runs[0]), runs[1..], k))
  }

  /** Through any number of crashes, each term's postings stay in order if no crash repeats some. */
  lemma {:induction false} OrderThroughLives(s: State, runs: seq<seq<Action>>, k: Key)
    requires Init(s) && Lives(s, runs) && Below(At(s.base, k), s.lastId)
    ensures var t := LastStart(s, runs); Below(At(t.base, k), t.lastId)
    ensures Descending(At(s.base, k)) && NeverRepeats(s, runs, k) ==> Descending(At(LastStart(s, runs).base, k))
    decreases |runs|
  {
    hide Init, Ownership, View, Restart, NoRepeats, Sorted, Below, Exec, Legal;
    if runs != [] {
      RestartIsClean(s, runs[0], k);
      if Descending(At(s.base, k)) {
        RestartOrderIff(s, runs[0], k);
      }
      OrderThroughLives(NextLife(s, runs[0]), runs[1..], k);
    }
  }

  // ---------- a restart that repeats ----------

  lemma MergeOnes()
    ensures SetFinish(Merge(ONE, map[])) == Disk(ONE, true)
    ensures SetFinish(Merge(TWO, ONE)) == Disk(map[7 := [Posting(2, 0), Posting(1, 0)]], true)
  {
    assert 7 in ONE && 7 in TWO;
    assert [Posting(1, 0)] + [] == [Posting(1, 0)];
    assert [Posting(2, 0)] + [Posting(1, 0)] == [Posting(2, 0), Posting(1, 0)];
    assert Merge(ONE, map[]) == ONE;
    assert Merge(TWO, ONE) == map[7 := [Posting(2, 0), Posting(1, 0)]];
  }

  /** The first message is dumped to day/1 and published. */
  lemma FirstDumped() returns (run: seq<Action>)
    ensures Legal(EMPTY, run)
    ensures Exec(EMPTY, run)
         == EMPTY.(lastId := 1, log := [DOC1], dumpPos := 1, check := 1, curDay := 1, dayIdx := 1,
                   day := [CLEARED, Disk(ONE, true), CLEARED])
  {
    var r := FirstSwapped();
    MergeOnes();
    hide Legal, Exec, Merge, SetFinish;
    var s := EMPTY.(mem1 := Some(ONE), lastId := 1, log := [DOC1]);
    var r1 := DumpUpToCheck(EMPTY, r, s, false);
    var s1 := Dumped(s, false);
    assert s1.day == [CLEARED, Disk(ONE, true), CLEARED];
    From(EMPTY, r1, s1, DayPublish, DayPublished(s1));
    run := r1 + [DayPublish];
  }

  /** The second message is on its way to day/2: index, `cur` and check point are written. */
  lemma SecondInWindow() returns (run: seq<Action>)
    ensures Legal(EMPTY, run)
    ensures Exec(EMPTY, run)
         == EMPTY.(mem1 := Some(TWO), lastId := 2, log := [DOC1, DOC2], dumpPos := 2, check := 2, curDay := 1, dayIdx := 1,
                   day := [CLEARED, Disk(ONE, true), Disk(map[7 := [Posting(2, 0), Posting(1, 0)]], true)],
                   canDump := false, dayPc := DayChecked(false, 2))
  {
    var r := FirstDumped();
    MergeOnes();
    hide Legal, Exec, Merge, SetFinish;
    var s := Exec(EMPTY, r);
    var r1 := InsertSecond(r, s);
    var s1 := s.(mem0 := TWO, upd := UpdRunning(DOC2, {}), lastId := 2);
    var s2 := s1.(mem0 := map[], mem1 := Some(TWO));
    From(EMPTY, r1, s1, SwapMem, s2);
    var s3 := s2.(upd := UpdIdle, log := [DOC1, DOC2]);
    From(EMPTY, r1 + [SwapMem], s2, EndDoc, s3);
    run := DumpUpToCheck(EMPTY, r1 + [SwapMem] + [EndDoc], s3, true);
    assert Dumped(s3, true).day == [CLEARED, Disk(ONE, true), Disk(map[7 := [Posting(2, 0), Posting(1, 0)]], true)];
  }

  /** The failing run: the process dies between the check point of a dump to day/2 and its publication. The
      restarted index lists the first message twice, out of order; both messages are covered. */
  lemma CrashInWindowRepeats() returns (run: seq<Action>)
    ensures Init(EMPTY) && Legal(EMPTY, run) && Ownership(Exec(EMPTY, run)) && Exec(EMPTY, run).check == 2
    ensures View(Restart(Exec(EMPTY, run)), 7) == [Posting(1, 0), Posting(2, 0), Posting(1, 0)]
    ensures !Descending(View(Restart(Exec(EMPTY, run)), 7))
  {
    NoSteps();
    run := SecondInWindow();
    var t := Exec(EMPTY, run);
    var l := [Posting(1, 0)] + [Posting(2, 0), Posting(1, 0)] + [];
    assert 7 in ONE && Recovered(t, 7) == l == [Posting(1, 0), Posting(2, 0), Posting(1, 0)];
    hide Legal, Exec, Restart, Recovered, Init, View, Ownership;
    RestartIsClean(EMPTY, run, 7);
    TwiceIsUnordered(l, 0, 1);
  }
}
