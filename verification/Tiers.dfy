/** The tiered inverted index as a state machine over its atomic steps.

    Slots, newest to oldest: MEM0, MEM1, DAY, DAY2, HIS. Three threads act on them: the update
    thread (`set_posting_list`), the day merger (`update_day_indexer`) and the history merger
    (`update_his_indexer`). A step is one critical section, or one externally visible effect
    between two of them: a finished disk index, a rewritten `cur` file, a rewritten check point.
    A run is any interleaving of steps; a crash may follow any step. */
module Tiers {
  import opened Prelude

  const MAX_POSTINGLIST_SIZE: nat := 1000000

  /** A term, identified by its 64-bit signature. */
  type Key = nat

  datatype Posting = Posting(id: nat, info: nat)

  /** What one indexer holds: the newest-first postings of every term it knows. */
  type Tier = map<Key, seq<Posting>>

  function At(t: Tier, k: Key): seq<Posting> {
    if k in t then t[k] else []
  }

  /** The map `merger` writes: all terms of both sources, newer postings first, cut at the limit. */
  function Merge(newer: Tier, older: Tier): Tier {
    map k | k in newer.Keys + older.Keys :: Take(MAX_POSTINGLIST_SIZE, At(newer, k) + At(older, k))
  }

  /** A disk index. It answers reads, and survives a restart, only once `set_finish` completed it. */
  datatype Disk = Disk(rows: Tier, complete: bool)

  const CLEARED := Disk(map[], false)

  function Visible(d: Disk): Tier {
    if d.complete then d.rows else map[]
  }

  /** `set_finish` leaves an index without a single term unreadable. */
  function SetFinish(rows: Tier): Disk {
    Disk(rows, rows != map[])
  }

  /** A message with terms: its inner id and the description stored with each term. */
  datatype Doc = Doc(id: nat, terms: map<Key, nat>)

  function PostingsOf(doc: Doc, k: Key): seq<Posting> {
    if k in doc.terms then [Posting(doc.id, doc.terms[k])] else []
  }

  /** All postings of a term over a sequence of accepted messages, newest first. */
  function LogOf(log: seq<Doc>, k: Key): seq<Posting> {
    if log == [] then [] else PostingsOf(log[|log| - 1], k) + LogOf(log[..|log| - 1], k)
  }

  /** The update thread: idle, inserting a message, about to wait because it saw MEM1 taken, or blocked
      until MEM1 is free. It holds the mutex while running and until it waits. */
  datatype Updater =
    | UpdIdle
    | UpdRunning(doc: Doc, pending: set<Key>)
    | UpdChecked(doc: Doc, pending: set<Key>)
    | UpdWaiting(doc: Doc, pending: set<Key>, signalled: bool)

  /** The day merger. `timed` records that its wait ended by timeout; `dst` is its target, 0, 1 or 2. */
  datatype DayMerger =
    | DayIdle
    | DayCaptured(timed: bool)
    | DayMerging(timed: bool, dst: nat, src1: Tier, src2: Tier)
    | DayWritten(timed: bool, dst: nat)
    | DayCurSet(timed: bool, dst: nat)
    | DayChecked(timed: bool, dst: nat)

  datatype HisMerger =
    | HisIdle
    | HisMerging(dst: nat, src1: Tier, src2: Tier)
    | HisWritten(dst: nat)
    | HisCurSet(dst: nat)

  /** Positions in the message queue are counted in accepted messages, so the queue position
      kept in memory is |log|. `curDay`, `curHis` and `check` are the files read after a crash.
      `log` and `base` (what the disk tiers held at start) record the history of the run. */
  datatype State = State(
    mem0: Tier, mem1: Option<Tier>, day: seq<Disk>, his: seq<Disk>,
    dayIdx: nat, hisIdx: nat, hisReady: bool, canDump: bool, dumpPos: nat,
    curDay: nat, curHis: nat, check: nat,
    upd: Updater, dayPc: DayMerger, hisPc: HisMerger,
    lastId: nat, log: seq<Doc>, base: Tier)

  datatype Action =
    | BeginDoc(doc: Doc) | InsertTerm(k: Key) | SwapMem | CheckMem1 | WaitForMem1 | Wake(spurious: bool) | EndDoc
    | DayCapture(timed: bool) | DayBegin(toDay2: bool) | DayFinish | DaySetCur | DaySetCheck | DayPublish
    | HisBegin | HisFinish | HisSetCur | HisPublish

  // ---------- the tiers a reader and a restart see ----------

  function Mem1At(s: State, k: Key): seq<Posting> {
    if s.mem1.Some? then At(s.mem1.value, k) else []
  }

  function DayTier(s: State): Tier {
    if s.dayIdx < |s.day| then Visible(s.day[s.dayIdx]) else map[]
  }

  function Day2Tier(s: State): Tier {
    if 2 < |s.day| then Visible(s.day[2]) else map[]
  }

  function HisTier(s: State): Tier {
    if s.hisIdx < |s.his| then Visible(s.his[s.hisIdx]) else map[]
  }

  /** The concatenation of all five slots, which is what a reader with a large buffer collects. */
  function View(s: State, k: Key): seq<Posting> {
    At(s.mem0, k) + Mem1At(s, k) + At(DayTier(s), k) + At(Day2Tier(s), k) + At(HisTier(s), k)
  }

  function InFlight(u: Updater, k: Key): seq<Posting> {
    if u.UpdIdle? || k in u.pending then [] else PostingsOf(u.doc, k)
  }

  /** The postings of accepted messages, behind them what was on disk at start. */
  function Past(s: State, k: Key): seq<Posting> {
    LogOf(s.log, k) + At(s.base, k)
  }

  /** Every posting inserted so far, newest first: the specification of the whole structure. */
  function Hist(s: State, k: Key): seq<Posting> {
    InFlight(s.upd, k) + Past(s, k)
  }

  predicate ToDay2(s: State) {
    match s.dayPc
    case DayIdle => false
    case DayCaptured(_) => false
    case DayMerging(_, dst, _, _) => dst == 2
    case DayWritten(_, dst) => dst == 2
    case DayCurSet(_, dst) => dst == 2
    case DayChecked(_, dst) => dst == 2
  }

  /** A dump to day/2 is readable but not yet published: MEM1 and DAY are still in the list too. */
  predicate Day2Window(s: State) {
    ToDay2(s) && !s.dayPc.DayMerging?
  }

  // ---------- the steps ----------

  predicate Enabled(s: State, a: Action) {
    match a
    case BeginDoc(doc) => s.upd.UpdIdle? && doc.id > s.lastId && doc.terms != map[]
    case InsertTerm(k) => s.upd.UpdRunning? && k in s.upd.pending
    case SwapMem => s.upd.UpdRunning? && s.mem1.None?
    case CheckMem1 => s.upd.UpdRunning? && s.mem1.Some?
    case WaitForMem1 => s.upd.UpdChecked?
    case Wake(spurious) => s.upd.UpdWaiting? && (spurious || s.upd.signalled)
    case EndDoc => s.upd.UpdRunning? && s.upd.pending == {}
    case DayCapture(timed) =>
      s.dayPc.DayIdle? && (s.upd.UpdIdle? || s.upd.UpdWaiting?) && (if timed then s.mem0 != map[] && s.mem1.None? else s.mem1.Some?)
    case DayBegin(toDay2) =>
      s.dayPc.DayCaptured? && |s.day| == 3 && s.dayIdx < 2 && s.mem1.Some? && (toDay2 ==> s.canDump)
    case DayFinish => s.dayPc.DayMerging? && s.dayPc.dst < |s.day|
    case DaySetCur => s.dayPc.DayWritten?
    case DaySetCheck => s.dayPc.DayCurSet?
    case DayPublish => s.dayPc.DayChecked? && s.dayIdx < |s.day|
    case HisBegin =>
      s.hisPc.HisIdle? && |s.his| == 2 && s.hisIdx < 2 && s.hisReady && |s.day| == 3 && s.day[2].complete
    case HisFinish => s.hisPc.HisMerging? && s.hisPc.dst < |s.his|
    case HisSetCur => s.hisPc.HisWritten?
    case HisPublish => s.hisPc.HisCurSet? && s.hisIdx < |s.his| && |s.day| == 3
  }

  function Apply(s: State, a: Action): State
    requires Enabled(s, a)
  {
    match a
    case BeginDoc(doc) => s.(upd := UpdRunning(doc, doc.terms.Keys), lastId := doc.id)
    case InsertTerm(k) => Inserted(s, s.upd.doc, s.upd.pending, k)
    case SwapMem => Swapped(s)
    case CheckMem1 => s.(upd := UpdChecked(s.upd.doc, s.upd.pending))
    case WaitForMem1 => s.(upd := UpdWaiting(s.upd.doc, s.upd.pending, false))
    case Wake(_) => s.(upd := UpdRunning(s.upd.doc, s.upd.pending))
    case EndDoc => s.(upd := UpdIdle, log := s.log + [s.upd.doc])
    case DayCapture(timed) =>
      (if timed then Swapped(s) else s).(dumpPos := |s.log|, dayPc := DayCaptured(timed))
    case DayBegin(toDay2) => DayBegun(s, toDay2)
    case DayFinish => DayFinished(s)
    case DaySetCur =>
      s.(curDay := if s.dayPc.dst == 0 then 0 else 1, dayPc := DayCurSet(s.dayPc.timed, s.dayPc.dst))
    case DaySetCheck => s.(check := s.dumpPos, dayPc := DayChecked(s.dayPc.timed, s.dayPc.dst))
    case DayPublish => DayPublished(s)
    case HisBegin => HisBegun(s)
    case HisFinish => HisFinished(s)
    case HisSetCur => s.(curHis := s.hisPc.dst, hisPc := HisCurSet(s.hisPc.dst))
    case HisPublish => HisPublished(s)
  }

  /** One term of a message enters MEM0, in front of the term's older postings. */
  function Inserted(s: State, doc: Doc, pending: set<Key>, k: Key): State {
    s.(mem0 := s.mem0[k := PostingsOf(doc, k) + At(s.mem0, k)], upd := UpdRunning(doc, pending - {k}))
  }

  function DayBegun(s: State, toDay2: bool): State
    requires Enabled(s, DayBegin(toDay2))
  {
    var dst := if toDay2 then 2 else 1 - s.dayIdx;
    s.(canDump := s.canDump && !toDay2,
       day := s.day[dst := CLEARED],
       dayPc := DayMerging(s.dayPc.timed, dst, s.mem1.value, DayTier(s)))
  }

  function DayFinished(s: State): State
    requires Enabled(s, DayFinish)
  {
    s.(day := s.day[s.dayPc.dst := SetFinish(Merge(s.dayPc.src1, s.dayPc.src2))],
       dayPc := DayWritten(s.dayPc.timed, s.dayPc.dst))
  }

  /** The write-locked tail of `update_day_indexer`. A timed dump does not signal. */
  function DayPublished(s: State): State
    requires Enabled(s, DayPublish)
  {
    var dst := s.dayPc.dst;
    s.(mem1 := None,
       day := s.day[s.dayIdx := CLEARED],
       hisReady := s.hisReady || dst == 2,
       dayIdx := if dst == 2 then s.dayIdx else dst,
       upd := if s.dayPc.timed then s.upd else Signal(s.upd),
       dayPc := DayIdle)
  }

  function HisBegun(s: State): State
    requires Enabled(s, HisBegin)
  {
    var dst := 1 - s.hisIdx;
    s.(his := s.his[dst := CLEARED], hisPc := HisMerging(dst, Day2Tier(s), HisTier(s)))
  }

  function HisFinished(s: State): State
    requires Enabled(s, HisFinish)
  {
    s.(his := s.his[s.hisPc.dst := SetFinish(Merge(s.hisPc.src1, s.hisPc.src2))],
       hisPc := HisWritten(s.hisPc.dst))
  }

  /** The write-locked tail of `update_his_indexer`. */
  function HisPublished(s: State): State
    requires Enabled(s, HisPublish)
  {
    s.(day := s.day[2 := CLEARED],
       his := s.his[s.hisIdx := CLEARED],
       hisIdx := s.hisPc.dst, hisReady := false, canDump := true, hisPc := HisIdle)
  }

  /** `_swap_mem_indexer`: MEM0 becomes MEM1 and a fresh MEM0 takes its place. */
  function Swapped(s: State): State {
    s.(mem1 := Some(s.mem0), mem0 := map[])
  }

  /** `pthread_cond_signal` wakes the update thread only if it is waiting at that moment. The publication
      does not hold the mutex, so it may come between the thread's check of MEM1 and its wait. */
  function Signal(u: Updater): Updater {
    if u.UpdWaiting? then u.(signalled := true) else u
  }

  // ---------- runs ----------

  predicate Legal(s: State, run: seq<Action>)
    decreases |run|
  {
    run == [] || (Enabled(s, run[0]) && Legal(Apply(s, run[0]), run[1..]))
  }

  function Exec(s: State, run: seq<Action>): State
    requires Legal(s, run)
    decreases |run|
  {
    if run == [] then s else Exec(Apply(s, run[0]), run[1..])
  }

  /** A legal run may be continued by any step its last state enables. */
  lemma {:induction false} Snoc(s: State, run: seq<Action>, a: Action)
    requires Legal(s, run) && Enabled(Exec(s, run), a)
    ensures Legal(s, run + [a]) && Exec(s, run + [a]) == Apply(Exec(s, run), a)
    decreases |run|
  {
    if run == [] {
      assert Legal(Apply(s, a), []);
      assert run + [a] == [a] && [a][1..] == [];
    } else {
      Snoc(Apply(s, run[0]), run[1..], a);
      assert (run + [a])[1..] == run[1..] + [a];
    }
  }

  lemma Extend(s: State, run: seq<Action>, t: State, a: Action)
    requires Legal(s, run) && Exec(s, run) == t && Enabled(t, a)
    ensures Legal(s, run + [a]) && Exec(s, run + [a]) == Apply(t, a)
  {
    Snoc(s, run, a);
  }

  /** The state the constructor builds from what it finds on disk. */
  ghost predicate Init(s: State) {
    && |s.day| == 3 && |s.his| == 2 && s.dayIdx < 2 && s.hisIdx < 2
    && s.mem0 == map[] && s.mem1.None?
    && s.curDay == s.dayIdx && s.curHis == s.hisIdx
    && !s.day[1 - s.dayIdx].complete && !s.his[1 - s.hisIdx].complete
    && s.hisReady == s.day[2].complete && s.canDump == !s.day[2].complete
    && s.check == 0 && s.dumpPos == 0 && s.log == []
    && s.upd.UpdIdle? && s.dayPc.DayIdle? && s.hisPc.HisIdle?
    && (forall k :: At(s.base, k) == At(DayTier(s), k) + At(Day2Tier(s), k) + At(HisTier(s), k))
  }
}
