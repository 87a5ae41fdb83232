/** Delivery of queue messages to the index: the sender's retry loop against the receiver's check of
    positions. Only subscribed messages count; they are numbered in queue order. */
module Delivery {
  import opened Prelude

  // ---------- the protocol as a state machine ----------

  /** `next` is the number of the message the receiver should apply next, `cur` the number of the one
      the sender holds, `applied` what has been applied since the receiver started. */
  datatype State = State(next: nat, needRollBack: bool, cur: nat, applied: seq<nat>)

  /** What happens to a reply: it arrives, it is lost although sending it succeeded, or sending fails. */
  datatype Fate = Arrives | Vanishes | Fails

  datatype Event =
    | RequestLost
    | Exchange(fate: Fate)
    | HandlerFails
    | SenderRestarts(at: nat)

  /** One round of both loops. */
  function Step(s: State, e: Event): State {
    match e
    case RequestLost => s
    case HandlerFails => s
    case SenderRestarts(at) => s.(cur := at)
    case Exchange(fate) =>
      if s.needRollBack then RolledBack(s, fate)
      else if s.cur < s.next then s.(needRollBack := true)
      else
        var done := s.(next := s.cur + 1, applied := s.applied + [s.cur]);
        if fate.Arrives? then done.(cur := s.cur + 1) else done
  }

  /** The reply asks the sender to continue behind the last applied message. */
  function RolledBack(s: State, fate: Fate): State {
    match fate
    case Arrives => s.(needRollBack := false, cur := s.next)
    case Vanishes => s.(needRollBack := false)
    case Fails => s
  }

  function Run(s: State, es: seq<Event>): State
    decreases |es|
  {
    if es == [] then s else Step(Run(s, es[..|es| - 1]), es[|es| - 1])
  }

  /** A receiver that has just started at its check point. */
  predicate Started(s: State, from: nat) {
    s.next == from && s.needRollBack && s.applied == []
  }

  /** The numbers from, from + 1, ... without a gap. */
  predicate GapFree(applied: seq<nat>, from: nat) {
    forall i :: 0 <= i < |applied| ==> applied[i] == from + i
  }

  /** The next message applied can only be the right one. */
  predicate Safe(s: State) {
    s.needRollBack || s.cur <= s.next
  }

  predicate Consistent(s: State, from: nat) {
    GapFree(s.applied, from) && s.next == from + |s.applied|
  }

  /** The event cannot put the sender beyond the next message unnoticed. Requests and OK replies may be
      lost freely; a roll back may vanish, and the sender may restart, only while the sender does not
      stand beyond the message the receiver needs. */
  predicate Reliable(s: State, e: Event) {
    && (e == Exchange(Vanishes) && s.needRollBack ==> s.cur <= s.next)
    && (e.SenderRestarts? && !s.needRollBack ==> e.at <= s.next)
  }

  predicate ReliableRun(s: State, es: seq<Event>)
    decreases |es|
  {
    es == [] || (ReliableRun(s, es[..|es| - 1]) && Reliable(Run(s, es[..|es| - 1]), es[|es| - 1]))
  }

  /** Applied messages and counters always agree; whether the next state is safe, the guard decides. */
  lemma StepKeeps(s: State, e: Event, from: nat)
    requires Safe(s) && Consistent(s, from)
    ensures Consistent(Step(s, e), from) && (Safe(Step(s, e)) <==> Reliable(s, e))
  {
  }

  /** From any safe state, every reliable run applies messages without a gap. */
  lemma {:induction false} RunKeeps(s: State, es: seq<Event>, from: nat)
    requires Safe(s) && Consistent(s, from) && ReliableRun(s, es)
    ensures Safe(Run(s, es)) && Consistent(Run(s, es), from)
    decreases |es|
  {
    if es != [] {
      RunKeeps(s, es[..|es| - 1], from);
      StepKeeps(Run(s, es[..|es| - 1]), es[|es| - 1], from);
    }
  }

  /** Gap-free delivery: whatever requests and OK replies are lost, and whatever roll backs vanish and
      senders restart within the guard of `Reliable`, the messages applied after a start are a
      contiguous run of the queue from the check point. */
  lemma DeliveredWithoutGap(s: State, es: seq<Event>, from: nat)
    requires Started(s, from) && ReliableRun(s, es)
    ensures GapFree(Run(s, es).applied, from) && Run(s, es).next == from + |Run(s, es).applied|
  {
    RunKeeps(s, es, from);
  }

  predicate RunsGapFree(s: State, es: seq<Event>, from: nat) {
    ReliableRun(s, es) ==> GapFree(Run(s, es).applied, from)
  }

  /** Safety is exactly what gap-freedom of all continuations needs: from an unsafe state a single
      ordinary exchange skips messages. */
  lemma GapFreeForeverIffSafe(s: State, from: nat)
    requires Consistent(s, from)
    ensures Safe(s) <==> forall es :: RunsGapFree(s, es, from)
  {
    if Safe(s) {
      forall es ensures RunsGapFree(s, es, from) {
        if ReliableRun(s, es) {
          RunKeeps(s, es, from);
        }
      }
    } else {
      var es := [Exchange(Arrives)];
      assert es[..0] == [] && Run(s, []) == s && ReliableRun(s, []);
      assert ReliableRun(s, es) && Run(s, es) == Step(s, Exchange(Arrives));
      assert Run(s, es).applied == s.applied + [s.cur];
      assert Run(s, es).applied[|s.applied|] == s.cur != from + |s.applied|;
      assert !RunsGapFree(s, es, from);
    }
  }

  /** The guard is exact: after an event the messages applied stay gap-free in all continuations if and
      only if the event was within it. */
  lemma ReliableIffGapFreeForever(s: State, e: Event, from: nat)
    requires Safe(s) && Consistent(s, from)
    ensures Reliable(s, e) <==> forall es :: RunsGapFree(Step(s, e), es, from)
  {
    StepKeeps(s, e, from);
    GapFreeForeverIffSafe(Step(s, e), from);
  }

  /** The two hazards: a roll back that vanishes after it was reported as sent, and a sender restart.
      Each leaves all continuations gap-free exactly when the sender does not stand beyond the next
      message. */
  lemma HazardsIff(s: State, at: nat, from: nat)
    requires Safe(s) && Consistent(s, from)
    ensures s.needRollBack ==>
              ((forall es :: RunsGapFree(Step(s, Exchange(Vanishes)), es, from)) <==> s.cur <= s.next)
    ensures (forall es :: RunsGapFree(Step(s, SenderRestarts(at)), es, from)) <==> s.needRollBack || at <= s.next
  {
    ReliableIffGapFreeForever(s, Exchange(Vanishes), from);
    ReliableIffGapFreeForever(s, SenderRestarts(at), from);
  }

  /** The concrete loss: a sender at message 5, a receiver at 2, and one vanished roll back. */
  lemma VanishedRollBackLoses()
    ensures var s := State(2, true, 5, []);
            Started(s, 2) && Run(s, [Exchange(Vanishes), Exchange(Arrives)]).applied == [5]
  {
    var s, es := State(2, true, 5, []), [Exchange(Vanishes), Exchange(Arrives)];
    assert es[..1] == [Exchange(Vanishes)] && es[..1][..0] == [];
    assert Run(s, []) == s;
    assert Run(s, [Exchange(Vanishes)]) == Step(s, Exchange(Vanishes));
  }

  /** Progress: on a reliable channel the next message is applied within three exchanges from any safe
      state. */
  lemma WithinThreeExchanges(s: State, from: nat)
    requires Safe(s) && Consistent(s, from)
    ensures var s1 := Step(s, Exchange(Arrives)); var s2 := Step(s1, Exchange(Arrives)); var s3 := Step(s2, Exchange(Arrives));
            s.next in s1.applied || s.next in s2.applied || s.next in s3.applied
    ensures var s1 := Step(s, Exchange(Arrives)); var s2 := Step(s1, Exchange(Arrives));
            !s.needRollBack && s.cur < s.next ==> s.next !in s2.applied
  {
    var s1 := Step(s, Exchange(Arrives));
    var s2 := Step(s1, Exchange(Arrives));
    var s3 := Step(s2, Exchange(Arrives));
    if !s.needRollBack && s.cur < s.next {
      assert s3.applied[|s.applied|] == s.next;
    } else if s.needRollBack {
      assert s2.applied[|s.applied|] == s.next;
    } else {
      assert s1.applied[|s.applied|] == s.next;
    }
  }

  // ---------- positions ----------

  /** A place in the queue: file and block number. */
  datatype Pos = Pos(fileNo: nat, blockId: nat)

  predicate Before(a: Pos, b: Pos) {
    a.fileNo < b.fileNo || (a.fileNo == b.fileNo && a.blockId < b.blockId)
  }

  /** The positions of the subscribed messages, in queue order. */
  predicate Subscribed(q: seq<Pos>) {
    forall i, j :: 0 <= i < j < |q| ==> Before(q[i], q[j])
  }

  /** How many messages lie at or before a position: the number of its successor. */
  function Rank(q: seq<Pos>, p: Pos): (n: nat)
    ensures n <= |q|
  {
    if q == [] || Before(p, q[|q| - 1]) then (if q == [] then 0 else Rank(q[..|q| - 1], p)) else |q|
  }

  lemma {:induction false} RankDecides(q: seq<Pos>, p: Pos, i: nat)
    requires Subscribed(q) && i < |q|
    ensures i < Rank(q, p) <==> !Before(p, q[i])
  {
    if Before(p, q[|q| - 1]) && i < |q| - 1 {
      RankDecides(q[..|q| - 1], p, i);
    } else if !Before(p, q[|q| - 1]) && i < |q| - 1 {
      assert Before(q[i], q[|q| - 1]);
    }
  }

  /** The position of message i has i + 1 messages up to it. */
  lemma RankOfMessage(q: seq<Pos>, i: nat)
    requires Subscribed(q) && i < |q|
    ensures Rank(q, q[i]) == i + 1
  {
    RankDecides(q, q[i], i);
    if i + 1 < |q| {
      RankDecides(q, q[i], i + 1);
    }
  }

  /** Message n is the successor of position p: exactly the messages up to p come before it. */
  predicate StandsBehind(q: seq<Pos>, p: Pos, n: nat) {
    n <= |q| && forall i :: 0 <= i < |q| ==> (i < n <==> !Before(p, q[i]))
  }

  /** The successor of a position is unique, and its number is the rank. */
  lemma StandsBehindIsRank(q: seq<Pos>, p: Pos, n: nat)
    requires Subscribed(q) && StandsBehind(q, p, n)
    ensures n == Rank(q, p)
  {
    if n < |q| {
      RankDecides(q, p, n);
    }
    if n > 0 {
      RankDecides(q, p, n - 1);
    }
  }

  // ---------- the two programs ----------

  /** The reply a receiver sends, if any. */
  datatype Reply = Ok(last: Pos) | RollBack(last: Pos)

  class Receiver {
    var last: Pos
    var needRollBack: bool
    /** The messages applied since the start. */
    var applied: seq<Pos>

    /** Starts at the persisted check point. */
    constructor (checkPoint: Pos)
      ensures last == checkPoint && needRollBack && applied == []
    {
      last, needRollBack, applied := checkPoint, true, [];
    }

    /** One turn of the receive loop. `handled` says whether the handler of the message succeeded,
        `sent` whether sending a reply succeeded. No reply at all leaves the sender to its timeout. */
    method Receive(m: Pos, handled: bool, sent: bool) returns (reply: Option<Reply>)
      modifies this
      ensures old(needRollBack) ==> reply == Some(RollBack(last)) && needRollBack == !sent
      ensures !old(needRollBack) && !Before(old(last), m) ==> reply == None && needRollBack
      ensures !old(needRollBack) && Before(old(last), m) ==> reply == (if handled then Some(Ok(m)) else None) && !needRollBack
      ensures if !old(needRollBack) && Before(old(last), m) && handled then last == m && applied == old(applied) + [m]
              else last == old(last) && applied == old(applied)
    {
      if needRollBack {
        reply := Some(RollBack(last));
        if sent {
          needRollBack := false;
        }
        return;
      }
      if m.fileNo < last.fileNo || (m.fileNo == last.fileNo && m.blockId <= last.blockId) {
        needRollBack := true;
        return None;
      }
      if !handled {
        return None;
      }
      applied := applied + [m];
      last := m;
      reply := Some(Ok(last));
    }
  }

  class Sender {
    /** The subscribed messages of the queue it reads. */
    const queue: seq<Pos>
    /** The number of the message it holds. */
    var cur: nat

    constructor (queue: seq<Pos>, cur: nat)
      ensures this.queue == queue && this.cur == cur
    {
      this.queue, this.cur := queue, cur;
    }

    /** After a request: an OK leads to the message behind the one just held, a roll back to the first
        message behind the named position, no reply leaves the same message to be sent again. */
    method OnReply(reply: Option<Reply>)
      requires Subscribed(queue) && cur < |queue|
      modifies this`cur
      ensures reply == None ==> cur == old(cur)
      ensures reply.Some? ==> StandsBehind(queue, if reply.value.Ok? then queue[old(cur)] else reply.value.last, cur)
    {
      match reply
      case None =>
      case Some(Ok(_)) =>
        cur := cur + 1;
      case Some(RollBack(last)) =>
        cur := 0;
        while cur < |queue| && !Before(last, queue[cur])
          invariant cur <= |queue|
          invariant forall i :: 0 <= i < cur ==> !Before(last, queue[i])
          decreases |queue| - cur
        {
          cur := cur + 1;
        }
    }
  }

  /** Receiver and sender are in this protocol state. */
  ghost predicate InState(r: Receiver, t: Sender, s: State)
    reads r, t
  {
    && Subscribed(t.queue) && s.next == Rank(t.queue, r.last) && s.needRollBack == r.needRollBack && s.cur == t.cur
    && |s.applied| == |r.applied|
    && forall i :: 0 <= i < |s.applied| ==> s.applied[i] < |t.queue| && r.applied[i] == t.queue[s.applied[i]]
  }

  /** One request, its handling, and the fate of the reply: the two programs do what the state machine
      says. */
  method RequestReply(r: Receiver, t: Sender, handled: bool, fate: Fate, ghost s: State)
    requires InState(r, t, s) && t.cur < |t.queue|
    modifies r, t
    ensures InState(r, t, if !handled && !s.needRollBack && s.cur >= s.next then Step(s, HandlerFails) else Step(s, Exchange(fate)))
  {
    RankDecides(t.queue, r.last, t.cur);
    RankOfMessage(t.queue, t.cur);
    var reply := r.Receive(t.queue[t.cur], handled, fate != Fails);
    ghost var held := t.cur;
    t.OnReply(if fate.Arrives? then reply else None);
    if reply.Some? && fate.Arrives? {
      StandsBehindIsRank(t.queue, if reply.value.Ok? then t.queue[held] else reply.value.last, t.cur);
    }
  }
}
