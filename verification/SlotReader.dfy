/** `get_posting_list`: collecting the slots into a caller's buffer. A memory tier fills what room is
    left; a disk tier refuses, rather than truncates, when its list does not fit. */
module SlotReader {
  import opened Prelude
  import opened Tiers
  import opened TierOrder

  datatype Slot = MemSlot(list: seq<Posting>) | DiskSlot(list: seq<Posting>)

  /** What one slot contributes when `room` whole cells are left. */
  function Given(slot: Slot, room: nat): seq<Posting> {
    match slot
    case MemSlot(list) => Take(room, list)
    case DiskSlot(list) => if |list| <= room then list else []
  }

  function Collected(slots: seq<Slot>, room: nat): (r: seq<Posting>)
    ensures |r| <= room
  {
    if slots == [] then [] else
      var g := Given(slots[0], room);
      g + Collected(slots[1..], room - |g|)
  }

  function AllOf(slots: seq<Slot>): seq<Posting> {
    if slots == [] then [] else slots[0].list + AllOf(slots[1..])
  }

  /** Every disk list either fits when its turn comes, or no whole cell was left for it. */
  predicate Fits(slots: seq<Slot>, room: nat) {
    slots == []
    || ((slots[0].DiskSlot? ==> |slots[0].list| <= room || room == 0)
        && Fits(slots[1..], room - |Given(slots[0], room)|))
  }

  lemma {:induction false} BigBufferCollectsAll(slots: seq<Slot>, room: nat)
    requires |AllOf(slots)| <= room
    ensures Collected(slots, room) == AllOf(slots) && Fits(slots, room)
  {
    if slots != [] {
      assert Given(slots[0], room) == slots[0].list;
      BigBufferCollectsAll(slots[1..], room - |slots[0].list|);
    }
  }

  lemma {:induction false} NoRoomNoCells(slots: seq<Slot>)
    ensures Collected(slots, 0) == [] && Fits(slots, 0)
  {
    if slots != [] {
      assert Given(slots[0], 0) == [];
      NoRoomNoCells(slots[1..]);
    }
  }

  lemma {:induction false} CollectedFromSlots(slots: seq<Slot>, room: nat)
    ensures forall p :: p in Collected(slots, room) ==> p in AllOf(slots)
  {
    if slots != [] {
      var g := Given(slots[0], room);
      CollectedFromSlots(slots[1..], room - |g|);
      assert forall p :: p in g ==> p in slots[0].list;
    }
  }

  lemma TakeSplit(n: nat, a: seq<Posting>, b: seq<Posting>)
    ensures |a| <= n ==> Take(n, a + b) == a + Take(n - |a|, b)
    ensures |a| >= n ==> Take(n, a + b) == Take(n, a)
  {
  }

  lemma SameFront(a: seq<Posting>, b: seq<Posting>, c: seq<Posting>)
    ensures a + b == a + c <==> b == c
  {
    if a + b == a + c {
      assert b == (a + b)[|a|..] && c == (a + c)[|a|..];
    }
  }

  lemma DescendingRest(a: seq<Posting>, b: seq<Posting>)
    requires Descending(a + b)
    ensures Descending(b)
  {
    assert forall i :: 0 <= i < |b| ==> b[i] == (a + b)[|a| + i];
  }

  /** The buffer holds the newest postings that fit in it exactly when no disk tier was refused
      while room was left: past a refused tier, older tiers are still appended. */
  lemma {:induction false} NewestPrefixIff(slots: seq<Slot>, room: nat)
    requires Descending(AllOf(slots))
    ensures Collected(slots, room) == Take(room, AllOf(slots)) <==> Fits(slots, room)
  {
    hide Sorted;
    if slots == [] {
    } else if room == 0 {
      NoRoomNoCells(slots);
    } else {
      var list, rest := slots[0].list, slots[1..];
      DescendingRest(list, AllOf(rest));
      TakeSplit(room, list, AllOf(rest));
      if |list| <= room {
        NewestPrefixIff(rest, room - |list|);
        SameFront(list, Collected(rest, room - |list|), Take(room - |list|, AllOf(rest)));
      } else if slots[0].MemSlot? {
        NoRoomNoCells(rest);
      } else {
        RefusedTierSkips(slots, room);
      }
    }
  }

  lemma RefusedTierSkips(slots: seq<Slot>, room: nat)
    requires Descending(AllOf(slots)) && slots != [] && slots[0].DiskSlot? && 0 < room < |slots[0].list|
    ensures Collected(slots, room) != Take(room, AllOf(slots))
  {
    var newest := AllOf(slots)[0];
    assert Take(room, AllOf(slots))[0] == newest;
    CollectedFromSlots(slots[1..], room);
    var older := AllOf(slots[1..]);
    assert forall i :: 0 <= i < |older| ==> older[i] == AllOf(slots)[|slots[0].list| + i];
    assert newest !in older;
    assert newest !in Collected(slots, room);
  }

  /** README promises the newest postings a short buffer can hold. With two cells of room, three
      postings in the day index and one in the history index, the oldest one is returned instead. */
  lemma ShortBufferSkipsNewerTier()
    ensures var slots := [MemSlot([]), DiskSlot([Posting(4, 0), Posting(3, 0), Posting(2, 0)]), DiskSlot([Posting(1, 0)])];
            && Descending(AllOf(slots))
            && Collected(slots, 2) == [Posting(1, 0)]
            && Take(2, AllOf(slots)) == [Posting(4, 0), Posting(3, 0)]
  {
    hide Sorted, Take;
    var day, his := [Posting(4, 0), Posting(3, 0), Posting(2, 0)], [Posting(1, 0)];
    FourDescend(day, his);
    var one, two := [DiskSlot(his)], [DiskSlot(day), DiskSlot(his)];
    LastSlot(his);
    assert two[1..] == one;
    assert AllOf(two) == day + his && Collected(two, 2) == [] + Collected(one, 2);
    var slots := [MemSlot([]), DiskSlot(day), DiskSlot(his)];
    assert slots[1..] == two;
    assert AllOf(slots) == [] + (day + his) && Collected(slots, 2) == [] + Collected(two, 2);
  }

  lemma FourDescend(day: seq<Posting>, his: seq<Posting>)
    requires day == [Posting(4, 0), Posting(3, 0), Posting(2, 0)] && his == [Posting(1, 0)]
    ensures Descending([] + (day + his)) && Take(2, [] + (day + his)) == [Posting(4, 0), Posting(3, 0)] && Take<Posting>(2, []) == []
  {
  }

  lemma LastSlot(list: seq<Posting>)
    requires |list| == 1
    ensures AllOf([DiskSlot(list)]) == list && Collected([DiskSlot(list)], 2) == list
  {
    assert [DiskSlot(list)][1..] == [];
  }

  // ---------- slot by slot ----------

  /** What a disk tier adds to a buffer with room for `room` cells: all of its list or nothing. */
  function WithDisk(buff: seq<Posting>, list: seq<Posting>, room: nat): seq<Posting> {
    if |buff| + |list| <= room then buff + list else buff
  }

  lemma FirstMem(list: seq<Posting>, rest: seq<Slot>, room: nat)
    ensures |Take(room, list)| <= room
    ensures Collected([MemSlot(list)] + rest, room) == Take(room, list) + Collected(rest, room - |Take(room, list)|)
  {
    assert ([MemSlot(list)] + rest)[1..] == rest;
  }

  lemma FirstDisk(buff: seq<Posting>, list: seq<Posting>, rest: seq<Slot>, room: nat)
    requires |buff| <= room
    ensures var next := WithDisk(buff, list, room);
            |next| <= room && buff + Collected([DiskSlot(list)] + rest, room - |buff|) == next + Collected(rest, room - |next|)
  {
    assert ([DiskSlot(list)] + rest)[1..] == rest;
    assert buff + (list + Collected(rest, room - |buff| - |Given(DiskSlot(list), room - |buff|)|))
        == (buff + list) + Collected(rest, room - |buff| - |Given(DiskSlot(list), room - |buff|)|);
  }

  /** Memory tiers fill what room there is; then each disk tier is taken whole or not at all. */
  lemma OneMemInOrder(m0: seq<Posting>, d: seq<Posting>, d2: seq<Posting>, h: seq<Posting>, room: nat)
    ensures Collected([MemSlot(m0)] + [DiskSlot(d), DiskSlot(d2), DiskSlot(h)], room)
         == WithDisk(WithDisk(WithDisk(Take(room, m0), d, room), d2, room), h, room)
  {
    hide Collected, WithDisk, Given, Take;
    FirstMem(m0, [DiskSlot(d), DiskSlot(d2), DiskSlot(h)], room);
    DisksInOrder(Take(room, m0), d, d2, h, room);
  }

  lemma TwoMemsInOrder(m0: seq<Posting>, m1: seq<Posting>, d: seq<Posting>, d2: seq<Posting>, h: seq<Posting>, room: nat)
    ensures Collected([MemSlot(m0)] + [MemSlot(m1)] + [DiskSlot(d), DiskSlot(d2), DiskSlot(h)], room)
         == WithDisk(WithDisk(WithDisk(Take(room, m0 + m1), d, room), d2, room), h, room)
  {
    hide Collected, WithDisk, Given, Take;
    var disks := [DiskSlot(d), DiskSlot(d2), DiskSlot(h)];
    TwoMems(m0, m1, room);
    FirstMem(m0, [MemSlot(m1)] + disks, room);
    FirstMem(m1, disks, room - |Take(room, m0)|);
    Regroup([MemSlot(m0)], [MemSlot(m1)], disks);
    var a, b := Take(room, m0), Take(room - |Take(room, m0)|, m1);
    Regroup(a, b, Collected(disks, room - |a| - |b|));
    DisksInOrder(Take(room, m0 + m1), d, d2, h, room);
  }

  lemma Regroup<T>(a: seq<T>, b: seq<T>, c: seq<T>)
    ensures a + (b + c) == (a + b) + c
  {
  }

  lemma TwoMems(a: seq<Posting>, b: seq<Posting>, room: nat)
    ensures |Take(room, a)| <= room && Take(room, a) + Take(room - |Take(room, a)|, b) == Take(room, a + b)
  {
  }

  lemma DisksInOrder(front: seq<Posting>, d: seq<Posting>, d2: seq<Posting>, h: seq<Posting>, room: nat)
    requires |front| <= room
    ensures front + Collected([DiskSlot(d), DiskSlot(d2), DiskSlot(h)], room - |front|)
         == WithDisk(WithDisk(WithDisk(front, d, room), d2, room), h, room)
  {
    var b1 := WithDisk(front, d, room);
    var b2 := WithDisk(b1, d2, room);
    var b3 := WithDisk(b2, h, room);
    hide Given, Collected, WithDisk;
    assert [DiskSlot(d)] + [DiskSlot(d2), DiskSlot(h)] == [DiskSlot(d), DiskSlot(d2), DiskSlot(h)];
    assert [DiskSlot(d2)] + [DiskSlot(h)] == [DiskSlot(d2), DiskSlot(h)];
    assert [DiskSlot(h)] + [] == [DiskSlot(h)];
    FirstDisk(front, d, [DiskSlot(d2), DiskSlot(h)], room);
    FirstDisk(b1, d2, [DiskSlot(h)], room);
    FirstDisk(b2, h, [], room);
    NoSlots(room - |b3|);
    assert b3 + [] == b3;
  }

  lemma NoSlots(room: nat)
    ensures Collected([], room) == []
  {
  }

  /** Whole cells in a number of bytes. */
  function Cells(bytes: nat, cell: nat): nat
    requires cell > 0
  {
    bytes / cell
  }

  lemma AfterSlot(cell: nat, left: nat, slot: Slot)
    requires cell > 0
    ensures slot.DiskSlot? ==> (|slot.list| * cell <= left <==> |slot.list| <= Cells(left, cell))
    ensures var n := |Given(slot, Cells(left, cell))|; n * cell <= left && Cells(left - n * cell, cell) == Cells(left, cell) - n
  {
    CellArithmetic(cell, left, |slot.list|);
    CellArithmetic(cell, left, |Given(slot, left / cell)|);
  }

  lemma SlotStep(slots: seq<Slot>, i: nat, room: nat, buff: seq<Posting>)
    requires i < |slots|
    ensures var g := Given(slots[i], room);
            |g| <= room && buff + Collected(slots[i..], room) == (buff + g) + Collected(slots[i + 1..], room - |g|)
  {
    var g := Given(slots[i], room);
    assert slots[i..][1..] == slots[i + 1..];
    assert buff + (g + Collected(slots[i + 1..], room - |g|)) == (buff + g) + Collected(slots[i + 1..], room - |g|);
  }

  /** The loop of `get_posting_list` over the non-null slots, counting room in bytes. */
  method ReadSlots(slots: seq<Slot>, cell: nat, length: nat) returns (buff: seq<Posting>)
    requires cell > 0
    ensures buff == Collected(slots, length / cell)
  {
    hide Collected, Take;
    buff := [];
    var left: nat := length;
    var i := 0;
    assert slots[0..] == slots;
    while i < |slots|
      invariant 0 <= i <= |slots|
      invariant buff + Collected(slots[i..], Cells(left, cell)) == Collected(slots, Cells(length, cell))
    {
      AfterSlot(cell, left, slots[i]);
      SlotStep(slots, i, Cells(left, cell), buff);
      var got: seq<Posting> := [];
      if slots[i].MemSlot? {
        got := Take(Cells(left, cell), slots[i].list);
      } else if |slots[i].list| * cell <= left {
        got := slots[i].list;
      }
      assert got == Given(slots[i], Cells(left, cell));
      buff, left, i := buff + got, left - |got| * cell, i + 1;
    }
    NothingMore(slots, buff, Cells(left, cell));
  }

  lemma NothingMore(slots: seq<Slot>, buff: seq<Posting>, room: nat)
    ensures buff + Collected(slots[|slots|..], room) == buff
  {
    assert slots[|slots|..] == [];
  }
}
