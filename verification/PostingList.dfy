/** `postinglist`: a hash table of terms, each with a chain of pool blocks, kept as a map from terms
    to newest-first cells. */
module PostingList {
  import opened Prelude
  import opened Chains
  import opened PostingHeap
  import opened HeadTable
  import opened PostingStore
  import MB = MemBlocks

  const HEAD_LIST_WATER_LINE: nat := 10000

  /** `THROWN` stands for the exception raised when a block cannot be allocated. */
  datatype SetResult = OK | NEARLY_FULL | FULL | THROWN

  class PostingList {
    const cell: nat
    const base: nat
    const bucket: array<nat>
    const heads: array<Head>
    const pool: MB.MemBlocks
    var used: nat
    var readonly: bool
    var sorted: seq<Head>
    var it: nat
    /** The memory the allocated blocks lie in. */
    var mem: Memory
    /** The contents of the two arrays. */
    ghost var table: seq<nat>
    ghost var hs: seq<Head>
    ghost var chains: seq<seq<Addr>>
    ghost var owner: map<Addr, nat>
    /** What the structure stores: the cells of every term, newest first. */
    ghost var lists: map<Key, seq<Cell>>

    ghost predicate Valid()
      reads this, bucket, heads, pool
    {
      Sized() && Mirror() && MemoryOk() && Store(table, hs, mem, chains, owner, lists, base, cell)
    }

    ghost predicate Mirror()
      reads `used, `table, `hs, bucket, heads
    {
      used <= heads.Length && table == bucket[..] && hs == heads[..used]
    }

    /** The blocks on chains are exactly the blocks the pool has handed out. */
    ghost predicate MemoryOk()
      reads `mem, pool
    {
      pool.Valid() && mem.Keys == pool.Outstanding()
    }

    /** Sizes fixed at construction. The smallest block is a power of two with room for four cells. */
    ghost predicate Sized() {
      0 < cell && HEADER + 4 * cell <= base < UINT32 && PowerOfTwo(base)
      && 0 < bucket.Length && heads.Length <= END_OF_LIST
    }

    /** `counts` are the pool's block counts per doubling size, `arena` is where the pool lies. */
    constructor (cellSize: nat, bucketLog: nat, headlistSize: nat, counts: seq<nat>, arena: Addr)
      requires 0 < cellSize && HEADER + 4 * cellSize <= 0x8000_0000 && bucketLog < 32
      requires headlistSize <= END_OF_LIST && arena > 0
      requires 0 < |counts| <= 8 && forall i :: 0 <= i < |counts| ==> counts[i] > 0
      ensures Valid() && lists == map[] && used == 0 && !readonly && cell == cellSize
      ensures fresh(bucket) && fresh(heads) && fresh(pool)
      ensures HEADER + 4 * cellSize <= base < 2 * (HEADER + 4 * cellSize)
      ensures heads.Length == if headlistSize < 1000000 then 2000000 else headlistSize
      ensures bucket.Length == Scale(1, if bucketLog < 20 then 20 else bucketLog)
      ensures |pool.cats| == |counts| && pool.freecount == counts
      ensures forall i :: 0 <= i < |counts| ==> pool.cats[i].size == Scale(base, i) && pool.cats[i].count == counts[i]
    {
      hide Store, PowerOfTwo, MB.GoodConfig, MB.MemBlocks.Valid, MB.PoolOk, MB.Laid, MB.ExtraOk;
      cell := cellSize;
      var smallest := SmallestBlock(HEADER + 4 * cellSize);
      base := smallest;
      var slots := Scale(1, if bucketLog < 20 then 20 else bucketLog);
      bucket := new nat[slots](_ => END_OF_LIST);
      heads := new Head[if headlistSize < 1000000 then 2000000 else headlistSize](_ => Head(0, 0, NULL));
      CategorySizes(smallest, counts);
      pool := new MB.MemBlocks(Doubling(smallest, |counts|), counts, arena);
      used, readonly, sorted, it, mem := 0, false, [], 0, map[];
      table, hs, chains, owner, lists := [], [], [], map[], map[];
      new;
      table := bucket[..];
      EmptyStore(table, smallest, cellSize);
      assert hs == heads[..used];
    }

    /** Every block the pool or malloc has handed out is on exactly one chain, at one place. */
    lemma BlocksAccounted()
      requires Valid()
      ensures forall a :: a in pool.Outstanding() <==> OnChain(chains, a)
      ensures EachOnce(chains)
    {
      hide MB.MemBlocks.Valid, MB.MemBlocks.Outstanding, Store, Sized, Mirror;
      StoreOwned(table, hs, mem, chains, owner, lists, base, cell);
      OwnedOnChain(mem, chains, owner);
    }

    // ---------- lookup ----------

    /** Walks the bucket of a key. The next indexes descend, so the walk ends. */
    method FindHead(key: Key) returns (off: nat)
      requires Valid()
      ensures off == END_OF_LIST <==> key !in lists
      ensures off != END_OF_LIST ==> off < used && heads[off].key == key
    {
      hide HeapOk, BucketOf, ListsOk, MemoryOk;
      ghost var b := BucketOf(key, bucket.Length);
      assert BucketOk(table, hs, b);
      off := bucket[BucketOf(key, bucket.Length)];
      forall h | 0 <= h < used && hs[h].key == key ensures Reaches(hs, off, h) {
        assert HeadOk(table, hs, h);
      }
      while off != END_OF_LIST && heads[off].key != key
        invariant off == END_OF_LIST || off < used
        invariant forall h :: 0 <= h < used && hs[h].key == key ==> Reaches(hs, off, h)
        decreases if off == END_OF_LIST then 0 else off + 1
      {
        assert HeadOk(table, hs, off);
        off := heads[off].next;
      }
      SearchDecides(lists, mem, chains, hs, cell, key, off);
    }

    // ---------- reading ----------

    /** Copies the chain of a key into a buffer of `length` bytes, newest block first, and returns
        how many whole cells arrived. */
    method Get(key: Key, length: nat) returns (n: nat, out: seq<byte>)
      requires Valid()
      ensures Served(CellsOf(lists, key), cell, length, n, out)
      ensures var cells := if key in lists then lists[key] else [];
              cell > 0 && n == Min(|cells|, length / cell) && out == Take(length, Flat(cells))
    {
      n, out := 0, [];
      var off := FindHead(key);
      if off == END_OF_LIST {
        PrefixCells([], cell, length);
        ServedMeans([], cell, length, n, out);
        return;
      }
      ghost var c := chains[off];
      HeapChain(mem, chains, owner, hs, base, cell, off);
      assert ListOk(lists, mem, c, key, cell);
      hide Valid, ChainInv, Served;
      out, n := CopyChain(heads[off].memLink, length, c);
      StoredIs(mem, c, heads[off].memLink, base, cell);
      PrefixCells(lists[key], cell, length);
      ServedMeans(lists[key], cell, length, n, out);
    }

    /** The copy loop over one chain. */
    method CopyChain(link: Addr, length: nat, ghost c: seq<Addr>) returns (out: seq<byte>, n: nat)
      requires 0 < cell && ChainInv(mem, c, link, base, cell)
      ensures AllSound(BlocksAt(mem, c)) && out == Take(length, Content(BlocksAt(mem, c))) && n == CellsIn(|out|, cell)
    {
      out, n := [], 0;
      var p, left: nat := link, length;
      ghost var i := 0;
      WalkStart(mem, c, link, base, cell, length);
      hide *;
      while p != NULL && left > 0
        invariant i <= |c| && Walk(mem, c, i, p, cell, out, n, left, length)
        decreases |c| - i
      {
        WalkStep(mem, c, i, p, cell, out, n, left, length);
        var copy := if left > mem[p].used then mem[p].used else left;
        out, n, left, p, i :=
          out + Used(mem[p])[..copy], n + CellsIn(copy, cell), left - copy, mem[p].next, i + 1;
      }
      WalkEnd(mem, c, i, p, cell, out, n, left, length);
    }

    // ---------- writing ----------

    lemma MirrorAt(h: nat)
      requires Mirror() && h < |hs|
      ensures h < used <= heads.Length && heads[h] == hs[h] && |hs| == used
    {
    }

    /** A block of `size` bytes, or NULL when the pool and malloc refuse. */
    method MemLinkNew(size: nat, next: Addr) returns (p: Addr)
      requires MemoryOk() && (size == 0 || size >= HEADER)
      modifies this`mem, pool
      ensures MemoryOk()
      ensures p == NULL ==> mem == old(mem)
      ensures p != NULL ==> p !in old(mem) && size >= HEADER && mem == old(mem)[p := Fresh(size, next)]
      ensures pool.refusals == old(pool.refusals) + if p == NULL then 1 else 0
      ensures p == NULL && size > 0 ==>
                forall i :: 0 <= i < |pool.cats| && pool.cats[i].size == size ==>
                  i < |old(pool.freecount)| && old(pool.freecount)[i] == 0
    {
      hide MB.MemBlocks.Valid, MB.MemBlocks.Outstanding;
      p := pool.AllocMem(size);
      if p != NULL {
        mem := mem[p := Fresh(size, next)];
      }
    }

    method Release(p: Addr)
      requires MemoryOk() && p in mem
      modifies this`mem, pool
      ensures MemoryOk() && mem == old(mem) - {p} && pool.refusals == old(pool.refusals)
    {
      hide MB.MemBlocks.Valid, MB.MemBlocks.Outstanding;
      pool.FreeMem(p);
      mem := mem - {p};
    }

    /** The memory work of one merge: a and b become one block q of twice the size. The doubled size
        is a 32-bit number, and no block of size 0 exists. */
    method Combine(a: Addr, b: Addr) returns (q: Addr)
      requires MemoryOk() && CanCombine(mem, a, b)
      modifies this`mem, pool
      ensures MemoryOk()
      ensures q == NULL ==> mem == old(mem)
      ensures q != NULL ==> q !in old(mem) && Combined(old(mem), a, b, q, mem)
      ensures pool.refusals == old(pool.refusals) + if q == NULL then 1 else 0
    {
      hide MB.MemBlocks.Valid, MB.MemBlocks.Outstanding, CopyIn, Used;
      q := MemLinkNew((2 * mem[a].self) % UINT32, mem[b].next);
      if q != NULL {
        MergedMemory(old(mem), a, b, q);
        mem := mem[q := CopyIn(mem[q], Used(mem[b]))];
        mem := mem[q := CopyIn(mem[q], Used(mem[a]))];
        Release(b);
        Release(a);
      }
    }

    /** phead->mem_link = q. */
    method Relink(h: nat, q: Addr)
      requires Mirror() && h < |hs|
      modifies heads, `hs
      ensures Mirror() && hs == old(hs)[h := old(hs)[h].(memLink := q)]
    {
      heads[h] := heads[h].(memLink := q);
      hs := hs[h := hs[h].(memLink := q)];
    }

    /** The merge of two known blocks, and the new link. */
    method MergeBlocks(h: nat, a: Addr, b: Addr) returns (ok: bool)
      requires Mirror() && MemoryOk() && CanCombine(mem, a, b)
      requires MergeReady(table, hs, mem, chains, owner, lists, base, cell, h, a, b)
      modifies this`mem, this`hs, this`chains, this`owner, heads, pool
      ensures Mirror() && MemoryOk() && Store(table, hs, mem, chains, owner, lists, base, cell)
      ensures |hs| == |old(hs)| && |chains| == old(|chains|) && h < |hs| == |chains| && hs[h].key == old(hs)[h].key
      ensures ok ==> |chains[h]| == old(|chains[h]|) - 1
      ensures pool.refusals == old(pool.refusals) + if ok then 0 else 1
    {
      hide *;
      StoreMergeReady(table, hs, mem, chains, owner, lists, base, cell, h, a, b);
      var q := Combine(a, b);
      ok := q != NULL;
      if ok {
        StoreMerged(table, hs, old(mem), chains, owner, lists, base, cell, h, a, b, q, mem);
        chains, owner := chains[h := [q] + chains[h][2..]], owner[q := h] - {a, b};
        Relink(h, q);
      }
    }

    /** memlinkcopy into the block at p. */
    method WriteBlock(p: Addr, bytes: seq<byte>)
      requires MemoryOk() && HasRoom(mem, p, |bytes|)
      modifies `mem
      ensures MemoryOk() && mem == old(mem)[p := CopyIn(old(mem)[p], bytes)]
    {
      hide MB.MemBlocks.Valid, MB.MemBlocks.Outstanding, CopyIn;
      mem := mem[p := CopyIn(mem[p], bytes)];
    }

    /** The head block of h has room. */
    method Put(h: nat, buff: Cell)
      requires Valid() && h < |hs| && |buff| == cell && HasRoom(mem, heads[h].memLink, cell)
      modifies `mem, `lists
      ensures Valid() && Pushed(old(lists), lists, hs[h].key, buff)
    {
      hide Store, HeadBlock, MemoryOk, Sized, HasRoom, CopyIn, Sound, Room, Rung;
      assert heads[h] == hs[h];
      StoreHead(table, hs, mem, chains, owner, lists, base, cell, h);
      StorePut(table, hs, mem, chains, owner, lists, base, cell, h, buff);
      WriteBlock(heads[h].memLink, buff);
      lists := lists[hs[h].key := [buff] + lists[hs[h].key]];
    }

    /** No room and nothing left to merge: a new smallest block goes in front of the chain. */
    method Grow(h: nat, buff: Cell) returns (ok: bool)
      requires Valid() && h < |hs| && |buff| == cell
      requires !HasRoom(mem, heads[h].memLink, cell) && !CanMerge(mem, heads[h].memLink)
      modifies `mem, `hs, `chains, `owner, `lists, heads, pool
      ensures Valid() && |hs| == |old(hs)|
      ensures if ok then Pushed(old(lists), lists, old(hs)[h].key, buff) else lists == old(lists)
      ensures pool.refusals == old(pool.refusals) + if ok then 0 else 1
    {
      hide Store, HeadBlock, MemoryOk, HasRoom, CopyIn, Rung, PowerOfTwo, CanMerge, Mirror, Used;
      MirrorAt(h);
      StoreHead(table, hs, mem, chains, owner, lists, base, cell, h);
      var link := heads[h].memLink;
      var q := MemLinkNew(base, link);
      ok := q != NULL;
      if ok {
        FreshRoom(mem, q, base, link, cell);
        WriteBlock(q, buff);
        ghost var b := CopyIn(Fresh(base, link), buff);
        assert Used(b) == buff + [] == buff;
        StoreGrow(table, hs, old(mem), chains, owner, lists, base, cell, h, q, b, buff);
        GrownMemory(old(mem), q, Fresh(base, link), b);
        lists := lists[hs[h].key := [buff] + lists[hs[h].key]];
        chains, owner := chains[h := [q] + chains[h]], owner[q := h];
        Relink(h, q);
      }
    }

    /** One round of the merge loop: the two first blocks of head h become one of twice the size. */
    method MergeOnce(h: nat) returns (ok: bool)
      requires Valid() && h < used && CanMerge(mem, heads[h].memLink)
      modifies this`mem, this`hs, this`chains, this`owner, heads, pool
      ensures Valid() && |hs| == |old(hs)| == |chains| == |old(chains)| && hs[h].key == old(hs)[h].key
      ensures ok ==> |chains[h]| == old(|chains[h]|) - 1
      ensures pool.refusals == old(pool.refusals) + if ok then 0 else 1
    {
      hide Store, PowerOfTwo, MergeReady, CanCombine, MemoryOk, HeapOk, Mirror, HeadBlock;
      MirrorShape();
      MirrorAt(h);
      StoreShape(table, hs, mem, chains, owner, lists, base, cell);
      ReadyToMerge(table, hs, mem, chains, owner, lists, base, cell, h);
      ok := MergeBlocks(h, heads[h].memLink, mem[heads[h].memLink].next);
    }

    /** The branch of `set` for a term that has a head: into the room, else merge until there is
        room, else a new block. It fails exactly when an allocation is refused, so never while there is room. */
    method Append(h: nat, buff: Cell) returns (ok: bool)
      requires Valid() && h < |hs| && |buff| == cell
      modifies `mem, `hs, `chains, `owner, `lists, heads, pool
      ensures Valid() && |hs| == |old(hs)|
      ensures if ok then Pushed(old(lists), lists, old(hs)[h].key, buff) else lists == old(lists)
      ensures pool.refusals == old(pool.refusals) + if ok then 0 else 1
      ensures old(h < heads.Length && HasRoom(mem, heads[h].memLink, cell)) ==> ok
    {
      hide Store, HeadBlock, MemoryOk, HasRoom, Sized, CanMerge, Mirror, Pushed;
      MirrorAt(h);
      StoreShape(table, hs, mem, chains, owner, lists, base, cell);
      if HasRoom(mem, heads[h].memLink, cell) {
        Put(h, buff);
        return true;
      }
      while CanMerge(mem, heads[h].memLink)
        invariant Valid() && |hs| == |old(hs)| && hs[h].key == old(hs)[h].key && lists == old(lists)
        invariant h < |chains| && !HasRoom(mem, heads[h].memLink, cell) && pool.refusals == old(pool.refusals)
        decreases |chains[h]|
      {
        ok := MergeOnce(h);
        if !ok {
          return;
        }
        MirrorAt(h);
        if HasRoom(mem, heads[h].memLink, cell) {
          Put(h, buff);
          return;
        }
      }
      MirrorAt(h);
      LoopExit(table, hs, mem, chains, owner, lists, base, cell, h);
      var b := mem[heads[h].memLink];
      assert b.next == NULL || b.self < mem[b.next].self;
      ok := Grow(h, buff);
    }

    /** A new term: the next head, in front of its bucket, with one smallest block. */
    method AddHead(key: Key, buff: Cell) returns (ok: bool)
      requires Valid() && key !in lists && used < heads.Length && |buff| == cell
      modifies `mem, `used, `hs, `table, `chains, `owner, `lists, heads, bucket, pool
      ensures Valid() && used == old(used) + if ok then 1 else 0
      ensures if ok then Pushed(old(lists), lists, key, buff) else lists == old(lists)
      ensures pool.refusals == old(pool.refusals) + if ok then 0 else 1
      ensures !ok ==> forall i :: 0 <= i < |pool.cats| && pool.cats[i].size == base ==>
                        i < |old(pool.freecount)| && old(pool.freecount)[i] == 0
    {
      hide Store, MemoryOk, HasRoom, CopyIn, PowerOfTwo, Mirror, Used, BucketOf;
      var slot := BucketOf(key, bucket.Length);
      MirrorShape();
      var q := MemLinkNew(base, NULL);
      ok := q != NULL;
      if ok {
        FreshRoom(mem, q, base, NULL, cell);
        WriteBlock(q, buff);
        ghost var b := CopyIn(Fresh(base, NULL), buff);
        assert Used(b) == buff + [] == buff && [buff] + [] == [buff];
        StoreNew(table, hs, old(mem), chains, owner, lists, base, cell, key, q, b, buff);
        GrownMemory(old(mem), q, Fresh(base, NULL), b);
        chains, owner, lists := chains + [[q]], owner[q := |hs|], lists[key := [buff]];
        LinkHead(key, slot, q);
      }
    }

    lemma MirrorShape()
      requires Mirror()
      ensures |hs| == used <= heads.Length && |table| == bucket.Length
    {
    }

    /** The head array and the bucket after a new head is linked in. */
    method LinkHead(key: Key, slot: nat, q: Addr)
      requires Mirror() && used < heads.Length && slot < bucket.Length
      modifies heads, bucket, `used, `hs, `table
      ensures Mirror() && used == old(used) + 1 && slot < |old(table)|
      ensures hs == old(hs) + [Head(key, old(table)[slot], q)] && table == old(table)[slot := |old(hs)|]
    {
      heads[used] := Head(key, bucket[slot], q);
      bucket[slot] := used;
      table, hs := table[slot := used], hs + [Head(key, table[slot], q)];
      used := used + 1;
    }

    /** A term has one head, and its room is what is left of the first block behind header and cells. */
    lemma HeadRoom(key: Key, off: nat)
      requires Valid() && off < used && heads[off].key == key
      ensures forall h :: 0 <= h < used && heads[h].key == key ==> h == off
      ensures heads[off].memLink in mem
      ensures var b := mem[heads[off].memLink];
              b.self - b.used - HEADER >= cell <==> HasRoom(mem, heads[off].memLink, cell)
    {
      hide Table, HeapOk, ListsOk, MemoryOk, Sized;
      StoreShape(table, hs, mem, chains, owner, lists, base, cell);
      StoreHead(table, hs, mem, chains, owner, lists, base, cell, off);
      assert forall h :: 0 <= h < used ==> heads[h] == hs[h];
    }

    lemma NoHead(key: Key)
      requires Valid() && key !in lists
      ensures forall h :: 0 <= h < used ==> heads[h].key != key
    {
      hide Store, MemoryOk, Sized;
      forall h | 0 <= h < used ensures heads[h].key != key {
        assert heads[h] == hs[h];
        StoreHead(table, hs, mem, chains, owner, lists, base, cell, h);
      }
    }

    /** `set`: exactly one cell is put in front of the list of its term, whatever merging that takes.
        FULL and THROWN leave every list as it was. THROWN means that one allocation was refused: never for a
        known term whose first block has room, nor for a new one while the pool has a smallest block. */
    method Set(key: Key, buff: Cell) returns (r: SetResult)
      requires Valid() && |buff| == cell
      modifies this, heads, bucket, pool
      ensures Valid() && r.FULL? == readonly
      ensures readonly == (old(readonly) || (key !in old(lists) && old(used) == heads.Length))
      ensures lists == if r.OK? || r.NEARLY_FULL?
                       then old(lists)[key := [buff] + if key in old(lists) then old(lists)[key] else []] else old(lists)
      ensures pool.refusals == old(pool.refusals) + if r.THROWN? then 1 else 0
      ensures forall h :: 0 <= h < old(used) && old(heads[h].key) == key && old(heads[h].memLink in mem) ==>
                var b := old(mem[heads[h].memLink]);
                !old(readonly) && b.self - b.used - HEADER >= cell ==> r.OK? || r.NEARLY_FULL?
      ensures forall i :: 0 <= i < |pool.cats| && i < |old(pool.freecount)| && pool.cats[i].size == base && old(pool.freecount)[i] > 0 ==>
                (!old(readonly) && key !in old(lists) && old(used) < heads.Length ==> r.OK? || r.NEARLY_FULL?)
      ensures used == old(used) + if key in lists && key !in old(lists) then 1 else 0
      ensures r.OK? ==> heads.Length - used >= HEAD_LIST_WATER_LINE
      ensures r.NEARLY_FULL? ==> heads.Length - used < HEAD_LIST_WATER_LINE
    {
      hide Store, MemoryOk, Mirror, Sized, HasRoom;
      MirrorShape();
      if readonly {
        return FULL;
      }
      var off := FindHead(key);
      var ok;
      if off == END_OF_LIST {
        NoHead(key);
      }
      if off != END_OF_LIST {
        HeadRoom(key, off);
        MirrorAt(off);
        ok := Append(off, buff);
      } else if used == heads.Length {
        readonly := true;
        return FULL;
      } else {
        ok := AddHead(key, buff);
      }
      r := if !ok then THROWN else if heads.Length - used >= HEAD_LIST_WATER_LINE then OK else NEARLY_FULL;
    }

    // ---------- iteration and clearing ----------

    /** `begin`: freezes the structure and sorts a copy of the heads. */
    method Begin()
      requires Valid()
      modifies `readonly, `sorted, `it
      ensures Valid() && readonly && it == 0 && |sorted| == used && Listing(sorted, lists)
      ensures forall i, j :: 0 <= i < j < |sorted| ==> sorted[i].key < sorted[j].key
      ensures forall k :: k in lists <==> exists i :: 0 <= i < |sorted| && sorted[i].key == k
    {
      hide Store, MemoryOk, SortByKey, Listing, Sized;
      SortedListing(table, hs, mem, chains, owner, lists, base, cell);
      readonly := true;
      sorted := SortByKey(heads[..used]);
      it := 0;
      ListingMeans(sorted, lists);
    }

    method ItGet(length: nat) returns (key: Key, n: nat, out: seq<byte>)
      requires Valid() && it < |sorted|
      ensures key == sorted[it].key && Served(CellsOf(lists, key), cell, length, n, out)
    {
      hide Valid, Served;
      key := sorted[it].key;
      n, out := Get(key, length);
    }

    method Next()
      modifies `it
      ensures it == old(it) + 1
    {
      it := it + 1;
    }

    /** The end is reached after exactly one step per head; the sorted copy is then freed. */
    method IsEnd() returns (end: bool)
      modifies `sorted
      ensures end == (it == used) && sorted == if end then [] else old(sorted)
    {
      end := it == used;
      if end {
        sorted := [];
      }
    }

    /** The inner loop of `clear`: returns one chain to the pool. */
    method FreeChain(link: Addr, ghost c: seq<Addr>)
      requires MemoryOk() && Linked(mem, c, link) && NoDup(c)
      modifies `mem, pool
      ensures MemoryOk() && mem == old(mem) - Elems(c)
    {
      hide MemoryOk, Linked, NoDup, Elems;
      var p := link;
      ghost var rest, gone: set<Addr> := c, {};
      assert old(mem) - {} == old(mem);
      while p != NULL
        invariant MemoryOk() && Linked(mem, rest, p) && NoDup(rest)
        invariant mem == old(mem) - gone && gone + Elems(rest) == Elems(c)
        decreases |rest|
      {
        UnlinkFirst(mem, rest, p);
        var next := mem[p].next;
        Release(p);
        rest, gone, p := rest[1..], gone + {p}, next;
      }
      LinkedEnd(mem, rest);
    }

    /** The outer loop of `clear`. */
    method FreeAll()
      requires Valid()
      modifies `mem, pool
      ensures MemoryOk() && mem == map[]
    {
      hide Store, MemoryOk, Mirror, OwnedBelow, Elems, Linked, NoDup;
      MirrorShape();
      OwnedBelowNone(mem, owner);
      var h := 0;
      while h < used
        invariant h <= used && MemoryOk() && Mirror() && mem == old(mem) - OwnedBelow(owner, h)
      {
        NextToFree(table, hs, old(mem), chains, owner, lists, base, cell, h, mem);
        MirrorAt(h);
        FreeChain(heads[h].memLink, chains[h]);
        h := h + 1;
      }
      NothingLeft(table, hs, old(mem), chains, owner, lists, base, cell);
    }

    /** `clear`: every block goes back, the pool is as at the start, no list is left. */
    method Clear()
      requires Valid()
      modifies `mem, `used, `readonly, `table, `hs, `chains, `owner, `lists, bucket, pool
      ensures Valid() && lists == map[] && used == 0 && !readonly && pool.Outstanding() == {} && pool.AllFree()
    {
      hide Store, Mirror, Sized, MB.MemBlocks.AllFree, MB.MemBlocks.Valid, MB.MemBlocks.Outstanding;
      FreeAll();
      Reset();
      Emptied();
    }

    lemma Emptied()
      requires MemoryOk() && mem == map[]
      ensures pool.Outstanding() == {} && pool.AllFree()
    {
      pool.AllReturned();
    }

    /** The end of `clear`: the buckets are emptied in one sweep. */
    method Reset()
      requires Sized() && MemoryOk() && mem == map[]
      modifies `used, `readonly, `table, `hs, `chains, `owner, `lists, bucket
      ensures Valid() && lists == map[] && used == 0 && !readonly
    {
      hide MemoryOk, Store;
      forall b | 0 <= b < bucket.Length {
        bucket[b] := END_OF_LIST;
      }
      used, readonly := 0, false;
      table, hs, chains, owner, lists := bucket[..], [], [], map[], map[];
      EmptyStore(table, base, cell);
    }
  }
}
