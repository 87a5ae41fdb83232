/** What the posting list class keeps, as values: the hash table, the block chains and the abstract
    lists of cells tied together, and what each operation does to all three. */
module PostingStore {
  import opened Prelude
  import opened Chains
  import opened PostingHeap
  import opened HeadTable
  import MB = MemBlocks

  /** One posting as the bytes that are stored for it. */
  type Cell = seq<byte>

  function Flat(cells: seq<Cell>): seq<byte> {
    if cells == [] then [] else cells[0] + Flat(cells[1..])
  }

  /** The cells stored for a term, [] if it has none. */
  function CellsOf(lists: map<Key, seq<Cell>>, key: Key): seq<Cell> {
    if key in lists then lists[key] else []
  }

  ghost predicate PowerOfTwo(n: nat) {
    Rung(n, 1)
  }

  predicate AllCells(cells: seq<Cell>, cell: nat) {
    forall i :: 0 <= i < |cells| ==> |cells[i]| == cell
  }

  predicate KeyUsed(heads: seq<Head>, key: Key) {
    exists h :: 0 <= h < |heads| && heads[h].key == key
  }

  predicate ListOk(lists: map<Key, seq<Cell>>, mem: Memory, c: seq<Addr>, key: Key, cell: nat) {
    key in lists && lists[key] != [] && AllCells(lists[key], cell) && Flat(lists[key]) == Stored(mem, c)
  }

  /** The abstract lists are exactly what the chains store. */
  ghost predicate ListsOk(lists: map<Key, seq<Cell>>, mem: Memory, chains: seq<seq<Addr>>, heads: seq<Head>, cell: nat) {
    && |chains| == |heads|
    && (forall k :: k in lists ==> KeyUsed(heads, k))
    && (forall h :: 0 <= h < |heads| ==> ListOk(lists, mem, chains[h], heads[h].key, cell))
  }

  lemma KeyUsedFrame(heads: seq<Head>, heads': seq<Head>, key: Key)
    requires KeyUsed(heads, key) && |heads| <= |heads'|
    requires forall g :: 0 <= g < |heads| ==> heads'[g].key == heads[g].key
    ensures KeyUsed(heads', key)
  {
    var g :| 0 <= g < |heads| && heads[g].key == key;
    assert heads'[g].key == key;
  }

  /** A change confined to list h. */
  lemma ListsMutate(lists: map<Key, seq<Cell>>, mem: Memory, chains: seq<seq<Addr>>, heads: seq<Head>, cell: nat,
                    lists': map<Key, seq<Cell>>, mem': Memory, chains': seq<seq<Addr>>, link: Addr, h: nat)
    requires ListsOk(lists, mem, chains, heads, cell) && DistinctKeys(heads) && h < |heads|
    requires |chains'| == |chains| && OthersKept(mem, chains, mem', chains', h)
    requires lists'.Keys == lists.Keys && forall k :: k in lists && k != heads[h].key ==> lists'[k] == lists[k]
    requires ListOk(lists', mem', chains'[h], heads[h].key, cell)
    ensures ListsOk(lists', mem', chains', heads[h := heads[h].(memLink := link)], cell)
  {
    hide KeyUsed, Stored;
    var heads' := heads[h := heads[h].(memLink := link)];
    forall g | 0 <= g < |heads'| ensures ListOk(lists', mem', chains'[g], heads'[g].key, cell) {
      if g != h {
        assert ListOk(lists, mem, chains[g], heads[g].key, cell);
        assert heads[g].key != heads[h].key;
        OtherListOk(lists, mem, chains[g], mem', chains'[g], heads[g].key, cell, lists');
      }
    }
    forall k | k in lists' ensures KeyUsed(heads', k) {
      KeyUsedFrame(heads, heads', k);
    }
  }

  /** Prepending a cell to list h. */
  lemma ListPush(lists: map<Key, seq<Cell>>, mem: Memory, c: seq<Addr>, key: Key, cell: nat,
                 mem': Memory, c': seq<Addr>, buff: Cell)
    requires ListOk(lists, mem, c, key, cell) && |buff| == cell && Stored(mem', c') == buff + Stored(mem, c)
    ensures ListOk(lists[key := [buff] + lists[key]], mem', c', key, cell)
  {
    hide Stored;
    FlatCons(buff, lists[key]);
  }

  /** A cell prepended to list h, wherever its chain now starts. */
  lemma ListsPush(lists: map<Key, seq<Cell>>, mem: Memory, chains: seq<seq<Addr>>, heads: seq<Head>, cell: nat,
                  mem': Memory, chains': seq<seq<Addr>>, link: Addr, h: nat, buff: Cell)
    requires ListsOk(lists, mem, chains, heads, cell) && DistinctKeys(heads) && h < |heads| && |buff| == cell
    requires |chains'| == |chains| && OthersKept(mem, chains, mem', chains', h) && heads[h].key in lists
    requires Stored(mem', chains'[h]) == buff + Stored(mem, chains[h])
    ensures ListsOk(lists[heads[h].key := [buff] + lists[heads[h].key]], mem', chains', heads[h := heads[h].(memLink := link)], cell)
  {
    var key := heads[h].key;
    var lists' := lists[key := [buff] + lists[key]];
    assert ListOk(lists, mem, chains[h], key, cell);
    hide ListOk, Stored, OthersKept, ListsOk;
    ListPush(lists, mem, chains[h], key, cell, mem', chains'[h], buff);
    ListsMutate(lists, mem, chains, heads, cell, lists', mem', chains', link, h);
  }

  lemma OtherListOk(lists: map<Key, seq<Cell>>, mem: Memory, c: seq<Addr>, mem': Memory, c': seq<Addr>,
                    key: Key, cell: nat, lists': map<Key, seq<Cell>>)
    requires ListOk(lists, mem, c, key, cell) && Stored(mem', c') == Stored(mem, c)
    requires key in lists' && lists'[key] == lists[key]
    ensures ListOk(lists', mem', c', key, cell)
  {
  }

  lemma LastKeyUsed(heads: seq<Head>, head: Head)
    ensures KeyUsed(heads + [head], head.key)
  {
    assert (heads + [head])[|heads|] == head;
  }

  lemma FlatCons(buff: Cell, cells: seq<Cell>)
    ensures Flat([buff] + cells) == buff + Flat(cells)
  {
    assert ([buff] + cells)[1..] == cells;
  }

  lemma ListsNew(lists: map<Key, seq<Cell>>, mem: Memory, chains: seq<seq<Addr>>, heads: seq<Head>, cell: nat,
                 mem': Memory, chains': seq<seq<Addr>>, head: Head, buff: Cell)
    requires ListsOk(lists, mem, chains, heads, cell) && head.key !in lists && |buff| == cell
    requires |chains'| == |chains| + 1 && OthersKept(mem, chains, mem', chains', |heads|)
    requires Stored(mem', chains'[|heads|]) == buff
    ensures ListsOk(lists[head.key := [buff]], mem', chains', heads + [head], cell)
  {
    hide Stored, KeyUsed;
    var lists', heads' := lists[head.key := [buff]], heads + [head];
    assert Flat([buff]) == buff + [] == buff;
    forall g | 0 <= g < |heads'| ensures ListOk(lists', mem', chains'[g], heads'[g].key, cell) {
      if g < |heads| {
        assert ListOk(lists, mem, chains[g], heads[g].key, cell);
      }
    }
    forall k | k in lists' ensures KeyUsed(heads', k) {
      if k != head.key {
        KeyUsedFrame(heads, heads', k);
      } else {
        LastKeyUsed(heads, head);
      }
    }
  }

  /** Everything that ties the hash table, the block chains and the abstract lists together. */
  ghost predicate Store(bucket: seq<nat>, hs: seq<Head>, mem: Memory, chains: seq<seq<Addr>>, owner: map<Addr, nat>,
                        lists: map<Key, seq<Cell>>, base: nat, cell: nat)
  {
    Table(bucket, hs) && HeapOk(mem, chains, owner, hs, base, cell) && ListsOk(lists, mem, chains, hs, cell)
  }

  /** What a caller may rely on at one head. */
  lemma StoreHead(bucket: seq<nat>, hs: seq<Head>, mem: Memory, chains: seq<seq<Addr>>, owner: map<Addr, nat>,
                  lists: map<Key, seq<Cell>>, base: nat, cell: nat, h: nat)
    requires Store(bucket, hs, mem, chains, owner, lists, base, cell) && h < |hs|
    ensures HeadBlock(mem, chains, hs, h) && |chains| == |hs| && hs[h].key in lists
    ensures mem[hs[h].memLink].self < UINT32 && Rung(mem[hs[h].memLink].self, base)
  {
    HeadBlockHolds(mem, chains, owner, hs, base, cell, h);
    assert ListOk(lists, mem, chains[h], hs[h].key, cell);
  }

  lemma StoreShape(bucket: seq<nat>, hs: seq<Head>, mem: Memory, chains: seq<seq<Addr>>, owner: map<Addr, nat>,
                   lists: map<Key, seq<Cell>>, base: nat, cell: nat)
    requires Store(bucket, hs, mem, chains, owner, lists, base, cell)
    ensures |chains| == |hs| && DistinctKeys(hs)
  {
  }

  lemma SameLink(hs: seq<Head>, h: nat)
    requires h < |hs|
    ensures hs[h := hs[h].(memLink := hs[h].memLink)] == hs
  {
  }

  /** The guard of the merge loop. */
  predicate CanMerge(mem: Memory, p: Addr) {
    p in mem && mem[p].next != NULL && mem[p].next in mem && mem[mem[p].next].self == mem[p].self
  }

  /** The loop guard holds for head h: a and b are the two first blocks of its chain. */
  ghost predicate MergeReady(bucket: seq<nat>, hs: seq<Head>, mem: Memory, chains: seq<seq<Addr>>, owner: map<Addr, nat>,
                             lists: map<Key, seq<Cell>>, base: nat, cell: nat, h: nat, a: Addr, b: Addr)
  {
    && Store(bucket, hs, mem, chains, owner, lists, base, cell) && h < |hs|
    && HeadBlock(mem, chains, hs, h) && |chains| == |hs| && |chains[h]| > 1
    && a == chains[h][0] && b == chains[h][1] && mem[a].self == mem[b].self
  }

  lemma ReadyToMerge(bucket: seq<nat>, hs: seq<Head>, mem: Memory, chains: seq<seq<Addr>>, owner: map<Addr, nat>,
                     lists: map<Key, seq<Cell>>, base: nat, cell: nat, h: nat)
    requires Store(bucket, hs, mem, chains, owner, lists, base, cell) && h < |hs| && CanMerge(mem, hs[h].memLink)
    requires PowerOfTwo(base)
    ensures var a := hs[h].memLink; var b := mem[a].next;
            MergeReady(bucket, hs, mem, chains, owner, lists, base, cell, h, a, b) && CanCombine(mem, a, b)
  {
    StoreHead(bucket, hs, mem, chains, owner, lists, base, cell, h);
    HeapChain(mem, chains, owner, hs, base, cell, h);
    hide Store, Rung, PowerOfTwo, ChainInv;
    DoubledSize(mem[hs[h].memLink].self, base);
  }

  lemma StoreMergeReady(bucket: seq<nat>, hs: seq<Head>, mem: Memory, chains: seq<seq<Addr>>, owner: map<Addr, nat>,
                        lists: map<Key, seq<Cell>>, base: nat, cell: nat, h: nat, a: Addr, b: Addr)
    requires MergeReady(bucket, hs, mem, chains, owner, lists, base, cell, h, a, b)
    ensures Store(bucket, hs, mem, chains, owner, lists, base, cell) && h < |hs| == |chains| && |chains[h]| > 1
  {
  }

  /** Two blocks of equal size, whose doubled 32-bit size is right or 0. */
  predicate CanCombine(mem: Memory, a: Addr, b: Addr) {
    && a in mem && b in mem && a != b && Sound(mem[a]) && Sound(mem[b])
    && mem[a].self == mem[b].self < UINT32
    && (2 * mem[a].self) % UINT32 == if 2 * mem[a].self < UINT32 then 2 * mem[a].self else 0
  }

  lemma StoreMerged(bucket: seq<nat>, hs: seq<Head>, mem: Memory, chains: seq<seq<Addr>>, owner: map<Addr, nat>,
                    lists: map<Key, seq<Cell>>, base: nat, cell: nat, h: nat, a: Addr, b: Addr, q: Addr, mem': Memory)
    requires MergeReady(bucket, hs, mem, chains, owner, lists, base, cell, h, a, b)
    requires q !in mem && q != NULL && Combined(mem, a, b, q, mem')
    ensures h < |hs| && h < |chains| && 2 <= |chains[h]|
    ensures Store(bucket, hs[h := hs[h].(memLink := q)], mem', chains[h := [q] + chains[h][2..]],
                  owner[q := h] - {a, b}, lists, base, cell)
  {
    StoreMerge(bucket, hs, mem, chains, owner, lists, base, cell, h, q);
  }

  /** The memory after a and b were merged into q. */
  predicate Combined(mem: Memory, a: Addr, b: Addr, q: Addr, mem': Memory) {
    && a in mem && b in mem && Sound(mem[a]) && Sound(mem[b]) && mem[a].self == mem[b].self
    && 2 * mem[a].self < UINT32 && mem' == mem[q := Merged(mem[a], mem[b])] - {a, b}
  }

  /** Room for one more cell in the block at p: `left_size >= m_postinglist_cell_size`. */
  predicate HasRoom(mem: Memory, p: Addr, cell: nat) {
    p in mem && Sound(mem[p]) && Room(mem[p]) >= cell
  }

  /** No merge applies: the assertion after the merge loop. */
  lemma LoopExit(bucket: seq<nat>, hs: seq<Head>, mem: Memory, chains: seq<seq<Addr>>, owner: map<Addr, nat>,
                 lists: map<Key, seq<Cell>>, base: nat, cell: nat, h: nat)
    requires Store(bucket, hs, mem, chains, owner, lists, base, cell) && h < |hs| && !CanMerge(mem, hs[h].memLink)
    ensures hs[h].memLink in mem
    ensures var b := mem[hs[h].memLink]; b.next == NULL || (b.next in mem && b.self < mem[b.next].self)
  {
    hide HeapOk, Table, ListsOk, ChainInv, Rung, Sound;
    HeadBlockHolds(mem, chains, owner, hs, base, cell, h);
    HeapChain(mem, chains, owner, hs, base, cell, h);
    if |chains[h]| > 1 {
      SizesAscend(mem, chains[h], hs[h].memLink, base, cell);
    }
  }

  lemma SizesAscend(mem: Memory, c: seq<Addr>, p: Addr, base: nat, cell: nat)
    requires ChainInv(mem, c, p, base, cell) && |c| > 1
    ensures mem[c[0]].self <= mem[c[1]].self
  {
    var bs := BlocksAt(mem, c);
    assert bs[0].self <= bs[1].self;
  }

  /** A cell written into the room of the head block. */
  lemma StorePut(bucket: seq<nat>, hs: seq<Head>, mem: Memory, chains: seq<seq<Addr>>, owner: map<Addr, nat>,
                 lists: map<Key, seq<Cell>>, base: nat, cell: nat, h: nat, buff: Cell)
    requires Store(bucket, hs, mem, chains, owner, lists, base, cell) && h < |hs| && |buff| == cell
    requires HasRoom(mem, hs[h].memLink, cell) && HeadBlock(mem, chains, hs, h) && hs[h].key in lists
    ensures Store(bucket, hs, mem[hs[h].memLink := CopyIn(mem[hs[h].memLink], buff)], chains, owner,
                  lists[hs[h].key := [buff] + lists[hs[h].key]], base, cell)
  {
    var p := hs[h].memLink;
    var mem' := mem[p := CopyIn(mem[p], buff)];
    StoreShape(bucket, hs, mem, chains, owner, lists, base, cell);
    hide HeapOk, OthersKept, CopyIn, Stored, Table, ListsOk, HeadBlock, DistinctKeys, Room, Sound;
    SameLink(hs, h);
    PutHeap(mem, chains, owner, hs, base, cell, h, buff);
    ListsPush(lists, mem, chains, hs, cell, mem', chains, p, h, buff);
  }

  /** The two first blocks of a chain merged into the new block q: no list changes. */
  lemma StoreMerge(bucket: seq<nat>, hs: seq<Head>, mem: Memory, chains: seq<seq<Addr>>, owner: map<Addr, nat>,
                   lists: map<Key, seq<Cell>>, base: nat, cell: nat, h: nat, q: Addr)
    requires Store(bucket, hs, mem, chains, owner, lists, base, cell) && h < |hs| && q !in mem && q != NULL
    requires HeadBlock(mem, chains, hs, h) && |chains[h]| > 1
    requires mem[chains[h][0]].self == mem[chains[h][1]].self && 2 * mem[chains[h][0]].self < UINT32
    ensures var c := chains[h];
            Store(bucket, hs[h := hs[h].(memLink := q)], mem[q := Merged(mem[c[0]], mem[c[1]])] - {c[0], c[1]},
                  chains[h := [q] + c[2..]], owner[q := h] - {c[0], c[1]}, lists, base, cell)
  {
    var c, key := chains[h], hs[h].key;
    var mem' := mem[q := Merged(mem[c[0]], mem[c[1]])] - {c[0], c[1]};
    var chains' := chains[h := [q] + c[2..]];
    MergeHeap(mem, chains, owner, hs, base, cell, h, q);
    RelinkHead(bucket, hs, h, q);
    hide HeapOk, OthersKept, Merged, Stored;
    assert ListOk(lists, mem, c, key, cell);
    OtherListOk(lists, mem, c, mem', chains'[h], key, cell, lists);
    hide Table, ListOk;
    ListsMutate(lists, mem, chains, hs, cell, lists, mem', chains', q, h);
  }

  /** No merge applies: the assertion after the merge loop holds, and a new smallest block that
      holds the cell goes in front. */
  lemma StoreGrow(bucket: seq<nat>, hs: seq<Head>, mem: Memory, chains: seq<seq<Addr>>, owner: map<Addr, nat>,
                  lists: map<Key, seq<Cell>>, base: nat, cell: nat, h: nat, q: Addr, b: Block, buff: Cell)
    requires Store(bucket, hs, mem, chains, owner, lists, base, cell) && h < |hs| && q !in mem && q != NULL
    requires HeadBlock(mem, chains, hs, h) && hs[h].key in lists
    requires !HasRoom(mem, hs[h].memLink, cell) && !CanMerge(mem, hs[h].memLink)
    requires cell > 0 && Sound(b) && b.self == base < UINT32 && b.next == hs[h].memLink && Used(b) == buff && |buff| == cell
    ensures Store(bucket, hs[h := hs[h].(memLink := q)], mem[q := b], chains[h := [q] + chains[h]], owner[q := h],
                  lists[hs[h].key := [buff] + lists[hs[h].key]], base, cell)
  {
    var c, key := chains[h], hs[h].key;
    var mem' := mem[q := b];
    var chains' := chains[h := [q] + c];
    var lists' := lists[key := [buff] + lists[key]];
    OneCell(b, cell);
    GrowHeap(mem, chains, owner, hs, base, cell, h, q, b);
    RelinkHead(bucket, hs, h, q);
    assert |chains| == |hs| && DistinctKeys(hs);
    hide HeapOk, OthersKept, Used, Stored, Table, ListsOk;
    ListsPush(lists, mem, chains, hs, cell, mem', chains', q, h, buff);
  }

  /** A new term: a new head in front of its bucket, with one smallest block. */
  lemma StoreNew(bucket: seq<nat>, hs: seq<Head>, mem: Memory, chains: seq<seq<Addr>>, owner: map<Addr, nat>,
                 lists: map<Key, seq<Cell>>, base: nat, cell: nat, key: Key, q: Addr, b: Block, buff: Cell)
    requires Store(bucket, hs, mem, chains, owner, lists, base, cell) && q !in mem && q != NULL
    requires key !in lists && |hs| < END_OF_LIST
    requires cell > 0 && Sound(b) && b.self == base < UINT32 && b.next == NULL && Used(b) == buff && |buff| == cell
    ensures |bucket| > 0
    ensures var slot := BucketOf(key, |bucket|);
            Store(bucket[slot := |hs|], hs + [Head(key, bucket[slot], q)], mem[q := b], chains + [[q]], owner[q := |hs|],
                  lists[key := [buff]], base, cell)
  {
    var slot := BucketOf(key, |bucket|);
    var head := Head(key, bucket[slot], q);
    forall h | 0 <= h < |hs| ensures hs[h].key != key {
      assert ListOk(lists, mem, chains[h], hs[h].key, cell);
    }
    OneCell(b, cell);
    AppendHead(bucket, hs, key, q);
    NewHeap(mem, chains, owner, hs, base, cell, q, b, head);
    hide HeapOk, OthersKept, Used, Stored, Table, ListsOk;
    ListsNew(lists, mem, chains, hs, cell, mem[q := b], chains + [[q]], head, buff);
  }

  lemma OneCell(b: Block, cell: nat)
    requires cell > 0 && b.used == cell
    ensures WholeCells(b, cell)
  {
    DivisionOf(cell, cell, 1, 0);
  }

  /** A power of two below 2^32 doubles to at most 2^32, so the 32-bit size of a merged block is
      either right or 0, which the allocator refuses. */
  lemma DoubledSize(self: nat, base: nat)
    requires Rung(self, base) && PowerOfTwo(base) && self < UINT32
    ensures (2 * self) % UINT32 == if 2 * self < UINT32 then 2 * self else 0
  {
    var j: nat :| base == Scale(1, j);
    var k: nat :| self == Scale(base, k);
    ScaleTwice(j, k);
    assert UINT32 == Scale(1, 32) by { Scale32(); }
    RungGap(self, UINT32, 1);
  }

  lemma {:induction false} ScaleTwice(j: nat, k: nat)
    ensures Scale(Scale(1, j), k) == Scale(1, j + k)
  {
    if k > 0 {
      ScaleTwice(j, k - 1);
    }
  }

  lemma Scale32()
    ensures Scale(1, 32) == UINT32
  {
    assert Scale(1, 8) == 256;
    ScaleTwice(8, 8);
    assert Scale(256, 8) == 65536;
    ScaleTwice(16, 8);
    assert Scale(65536, 8) == 16777216;
    ScaleTwice(24, 8);
    assert Scale(16777216, 8) == UINT32;
  }

  /** A finished walk has either found the key or excluded it. */
  lemma SearchDecides(lists: map<Key, seq<Cell>>, mem: Memory, chains: seq<seq<Addr>>, hs: seq<Head>, cell: nat,
                      key: Key, off: nat)
    requires ListsOk(lists, mem, chains, hs, cell) && |hs| <= END_OF_LIST
    requires off == END_OF_LIST || (off < |hs| && hs[off].key == key)
    requires forall h :: 0 <= h < |hs| && hs[h].key == key ==> Reaches(hs, off, h)
    ensures off == END_OF_LIST <==> key !in lists
  {
    if off != END_OF_LIST {
      assert ListOk(lists, mem, chains[off], hs[off].key, cell);
    } else {
      hide Reaches;
      forall h | 0 <= h < |hs| ensures hs[h].key != key {
        EndReachesNothing(hs, h);
      }
    }
  }

  lemma EndReachesNothing(hs: seq<Head>, h: nat)
    requires h < |hs| <= END_OF_LIST
    ensures !Reaches(hs, END_OF_LIST, h)
  {
  }

  /** The smallest power of two with room for the header and four cells. */
  method SmallestBlock(need: nat) returns (size: nat)
    requires 0 < need <= 0x8000_0000
    ensures PowerOfTwo(size) && need <= size < UINT32 && size < 2 * need
  {
    size := 1;
    assert size == Scale(1, 0);
    while size < need
      invariant PowerOfTwo(size) && 0 < size < 2 * need
    {
      RungDoubles(size, 1);
      size := size * 2;
    }
  }

  lemma CategorySizes(base: nat, counts: seq<nat>)
    requires base > 0 && 0 < |counts| <= MB.MAX_CATEGORIES && forall i :: 0 <= i < |counts| ==> counts[i] > 0
    ensures MB.GoodConfig(Doubling(base, |counts|), counts)
  {
    forall i | 0 < i < |counts| ensures Scale(base, i - 1) <= Scale(base, i) {
      ScaleMono(base, i - 1, i);
    }
  }

  /** One more cell at the front of one list, nothing else. */
  predicate Pushed(lists: map<Key, seq<Cell>>, lists': map<Key, seq<Cell>>, key: Key, buff: Cell) {
    lists' == lists[key := [buff] + CellsOf(lists, key)]
  }

  lemma FreshRoom(mem: Memory, q: Addr, base: nat, next: Addr, cell: nat)
    requires q in mem && base >= HEADER + cell && mem[q] == Fresh(base, next)
    ensures HasRoom(mem, q, cell) && Sound(mem[q]) && Room(mem[q]) >= cell
  {
  }

  lemma GrownMemory(mem: Memory, q: Addr, b: Block, b': Block)
    ensures mem[q := b][q := b'] == mem[q := b']
  {
  }

  /** The empty structure. */
  lemma EmptyStore(table: seq<nat>, base: nat, cell: nat)
    requires table != [] && forall b :: 0 <= b < |table| ==> table[b] == END_OF_LIST
    ensures Store(table, [], map[], [], map[], map[], base, cell)
  {
    assert forall b :: 0 <= b < |table| ==> BucketOk(table, [], b);
  }

  /** The block sizes of the pool: each twice the one before. */
  function Doubling(base: nat, n: nat): (r: seq<nat>)
    ensures |r| == n && forall i :: 0 <= i < n ==> r[i] == Scale(base, i)
  {
    seq(n, i requires 0 <= i < n => Scale(base, i))
  }

  // ---------- sorted iteration and clearing ----------

  /** The sorted heads name every stored term exactly once, in ascending order. */
  ghost predicate Listing(sorted: seq<Head>, lists: map<Key, seq<Cell>>) {
    Ascending(sorted) && forall k :: k in lists <==> KeyUsed(sorted, k)
  }

  lemma SortedListing(bucket: seq<nat>, hs: seq<Head>, mem: Memory, chains: seq<seq<Addr>>, owner: map<Addr, nat>,
                      lists: map<Key, seq<Cell>>, base: nat, cell: nat)
    requires Store(bucket, hs, mem, chains, owner, lists, base, cell)
    ensures Listing(SortByKey(hs), lists) && |SortByKey(hs)| == |hs|
  {
    hide HeapOk, SortByKey, Table, ListsOk, KeyUsed;
    var s := SortByKey(hs);
    StoreShape(bucket, hs, mem, chains, owner, lists, base, cell);
    SortVisitsEachOnce(hs);
    forall k ensures k in lists <==> KeyUsed(s, k) {
      KeysAreTerms(lists, mem, chains, hs, cell, k);
      if KeyUsed(hs, k) {
        SameKeys(hs, s, k);
      }
      if KeyUsed(s, k) {
        SameKeys(s, hs, k);
      }
    }
  }

  lemma KeysAreTerms(lists: map<Key, seq<Cell>>, mem: Memory, chains: seq<seq<Addr>>, hs: seq<Head>, cell: nat, k: Key)
    requires ListsOk(lists, mem, chains, hs, cell)
    ensures k in lists <==> KeyUsed(hs, k)
  {
    hide Stored, Flat, AllCells;
    if KeyUsed(hs, k) {
      var h :| 0 <= h < |hs| && hs[h].key == k;
      assert ListOk(lists, mem, chains[h], hs[h].key, cell);
    }
  }

  lemma SameKeys(s: seq<Head>, t: seq<Head>, key: Key)
    requires multiset(s) == multiset(t) && KeyUsed(s, key)
    ensures KeyUsed(t, key)
  {
    var i :| 0 <= i < |s| && s[i].key == key;
    assert s[i] in multiset(t);
    var j :| 0 <= j < |t| && t[j] == s[i];
  }

  function Elems(c: seq<Addr>): set<Addr> {
    set a | a in c
  }

  /** The addresses on the chains of the first h heads. */
  function OwnedBelow(owner: map<Addr, nat>, h: nat): set<Addr> {
    set a | a in owner && owner[a] < h
  }

  /** Freeing the first block leaves the rest of the chain linked. */
  lemma UnlinkFirst(mem: Memory, c: seq<Addr>, p: Addr)
    requires Linked(mem, c, p) && NoDup(c) && p != NULL
    ensures c != [] && p in mem && c[0] == p
    ensures Linked(mem - {p}, c[1..], mem[p].next) && NoDup(c[1..]) && Elems(c) == {p} + Elems(c[1..])
  {
    LinkedMapped(mem, c, p);
    assert forall i :: 0 <= i < |c[1..]| ==> c[1..][i] == c[i + 1];
    LinkedFrame(mem, mem - {p}, c[1..], mem[p].next);
    assert c == [p] + c[1..];
  }

  lemma LinkedEnd(mem: Memory, c: seq<Addr>)
    requires Linked(mem, c, NULL)
    ensures c == [] && Elems(c) == {}
  {
  }

  lemma OwnedBelowNone(mem: Memory, owner: map<Addr, nat>)
    ensures mem - OwnedBelow(owner, 0) == mem
  {
    assert OwnedBelow(owner, 0) == {};
  }

  /** When the chains below h are gone, chain h is still intact and is the next part to go. */
  lemma NextToFree(bucket: seq<nat>, hs: seq<Head>, mem: Memory, chains: seq<seq<Addr>>, owner: map<Addr, nat>,
                   lists: map<Key, seq<Cell>>, base: nat, cell: nat, h: nat, mem': Memory)
    requires Store(bucket, hs, mem, chains, owner, lists, base, cell) && h < |hs|
    requires mem' == mem - OwnedBelow(owner, h)
    ensures |chains| == |hs| && Linked(mem', chains[h], hs[h].memLink) && NoDup(chains[h])
    ensures mem' - Elems(chains[h]) == mem - OwnedBelow(owner, h + 1)
  {
    hide HeapOk, Store, ChainInv, Table, ListsOk, Owned, Linked, NoDup;
    StoreChain(bucket, hs, mem, chains, owner, lists, base, cell, h);
    var c := chains[h];
    OwnersMembers(mem, chains, owner, h);
    forall i | 0 <= i < |c| ensures c[i] in mem' && mem'[c[i]] == mem[c[i]] {
      assert c[i] in c;
    }
    LinkedFrame(mem, mem', c, hs[h].memLink);
    RemovedTwice(mem, owner, h, c);
  }

  lemma RemovedTwice(mem: Memory, owner: map<Addr, nat>, h: nat, c: seq<Addr>)
    requires forall a :: a in c <==> a in owner && owner[a] == h
    ensures mem - OwnedBelow(owner, h) - Elems(c) == mem - OwnedBelow(owner, h + 1)
  {
    assert OwnedBelow(owner, h) + Elems(c) == OwnedBelow(owner, h + 1);
  }

  lemma StoreChain(bucket: seq<nat>, hs: seq<Head>, mem: Memory, chains: seq<seq<Addr>>, owner: map<Addr, nat>,
                   lists: map<Key, seq<Cell>>, base: nat, cell: nat, h: nat)
    requires Store(bucket, hs, mem, chains, owner, lists, base, cell) && h < |hs|
    ensures Owned(mem, chains, owner) && |chains| == |hs| && NoDup(chains[h])
    ensures Linked(mem, chains[h], hs[h].memLink) && Mapped(mem, chains[h])
  {
    hide Owned, Table, ListsOk, Linked;
    StoreOwned(bucket, hs, mem, chains, owner, lists, base, cell);
    HeapChain(mem, chains, owner, hs, base, cell, h);
  }

  lemma StoreOwned(bucket: seq<nat>, hs: seq<Head>, mem: Memory, chains: seq<seq<Addr>>, owner: map<Addr, nat>,
                   lists: map<Key, seq<Cell>>, base: nat, cell: nat)
    requires Store(bucket, hs, mem, chains, owner, lists, base, cell)
    ensures Owned(mem, chains, owner) && |chains| == |hs|
  {
    hide Owned, ChainInv, Table, ListsOk;
  }

  lemma OwnersMembers(mem: Memory, chains: seq<seq<Addr>>, owner: map<Addr, nat>, h: nat)
    requires Owned(mem, chains, owner) && h < |chains|
    ensures forall a :: a in chains[h] <==> a in owner && owner[a] == h
  {
  }

  ghost predicate OnChain(chains: seq<seq<Addr>>, a: Addr) {
    exists h :: 0 <= h < |chains| && a in chains[h]
  }

  /** No block is on two chains, or twice on one. */
  ghost predicate EachOnce(chains: seq<seq<Addr>>) {
    forall h, i, g, j | 0 <= h < |chains| && 0 <= i < |chains[h]| && 0 <= g < |chains| && 0 <= j < |chains[g]| ::
      chains[h][i] == chains[g][j] ==> h == g && i == j
  }

  lemma OwnedOnChain(mem: Memory, chains: seq<seq<Addr>>, owner: map<Addr, nat>)
    requires Owned(mem, chains, owner)
    ensures forall a :: a in mem <==> OnChain(chains, a)
    ensures EachOnce(chains)
  {
    forall a ensures a in mem <==> OnChain(chains, a) {
      if a in owner {
        assert a in chains[owner[a]];
      }
    }
  }

  lemma NothingLeft(bucket: seq<nat>, hs: seq<Head>, mem: Memory, chains: seq<seq<Addr>>, owner: map<Addr, nat>,
                    lists: map<Key, seq<Cell>>, base: nat, cell: nat)
    requires Store(bucket, hs, mem, chains, owner, lists, base, cell)
    ensures mem - OwnedBelow(owner, |hs|) == map[]
  {
    hide Store;
    StoreOwned(bucket, hs, mem, chains, owner, lists, base, cell);
    assert forall a :: a in owner ==> owner[a] < |hs|;
  }

  /** The memory after both copies and both releases of a merge. */
  lemma MergedMemory(mem: Memory, a: Addr, b: Addr, q: Addr)
    requires a in mem && b in mem && q !in mem && a != b && Sound(mem[a]) && Sound(mem[b]) && mem[a].self == mem[b].self
    ensures var first := mem[q := Fresh(2 * mem[a].self, mem[b].next)];
            var second := first[q := CopyIn(first[q], Used(first[b]))];
            var third := second[q := CopyIn(second[q], Used(second[a]))];
            third - {b} - {a} == mem[q := Merged(mem[a], mem[b])] - {a, b}
  {
    hide CopyIn, Used;
  }

  /** The state of the copy loop: p is the i-th block of the chain. */
  ghost predicate Walk(mem: Memory, c: seq<Addr>, i: nat, p: Addr, cell: nat,
                       out: seq<byte>, n: nat, left: nat, length: nat) {
    && Mapped(mem, c) && i <= |c| && Linked(mem, c[i..], p)
    && CopyInv(BlocksAt(mem, c), i, cell, out, n, left, length)
  }

  lemma WalkStart(mem: Memory, c: seq<Addr>, link: Addr, base: nat, cell: nat, length: nat)
    requires ChainInv(mem, c, link, base, cell)
    ensures Walk(mem, c, 0, link, cell, [], 0, length, length)
  {
    assert c[0..] == c;
    CopyStart(BlocksAt(mem, c), base, cell, length);
  }

  lemma WalkStep(mem: Memory, c: seq<Addr>, i: nat, p: Addr, cell: nat,
                 out: seq<byte>, n: nat, left: nat, length: nat)
    requires Walk(mem, c, i, p, cell, out, n, left, length) && p != NULL && left > 0
    ensures i < |c| && p in mem && Sound(mem[p]) && cell > 0
    ensures var copy := if left > mem[p].used then mem[p].used else left;
            copy <= left && copy <= |Used(mem[p])|
            && Walk(mem, c, i + 1, mem[p].next, cell, out + Used(mem[p])[..copy], n + CellsIn(copy, cell), left - copy, length)
  {
    assert i < |c|;
    var bs := BlocksAt(mem, c);
    assert c[i..][0] == c[i] == p && c[i..][1..] == c[i + 1..];
    hide CopyInv, Used, CellsIn;
    CopyStep(bs, i, cell, out, n, left, length);
  }

  lemma WalkEnd(mem: Memory, c: seq<Addr>, i: nat, p: Addr, cell: nat,
                out: seq<byte>, n: nat, left: nat, length: nat)
    requires Walk(mem, c, i, p, cell, out, n, left, length) && (p == NULL || left == 0)
    ensures Mapped(mem, c) && AllSound(BlocksAt(mem, c)) && cell > 0
    ensures out == Take(length, Content(BlocksAt(mem, c))) && n == CellsIn(|out|, cell)
  {
    if left > 0 {
      assert i == |c|;
    }
    hide CopyInv;
    CopyEnd(BlocksAt(mem, c), i, cell, out, n, left, length);
  }

  /** What a read of `length` bytes must deliver: the newest bytes that fit, and in them the newest
      min(list length, length / cell) cells, whole. */
  predicate Served(cells: seq<Cell>, cell: nat, length: nat, n: nat, out: seq<byte>) {
    && cell > 0 && n == Min(|cells|, length / cell)
    && out == Take(length, Flat(cells)) && Flat(cells[..n]) <= out
  }

  lemma ServedMeans(cells: seq<Cell>, cell: nat, length: nat, n: nat, out: seq<byte>)
    requires Served(cells, cell, length, n, out)
    ensures cell > 0 && n == Min(|cells|, length / cell) && out == Take(length, Flat(cells))
  {
  }

  lemma ListingMeans(sorted: seq<Head>, lists: map<Key, seq<Cell>>)
    requires Listing(sorted, lists)
    ensures forall i, j :: 0 <= i < j < |sorted| ==> sorted[i].key < sorted[j].key
    ensures forall k :: k in lists <==> exists i :: 0 <= i < |sorted| && sorted[i].key == k
  {
    forall k ensures k in lists <==> exists i :: 0 <= i < |sorted| && sorted[i].key == k {
      assert k in lists <==> KeyUsed(sorted, k);
    }
  }

  function CellsIn(bytes: nat, cell: nat): nat
    requires cell > 0
  {
    bytes / cell
  }

  /** After i blocks: whole blocks so far, or the buffer is full. */
  ghost predicate CopyInv(bs: seq<Block>, i: nat, cell: nat, out: seq<byte>, n: nat, left: nat, length: nat) {
    && cell > 0 && i <= |bs| && AllSound(bs) && left + |out| == length && n == CellsIn(|out|, cell)
    && (forall j :: 0 <= j < |bs| ==> WholeCells(bs[j], cell))
    && (if left > 0 then |out| % cell == 0 && out + Content(bs[i..]) == Content(bs)
        else out == Take(length, Content(bs)))
  }

  lemma CopyStart(bs: seq<Block>, base: nat, cell: nat, length: nat)
    requires Counter(bs, base, cell)
    ensures CopyInv(bs, 0, cell, [], 0, length, length)
  {
    assert bs[0..] == bs && [] + Content(bs) == Content(bs);
    assert length == 0 ==> Take(length, Content(bs)) == [];
  }

  /** One block copied: whole blocks extend the prefix, a last partial one completes it. */
  lemma CopyStep(bs: seq<Block>, i: nat, cell: nat, out: seq<byte>, n: nat, left: nat, length: nat)
    requires CopyInv(bs, i, cell, out, n, left, length) && i < |bs| && left > 0
    ensures Sound(bs[i])
    ensures var copy := if left > bs[i].used then bs[i].used else left;
            CopyInv(bs, i + 1, cell, out + Used(bs[i])[..copy], n + CellsIn(copy, cell), left - copy, length)
  {
    var copy := if left > bs[i].used then bs[i].used else left;
    AddWhole(|out|, copy, cell);
    var u, rest := Used(bs[i]), Content(bs[i + 1..]);
    assert bs[i..][1..] == bs[i + 1..] && Content(bs[i..]) == u + rest;
    assert WholeCells(bs[i], cell);
    hide WholeCells, Used, Content;
    if left > copy {
      assert u[..copy] == u;
      assert out + (u + rest) == (out + u) + rest;
    } else {
      assert (out + (u + rest))[..|out| + left] == out + u[..left];
    }
  }

  lemma CopyEnd(bs: seq<Block>, i: nat, cell: nat, out: seq<byte>, n: nat, left: nat, length: nat)
    requires CopyInv(bs, i, cell, out, n, left, length) && (left > 0 ==> i == |bs|)
    ensures AllSound(bs) && out == Take(length, Content(bs)) && n == CellsIn(|out|, cell)
  {
    if left > 0 {
      assert bs[i..] == [] && out + [] == out;
    }
  }

  lemma {:induction false} FlatLength(cells: seq<Cell>, cell: nat)
    requires AllCells(cells, cell)
    ensures |Flat(cells)| == |cells| * cell
  {
    if cells != [] {
      FlatLength(cells[1..], cell);
    }
  }

  lemma {:induction false} FlatPrefix(cells: seq<Cell>, n: nat)
    requires n <= |cells|
    ensures Flat(cells[..n]) <= Flat(cells)
  {
    if n > 0 {
      FlatPrefix(cells[1..], n - 1);
      assert cells[..n][1..] == cells[1..][..n - 1];
    }
  }

  /** A byte prefix holds exactly the newest cells that fit. */
  lemma PrefixCells(cells: seq<Cell>, cell: nat, length: nat)
    requires cell > 0 && AllCells(cells, cell)
    ensures var out := Take(length, Flat(cells)); Served(cells, cell, length, |out| / cell, out)
  {
    var n := Min(|cells|, length / cell);
    FlatLength(cells, cell);
    FlatPrefix(cells, n);
    FlatLength(cells[..n], cell);
    CellArithmetic(cell, length, |cells|);
    CellArithmetic(cell, length, n);
    if |Flat(cells)| <= length {
      DivisionOf(|Flat(cells)|, cell, |cells|, 0);
    }
  }
}
