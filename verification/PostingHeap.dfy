/** The pointer structure of a posting list as values: memory is a map from addresses to blocks, a
    chain is the sequence of addresses its next pointers visit, and every block has one owner. */
module PostingHeap {
  import opened Prelude
  import opened Chains

  type Memory = map<Addr, Block>
  type Key = nat

  const END_OF_LIST: nat := 0xFFFFFFFF
  const UINT32: nat := 0x1_0000_0000

  datatype Head = Head(key: Key, next: nat, memLink: Addr)

  // ---------- chains of blocks ----------

  predicate Mapped(mem: Memory, c: seq<Addr>) {
    forall i :: 0 <= i < |c| ==> c[i] in mem
  }

  function BlocksAt(mem: Memory, c: seq<Addr>): (bs: seq<Block>)
    requires Mapped(mem, c)
    ensures |bs| == |c| && forall i :: 0 <= i < |c| ==> bs[i] == mem[c[i]]
  {
    seq(|c|, i requires 0 <= i < |c| => mem[c[i]])
  }

  /** Following next pointers from p visits exactly the addresses of c and ends in NULL. */
  predicate Linked(mem: Memory, c: seq<Addr>, p: Addr) {
    if c == [] then p == NULL
    else p != NULL && c[0] == p && p in mem && Linked(mem, c[1..], mem[p].next)
  }

  lemma {:induction false} LinkedMapped(mem: Memory, c: seq<Addr>, p: Addr)
    requires Linked(mem, c, p)
    ensures Mapped(mem, c)
  {
    if c != [] {
      LinkedMapped(mem, c[1..], mem[p].next);
      assert forall i :: 1 <= i < |c| ==> c[i] == c[1..][i - 1];
    }
  }

  /** The first two links of a chain. */
  lemma LinkedHead(mem: Memory, c: seq<Addr>, p: Addr)
    requires Linked(mem, c, p) && c != []
    ensures p in mem && c[0] == p && p != NULL
    ensures mem[p].next != NULL <==> |c| > 1
    ensures |c| > 1 ==> mem[p].next == c[1] && c[1] in mem && Linked(mem, c[2..], mem[c[1]].next)
  {
    if |c| > 1 {
      assert c[1..][0] == c[1] && c[1..][1..] == c[2..];
    }
  }

  lemma {:induction false} LinkedFrame(mem: Memory, mem': Memory, c: seq<Addr>, p: Addr)
    requires Linked(mem, c, p) && Mapped(mem, c) && Mapped(mem', c)
    requires forall i :: 0 <= i < |c| ==> mem'[c[i]].next == mem[c[i]].next
    ensures Linked(mem', c, p)
  {
    if c != [] {
      assert forall i :: 0 <= i < |c[1..]| ==> c[1..][i] == c[i + 1];
      LinkedFrame(mem, mem', c[1..], mem[p].next);
    }
  }

  ghost predicate ChainInv(mem: Memory, c: seq<Addr>, p: Addr, base: nat, cell: nat) {
    && c != [] && Linked(mem, c, p) && Mapped(mem, c)
    && Counter(BlocksAt(mem, c), base, cell)
    && forall i :: 0 <= i < |c| ==> mem[c[i]].self < UINT32
  }

  /** A chain none of whose blocks changed keeps its invariant and its content. */
  lemma ChainFrame(mem: Memory, mem': Memory, c: seq<Addr>, p: Addr, base: nat, cell: nat)
    requires ChainInv(mem, c, p, base, cell)
    requires forall i :: 0 <= i < |c| ==> c[i] in mem' && mem'[c[i]] == mem[c[i]]
    ensures ChainInv(mem', c, p, base, cell) && BlocksAt(mem', c) == BlocksAt(mem, c)
  {
    LinkedFrame(mem, mem', c, p);
    assert BlocksAt(mem', c) == BlocksAt(mem, c);
  }

  /** Putting bytes into the head block. */
  lemma PutChain(mem: Memory, c: seq<Addr>, p: Addr, base: nat, cell: nat, bytes: seq<byte>)
    requires ChainInv(mem, c, p, base, cell) && NoDup(c) && |bytes| == cell && Room(mem[p]) >= cell
    ensures var mem' := mem[p := CopyIn(mem[p], bytes)];
            ChainInv(mem', c, p, base, cell) && Content(BlocksAt(mem', c)) == bytes + Content(BlocksAt(mem, c))
  {
    var bs := BlocksAt(mem, c);
    var mem' := mem[p := CopyIn(mem[p], bytes)];
    hide Counter, CopyIn;
    assert AllSound(bs) by { CounterSound(bs, base, cell); }
    PutKeepsCounter(bs, base, cell, bytes);
    assert forall i :: 1 <= i < |c| ==> c[i] != p;
    assert BlocksAt(mem', c) == bs[0 := CopyIn(bs[0], bytes)];
    LinkedFrame(mem, mem', c, p);
  }

  lemma CounterSound(bs: seq<Block>, base: nat, cell: nat)
    requires Counter(bs, base, cell)
    ensures AllSound(bs)
  {
  }

  /** Relinking: a new block m takes the place of the two first ones. */
  lemma MergeLinks(mem: Memory, c: seq<Addr>, p: Addr, q: Addr, m: Block)
    requires Linked(mem, c, p) && Mapped(mem, c) && NoDup(c) && |c| >= 2 && q !in c && q != NULL
    requires m.next == mem[c[1]].next
    ensures var mem' := mem[q := m] - {c[0], c[1]}; var c' := [q] + c[2..];
            Linked(mem', c', q) && Mapped(mem', c') && BlocksAt(mem', c') == [m] + BlocksAt(mem, c)[2..]
  {
    assert BlocksAt(mem, c[2..]) == BlocksAt(mem, c)[2..];
    var mem' := mem[q := m] - {c[0], c[1]};
    var rest := c[2..];
    LinkedHead(mem, c, p);
    assert forall i :: 0 <= i < |rest| ==> rest[i] == c[i + 2] && rest[i] != c[0] && rest[i] != c[1];
    Relink(mem, mem', rest, q, m);
  }

  lemma Relink(mem: Memory, mem': Memory, rest: seq<Addr>, q: Addr, m: Block)
    requires Linked(mem, rest, m.next) && Mapped(mem, rest) && q != NULL && q in mem' && mem'[q] == m
    requires forall i :: 0 <= i < |rest| ==> rest[i] in mem' && mem'[rest[i]] == mem[rest[i]]
    ensures Linked(mem', [q] + rest, q) && Mapped(mem', [q] + rest)
    ensures BlocksAt(mem', [q] + rest) == [m] + BlocksAt(mem, rest)
  {
    LinkedFrame(mem, mem', rest, m.next);
    assert ([q] + rest)[1..] == rest;
  }

  /** Replacing the two first blocks, of equal size, by one new block q that holds both. */
  lemma MergeChain(mem: Memory, c: seq<Addr>, p: Addr, base: nat, cell: nat, q: Addr)
    requires ChainInv(mem, c, p, base, cell) && NoDup(c) && |c| >= 2 && q !in c && q != NULL
    requires mem[c[0]].self == mem[c[1]].self && 2 * mem[c[0]].self < UINT32
    ensures Sound(mem[c[0]]) && Sound(mem[c[1]])
    ensures var mem' := mem[q := Merged(mem[c[0]], mem[c[1]])] - {c[0], c[1]};
            var c' := [q] + c[2..];
            ChainInv(mem', c', q, base, cell) && Content(BlocksAt(mem', c')) == Content(BlocksAt(mem, c))
  {
    var bs := BlocksAt(mem, c);
    CounterSound(bs, base, cell);
    assert Sound(bs[0]) && Sound(bs[1]);
    var m := Merged(bs[0], bs[1]);
    hide Counter, Merged, Linked;
    MergeLinks(mem, c, p, q, m);
    MergeKeepsContent(bs);
    MergeKeepsCounter(bs, base, cell);
  }

  /** Putting a new smallest block in front of a chain that cannot be merged further. */
  lemma GrowChain(mem: Memory, c: seq<Addr>, p: Addr, base: nat, cell: nat, q: Addr, b: Block)
    requires ChainInv(mem, c, p, base, cell) && q !in mem && q != NULL
    requires Room(mem[p]) < cell && (|c| > 1 ==> mem[c[1]].self != mem[p].self)
    requires cell > 0 && Sound(b) && b.self == base < UINT32 && b.next == p && WholeCells(b, cell)
    ensures |c| > 1 ==> mem[p].self < mem[c[1]].self
    ensures var mem' := mem[q := b]; var c' := [q] + c;
            ChainInv(mem', c', q, base, cell) && Content(BlocksAt(mem', c')) == Used(b) + Content(BlocksAt(mem, c))
  {
    var bs := BlocksAt(mem, c);
    var mem' := mem[q := b];
    GrowKeepsCounter(bs, base, cell, b);
    CounterSound(bs, base, cell);
    hide Counter;
    ContentCons(b, bs);
    assert BlocksAt(mem', [q] + c) == [b] + bs;
    LinkedFrame(mem, mem', c, p);
    assert ([q] + c)[1..] == c;
  }

  /** A first block for a new term. */
  lemma NewChain(mem: Memory, base: nat, cell: nat, q: Addr, b: Block)
    requires q != NULL && cell > 0 && Sound(b) && b.self == base < UINT32 && b.next == NULL && WholeCells(b, cell)
    ensures ChainInv(mem[q := b], [q], q, base, cell) && Content(BlocksAt(mem[q := b], [q])) == Used(b)
  {
    assert base == Scale(base, 0);
    var bs := BlocksAt(mem[q := b], [q]);
    assert bs == [b] && bs[1..] == [];
    assert Used(b) + [] == Used(b);
  }

  // ---------- ownership ----------

  ghost predicate NoDup(c: seq<Addr>) {
    forall i, j :: 0 <= i < j < |c| ==> c[i] != c[j]
  }

  /** Every allocated block is on exactly one chain, at exactly one place. */
  ghost predicate Owned(mem: Memory, chains: seq<seq<Addr>>, owner: map<Addr, nat>) {
    && owner.Keys == mem.Keys
    && (forall h, i :: 0 <= h < |chains| && 0 <= i < |chains[h]| ==> chains[h][i] in owner && owner[chains[h][i]] == h)
    && (forall a :: a in owner ==> owner[a] < |chains| && a in chains[owner[a]])
    && (forall h :: 0 <= h < |chains| ==> NoDup(chains[h]))
  }

  lemma OwnedReplace(mem: Memory, chains: seq<seq<Addr>>, owner: map<Addr, nat>, h: nat, q: Addr, b: Block)
    requires Owned(mem, chains, owner) && h < |chains| && |chains[h]| >= 2 && q !in mem
    ensures var c := chains[h];
            Owned(mem[q := b] - {c[0], c[1]}, chains[h := [q] + c[2..]], owner[q := h] - {c[0], c[1]})
  {
    var c := chains[h];
    var c' := [q] + c[2..];
    var owner', chains' := owner[q := h] - {c[0], c[1]}, chains[h := c'];
    assert forall i :: 1 <= i < |c'| ==> c'[i] == c[i + 1];
    assert forall i :: 0 <= i < |c| ==> c[i] in c;
    forall a | a in owner' ensures owner'[a] < |chains'| && a in chains'[owner'[a]] {
      if a != q && owner[a] == h {
        var i :| 0 <= i < |c| && c[i] == a;
        assert c'[i - 1] == a;
      }
    }
  }

  lemma OwnedPrepend(mem: Memory, chains: seq<seq<Addr>>, owner: map<Addr, nat>, h: nat, q: Addr, b: Block)
    requires Owned(mem, chains, owner) && h < |chains| && q !in mem
    ensures Owned(mem[q := b], chains[h := [q] + chains[h]], owner[q := h])
  {
  }

  lemma OwnedAppend(mem: Memory, chains: seq<seq<Addr>>, owner: map<Addr, nat>, q: Addr, b: Block)
    requires Owned(mem, chains, owner) && q !in mem
    ensures Owned(mem[q := b], chains + [[q]], owner[q := |chains|])
  {
    var chains' := chains + [[q]];
    assert chains'[|chains|] == [q];
  }

  // ---------- the whole heap ----------

  /** The bytes a chain stores. */
  function Stored(mem: Memory, c: seq<Addr>): seq<byte> {
    if Mapped(mem, c) && AllSound(BlocksAt(mem, c)) then Content(BlocksAt(mem, c)) else []
  }

  ghost predicate HeapOk(mem: Memory, chains: seq<seq<Addr>>, owner: map<Addr, nat>, heads: seq<Head>,
                         base: nat, cell: nat)
  {
    && Owned(mem, chains, owner) && |chains| == |heads|
    && forall h :: 0 <= h < |heads| ==> ChainInv(mem, chains[h], heads[h].memLink, base, cell)
  }

  /** Lists other than h are the same bytes in both states. */
  ghost predicate OthersKept(mem: Memory, chains: seq<seq<Addr>>, mem': Memory, chains': seq<seq<Addr>>, h: nat) {
    |chains| <= |chains'|
    && forall g :: 0 <= g < |chains| && g != h ==> Stored(mem', chains'[g]) == Stored(mem, chains[g])
  }

  lemma OtherChain(mem: Memory, chains: seq<seq<Addr>>, owner: map<Addr, nat>, heads: seq<Head>,
                   base: nat, cell: nat, mem': Memory, h: nat, g: nat)
    requires HeapOk(mem, chains, owner, heads, base, cell) && g < |heads| && g != h
    requires forall a :: a in mem && owner[a] != h ==> a in mem' && mem'[a] == mem[a]
    ensures ChainInv(mem', chains[g], heads[g].memLink, base, cell)
    ensures Stored(mem', chains[g]) == Stored(mem, chains[g])
  {
    assert forall i :: 0 <= i < |chains[g]| ==> owner[chains[g][i]] == g;
    ChainFrame(mem, mem', chains[g], heads[g].memLink, base, cell);
  }

  /** A change confined to chain h rebuilds the heap invariant from that chain alone. */
  lemma Rebuild(mem: Memory, chains: seq<seq<Addr>>, owner: map<Addr, nat>, heads: seq<Head>, base: nat, cell: nat,
                mem': Memory, owner': map<Addr, nat>, h: nat, c': seq<Addr>, link: Addr)
    requires HeapOk(mem, chains, owner, heads, base, cell) && h < |heads| && |chains| == |heads|
    requires Owned(mem', chains[h := c'], owner') && ChainInv(mem', c', link, base, cell)
    requires forall a :: a in mem && owner[a] != h ==> a in mem' && mem'[a] == mem[a]
    ensures HeapOk(mem', chains[h := c'], owner', heads[h := heads[h].(memLink := link)], base, cell)
    ensures OthersKept(mem, chains, mem', chains[h := c'], h)
  {
    hide ChainInv, Owned, Stored;
    var chains', heads' := chains[h := c'], heads[h := heads[h].(memLink := link)];
    forall g | 0 <= g < |heads| && g != h
      ensures ChainInv(mem', chains[g], heads[g].memLink, base, cell) && Stored(mem', chains[g]) == Stored(mem, chains[g])
    {
      OtherChain(mem, chains, owner, heads, base, cell, mem', h, g);
    }
    assert forall g :: 0 <= g < |heads| && g != h ==> chains'[g] == chains[g] && heads'[g] == heads[g];
  }

  lemma HeapChain(mem: Memory, chains: seq<seq<Addr>>, owner: map<Addr, nat>, heads: seq<Head>,
                  base: nat, cell: nat, h: nat)
    requires HeapOk(mem, chains, owner, heads, base, cell) && h < |heads|
    ensures |chains| == |heads| && ChainInv(mem, chains[h], heads[h].memLink, base, cell) && NoDup(chains[h])
    ensures owner.Keys == mem.Keys
    ensures forall i :: 0 <= i < |chains[h]| ==> chains[h][i] in mem && owner[chains[h][i]] == h
  {
  }

  lemma StoredIs(mem: Memory, c: seq<Addr>, p: Addr, base: nat, cell: nat)
    requires ChainInv(mem, c, p, base, cell)
    ensures AllSound(BlocksAt(mem, c)) && Stored(mem, c) == Content(BlocksAt(mem, c))
  {
  }

  /** The head's first block is the first of its chain, and it is sound. */
  predicate HeadBlock(mem: Memory, chains: seq<seq<Addr>>, heads: seq<Head>, h: nat)
    requires h < |heads|
  {
    && h < |chains| && chains[h] != [] && chains[h][0] == heads[h].memLink
    && heads[h].memLink in mem && Sound(mem[heads[h].memLink])
    && (mem[heads[h].memLink].next != NULL <==> |chains[h]| > 1)
    && (|chains[h]| > 1 ==> chains[h][1] == mem[heads[h].memLink].next && chains[h][1] in mem && Sound(mem[chains[h][1]]))
  }

  lemma HeadBlockHolds(mem: Memory, chains: seq<seq<Addr>>, owner: map<Addr, nat>, heads: seq<Head>,
                       base: nat, cell: nat, h: nat)
    requires HeapOk(mem, chains, owner, heads, base, cell) && h < |heads|
    ensures HeadBlock(mem, chains, heads, h)
    ensures mem[heads[h].memLink].self < UINT32 && Rung(mem[heads[h].memLink].self, base)
  {
    var c := chains[h];
    assert ChainInv(mem, c, heads[h].memLink, base, cell);
    LinkedHead(mem, c, heads[h].memLink);
    var bs := BlocksAt(mem, c);
    assert Sound(bs[0]) && (|c| > 1 ==> Sound(bs[1]));
  }

  lemma PutHeap(mem: Memory, chains: seq<seq<Addr>>, owner: map<Addr, nat>, heads: seq<Head>,
                base: nat, cell: nat, h: nat, bytes: seq<byte>)
    requires HeapOk(mem, chains, owner, heads, base, cell) && h < |heads| && |bytes| == cell
    requires HeadBlock(mem, chains, heads, h) && Room(mem[heads[h].memLink]) >= cell
    ensures var mem' := mem[heads[h].memLink := CopyIn(mem[heads[h].memLink], bytes)];
            && HeapOk(mem', chains, owner, heads, base, cell)
            && Stored(mem', chains[h]) == bytes + Stored(mem, chains[h])
            && OthersKept(mem, chains, mem', chains, h)
  {
    var c, p := chains[h], heads[h].memLink;
    var mem' := mem[p := CopyIn(mem[p], bytes)];
    hide ChainInv, CopyIn, Stored, Room;
    assert ChainInv(mem, c, p, base, cell) && NoDup(c) && p == c[0] && owner[c[0]] == h;
    PutChain(mem, c, p, base, cell, bytes);
    StoredIs(mem, c, p, base, cell);
    StoredIs(mem', c, p, base, cell);
    assert chains[h := c] == chains && heads[h := heads[h].(memLink := p)] == heads;
    Rebuild(mem, chains, owner, heads, base, cell, mem', owner, h, c, p);
  }

  lemma UntouchedByMerge(mem: Memory, owner: map<Addr, nat>, h: nat, x: Addr, y: Addr, q: Addr, m: Block)
    requires owner.Keys == mem.Keys && x in owner && y in owner && owner[x] == h && owner[y] == h && q !in mem
    ensures var mem' := mem[q := m] - {x, y};
            forall a :: a in mem && owner[a] != h ==> a in mem' && mem'[a] == mem[a]
  {
  }

  lemma MergeHeap(mem: Memory, chains: seq<seq<Addr>>, owner: map<Addr, nat>, heads: seq<Head>,
                  base: nat, cell: nat, h: nat, q: Addr)
    requires HeapOk(mem, chains, owner, heads, base, cell) && h < |heads| && q !in mem && q != NULL
    requires HeadBlock(mem, chains, heads, h) && |chains[h]| > 1
    requires mem[chains[h][0]].self == mem[chains[h][1]].self && 2 * mem[chains[h][0]].self < UINT32
    ensures var c := chains[h];
            var mem' := mem[q := Merged(mem[c[0]], mem[c[1]])] - {c[0], c[1]};
            var chains' := chains[h := [q] + c[2..]];
            && HeapOk(mem', chains', owner[q := h] - {c[0], c[1]}, heads[h := heads[h].(memLink := q)], base, cell)
            && Stored(mem', chains'[h]) == Stored(mem, c)
            && OthersKept(mem, chains, mem', chains', h)
  {
    var c, p := chains[h], heads[h].memLink;
    var m := Merged(mem[c[0]], mem[c[1]]);
    var mem' := mem[q := m] - {c[0], c[1]};
    HeapChain(mem, chains, owner, heads, base, cell, h);
    assert q !in c;
    OwnedReplace(mem, chains, owner, h, q, m);
    var c', owner' := [q] + c[2..], owner[q := h] - {c[0], c[1]};
    hide *;
    UntouchedByMerge(mem, owner, h, c[0], c[1], q, m);
    MergeChain(mem, c, p, base, cell, q);
    StoredIs(mem, c, p, base, cell);
    StoredIs(mem', c', q, base, cell);
    Rebuild(mem, chains, owner, heads, base, cell, mem', owner', h, c', q);
  }

  lemma GrowHeap(mem: Memory, chains: seq<seq<Addr>>, owner: map<Addr, nat>, heads: seq<Head>,
                 base: nat, cell: nat, h: nat, q: Addr, b: Block)
    requires HeapOk(mem, chains, owner, heads, base, cell) && h < |heads| && q !in mem && q != NULL
    requires HeadBlock(mem, chains, heads, h) && Room(mem[chains[h][0]]) < cell
    requires |chains[h]| > 1 ==> mem[chains[h][1]].self != mem[chains[h][0]].self
    requires cell > 0 && Sound(b) && b.self == base < UINT32 && b.next == heads[h].memLink && WholeCells(b, cell)
    ensures |chains[h]| > 1 ==> mem[chains[h][0]].self < mem[chains[h][1]].self
    ensures var mem' := mem[q := b];
            var chains' := chains[h := [q] + chains[h]];
            && HeapOk(mem', chains', owner[q := h], heads[h := heads[h].(memLink := q)], base, cell)
            && Stored(mem', chains'[h]) == Used(b) + Stored(mem, chains[h])
            && OthersKept(mem, chains, mem', chains', h)
  {
    var c, p := chains[h], heads[h].memLink;
    var mem' := mem[q := b];
    assert ChainInv(mem, c, p, base, cell);
    GrowChain(mem, c, p, base, cell, q, b);
    OwnedPrepend(mem, chains, owner, h, q, b);
    hide ChainInv, Used, Owned;
    StoredIs(mem, c, p, base, cell);
    StoredIs(mem', [q] + c, q, base, cell);
    Rebuild(mem, chains, owner, heads, base, cell, mem', owner[q := h], h, [q] + c, q);
  }

  lemma NewHeap(mem: Memory, chains: seq<seq<Addr>>, owner: map<Addr, nat>, heads: seq<Head>,
                base: nat, cell: nat, q: Addr, b: Block, head: Head)
    requires HeapOk(mem, chains, owner, heads, base, cell) && q !in mem && q != NULL
    requires cell > 0 && Sound(b) && b.self == base < UINT32 && b.next == NULL && WholeCells(b, cell)
    requires head.memLink == q
    ensures var mem' := mem[q := b];
            var chains' := chains + [[q]];
            && HeapOk(mem', chains', owner[q := |heads|], heads + [head], base, cell)
            && Stored(mem', chains'[|heads|]) == Used(b)
            && OthersKept(mem, chains, mem', chains', |heads|)
  {
    var mem' := mem[q := b];
    var chains' := chains + [[q]];
    hide Used, Counter, Linked, Content;
    OwnedAppend(mem, chains, owner, q, b);
    NewChain(mem, base, cell, q, b);
    CounterSound(BlocksAt(mem', [q]), base, cell);
    forall g | 0 <= g < |heads|
      ensures ChainInv(mem', chains[g], heads[g].memLink, base, cell) && Stored(mem', chains[g]) == Stored(mem, chains[g])
    {
      OtherChain(mem, chains, owner, heads, base, cell, mem', |heads|, g);
    }
  }
}
