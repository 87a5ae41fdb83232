/** The blocks behind one posting list, as values. A block is filled from its tail towards its
    header, so a chain read from head to last block is the list itself, newest cell first; blocks of
    equal size are merged like carries in a binary counter. */
module Chains {
  import opened Prelude
  import MemBlocks

  type Addr = MemBlocks.Addr

  /** sizeof(mem_link_t): two sizes and the next pointer. */
  const HEADER: nat := 16
  const NULL: Addr := 0

  /** A memory block: its header fields and the bytes that follow the header. */
  datatype Block = Block(used: nat, self: nat, next: Addr, data: seq<byte>)

  predicate Sound(b: Block) {
    b.self == HEADER + |b.data| && b.used <= |b.data|
  }

  /** The bytes still free between the header and the used tail. */
  function Room(b: Block): nat
    requires Sound(b)
  {
    |b.data| - b.used
  }

  function Used(b: Block): (r: seq<byte>)
    requires Sound(b)
    ensures |r| == b.used
  {
    b.data[|b.data| - b.used..]
  }

  /** `memlinkcopy`: the bytes go directly in front of what is already used. The precondition is the
      assertion woffset >= 0. */
  function CopyIn(b: Block, bytes: seq<byte>): (r: Block)
    requires Sound(b) && |bytes| <= Room(b)
    ensures Sound(r) && Used(r) == bytes + Used(b) && r.self == b.self && r.next == b.next
  {
    var woffset := b.self - b.used - (|bytes| + HEADER);
    b.(data := b.data[..woffset] + bytes + b.data[woffset + |bytes|..], used := b.used + |bytes|)
  }

  function Fresh(size: nat, next: Addr): (b: Block)
    requires size >= HEADER
    ensures Sound(b) && Used(b) == [] && Room(b) == size - HEADER
  {
    Block(0, size, next, seq(size - HEADER, _ => 0))
  }

  /** Doubling merge of the two first blocks: the second block's bytes are copied first, then the
      head's in front of them. */
  function Merged(a: Block, b: Block): (r: Block)
    requires Sound(a) && Sound(b) && a.self == b.self
    ensures Sound(r) && Used(r) == Used(a) + Used(b) && r.self == 2 * a.self && r.next == b.next
  {
    CopyIn(CopyIn(Fresh(2 * a.self, b.next), Used(b)), Used(a))
  }

  predicate AllSound(bs: seq<Block>) {
    forall i :: 0 <= i < |bs| ==> Sound(bs[i])
  }

  /** What the chain stores, newest byte first. */
  function Content(bs: seq<Block>): seq<byte>
    requires AllSound(bs)
  {
    if bs == [] then [] else Used(bs[0]) + Content(bs[1..])
  }

  // ---------- the binary counter ----------

  /** base * 2^k. */
  function Scale(base: nat, k: nat): (r: nat)
    ensures r >= base
  {
    if k == 0 then base else 2 * Scale(base, k - 1)
  }

  /** A size the doubling merges can produce from the smallest block. */
  ghost predicate Rung(size: nat, base: nat) {
    exists k: nat :: size == Scale(base, k)
  }

  lemma RungDoubles(size: nat, base: nat)
    requires Rung(size, base)
    ensures Rung(2 * size, base)
  {
    var k: nat :| size == Scale(base, k);
    assert 2 * size == Scale(base, k + 1);
  }

  lemma {:induction false} ScaleMono(base: nat, j: nat, k: nat)
    requires j <= k
    ensures Scale(base, j) <= Scale(base, k)
  {
    if j < k {
      ScaleMono(base, j, k - 1);
    }
  }

  /** Distinct rungs are at least a factor two apart. */
  lemma RungGap(s: nat, t: nat, base: nat)
    requires Rung(s, base) && Rung(t, base) && s < t
    ensures 2 * s <= t
  {
    var j: nat :| s == Scale(base, j);
    var k: nat :| t == Scale(base, k);
    if k <= j {
      ScaleMono(base, k, j);
    } else {
      ScaleMono(base, j + 1, k);
    }
  }

  /** Sizes grow along the chain, strictly after the second block; only the head may have room for
      another cell; and blocks hold whole cells. */
  ghost predicate Counter(bs: seq<Block>, base: nat, cell: nat) {
    && cell > 0 && AllSound(bs)
    && (forall i :: 0 <= i < |bs| ==> WholeCells(bs[i], cell))
    && (forall i :: 0 <= i < |bs| ==> Rung(bs[i].self, base))
    && (forall i :: 0 < i < |bs| ==> Room(bs[i]) < cell)
    && (forall i, j :: 0 <= i < j < |bs| ==> bs[i].self <= bs[j].self)
    && (forall i, j :: 1 <= i < j < |bs| ==> bs[i].self < bs[j].self)
  }

  predicate WholeCells(b: Block, cell: nat)
    requires cell > 0
  {
    b.used % cell == 0
  }

  lemma MergedWhole(a: Block, b: Block, cell: nat)
    requires Sound(a) && Sound(b) && a.self == b.self && cell > 0 && WholeCells(a, cell) && WholeCells(b, cell)
    ensures WholeCells(Merged(a, b), cell)
  {
    assert Merged(a, b).used == a.used + b.used;
    AddWhole(a.used, b.used, cell);
  }

  lemma CopiedWhole(b: Block, bytes: seq<byte>, cell: nat)
    requires Sound(b) && |bytes| == cell <= Room(b) && cell > 0 && WholeCells(b, cell)
    ensures WholeCells(CopyIn(b, bytes), cell)
  {
    AddWhole(cell, b.used, cell);
  }

  lemma MergeKeepsContent(bs: seq<Block>)
    requires AllSound(bs) && |bs| >= 2 && bs[0].self == bs[1].self
    ensures AllSound([Merged(bs[0], bs[1])] + bs[2..])
    ensures Content([Merged(bs[0], bs[1])] + bs[2..]) == Content(bs)
  {
    hide Used, CopyIn, Merged, Content;
    ContentTwo(bs);
    assert AllSound(bs[2..]);
    ContentCons(Merged(bs[0], bs[1]), bs[2..]);
    Regroup(Used(bs[0]), Used(bs[1]), Content(bs[2..]));
  }

  lemma ContentTwo(bs: seq<Block>)
    requires AllSound(bs) && |bs| >= 2
    ensures Content(bs) == Used(bs[0]) + (Used(bs[1]) + Content(bs[2..]))
  {
    hide Used;
    assert bs[1..][1..] == bs[2..];
  }

  lemma Regroup(a: seq<byte>, b: seq<byte>, c: seq<byte>)
    ensures (a + b) + c == a + (b + c)
  {
  }

  lemma MergeKeepsCounter(bs: seq<Block>, base: nat, cell: nat)
    requires Counter(bs, base, cell) && |bs| >= 2 && bs[0].self == bs[1].self
    ensures Counter([Merged(bs[0], bs[1])] + bs[2..], base, cell)
  {
    MergedWhole(bs[0], bs[1], cell);
    hide Rung, CopyIn, Merged, Used, WholeCells;
    var m := [Merged(bs[0], bs[1])] + bs[2..];
    RungDoubles(bs[0].self, base);
    if |bs| > 2 {
      RungGap(bs[1].self, bs[2].self, base);
    }
    assert forall i :: 1 <= i < |m| ==> m[i] == bs[i + 1];
  }

  /** When no merge applies any more, the assertion after the merge loop holds and a new smallest
      block may be put in front. */
  lemma GrowKeepsCounter(bs: seq<Block>, base: nat, cell: nat, b: Block)
    requires Counter(bs, base, cell) && bs != [] && Room(bs[0]) < cell
    requires |bs| > 1 ==> bs[0].self != bs[1].self
    requires Sound(b) && b.self == base && WholeCells(b, cell)
    ensures |bs| > 1 ==> bs[0].self < bs[1].self
    ensures Counter([b] + bs, base, cell)
  {
    var g := [b] + bs;
    BaseIsSmallest(bs[0].self, base);
    assert bs[0].self >= base && Rung(base, base);
    hide Rung, WholeCells, Used;
    assert g[0] == b && forall i :: 1 <= i < |g| ==> g[i] == bs[i - 1];
  }

  lemma ContentCons(b: Block, bs: seq<Block>)
    requires Sound(b) && AllSound(bs)
    ensures AllSound([b] + bs) && Content([b] + bs) == Used(b) + Content(bs)
  {
    assert ([b] + bs)[1..] == bs;
  }

  lemma BaseIsSmallest(size: nat, base: nat)
    requires Rung(size, base)
    ensures size >= base && Rung(base, base)
  {
    assert base == Scale(base, 0);
  }

  /** Another first block of the same size. */
  lemma ReplaceFirst(bs: seq<Block>, b: Block, base: nat, cell: nat)
    requires Counter(bs, base, cell) && bs != [] && Sound(b) && b.self == bs[0].self && WholeCells(b, cell)
    ensures Counter(bs[0 := b], base, cell)
  {
    hide Rung, WholeCells, Used, Sound;
    var p := bs[0 := b];
    assert |p| == |bs| && p[0] == b && forall i :: 1 <= i < |bs| ==> p[i] == bs[i];
  }

  lemma ContentFirst(bs: seq<Block>, b: Block)
    requires AllSound(bs) && bs != [] && Sound(b)
    ensures AllSound(bs[0 := b]) && Content(bs[0 := b]) == Used(b) + Content(bs[1..])
    ensures Content(bs) == Used(bs[0]) + Content(bs[1..])
  {
    hide Used;
    assert bs[0 := b][1..] == bs[1..];
  }

  lemma PutKeepsCounter(bs: seq<Block>, base: nat, cell: nat, bytes: seq<byte>)
    requires Counter(bs, base, cell) && bs != [] && Room(bs[0]) >= cell && |bytes| == cell
    ensures var p := bs[0 := CopyIn(bs[0], bytes)];
            Counter(p, base, cell) && Content(p) == bytes + Content(bs)
  {
    var b := CopyIn(bs[0], bytes);
    CopiedWhole(bs[0], bytes, cell);
    hide Used, CopyIn, Rung, WholeCells, Content;
    ReplaceFirst(bs, b, base, cell);
    ContentFirst(bs, b);
    assert (bytes + Used(bs[0])) + Content(bs[1..]) == bytes + (Used(bs[0]) + Content(bs[1..]));
  }

  /** A chain of m blocks ends in one of at least base * 2^(m-2) bytes: chains are logarithmic. */
  lemma {:induction false} ChainIsLogarithmic(bs: seq<Block>, base: nat, cell: nat, i: nat)
    requires Counter(bs, base, cell) && 1 <= i < |bs|
    ensures Scale(base, i - 1) <= bs[i].self
  {
    if i > 1 {
      ChainIsLogarithmic(bs, base, cell, i - 1);
      RungGap(bs[i - 1].self, bs[i].self, base);
    }
  }
}
