/** The exact-size block pool behind the posting lists. Memory is carved into equal blocks per
    category at start; a free list per category serves requests of exactly its size, everything
    else goes to malloc. Blocks are identified by their addresses. */
module MemBlocks {
  import opened Prelude

  type Addr = nat

  const MAX_CATEGORIES: nat := 16

  /** One category: `count` blocks of `size` bytes, laid out from `bmem` up to `emem`. */
  datatype Category = Category(size: nat, count: nat, bmem: Addr)
  {
    function Emem(): Addr { bmem + count * size }
    function Block(j: nat): Addr { bmem + j * size }
    ghost predicate Owns(a: Addr) { exists j: nat :: j < count && a == Block(j) }
  }

  predicate GoodConfig(sizes: seq<nat>, counts: seq<nat>) {
    && 0 < |sizes| == |counts| <= MAX_CATEGORIES
    && (forall i :: 0 <= i < |sizes| ==> sizes[i] > 0 && counts[i] > 0)
    && (forall i :: 0 < i < |sizes| ==> sizes[i - 1] <= sizes[i])
  }

  // ---------- the pool as a value ----------

  /** Free lists hold each block at most once. */
  ghost predicate Distinct(s: seq<Addr>) {
    forall i, j :: 0 <= i < j < |s| ==> s[i] != s[j]
  }

  /** The categories lie one behind the other. */
  ghost predicate Laid(cats: seq<Category>) {
    && (forall i :: 0 <= i < |cats| ==> cats[i].size > 0 && cats[i].bmem > 0)
    && (forall i, j :: 0 <= i < j < |cats| ==> cats[i].Emem() <= cats[j].bmem)
  }

  ghost predicate InPool(cats: seq<Category>, a: Addr) {
    exists i :: 0 <= i < |cats| && cats[i].Owns(a)
  }

  predicate Outside(cats: seq<Category>, a: Addr) {
    a > 0 && forall i :: 0 <= i < |cats| ==> !(cats[i].bmem <= a < cats[i].Emem())
  }

  /** The free list of a category: each of its blocks that is not handed out, once. */
  ghost predicate CategoryOk(c: Category, list: seq<Addr>, n: nat, pooled: set<Addr>) {
    |list| == n && Distinct(list) && forall a :: a in list <==> c.Owns(a) && a !in pooled
  }

  ghost predicate PoolOk(cats: seq<Category>, free: seq<seq<Addr>>, counts: seq<nat>, pooled: set<Addr>) {
    && |cats| == |free| == |counts|
    && (forall i :: 0 <= i < |cats| ==> CategoryOk(cats[i], free[i], counts[i], pooled))
    && (forall a :: a in pooled ==> InPool(cats, a))
  }

  ghost predicate ExtraOk(cats: seq<Category>, extra: set<Addr>, n: nat) {
    |extra| == n && forall a :: a in extra ==> Outside(cats, a)
  }

  lemma OwnedAddress(c: Category, a: Addr)
    requires c.size > 0 && c.Owns(a)
    ensures c.bmem <= a < c.Emem()
  {
    var j: nat :| j < c.count && a == c.Block(j);
    MulMono(0, j, c.size);
    MulMono(j + 1, c.count, c.size);
    assert (j + 1) * c.size == j * c.size + c.size;
  }

  /** A block belongs to one category, the one whose address range holds it. */
  lemma OneOwner(cats: seq<Category>, i: nat, p: Addr)
    requires Laid(cats) && i < |cats| && cats[i].Owns(p)
    ensures cats[i].bmem <= p < cats[i].Emem() && p > 0
    ensures forall k :: 0 <= k < |cats| && (cats[k].Owns(p) || cats[k].bmem <= p < cats[k].Emem()) ==> k == i
  {
    OwnedAddress(cats[i], p);
    hide Category.Owns, Category.Emem;
    forall k | 0 <= k < |cats| && (cats[k].Owns(p) || cats[k].bmem <= p < cats[k].Emem()) ensures k == i {
      if cats[k].Owns(p) {
        OwnedAddress(cats[k], p);
      }
    }
  }

  lemma PooledIsInside(cats: seq<Category>, p: Addr)
    requires Laid(cats) && InPool(cats, p)
    ensures p > 0 && !Outside(cats, p)
  {
    var i :| 0 <= i < |cats| && cats[i].Owns(p);
    OneOwner(cats, i, p);
  }

  lemma PopCategory(c: Category, list: seq<Addr>, n: nat, pooled: set<Addr>)
    requires CategoryOk(c, list, n, pooled) && n > 0
    ensures c.Owns(list[0]) && list[0] !in pooled && CategoryOk(c, list[1..], n - 1, pooled + {list[0]})
  {
    hide Category.Owns;
    assert list[0] in list;
    assert list == [list[0]] + list[1..];
  }

  lemma PushCategory(c: Category, list: seq<Addr>, n: nat, pooled: set<Addr>, p: Addr)
    requires CategoryOk(c, list, n, pooled) && p in pooled && c.Owns(p)
    ensures CategoryOk(c, [p] + list, n + 1, pooled - {p})
  {
    hide Category.Owns;
    assert forall i :: 0 <= i < |list| ==> list[i] in list;
  }

  lemma OtherCategory(c: Category, list: seq<Addr>, n: nat, pooled: set<Addr>, p: Addr)
    requires CategoryOk(c, list, n, pooled) && !c.Owns(p)
    ensures CategoryOk(c, list, n, pooled + {p}) && CategoryOk(c, list, n, pooled - {p})
  {
    hide Category.Owns, Distinct;
  }

  lemma PopPool(cats: seq<Category>, free: seq<seq<Addr>>, counts: seq<nat>, pooled: set<Addr>, i: nat)
    requires Laid(cats) && PoolOk(cats, free, counts, pooled) && i < |cats| && counts[i] > 0
    ensures |free[i]| > 0 && cats[i].Owns(free[i][0]) && free[i][0] > 0 && free[i][0] !in pooled
    ensures PoolOk(cats, free[i := free[i][1..]], counts[i := counts[i] - 1], pooled + {free[i][0]})
  {
    hide CategoryOk, Category.Owns, Category.Emem;
    assert CategoryOk(cats[i], free[i], counts[i], pooled);
    Nonempty(cats[i], free[i], counts[i], pooled);
    var p := free[i][0];
    PopCategory(cats[i], free[i], counts[i], pooled);
    OneOwner(cats, i, p);
    forall k | 0 <= k < |cats| && k != i ensures CategoryOk(cats[k], free[k], counts[k], pooled + {p}) {
      OtherCategory(cats[k], free[k], counts[k], pooled, p);
    }
    assert InPool(cats, p);
  }

  lemma Nonempty(c: Category, list: seq<Addr>, n: nat, pooled: set<Addr>)
    requires CategoryOk(c, list, n, pooled)
    ensures |list| == n
  {
  }

  lemma PushPool(cats: seq<Category>, free: seq<seq<Addr>>, counts: seq<nat>, pooled: set<Addr>, i: nat, p: Addr)
    requires Laid(cats) && PoolOk(cats, free, counts, pooled) && i < |cats| && p in pooled
    requires cats[i].bmem <= p < cats[i].Emem()
    ensures PoolOk(cats, free[i := [p] + free[i]], counts[i := counts[i] + 1], pooled - {p})
  {
    hide CategoryOk, Category.Owns, Category.Emem;
    var j :| 0 <= j < |cats| && cats[j].Owns(p);
    OneOwner(cats, j, p);
    PushCategory(cats[i], free[i], counts[i], pooled, p);
    forall k | 0 <= k < |cats| && k != i ensures CategoryOk(cats[k], free[k], counts[k], pooled - {p}) {
      OtherCategory(cats[k], free[k], counts[k], pooled, p);
    }
  }

  lemma UnionGrows(a: set<Addr>, b: set<Addr>, p: Addr)
    ensures (a + {p}) + b == (a + b) + {p} == a + (b + {p})
  {
  }

  lemma UnionShrinks(a: set<Addr>, b: set<Addr>, p: Addr)
    ensures p !in b ==> (a - {p}) + b == (a + b) - {p} && b - {p} == b
    ensures p !in a ==> a + (b - {p}) == (a + b) - {p} && a - {p} == a
  {
  }

  class MemBlocks {
    const cats: seq<Category>
    var free: seq<seq<Addr>>
    var freecount: seq<nat>
    var extraCount: nat
    /** Pool blocks handed out and not yet returned. */
    ghost var pooled: set<Addr>
    /** malloc's own record of what it has handed out here. */
    var extra: set<Addr>
    /** How many requests could not be met. */
    ghost var refusals: nat

    ghost predicate Valid()
      reads `free, `freecount, `extraCount, `pooled, `extra
    {
      Laid(cats) && PoolOk(cats, free, freecount, pooled) && ExtraOk(cats, extra, extraCount)
    }

    ghost function Outstanding(): set<Addr>
      reads `pooled, `extra
    {
      pooled + extra
    }

    /** Carves the arena at `base`, category after category. */
    constructor (sizes: seq<nat>, counts: seq<nat>, base: Addr)
      requires GoodConfig(sizes, counts) && base > 0
      ensures Valid() && pooled == {} && extra == {}
      ensures |cats| == |sizes| && freecount == counts
      ensures forall i :: 0 <= i < |cats| ==> cats[i].size == sizes[i] && cats[i].count == counts[i]
      ensures refusals == 0
    {
      hide Category.Owns, Category.Emem, Category.Block, Distinct;
      var cs: seq<Category>, fs: seq<seq<Addr>> := [], [];
      var offset := base;
      var i := 0;
      while i < |sizes|
        invariant 0 <= i == |cs| == |fs| <= |sizes| && offset >= base
        invariant forall j :: 0 <= j < i ==> cs[j].size == sizes[j] && cs[j].count == counts[j]
        invariant Laid(cs) && forall j :: 0 <= j < i ==> cs[j].Emem() <= offset
        invariant forall j :: 0 <= j < i ==> CategoryOk(cs[j], fs[j], counts[j], {})
      {
        var c := Category(sizes[i], counts[i], offset);
        var list := Carve(c);
        EmemAfter(c);
        cs, fs, offset, i := cs + [c], fs + [list], c.Emem(), i + 1;
      }
      cats, free, freecount, extraCount := cs, fs, counts, 0;
      pooled, extra, refusals := {}, {}, 0;
    }

    /** malloc: 0 on failure, otherwise any address outside the arena that is not in use. */
    method Malloc() returns (p: Addr)
      modifies this`refusals
      ensures p != 0 ==> Outside(cats, p) && p !in extra
      ensures refusals == old(refusals) + if p == 0 then 1 else 0
    {
      p :| p == 0 || (Outside(cats, p) && p !in extra);
      if p == 0 {
        refusals := refusals + 1;
      }
    }

    /** Exact size first: the first category of that size with a free block, else malloc. A request is
        refused only for size 0, or when no category of its size has a free block and malloc fails. */
    method AllocMem(memsize: nat) returns (p: Addr)
      requires Valid()
      modifies this
      ensures Valid()
      ensures p == 0 ==> pooled == old(pooled) && extra == old(extra) && freecount == old(freecount)
      ensures p == 0 && memsize > 0 ==>
                forall i :: 0 <= i < |cats| && cats[i].size == memsize ==> i < |old(freecount)| && old(freecount)[i] == 0
      ensures refusals == old(refusals) + if p == 0 then 1 else 0
      ensures p != 0 ==> memsize > 0 && p !in old(Outstanding())
      ensures Outstanding() == if p == 0 then old(Outstanding()) else old(Outstanding()) + {p}
      ensures p != 0 ==>
        || (pooled == old(pooled) + {p} && extra == old(extra)
            && exists i :: 0 <= i < |cats| && cats[i].size == memsize && cats[i].Owns(p))
        || (pooled == old(pooled) && extra == old(extra) + {p}
            && forall i :: 0 <= i < |cats| && cats[i].size == memsize ==> i < |freecount| && freecount[i] == 0)
    {
      hide PoolOk, ExtraOk, Laid, Outside, Category.Owns, Outstanding;
      PoolShape();
      p := 0;
      if memsize == 0 {
        refusals := refusals + 1;
        return;
      }
      var i := 0;
      while i < |cats| && !(cats[i].size == memsize && freecount[i] > 0)
        invariant 0 <= i <= |cats|
        invariant forall j :: 0 <= j < i && cats[j].size == memsize ==> freecount[j] == 0
      {
        i := i + 1;
      }
      if i < |cats| {
        p := Pop(i);
      } else {
        p := Malloc();
        if p != 0 {
          Overflow(p);
        }
      }
    }

    lemma PoolShape()
      requires Valid()
      ensures |cats| == |free| == |freecount|
    {
    }

    /** Takes the head of a non-empty free list. */
    method Pop(i: nat) returns (p: Addr)
      requires Valid() && i < |cats| == |freecount| && freecount[i] > 0
      modifies this`free, this`freecount, this`pooled
      ensures Valid() && p != 0 && p !in old(Outstanding()) && pooled == old(pooled) + {p} && cats[i].Owns(p)
      ensures Outstanding() == old(Outstanding()) + {p}
    {
      hide PoolOk, ExtraOk, Laid, Category.Owns;
      PoolShape();
      PopPool(cats, free, freecount, pooled, i);
      p := free[i][0];
      NotExtra(i, p);
      UnionGrows(pooled, extra, p);
      free := free[i := free[i][1..]];
      freecount := freecount[i := freecount[i] - 1];
      pooled := pooled + {p};
    }

    lemma NotExtra(i: nat, p: Addr)
      requires Valid() && i < |cats| && cats[i].Owns(p)
      ensures p !in extra
    {
      hide PoolOk, Category.Owns, Outside;
      assert InPool(cats, p);
      PooledIsInside(cats, p);
    }

    method Overflow(p: Addr)
      requires Valid() && Outside(cats, p) && p !in extra
      modifies this`extra, this`extraCount
      ensures Valid() && extra == old(extra) + {p} && p !in old(Outstanding()) && Outstanding() == old(Outstanding()) + {p}
    {
      hide PoolOk, Laid, Outside;
      NotPooled(p);
      UnionGrows(pooled, extra, p);
      extra := extra + {p};
      extraCount := extraCount + 1;
    }

    lemma NotPooled(p: Addr)
      requires Valid() && Outside(cats, p)
      ensures p !in pooled
    {
      hide Laid, Outside, InPool, CategoryOk, ExtraOk;
      if p in pooled {
        PooledIsInside(cats, p);
      }
    }

    /** Returns a block to the category whose address range holds it, or to malloc. */
    method FreeMem(p: Addr)
      requires Valid() && (p == 0 || p in Outstanding())
      modifies this
      ensures Valid() && pooled == old(pooled) - {p} && extra == old(extra) - {p}
      ensures Outstanding() == old(Outstanding()) - {p} && refusals == old(refusals)
    {
      hide PoolOk, ExtraOk, Laid, Category.Emem, InPool;
      if p == 0 {
        NullIsNeverOut();
        return;
      }
      var i := 0;
      while i < |cats| && !(cats[i].bmem <= p < cats[i].Emem())
        invariant 0 <= i <= |cats|
        invariant forall j :: 0 <= j < i ==> !(cats[j].bmem <= p < cats[j].Emem())
      {
        i := i + 1;
      }
      if i < |cats| {
        Push(i, p);
      } else {
        GiveBack(p);
      }
    }

    lemma NullIsNeverOut()
      requires Valid()
      ensures pooled - {0} == pooled && extra - {0} == extra && Outstanding() - {0} == Outstanding()
    {
      hide Laid, CategoryOk, InPool;
      forall p | p in pooled ensures p > 0 {
        PooledIsInside(cats, p);
      }
      forall p | p in extra ensures p > 0 {
        assert Outside(cats, p);
      }
    }

    method Push(i: nat, p: Addr)
      requires Valid() && i < |cats| && p in Outstanding() && cats[i].bmem <= p < cats[i].Emem()
      modifies this`free, this`freecount, this`pooled
      ensures Valid() && pooled == old(pooled) - {p} && extra == extra - {p} && Outstanding() == old(Outstanding()) - {p}
    {
      hide PoolOk, ExtraOk, Laid, Category.Emem;
      PoolShape();
      InsideIsPooled(i, p);
      PushPool(cats, free, freecount, pooled, i, p);
      UnionShrinks(pooled, extra, p);
      free := free[i := [p] + free[i]];
      freecount := freecount[i := freecount[i] + 1];
      pooled := pooled - {p};
    }

    lemma InsideIsPooled(i: nat, p: Addr)
      requires Valid() && i < |cats| && p in Outstanding() && cats[i].bmem <= p < cats[i].Emem()
      ensures p in pooled && p !in extra
    {
      hide PoolOk, Laid, Category.Emem;
    }

    /** free of a block that lies outside the arena. */
    method GiveBack(p: Addr)
      requires Valid() && p in Outstanding() && Outside(cats, p)
      modifies this`extra, this`extraCount
      ensures Valid() && extra == old(extra) - {p} && pooled == pooled - {p} && Outstanding() == old(Outstanding()) - {p}
    {
      hide PoolOk, Laid, Outside;
      NotPooled(p);
      UnionShrinks(pooled, extra, p);
      extra := extra - {p};
      extraCount := extraCount - 1;
    }

    /** Conservation: in every category the free blocks and the blocks handed out are all of it. */
    lemma Conservation(i: nat)
      requires Valid() && i < |cats|
      ensures i < |freecount| && freecount[i] + |pooled * BlocksOf(cats[i])| == cats[i].count
    {
      hide InPool, ExtraOk, Category.Owns, Category.Emem, BlocksOf;
      assert CategoryOk(cats[i], free[i], freecount[i], pooled);
      CategoryConserved(cats[i], free[i], freecount[i], pooled);
    }

    /** Every category has all its blocks, malloc owes none. */
    predicate AllFree()
      reads `freecount, `extraCount
    {
      |freecount| == |cats| && extraCount == 0 && forall i :: 0 <= i < |cats| ==> freecount[i] == cats[i].count
    }

    /** With nothing outstanding the pool is back at its initial counts. */
    lemma AllReturned()
      requires Valid() && Outstanding() == {}
      ensures AllFree()
    {
      hide PoolOk, Laid;
      PoolShape();
      assert pooled == {} && extra == {};
      forall i | 0 <= i < |cats| ensures freecount[i] == cats[i].count {
        Conservation(i);
        assert pooled * BlocksOf(cats[i]) == {};
      }
    }
  }

  // ---------- counting ----------

  ghost function BlocksOf(c: Category): set<Addr> {
    AllBlocks(c, c.count)
  }

  ghost function AllBlocks(c: Category, n: nat): set<Addr> {
    set j: nat | j < n :: c.Block(j)
  }

  lemma CategoryConserved(c: Category, list: seq<Addr>, n: nat, pooled: set<Addr>)
    requires CategoryOk(c, list, n, pooled) && c.size > 0
    ensures n + |pooled * BlocksOf(c)| == c.count
  {
    var all, idle := BlocksOf(c), set a | a in list;
    DistinctCount(list, idle);
    BlockCount(c, c.count);
    hide Category.Block, Distinct;
    assert forall a :: a in all <==> c.Owns(a);
    assert idle + pooled * all == all && idle !! pooled * all;
  }

  lemma {:induction false} BlockCount(c: Category, n: nat)
    requires c.size > 0
    ensures |AllBlocks(c, n)| == n
  {
    hide AllBlocks;
    if n > 0 {
      BlockCount(c, n - 1);
      OneMoreBlock(c, n);
    } else {
      NoBlocks(c);
    }
  }

  lemma NoBlocks(c: Category)
    ensures AllBlocks(c, 0) == {}
  {
  }

  lemma OneMoreBlock(c: Category, n: nat)
    requires c.size > 0 && n > 0
    ensures c.Block(n - 1) !in AllBlocks(c, n - 1) && AllBlocks(c, n) == AllBlocks(c, n - 1) + {c.Block(n - 1)}
  {
    forall j: nat | j < n - 1 ensures c.Block(j) < c.Block(n - 1) {
      BlockOrder(c, j, n - 1);
    }
    hide Category.Block;
  }

  lemma BlockOrder(c: Category, i: nat, j: nat)
    requires c.size > 0 && i < j
    ensures c.Block(i) < c.Block(j)
  {
    MulMono(i + 1, j, c.size);
    assert (i + 1) * c.size == i * c.size + c.size;
  }

  lemma {:induction false} DistinctCount(s: seq<Addr>, all: set<Addr>)
    requires Distinct(s) && all == set a | a in s
    ensures |all| == |s|
  {
    if s != [] {
      DistinctCount(s[1..], set a | a in s[1..]);
      assert all == {s[0]} + set a | a in s[1..];
    }
  }

  lemma EmemAfter(c: Category)
    ensures c.Emem() >= c.bmem
  {
    MulMono(0, c.count, c.size);
  }

  /** The inner loop of the constructor: the free list of a fresh category, last block first. */
  method Carve(c: Category) returns (list: seq<Addr>)
    requires c.size > 0
    ensures CategoryOk(c, list, c.count, {})
  {
    list := [];
    var j := 0;
    while j < c.count
      invariant 0 <= j == |list| <= c.count && Distinct(list)
      invariant forall a :: a in list <==> exists k: nat :: k < j && a == c.Block(k)
      invariant forall a :: a in list ==> a < c.Block(j)
    {
      assert forall i :: 0 <= i < |list| ==> list[i] in list;
      list := [c.Block(j)] + list;
      assert c.Block(j + 1) == c.Block(j) + c.size;
      j := j + 1;
    }
  }
}
