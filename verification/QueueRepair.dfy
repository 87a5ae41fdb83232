/** `check_and_repaire`: after a crash the writer looks for the last whole block of the last file,
    scanning backwards over a window of two maximal blocks. */
module QueueRepair {
  import opened Prelude
  import opened CreatSign
  import opened BlockFormat

  /** What the scan decides: start the file over, append behind the last whole block, or give up. */
  datatype Repaired = NewFile | AppendAt(offset: nat, blockId: nat) | GiveUp

  function Cut(s: seq<byte>): (r: nat)
    ensures r <= |s| < r + 4 && r % 4 == 0
  {
    |s| / 4 * 4
  }

  /** Where the window starts. */
  function WindowOff(s: seq<byte>): (r: nat)
    ensures r <= Cut(s) && r % 4 == 0
  {
    if Cut(s) >= 2 * BLOCK_MAX_SIZE then Cut(s) - 2 * BLOCK_MAX_SIZE else 0
  }

  /** The scan accepts position p: magic word, a possible length that fits, and matching checksums. A
      header cut off by the end of the file always fails the length test. */
  predicate Accepts(s: seq<byte>, p: nat) {
    && p + HEAD_SIZE <= Cut(s) && Word(s, p) == MAGIC_NUM
    && Word(s, p + 32) + HEAD_SIZE <= BLOCK_MAX_SIZE && Word(s, p + 32) + HEAD_SIZE <= Cut(s) - p
    && Word(s, p + 16) == Sum0(s[p + HEAD_SIZE..p + HEAD_SIZE + Word(s, p + 32)])
    && Word(s, p + 20) == Sum1(s[p + HEAD_SIZE..p + HEAD_SIZE + Word(s, p + 32)])
  }

  /** p is the last accepted position of the window. */
  ghost predicate LastAccepted(s: seq<byte>, p: nat) {
    && p % 4 == 0 && WindowOff(s) <= p && Accepts(s, p)
    && forall q :: p < q && q % 4 == 0 ==> !Accepts(s, q)
  }

  /** The next block goes behind the one at p and takes the next id. */
  ghost predicate AppendsBehind(s: seq<byte>, p: nat, r: Repaired) {
    LastAccepted(s, p) && r == AppendAt(p + HEAD_SIZE + Padded(Word(s, p + 32)), Word(s, p + 4) + 1)
  }

  /** No whole block lies behind the file's end, so appending there never leaves a hole. */
  lemma AppendsWithinFile(s: seq<byte>, p: nat)
    requires Accepts(s, p) && p % 4 == 0
    ensures p + HEAD_SIZE + Padded(Word(s, p + 32)) <= Cut(s) <= |s|
  {
    hide Word, Sum0, Sum1;
    PaddedWithin(Word(s, p + 32), Cut(s) - p - HEAD_SIZE);
  }

  lemma PaddedWithin(n: nat, room: nat)
    requires n <= room && room % 4 == 0
    ensures Padded(n) <= room
  {
  }

  /** The scan, backwards over the last two maximal blocks' worth of the file. It appends behind the last
      aligned position that has the magic word, a length that fits, and both checksums of the data behind it;
      it starts the file over, or gives up, exactly when there is no such position. */
  method CheckAndRepair(s: seq<byte>) returns (r: Repaired)
    requires |s| < 0x8000_0000
    ensures r.AppendAt? ==>
              exists p: nat ::
                && p % 4 == 0 && |s| / 4 * 4 - 2 * BLOCK_MAX_SIZE <= p && p + HEAD_SIZE <= |s| / 4 * 4
                && Word(s, p) == MAGIC_NUM
                && var n := Word(s, p + 32);
                && n + HEAD_SIZE <= BLOCK_MAX_SIZE && p + HEAD_SIZE + n <= |s| / 4 * 4
                && Word(s, p + 16) == Sum0(s[p + HEAD_SIZE..p + HEAD_SIZE + n])
                && Word(s, p + 20) == Sum1(s[p + HEAD_SIZE..p + HEAD_SIZE + n])
                && r == AppendAt(p + HEAD_SIZE + Padded(n), Word(s, p + 4) + 1)
                && NoneFrom(s, p + 4)
    ensures r.AppendAt? ==> r.offset <= |s|
    ensures r.NewFile? <==> |s| <= HEAD_SIZE || (|s| / 4 * 4 <= 2 * BLOCK_MAX_SIZE && NoneFrom(s, 0))
    ensures r.GiveUp? <==> |s| > HEAD_SIZE && |s| / 4 * 4 > 2 * BLOCK_MAX_SIZE && NoneFrom(s, |s| / 4 * 4 - 2 * BLOCK_MAX_SIZE)
  {
    hide NoneFrom, Scanned, AppendsBehind, Accepts, Word, Sum0, Sum1, Padded;
    r := Scan(s);
    ScannedCases(s, r);
    WindowIs(s);
    if r.AppendAt? {
      ghost var p: nat :| AppendsBehind(s, p, r);
      AppendMeans(s, p, r);
      AppendedWithin(s, p, r);
    }
  }

  lemma WindowIs(s: seq<byte>)
    ensures WindowOff(s) == if |s| / 4 * 4 <= 2 * BLOCK_MAX_SIZE then 0 else |s| / 4 * 4 - 2 * BLOCK_MAX_SIZE
  {
  }

  /** At no aligned position from `from` on is there a block with magic word, possible length and checksums. */
  ghost predicate NoneFrom(s: seq<byte>, from: nat) {
    forall q :: from <= q && q % 4 == 0 ==> !Accepts(s, q)
  }

  /** Acceptance is this test, spelled out. */
  lemma AcceptsIff(s: seq<byte>, q: nat)
    ensures Accepts(s, q) <==>
              && q + HEAD_SIZE <= |s| / 4 * 4 && Word(s, q) == MAGIC_NUM
              && Word(s, q + 32) + HEAD_SIZE <= BLOCK_MAX_SIZE && q + HEAD_SIZE + Word(s, q + 32) <= |s| / 4 * 4
              && Word(s, q + 16) == Sum0(s[q + HEAD_SIZE..q + HEAD_SIZE + Word(s, q + 32)])
              && Word(s, q + 20) == Sum1(s[q + HEAD_SIZE..q + HEAD_SIZE + Word(s, q + 32)])
  {
    hide Word, Sum0, Sum1;
  }

  lemma AppendMeans(s: seq<byte>, p: nat, r: Repaired)
    requires AppendsBehind(s, p, r)
    ensures p % 4 == 0 && |s| / 4 * 4 - 2 * BLOCK_MAX_SIZE <= p && p + HEAD_SIZE <= |s| / 4 * 4 && Word(s, p) == MAGIC_NUM
    ensures var n := Word(s, p + 32);
            && n + HEAD_SIZE <= BLOCK_MAX_SIZE && p + HEAD_SIZE + n <= |s| / 4 * 4
            && Word(s, p + 16) == Sum0(s[p + HEAD_SIZE..p + HEAD_SIZE + n])
            && Word(s, p + 20) == Sum1(s[p + HEAD_SIZE..p + HEAD_SIZE + n])
            && r == AppendAt(p + HEAD_SIZE + Padded(n), Word(s, p + 4) + 1)
    ensures NoneFrom(s, p + 4)
  {
    hide Word, Sum0, Sum1, Padded, Accepts;
    AcceptsIff(s, p);
    WindowIs(s);
  }

  lemma AppendedWithin(s: seq<byte>, p: nat, r: Repaired)
    requires AppendsBehind(s, p, r)
    ensures r.AppendAt? && r.offset <= |s|
  {
    hide Word, Accepts, WindowOff;
    AppendsWithinFile(s, p);
  }

  /** What the scan decides, in terms of the positions it accepts. */
  ghost predicate Scanned(s: seq<byte>, r: Repaired) {
    && (r.AppendAt? ==> exists p: nat :: AppendsBehind(s, p, r))
    && (r.NewFile? <==> |s| <= HEAD_SIZE || (WindowOff(s) == 0 && forall q :: q % 4 == 0 ==> !Accepts(s, q)))
    && (r.GiveUp? <==> |s| > HEAD_SIZE && WindowOff(s) > 0 && forall q :: WindowOff(s) <= q && q % 4 == 0 ==> !Accepts(s, q))
  }

  method Scan(s: seq<byte>) returns (r: Repaired)
    requires |s| < 0x8000_0000
    ensures Scanned(s, r)
  {
    hide Word, Sum0, Sum1, WindowOff, Cut, Accepts, AppendsBehind, LastAccepted, Padded;
    if |s| <= HEAD_SIZE {
      return NewFile;
    }
    var readOff := WindowOff(s);
    var p := Cut(s);
    BeyondEnd(s);
    while p > readOff
      invariant readOff <= p <= Cut(s) && p % 4 == 0
      invariant forall q :: p <= q && q % 4 == 0 ==> !Accepts(s, q)
    {
      p := p - 4;
      if Accepts(s, p) {
        AppendsWithinFile(s, p);
        HeaderFits(s, p);
        r := AppendAt(p + HEAD_SIZE + Padded(Word(s, p + 32)), Word(s, p + 4) + 1);
        FoundLast(s, p, r);
        return;
      }
    }
    r := if readOff == 0 then NewFile else GiveUp;
  }

  lemma FoundLast(s: seq<byte>, p: nat, r: Repaired)
    requires WindowOff(s) <= p && p % 4 == 0 && Accepts(s, p) && forall q :: p + 4 <= q && q % 4 == 0 ==> !Accepts(s, q)
    requires p + HEAD_SIZE <= |s| && r == AppendAt(p + HEAD_SIZE + Padded(Word(s, p + 32)), Word(s, p + 4) + 1)
    ensures AppendsBehind(s, p, r)
  {
    hide Word, Accepts, WindowOff, Padded;
  }

  lemma BeyondEnd(s: seq<byte>)
    ensures forall q :: Cut(s) <= q ==> !Accepts(s, q)
  {
    hide Word, Sum0, Sum1;
  }

  lemma HeaderFits(s: seq<byte>, p: nat)
    requires Accepts(s, p)
    ensures p + HEAD_SIZE <= |s|
  {
    hide Word, Sum0, Sum1;
  }

  // ---------- a file of whole blocks and a torn one ----------

  /** The assumption about data: no position other than block starts passes the three tests. */
  ghost predicate NoFalseImage(s: seq<byte>, from: nat, end: nat) {
    forall q :: from < q && q != end && q % 4 == 0 ==> !Accepts(s, q)
  }

  /** A whole block passes the tests. */
  lemma WholeAccepted(s: seq<byte>, p: nat, b: Block, id: nat)
    requires Storable(b) && id < TWO32 && Stands(s, p, Encode(b, id)) && p % 4 == 0
    ensures Accepts(s, p) && Word(s, p + 4) == id && Word(s, p + 32) == |b.data|
  {
    hide Word, Sum0, Sum1, Encode, Stands;
    ReadBack(s, p, b, id);
    assert p + HEAD_SIZE + Padded(|b.data|) <= Cut(s);
  }

  /** A block that is not all there does not: also when only padding is missing. */
  lemma TornRejected(image: seq<byte>, tail: seq<byte>, b: Block, id: nat)
    requires Storable(b) && id < TWO32 && tail < Encode(b, id) && |image| % 4 == 0
    ensures !Accepts(image + tail, |image|)
  {
    hide Word, Sum0, Sum1, Encode, Words, Head;
    var s, p := image + tail, |image|;
    if p + HEAD_SIZE <= Cut(s) {
      TornLength(image, tail, b, id);
      assert |b.data| + HEAD_SIZE > Cut(s) - p;
    }
  }

  /** A complete header in front of torn data still names the full length. */
  lemma TornLength(image: seq<byte>, tail: seq<byte>, b: Block, id: nat)
    requires Storable(b) && id < TWO32 && tail < Encode(b, id) && HEAD_SIZE <= |tail|
    ensures Word(image + tail, |image| + 32) == |b.data|
  {
    hide Word, Sum0, Sum1;
    var e := Encode(b, id);
    assert e[..|tail|] == tail;
    SubSlice(e, 0, |tail|, 32, 36);
    assert (image + tail)[|image| + 32..|image| + 36] == tail[32..36];
    WordWithin(image + tail, e, |image| + 32, 32);
    StandsAtEnd([], e, e);
    ReadBack(e, 0, b, id);
  }

  /** The last whole block starts inside the window. */
  lemma LastBlockInWindow(bs: seq<Block>, tail: seq<byte>)
    requires AllStorable(bs) && bs != [] && |tail| <= BLOCK_MAX_SIZE
    ensures WindowOff(Image(bs) + tail) <= Start(bs, |bs| - 1)
  {
    hide Image, Encode, Stands;
    BlockStands(bs, |bs| - 1);
    assert Storable(bs[|bs| - 1]) && bs[..|bs|] == bs;
  }

  lemma LastBlockFound(bs: seq<Block>, tail: seq<byte>)
    requires AllStorable(bs) && bs != [] && |tail| <= BLOCK_MAX_SIZE && !Accepts(Image(bs) + tail, |Image(bs)|)
    requires NoFalseImage(Image(bs) + tail, Start(bs, |bs| - 1), |Image(bs)|)
    ensures var s, p := Image(bs) + tail, Start(bs, |bs| - 1);
            AppendsBehind(s, p, AppendAt(|Image(bs)|, |bs| + 1)) && |s| > HEAD_SIZE
  {
    hide Accepts, Word, Encode, Image, Sum0, Sum1, WindowOff, Stands;
    var s, n := Image(bs) + tail, |bs| - 1;
    var p := Start(bs, n);
    BlockStands(bs, n);
    ImageAligned(bs[..n]);
    assert bs[..|bs|] == bs;
    StandsInFront(Image(bs), tail, p, Encode(bs[n], n + 1));
    WholeAccepted(s, p, bs[n], n + 1);
    LastBlockInWindow(bs, tail);
  }

  lemma StandsInFront(image: seq<byte>, tail: seq<byte>, p: nat, e: seq<byte>)
    requires Stands(image, p, e)
    ensures Stands(image + tail, p, e)
  {
    assert (image + tail)[p..p + |e|] == image[p..p + |e|];
  }

  lemma OneLastAccepted(s: seq<byte>, p: nat, q: nat, a: Repaired, b: Repaired)
    requires AppendsBehind(s, p, a) && AppendsBehind(s, q, b)
    ensures a == b
  {
    hide Accepts, WindowOff, Word;
  }

  /** For whole blocks followed by bytes that are not accepted as one more, and no false image of a block,
      the scan finds the last whole block, appends right behind it with the next block id, and never gives
      up. */
  method RepairBehind(s: seq<byte>, ghost bs: seq<Block>, ghost tail: seq<byte>) returns (r: Repaired)
    requires AllStorable(bs) && s == Image(bs) + tail && |s| < 0x8000_0000 && |tail| <= BLOCK_MAX_SIZE
    requires !Accepts(s, |Image(bs)|)
    requires NoFalseImage(s, if bs == [] then 0 else Start(bs, |bs| - 1), |Image(bs)|)
    ensures r == if bs == [] then NewFile else AppendAt(|Image(bs)|, |bs| + 1)
  {
    hide *;
    r := Scan(s);
    ScannedCases(s, r);
    if bs == [] {
      NothingFound(s, bs, tail);
    } else {
      LastBlockFound(bs, tail);
      ghost var p := Start(bs, |bs| - 1);
      AcceptedSomewhere(s, p, AppendAt(|Image(bs)|, |bs| + 1));
      if r.AppendAt? {
        ghost var q: nat :| AppendsBehind(s, q, r);
        OneLastAccepted(s, p, q, AppendAt(|Image(bs)|, |bs| + 1), r);
      }
    }
  }

  lemma ScannedCases(s: seq<byte>, r: Repaired)
    requires Scanned(s, r)
    ensures r.AppendAt? ==> exists p: nat :: AppendsBehind(s, p, r)
    ensures r.NewFile? <==> |s| <= HEAD_SIZE || (WindowOff(s) == 0 && NoneFrom(s, 0))
    ensures r.GiveUp? <==> |s| > HEAD_SIZE && WindowOff(s) > 0 && NoneFrom(s, WindowOff(s))
  {
    hide AppendsBehind, Accepts, WindowOff;
  }

  /** Crash repair after a torn write: whole blocks, and a strict prefix of one more. */
  method RepairTorn(s: seq<byte>, ghost bs: seq<Block>, ghost tail: seq<byte>, ghost next: Block) returns (r: Repaired)
    requires AllStorable(bs) && s == Image(bs) + tail && |s| < 0x8000_0000
    requires Storable(next) && tail < Encode(next, |bs| + 1)
    requires NoFalseImage(s, if bs == [] then 0 else Start(bs, |bs| - 1), |Image(bs)|)
    ensures r == if bs == [] then NewFile else AppendAt(|Image(bs)|, |bs| + 1)
  {
    hide *;
    ImageAligned(bs);
    NextId(bs);
    TornRejected(Image(bs), tail, next, |bs| + 1);
    ShorterThanBlock(tail, next, |bs| + 1);
    r := RepairBehind(s, bs, tail);
  }

  lemma NextId(bs: seq<Block>)
    requires AllStorable(bs)
    ensures |bs| + 1 < TWO32
  {
  }

  lemma ShorterThanBlock(tail: seq<byte>, b: Block, id: nat)
    requires Storable(b) && id < TWO32 && tail < Encode(b, id)
    ensures |tail| <= BLOCK_MAX_SIZE
  {
    hide Words, Head;
  }

  /** A block whose header and padding reached the disk, and other data. */
  function Damaged(b: Block, id: nat, data: seq<byte>): seq<byte>
    requires Storable(b) && id < TWO32
  {
    Words(Head(b, id)) + data + b.pad
  }

  lemma DamagedHead(image: seq<byte>, b: Block, id: nat, data: seq<byte>)
    requires Storable(b) && id < TWO32
    ensures var s, p := image + Damaged(b, id, data), |image|;
            p + HEAD_SIZE + |data| <= |s| && Stands(s, p, Words(Head(b, id))) && s[p + HEAD_SIZE..p + HEAD_SIZE + |data|] == data
  {
    hide Words, Head;
    var s, p := image + Damaged(b, id, data), |image|;
    assert s == image + Words(Head(b, id)) + data + b.pad;
    StandsAtEnd(image, Words(Head(b, id)), s);
  }

  /** Such a block is not accepted, if a checksum of the data differs. */
  lemma DamagedRejected(image: seq<byte>, b: Block, id: nat, data: seq<byte>)
    requires Storable(b) && id < TWO32 && |data| == |b.data| && (Sum0(data) != Sum0(b.data) || Sum1(data) != Sum1(b.data))
    ensures !Accepts(image + Damaged(b, id, data), |image|)
  {
    var h, p := Head(b, id), |image|;
    assert h[4] == Sum0(b.data) && h[5] == Sum1(b.data) && h[8] == |b.data|;
    hide Word, Words, Head, Sum0, Sum1, Accepts, Damaged, Stands, Storable, Padded;
    var s := image + Damaged(b, id, data);
    DamagedHead(image, b, id, data);
    HeaderWord(s, p, b, id, 4);
    HeaderWord(s, p, b, id, 5);
    HeaderWord(s, p, b, id, 8);
    if Accepts(s, p) {
      AcceptedSums(s, p, data);
    }
  }

  lemma AcceptedSums(s: seq<byte>, p: nat, data: seq<byte>)
    requires Accepts(s, p) && p + HEAD_SIZE + |data| <= |s| && Word(s, p + 32) == |data|
    requires s[p + HEAD_SIZE..p + HEAD_SIZE + |data|] == data
    ensures Word(s, p + 16) == Sum0(data) && Word(s, p + 20) == Sum1(data)
  {
    hide Word, Sum0, Sum1;
  }

  lemma ByteBits(c: bv8)
    ensures (c as byte) as bv8 == c
  {
  }

  /** A changed last byte of the data always shows in the first checksum. */
  lemma LastByteChangesSum(front: seq<byte>, c: bv8, d: bv8)
    requires c != d
    ensures Sum0(front + [c as byte]) != Sum0(front + [d as byte])
  {
    hide Sign64;
    ByteBits(c);
    ByteBits(d);
    assert Bits(front + [c as byte]) == Bits(front) + [c];
    assert Bits(front + [d as byte]) == Bits(front) + [d];
    LastByteTells(Bits(front), c, d);
  }

  /** Crash repair after lost data: whole blocks, the last of which has other data than was written, so that
      a checksum differs. It appends behind the block before it, over the damaged one. */
  method RepairDamaged(s: seq<byte>, ghost bs: seq<Block>, ghost b: Block, ghost data: seq<byte>) returns (r: Repaired)
    requires AllStorable(bs) && Storable(b) && s == Image(bs) + Damaged(b, |bs| + 1, data) && |s| < 0x8000_0000
    requires |data| == |b.data| && (Sum0(data) != Sum0(b.data) || Sum1(data) != Sum1(b.data))
    requires NoFalseImage(s, if bs == [] then 0 else Start(bs, |bs| - 1), |Image(bs)|)
    ensures r == if bs == [] then NewFile else AppendAt(|Image(bs)|, |bs| + 1)
  {
    hide *;
    NextId(bs);
    DamagedRejected(Image(bs), b, |bs| + 1, data);
    DamagedLength(b, |bs| + 1, data);
    r := RepairBehind(s, bs, Damaged(b, |bs| + 1, data));
  }

  lemma DamagedLength(b: Block, id: nat, data: seq<byte>)
    requires Storable(b) && id < TWO32 && |data| == |b.data|
    ensures |Damaged(b, id, data)| <= BLOCK_MAX_SIZE
  {
    hide Words, Head;
  }

  lemma AcceptedSomewhere(s: seq<byte>, p: nat, r: Repaired)
    requires AppendsBehind(s, p, r)
    ensures !NoneFrom(s, 0) && !NoneFrom(s, WindowOff(s))
  {
    hide Accepts;
  }

  lemma NothingFound(s: seq<byte>, bs: seq<Block>, tail: seq<byte>)
    requires AllStorable(bs) && s == Image(bs) + tail && bs == [] && |tail| <= BLOCK_MAX_SIZE
    requires !Accepts(s, |Image(bs)|) && NoFalseImage(s, 0, |Image(bs)|)
    ensures WindowOff(s) == 0 && NoneFrom(s, 0)
  {
    hide Accepts, Word, Encode, Sum0, Sum1;
  }

  // ---------- what repair leaves behind ----------

  /** A write in place. */
  function Overwrite(s: seq<byte>, o: nat, e: seq<byte>): (r: seq<byte>)
    requires o <= |s|
  {
    s[..o] + e + if o + |e| <= |s| then s[o + |e|..] else []
  }

  /** The torn bytes are not cut off. The file is whole again after the next block exactly when that
      block is at least as long as what was left of the torn one. */
  lemma WholeAgainIff(bs: seq<Block>, tail: seq<byte>, b: Block)
    requires AllStorable(bs + [b])
    ensures AllStorable(bs) && Storable(b)
    ensures Overwrite(Image(bs) + tail, |Image(bs)|, Encode(b, |bs| + 1)) == Image(bs + [b]) <==> |tail| <= |Encode(b, |bs| + 1)|
  {
    ImagePush(bs, b);
    hide Image, Encode;
    var e, image := Encode(b, |bs| + 1), Image(bs);
    assert (image + tail)[..|image|] == image;
    if |tail| <= |e| {
      assert Overwrite(image + tail, |image|, e) == image + e;
    }
  }

  const SHORT := Block(0, 0, [1], [0, 0, 0])
  const LONG := Block(0, 0, [1, 2, 3, 4, 5, 6, 7, 8], [])

  lemma ShortAndLong()
    ensures AllStorable([SHORT]) && AllStorable([SHORT, SHORT]) && Storable(SHORT) && Storable(LONG)
    ensures |Encode(SHORT, 2)| == 40 && |Encode(LONG, 2)| == 44
  {
    hide Words, Head;
  }

  /** The failing case: a block of 44 bytes torn after 41 of them, and one of 40 bytes written over it. One
      stale byte stays. */
  lemma ShortBlockLeavesStaleByte(torn: seq<byte>)
    requires Storable(LONG) && torn == Encode(LONG, 2)[..41]
    ensures AllStorable([SHORT]) && AllStorable([SHORT, SHORT]) && Storable(SHORT)
    ensures Overwrite(Image([SHORT]) + torn, |Image([SHORT])|, Encode(SHORT, 2)) != Image([SHORT, SHORT])
  {
    hide Encode, Storable;
    ShortAndLong();
    assert [SHORT] + [SHORT] == [SHORT, SHORT];
    WholeAgainIff([SHORT], torn, SHORT);
  }
}
