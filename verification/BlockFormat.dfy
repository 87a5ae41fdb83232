/** `filelinkblock`: the byte format of a queue file. A file is a run of blocks numbered 1, 2, 3, ...;
    a block is nine little-endian words, the message, and padding to a multiple of four. */
module BlockFormat {
  import opened Prelude
  import opened CreatSign

  const MAGIC_NUM: nat := 0x19831201
  const BLOCK_MAX_SIZE: nat := 0x40_0000
  const FILE_MAX_SIZE: nat := 0x4000_0000
  const HEAD_SIZE: nat := 36

  // ---------- words ----------

  function Le32(n: nat): (r: seq<byte>)
    requires n < TWO32
    ensures |r| == 4
  {
    [(n % 256) as byte, (n / 256 % 256) as byte, (n / 65536 % 256) as byte, (n / 16777216) as byte]
  }

  /** The 32-bit word at byte position p. */
  function Word(s: seq<byte>, p: nat): (n: nat)
    requires p + 4 <= |s|
    ensures n < TWO32
  {
    s[p] as nat + 256 * s[p + 1] as nat + 65536 * s[p + 2] as nat + 16777216 * s[p + 3] as nat
  }

  lemma WordOfLe(n: nat)
    requires n < TWO32
    ensures Word(Le32(n), 0) == n
  {
    var a, b := n / 256, n / 65536;
    assert n == 256 * a + n % 256;
    assert a == 256 * b + a % 256;
    assert b == 256 * (n / 16777216) + b % 256;
  }

  /** A word only depends on its four bytes. */
  lemma WordWithin(s: seq<byte>, t: seq<byte>, p: nat, q: nat)
    requires p + 4 <= |s| && q + 4 <= |t| && s[p..p + 4] == t[q..q + 4]
    ensures Word(s, p) == Word(t, q)
  {
    var w := s[p..p + 4];
    assert w[0] == t[q..q + 4][0] && w[1] == t[q..q + 4][1] && w[2] == t[q..q + 4][2] && w[3] == t[q..q + 4][3];
    assert s[p + 0] == t[q + 0] && s[p + 1] == t[q + 1] && s[p + 2] == t[q + 2] && s[p + 3] == t[q + 3];
  }

  function Words(ws: seq<nat>): (r: seq<byte>)
    requires forall i :: 0 <= i < |ws| ==> ws[i] < TWO32
    ensures |r| == 4 * |ws|
  {
    if ws == [] then [] else Le32(ws[0]) + Words(ws[1..])
  }

  lemma {:induction false} WordsAt(ws: seq<nat>, i: nat)
    requires forall i :: 0 <= i < |ws| ==> ws[i] < TWO32
    requires i < |ws|
    ensures Word(Words(ws), 4 * i) == ws[i]
  {
    hide Word, Le32;
    if i == 0 {
      WordOfLe(ws[0]);
      WordWithin(Words(ws), Le32(ws[0]), 0, 0);
    } else {
      WordsAt(ws[1..], i - 1);
      WordWithin(Words(ws), Words(ws[1..]), 4 * i, 4 * (i - 1));
    }
  }

  // ---------- blocks ----------

  /** A message as it is stored: the padding is whatever was in memory. */
  datatype Block = Block(logId: nat, timestamp: nat, data: seq<byte>, pad: seq<byte>)

  function Padded(size: nat): (r: nat)
    ensures size <= r < size + 4 && r % 4 == 0
  {
    (size + 3) / 4 * 4
  }

  function Bits(data: seq<byte>): seq<bv8> {
    seq(|data|, i requires 0 <= i < |data| => data[i] as bv8)
  }

  function Sum0(data: seq<byte>): (r: nat)
    ensures r < TWO32
  {
    Sign64(Bits(data)) % TWO32
  }

  function Sum1(data: seq<byte>): (r: nat)
    ensures r < TWO32
  {
    Sign64(Bits(data)) / TWO32
  }

  /** What `write_message` accepts. */
  predicate Storable(b: Block) {
    && b.logId < TWO32 && b.timestamp < TWO32 && b.data != [] && |b.data| + |b.pad| == Padded(|b.data|)
    && HEAD_SIZE + Padded(|b.data|) <= BLOCK_MAX_SIZE
  }

  function Head(b: Block, id: nat): (ws: seq<nat>)
    requires Storable(b) && id < TWO32
    ensures |ws| == 9 && forall i :: 0 <= i < |ws| ==> ws[i] < TWO32
  {
    [MAGIC_NUM, id, b.timestamp, b.logId, Sum0(b.data), Sum1(b.data), 0, 0, |b.data|]
  }

  function Encode(b: Block, id: nat): (r: seq<byte>)
    requires Storable(b) && id < TWO32
    ensures |r| == HEAD_SIZE + Padded(|b.data|)
  {
    Words(Head(b, id)) + b.data + b.pad
  }

  /** Bytes e stand in s at position p. */
  predicate Stands(s: seq<byte>, p: nat, e: seq<byte>) {
    p + |e| <= |s| && s[p..p + |e|] == e
  }

  /** The header fields and the data of a block that stands in s. */
  lemma ReadBack(s: seq<byte>, p: nat, b: Block, id: nat)
    requires Storable(b) && id < TWO32 && Stands(s, p, Encode(b, id))
    ensures p + HEAD_SIZE + Padded(|b.data|) <= |s|
    ensures Word(s, p) == MAGIC_NUM && Word(s, p + 4) == id && Word(s, p + 8) == b.timestamp && Word(s, p + 12) == b.logId
    ensures Word(s, p + 24) == Word(s, p + 28) == 0
    ensures Word(s, p + 16) == Sum0(b.data) && Word(s, p + 20) == Sum1(b.data) && Word(s, p + 32) == |b.data|
    ensures s[p + HEAD_SIZE..p + HEAD_SIZE + |b.data|] == b.data
  {
    var h := Head(b, id);
    assert h[0] == MAGIC_NUM && h[1] == id && h[2] == b.timestamp && h[3] == b.logId;
    assert h[4] == Sum0(b.data) && h[5] == Sum1(b.data) && h[6] == h[7] == 0 && h[8] == |b.data|;
    hide Word, Words, Le32, Sum0, Sum1, Head;
    HeadWord(s, p, b, id, 0);
    HeadWord(s, p, b, id, 1);
    HeadWord(s, p, b, id, 2);
    HeadWord(s, p, b, id, 3);
    HeadWord(s, p, b, id, 4);
    HeadWord(s, p, b, id, 5);
    HeadWord(s, p, b, id, 6);
    HeadWord(s, p, b, id, 7);
    HeadWord(s, p, b, id, 8);
    DataOf(s, p, b, id);
  }

  lemma HeadWord(s: seq<byte>, p: nat, b: Block, id: nat, i: nat)
    requires Storable(b) && id < TWO32 && Stands(s, p, Encode(b, id)) && i < 9
    ensures Word(s, p + 4 * i) == Head(b, id)[i]
  {
    hide Word, Le32, Words, Head;
    var e := Encode(b, id);
    SubSlice(s, p, p + |e|, 0, HEAD_SIZE);
    assert e[0..HEAD_SIZE] == Words(Head(b, id));
    HeaderWord(s, p, b, id, i);
  }

  /** The header fields of a block whose header stands in s, whatever follows it. */
  lemma HeaderWord(s: seq<byte>, p: nat, b: Block, id: nat, i: nat)
    requires Storable(b) && id < TWO32 && Stands(s, p, Words(Head(b, id))) && i < 9
    ensures Word(s, p + 4 * i) == Head(b, id)[i]
  {
    hide Word, Le32, Words, Head;
    var e := Words(Head(b, id));
    WordsAt(Head(b, id), i);
    SubSlice(s, p, p + |e|, 4 * i, 4 * i + 4);
    WordWithin(s, e, p + 4 * i, 4 * i);
  }

  lemma SubSlice(s: seq<byte>, p: nat, q: nat, a: nat, b: nat)
    requires p <= q <= |s| && a <= b <= q - p
    ensures s[p..q][a..b] == s[p + a..p + b]
  {
    var l, r := s[p..q][a..b], s[p + a..p + b];
    assert |l| == |r|;
    assert forall i :: 0 <= i < |l| ==> l[i] == r[i];
  }

  lemma DataOf(s: seq<byte>, p: nat, b: Block, id: nat)
    requires Storable(b) && id < TWO32 && Stands(s, p, Encode(b, id))
    ensures s[p + HEAD_SIZE..p + HEAD_SIZE + |b.data|] == b.data
  {
    hide Words, Head;
    var e := Encode(b, id);
    assert e[HEAD_SIZE..HEAD_SIZE + |b.data|] == b.data;
    SubSlice(s, p, p + |e|, HEAD_SIZE, HEAD_SIZE + |b.data|);
  }

  // ---------- files ----------

  predicate AllStorable(bs: seq<Block>) {
    |bs| < TWO32 - 1 && forall i :: 0 <= i < |bs| ==> Storable(bs[i])
  }

  /** The bytes of a file of whole blocks, with ids 1, 2, 3, ... */
  function Image(bs: seq<Block>): (r: seq<byte>)
    requires AllStorable(bs)
  {
    if bs == [] then [] else Image(bs[..|bs| - 1]) + Encode(bs[|bs| - 1], |bs|)
  }

  /** Blocks start at multiples of four. */
  lemma {:induction false} ImageAligned(bs: seq<Block>)
    requires AllStorable(bs)
    ensures |Image(bs)| % 4 == 0
  {
    hide Words, Head;
    if bs != [] {
      ImageAligned(bs[..|bs| - 1]);
      assert Storable(bs[|bs| - 1]);
    }
  }

  /** Where block number c + 1 starts. */
  function Start(bs: seq<Block>, c: nat): nat
    requires AllStorable(bs) && c <= |bs|
  {
    |Image(bs[..c])|
  }

  lemma {:induction false} ImagePrefix(bs: seq<Block>, c: nat)
    requires AllStorable(bs) && c <= |bs|
    ensures Image(bs[..c]) <= Image(bs)
  {
    if c < |bs| {
      ImagePrefix(bs[..|bs| - 1], c);
      assert bs[..|bs| - 1][..c] == bs[..c];
    } else {
      assert bs[..c] == bs;
    }
  }

  lemma StandsAtEnd(a: seq<byte>, e: seq<byte>, s: seq<byte>)
    requires a + e <= s
    ensures Stands(s, |a|, e)
  {
    assert s[..|a + e|] == a + e;
  }

  /** Every block of a file stands where the lengths of its predecessors put it. */
  lemma BlockStands(bs: seq<Block>, c: nat)
    requires AllStorable(bs) && c < |bs|
    ensures Stands(Image(bs), Start(bs, c), Encode(bs[c], c + 1))
    ensures Start(bs, c + 1) == Start(bs, c) + HEAD_SIZE + Padded(|bs[c].data|) <= |Image(bs)|
  {
    hide Encode, Storable, Stands, Padded;
    var front := bs[..c + 1];
    assert front[..c] == bs[..c] && front[c] == bs[c];
    ImagePrefix(bs, c + 1);
    assert Image(front) == Image(bs[..c]) + Encode(bs[c], c + 1);
    StandsAtEnd(Image(bs[..c]), Encode(bs[c], c + 1), Image(bs));
  }

  lemma ImagePush(bs: seq<Block>, b: Block)
    requires AllStorable(bs + [b])
    ensures AllStorable(bs) && Storable(b) && Image(bs + [b]) == Image(bs) + Encode(b, |bs| + 1)
  {
    assert forall i :: 0 <= i < |bs| ==> (bs + [b])[i] == bs[i];
    assert (bs + [b])[|bs|] == b;
    assert (bs + [b])[..|bs|] == bs;
  }

  /** A file ends exactly after its last block. */
  lemma {:induction false} StartsAscend(bs: seq<Block>, c: nat)
    requires AllStorable(bs) && c <= |bs|
    ensures Start(bs, c) == |Image(bs)| <==> c == |bs|
    ensures Start(bs, c) <= |Image(bs)|
    decreases |bs| - c
  {
    if c < |bs| {
      BlockStands(bs, c);
      StartsAscend(bs, c + 1);
    } else {
      assert bs[..c] == bs;
    }
  }
}
