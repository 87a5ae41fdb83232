/** `filelinkblock`: the append-only message queue over numbered files, with its writer and reader. */
module Queue {
  import opened Prelude
  import opened CreatSign
  import opened BlockFormat
  import opened QueueRepair

  /** The reader gets a message, waits at the end, hangs on bytes that never come, or kills the
      process. */
  datatype ReadResult = Message(logId: nat, fileNo: nat, blockId: nat, data: seq<byte>) | Waiting | Stalled | Killed

  predicate FileOk(file: seq<byte>, bs: seq<Block>, tail: seq<byte>) {
    AllStorable(bs) && file == Image(bs) + tail
  }

  /** All messages of the queue in order. */
  function Messages(bss: seq<seq<Block>>): seq<Block> {
    if bss == [] then [] else Messages(bss[..|bss| - 1]) + bss[|bss| - 1]
  }

  /** How many messages precede block c + 1 of file f. */
  function Index(bss: seq<seq<Block>>, f: nat, c: nat): nat
    requires f <= |bss|
  {
    |Messages(bss[..f])| + c
  }

  lemma {:induction false} MessagePrefix(bss: seq<seq<Block>>, f: nat)
    requires f <= |bss|
    ensures Messages(bss[..f]) <= Messages(bss)
  {
    if f < |bss| {
      MessagePrefix(bss[..|bss| - 1], f);
      assert bss[..|bss| - 1][..f] == bss[..f];
    } else {
      assert bss[..f] == bss;
    }
  }

  /** Block c + 1 of file f is the message its index says; the end of a file is the start of the next. */
  lemma MessageAt(bss: seq<seq<Block>>, f: nat, c: nat)
    requires f < |bss| && c <= |bss[f]|
    ensures Index(bss, f, c) <= |Messages(bss)|
    ensures c < |bss[f]| ==> Index(bss, f, c) < |Messages(bss)| && Messages(bss)[Index(bss, f, c)] == bss[f][c]
    ensures Index(bss, f, |bss[f]|) == Index(bss, f + 1, 0)
    ensures f + 1 == |bss| && c == |bss[f]| ==> Index(bss, f, c) == |Messages(bss)|
  {
    hide Messages;
    FrontMessages(bss, f);
    MessagePrefix(bss, f + 1);
    if f + 1 == |bss| {
      assert bss[..f + 1] == bss;
    }
    PrefixAt(Messages(bss[..f]), bss[f], Messages(bss), c);
  }

  lemma FrontMessages(bss: seq<seq<Block>>, f: nat)
    requires f < |bss|
    ensures Messages(bss[..f + 1]) == Messages(bss[..f]) + bss[f]
  {
    assert bss[..f + 1][..f] == bss[..f];
  }

  lemma PrefixAt(a: seq<Block>, b: seq<Block>, s: seq<Block>, c: nat)
    requires a + b <= s
    ensures |a| + |b| <= |s|
    ensures c < |b| ==> |a| + c < |s| && s[|a| + c] == b[c]
  {
    if c < |b| {
      assert s[|a| + c] == (a + b)[|a| + c];
    }
  }

  /** Standing behind block b of file f means: that block is the last message passed, so a read gives
      its successor in the whole queue, in the same file or a later one. */
  lemma BehindBlock(bss: seq<seq<Block>>, f: nat, b: nat)
    requires f < |bss| && 0 < b <= |bss[f]|
    ensures 0 < Index(bss, f, b) <= |Messages(bss)| && Messages(bss)[Index(bss, f, b) - 1] == bss[f][b - 1]
  {
    MessageAt(bss, f, b - 1);
    IndexStep(bss, f, b - 1);
    MessageAt(bss, f, b);
  }

  lemma IndexStep(bss: seq<seq<Block>>, f: nat, c: nat)
    requires f <= |bss|
    ensures Index(bss, f, c + 1) == Index(bss, f, c) + 1
  {
  }

  // ---------- writing ----------

  function BlockLength(b: Block): nat {
    HEAD_SIZE + Padded(|b.data|)
  }

  predicate RollsOver(bs: seq<Block>, b: Block)
    requires AllStorable(bs)
  {
    |Image(bs)| + BlockLength(b) > FILE_MAX_SIZE
  }

  /** Where an accepted message goes: behind the last block, or into a new file. */
  function Put(bss: seq<seq<Block>>, b: Block): seq<seq<Block>>
    requires bss != [] && AllStorable(bss[|bss| - 1])
  {
    var n := |bss| - 1;
    if RollsOver(bss[n], b) then bss + [[b]] else bss[n := bss[n] + [b]]
  }

  /** Wherever it goes, it is the queue's next message. */
  lemma PutAppends(bss: seq<seq<Block>>, b: Block)
    requires bss != [] && AllStorable(bss[|bss| - 1])
    ensures Messages(Put(bss, b)) == Messages(bss) + [b]
  {
    hide RollsOver;
    var n, p := |bss| - 1, Put(bss, b);
    if |p| > |bss| {
      assert p[..|p| - 1] == bss;
    } else {
      assert p[..n] == bss[..n];
      assert Messages(bss[..n]) + (bss[n] + [b]) == (Messages(bss[..n]) + bss[n]) + [b];
    }
  }

  lemma {:induction false} ImageLength(bs: seq<Block>)
    requires AllStorable(bs)
    ensures |Image(bs)| >= 40 * |bs|
  {
    hide Words, Head;
    if bs != [] {
      ImageLength(bs[..|bs| - 1]);
      assert Storable(bs[|bs| - 1]);
    }
  }

  /** A file below its size limit never runs out of block ids. */
  lemma RoomForBlock(bs: seq<Block>, b: Block)
    requires AllStorable(bs) && Storable(b) && |Image(bs)| <= FILE_MAX_SIZE
    ensures AllStorable(bs + [b])
  {
    ImageLength(bs);
  }

  /** What is left of stale bytes behind a block of n bytes written over them. */
  function Leftover(tail: seq<byte>, n: nat): seq<byte> {
    if |tail| <= n then [] else tail[n..]
  }

  lemma OverwriteImage(file: seq<byte>, bs: seq<Block>, tail: seq<byte>, b: Block)
    requires FileOk(file, bs, tail) && AllStorable(bs + [b])
    ensures Storable(b) && |bs| + 1 < TWO32 && |Image(bs)| <= |file|
    ensures FileOk(Overwrite(file, |Image(bs)|, Encode(b, |bs| + 1)), bs + [b], Leftover(tail, BlockLength(b)))
    ensures |Image(bs + [b])| == |Image(bs)| + BlockLength(b)
  {
    hide Image, Encode, Storable;
    ImagePush(bs, b);
    assert file[..|Image(bs)|] == Image(bs);
    if |tail| > BlockLength(b) {
      assert file[|Image(bs)| + BlockLength(b)..] == tail[BlockLength(b)..];
    }
  }

  // ---------- the queue ----------

  /** A message was accepted: it is the next one, and stale bytes under it are gone. */
  predicate Wrote(bss: seq<seq<Block>>, ts: seq<seq<byte>>, bss': seq<seq<Block>>, ts': seq<seq<byte>>, b: Block) {
    && bss != [] && |ts| == |bss| && AllStorable(bss[|bss| - 1]) && bss' == Put(bss, b)
    && ts' == if |bss'| > |bss| then ts + [[]]
              else ts[|bss| - 1 := Leftover(ts[|bss| - 1], BlockLength(b))]
  }

  lemma WroteHere(bss: seq<seq<Block>>, ts: seq<seq<byte>>, b: Block)
    requires bss != [] && |ts| == |bss| && AllStorable(bss[|bss| - 1]) && !RollsOver(bss[|bss| - 1], b)
    ensures var n := |bss| - 1; Wrote(bss, ts, bss[n := bss[n] + [b]], ts[n := Leftover(ts[n], BlockLength(b))], b)
  {
    hide RollsOver;
  }

  lemma WroteNew(bss: seq<seq<Block>>, ts: seq<seq<byte>>, bss': seq<seq<Block>>, ts': seq<seq<byte>>, b: Block)
    requires bss != [] && |ts| == |bss| && AllStorable(bss[|bss| - 1]) && RollsOver(bss[|bss| - 1], b)
    requires BlockLength(b) <= BLOCK_MAX_SIZE && Wrote(bss + [[]], ts + [[]], bss', ts', b)
    ensures Wrote(bss, ts, bss', ts', b)
  {
    EmptyImage();
    var more := bss + [[]];
    assert more[|bss|] == [] && [] + [b] == [b];
    assert more[|bss| := [b]] == bss + [[b]];
    assert bss' == bss + [[b]];
    assert ts' == ts + [[]];
  }

  /** What the reader can take: the buffer is larger than the padded message, and the block strictly
      smaller than the limit. */
  predicate Readable(b: Block, bufSize: nat) {
    Padded(|b.data|) < bufSize && |b.data| + HEAD_SIZE < BLOCK_MAX_SIZE
  }

  const MAXIMAL := Block(0, 0, seq(BLOCK_MAX_SIZE - HEAD_SIZE, i => 0), [])

  /** The writer accepts a block of exactly the limit, and no reader can take it. */
  lemma MaximalBlockIsNeverRead(bufSize: nat)
    ensures Storable(MAXIMAL) && BlockLength(MAXIMAL) == BLOCK_MAX_SIZE && !Readable(MAXIMAL, bufSize)
  {
  }

  class FileLinkBlock {
    var files: seq<seq<byte>>
    var lastFileNo: nat
    var wOffset: nat
    var blockId: nat
    var readFileNo: nat
    var readOffset: nat
    var readBlockId: nat
    /** The blocks of every file, and the stale bytes behind them that a crash may have left. */
    ghost var blocks: seq<seq<Block>>
    ghost var tails: seq<seq<byte>>

    ghost predicate Valid()
      reads this
    {
      Shape() && FilesOk() && ReaderAt(readFileNo, readBlockId)
    }

    ghost predicate Shape()
      reads `files, `blocks, `tails, `lastFileNo, `wOffset, `blockId
    {
      && |files| == |blocks| == |tails| == lastFileNo + 1
      && AllStorable(blocks[lastFileNo]) && wOffset == |Image(blocks[lastFileNo])| <= FILE_MAX_SIZE
      && blockId == |blocks[lastFileNo]| + 1
    }

    ghost predicate FilesOk()
      reads `files, `blocks, `tails
    {
      && |files| == |blocks| == |tails|
      && forall f :: 0 <= f < |files| ==> FileOk(files[f], blocks[f], tails[f])
    }

    /** The reader stands behind block c of file f. */
    ghost predicate ReaderAt(f: nat, c: nat)
      reads this
    {
      && readFileNo == f && readBlockId == c && f < |blocks| && c <= |blocks[f]|
      && AllStorable(blocks[f]) && readOffset == Start(blocks[f], c)
    }

    /** No stale bytes lie between block c of file f and the next block, or the end of the queue. */
    ghost predicate Unobstructed(f: nat, c: nat)
      reads `blocks, `tails
      decreases |blocks| - f
    {
      f < |blocks| == |tails|
      && (c < |blocks[f]| || (tails[f] == [] && (f + 1 < |blocks| ==> Unobstructed(f + 1, 0))))
    }

    /** All stale bytes are beginnings of blocks that were never completed. */
    ghost predicate OnlyTorn()
      reads `blocks, `tails
    {
      |blocks| == |tails| && forall f :: 0 <= f < |blocks| ==> TornBytes(blocks[f], tails[f])
    }

    /** `write_message`: -1 for a message that can never fit a block; otherwise the message goes behind
        the last one, in a new file when the current one would grow too large. The new file's write is
        a second call. */
    method WriteMessage(b: Block) returns (r: int)
      requires Valid() && b.logId < TWO32 && b.timestamp < TWO32 && b.data != [] && |b.data| + |b.pad| == Padded(|b.data|)
      modifies `files, `lastFileNo, `wOffset, `blockId, `blocks, `tails
      ensures Valid()
      ensures r == if BlockLength(b) > BLOCK_MAX_SIZE then -1 else 0
      ensures r == -1 ==> blocks == old(blocks) && tails == old(tails)
      ensures r == 0 ==> Wrote(old(blocks), old(tails), blocks, tails, b)
      ensures r == 0 ==> if old(wOffset) + BlockLength(b) > FILE_MAX_SIZE
                         then lastFileNo == old(lastFileNo) + 1 && wOffset == BlockLength(b)
                         else lastFileNo == old(lastFileNo) && wOffset == old(wOffset) + BlockLength(b)
      decreases wOffset
    {
      hide FilesOk, ReaderAt, Image, Put, Wrote, AllStorable;
      ghost var bss, ts := blocks, tails;
      if BlockLength(b) > BLOCK_MAX_SIZE {
        return -1;
      }
      if wOffset + BlockLength(b) > FILE_MAX_SIZE {
        NewFile();
        r := WriteMessage(b);
        WroteNew(bss, ts, blocks, tails, b);
      } else {
        Append(b);
        WroteHere(bss, ts, b);
        r := 0;
      }
    }

    method NewFile()
      requires Valid()
      modifies `files, `lastFileNo, `wOffset, `blockId, `blocks, `tails
      ensures Valid() && blocks == old(blocks) + [[]] && tails == old(tails) + [[]] && wOffset == 0
    {
      hide Image, Start;
      EmptyImage();
      files, blocks, tails := files + [[]], blocks + [[]], tails + [[]];
      lastFileNo, wOffset, blockId := lastFileNo + 1, 0, 1;
    }

    method Append(b: Block)
      requires Valid() && Storable(b) && wOffset + BlockLength(b) <= FILE_MAX_SIZE
      modifies `files, `wOffset, `blockId, `blocks, `tails
      ensures Valid() && lastFileNo < |old(blocks)| && lastFileNo < |old(tails)| && wOffset == old(wOffset) + BlockLength(b)
      ensures blocks == old(blocks)[lastFileNo := old(blocks)[lastFileNo] + [b]]
      ensures tails == old(tails)[lastFileNo := Leftover(old(tails)[lastFileNo], BlockLength(b))]
    {
      hide Image, Encode, Storable, FileOk, AllStorable;
      ghost var bs := blocks[lastFileNo];
      assert FileOk(files[lastFileNo], bs, tails[lastFileNo]);
      RoomForBlock(bs, b);
      OverwriteImage(files[lastFileNo], bs, tails[lastFileNo], b);
      StartKept(bs, b, readBlockId);
      files := files[lastFileNo := Overwrite(files[lastFileNo], wOffset, Encode(b, blockId))];
      wOffset, blockId := wOffset + BlockLength(b), blockId + 1;
      blocks, tails := blocks[lastFileNo := bs + [b]], tails[lastFileNo := Leftover(tails[lastFileNo], BlockLength(b))];
    }

    // ---------- seeking and reading ----------

    /** seek_message(file_no, 0, 0). */
    method SeekStart(f: nat)
      requires Valid() && f < |files|
      modifies `readFileNo, `readOffset, `readBlockId
      ensures Valid() && ReaderAt(f, 0)
    {
      hide FilesOk, Image;
      EmptyImage();
      StorableFile(f);
      assert blocks[f][..0] == [];
      readFileNo, readOffset, readBlockId := f, 0, 0;
    }

    lemma StorableFile(f: nat)
      requires FilesOk() && f < |files|
      ensures |blocks| == |files| == |tails| && AllStorable(blocks[f]) && FileOk(files[f], blocks[f], tails[f])
    {
      hide Image, AllStorable;
    }

    /** One block at the reader's position: the checks of the reader, then the step over it. Bytes that
        are not there are waited for without end. */
    method ReadBlock(bufSize: nat) returns (r: ReadResult)
      requires Valid()
      modifies `readOffset, `readBlockId
      ensures old(readBlockId < |blocks[readFileNo]|) ==> Valid() && BlockRead(old(readBlockId), bufSize, r)
      ensures old(readBlockId == |blocks[readFileNo]| && TornBytes(blocks[readFileNo], tails[readFileNo])) ==>
                Valid() && (r == Stalled || r == Killed)
      ensures r.Message? ==> |r.data| < bufSize
    {
      hide FilesOk, Image, Encode, Stands, Word, AllStorable, Index, Messages, Padded;
      ghost var bs, c := blocks[readFileNo], readBlockId;
      StorableFile(readFileNo);
      var file := files[readFileNo];
      if c < |bs| {
        BlockReads(file, bs, tails[readFileNo], c);
      } else if TornBytes(bs, tails[readFileNo]) {
        TornReads(file, bs, tails[readFileNo]);
      }
      if readOffset + HEAD_SIZE > |file| {
        return Stalled;
      }
      if Word(file, readOffset) != MAGIC_NUM {
        return Killed;
      }
      var size := Word(file, readOffset + 32);
      if Padded(size) >= bufSize || size + HEAD_SIZE >= BLOCK_MAX_SIZE {
        return Killed;
      }
      if readOffset + HEAD_SIZE + Padded(size) > |file| {
        return Stalled;
      }
      var id := Word(file, readOffset + 4);
      r := Message(Word(file, readOffset + 12), readFileNo, id, file[readOffset + HEAD_SIZE..readOffset + HEAD_SIZE + size]);
      readOffset, readBlockId := readOffset + HEAD_SIZE + Padded(size), readBlockId + 1;
      if readBlockId != id {
        return Killed;
      }
    }

    /** Block c + 1 of the current file was read, or refused. */
    ghost predicate BlockRead(c: nat, bufSize: nat, r: ReadResult)
      reads this
    {
      && readFileNo < |blocks| && c < |blocks[readFileNo]|
      && var b := blocks[readFileNo][c];
      if Readable(b, bufSize) then r == Message(b.logId, readFileNo, c + 1, b.data) && readBlockId == c + 1
      else r == Killed && readBlockId == c
    }

    /** `read_message`: the next message of the queue, across file changes, or the wait for one, exactly
        when no stale bytes stand in between. On the bytes of a torn block it hangs or kills the process. */
    method ReadMessage(bufSize: nat) returns (r: ReadResult)
      requires Valid()
      modifies `readFileNo, `readOffset, `readBlockId
      ensures old(readFileNo) <= readFileNo
      ensures old(Unobstructed(readFileNo, readBlockId)) ==>
                Valid() && old(readFileNo) < |blocks| && Next(old(Index(blocks, readFileNo, readBlockId)), bufSize, r)
      ensures !old(Unobstructed(readFileNo, readBlockId)) && OnlyTorn() ==> Valid() && (r == Stalled || r == Killed)
      ensures r.Message? ==> |r.data| < bufSize
    {
      hide FilesOk, Image, Start, AllStorable, Index, Messages, Readable, TornBytes;
      StorableFile(readFileNo);
      MessageAt(blocks, readFileNo, readBlockId);
      EndOfFile(files[readFileNo], blocks[readFileNo], tails[readFileNo], readBlockId);
      while readOffset == |files[readFileNo]|
        invariant Valid() && old(readFileNo) <= readFileNo < |blocks| == |tails| && readBlockId <= |blocks[readFileNo]|
        invariant Unobstructed(readFileNo, readBlockId) == old(Unobstructed(readFileNo, readBlockId))
        invariant Index(blocks, readFileNo, readBlockId) == old(Index(blocks, readFileNo, readBlockId))
        invariant readOffset == |files[readFileNo]| <==> readBlockId == |blocks[readFileNo]| && tails[readFileNo] == []
        decreases |files| - readFileNo
      {
        MessageAt(blocks, readFileNo, readBlockId);
        if readFileNo >= lastFileNo {
          return Waiting;
        }
        SeekStart(readFileNo + 1);
        StorableFile(readFileNo);
        EndOfFile(files[readFileNo], blocks[readFileNo], tails[readFileNo], 0);
      }
      MessageAt(blocks, readFileNo, readBlockId);
      IndexStep(blocks, readFileNo, readBlockId);
      r := ReadBlock(bufSize);
    }

    /** The outcome of a read when `n` messages have been read before. */
    ghost predicate Next(n: nat, bufSize: nat, r: ReadResult)
      reads this
    {
      && Valid()
      && var all := Messages(blocks); var now := Index(blocks, readFileNo, readBlockId);
      if n >= |all| then r == Waiting && now == n
      else if Readable(all[n], bufSize) then r.Message? && r.logId == all[n].logId && r.data == all[n].data
        && r.fileNo == readFileNo && r.blockId == readBlockId && now == n + 1
      else r == Killed && now == n
    }

    /** Every block up to a position is below the reader's limit. */
    ghost predicate BelowLimit(f: nat, block: nat)
      reads `blocks
    {
      f < |blocks| && block <= |blocks[f]|
      && forall i :: 0 <= i < block ==> |blocks[f][i].data| + HEAD_SIZE < BLOCK_MAX_SIZE
    }

    /** With unread messages ahead and no stale bytes in front of the last file, the next one is reached. */
    lemma ReadsOn(f: nat, c: nat)
      requires |blocks| == |tails| && f < |blocks| && c <= |blocks[f]| && ClearFrom(tails, f)
      requires Index(blocks, f, c) < |Messages(blocks)|
      ensures Unobstructed(f, c)
      decreases |blocks| - f
    {
      hide Messages, Index;
      MessageAt(blocks, f, c);
      if c == |blocks[f]| {
        ReadsOn(f + 1, 0);
      }
    }

    /** `seek_message(file, block)`: steps over block heads until the block has been passed. A block that
        exists is reached exactly when every block up to it is below the reader's limit, whatever stale
        bytes lie behind the last one; a read then returns its successor. A block that does not exist is
        never found in a file without stale bytes; a torn head may be taken for it, and then the reader
        stands behind the end of the file. */
    method SeekMessage(f: nat, block: nat) returns (ok: bool)
      requires Valid()
      modifies `readFileNo, `readOffset, `readBlockId
      ensures f < |blocks| && block <= |blocks[f]| ==> (ok <==> BelowLimit(f, block))
      ensures f < |blocks| && block <= |blocks[f]| && ok ==> Valid() && ReaderAt(f, block)
      ensures f >= |blocks| ==> !ok
      ensures f < |blocks| == |tails| == |files| && block > |blocks[f]| && ok ==>
                tails[f] != [] && (TornBytes(blocks[f], tails[f]) ==> readOffset > |files[f]|)
    {
      hide FilesOk, Image, Start, AllStorable, Index, Messages, Word, Padded, Storable, TornBytes;
      if f >= |files| {
        return false;
      }
      StorableFile(f);
      if block == 0 {
        SeekStart(f);
        return true;
      }
      var file, offset := files[f], 0;
      ghost var bs, c, stale := blocks[f], 0, false;
      StartAtZero(bs);
      while true
        invariant stale ==> block > |bs| && tails[f] != [] && (TornBytes(bs, tails[f]) ==> offset > |file|)
        invariant !stale ==> c < block && c <= |bs| && offset == Start(bs, c) <= |file|
        invariant !stale && c == |bs| ==> bs == [] || tails[f] != []
        invariant !stale ==> forall i :: 0 <= i < c ==> |bs[i].data| + HEAD_SIZE < BLOCK_MAX_SIZE
        decreases |file| - offset
      {
        if !stale {
          EndOfFile(file, bs, tails[f], c);
          if c < |bs| {
            BlockReads(file, bs, tails[f], c);
          } else {
            if TornBytes(bs, tails[f]) {
              TornReads(file, bs, tails[f]);
            }
            stale := true;
          }
        }
        if offset + HEAD_SIZE > |file| {
          return false;
        }
        if Word(file, offset) != MAGIC_NUM {
          return false;
        }
        var size := Word(file, offset + 32);
        if size + HEAD_SIZE >= BLOCK_MAX_SIZE {
          return false;
        }
        var id := Word(file, offset + 4);
        offset, c := offset + HEAD_SIZE + Padded(size), c + 1;
        if !stale {
          EndOfFile(file, bs, tails[f], c);
        }
        if id == block {
          readFileNo, readOffset, readBlockId := f, offset, block;
          return true;
        }
        if offset == |file| {
          return false;
        }
      }
    }

    /** Start of the writer: the last file is repaired, everything before it is whole. What was
        torn stays behind the last whole block, unless no whole block is left at all. */
    constructor (found: seq<seq<byte>>, ghost whole: seq<seq<Block>>, ghost tail: seq<byte>, ghost next: Block)
      requires Crashed(found, whole, tail, next)
      ensures Valid() && blocks == (if found == [] then [[]] else whole)
      ensures forall f :: 0 <= f < |tails| ==> tails[f] == if f == |whole| - 1 && whole[f] != [] then tail else []
      ensures ReaderAt(|blocks| - 1, 0) && OnlyTorn()
    {
      hide Image, Start, Torn, FileOk, AllStorable, TornBytes;
      var image, offset, id := Recover(found, whole, tail, next);
      files, lastFileNo, wOffset, blockId := image, |image| - 1, offset, id;
      blocks := if found == [] then [[]] else whole;
      tails := StaleTails(whole, tail);
      readFileNo, readOffset, readBlockId := |image| - 1, 0, 0;
      new;
      StartAtZero(blocks[lastFileNo]);
      forall f | 0 <= f < |blocks| ensures TornBytes(blocks[f], tails[f]) {
        CrashedTail(found, whole, tail, next, f);
      }
    }
  }

  /** What a crash leaves behind the blocks of each file. */
  ghost function StaleTails(whole: seq<seq<Block>>, tail: seq<byte>): (r: seq<seq<byte>>)
    ensures |r| == if whole == [] then 1 else |whole|
    ensures forall f :: 0 <= f < |r| ==> r[f] == if f == |whole| - 1 && whole[f] != [] then tail else []
  {
    if whole == [] then [[]] else seq(|whole|, f requires 0 <= f < |whole| => if f == |whole| - 1 && whole[f] != [] then tail else [])
  }

  /** A directory after a crash: whole files, and a torn last one. */
  ghost predicate Crashed(found: seq<seq<byte>>, whole: seq<seq<Block>>, tail: seq<byte>, next: Block) {
    && |found| == |whole|
    && (forall f :: 0 <= f < |found| ==> FileOk(found[f], whole[f], if f == |found| - 1 then tail else []))
    && (found != [] ==> Torn(found[|found| - 1], whole[|found| - 1], tail, next))
  }

  lemma CrashedTail(found: seq<seq<byte>>, whole: seq<seq<Block>>, tail: seq<byte>, next: Block, f: nat)
    requires Crashed(found, whole, tail, next)
    ensures found == [] ==> TornBytes([], [])
    ensures f < |whole| ==> TornBytes(whole[f], []) && (f == |whole| - 1 ==> TornBytes(whole[f], tail))
  {
    hide Image, Encode, Storable, NoFalseImage;
    ShortAndLong();
    EmptyImage();
    if f < |whole| {
      assert FileOk(found[f], whole[f], if f == |found| - 1 then tail else []);
      assert |Encode(SHORT, |whole[f]| + 1)| > 0;
    }
    assert |Encode(SHORT, 1)| > 0;
  }

  /** The files hold these blocks and stale tails, and the writer stands behind the last block. */
  ghost predicate WriterStands(files: seq<seq<byte>>, bss: seq<seq<Block>>, tails: seq<seq<byte>>, offset: nat, id: nat) {
    && |files| == |bss| == |tails| > 0
    && (forall f :: 0 <= f < |files| ==> FileOk(files[f], bss[f], tails[f]))
    && AllStorable(bss[|bss| - 1]) && offset == |Image(bss[|bss| - 1])| <= FILE_MAX_SIZE && id == |bss[|bss| - 1]| + 1
  }

  /** The repair of a directory: its files, where the writer stands and its next block id. */
  method Recover(found: seq<seq<byte>>, ghost whole: seq<seq<Block>>, ghost tail: seq<byte>, ghost next: Block)
    returns (files: seq<seq<byte>>, offset: nat, id: nat)
    requires Crashed(found, whole, tail, next)
    ensures WriterStands(files, if found == [] then [[]] else whole, StaleTails(whole, tail), offset, id)
  {
    hide Image, Start, FileOk, AllStorable, NoFalseImage, Encode, Storable, StaleTails;
    EmptyImage();
    files, offset, id := found, 0, 1;
    if found == [] {
      files := [[]];
      return;
    }
    var n := |found| - 1;
    var r := RepairTorn(found[n], whole[n], tail, next);
    if r.NewFile? {
      files := found[n := []];
    } else {
      offset, id := r.offset, r.blockId;
    }
  }

  lemma StartAtZero(bs: seq<Block>)
    requires AllStorable(bs)
    ensures Start(bs, 0) == 0
  {
    assert bs[..0] == [];
  }

  /** A file that a crash during one write leaves: whole blocks, a strict prefix of one more, and no
      position that only looks like a block. */
  ghost predicate Torn(file: seq<byte>, bs: seq<Block>, tail: seq<byte>, next: Block) {
    && AllStorable(bs) && file == Image(bs) + tail && |Image(bs)| <= FILE_MAX_SIZE && |file| < 0x8000_0000
    && Storable(next) && tail < Encode(next, |bs| + 1)
    && NoFalseImage(file, if bs == [] then 0 else Start(bs, |bs| - 1), |Image(bs)|)
  }

  /** The bytes behind these blocks are the beginning of one that was never completed, or nothing. */
  ghost predicate TornBytes(bs: seq<Block>, tail: seq<byte>) {
    AllStorable(bs) && exists next :: Storable(next) && tail < Encode(next, |bs| + 1)
  }

  /** A torn block is not all there: its head is incomplete, or names more bytes than the file has. */
  lemma TornReads(file: seq<byte>, bs: seq<Block>, tail: seq<byte>)
    requires FileOk(file, bs, tail) && TornBytes(bs, tail)
    ensures Start(bs, |bs|) + |tail| == |file|
    ensures HEAD_SIZE <= |tail| ==> Start(bs, |bs|) + HEAD_SIZE + Padded(Word(file, Start(bs, |bs|) + 32)) > |file|
  {
    hide Image, Encode, Word;
    var next :| Storable(next) && tail < Encode(next, |bs| + 1);
    assert bs[..|bs|] == bs;
    if HEAD_SIZE <= |tail| {
      TornLength(Image(bs), tail, next, |bs| + 1);
    }
  }

  lemma EmptyImage()
    ensures AllStorable([]) && Image([]) == [] && FileOk([], [], [])
  {
  }

  /** Appending a block moves no earlier one. */
  lemma StartKept(bs: seq<Block>, b: Block, c: nat)
    requires AllStorable(bs) && AllStorable(bs + [b])
    ensures c <= |bs| ==> Start(bs + [b], c) == Start(bs, c)
  {
    if c <= |bs| {
      assert (bs + [b])[..c] == bs[..c];
    }
  }

  /** The bytes at the start of block c + 1 are that block, whatever lies behind the last one. */
  lemma BlockReads(file: seq<byte>, bs: seq<Block>, tail: seq<byte>, c: nat)
    requires FileOk(file, bs, tail) && c < |bs|
    ensures Storable(bs[c])
    ensures var p, b := Start(bs, c), bs[c];
            && p + HEAD_SIZE + Padded(|b.data|) <= |file| && Start(bs, c + 1) == p + HEAD_SIZE + Padded(|b.data|)
            && Word(file, p) == MAGIC_NUM && Word(file, p + 4) == c + 1 && Word(file, p + 12) == b.logId
            && Word(file, p + 32) == |b.data| && file[p + HEAD_SIZE..p + HEAD_SIZE + |b.data|] == b.data
  {
    hide Image, Encode, Stands, Word, Sum0, Sum1;
    BlockStands(bs, c);
    StandsInFront(Image(bs), tail, Start(bs, c), Encode(bs[c], c + 1));
    ReadBack(file, Start(bs, c), bs[c], c + 1);
  }

  /** Without stale bytes, the file ends exactly behind its last block. */
  lemma EndOfFile(file: seq<byte>, bs: seq<Block>, tail: seq<byte>, c: nat)
    requires FileOk(file, bs, tail) && c <= |bs|
    ensures tail == [] ==> (Start(bs, c) == |file| <==> c == |bs|)
    ensures Start(bs, c) == |file| ==> tail == [] && c == |bs|
  {
    hide Image, AllStorable;
    StartsAscend(bs, c);
  }

  // ---------- round trip ----------

  /** Writing moves no reader. */
  lemma PutKeepsIndex(bss: seq<seq<Block>>, b: Block, f: nat, c: nat)
    requires bss != [] && AllStorable(bss[|bss| - 1]) && f < |bss|
    ensures f <= |Put(bss, b)| && Index(Put(bss, b), f, c) == Index(bss, f, c)
  {
    assert Put(bss, b)[..f] == bss[..f];
  }

  /** Stale bytes: t of them behind a writer at w are overwritten before a new file is started. */
  predicate LeavesNone(w: nat, t: nat, ms: seq<Block>)
    decreases |ms|
  {
    || ms == []
    || (if w + BlockLength(ms[0]) > FILE_MAX_SIZE then t == 0
        else t <= BlockLength(ms[0]) || LeavesNone(w + BlockLength(ms[0]), t - BlockLength(ms[0]), ms[1..]))
  }

  lemma NothingToLeave(w: nat, ms: seq<Block>)
    ensures LeavesNone(w, 0, ms)
  {
  }

  /** No stale bytes in the files from f to the one before the last. */
  predicate ClearFrom(ts: seq<seq<byte>>, f: nat) {
    forall g :: f <= g < |ts| - 1 ==> ts[g] == []
  }

  lemma WroteMessage(bss: seq<seq<Block>>, ts: seq<seq<byte>>, bss': seq<seq<Block>>, ts': seq<seq<byte>>, b: Block)
    requires Wrote(bss, ts, bss', ts', b)
    ensures Messages(bss') == Messages(bss) + [b]
    ensures forall f, c :: 0 <= f < |bss| && 0 <= c ==> f <= |bss'| && Index(bss', f, c) == Index(bss, f, c)
  {
    PutAppends(bss, b);
    forall f, c | 0 <= f < |bss| && 0 <= c ensures f <= |bss'| && Index(bss', f, c) == Index(bss, f, c) {
      PutKeepsIndex(bss, b, f, c);
    }
  }

  /** What one write does to the stale bytes in front of a later file. */
  lemma WroteTails(bss: seq<seq<Block>>, ts: seq<seq<byte>>, bss': seq<seq<Block>>, ts': seq<seq<byte>>,
                   ms: seq<Block>, f: nat, w': nat)
    requires ms != [] && Wrote(bss, ts, bss', ts', ms[0]) && f < |ts|
    requires AllStorable(bss'[|bss'| - 1]) && w' == |Image(bss'[|bss'| - 1])|
    ensures ts' != []
    ensures ClearFrom(ts, f) && LeavesNone(|Image(bss[|bss| - 1])|, |ts[|ts| - 1]|, ms)
       <==> ClearFrom(ts', f) && LeavesNone(w', |ts'[|ts'| - 1]|, ms[1..])
  {
    hide LeavesNone, Image, AllStorable, Leftover, ClearFrom;
    var n, b := |bss| - 1, ms[0];
    NothingToLeave(w', ms[1..]);
    LeavesNoneStep(|Image(bss[n])|, |ts[n]|, ms);
    if RollsOver(bss[n], b) {
      assert ts' == ts + [[]];
      ClearOneMore(ts, f);
    } else {
      assert bss'[n] == bss[n] + [b];
      ImagePush(bss[n], b);
      ClearLastChanged(ts, f, ts'[n]);
      LeftoverLength(ts[n], BlockLength(b));
    }
  }

  lemma LeavesNoneStep(w: nat, t: nat, ms: seq<Block>)
    requires ms != []
    ensures w + BlockLength(ms[0]) > FILE_MAX_SIZE ==> (LeavesNone(w, t, ms) <==> t == 0)
    ensures w + BlockLength(ms[0]) <= FILE_MAX_SIZE ==>
              (LeavesNone(w, t, ms) <==>
                t <= BlockLength(ms[0]) || LeavesNone(w + BlockLength(ms[0]), t - BlockLength(ms[0]), ms[1..]))
  {
  }

  lemma LeftoverLength(tail: seq<byte>, n: nat)
    ensures |Leftover(tail, n)| == if |tail| <= n then 0 else |tail| - n
  {
  }

  lemma ClearOneMore(ts: seq<seq<byte>>, f: nat)
    requires f < |ts|
    ensures ClearFrom(ts + [[]], f) <==> ClearFrom(ts, f) && |ts[|ts| - 1]| == 0
  {
    if ClearFrom(ts + [[]], f) {
      assert (ts + [[]])[|ts| - 1] == ts[|ts| - 1];
      assert forall g :: f <= g < |ts| - 1 ==> ts[g] == (ts + [[]])[g];
    }
  }

  lemma ClearLastChanged(ts: seq<seq<byte>>, f: nat, tail: seq<byte>)
    requires f < |ts|
    ensures ClearFrom(ts[|ts| - 1 := tail], f) <==> ClearFrom(ts, f)
  {
    assert forall g :: f <= g < |ts| - 1 ==> ts[|ts| - 1 := tail][g] == ts[g];
  }

  /** The messages of a sequence of reads. */
  predicate Received(got: seq<ReadResult>, ms: seq<Block>) {
    |got| == |ms| && forall i :: 0 <= i < |got| ==> got[i].Message? && got[i].data == ms[i].data && got[i].logId == ms[i].logId
  }

  /** A message both sides can handle. */
  predicate Passes(b: Block, bufSize: nat) {
    && b.logId < TWO32 && b.timestamp < TWO32 && b.data != [] && |b.data| + |b.pad| == Padded(|b.data|)
    && Padded(|b.data|) < bufSize && |b.data| + HEAD_SIZE < BLOCK_MAX_SIZE
  }

  /** Writing messages: all are accepted, and stale bytes stay in front of a later file exactly when the
      messages that went before it did not cover them. */
  method WriteAll(q: FileLinkBlock, ms: seq<Block>, bufSize: nat)
    requires q.Valid() && forall i :: 0 <= i < |ms| ==> Passes(ms[i], bufSize)
    modifies q
    ensures q.Valid() && Messages(q.blocks) == old(Messages(q.blocks)) + ms
    ensures q.readFileNo == old(q.readFileNo) < |q.blocks|
    ensures Index(q.blocks, q.readFileNo, q.readBlockId) == old(Index(q.blocks, q.readFileNo, q.readBlockId))
    ensures old(q.tails) != [] && (ClearFrom(q.tails, q.readFileNo) <==>
              old(ClearFrom(q.tails, q.readFileNo)) && LeavesNone(old(q.wOffset), old(|q.tails[|q.tails| - 1]|), ms))
  {
    hide FileLinkBlock.FilesOk, Start, Image, AllStorable, Messages, Index, Wrote, Put, Padded, LeavesNone, ClearFrom, BlockLength;
    ghost var before := Messages(q.blocks);
    ghost var clear := ClearFrom(q.tails, q.readFileNo) && LeavesNone(q.wOffset, |q.tails[|q.tails| - 1]|, ms);
    for i := 0 to |ms|
      invariant q.Valid() && Messages(q.blocks) == before + ms[..i]
      invariant q.readFileNo == old(q.readFileNo) < |q.blocks| == |q.tails|
      invariant Index(q.blocks, q.readFileNo, q.readBlockId) == old(Index(q.blocks, q.readFileNo, q.readBlockId))
      invariant clear <==> ClearFrom(q.tails, q.readFileNo) && LeavesNone(q.wOffset, |q.tails[|q.tails| - 1]|, ms[i..])
    {
      ghost var bss, ts := q.blocks, q.tails;
      PaddedLimit(ms[i]);
      var r := q.WriteMessage(ms[i]);
      WroteMessage(bss, ts, q.blocks, q.tails, ms[i]);
      WroteTails(bss, ts, q.blocks, q.tails, ms[i..], q.readFileNo, q.wOffset);
      assert before + ms[..i] + [ms[i]] == before + ms[..i + 1];
      assert ms[i..][1..] == ms[i + 1..];
    }
    assert ms[..|ms|] == ms && ms[|ms|..] == [];
    NoneWritten(q.wOffset, |q.tails[|q.tails| - 1]|);
  }

  lemma NoneWritten(w: nat, t: nat)
    ensures LeavesNone(w, t, [])
  {
  }

  /** The reader can take each of the next messages. */
  ghost predicate UnreadReadable(q: FileLinkBlock, count: nat, bufSize: nat)
    requires q.readFileNo <= |q.blocks|
    reads q
  {
    var n := Index(q.blocks, q.readFileNo, q.readBlockId);
    n + count <= |Messages(q.blocks)| && forall i :: n <= i < n + count ==> Readable(Messages(q.blocks)[i], bufSize)
  }

  /** Reading on: the next messages come back in order and unchanged, whatever files they are in. */
  method ReadOn(q: FileLinkBlock, count: nat, bufSize: nat) returns (got: seq<ReadResult>)
    requires q.Valid() && ClearFrom(q.tails, q.readFileNo)
    requires UnreadReadable(q, count, bufSize)
    modifies q`readFileNo, q`readOffset, q`readBlockId
    ensures q.Valid() && old(q.readFileNo) <= q.readFileNo < |q.blocks|
    ensures Index(q.blocks, q.readFileNo, q.readBlockId) == old(Index(q.blocks, q.readFileNo, q.readBlockId)) + count
    ensures Received(got, Messages(q.blocks)[old(Index(q.blocks, q.readFileNo, q.readBlockId))..][..count])
  {
    hide FileLinkBlock.FilesOk, FileLinkBlock.Unobstructed, Readable, Start, AllStorable, Messages, Index;
    ghost var all, n := Messages(q.blocks), Index(q.blocks, q.readFileNo, q.readBlockId);
    got := [];
    for i := 0 to count
      invariant q.Valid() && old(q.readFileNo) <= q.readFileNo < |q.blocks|
      invariant Index(q.blocks, q.readFileNo, q.readBlockId) == n + i
      invariant Received(got, all[n..][..i])
    {
      q.ReadsOn(q.readFileNo, q.readBlockId);
      var r := q.ReadMessage(bufSize);
      got := got + [r];
    }
  }

  /** Round trip: after any messages were written, a reader gets everything it had not read before and
      then these messages, in order and unchanged, whatever files they went to; also on a queue that a
      crash left, as long as no stale bytes are left in front of a later file. */
  method RoundTrip(q: FileLinkBlock, unread: nat, ms: seq<Block>, bufSize: nat) returns (got: seq<ReadResult>)
    requires q.Valid() && Index(q.blocks, q.readFileNo, q.readBlockId) + unread == |Messages(q.blocks)|
    requires UnreadReadable(q, unread, bufSize)
    requires forall i :: 0 <= i < |ms| ==> Passes(ms[i], bufSize)
    requires q.tails != [] && ClearFrom(q.tails, q.readFileNo) && LeavesNone(q.wOffset, |q.tails[|q.tails| - 1]|, ms)
    modifies q
    ensures q.Valid() && Messages(q.blocks) == old(Messages(q.blocks)) + ms
    ensures var sent := old(Messages(q.blocks)[Index(q.blocks, q.readFileNo, q.readBlockId)..]) + ms;
            && |got| == |sent|
            && forall i :: 0 <= i < |got| ==> got[i].Message? && got[i].data == sent[i].data && got[i].logId == sent[i].logId
    ensures Index(q.blocks, q.readFileNo, q.readBlockId) == |Messages(q.blocks)|
  {
    hide FileLinkBlock.FilesOk, FileLinkBlock.Unobstructed, Start, AllStorable, Messages, Index, LeavesNone, ClearFrom, Padded;
    ghost var before, n := Messages(q.blocks), Index(q.blocks, q.readFileNo, q.readBlockId);
    WriteAll(q, ms, bufSize);
    var count := unread + |ms|;
    ghost var all := Messages(q.blocks);
    assert all[n..][..count] == all[n..] == before[n..] + ms;
    forall i | n <= i < n + count ensures Readable(all[i], bufSize) {
      assert i < |before| ==> all[i] == before[i];
      assert i >= |before| ==> all[i] == ms[i - |before|];
    }
    got := ReadOn(q, count, bufSize);
  }

  /** What the reader's strict limit admits, the writer accepts. */
  lemma PaddedLimit(b: Block)
    requires |b.data| + HEAD_SIZE < BLOCK_MAX_SIZE
    ensures BlockLength(b) <= BLOCK_MAX_SIZE
  {
  }
}
