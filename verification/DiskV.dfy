/** `diskv`: an append-only log of values over numbered files, addressed by packed positions. */
module DiskV {
  import opened Prelude
  import FB = FileBlock

  const MAX_FILE_SIZE: nat := 2097152000
  const MAX_DATA_SIZE: nat := 0x800_0000

  /** The bit fields of a stored position: 5, 27 and 31 bits. */
  datatype Idx = Idx(fileNo: nat, dataLen: nat, offset: nat)

  /** Storing into the bit fields keeps the low bits only. */
  function Packed(fileNo: nat, length: nat, offset: nat): (i: Idx)
    ensures i.fileNo < 32 && i.dataLen < MAX_DATA_SIZE && i.offset < 0x8000_0000
  {
    Idx(fileNo % 32, length % MAX_DATA_SIZE, offset % 0x8000_0000)
  }

  /** A position survives packing exactly when its file is among the first 32 and its length is
      below the limit that the size check itself still admits. */
  lemma FaithfulIff(fileNo: nat, length: nat, offset: nat)
    requires length <= MAX_DATA_SIZE && offset <= MAX_FILE_SIZE
    ensures Packed(fileNo, length, offset) == Idx(fileNo, length, offset) <==> fileNo < 32 && length < MAX_DATA_SIZE
  {
  }

  lemma PackedOffset(fileNo: nat, length: nat, offset: nat)
    requires offset <= MAX_FILE_SIZE
    ensures Packed(fileNo, length, offset).offset == offset
  {
  }

  type Files = map<nat, seq<byte>>

  /** The position names exactly these bytes. */
  predicate Holds(files: Files, i: Idx, bytes: seq<byte>) {
    && i.fileNo in files && i.dataLen == |bytes| && i.offset + i.dataLen <= |files[i.fileNo]|
    && files[i.fileNo][i.offset..i.offset + i.dataLen] == bytes
  }

  /** Files only grow. */
  predicate Extends(files: Files, files': Files) {
    forall k :: k in files ==> k in files' && files[k] <= files'[k]
  }

  /** What was stored stays stored. */
  lemma HoldsKept(files: Files, files': Files, i: Idx, bytes: seq<byte>)
    requires Holds(files, i, bytes) && Extends(files, files')
    ensures Holds(files', i, bytes)
  {
    var f, f' := files[i.fileNo], files'[i.fileNo];
    assert forall k :: 0 <= k < |f| ==> f[k] == f'[k];
  }

  lemma ExtendsRefl(a: Files)
    ensures Extends(a, a)
  {
  }

  lemma ExtendsTrans(a: Files, b: Files, c: Files)
    requires Extends(a, b) && Extends(b, c)
    ensures Extends(a, c)
  {
    forall k | k in a ensures k in c && a[k] <= c[k] {
      assert a[k] <= b[k] <= c[k];
    }
  }

  /** A file has these bytes at this offset. */
  predicate HasBytes(files: Files, fileNo: nat, offset: nat, bytes: seq<byte>) {
    fileNo in files && offset + |bytes| <= |files[fileNo]| && files[fileNo][offset..offset + |bytes|] == bytes
  }

  /** One value appended to file n. Its packed position names it exactly when the length survives the
      packing, and the file number does too or the file it turns into has the same bytes there. */
  lemma Appended(files: Files, n: nat, bytes: seq<byte>)
    requires n in files && |files[n]| + |bytes| <= MAX_FILE_SIZE && |bytes| <= MAX_DATA_SIZE
    ensures var files' := files[n := files[n] + bytes];
            && Extends(files, files') && HasBytes(files', n, |files[n]|, bytes)
            && (Holds(files', Packed(n, |bytes|, |files[n]|), bytes) <==>
                  |bytes| < MAX_DATA_SIZE && (n < 32 || HasBytes(files', n % 32, |files[n]|, bytes)))
  {
    var f := files[n] + bytes;
    FaithfulIff(n, |bytes|, |files[n]|);
    assert f[|files[n]|..] == bytes && f[..|files[n]|] == files[n];
  }

  /** The failing value: 2^27 bytes pass the size check and are kept as 0 bytes. */
  lemma FullLengthIsLost(files: Files, fileNo: nat, offset: nat)
    ensures var bytes: seq<byte> := seq(MAX_DATA_SIZE, _ => 7);
            Packed(fileNo, |bytes|, offset).dataLen == 0 && !Holds(files, Packed(fileNo, |bytes|, offset), bytes)
  {
  }

  /** What the length field keeps of a value in the first 32 files: all of it, or nothing of the longest. */
  function Kept(bytes: seq<byte>): seq<byte> {
    if |bytes| < MAX_DATA_SIZE then bytes else []
  }

  lemma KeptIsHeld(files: Files, n: nat, bytes: seq<byte>, offset: nat)
    requires n < 32 && HasBytes(files, n, offset, bytes) && offset <= MAX_FILE_SIZE && |bytes| <= MAX_DATA_SIZE
    ensures Holds(files, Packed(n, |bytes|, offset), Kept(bytes))
  {
  }

  class DiskV {
    var files: Files
    var maxFileNo: nat
    var last: nat
    /** An append descriptor is open. */
    var appending: bool

    ghost predicate Valid()
      reads this
    {
      && (appending <==> maxFileNo > 0)
      && (forall k :: k in files <==> 0 <= k < maxFileNo)
      && (forall k :: k in files ==> |files[k]| <= MAX_FILE_SIZE)
      && last == if maxFileNo > 0 then |files[maxFileNo - 1]| else 0
    }

    constructor ()
      ensures Valid() && maxFileNo == 1 && last == 0
    {
      files, maxFileNo, last, appending := map[0 := []], 1, 0, true;
    }

    /** Reopening a directory: the highest file number decides how many files there are, and the size of
        that file where the next value goes. */
    constructor Open(found: Files)
      requires forall k :: k in found ==> |found[k]| <= MAX_FILE_SIZE && forall j :: 0 <= j <= k ==> j in found
      ensures Valid() && files == if found == map[] then map[0 := []] else found
    {
      var detected := FB.DetectFile(found);
      var max := if detected <= 0 then 1 else detected + 1;
      files := if max - 1 in found then found else found[max - 1 := []];
      maxFileNo, last, appending := max, if max - 1 in found then |found[max - 1]| else 0, true;
    }

    /** A value never straddles two files. */
    method CheckNewFile(length: nat)
      requires Valid() && length <= MAX_DATA_SIZE
      modifies this
      ensures Valid() && appending && maxFileNo > 0 && Extends(old(files), files) && last + length <= MAX_FILE_SIZE
      ensures maxFileNo == if old(maxFileNo) == 0 || old(last) + length > MAX_FILE_SIZE then old(maxFileNo) + 1 else old(maxFileNo)
      ensures maxFileNo == old(maxFileNo) ==> last == old(last)
    {
      if length + last > MAX_FILE_SIZE || !appending {
        files := files[maxFileNo := []];
        maxFileNo, last, appending := maxFileNo + 1, 0, true;
      }
    }

    method Append(bytes: seq<byte>) returns (i: Idx)
      requires Valid() && appending && |bytes| <= MAX_DATA_SIZE && last + |bytes| <= MAX_FILE_SIZE
      modifies `files, `last
      ensures Valid() && last == old(last) + |bytes|
      ensures forall f :: Extends(f, old(files)) ==> Extends(f, files)
      ensures i == Packed(maxFileNo - 1, |bytes|, old(last)) && i.offset <= MAX_FILE_SIZE
      ensures Holds(files, i, bytes) <==>
                |bytes| < MAX_DATA_SIZE && (maxFileNo <= 32 || HasBytes(files, (maxFileNo - 1) % 32, old(last), bytes))
      ensures maxFileNo <= 32 ==> Holds(files, i, Kept(bytes))
    {
      hide Packed, Holds, Extends, HasBytes;
      ghost var before := files;
      Appended(files, maxFileNo - 1, bytes);
      i := Packed(maxFileNo - 1, |bytes|, last);
      PackedOffset(maxFileNo - 1, |bytes|, last);
      files := files[maxFileNo - 1 := files[maxFileNo - 1] + bytes];
      if maxFileNo <= 32 {
        KeptIsHeld(files, maxFileNo - 1, bytes, last);
      }
      last := last + |bytes|;
      forall f | Extends(f, before) ensures Extends(f, files) {
        ExtendsTrans(f, before, files);
      }
    }

    /** Appends a value. Everything stored before stays; the new value can be read back exactly when
        its position survives packing. */
    method Set(bytes: seq<byte>) returns (r: int, i: Idx)
      requires Valid()
      modifies this
      ensures Valid() && Extends(old(files), files)
      ensures r == if |bytes| > MAX_DATA_SIZE then -1 else 0
      ensures r == -1 ==> files == old(files) && maxFileNo == old(maxFileNo)
      ensures r == 0 ==> maxFileNo > 0 && last >= |bytes| && i == Packed(maxFileNo - 1, |bytes|, last - |bytes|)
      ensures i.offset <= MAX_FILE_SIZE
      ensures r == 0 ==> old(maxFileNo) <= maxFileNo <= old(maxFileNo) + 1
      ensures r == 0 ==>
                (Holds(files, i, bytes) <==>
                  |bytes| < MAX_DATA_SIZE && (maxFileNo <= 32 || HasBytes(files, (maxFileNo - 1) % 32, last - |bytes|, bytes)))
      ensures r == 0 && maxFileNo <= 32 ==> Holds(files, i, Kept(bytes))
    {
      hide Packed, Holds, Extends, Valid, HasBytes;
      i := Idx(0, 0, 0);
      ExtendsRefl(files);
      if |bytes| > MAX_DATA_SIZE {
        return -1, i;
      }
      CheckNewFile(|bytes|);
      i := Append(bytes);
      r := 0;
    }

    /** Reads the value at a position. A buffer shorter than the value is refused, not filled. */
    method Get(i: Idx, length: nat) returns (r: int, out: seq<byte>)
      requires Valid()
      ensures forall bytes :: Holds(files, i, bytes) && i.offset <= MAX_FILE_SIZE ==>
        if |bytes| <= length then r == |bytes| && out == bytes else r == -1 && out == []
      ensures r == -1 || r == |out| <= Min(i.dataLen, length)
      ensures i.fileNo >= maxFileNo || i.dataLen > length ==> r == -1
    {
      if i.fileNo >= maxFileNo || i.offset > MAX_FILE_SIZE || i.dataLen > length
         || (i.fileNo == maxFileNo - 1 && i.offset + i.dataLen > last) {
        return -1, [];
      }
      var f := files[i.fileNo];
      out := if i.offset >= |f| then [] else f[i.offset..Min(i.offset + i.dataLen, |f|)];
      r := |out|;
    }

    /** Removes every file; the next value opens file 0 again. */
    method Clear()
      requires Valid()
      modifies this
      ensures Valid() && files == map[] && maxFileNo == 0
    {
      appending := false;
      for k := 0 to maxFileNo
        invariant maxFileNo == old(maxFileNo) && !appending && forall j :: j in files <==> k <= j < maxFileNo
      {
        files := files - {k};
      }
      maxFileNo, last := 0, 0;
    }
  }
}
