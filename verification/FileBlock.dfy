/** `fileblock`: an array of equal cells spread over numbered files of `perFile` cells each, kept as
    one flat sequence. Offsets, counts and results are in cells; -1 is the error return. */
module FileBlock {
  import opened Prelude

  const MAX_FILE_NO: nat := 1024
  const MAX_FILE_SIZE: nat := 2097152000

  type Disk<T> = map<nat, seq<T>>

  /** The content of a numbered file; opening a missing file creates it empty. */
  function FileAt<T>(disk: Disk<T>, i: nat): seq<T> {
    if i in disk then disk[i] else []
  }

  /** The i-th stretch of n cells of s. */
  function Part<T>(s: seq<T>, i: nat, n: nat): seq<T> {
    MulMono(i, i + 1, n);
    s[Min(i * n, |s|)..Min((i + 1) * n, |s|)]
  }

  /** Every file holds its stretch of the flat sequence, and no file lies behind the data. */
  ghost predicate Layout<T>(disk: Disk<T>, cells: seq<T>, n: nat) {
    n > 0 && forall i: nat :: FileAt(disk, i) == Part(cells, i, n)
  }

  /** What a range read must put into its buffer: the cells there are, zeros for the rest. */
  function Window<T>(cells: seq<T>, offset: nat, count: nat, zero: T): (r: seq<T>)
    ensures |r| == count
  {
    seq(count, i requires 0 <= i < count => if offset + i < |cells| then cells[offset + i] else zero)
  }

  /** How many of `count` cells from `offset` exist. */
  function Available(total: nat, offset: nat, count: nat): nat {
    if offset >= total then 0 else Min(count, total - offset)
  }

  /** The stretch an offset lies in, and where. */
  lemma InPart<T>(s: seq<T>, o: nat, n: nat)
    requires n > 0 && o < |s|
    ensures o % n < |Part(s, o / n, n)| && Part(s, o / n, n)[o % n] == s[o]
  {
    assert o == (o / n) * n + o % n;
  }

  lemma PartLength<T>(s: seq<T>, i: nat, n: nat)
    requires n > 0
    ensures |Part(s, i, n)| == if |s| <= i * n then 0 else Min(n, |s| - i * n)
  {
  }

  lemma OtherPart(i: nat, o: nat, n: nat)
    requires n > 0 && i != o / n
    ensures (i + 1) * n <= o || o < i * n
  {
    if i < o / n {
      MulMono(i + 1, o / n, n);
    } else {
      MulMono(o / n + 1, i, n);
    }
  }

  lemma PartPush<T>(s: seq<T>, x: T, i: nat, n: nat)
    requires n > 0
    ensures Part(s + [x], i, n) == if i == |s| / n then Part(s, i, n) + [x] else Part(s, i, n)
    ensures i == |s| / n ==> |Part(s, i, n)| == |s| % n
  {
    if i == |s| / n {
      assert |s| == i * n + |s| % n;
    } else {
      OtherPart(i, |s|, n);
    }
  }

  lemma PartUpdate<T>(s: seq<T>, o: nat, x: T, i: nat, n: nat)
    requires n > 0 && o < |s|
    ensures o % n < |Part(s, o / n, n)|
    ensures Part(s[o := x], i, n) == if i == o / n then Part(s, i, n)[o % n := x] else Part(s, i, n)
  {
    InPart(s, o, n);
    assert o == (o / n) * n + o % n;
    if i != o / n {
      OtherPart(i, o, n);
    }
  }

  /** A dense write keeps the layout. */
  lemma LayoutSet<T>(disk: Disk<T>, cells: seq<T>, n: nat, o: nat, x: T)
    requires Layout(disk, cells, n) && o <= |cells|
    ensures o % n <= |FileAt(disk, o / n)|
    ensures Layout(disk[o / n := Written(FileAt(disk, o / n), o % n, x)], Written(cells, o, x), n)
  {
    var disk' := disk[o / n := if o % n <= |FileAt(disk, o / n)| then Written(FileAt(disk, o / n), o % n, x) else []];
    if o < |cells| {
      InPart(cells, o, n);
    } else {
      PartPush(cells, x, o / n, n);
    }
    forall i: nat ensures FileAt(disk', i) == Part(Written(cells, o, x), i, n) {
      if o < |cells| {
        PartUpdate(cells, o, x, i, n);
      } else {
        PartPush(cells, x, i, n);
      }
    }
  }

  /** pwrite of one cell at or before the end. */
  function Written<T>(s: seq<T>, o: nat, x: T): (r: seq<T>)
    requires o <= |s|
    ensures |r| == if o < |s| then |s| else |s| + 1
  {
    if o < |s| then s[o := x] else s + [x]
  }

  /** pwrite of one cell anywhere: a hole reads as zero. */
  function PWritten<T>(s: seq<T>, o: nat, x: T, zero: T): (r: seq<T>)
    ensures |r| == if o < |s| then |s| else o + 1
  {
    if o <= |s| then Written(s, o, x) else s + seq(o - |s|, _ => zero) + [x]
  }

  /** detect_file: the highest file number, or -1. */
  method DetectFile<T>(files: Disk<T>) returns (max: int)
    ensures max == -1 <==> files == map[]
    ensures max != -1 ==> max in files && forall k :: k in files ==> k <= max
  {
    max := -1;
    var rest := files.Keys;
    while rest != {}
      invariant rest <= files.Keys && (max == -1 || max in files)
      invariant forall k :: k in files && k !in rest ==> k <= max
    {
      var n :| n in rest;
      if n > max {
        max := n;
      }
      rest := rest - {n};
    }
  }

  /** The last file's size completes the number of cells. */
  lemma LastSize<T>(files: Disk<T>, content: seq<T>, n: nat, max: nat)
    requires Layout(files, content, n) && max > 0 && (max - 1) * n <= |content|
    requires forall k :: k in files ==> k < max
    ensures |FileAt(files, max - 1)| <= n && |content| == (max - 1) * n + |FileAt(files, max - 1)|
  {
    PartLength(content, max - 1, n);
    PartLength(content, max, n);
    assert FileAt(files, max) == [];
  }

  lemma DivisionPositive(size: nat, cellSize: nat)
    requires 0 < cellSize <= size
    ensures size / cellSize > 0
  {
    CellArithmetic(cellSize, size, 1);
  }

  /** A dense write lands before the end, at the end of the last file, or starts the next file. */
  lemma WriteLands(total: nat, max: nat, last: nat, n: nat, o: nat)
    requires n > 0 && max > 0 && last <= n && total == (max - 1) * n + last && o <= total
    ensures o / n <= max
    ensures o / n == max ==> o == total && last == n && o % n == 0
    ensures o / n < max ==> (o == total <==> o / n == max - 1 && o % n == last)
    ensures max * n == (max - 1) * n + n
  {
    var q := o / n;
    assert o == q * n + o % n;
    if q < max - 1 {
      MulMono(q + 1, max - 1, n);
    } else if q >= max {
      MulMono(max, q, n);
      if q > max {
        MulMono(max + 1, q, n);
      }
    }
  }

  /** A read within one file finds the cells of the flat sequence. */
  lemma ReadLands<T>(s: seq<T>, o: nat, count: nat, n: nat)
    requires n > 0 && o % n + count <= n
    ensures Found(Part(s, o / n, n), o % n, count) == Found(s, o, count)
  {
    var q := o / n;
    assert o == q * n + o % n;
    PartLength(s, q, n);
    var f := Part(s, q, n);
    assert |Found(f, o % n, count)| == |Found(s, o, count)|;
    assert forall k :: 0 <= k < |f| ==> f[k] == s[q * n + k];
  }

  /** What pread returns: at most `count` cells from o on. */
  function Found<T>(s: seq<T>, o: nat, count: nat): (r: seq<T>)
    ensures |r| == Available(|s|, o, count)
  {
    if o >= |s| then [] else s[o..o + Available(|s|, o, count)]
  }

  /** Over a zeroed range, the cells found are the whole window. */
  lemma FoundIsWindow<T>(before: seq<T>, after: seq<T>, start: nat, s: seq<T>, o: nat, count: nat, zero: T)
    requires start + count <= |before| && Filled(before, after, start, Found(s, o, count))
    requires forall i :: start <= i < start + count ==> before[i] == zero
    ensures Filled(before, after, start, Window(s, o, count, zero))
  {
  }

  ghost predicate AllZero<T>(s: seq<T>, zero: T) {
    forall i :: 0 <= i < |s| ==> s[i] == zero
  }

  /** A range that leaves its file is two ranges, the second at the start of the next file. */
  lemma Crossing<T>(s: seq<T>, o: nat, count: nat, n: nat, max: nat, last: nat, zero: T)
    requires n > 0 && o / n < max && last <= n && |s| == (max - 1) * n + last && o % n + count > n
    ensures var count1, o2 := n - o % n, (o / n + 1) * n;
            && count1 < count && o2 == o + count1 && o2 / n == o / n + 1
            && Window(s, o, count, zero) == Window(s, o, count1, zero) + Window(s, o2, count - count1, zero)
            && Available(|s|, o, count) == Available(|s|, o, count1) + Available(|s|, o2, count - count1)
            && (o / n + 1 >= max ==> AllZero(Window(s, o2, count - count1, zero), zero) && Available(|s|, o2, count - count1) == 0)
  {
    var q := o / n;
    assert o == q * n + o % n;
    DivisionOf((q + 1) * n, n, q + 1, 0);
    if q + 1 >= max {
      MulMono(max, q + 1, n);
    }
  }

  /** The buffer changed to `out` from `start` on, and nowhere else. */
  ghost predicate Filled<T>(before: seq<T>, after: seq<T>, start: nat, out: seq<T>) {
    && |after| == |before| && start + |out| <= |before|
    && forall i :: 0 <= i < |after| ==> after[i] == if start <= i < start + |out| then out[i - start] else before[i]
  }

  lemma FilledTwice<T>(a: seq<T>, b: seq<T>, c: seq<T>, d: seq<T>, start: nat, zeros: seq<T>, w1: seq<T>, w2: seq<T>)
    requires Filled(a, b, start, zeros) && Filled(b, c, start, w1) && Filled(c, d, start + |w1|, w2)
    requires |zeros| == |w1| + |w2|
    ensures Filled(a, d, start, w1 + w2)
  {
  }

  lemma FilledOnce<T>(a: seq<T>, b: seq<T>, c: seq<T>, start: nat, zeros: seq<T>, w1: seq<T>, w2: seq<T>, zero: T)
    requires Filled(a, b, start, zeros) && Filled(b, c, start, w1)
    requires |zeros| == |w1| + |w2| && AllZero(zeros, zero) && AllZero(w2, zero)
    ensures Filled(a, c, start, w1 + w2)
  {
  }

  lemma FilledOver<T>(a: seq<T>, b: seq<T>, c: seq<T>, start: nat, zeros: seq<T>, w: seq<T>)
    requires Filled(a, b, start, zeros) && Filled(b, c, start, w) && |zeros| == |w|
    ensures Filled(a, c, start, w)
  {
  }

  /** The files hold the flat array, and their bookkeeping its length. */
  ghost predicate Books<T>(disk: Disk<T>, cells: seq<T>, open: set<nat>, max: nat, last: nat, n: nat) {
    && Layout(disk, cells, n) && disk.Keys <= open
    && (forall i :: i in open ==> i < max)
    && 0 < max <= MAX_FILE_NO && last <= n && |cells| == (max - 1) * n + last
  }

  /** A dense write keeps the books: a new file is counted when it is the next one, and the size of the last
      file grows when the write is at its end. */
  lemma DenseSet<T>(disk: Disk<T>, cells: seq<T>, open: set<nat>, max: nat, last: nat, n: nat, o: nat, x: T, zero: T,
                    fileNo: nat, inoffset: nat, max': nat, last': nat)
    requires n > 0 && fileNo == o / n < MAX_FILE_NO && inoffset == o % n && o <= |cells|
    requires max' == if fileNo !in open && fileNo == max then max + 1 else max
    requires var size := if fileNo !in open && fileNo == max then |FileAt(disk, fileNo)| else last;
             last' == if fileNo == max' - 1 && inoffset == size then size + 1 else size
    requires Books(disk, cells, open, max, last, n)
    ensures Books(disk[fileNo := PWritten(FileAt(disk, fileNo), inoffset, x, zero)], Written(cells, o, x), open + {fileNo}, max', last', n)
  {
    LayoutSet(disk, cells, n, o, x);
    WriteLands(|cells|, max, last, n, o);
    PartLength(cells, max, n);
    hide Layout, Part;
  }

  class FileBlock<T(0)> {
    const perFile: nat
    const zero: T
    var disk: Disk<T>
    var open: set<nat>
    var maxFileNo: nat
    /** m_last_file_offset, in cells. */
    var last: nat
    var it: nat
    /** The flat array the files stand for. */
    ghost var cells: seq<T>

    ghost predicate Valid()
      reads this
    {
      Books(disk, cells, open, maxFileNo, last, perFile)
    }

    /** An empty directory: one file, created empty. */
    constructor (cellSize: nat, zero: T)
      requires 0 < cellSize <= MAX_FILE_SIZE
      ensures Valid() && cells == [] && it == 0 && perFile == MAX_FILE_SIZE / cellSize
    {
      DivisionPositive(MAX_FILE_SIZE, cellSize);
      perFile, this.zero := MAX_FILE_SIZE / cellSize, zero;
      disk, open, maxFileNo, last, it, cells := map[0 := []], {0}, 1, 0, 0, [];
    }

    /** Reopening a directory: the highest file number decides how many files there are, the size of
        that file where the data ends. */
    constructor Open(cellSize: nat, zero: T, files: Disk<T>, ghost content: seq<T>)
      requires 0 < cellSize <= MAX_FILE_SIZE && Layout(files, content, MAX_FILE_SIZE / cellSize)
      requires forall k :: k in files ==> k < MAX_FILE_NO && k * (MAX_FILE_SIZE / cellSize) <= |content|
      ensures Valid() && cells == content && it == 0 && perFile == MAX_FILE_SIZE / cellSize
    {
      perFile, this.zero := MAX_FILE_SIZE / cellSize, zero;
      var detected := DetectFile(files);
      var max := if detected <= 0 then 1 else detected + 1;
      var contents := map k | 0 <= k < max :: FileAt(files, k);
      disk, open := contents, contents.Keys;
      maxFileNo, last := max, |FileAt(files, max - 1)|;
      it, cells := 0, content;
      LastSize(files, content, MAX_FILE_SIZE / cellSize, max);
      new;
      assert forall i :: FileAt(disk, i) == FileAt(files, i);
    }

    /** One cell, anywhere. A dense write changes or extends the flat array; a write further out reaches its
        file, but in a file behind the next one it is not counted, and so never read. Writes beyond the table
        of descriptors are refused; the refusal starts one file too late, so the file number MAX_FILE_NO
        itself is outside what callers may ask for. */
    method Set(offset: nat, x: T) returns (r: int)
      requires Valid() && offset / perFile != MAX_FILE_NO
      modifies this
      ensures it == old(it)
      ensures r == if offset / perFile > MAX_FILE_NO then -1 else 0
      ensures r == -1 ==> Valid() && cells == old(cells) && disk == old(disk)
      ensures r == 0 ==>
                disk == old(disk)[offset / perFile := PWritten(FileAt(old(disk), offset / perFile), offset % perFile, x, zero)]
      ensures r == 0 && offset <= |old(cells)| ==> Valid() && cells == Written(old(cells), offset, x)
      ensures r == 0 && offset / perFile > old(maxFileNo) ==> maxFileNo == old(maxFileNo) && last == old(last)
    {
      var fileNo, inoffset := offset / perFile, offset % perFile;
      if fileNo > MAX_FILE_NO {
        return -1;
      }
      Positive();
      hide Books, PWritten, Written, FileAt;
      ghost var d, o, m, l := disk, open, maxFileNo, last;
      if fileNo !in open {
        open := open + {fileNo};
        if fileNo == maxFileNo {
          maxFileNo, last := maxFileNo + 1, |FileAt(disk, fileNo)|;
        }
      }
      if fileNo == maxFileNo - 1 && inoffset == last {
        last := last + 1;
      }
      disk := disk[fileNo := PWritten(FileAt(disk, fileNo), inoffset, x, zero)];
      if offset <= |cells| {
        DenseSet(d, cells, o, m, l, perFile, offset, x, zero, fileNo, inoffset, maxFileNo, last);
        assert o + {fileNo} == open;
        cells := Written(cells, offset, x);
      }
      r := 0;
    }

    /** One cell: -1 past the last file, 0 past the last cell, 1 with the cell. Opens, and so may
        create, the file it looks into. */
    method Get(offset: nat) returns (r: int, x: T)
      requires Valid()
      modifies `disk, `open
      ensures Valid()
      ensures r == if offset / perFile >= maxFileNo then -1 else Available(|cells|, offset, 1)
      ensures r == 1 ==> x == cells[offset]
    {
      var fileNo, inoffset := offset / perFile, offset % perFile;
      x := zero;
      if fileNo >= maxFileNo {
        return -1, x;
      }
      OpenFile(fileNo);
      ReadLands(cells, offset, 1, perFile);
      var f := disk[fileNo];
      if inoffset < |f| {
        x := f[inoffset];
        return 1, x;
      }
      r := 0;
    }

    method OpenFile(fileNo: nat)
      requires Valid() && fileNo < maxFileNo
      modifies `disk, `open
      ensures Valid() && fileNo in disk && disk[fileNo] == Part(cells, fileNo, perFile)
    {
      if fileNo !in open {
        open := open + {fileNo};
        if fileNo !in disk {
          disk := disk[fileNo := []];
        }
      }
      if fileNo !in disk {
        disk := disk[fileNo := []];
      }
    }

    lemma Positive()
      requires Valid()
      ensures perFile > 0 && maxFileNo > 0
    {
    }

    lemma Cross(offset: nat, count: nat)
      requires Valid() && perFile > 0 && offset / perFile < maxFileNo && offset % perFile + count > perFile
      ensures var count1, o2 := perFile - offset % perFile, (offset / perFile + 1) * perFile;
              && 0 < count1 < count && offset % perFile + count1 <= perFile && o2 / perFile == offset / perFile + 1
              && Window(cells, offset, count, zero) == Window(cells, offset, count1, zero) + Window(cells, o2, count - count1, zero)
              && Available(|cells|, offset, count) == Available(|cells|, offset, count1) + Available(|cells|, o2, count - count1)
              && (offset / perFile + 1 >= maxFileNo ==> AllZero(Window(cells, o2, count - count1, zero), zero) && Available(|cells|, o2, count - count1) == 0)
    {
      Crossing(cells, offset, count, perFile, maxFileNo, last, zero);
    }

    /** The memset. */
    method Clean(buf: array<T>, start: nat, count: nat)
      requires start + count <= buf.Length
      modifies buf
      ensures Filled(old(buf[..]), buf[..], start, seq(count, _ => zero)) && AllZero(seq(count, _ => zero), zero)
    {
      for i := 0 to count
        invariant Filled(old(buf[..]), buf[..], start, seq(i, _ => zero))
      {
        buf[start + i] := zero;
      }
    }

    /** The read of a range that stays in its file, into a zeroed buffer. */
    method ReadWithin(offset: nat, count: nat, buf: array<T>, start: nat) returns (r: nat)
      requires Valid() && perFile > 0 && offset / perFile < maxFileNo && offset % perFile + count <= perFile
      requires start + count <= buf.Length && forall i :: start <= i < start + count ==> buf[i] == zero
      modifies `disk, `open, buf
      ensures Valid() && r == Available(|cells|, offset, count)
      ensures Filled(old(buf[..]), buf[..], start, Window(cells, offset, count, zero))
    {
      hide Valid, Layout, Part, Found, Window;
      OpenFile(offset / perFile);
      ReadLands(cells, offset, count, perFile);
      var chunk := Found(disk[offset / perFile], offset % perFile, count);
      r := |chunk|;
      ghost var was := buf[..];
      for i := 0 to r
        invariant Valid() && Filled(was, buf[..], start, chunk[..i])
      {
        buf[start + i] := chunk[i];
      }
      assert chunk[..r] == chunk;
      FoundIsWindow(was, buf[..], start, cells, offset, count, zero);
    }

    /** `count` cells into a buffer from position `start`; a range that leaves its file is read in two
        calls. The cells that exist arrive, the rest of the range is zeroed. */
    method GetRange(offset: nat, count: nat, buf: array<T>, start: nat) returns (r: int)
      requires Valid() && start <= buf.Length
      modifies `disk, `open, buf
      ensures Valid()
      ensures r == -1 <==> buf.Length - start < count || offset / perFile >= maxFileNo
      ensures r == -1 ==> buf[..] == old(buf[..])
      ensures r != -1 ==> r == Available(|cells|, offset, count)
      ensures r != -1 ==> Filled(old(buf[..]), buf[..], start, Window(cells, offset, count, zero))
      decreases count
    {
      hide Valid, Layout, Part, Window, Available, Filled, AllZero, FileAt;
      Positive();
      var fileNo, inoffset := offset / perFile, offset % perFile;
      if buf.Length - start < count || fileNo >= maxFileNo {
        return -1;
      }
      ghost var zeros := seq(count, _ => zero);
      Clean(buf, start, count);
      ghost var cleaned := buf[..];
      if inoffset + count > perFile {
        var count1 := perFile - inoffset;
        Cross(offset, count);
        ghost var w1, w2 := Window(cells, offset, count1, zero), Window(cells, (fileNo + 1) * perFile, count - count1, zero);
        r := GetRange(offset, count1, buf, start);
        ghost var halfway := buf[..];
        if fileNo + 1 < maxFileNo {
          var r2 := GetRange((fileNo + 1) * perFile, count - count1, buf, start + count1);
          r := if r2 < 0 then r else r + r2;
          FilledTwice(old(buf[..]), cleaned, halfway, buf[..], start, zeros, w1, w2);
        } else {
          FilledOnce(old(buf[..]), cleaned, halfway, start, zeros, w1, w2, zero);
        }
      } else {
        r := ReadWithin(offset, count, buf, start);
        FilledOver(old(buf[..]), cleaned, buf[..], start, zeros, Window(cells, offset, count, zero));
      }
    }

    /** The number of cells, from the number of files and the size of the last one. */
    method GetCellCount() returns (n: nat)
      requires Valid()
      ensures n == |cells|
    {
      n := (maxFileNo - 1) * perFile + last;
    }

    method Begin()
      modifies `it
      ensures it == 0
    {
      it := 0;
    }

    method Next()
      modifies `it
      ensures it == old(it) + 1
    {
      it := it + 1;
    }

    /** Writing through the iterator; from the beginning on it is a dense write each time. */
    method SetAndNext(x: T) returns (r: int)
      requires Valid() && it / perFile != MAX_FILE_NO
      modifies this
      ensures it == old(it) + 1 && r == if old(it) / perFile > MAX_FILE_NO then -1 else 0
      ensures r == -1 ==> Valid() && cells == old(cells) && disk == old(disk)
      ensures r == 0 ==>
                disk == old(disk)[old(it) / perFile := PWritten(FileAt(old(disk), old(it) / perFile), old(it) % perFile, x, zero)]
      ensures r == 0 && old(it) <= |old(cells)| ==> Valid() && cells == Written(old(cells), old(it), x)
    {
      r := Set(it, x);
      it := it + 1;
    }

    method ItGet() returns (r: int, x: T)
      requires Valid()
      modifies `disk, `open
      ensures Valid() && (r == 1 <==> it < |cells|) && (r == 1 ==> x == cells[it])
    {
      InLastFile(it);
      r, x := Get(it);
    }

    /** A cell that exists lies in a file that exists. */
    lemma InLastFile(offset: nat)
      requires Valid()
      ensures perFile > 0 && (offset < |cells| ==> offset / perFile < maxFileNo)
    {
      if offset < |cells| {
        WriteLands(|cells|, maxFileNo, last, perFile, offset);
      }
    }

    /** The end test agrees with the number of cells, a full last file included. */
    method IsEnd() returns (end: bool)
      requires Valid()
      ensures end <==> it == |cells|
    {
      end := it == (maxFileNo - 1) * perFile + last;
    }

    /** Unlinks every open file; no file is left over, because every file there is was opened. */
    method Clear()
      requires Valid()
      modifies this
      ensures Valid() && cells == [] && it == 0
    {
      for i := 0 to MAX_FILE_NO
        invariant disk.Keys <= open && forall k :: k in open ==> i <= k < MAX_FILE_NO
      {
        if i in open {
          disk, open := disk - {i}, open - {i};
        }
      }
      it, maxFileNo, last := 0, 1, 0;
      cells := [];
    }
  }
}
