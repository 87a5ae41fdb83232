/** `disk_indexer`: a sorted map from signatures to stored lists, written once in ascending order and
    then looked up through the sampled second index, a block cache and a binary search. */
module DiskIndexer {
  import opened Prelude
  import opened CreatSign
  import opened DiskLookup
  import DV = DiskV
  import FB = FileBlock

  /** sizeof(fb_index_t): an 8-byte key and an 8-byte position. */
  const ENTRY_SIZE: nat := 16
  const UINT32: nat := 0x1_0000_0000

  /** One stored list, and the diskv file it went to. */
  datatype Row = Row(key: nat, bytes: seq<byte>, fileNo: nat)
  {
    /** The file can be named by a packed position. */
    predicate Addressable() {
      fileNo < 32
    }

    /** What a packed position names of the list. */
    function Kept(): seq<byte> {
      DV.Kept(bytes)
    }
  }

  datatype SetResult = OK | READ_ONLY | THROWN

  predicate RowOk(e: Entry, row: Row, files: DV.Files) {
    && e.key == row.key && e.idx.offset <= DV.MAX_FILE_SIZE
    && (row.Addressable() ==> DV.Holds(files, e.idx, row.Kept()))
  }

  function LastSample(cells: seq<Entry>): Sample {
    if cells == [] then Sample(0, 0) else Sample(|cells| - 1, cells[|cells| - 1].key)
  }

  /** The entries, the stored values and the samples describe the same sorted rows. */
  predicate Index(cells: seq<Entry>, rows: seq<Row>, files: DV.Files, second: seq<Sample>, lastSi: Sample, finished: bool) {
    && |cells| == |rows| && (forall i :: 0 <= i < |cells| ==> RowOk(cells[i], rows[i], files))
    && Ascending(KeysOf(cells)) && Signs(KeysOf(cells)) && lastSi == LastSample(cells)
    && if finished then Sampled(second, KeysOf(cells)) else Sampling(second, KeysOf(cells))
  }

  /** Cached blocks are what a read would bring. */
  predicate CacheOk(cache: map<nat, seq<Entry>>, cells: seq<Entry>) {
    forall b :: b in cache ==> cache[b] == FB.Found(cells, b, TERM_MILESTONE)
  }

  /** What a read of this row into a buffer of `length` bytes must return: all that is kept of it, or a
      refusal. Of a list shorter than 2^27 bytes everything is kept. */
  predicate Delivered(row: Row, length: nat, cell: nat, r: int, out: seq<byte>)
    requires cell > 0
  {
    if |row.Kept()| <= length then r == |row.Kept()| / cell && out == row.Kept() else r == -1
  }

  /** One more row at the end. */
  lemma IndexPush(cells: seq<Entry>, rows: seq<Row>, files: DV.Files, second: seq<Sample>, lastSi: Sample,
                  e: Entry, row: Row, files': DV.Files)
    requires Index(cells, rows, files, second, lastSi, false) && DV.Extends(files, files') && RowOk(e, row, files')
    requires e.key < KEY_LIMIT && (cells != [] ==> cells[|cells| - 1].key < e.key)
    ensures Index(cells + [e], rows + [row], files',
                  if |cells| % TERM_MILESTONE == 0 then second + [Sample(|cells|, e.key)] else second, Sample(|cells|, e.key), false)
  {
    SamplingPush(second, KeysOf(cells), e.key);
    hide Sampling, DV.Holds, DV.Extends;
    forall i | 0 <= i < |cells| && rows[i].Addressable() ensures DV.Holds(files', cells[i].idx, rows[i].Kept()) {
      assert RowOk(cells[i], rows[i], files);
      DV.HoldsKept(files, files', cells[i].idx, rows[i].Kept());
    }
    assert KeysOf(cells + [e]) == KeysOf(cells) + [e.key];
  }

  /** More bytes in the value files change nothing. */
  lemma IndexKept(cells: seq<Entry>, rows: seq<Row>, files: DV.Files, second: seq<Sample>, lastSi: Sample, files': DV.Files)
    requires Index(cells, rows, files, second, lastSi, true) && (files' == files || files == map[])
    ensures Index(cells, rows, files', second, lastSi, true)
  {
    hide Sampled, Ascending, Signs, DV.Holds;
    forall i | 0 <= i < |cells| ensures RowOk(cells[i], rows[i], files') {
      assert RowOk(cells[i], rows[i], files);
      if files == map[] && rows[i].Addressable() {
        NothingHeld(cells[i].idx, rows[i].Kept());
      }
    }
  }

  lemma NothingHeld(i: DV.Idx, bytes: seq<byte>)
    ensures !DV.Holds(map[], i, bytes)
  {
  }

  lemma IndexFinish(cells: seq<Entry>, rows: seq<Row>, files: DV.Files, second: seq<Sample>, lastSi: Sample)
    requires Index(cells, rows, files, second, lastSi, false)
    ensures rows == [] ==> second == [] && lastSi.milestone % TERM_MILESTONE == 0
    ensures rows != [] ==>
      Index(cells, rows, files, if lastSi.milestone % TERM_MILESTONE != 0 then second + [lastSi] else second, lastSi, true)
  {
    if rows != [] {
      SamplingFinish(second, KeysOf(cells));
    }
  }

  /** One list more, stored in the last diskv file. */
  ghost predicate Appended(rows: seq<Row>, rows': seq<Row>, key: nat, bytes: seq<byte>, files: nat) {
    files > 0 && rows' == rows + [Row(key, bytes, files - 1)]
  }

  /** A 32-bit id never comes near the last file. */
  lemma SmallFileNo(id: nat)
    requires id < UINT32
    ensures id / (FB.MAX_FILE_SIZE / ENTRY_SIZE) < FB.MAX_FILE_NO
  {
  }

  lemma NewRowOk(e: Entry, row: Row, files: DV.Files)
    requires e.key == row.key && e.idx.offset <= DV.MAX_FILE_SIZE
    requires row.fileNo < 32 ==> DV.Holds(files, e.idx, DV.Kept(row.bytes))
    ensures RowOk(e, row, files)
  {
  }

  lemma OutOfOrder(cells: seq<Entry>, e: Entry)
    requires cells != [] && cells[|cells| - 1].key >= e.key
    ensures !Ascending(KeysOf(cells + [e]))
  {
    var keys := KeysOf(cells + [e]);
    assert keys[|cells| - 1] >= keys[|cells|];
  }

  lemma EmptyCache(cells: seq<Entry>)
    ensures CacheOk(map[], cells)
  {
  }

  lemma CacheHit(cache: map<nat, seq<Entry>>, cells: seq<Entry>, block: nat)
    requires CacheOk(cache, cells) && block in cache
    ensures cache[block] == FB.Found(cells, block, TERM_MILESTONE)
  {
  }

  lemma CacheAdd(cache: map<nat, seq<Entry>>, cells: seq<Entry>, block: nat)
    requires CacheOk(cache, cells)
    ensures CacheOk(cache[block := FB.Found(cells, block, TERM_MILESTONE)], cells)
  {
  }

  /** The filled part of the read buffer. */
  lemma ReadIsFound(cells: seq<Entry>, block: nat, buf: seq<Entry>, zero: Entry)
    requires |buf| == TERM_MILESTONE && block < |cells|
    requires exists before :: FB.Filled(before, buf, 0, FB.Window(cells, block, TERM_MILESTONE, zero))
    ensures FB.Available(|cells|, block, TERM_MILESTONE) <= |buf|
    ensures buf[..FB.Available(|cells|, block, TERM_MILESTONE)] == FB.Found(cells, block, TERM_MILESTONE)
  {
  }

  lemma SampleFacts(cells: seq<Entry>, rows: seq<Row>, files: DV.Files, second: seq<Sample>, lastSi: Sample)
    requires Index(cells, rows, files, second, lastSi, true)
    ensures second != [] && |rows| == |cells| && Sampled(second, KeysOf(cells)) && Ascending(KeysOf(cells))
  {
    hide RowOk, Ascending, Signs;
  }

  /** Whatever the search finds is a row. */
  lemma WindowHit(cells: seq<Entry>, rows: seq<Row>, files: DV.Files, second: seq<Sample>, lastSi: Sample, block: nat, hit: nat)
    requires Index(cells, rows, files, second, lastSi, true) && hit < |FB.Found(cells, block, TERM_MILESTONE)|
    ensures block + hit < |rows| && rows[block + hit].key == FB.Found(cells, block, TERM_MILESTONE)[hit].key
  {
    hide Sampled, Ascending, Signs, DV.Holds;
    assert RowOk(cells[block + hit], rows[block + hit], files);
  }

  /** A key outside the sampled range is not in the index. */
  lemma OutOfRange(cells: seq<Entry>, rows: seq<Row>, files: DV.Files, second: seq<Sample>, lastSi: Sample, key: nat)
    requires Index(cells, rows, files, second, lastSi, true)
    requires key < second[0].key || key > second[|second| - 1].key
    ensures forall i :: 0 <= i < |rows| ==> rows[i].key != key
  {
    hide DV.Holds;
    var keys := KeysOf(cells);
    forall i | 0 <= i < |rows| ensures rows[i].key != key {
      assert RowOk(cells[i], rows[i], files);
      assert keys[0] <= keys[i] <= keys[|keys| - 1];
    }
  }

  lemma WindowSorted(cells: seq<Entry>, rows: seq<Row>, files: DV.Files, second: seq<Sample>, lastSi: Sample, block: nat)
    requires Index(cells, rows, files, second, lastSi, true) && block < |cells|
    ensures var entries := FB.Found(cells, block, TERM_MILESTONE); Ascending(KeysOf(entries)) && Signs(KeysOf(entries))
  {
    hide DV.Holds, Sampled;
    var entries := FB.Found(cells, block, TERM_MILESTONE);
    assert forall i :: 0 <= i < |entries| ==> KeysOf(entries)[i] == KeysOf(cells)[block + i];
  }

  /** The outcome of the search in the window decides for the whole index. */
  lemma WindowDecides(cells: seq<Entry>, rows: seq<Row>, files: DV.Files, second: seq<Sample>, lastSi: Sample,
                      key: nat, b: nat, entries: seq<Entry>, hit: int)
    requires Index(cells, rows, files, second, lastSi, true) && IsLowerBound(second, key, b) && second[0].key <= key
    requires entries == FB.Found(cells, WindowStart(second, key, b), TERM_MILESTONE)
    requires hit == -1 || 0 <= hit < |entries|
    requires if hit == -1 then forall i :: 0 <= i < |entries| ==> entries[i].key != key else entries[hit].key == key
    ensures forall i :: 0 <= i < |rows| && rows[i].key == key ==> hit >= 0 && RowOk(entries[hit], rows[i], files)
  {
    var start := WindowStart(second, key, b);
    forall i | 0 <= i < |rows| && rows[i].key == key ensures hit >= 0 && RowOk(entries[hit], rows[i], files) {
      assert RowOk(cells[i], rows[i], files);
      WindowContains(second, KeysOf(cells), key, b, i);
      assert entries[i - start] == cells[i];
      if hit >= 0 {
        assert KeysOf(cells)[start + hit] == key == KeysOf(cells)[i];
      }
    }
  }

  lemma EmptyIndex()
    ensures Index([], [], map[], [], Sample(0, 0), false) && CacheOk(map[], [])
  {
  }

  lemma CompleteSecond(cells: seq<Entry>, rows: seq<Row>, files: DV.Files, second: seq<Sample>)
    requires Index(cells, rows, files, second, LastSample(cells), true)
    ensures second != [] && second[|second| - 1] == LastSample(cells) && LastSample(cells).milestone + 1 == |cells|
  {
    hide RowOk;
  }

  class DiskIndexer {
    const fb: FB.FileBlock<Entry>
    const dv: DV.DiskV
    const cell: nat
    var readonly: bool
    var lastSi: Sample
    var second: seq<Sample>
    /** The second-index file, once written. */
    var secondFile: Option<seq<Sample>>
    var cache: map<nat, seq<Entry>>
    /** What has been stored, in order. */
    ghost var rows: seq<Row>

    ghost predicate Valid()
      reads this, fb, dv
    {
      && cell > 0 && fb.Valid() && fb.perFile == FB.MAX_FILE_SIZE / ENTRY_SIZE && dv.Valid()
      && Index(fb.cells, rows, dv.files, second, lastSi, readonly)
      && CacheOk(cache, fb.cells) && (!readonly ==> cache == map[])
    }

    /** Starts on the files found. Without a second-index file, or with an empty one, everything there is
        dropped. With one that ends at the last entry all of it stays, and if the files hold a finished index
        it is readable again, row by row. With any other one everything is dropped too, but the samples stay
        and close the index: it holds nothing and takes nothing. */
    constructor (fb: FB.FileBlock<Entry>, dv: DV.DiskV, cell: nat, file: Option<seq<Sample>>, ghost content: seq<Row>)
      requires cell > 0 && fb.Valid() && fb.perFile == FB.MAX_FILE_SIZE / ENTRY_SIZE && dv.Valid()
      modifies fb, dv
      ensures this.fb == fb && this.dv == dv && this.cell == cell
      ensures readonly == (file.Some? && file.value != [])
      ensures !readonly ==> Valid() && rows == [] && fb.cells == [] && dv.files == map[]
      ensures file.Some? && Index(old(fb.cells), content, old(dv.files), file.value, LastSample(old(fb.cells)), true) ==>
                Valid() && readonly && rows == content && fb.cells == old(fb.cells) && dv.files == old(dv.files)
      ensures readonly ==>
                if file.value[|file.value| - 1].milestone + 1 == |old(fb.cells)|
                then fb.cells == old(fb.cells) && dv.files == old(dv.files) && second == file.value && secondFile == file
                else fb.cells == [] && dv.files == map[] && second == file.value && secondFile == None
    {
      this.fb, this.dv, this.cell := fb, dv, cell;
      cache, secondFile, rows := map[], file, if file.Some? && file.value != [] then content else [];
      second := if file.Some? then file.value else [];
      lastSi := if file.Some? && file.value != [] then file.value[|file.value| - 1] else Sample(0, 0);
      readonly := file.Some? && file.value != [];
      new;
      hide DV.DiskV.Valid, FB.FileBlock.Valid, CacheOk, Index, LastSample, Valid;
      ghost var cells, files := fb.cells, dv.files;
      ghost var found := file.Some? && Index(cells, content, files, file.value, LastSample(cells), true);
      if found {
        CompleteSecond(cells, content, files, file.value);
      }
      var count := fb.GetCellCount();
      if file.None? || |second| == 0 || second[|second| - 1].milestone + 1 != count {
        DropFiles();
        if !readonly {
          EmptyValid();
        }
      } else if found {
        FoundValid();
      }
    }

    method DropFiles()
      requires fb.Valid() && dv.Valid()
      modifies `secondFile, fb, dv
      ensures fb.Valid() && dv.Valid() && fb.cells == [] && dv.files == map[] && secondFile == None
    {
      fb.Clear();
      dv.Clear();
      secondFile := None;
    }

    lemma EmptyValid()
      requires cell > 0 && fb.Valid() && fb.perFile == FB.MAX_FILE_SIZE / ENTRY_SIZE && dv.Valid()
      requires fb.cells == [] && dv.files == map[] && rows == [] && second == [] && lastSi == Sample(0, 0)
      requires !readonly && cache == map[]
      ensures Valid()
    {
      hide DV.DiskV.Valid, FB.FileBlock.Valid, CacheOk, Index;
      EmptyIndex();
    }

    lemma FoundValid()
      requires cell > 0 && fb.Valid() && fb.perFile == FB.MAX_FILE_SIZE / ENTRY_SIZE && dv.Valid()
      requires Index(fb.cells, rows, dv.files, second, lastSi, true) && readonly && cache == map[]
      ensures Valid()
    {
      hide DV.DiskV.Valid, FB.FileBlock.Valid, Index;
      EmptyCache(fb.cells);
    }

    /** Appends one list. The check that ids and keys ascend starts with the third row only: what it lets
        through is a sorted index if ids are consecutive and the second key is above the first; a second key
        that is not is taken all the same, and leaves the entries out of order. Too long a value aborts after
        the bookkeeping has moved on. */
    method SetPostingList(id: nat, key: nat, bytes: seq<byte>) returns (r: SetResult)
      requires Valid() && id < UINT32 && key < KEY_LIMIT
      modifies this, fb, dv
      ensures r.READ_ONLY? <==> old(readonly)
      ensures r.THROWN? <==>
                !old(readonly)
                && (|bytes| > DV.MAX_DATA_SIZE
                    || (|old(rows)| > 1 && (id < |old(rows)| || key <= old(rows)[|old(rows)| - 1].key)))
      ensures r.READ_ONLY? ==> Valid() && rows == old(rows) && readonly
      ensures r.OK? && id == |old(rows)| && (|old(rows)| == 1 ==> key > old(rows)[0].key) ==>
                Valid() && !readonly && dv.maxFileNo > 0 && rows == old(rows) + [Row(key, bytes, dv.maxFileNo - 1)]
      ensures r.OK? && id == |old(rows)| == 1 && key <= old(rows)[0].key ==> !Ascending(KeysOf(fb.cells))
    {
      hide Index, CacheOk, DV.DiskV.Valid, FB.FileBlock.Valid, Ascending;
      LastRow();
      if readonly {
        return READ_ONLY;
      }
      if lastSi.milestone > 0 && !(id > lastSi.milestone && key > lastSi.key) {
        return THROWN;
      }
      r := Append(id, key, bytes);
    }

    lemma LastRow()
      requires Valid()
      ensures |rows| == |fb.cells| && lastSi == LastSample(fb.cells)
      ensures rows != [] ==> lastSi == Sample(|rows| - 1, rows[|rows| - 1].key) && fb.cells[|rows| - 1].key == lastSi.key
    {
      if rows != [] {
        assert RowOk(fb.cells[|rows| - 1], rows[|rows| - 1], dv.files);
      }
    }

    /** The write itself: value, entry, and every TERM_MILESTONE-th time a sample. */
    method Append(id: nat, key: nat, bytes: seq<byte>) returns (r: SetResult)
      requires Valid() && !readonly && |rows| == |fb.cells| && id < UINT32 && key < KEY_LIMIT
      modifies this, fb, dv
      ensures r == if |bytes| > DV.MAX_DATA_SIZE then THROWN else OK
      ensures r.OK? && id == |old(rows)| && (id > 0 ==> old(fb.cells[id - 1].key) < key) ==>
                Valid() && !readonly && Appended(old(rows), rows, key, bytes, dv.maxFileNo)
      ensures r.OK? && id == |old(rows)| && id > 0 && old(fb.cells[id - 1].key) >= key ==> !Ascending(KeysOf(fb.cells))
    {
      hide Index, CacheOk, DV.DiskV.Valid, FB.FileBlock.Valid, DV.Extends, RowOk, DV.Holds, FB.Found, DV.Packed, FB.PWritten,
        FB.FileAt, Ascending, DV.HasBytes, DV.Kept;
      ghost var cells, files, si := fb.cells, dv.files, lastSi;
      lastSi := Sample(id, key);
      var failed, idx := dv.Set(bytes);
      if failed != 0 {
        return THROWN;
      }
      var e := Entry(key, idx);
      SmallFileNo(id);
      var failed2 := fb.Set(id, e);
      ghost var row := Row(key, bytes, dv.maxFileNo - 1);
      if id == |cells| {
        if id > 0 && cells[id - 1].key >= key {
          OutOfOrder(cells, e);
        } else {
          NewRowOk(e, row, dv.files);
          IndexPush(cells, rows, files, second, si, e, row, dv.files);
          EmptyCache(fb.cells);
        }
      }
      if id % TERM_MILESTONE == 0 {
        second := second + [lastSi];
      }
      rows := rows + [row];
      r := OK;
    }

    /** The last entry becomes the last sample, the samples are written out and the index opens for
        reading. An index without rows stays closed. */
    method SetFinish()
      requires Valid() && !readonly
      modifies `second, `secondFile, `readonly
      ensures Valid() && rows == old(rows) && readonly == (rows != [])
      ensures secondFile == if readonly then Some(second) else old(secondFile)
    {
      IndexFinish(fb.cells, rows, dv.files, second, lastSi);
      hide Index, CacheOk, DV.DiskV.Valid, FB.FileBlock.Valid;
      if lastSi.milestone % TERM_MILESTONE != 0 {
        second := second + [lastSi];
      }
      if |second| == 0 {
        return;
      }
      secondFile := Some(second);
      readonly := true;
    }

    /** What a finished index leaves on disk. */
    lemma LeftOnDisk()
      requires Valid() && readonly && rows != []
      ensures Index(fb.cells, rows, dv.files, second, LastSample(fb.cells), true) && fb.cells != [] && cell > 0
      ensures FB.Layout(fb.disk, fb.cells, FB.MAX_FILE_SIZE / ENTRY_SIZE)
      ensures forall k :: k in fb.disk ==> k < FB.MAX_FILE_NO && k * (FB.MAX_FILE_SIZE / ENTRY_SIZE) <= |fb.cells|
      ensures forall k :: k in dv.files ==> |dv.files[k]| <= DV.MAX_FILE_SIZE && forall j :: 0 <= j <= k ==> j in dv.files
    {
      hide Index, CacheOk;
      LastRowExists();
    }

    lemma LastRowExists()
      requires Valid() && readonly && rows != []
      ensures Index(fb.cells, rows, dv.files, second, LastSample(fb.cells), true) && fb.cells != []
    {
    }

    // ---------- lookup ----------

    /** The window of entries from `block`, from the cache or from the files. */
    method ReadBlock(block: nat) returns (entries: seq<Entry>)
      requires Valid() && readonly && block < |fb.cells|
      modifies `cache, fb
      ensures Valid() && fb.cells == old(fb.cells) && entries == FB.Found(fb.cells, block, TERM_MILESTONE)
    {
      hide Index, CacheOk, DV.DiskV.Valid, FB.FileBlock.Valid, FB.Found, FB.Filled, FB.Available;
      if block in cache {
        entries := cache[block];
        CacheHit(cache, fb.cells, block);
        return;
      }
      fb.InLastFile(block);
      var buf := new Entry[TERM_MILESTONE](_ => Entry(0, DV.Idx(0, 0, 0)));
      var count := fb.GetRange(block, TERM_MILESTONE, buf, 0);
      ReadIsFound(fb.cells, block, buf[..], fb.zero);
      entries := buf[..count];
      CacheAdd(cache, fb.cells, block);
      cache := cache[block := entries];
    }

    /** The lookup of a term: the list that was stored, whole, or -1 when the term is absent, the
        buffer is short or the index is not readable. The cache never changes the answer. */
    method GetPostingList(term: seq<bv8>, length: nat) returns (r: int, out: seq<byte>)
      requires Valid()
      modifies `cache, fb
      ensures Valid()
      ensures !readonly || term == [] || length == 0 || (forall i :: 0 <= i < |rows| ==> rows[i].key != Sign64(term)) ==> r == -1
      ensures readonly && term != [] && length > 0 ==> forall i :: 0 <= i < |rows| && rows[i].key == Sign64(term) && rows[i].fileNo < 32 ==>
        Delivered(rows[i], length, cell, r, out)
    {
      r, out := -1, [];
      if !readonly || |term| == 0 || length == 0 {
        return;
      }
      var key := CreatSign64(term);
      r, out := Find(key, length);
    }

    /** The entry of a signature in a readable index. */
    method Search(key: nat) returns (e: Option<Entry>)
      requires Valid() && readonly && key < KEY_LIMIT
      modifies `cache, fb
      ensures Valid() && fb.cells == old(fb.cells)
      ensures (forall i :: 0 <= i < |rows| ==> rows[i].key != key) ==> e == None
      ensures forall i :: 0 <= i < |rows| && rows[i].key == key ==> e.Some? && RowOk(e.value, rows[i], dv.files)
    {
      hide DV.DiskV.Valid, FB.FileBlock.Valid, CacheOk, FB.Found, DV.Holds, Index, RowOk, Sampled, Ascending, Signs;
      e := None;
      ghost var cells := fb.cells;
      SampleFacts(cells, rows, dv.files, second, lastSi);
      if key < second[0].key || key > second[|second| - 1].key {
        OutOfRange(cells, rows, dv.files, second, lastSi, key);
        return;
      }
      SamplesAscend(second, KeysOf(cells));
      var b := LowerBound(second, key);
      var block := WindowStart(second, key, b);
      WindowContains(second, KeysOf(cells), key, b, 0);
      var entries := ReadBlock(block);
      WindowSorted(cells, rows, dv.files, second, lastSi, block);
      var hit := BSearch(entries, key);
      WindowDecides(cells, rows, dv.files, second, lastSi, key, b, entries, hit);
      if hit >= 0 {
        WindowHit(cells, rows, dv.files, second, lastSi, block, hit);
        e := Some(entries[hit]);
      }
    }

    /** The lookup of a signature in a readable index. */
    method Find(key: nat, length: nat) returns (r: int, out: seq<byte>)
      requires Valid() && readonly && key < KEY_LIMIT
      modifies `cache, fb
      ensures Valid()
      ensures (forall i :: 0 <= i < |rows| ==> rows[i].key != key) ==> r == -1
      ensures forall i :: 0 <= i < |rows| && rows[i].key == key && rows[i].fileNo < 32 ==> Delivered(rows[i], length, cell, r, out)
    {
      hide DV.DiskV.Valid, FB.FileBlock.Valid, CacheOk, DV.Holds, Index;
      var e := Search(key);
      if e == None {
        return -1, [];
      }
      r, out := dv.Get(e.value.idx, length);
      r := if r < 0 then r else r / cell;
    }

    // ---------- iteration and clearing ----------

    method Begin()
      requires Valid()
      modifies fb
      ensures Valid() && fb.it == 0 && fb.cells == old(fb.cells)
    {
      hide Index, CacheOk, DV.DiskV.Valid;
      fb.Begin();
    }

    method Next()
      requires Valid()
      modifies fb
      ensures Valid() && fb.it == old(fb.it) + 1 && fb.cells == old(fb.cells)
    {
      hide Index, CacheOk, DV.DiskV.Valid;
      fb.Next();
    }

    method IsEnd() returns (end: bool)
      requires Valid()
      ensures end <==> fb.it == |rows|
    {
      hide CacheOk, DV.DiskV.Valid, FB.FileBlock.Valid, RowOk, Ascending, Signs;
      end := fb.IsEnd();
    }

    /** The row the iterator stands on, in the order it was written. */
    method ItGet(length: nat) returns (key: nat, r: int, out: seq<byte>)
      requires Valid() && fb.it < |rows|
      modifies fb
      ensures Valid() && fb.it == old(fb.it) && fb.cells == old(fb.cells)
      ensures key == rows[fb.it].key && (rows[fb.it].fileNo < 32 ==> Delivered(rows[fb.it], length, cell, r, out))
    {
      hide CacheOk, DV.DiskV.Valid, FB.FileBlock.Valid, DV.Holds, Ascending, Signs, Sampled, Sampling;
      assert RowOk(fb.cells[fb.it], rows[fb.it], dv.files);
      var got, e := fb.ItGet();
      key := e.key;
      r, out := dv.Get(e.idx, length);
      r := if r < 0 then r else r / cell;
    }

    /** Back to an empty index that can be written. */
    method Clear()
      requires Valid()
      modifies this, fb, dv
      ensures Valid() && rows == [] && !readonly && secondFile == None
    {
      hide DV.DiskV.Valid, FB.FileBlock.Valid, Index, CacheOk;
      EmptyIndex();
      second, secondFile, lastSi, readonly, cache := [], None, Sample(0, 0), false, map[];
      fb.Clear();
      dv.Clear();
      rows := [];
    }
  }

  /** Round trip over a restart: an index that was finished is found again by a process that opens the files
      it left, with the same rows in the same order. */
  method FinishAndReopen(d: DiskIndexer) returns (e: DiskIndexer)
    requires d.Valid() && !d.readonly && d.rows != []
    modifies d, d.fb, d.dv
    ensures fresh(e) && fresh(e.fb) && fresh(e.dv) && e.Valid() && e.readonly && e.cell == d.cell
    ensures e.rows == old(d.rows)
  {
    hide Index, CacheOk, DiskIndexer.Valid, DV.DiskV.Valid, FB.FileBlock.Valid;
    d.SetFinish();
    d.LeftOnDisk();
    var fb := new FB.FileBlock<Entry>.Open(ENTRY_SIZE, Entry(0, DV.Idx(0, 0, 0)), d.fb.disk, d.fb.cells);
    var dv := new DV.DiskV.Open(d.dv.files);
    IndexKept(d.fb.cells, d.rows, d.dv.files, d.second, LastSample(d.fb.cells), dv.files);
    e := new DiskIndexer(fb, dv, d.cell, d.secondFile, d.rows);
  }
}
