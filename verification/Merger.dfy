/** `merger`: two ascending row sources become one disk index. */
module Merger {
  import opened Prelude
  import opened CreatSign
  import opened Tiers
  import DI = DiskIndexer
  import DV = DiskV
  import FB = FileBlock
  import PS = PostingStore

  datatype Row<T> = Row(key: nat, list: seq<T>)

  /** What an iterator over an index promises: ascending signatures, no empty list. */
  predicate Source<T>(rows: seq<Row<T>>) {
    && (forall i, j :: 0 <= i < j < |rows| ==> rows[i].key < rows[j].key)
    && (forall i :: 0 <= i < |rows| ==> rows[i].list != [] && rows[i].key < KEY_LIMIT)
  }

  function Cut<T>(r: Row<T>): Row<T> {
    r.(list := Take(MAX_POSTINGLIST_SIZE, r.list))
  }

  /** The rows the merge writes, in order: a common term takes the newer source's postings first. */
  function MergeRows<T>(a: seq<Row<T>>, b: seq<Row<T>>): seq<Row<T>>
    decreases |a| + |b|
  {
    if a == [] && b == [] then []
    else if b == [] || (a != [] && a[0].key < b[0].key) then [Cut(a[0])] + MergeRows(a[1..], b)
    else if a == [] || b[0].key < a[0].key then [Cut(b[0])] + MergeRows(a, b[1..])
    else [Row(a[0].key, Take(MAX_POSTINGLIST_SIZE, a[0].list + b[0].list))] + MergeRows(a[1..], b[1..])
  }

  /** The list of a term in a sequence of rows, [] if it has none. */
  function ListOf<T>(rows: seq<Row<T>>, key: nat): seq<T> {
    if rows == [] then [] else if rows[0].key == key then rows[0].list else ListOf(rows[1..], key)
  }

  lemma {:induction false} AbsentBelow<T>(rows: seq<Row<T>>, key: nat)
    requires Source(rows) && (rows == [] || key < rows[0].key)
    ensures ListOf(rows, key) == []
  {
    if rows != [] {
      AbsentBelow(rows[1..], key);
    }
  }

  /** The merge of two sources is a source again, and its list for every term is the newest
      MAX_POSTINGLIST_SIZE of newer then older. */
  lemma {:induction false} MergeIsTake<T>(a: seq<Row<T>>, b: seq<Row<T>>, key: nat)
    requires Source(a) && Source(b)
    ensures ListOf(MergeRows(a, b), key) == Take(MAX_POSTINGLIST_SIZE, ListOf(a, key) + ListOf(b, key))
    decreases |a| + |b|
  {
    var m := MergeRows(a, b);
    if a == [] && b == [] {
    } else if b == [] || (a != [] && a[0].key < b[0].key) {
      MergeIsTake(a[1..], b, key);
      assert m[1..] == MergeRows(a[1..], b);
      AbsentBelow(b, a[0].key);
      assert a[0].list + [] == a[0].list;
    } else if a == [] || b[0].key < a[0].key {
      MergeIsTake(a, b[1..], key);
      assert m[1..] == MergeRows(a, b[1..]);
      AbsentBelow(a, b[0].key);
      assert [] + b[0].list == b[0].list;
    } else {
      MergeIsTake(a[1..], b[1..], key);
      assert m[1..] == MergeRows(a[1..], b[1..]);
    }
  }

  predicate AllAbove<T>(rows: seq<Row<T>>, key: nat) {
    forall i :: 0 <= i < |rows| ==> key < rows[i].key
  }

  lemma {:induction false} MergeAbove<T>(a: seq<Row<T>>, b: seq<Row<T>>, key: nat)
    requires AllAbove(a, key) && AllAbove(b, key)
    ensures AllAbove(MergeRows(a, b), key)
    decreases |a| + |b|
  {
    if a == [] && b == [] {
    } else if b == [] || (a != [] && a[0].key < b[0].key) {
      MergeAbove(a[1..], b, key);
    } else if a == [] || b[0].key < a[0].key {
      MergeAbove(a, b[1..], key);
    } else {
      MergeAbove(a[1..], b[1..], key);
    }
  }

  /** No list is longer than the limit. */
  predicate Limited<T>(rows: seq<Row<T>>) {
    forall i :: 0 <= i < |rows| ==> |rows[i].list| <= MAX_POSTINGLIST_SIZE
  }

  lemma SourceCons<T>(r: Row<T>, rows: seq<Row<T>>)
    requires Source(rows) && AllAbove(rows, r.key) && r.list != [] && r.key < KEY_LIMIT
    ensures Source([r] + rows)
  {
  }

  lemma LimitedCons<T>(r: Row<T>, rows: seq<Row<T>>)
    requires Limited(rows) && |r.list| <= MAX_POSTINGLIST_SIZE
    ensures Limited([r] + rows)
  {
  }

  lemma SourceTail<T>(rows: seq<Row<T>>)
    requires Source(rows) && rows != []
    ensures Source(rows[1..]) && AllAbove(rows[1..], rows[0].key) && rows[0].list != [] && rows[0].key < KEY_LIMIT
  {
  }

  lemma AboveLess<T>(rows: seq<Row<T>>, key: nat)
    requires Source(rows) && (rows != [] ==> key < rows[0].key)
    ensures AllAbove(rows, key)
  {
  }

  lemma {:induction false} MergeIsSource<T>(a: seq<Row<T>>, b: seq<Row<T>>)
    requires Source(a) && Source(b)
    ensures Source(MergeRows(a, b)) && Limited(MergeRows(a, b))
    decreases |a| + |b|, 1
  {
    if a == [] && b == [] {
    } else {
      MergeStepIsSource(a, b);
    }
  }

  lemma {:induction false} MergeStepIsSource<T>(a: seq<Row<T>>, b: seq<Row<T>>)
    requires Source(a) && Source(b) && (a != [] || b != [])
    ensures Source(MergeRows(a, b)) && Limited(MergeRows(a, b))
    decreases |a| + |b|, 0
  {
    hide Source, AllAbove, Limited;
    if a != [] {
      SourceTail(a);
    }
    if b != [] {
      SourceTail(b);
    }
    var a', b', r := a, b, Row(0, []);
    if b == [] || (a != [] && a[0].key < b[0].key) {
      a', r := a[1..], Cut(a[0]);
      AboveLess(b, a[0].key);
    } else if a == [] || b[0].key < a[0].key {
      b', r := b[1..], Cut(b[0]);
      AboveLess(a, b[0].key);
    } else {
      a', b', r := a[1..], b[1..], Row(a[0].key, Take(MAX_POSTINGLIST_SIZE, a[0].list + b[0].list));
    }
    MergeIsSource(a', b');
    MergeAbove(a', b', r.key);
    SourceCons(r, MergeRows(a', b'));
    LimitedCons(r, MergeRows(a', b'));
  }

  /** The map a sequence of rows stands for. */
  function KeySet<T>(rows: seq<Row<T>>): set<nat> {
    set i | 0 <= i < |rows| :: rows[i].key
  }

  function TierOf(rows: seq<Row<Posting>>): Tier {
    map k | k in KeySet(rows) :: ListOf(rows, k)
  }

  lemma {:induction false} PresentIff<T>(rows: seq<Row<T>>, key: nat)
    requires Source(rows)
    ensures key in KeySet(rows) <==> ListOf(rows, key) != []
  {
    if rows != [] {
      PresentIff(rows[1..], key);
      assert key in KeySet(rows) <==> key == rows[0].key || key in KeySet(rows[1..]) by {
        assert forall i :: 1 <= i < |rows| ==> rows[1..][i - 1] == rows[i];
      }
    }
  }

  /** Merging rows is merging tiers: the loop below computes the map the state machine uses. */
  lemma MergeRowsIsTierMerge(a: seq<Row<Posting>>, b: seq<Row<Posting>>)
    requires Source(a) && Source(b)
    ensures TierOf(MergeRows(a, b)) == Merge(TierOf(a), TierOf(b))
  {
    var m := MergeRows(a, b);
    MergeIsSource(a, b);
    hide MergeRows, ListOf, KeySet, Source;
    forall k ensures k in KeySet(m) <==> k in KeySet(a) + KeySet(b) {
      MergePresence(a, b, k);
    }
    forall k | k in KeySet(m) ensures ListOf(m, k) == Merge(TierOf(a), TierOf(b))[k] {
      MergeAt(a, b, k);
    }
  }

  lemma MergePresence<T>(a: seq<Row<T>>, b: seq<Row<T>>, k: nat)
    requires Source(a) && Source(b) && Source(MergeRows(a, b))
    ensures k in KeySet(MergeRows(a, b)) <==> k in KeySet(a) || k in KeySet(b)
  {
    PresentIff(a, k);
    PresentIff(b, k);
    PresentIff(MergeRows(a, b), k);
    MergeIsTake(a, b, k);
  }

  lemma MergeAt(a: seq<Row<Posting>>, b: seq<Row<Posting>>, k: nat)
    requires Source(a) && Source(b)
    ensures At(TierOf(a), k) == ListOf(a, k) && At(TierOf(b), k) == ListOf(b, k)
    ensures ListOf(MergeRows(a, b), k) == Take(MAX_POSTINGLIST_SIZE, At(TierOf(a), k) + At(TierOf(b), k))
  {
    PresentIff(a, k);
    PresentIff(b, k);
    MergeIsTake(a, b, k);
  }

  // ---------- the merge loops ----------

  type Cell = PS.Cell

  /** The iterator of an index that is not written any more: begin, itget, next, is_end. */
  class Cursor {
    const rows: seq<Row<Cell>>
    var pos: nat

    constructor (rows: seq<Row<Cell>>)
      ensures this.rows == rows && pos == 0
    {
      this.rows, pos := rows, 0;
    }

    method Begin()
      modifies this
      ensures pos == 0
    {
      pos := 0;
    }

    method Next()
      modifies this
      ensures pos == old(pos) + 1
    {
      pos := pos + 1;
    }

    predicate IsEnd()
      reads this
    {
      pos >= |rows|
    }

    /** The current row, read into a buffer of MAX_POSTINGLIST_SIZE cells. */
    method ItGet() returns (key: nat, list: seq<Cell>)
      requires pos < |rows|
      ensures key == rows[pos].key && list == Take(MAX_POSTINGLIST_SIZE, rows[pos].list)
    {
      key, list := rows[pos].key, Take(MAX_POSTINGLIST_SIZE, rows[pos].list);
    }
  }

  /** The disk index holds exactly these rows, in this order. */
  predicate Stored(stored: seq<DI.Row>, rows: seq<Row<Cell>>) {
    && |stored| == |rows|
    && forall i :: 0 <= i < |rows| ==> stored[i].key == rows[i].key && stored[i].bytes == PS.Flat(rows[i].list)
  }

  /** After taking i rows of a and j of b, `done` is the merge so far. */
  predicate Progress<T(==)>(a: seq<Row<T>>, b: seq<Row<T>>, i: nat, j: nat, done: seq<Row<T>>) {
    && i <= |a| && j <= |b| && done + MergeRows(a[i..], b[j..]) == MergeRows(a, b)
    && (done != [] ==> AllAbove(a[i..], done[|done| - 1].key) && AllAbove(b[j..], done[|done| - 1].key))
  }

  lemma UnfoldFirst<T>(a: seq<Row<T>>, b: seq<Row<T>>)
    requires a != [] && (b == [] || a[0].key < b[0].key)
    ensures MergeRows(a, b) == [Cut(a[0])] + MergeRows(a[1..], b)
  {
  }

  lemma UnfoldSecond<T>(a: seq<Row<T>>, b: seq<Row<T>>)
    requires b != [] && (a == [] || b[0].key < a[0].key)
    ensures MergeRows(a, b) == [Cut(b[0])] + MergeRows(a, b[1..])
  {
  }

  lemma UnfoldBoth<T>(a: seq<Row<T>>, b: seq<Row<T>>)
    requires a != [] && b != [] && a[0].key == b[0].key
    ensures MergeRows(a, b) == [Row(a[0].key, Take(MAX_POSTINGLIST_SIZE, a[0].list + b[0].list))] + MergeRows(a[1..], b[1..])
  {
  }

  /** The rows from position i on. */
  lemma Rest<T>(rows: seq<Row<T>>, i: nat)
    requires Source(rows) && i <= |rows|
    ensures Source(rows[i..]) && (i < |rows| ==> rows[i..] != [] && rows[i..][0] == rows[i] && rows[i..][1..] == rows[i + 1..])
    ensures i < |rows| ==> AllAbove(rows[i + 1..], rows[i].key)
    ensures rows[i..] == [] <==> i == |rows|
  {
  }

  lemma Regroup<T>(done: seq<T>, r: T, rest: seq<T>)
    ensures done + ([r] + rest) == (done + [r]) + rest
  {
  }

  lemma StepFirst<T>(a: seq<Row<T>>, b: seq<Row<T>>, i: nat, j: nat, done: seq<Row<T>>)
    requires Source(a) && Source(b) && Progress(a, b, i, j, done) && i < |a| && (j == |b| || a[i].key < b[j].key)
    ensures Progress(a, b, i + 1, j, done + [Cut(a[i])])
  {
    hide MergeRows, Source, AllAbove;
    Rest(a, i);
    Rest(b, j);
    UnfoldFirst(a[i..], b[j..]);
    AboveLess(b[j..], a[i].key);
    Regroup(done, Cut(a[i]), MergeRows(a[i + 1..], b[j..]));
  }

  lemma StepSecond<T>(a: seq<Row<T>>, b: seq<Row<T>>, i: nat, j: nat, done: seq<Row<T>>)
    requires Source(a) && Source(b) && Progress(a, b, i, j, done) && j < |b| && (i == |a| || b[j].key < a[i].key)
    ensures Progress(a, b, i, j + 1, done + [Cut(b[j])])
  {
    hide MergeRows, Source, AllAbove;
    Rest(a, i);
    Rest(b, j);
    UnfoldSecond(a[i..], b[j..]);
    AboveLess(a[i..], b[j].key);
    Regroup(done, Cut(b[j]), MergeRows(a[i..], b[j + 1..]));
  }

  lemma StepBoth<T>(a: seq<Row<T>>, b: seq<Row<T>>, i: nat, j: nat, done: seq<Row<T>>)
    requires Source(a) && Source(b) && Progress(a, b, i, j, done) && i < |a| && j < |b| && a[i].key == b[j].key
    ensures var r := Row(a[i].key, Take(MAX_POSTINGLIST_SIZE, a[i].list + b[j].list));
            Progress(a, b, i + 1, j + 1, done + [r])
  {
    hide MergeRows, Source, AllAbove;
    Rest(a, i);
    Rest(b, j);
    UnfoldBoth(a[i..], b[j..]);
    Regroup(done, Row(a[i].key, Take(MAX_POSTINGLIST_SIZE, a[i].list + b[j].list)), MergeRows(a[i + 1..], b[j + 1..]));
  }

  /** The truncating copy of the second list behind the first. */
  lemma CutBoth<T>(a: seq<T>, b: seq<T>)
    ensures var l1, l2 := Take(MAX_POSTINGLIST_SIZE, a), Take(MAX_POSTINGLIST_SIZE, b);
            var left := if MAX_POSTINGLIST_SIZE < |l1| + |l2| then MAX_POSTINGLIST_SIZE - |l1| else |l2|;
            0 <= left <= |l2| && l1 + l2[..left] == Take(MAX_POSTINGLIST_SIZE, a + b)
  {
  }

  /** One call of set_posting_list: an exception only for a list above the diskv limit. */
  method Emit(dest: DI.DiskIndexer, id: nat, row: Row<Cell>, ghost done: seq<Row<Cell>>) returns (thrown: bool)
    requires dest.Valid() && !dest.readonly && Stored(dest.rows, done) && id == |done| < DI.UINT32
    requires row.key < KEY_LIMIT && (done != [] ==> done[|done| - 1].key < row.key)
    modifies dest, dest.fb, dest.dv
    ensures thrown <==> |PS.Flat(row.list)| > DV.MAX_DATA_SIZE
    ensures !thrown ==> dest.Valid() && !dest.readonly && Stored(dest.rows, done + [row])
  {
    hide DI.DiskIndexer.Valid;
    var r := dest.SetPostingList(id, row.key, PS.Flat(row.list));
    thrown := r.THROWN?;
  }

  /** A row too long for the value log. */
  ghost predicate Overlong(rows: seq<Row<Cell>>) {
    exists i :: 0 <= i < |rows| && |PS.Flat(rows[i].list)| > DV.MAX_DATA_SIZE
  }

  lemma OverlongPush(rows: seq<Row<Cell>>, row: Row<Cell>)
    ensures Overlong(rows + [row]) <==> Overlong(rows) || |PS.Flat(row.list)| > DV.MAX_DATA_SIZE
  {
    hide PS.Flat;
    assert (rows + [row])[|rows|] == row;
    assert forall i :: 0 <= i < |rows| ==> (rows + [row])[i] == rows[i];
  }

  lemma OverlongAt(a: seq<Row<Cell>>, b: seq<Row<Cell>>, i: nat, j: nat, done: seq<Row<Cell>>, row: Row<Cell>)
    requires Progress(a, b, i, j, done + [row]) && |PS.Flat(row.list)| > DV.MAX_DATA_SIZE
    ensures Overlong(MergeRows(a, b))
  {
    assert (done + [row])[|done|] == row;
    assert MergeRows(a, b)[|done|] == row;
  }

  /** Between two rows of the merge. */
  ghost predicate Running(src1: Cursor, src2: Cursor, dest: DI.DiskIndexer, id: nat, done: seq<Row<Cell>>)
    reads src1, src2, dest, dest.fb, dest.dv
  {
    && dest.Valid() && !dest.readonly && Stored(dest.rows, done) && id == |done| <= src1.pos + src2.pos
    && Progress(src1.rows, src2.rows, src1.pos, src2.pos, done) && !Overlong(done)
  }

  /** Writes the first source's row. */
  method TakeFirst(src1: Cursor, src2: Cursor, dest: DI.DiskIndexer, id: nat, ghost done: seq<Row<Cell>>)
    returns (thrown: bool, ghost done': seq<Row<Cell>>)
    requires Source(src1.rows) && Source(src2.rows) && |src1.rows| + |src2.rows| < DI.UINT32
    requires src1 != src2 && Running(src1, src2, dest, id, done) && src1.pos < |src1.rows|
    requires src2.pos >= |src2.rows| || src1.rows[src1.pos].key < src2.rows[src2.pos].key
    modifies src1, dest, dest.fb, dest.dv
    ensures src1.pos == old(src1.pos) + 1
    ensures if thrown then Overlong(MergeRows(src1.rows, src2.rows)) else Running(src1, src2, dest, id + 1, done')
  {
    hide DI.DiskIndexer.Valid, Source, Stored, Overlong, MergeRows, PS.Flat, AllAbove;
    ghost var a, b := src1.rows, src2.rows;
    var key1, list1 := src1.ItGet();
    Heads(a, b, src1.pos, src2.pos, done);
    StepFirst(a, b, src1.pos, src2.pos, done);
    var row := Row(key1, list1);
    src1.Next();
    thrown := Emit(dest, id, row, done);
    done' := done + [row];
    OverlongPush(done, row);
    if thrown {
      OverlongAt(a, b, src1.pos, src2.pos, done, row);
    }
  }

  /** Writes the second source's row. */
  method TakeSecond(src1: Cursor, src2: Cursor, dest: DI.DiskIndexer, id: nat, ghost done: seq<Row<Cell>>)
    returns (thrown: bool, ghost done': seq<Row<Cell>>)
    requires Source(src1.rows) && Source(src2.rows) && |src1.rows| + |src2.rows| < DI.UINT32
    requires src1 != src2 && Running(src1, src2, dest, id, done) && src2.pos < |src2.rows|
    requires src1.pos >= |src1.rows| || src2.rows[src2.pos].key < src1.rows[src1.pos].key
    modifies src2, dest, dest.fb, dest.dv
    ensures src2.pos == old(src2.pos) + 1
    ensures if thrown then Overlong(MergeRows(src1.rows, src2.rows)) else Running(src1, src2, dest, id + 1, done')
  {
    hide DI.DiskIndexer.Valid, Source, Stored, Overlong, MergeRows, PS.Flat, AllAbove;
    ghost var a, b := src1.rows, src2.rows;
    var key2, list2 := src2.ItGet();
    Heads(a, b, src1.pos, src2.pos, done);
    StepSecond(a, b, src1.pos, src2.pos, done);
    var row := Row(key2, list2);
    src2.Next();
    thrown := Emit(dest, id, row, done);
    done' := done + [row];
    OverlongPush(done, row);
    if thrown {
      OverlongAt(a, b, src1.pos, src2.pos, done, row);
    }
  }

  /** A common term: the first source's list, then as much of the second as the limit allows. */
  method TakeBoth(src1: Cursor, src2: Cursor, dest: DI.DiskIndexer, id: nat, ghost done: seq<Row<Cell>>)
    returns (thrown: bool, ghost done': seq<Row<Cell>>)
    requires Source(src1.rows) && Source(src2.rows) && |src1.rows| + |src2.rows| < DI.UINT32
    requires src1 != src2 && Running(src1, src2, dest, id, done) && src1.pos < |src1.rows| && src2.pos < |src2.rows|
    requires src1.rows[src1.pos].key == src2.rows[src2.pos].key
    modifies src1, src2, dest, dest.fb, dest.dv
    ensures src1.pos == old(src1.pos) + 1 && src2.pos == old(src2.pos) + 1
    ensures if thrown then Overlong(MergeRows(src1.rows, src2.rows)) else Running(src1, src2, dest, id + 1, done')
  {
    hide DI.DiskIndexer.Valid, Source, Stored, Overlong, MergeRows, PS.Flat, AllAbove, Take;
    ghost var a, b := src1.rows, src2.rows;
    var key1, list1 := src1.ItGet();
    var key2, list2 := src2.ItGet();
    Heads(a, b, src1.pos, src2.pos, done);
    StepBoth(a, b, src1.pos, src2.pos, done);
    CutBoth(a[src1.pos].list, b[src2.pos].list);
    var left := if MAX_POSTINGLIST_SIZE < |list1| + |list2| then MAX_POSTINGLIST_SIZE - |list1| else |list2|;
    var row := Row(key1, list1 + list2[..left]);
    src1.Next();
    src2.Next();
    thrown := Emit(dest, id, row, done);
    done' := done + [row];
    OverlongPush(done, row);
    if thrown {
      OverlongAt(a, b, src1.pos, src2.pos, done, row);
    }
  }

  /** The merge of two sources into a cleared disk index: ids 0, 1, 2, ... in ascending key order,
      and exactly the merged rows, unless one of them exceeds the limit of the value log: then, and
      only then, the write throws. */
  method Merger(src1: Cursor, src2: Cursor, dest: DI.DiskIndexer) returns (thrown: bool, id: nat)
    requires dest.Valid() && src1 != src2 && Source(src1.rows) && Source(src2.rows)
    requires |src1.rows| + |src2.rows| < DI.UINT32
    modifies src1, src2, dest, dest.fb, dest.dv
    ensures !thrown ==> dest.Valid() && Stored(dest.rows, MergeRows(src1.rows, src2.rows)) && id == |dest.rows|
    ensures !thrown ==> dest.readonly == (src1.rows != [] || src2.rows != [])
    ensures thrown <==> Overlong(MergeRows(src1.rows, src2.rows))
  {
    hide DI.DiskIndexer.Valid, Source, Stored, Overlong, MergeRows, Running, Progress;
    thrown, id := false, 0;
    ghost var done := [];
    src1.Begin();
    src2.Begin();
    dest.Clear();
    Start(src1, src2, dest);
    while !src1.IsEnd() && !src2.IsEnd()
      invariant Running(src1, src2, dest, id, done) && src1.pos <= |src1.rows| && src2.pos <= |src2.rows|
      decreases |src1.rows| + |src2.rows| - src1.pos - src2.pos
    {
      var key1, list1 := src1.ItGet();
      var key2, list2 := src2.ItGet();
      if key1 < key2 {
        thrown, done := TakeFirst(src1, src2, dest, id, done);
      } else if key1 > key2 {
        thrown, done := TakeSecond(src1, src2, dest, id, done);
      } else {
        thrown, done := TakeBoth(src1, src2, dest, id, done);
      }
      if thrown {
        return;
      }
      id := id + 1;
    }
    while !src1.IsEnd()
      invariant Running(src1, src2, dest, id, done) && src1.pos <= |src1.rows| && src2.pos <= |src2.rows|
      invariant src1.pos == |src1.rows| || src2.pos == |src2.rows|
      decreases |src1.rows| - src1.pos
    {
      thrown, done := TakeFirst(src1, src2, dest, id, done);
      if thrown {
        return;
      }
      id := id + 1;
    }
    while !src2.IsEnd()
      invariant Running(src1, src2, dest, id, done) && src1.pos == |src1.rows| && src2.pos <= |src2.rows|
      decreases |src2.rows| - src2.pos
    {
      thrown, done := TakeSecond(src1, src2, dest, id, done);
      if thrown {
        return;
      }
      id := id + 1;
    }
    Finished(src1, src2, dest, id, done);
    dest.SetFinish();
  }

  lemma Start(src1: Cursor, src2: Cursor, dest: DI.DiskIndexer)
    requires dest.Valid() && !dest.readonly && dest.rows == [] && src1.pos == src2.pos == 0
    ensures Running(src1, src2, dest, 0, [])
  {
    hide DI.DiskIndexer.Valid, MergeRows;
    var a, b := src1.rows, src2.rows;
    assert a[0..] == a && b[0..] == b && [] + MergeRows(a, b) == MergeRows(a, b);
  }

  /** The next rows have keys above everything written. */
  lemma Heads(a: seq<Row<Cell>>, b: seq<Row<Cell>>, i: nat, j: nat, done: seq<Row<Cell>>)
    requires Source(a) && Source(b) && Progress(a, b, i, j, done)
    ensures i < |a| ==> a[i].key < KEY_LIMIT && (done != [] ==> done[|done| - 1].key < a[i].key)
    ensures j < |b| ==> b[j].key < KEY_LIMIT && (done != [] ==> done[|done| - 1].key < b[j].key)
  {
    hide MergeRows;
    if i < |a| {
      assert a[i..][0] == a[i];
    }
    if j < |b| {
      assert b[j..][0] == b[j];
    }
  }

  lemma Finished(src1: Cursor, src2: Cursor, dest: DI.DiskIndexer, id: nat, done: seq<Row<Cell>>)
    requires Running(src1, src2, dest, id, done) && src1.pos == |src1.rows| && src2.pos == |src2.rows|
    ensures dest.Valid() && !dest.readonly && Stored(dest.rows, MergeRows(src1.rows, src2.rows)) && |dest.rows| == id
    ensures !Overlong(MergeRows(src1.rows, src2.rows))
    ensures dest.rows != [] <==> src1.rows != [] || src2.rows != []
  {
    hide DI.DiskIndexer.Valid;
    var a, b := src1.rows, src2.rows;
    assert a[|a|..] == [] && b[|b|..] == [];
    assert done + [] == done;
  }

  // ---------- what the two kinds of sources read ----------

  /** A memory index read into the merge buffer gives the newest MAX_POSTINGLIST_SIZE cells. */
  lemma MemoryReadIsTake(cells: seq<Cell>, cell: nat, n: nat, out: seq<byte>)
    requires PS.AllCells(cells, cell) && PS.Served(cells, cell, MAX_POSTINGLIST_SIZE * cell, n, out)
    ensures n == |Take(MAX_POSTINGLIST_SIZE, cells)| && out == PS.Flat(Take(MAX_POSTINGLIST_SIZE, cells))
  {
    var t := Take(MAX_POSTINGLIST_SIZE, cells);
    CellArithmetic(cell, MAX_POSTINGLIST_SIZE * cell, |cells|);
    DivisionOf(MAX_POSTINGLIST_SIZE * cell, cell, MAX_POSTINGLIST_SIZE, 0);
    PS.FlatLength(cells, cell);
    PS.FlatLength(t, cell);
    PS.FlatPrefix(cells, |t|);
  }

  /** A disk row written by a merge always fits into the merge buffer, so it is read whole, exactly if it is
      shorter than 2^27 bytes; a row of exactly that length reads as empty. */
  lemma DiskReadIsWhole(list: seq<Cell>, cell: nat, row: DI.Row, r: int, out: seq<byte>)
    requires cell > 0 && PS.AllCells(list, cell) && |list| <= MAX_POSTINGLIST_SIZE && row.bytes == PS.Flat(list)
    requires DI.Delivered(row, MAX_POSTINGLIST_SIZE * cell, cell, r, out) && |row.bytes| <= DV.MAX_DATA_SIZE
    ensures r == |list| && out == PS.Flat(list) <==> |row.bytes| < DV.MAX_DATA_SIZE
    ensures |row.bytes| == DV.MAX_DATA_SIZE ==> r == 0 && out == []
  {
    hide PS.Flat, PS.AllCells;
    PS.FlatLength(list, cell);
    MulMono(|list|, MAX_POSTINGLIST_SIZE, cell);
    DivisionOf(|list| * cell, cell, |list|, 0);
    DivisionOf(0, cell, 0, 0);
  }
}
