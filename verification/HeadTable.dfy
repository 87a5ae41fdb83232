/** The hash table of term heads as values: buckets lead into the head array, and next indexes lead
    strictly downwards, which is why every search terminates. */
module HeadTable {
  import opened Prelude
  import opened PostingHeap
  import opened Chains

  /** `key & mask` for a table of 2^n buckets. */
  function BucketOf(key: Key, n: nat): (b: nat)
    requires n > 0
    ensures b < n
  {
    key % n
  }

  /** Following next indexes from `from` leads to head h. */
  predicate Reaches(heads: seq<Head>, from: nat, h: nat) {
    from == h
    || (from < |heads| && heads[from].next < from && Reaches(heads, heads[from].next, h))
  }

  ghost predicate Table(bucket: seq<nat>, heads: seq<Head>) {
    && |bucket| > 0 && |heads| <= END_OF_LIST
    && (forall b :: 0 <= b < |bucket| ==> BucketOk(bucket, heads, b))
    && (forall h :: 0 <= h < |heads| ==> HeadOk(bucket, heads, h))
    && DistinctKeys(heads)
  }

  predicate DistinctKeys(heads: seq<Head>) {
    forall g, h :: 0 <= g < h < |heads| ==> heads[g].key != heads[h].key
  }

  /** A bucket is empty or leads to a head that hashes to it. */
  predicate BucketOk(bucket: seq<nat>, heads: seq<Head>, b: nat)
    requires b < |bucket|
  {
    bucket[b] == END_OF_LIST
    || (bucket[b] < |heads| && BucketOf(heads[bucket[b]].key, |bucket|) == b)
  }

  /** A head is reachable from its own bucket, and its next index is smaller and in the same bucket. */
  predicate HeadOk(bucket: seq<nat>, heads: seq<Head>, h: nat)
    requires h < |heads| && |bucket| > 0
  {
    var b, next := BucketOf(heads[h].key, |bucket|), heads[h].next;
    && (next == END_OF_LIST || (next < h && BucketOf(heads[next].key, |bucket|) == b))
    && Reaches(heads, bucket[b], h)
  }

  lemma {:induction false} ReachesFrame(heads: seq<Head>, heads': seq<Head>, from: nat, h: nat)
    requires Reaches(heads, from, h) && |heads| <= |heads'|
    requires forall i :: 0 <= i < |heads| ==> heads'[i].next == heads[i].next
    ensures Reaches(heads', from, h)
    decreases from
  {
    if from != h {
      ReachesFrame(heads, heads', heads[from].next, h);
    }
  }

  /** Linking a new head in front of its bucket. */
  lemma AppendHead(bucket: seq<nat>, heads: seq<Head>, key: Key, link: Addr)
    requires Table(bucket, heads) && |heads| < END_OF_LIST
    requires forall h :: 0 <= h < |heads| ==> heads[h].key != key
    ensures var b := BucketOf(key, |bucket|);
            Table(bucket[b := |heads|], heads + [Head(key, bucket[b], link)])
  {
    hide BucketOf;
    var b := BucketOf(key, |bucket|);
    var bucket', heads' := bucket[b := |heads|], heads + [Head(key, bucket[b], link)];
    assert BucketOk(bucket, heads, b);
    forall h | 0 <= h < |heads'| ensures HeadOk(bucket', heads', h) {
      if h < |heads| {
        assert HeadOk(bucket, heads, h);
        ReachesFrame(heads, heads', bucket[BucketOf(heads[h].key, |bucket|)], h);
      }
    }
    forall c | 0 <= c < |bucket'| ensures BucketOk(bucket', heads', c) {
      assert BucketOk(bucket, heads, c);
    }
  }

  /** Changing where a head's blocks start leaves the table alone. */
  lemma RelinkHead(bucket: seq<nat>, heads: seq<Head>, h: nat, link: Addr)
    requires Table(bucket, heads) && h < |heads|
    ensures Table(bucket, heads[h := heads[h].(memLink := link)])
  {
    hide BucketOf;
    var heads' := heads[h := heads[h].(memLink := link)];
    forall g | 0 <= g < |heads'| ensures HeadOk(bucket, heads', g) {
      assert HeadOk(bucket, heads, g);
      ReachesFrame(heads, heads', bucket[BucketOf(heads[g].key, |bucket|)], g);
    }
    forall c | 0 <= c < |bucket| ensures BucketOk(bucket, heads', c) {
      assert BucketOk(bucket, heads, c);
    }
  }

  // ---------- sorted iteration ----------

  predicate Ascending(s: seq<Head>) {
    forall i, j :: 0 <= i < j < |s| ==> s[i].key < s[j].key
  }

  function Insert(x: Head, s: seq<Head>): (r: seq<Head>)
    ensures |r| == |s| + 1
  {
    if s == [] || x.key < s[0].key then [x] + s else [s[0]] + Insert(x, s[1..])
  }

  /** qsort by key. */
  function SortByKey(s: seq<Head>): (r: seq<Head>)
    ensures |r| == |s|
  {
    if s == [] then [] else Insert(s[0], SortByKey(s[1..]))
  }

  lemma {:induction false} InsertElements(x: Head, s: seq<Head>)
    ensures multiset(Insert(x, s)) == multiset([x]) + multiset(s)
  {
    if s == [] || x.key < s[0].key {
    } else {
      InsertElements(x, s[1..]);
      assert s == [s[0]] + s[1..];
    }
  }

  lemma {:induction false} InsertAscending(x: Head, s: seq<Head>)
    requires Ascending(s) && forall i :: 0 <= i < |s| ==> s[i].key != x.key
    ensures Ascending(Insert(x, s))
  {
    if s == [] || x.key < s[0].key {
    } else {
      InsertAscending(x, s[1..]);
      InsertElements(x, s[1..]);
      var r := Insert(x, s[1..]);
      forall i | 0 <= i < |r| ensures s[0].key < r[i].key {
        assert r[i] in multiset(r);
        assert r[i] == x || r[i] in s[1..];
      }
    }
  }

  /** Sorting heads with distinct keys gives every head exactly once, in ascending key order. */
  lemma {:induction false} SortVisitsEachOnce(s: seq<Head>)
    requires forall i, j :: 0 <= i < j < |s| ==> s[i].key != s[j].key
    ensures Ascending(SortByKey(s)) && multiset(SortByKey(s)) == multiset(s)
  {
    if s != [] {
      var rest := SortByKey(s[1..]);
      SortVisitsEachOnce(s[1..]);
      forall i | 0 <= i < |rest| ensures rest[i].key != s[0].key {
        assert rest[i] in multiset(rest);
        assert rest[i] in s[1..];
      }
      InsertAscending(s[0], rest);
      InsertElements(s[0], rest);
      assert s == [s[0]] + s[1..];
    }
  }
}
