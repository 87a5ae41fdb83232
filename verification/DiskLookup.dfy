/** The two-level lookup of a finished disk index, on values: a sparse sample of the sorted entries
    leads to a window of entries that always contains the key. */
module DiskLookup {
  import opened Prelude
  import opened CreatSign
  import DV = DiskV

  const TERM_MILESTONE: nat := 1000

  datatype Entry = Entry(key: nat, idx: DV.Idx)
  datatype Sample = Sample(milestone: nat, key: nat)

  predicate Ascending(keys: seq<nat>) {
    forall i, j :: 0 <= i < j < |keys| ==> keys[i] < keys[j]
  }

  predicate Signs(keys: seq<nat>) {
    forall i :: 0 <= i < |keys| ==> keys[i] < KEY_LIMIT
  }

  function KeysOf(entries: seq<Entry>): (r: seq<nat>)
    ensures |r| == |entries| && forall i :: 0 <= i < |r| ==> r[i] == entries[i].key
  {
    seq(|entries|, i requires 0 <= i < |entries| => entries[i].key)
  }

  // ---------- the sampled index ----------

  /** While writing: every TERM_MILESTONE-th entry has been sampled. */
  predicate Sampling(second: seq<Sample>, keys: seq<nat>) {
    && |second| == (|keys| + TERM_MILESTONE - 1) / TERM_MILESTONE
    && forall j :: 0 <= j < |second| ==> SampleAt(second, keys, j)
  }

  predicate SampleAt(second: seq<Sample>, keys: seq<nat>, j: nat)
    requires j < |second|
  {
    second[j].milestone == j * TERM_MILESTONE < |keys| && second[j].key == keys[j * TERM_MILESTONE]
  }

  /** After finishing: samples of the entries, from the first to the last, at most TERM_MILESTONE
      apart. */
  predicate Sampled(second: seq<Sample>, keys: seq<nat>) {
    && keys != [] && second != []
    && second[0].milestone == 0 && second[|second| - 1].milestone == |keys| - 1
    && (forall j :: 0 <= j < |second| ==> second[j].milestone < |keys| && second[j].key == keys[second[j].milestone])
    && (forall j :: 0 < j < |second| ==> second[j - 1].milestone < second[j].milestone <= second[j - 1].milestone + TERM_MILESTONE)
  }

  lemma SamplingPush(second: seq<Sample>, keys: seq<nat>, key: nat)
    requires Sampling(second, keys)
    ensures Sampling(if |keys| % TERM_MILESTONE == 0 then second + [Sample(|keys|, key)] else second, keys + [key])
  {
    var second' := if |keys| % TERM_MILESTONE == 0 then second + [Sample(|keys|, key)] else second;
    forall j | 0 <= j < |second'| ensures SampleAt(second', keys + [key], j) {
      if j < |second| {
        assert SampleAt(second, keys, j);
      }
    }
  }

  /** The last entry is added unless it is a sample already. */
  lemma SamplingFinish(second: seq<Sample>, keys: seq<nat>)
    requires Sampling(second, keys) && keys != []
    ensures var n := |keys| - 1;
            Sampled(if n % TERM_MILESTONE != 0 then second + [Sample(n, keys[n])] else second, keys)
  {
    var n := |keys| - 1;
    var second' := if n % TERM_MILESTONE != 0 then second + [Sample(n, keys[n])] else second;
    assert |second| == n / TERM_MILESTONE + 1;
    assert SampleAt(second, keys, 0);
    assert SampleAt(second, keys, |second| - 1);
    forall j | 0 <= j < |second'| ensures second'[j].milestone < |keys| && second'[j].key == keys[second'[j].milestone] {
      if j < |second| {
        assert SampleAt(second, keys, j);
      }
    }
    forall j | 0 < j < |second'|
      ensures second'[j - 1].milestone < second'[j].milestone <= second'[j - 1].milestone + TERM_MILESTONE
    {
      assert SampleAt(second, keys, j - 1);
      if j < |second| {
        assert SampleAt(second, keys, j);
      }
    }
  }

  lemma {:induction false} MilestonesAscend(second: seq<Sample>, keys: seq<nat>, i: nat, j: nat)
    requires Sampled(second, keys) && i < j < |second|
    ensures second[i].milestone < second[j].milestone
  {
    if i + 1 < j {
      MilestonesAscend(second, keys, i, j - 1);
    }
    assert second[j - 1].milestone < second[j].milestone;
  }

  lemma SamplesAscend(second: seq<Sample>, keys: seq<nat>)
    requires Sampled(second, keys) && Ascending(keys)
    ensures forall i, j :: 0 <= i < j < |second| ==> second[i].key < second[j].key
  {
    forall i, j | 0 <= i < j < |second| ensures second[i].key < second[j].key {
      MilestonesAscend(second, keys, i, j);
    }
  }

  predicate IsLowerBound(second: seq<Sample>, key: nat, b: nat) {
    b < |second| && second[b].key >= key && forall j :: 0 <= j < b ==> second[j].key < key
  }

  /** `lower_bound` for a key that is not above the last sample. */
  method LowerBound(second: seq<Sample>, key: nat) returns (b: nat)
    requires second != [] && key <= second[|second| - 1].key
    requires forall i, j :: 0 <= i < j < |second| ==> second[i].key < second[j].key
    ensures IsLowerBound(second, key, b)
  {
    b := 0;
    var len := |second|;
    while len > 0
      invariant 0 <= len && b + len <= |second|
      invariant forall j :: 0 <= j < b ==> second[j].key < key
      invariant forall j :: b + len <= j < |second| ==> second[j].key >= key
    {
      var half := len / 2;
      if second[b + half].key < key {
        b, len := b + half + 1, len - half - 1;
      } else {
        len := half;
      }
    }
  }

  /** Where the window of TERM_MILESTONE entries starts. */
  function WindowStart(second: seq<Sample>, key: nat, b: nat): nat
    requires b < |second|
  {
    if key == second[b].key then second[b].milestone
    else if second[b].milestone < TERM_MILESTONE then 0
    else second[b].milestone - TERM_MILESTONE
  }

  /** The window contains the key whenever the index does, also at the last, irregular sample. */
  lemma WindowContains(second: seq<Sample>, keys: seq<nat>, key: nat, b: nat, i: nat)
    requires Sampled(second, keys) && Ascending(keys) && second[0].key <= key && IsLowerBound(second, key, b)
    ensures WindowStart(second, key, b) < |keys|
    ensures i < |keys| && keys[i] == key ==> WindowStart(second, key, b) <= i < WindowStart(second, key, b) + TERM_MILESTONE
  {
    var m := second[b].milestone;
    assert keys[m] == second[b].key;
    if b > 0 {
      assert second[b - 1].milestone < m <= second[b - 1].milestone + TERM_MILESTONE;
      assert keys[second[b - 1].milestone] < key;
    }
  }

  // ---------- the search in the window ----------

  /** `bsearch` with the subtracting comparator: finds the key exactly when it is there. */
  method BSearch(block: seq<Entry>, key: nat) returns (r: int)
    requires Ascending(KeysOf(block)) && Signs(KeysOf(block)) && key < KEY_LIMIT
    ensures r == -1 || 0 <= r < |block|
    ensures if r == -1 then forall i :: 0 <= i < |block| ==> block[i].key != key else block[r].key == key
  {
    hide Compare;
    var l, u := 0, |block|;
    while l < u
      invariant 0 <= l <= u <= |block|
      invariant forall i :: 0 <= i < l || u <= i < |block| ==> KeysOf(block)[i] != key
    {
      var mid := (l + u) / 2;
      var k := KeysOf(block)[mid];
      ComparesRightIff(key, k);
      var c := Compare(key, block[mid].key);
      if c < 0 {
        u := mid;
      } else if c > 0 {
        l := mid + 1;
      } else {
        return mid;
      }
    }
    r := -1;
    assert forall i :: 0 <= i < |block| ==> KeysOf(block)[i] != key;
  }
}
