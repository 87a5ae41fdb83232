/** The document layer: outer ids, versioned inner ids, and the two bitmaps that make exactly the
    latest, undeleted version of a document visible. */
module Documents {
  import opened Prelude
  import opened Tiers
  import BM = Bitmap

  // ---------- what is promised ----------

  /** The current version of a document. */
  datatype Version = Version(terms: map<Key, nat>, deleted: bool)

  type Docs = map<nat, Version>

  /** INSERT and UPDATE: a message with terms makes a new, undeleted version; one without terms only
      changes attributes. */
  function Added(docs: Docs, outer: nat, terms: map<Key, nat>): Docs {
    if terms == map[] then docs else docs[outer := Version(terms, false)]
  }

  /** DELETE and RESTORE act on the versions that exist. */
  function Marked(docs: Docs, ids: seq<nat>, deleted: bool): Docs {
    if ids == [] then docs
    else
      var before := Marked(docs, ids[..|ids| - 1], deleted);
      var outer := ids[|ids| - 1];
      if outer in before then before[outer := before[outer].(deleted := deleted)] else before
  }

  // ---------- replay after a crash ----------

  /** A message: INSERT or UPDATE, DELETE or RESTORE. */
  datatype Message = Put(outer: nat, terms: map<Key, nat>) | Flag(ids: seq<nat>, deleted: bool)

  function Handled(docs: Docs, m: Message): Docs {
    match m
    case Put(outer, terms) => Added(docs, outer, terms)
    case Flag(ids, deleted) => Marked(docs, ids, deleted)
  }

  function Play(docs: Docs, ms: seq<Message>): Docs {
    if ms == [] then docs else Handled(Play(docs, ms[..|ms| - 1]), ms[|ms| - 1])
  }

  /** What messages do to one document. */
  datatype Effect = Nothing | SetDeleted(b: bool) | Replace(v: Version)

  function Then(e: Effect, f: Effect): Effect {
    match f
    case Nothing => e
    case Replace(_) => f
    case SetDeleted(b) => if e.Replace? then Replace(e.v.(deleted := b)) else f
  }

  function Affected(v: Option<Version>, e: Effect): Option<Version> {
    match e
    case Nothing => v
    case Replace(w) => Some(w)
    case SetDeleted(b) => if v.Some? then Some(v.value.(deleted := b)) else None
  }

  function EffectOf(m: Message, d: nat): Effect {
    match m
    case Put(outer, terms) => if outer == d && terms != map[] then Replace(Version(terms, false)) else Nothing
    case Flag(ids, deleted) => if d in ids then SetDeleted(deleted) else Nothing
  }

  function EffectOfAll(ms: seq<Message>, d: nat): Effect {
    if ms == [] then Nothing else Then(EffectOfAll(ms[..|ms| - 1], d), EffectOf(ms[|ms| - 1], d))
  }

  function Lookup(docs: Docs, d: nat): Option<Version> {
    if d in docs then Some(docs[d]) else None
  }

  lemma {:induction false} MarkedLookup(docs: Docs, ids: seq<nat>, deleted: bool, d: nat)
    ensures Lookup(Marked(docs, ids, deleted), d) == Affected(Lookup(docs, d), if d in ids then SetDeleted(deleted) else Nothing)
  {
    if ids != [] {
      MarkedLookup(docs, ids[..|ids| - 1], deleted, d);
      assert ids == ids[..|ids| - 1] + [ids[|ids| - 1]];
    }
  }

  /** Whatever the messages, one of three effects remains for each document. */
  lemma {:induction false} PlayLookup(docs: Docs, ms: seq<Message>, d: nat)
    ensures Lookup(Play(docs, ms), d) == Affected(Lookup(docs, d), EffectOfAll(ms, d))
  {
    if ms != [] {
      var front, m := ms[..|ms| - 1], ms[|ms| - 1];
      PlayLookup(docs, front, d);
      if m.Flag? {
        MarkedLookup(Play(docs, front), m.ids, m.deleted, d);
      }
    }
  }

  lemma {:induction false} PlayConcat(docs: Docs, a: seq<Message>, b: seq<Message>)
    ensures Play(docs, a + b) == Play(Play(docs, a), b)
  {
    if b == [] {
      assert a + b == a;
    } else {
      PlayConcat(docs, a, b[..|b| - 1]);
      assert (a + b)[..|a + b| - 1] == a + b[..|b| - 1];
    }
  }

  /** Messages played twice in a row do no more than once. */
  lemma PlayedTwice(docs: Docs, ms: seq<Message>)
    ensures Play(Play(docs, ms), ms) == Play(docs, ms)
  {
    var once := Play(docs, ms);
    var twice := Play(once, ms);
    forall d: nat ensures Lookup(twice, d) == Lookup(once, d) {
      PlayLookup(docs, ms, d);
      PlayLookup(once, ms, d);
    }
    SameDocs(twice, once);
  }

  lemma SameDocs(a: Docs, b: Docs)
    requires forall d: nat :: Lookup(a, d) == Lookup(b, d)
    ensures a == b
  {
    forall d: nat | d in a || d in b ensures d in a && d in b && a[d] == b[d] {
      assert Lookup(a, d) == Lookup(b, d);
    }
  }

  /** The maps of ids and the bitmaps outlive a crash, the check point may be older than they are. However
      many of the messages behind it had been handled, replaying all of them leaves the documents as if
      each had been handled once. */
  lemma ReplayIsHarmless(docs: Docs, ms: seq<Message>, handled: nat)
    requires handled <= |ms|
    ensures Play(Play(docs, ms[..handled]), ms) == Play(docs, ms)
  {
    var a, b := ms[..handled], ms[handled..];
    assert ms == a + b;
    PlayConcat(Play(docs, a), a, b);
    PlayedTwice(docs, a);
    PlayConcat(docs, a, b);
  }

  // ---------- how it is kept ----------

  /** The inner ids in use: o2i is the outer-to-inner map with 0 for none, log the messages the index
      has accepted, outerOf the document each inner id was allocated for. */
  datatype Store = Store(o2i: seq<nat>, log: seq<Doc>, outerOf: seq<nat>, mod: set<nat>, del: set<nat>)
  {
    function Cur(): nat { |log| }
  }

  /** Inner id i belongs to the document it was allocated for, whose latest one is no smaller. */
  predicate IdOk(s: Store, i: int)
    requires |s.outerOf| == |s.log| && 0 < i <= |s.log|
  {
    s.log[i - 1].id == i && s.outerOf[i - 1] < |s.o2i| && s.o2i[s.outerOf[i - 1]] >= i
  }

  predicate OuterOk(s: Store, d: nat)
    requires |s.outerOf| == |s.log| && d < |s.o2i|
  {
    s.o2i[d] > 0 ==> s.o2i[d] <= |s.log| && s.outerOf[s.o2i[d] - 1] == d
  }

  /** Inner ids are handed out 1, 2, 3, ...; the map points at the latest one of each document. */
  ghost predicate IdsOk(s: Store) {
    && |s.outerOf| == |s.log|
    && (forall i :: 0 < i <= |s.log| ==> IdOk(s, i))
    && (forall d :: 0 <= d < |s.o2i| ==> OuterOk(s, d))
  }

  /** An inner id is current when the map leads to it. */
  predicate Current(s: Store, i: int) {
    0 < i <= |s.outerOf| && s.outerOf[i - 1] < |s.o2i| && s.o2i[s.outerOf[i - 1]] == i
  }

  /** The mod bit marks exactly the allocated ids that are no longer current. */
  ghost predicate ModOk(s: Store) {
    forall i :: i in s.mod <==> 0 < i <= |s.log| && !Current(s, i)
  }

  ghost predicate DocOk(s: Store, docs: Docs, d: nat)
    requires d < |s.o2i|
  {
    var i := s.o2i[d];
    && (i == 0 <==> d !in docs)
    && (0 < i <= |s.log| ==> d in docs && docs[d].terms == s.log[i - 1].terms && (docs[d].deleted <==> i in s.del))
  }

  ghost predicate DocsOk(s: Store, docs: Docs) {
    && (forall d :: d in docs ==> d < |s.o2i|)
    && (forall d :: 0 <= d < |s.o2i| ==> DocOk(s, docs, d))
    && (forall i :: i in s.del ==> 0 < i <= |s.log|)
  }

  ghost predicate Refines(s: Store, docs: Docs) {
    IdsOk(s) && ModOk(s) && DocsOk(s, docs)
  }

  /** A new version of document d. */
  function AddTo(s: Store, d: nat, terms: map<Key, nat>): Store
    requires d < |s.o2i|
  {
    var i := |s.log| + 1;
    Store(s.o2i[d := i], s.log + [Doc(i, terms)], s.outerOf + [d], if s.o2i[d] > 0 then s.mod + {s.o2i[d]} else s.mod, s.del)
  }

  lemma AddKeepsIds(s: Store, d: nat, terms: map<Key, nat>)
    requires IdsOk(s) && d < |s.o2i|
    ensures IdsOk(AddTo(s, d, terms))
  {
    var t := AddTo(s, d, terms);
    forall i | 0 < i <= |t.log| ensures IdOk(t, i) {
      if i <= |s.log| {
        assert IdOk(s, i);
      }
    }
    forall e | 0 <= e < |t.o2i| ensures OuterOk(t, e) {
      assert OuterOk(s, e);
    }
  }

  lemma AddKeepsMod(s: Store, d: nat, terms: map<Key, nat>)
    requires IdsOk(s) && ModOk(s) && d < |s.o2i|
    ensures ModOk(AddTo(s, d, terms))
  {
    var t := AddTo(s, d, terms);
    assert OuterOk(s, d);
    forall i ensures i in t.mod <==> 0 < i <= |t.log| && !Current(t, i) {
      if 0 < i <= |s.log| {
        assert IdOk(s, i);
        assert t.outerOf[i - 1] == s.outerOf[i - 1];
      }
    }
  }

  lemma AddKeepsDocs(s: Store, docs: Docs, d: nat, terms: map<Key, nat>)
    requires Refines(s, docs) && d < |s.o2i| && terms != map[]
    ensures DocsOk(AddTo(s, d, terms), Added(docs, d, terms))
  {
    var t, docs' := AddTo(s, d, terms), Added(docs, d, terms);
    forall e | 0 <= e < |t.o2i| ensures DocOk(t, docs', e) {
      assert DocOk(s, docs, e) && OuterOk(s, e);
    }
  }

  /** Setting or clearing the del bit of a document's current version. */
  function MarkIn(s: Store, d: nat, deleted: bool): Store {
    if d >= |s.o2i| || s.o2i[d] == 0 then s
    else if deleted then s.(del := s.del + {s.o2i[d]}) else s.(del := s.del - {s.o2i[d]})
  }

  lemma MarkKeeps(s: Store, docs: Docs, d: nat, deleted: bool)
    requires Refines(s, docs)
    ensures Refines(MarkIn(s, d, deleted), if d in docs then docs[d := docs[d].(deleted := deleted)] else docs)
  {
    MarkKeepsIds(s, d, deleted);
    MarkKeepsDocs(s, docs, d, deleted);
  }

  lemma MarkKeepsIds(s: Store, d: nat, deleted: bool)
    requires IdsOk(s) && ModOk(s)
    ensures IdsOk(MarkIn(s, d, deleted)) && ModOk(MarkIn(s, d, deleted))
  {
    var t := MarkIn(s, d, deleted);
    forall i | 0 < i <= |t.log| ensures IdOk(t, i) {
      assert IdOk(s, i);
    }
    forall e | 0 <= e < |t.o2i| ensures OuterOk(t, e) {
      assert OuterOk(s, e);
    }
    forall i ensures i in t.mod <==> 0 < i <= |t.log| && !Current(t, i) {
      assert Current(t, i) <==> Current(s, i);
    }
  }

  lemma MarkKeepsDocs(s: Store, docs: Docs, d: nat, deleted: bool)
    requires IdsOk(s) && DocsOk(s, docs)
    ensures DocsOk(MarkIn(s, d, deleted), if d in docs then docs[d := docs[d].(deleted := deleted)] else docs)
  {
    var t := MarkIn(s, d, deleted);
    var docs' := if d in docs then docs[d := docs[d].(deleted := deleted)] else docs;
    if d < |s.o2i| {
      assert DocOk(s, docs, d) && OuterOk(s, d);
    }
    forall e | 0 <= e < |t.o2i| ensures DocOk(t, docs', e) {
      assert DocOk(s, docs, e) && OuterOk(s, e);
    }
  }

  // ---------- what a query sees ----------

  /** The in-place filter of a query: postings whose id is neither modified nor deleted. */
  function Kept(ps: seq<Posting>, mod: set<nat>, del: set<nat>): seq<Posting> {
    if ps == [] then []
    else
      var rest := Kept(ps[..|ps| - 1], mod, del);
      var p := ps[|ps| - 1];
      if p.id !in mod && p.id !in del then rest + [p] else rest
  }

  predicate StrictlyDescending(ps: seq<Posting>) {
    forall i, j :: 0 <= i < j < |ps| ==> ps[i].id > ps[j].id
  }

  lemma {:induction false} KeptMembers(ps: seq<Posting>, mod: set<nat>, del: set<nat>, p: Posting)
    ensures p in Kept(ps, mod, del) <==> p in ps && p.id !in mod && p.id !in del
  {
    if ps != [] {
      KeptMembers(ps[..|ps| - 1], mod, del, p);
      assert ps == ps[..|ps| - 1] + [ps[|ps| - 1]];
    }
  }

  lemma {:induction false} KeptDescends(ps: seq<Posting>, mod: set<nat>, del: set<nat>)
    requires StrictlyDescending(ps)
    ensures StrictlyDescending(Kept(ps, mod, del))
  {
    if ps != [] {
      var front, p := ps[..|ps| - 1], ps[|ps| - 1];
      var rest := Kept(front, mod, del);
      KeptDescends(front, mod, del);
      forall i | 0 <= i < |rest| ensures rest[i].id > p.id {
        assert rest[i] in rest;
        KeptMembers(front, mod, del, rest[i]);
      }
    }
  }

  /** The postings of a term over messages numbered 1, 2, 3, ... */
  lemma {:induction false} LogMembers(log: seq<Doc>, k: Key, p: Posting)
    requires forall i :: 0 <= i < |log| ==> log[i].id == i + 1
    ensures p in LogOf(log, k) <==> 0 < p.id <= |log| && k in log[p.id - 1].terms && p.info == log[p.id - 1].terms[k]
  {
    if log != [] {
      LogMembers(log[..|log| - 1], k, p);
    }
  }

  lemma {:induction false} LogDescends(log: seq<Doc>, k: Key)
    requires forall i :: 0 <= i < |log| ==> log[i].id == i + 1
    ensures StrictlyDescending(LogOf(log, k))
  {
    if log != [] {
      var front := log[..|log| - 1];
      var rest := LogOf(front, k);
      LogDescends(front, k);
      forall i | 0 <= i < |rest| ensures rest[i].id < |log| {
        assert rest[i] in rest;
        LogMembers(front, k, rest[i]);
      }
    }
  }

  lemma LogIds(s: Store)
    requires IdsOk(s)
    ensures forall i :: 0 <= i < |s.log| ==> s.log[i].id == i + 1
  {
    forall i | 0 <= i < |s.log| ensures s.log[i].id == i + 1 {
      assert IdOk(s, i + 1);
    }
  }

  /** The postings of a term that survive the two bitmaps, newest first. */
  function Visible(s: Store, k: Key): seq<Posting> {
    Kept(LogOf(s.log, k), s.mod, s.del)
  }

  /** The posting of a document's live version. */
  predicate LivePosting(s: Store, docs: Docs, k: Key, p: Posting) {
    exists d :: d in docs && d < |s.o2i| && s.o2i[d] == p.id && !docs[d].deleted && k in docs[d].terms && docs[d].terms[k] == p.info
  }

  /** Document refinement: the postings that survive the bitmaps are exactly the current postings of
      the documents whose latest version has the term and is not deleted, newest first and each
      once. */
  lemma VisibleIffLive(s: Store, docs: Docs, k: Key)
    requires Refines(s, docs)
    ensures StrictlyDescending(Visible(s, k))
    ensures forall p :: p in Visible(s, k) <==> LivePosting(s, docs, k, p)
  {
    LogIds(s);
    LogDescends(s.log, k);
    KeptDescends(LogOf(s.log, k), s.mod, s.del);
    forall p ensures p in Visible(s, k) <==> LivePosting(s, docs, k, p) {
      PostingVisibleIff(s, docs, k, p);
    }
  }

  lemma PostingVisibleIff(s: Store, docs: Docs, k: Key, p: Posting)
    requires Refines(s, docs)
    ensures p in Visible(s, k) <==> LivePosting(s, docs, k, p)
  {
    hide Kept, LogOf, Current;
    LogIds(s);
    KeptMembers(LogOf(s.log, k), s.mod, s.del, p);
    LogMembers(s.log, k, p);
    if 0 < p.id <= |s.log| && Current(s, p.id) {
      CurrentDoc(s, docs, p.id);
    }
    if LivePosting(s, docs, k, p) {
      var d :| d in docs && d < |s.o2i| && s.o2i[d] == p.id && !docs[d].deleted && k in docs[d].terms && docs[d].terms[k] == p.info;
      DocIsCurrent(s, docs, d);
    }
  }

  /** A current inner id carries the version of its document. */
  lemma CurrentDoc(s: Store, docs: Docs, i: nat)
    requires Refines(s, docs) && 0 < i <= |s.log| && Current(s, i)
    ensures var d := s.outerOf[i - 1];
            d in docs && d < |s.o2i| && s.o2i[d] == i && docs[d].terms == s.log[i - 1].terms && (docs[d].deleted <==> i in s.del)
  {
    assert DocOk(s, docs, s.outerOf[i - 1]);
  }

  lemma DocIsCurrent(s: Store, docs: Docs, d: nat)
    requires Refines(s, docs) && d in docs && d < |s.o2i|
    ensures var i := s.o2i[d];
            0 < i <= |s.log| && Current(s, i) && docs[d].terms == s.log[i - 1].terms && (docs[d].deleted <==> i in s.del)
  {
    assert DocOk(s, docs, d) && OuterOk(s, d);
  }

  lemma {:induction false} KeptConcat(a: seq<Posting>, b: seq<Posting>, mod: set<nat>, del: set<nat>)
    ensures Kept(a + b, mod, del) == Kept(a, mod, del) + Kept(b, mod, del)
  {
    if b == [] {
      assert a + b == a;
    } else {
      KeptConcat(a, b[..|b| - 1], mod, del);
      assert (a + b)[..|a + b| - 1] == a + b[..|b| - 1];
    }
  }

  /** A query reads at most MAX_POSTINGLIST_SIZE postings of a term. What survives of those is the
      newest part of what is visible, and all of it exactly when every posting past the limit is
      modified or deleted. */
  lemma TruncatedQuery(s: Store, k: Key)
    ensures var read := Take(MAX_POSTINGLIST_SIZE, LogOf(s.log, k));
            && Kept(read, s.mod, s.del) <= Visible(s, k)
            && (Kept(read, s.mod, s.del) == Visible(s, k) <==>
                forall i :: |read| <= i < |LogOf(s.log, k)| ==> LogOf(s.log, k)[i].id in s.mod + s.del)
  {
    var all := LogOf(s.log, k);
    var read := Take(MAX_POSTINGLIST_SIZE, all);
    var tail := all[|read|..];
    assert read + tail == all;
    KeptConcat(read, tail, s.mod, s.del);
    var rest := Kept(tail, s.mod, s.del);
    if rest != [] {
      KeptMembers(tail, s.mod, s.del, rest[0]);
      assert rest[0] in rest;
    } else {
      forall i | |read| <= i < |all| ensures all[i].id in s.mod + s.del {
        assert all[i] == tail[i - |read|];
        KeptMembers(tail, s.mod, s.del, all[i]);
      }
    }
  }

  /** A document is seen at most once, whichever way it got where it is. */
  lemma OneIdPerDocument(s: Store, docs: Docs, d: nat, e: nat)
    requires Refines(s, docs) && d < |s.o2i| && e < |s.o2i| && s.o2i[d] == s.o2i[e] > 0
    ensures d == e
  {
    assert OuterOk(s, d) && OuterOk(s, e);
  }

  /** The allocated ids with mod bit 0 are exactly the image of the outer-to-inner map. */
  lemma UnmodifiedIsImage(s: Store, docs: Docs, i: nat)
    requires Refines(s, docs) && 0 < i <= |s.log|
    ensures i !in s.mod <==> exists d :: 0 <= d < |s.o2i| && s.o2i[d] == i
  {
    if i !in s.mod {
      assert Current(s, i);
    }
    if d :| 0 <= d < |s.o2i| && s.o2i[d] == i {
      assert OuterOk(s, d);
      assert Current(s, i);
    }
  }

  // ---------- the running system ----------

  class Documents {
    const maxOuterId: nat
    const maxInnerId: nat
    const o2i: array<nat>
    const modBitmap: BM.Bitmap
    const delBitmap: BM.Bitmap
    var curInnerId: nat
    /** The messages handed to the index, in order. */
    var log: seq<Doc>
    ghost var outerOf: seq<nat>
    /** The documents as the messages left them. */
    ghost var docs: Docs

    ghost function Model(): Store
      reads this, o2i, modBitmap, delBitmap
    {
      Store(o2i[..], log, outerOf, modBitmap.bits, delBitmap.bits)
    }

    ghost predicate Shape()
      reads this, modBitmap, modBitmap.puint, delBitmap, delBitmap.puint
    {
      && o2i.Length == maxOuterId && modBitmap.Valid() && delBitmap.Valid()
      && modBitmap != delBitmap && modBitmap.puint != delBitmap.puint
      && (o2i as object) != modBitmap.puint && (o2i as object) != delBitmap.puint
      && maxInnerId <= BM.BIT_COUNT * modBitmap.puint.Length && maxInnerId <= BM.BIT_COUNT * delBitmap.puint.Length
      && curInnerId == |log| && (curInnerId == 0 || curInnerId < maxInnerId)
    }

    ghost predicate Valid()
      reads this, o2i, modBitmap, modBitmap.puint, delBitmap, delBitmap.puint
    {
      Shape() && Refines(Model(), docs)
    }

    constructor (maxOuterId: nat, maxInnerId: nat)
      ensures Valid() && docs == map[] && log == []
      ensures this.maxOuterId == maxOuterId && this.maxInnerId == maxInnerId
    {
      this.maxOuterId, this.maxInnerId := maxOuterId, maxInnerId;
      o2i := new nat[maxOuterId](_ => 0);
      modBitmap := new BM.Bitmap(maxInnerId / BM.BIT_COUNT + 1);
      delBitmap := new BM.Bitmap(maxInnerId / BM.BIT_COUNT + 1);
      curInnerId, log, outerOf, docs := 0, [], [], map[];
    }

    /** The inner id of a document, 0 if it has none. */
    method GetInnerId(outerId: nat) returns (i: nat)
      requires Valid()
      ensures i == 0 <==> outerId !in docs
      ensures i == (if outerId < maxOuterId then o2i[outerId] else 0) <= curInnerId
    {
      i := if outerId >= maxOuterId then 0 else o2i[outerId];
      InnerIdOf(Model(), docs, outerId);
    }

    /** `add`: a message with terms becomes the document's new version, or nothing changes when the
        document number or the inner ids are exhausted. Without terms there is no new version. */
    method Add(outerId: nat, terms: map<Key, nat>) returns (ok: bool)
      requires Valid()
      modifies this, o2i, modBitmap, modBitmap.puint
      ensures Valid()
      ensures ok == (terms == map[] || (outerId < maxOuterId && old(curInnerId) + 1 < maxInnerId))
      ensures docs == if ok then Added(old(docs), outerId, terms) else old(docs)
      ensures log == if ok && terms != map[] then old(log) + [Doc(curInnerId, terms)] else old(log)
    {
      hide Refines, BM.Bitmap.Valid;
      var tmpId := GetInnerId(outerId);
      if terms == map[] {
        return true;
      }
      ghost var s := Model();
      if outerId >= maxOuterId || curInnerId + 1 >= maxInnerId {
        return false;
      }
      AddKeeps(s, docs, outerId, terms);
      curInnerId := curInnerId + 1;
      o2i[outerId] := curInnerId;
      if tmpId > 0 {
        modBitmap.Set1(tmpId);
      }
      log := log + [Doc(curInnerId, terms)];
      outerOf, docs := outerOf + [outerId], Added(docs, outerId, terms);
      assert o2i[..] == s.o2i[outerId := curInnerId];
      assert Model() == AddTo(s, outerId, terms);
      ok := true;
    }

    /** `del` and `undel`: the del bit of the current version of every known document in the list. */
    method Mark(ids: seq<nat>, deleted: bool)
      requires Valid()
      modifies `docs, delBitmap, delBitmap.puint
      ensures Valid() && docs == Marked(old(docs), ids, deleted)
    {
      hide Refines, BM.Bitmap.Valid;
      for n := 0 to |ids|
        invariant Valid() && docs == Marked(old(docs), ids[..n], deleted)
      {
        assert ids[..n + 1][..n] == ids[..n];
        ghost var s := Model();
        var i := GetInnerId(ids[n]);
        MarkKeeps(s, docs, ids[n], deleted);
        if i != 0 {
          if deleted {
            delBitmap.Set1(i);
          } else {
            delBitmap.Set0(i);
          }
          docs := docs[ids[n] := docs[ids[n]].(deleted := deleted)];
        }
        assert o2i[..] == s.o2i;
        assert Model() == MarkIn(s, ids[n], deleted);
      }
      assert ids[..|ids|] == ids;
    }

    /** The dispatch on the operation of a message: what was handled is what `Play` speaks of. */
    method Handle(m: Message) returns (ok: bool)
      requires Valid()
      modifies this, o2i, modBitmap, modBitmap.puint, delBitmap, delBitmap.puint
      ensures Valid() && docs == if ok then Handled(old(docs), m) else old(docs)
      ensures m.Flag? ==> ok
    {
      hide Refines, BM.Bitmap.Valid, Shape;
      match m
      case Put(outer, terms) => ok := Add(outer, terms);
      case Flag(ids, deleted) =>
        Mark(ids, deleted);
        ok := true;
    }

    /** The filter loop of a query, in place: fcount postings are left, in their order. */
    method Filter(merged: array<Posting>) returns (fcount: nat)
      requires Valid() && forall i :: 0 <= i < merged.Length ==> merged[i].id < maxInnerId
      requires (merged as object) != modBitmap.puint && (merged as object) != delBitmap.puint
      modifies merged
      ensures fcount <= merged.Length && merged[..fcount] == Kept(old(merged[..]), Model().mod, Model().del)
    {
      hide Refines, BM.Bitmap.Valid;
      fcount := 0;
      for i := 0 to merged.Length
        invariant modBitmap.Valid() && delBitmap.Valid()
        invariant fcount <= i && forall j :: i <= j < merged.Length ==> merged[j] == old(merged[j])
        invariant merged[..fcount] == Kept(old(merged[..i]), modBitmap.bits, delBitmap.bits)
      {
        assert old(merged[..i + 1])[..i] == old(merged[..i]);
        var changed := modBitmap.Get(merged[i].id);
        var gone := delBitmap.Get(merged[i].id);
        if !changed && !gone {
          merged[fcount] := merged[i];
          fcount := fcount + 1;
        }
      }
      assert old(merged[..merged.Length]) == old(merged[..]);
    }
  }

  lemma InnerIdOf(s: Store, docs: Docs, d: nat)
    requires Refines(s, docs)
    ensures d in docs ==> d < |s.o2i|
    ensures d < |s.o2i| ==> s.o2i[d] <= |s.log| && (s.o2i[d] == 0 <==> d !in docs)
  {
    if d < |s.o2i| {
      assert DocOk(s, docs, d) && OuterOk(s, d);
    }
  }

  lemma AddKeeps(s: Store, docs: Docs, d: nat, terms: map<Key, nat>)
    requires Refines(s, docs) && d < |s.o2i| && terms != map[]
    ensures Refines(AddTo(s, d, terms), Added(docs, d, terms))
  {
    AddKeepsIds(s, d, terms);
    AddKeepsMod(s, d, terms);
    AddKeepsDocs(s, docs, d, terms);
  }
}
