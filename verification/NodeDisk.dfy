/** What a node keeps on disk: per index a mapping and first-level shards, each with the
    documents already written to the shard and a write-ahead log of which a prefix is synced
    (pkg/core/index.go, pkg/core/index_document.go, pkg/core/stream.go). */
module NodeDisk {
  import opened Wrappers
  import opened Replication

  /** stored: documents written to the shard, that is, committed. wal: accepted documents that
      are not, oldest first; the first synced of them are on disk, and if synced is negative not
      even that many of the committed ones. begun: how many entries a chunk has that was begun
      and not committed.
      After a crash, hole: how many entries the log is short of the committed ones; new entries
      take their numbers. behind: what is in second-level shards on disk that the metadata does
      not know. */
  datatype Shard = Shard(
    stored: map<DocId, Doc>,
    wal: seq<(DocId, Doc)>,
    synced: int,
    begun: nat,
    hole: nat,
    behind: set<DocId>)

  datatype Index = Index(mapping: Mapping, shards: seq<Shard>)

  type Disk = map<Name, Index>

  /** Which shard holds a document is a fixed function of its ID. */
  type Hash = DocId -> nat

  function Contents(stored: map<DocId, Doc>, wal: seq<(DocId, Doc)>): map<DocId, Doc> {
    if wal == [] then stored
    else Contents(stored, wal[..|wal| - 1])[wal[|wal| - 1].0 := wal[|wal| - 1].1]
  }

  function ShardDocs(s: Shard): map<DocId, Doc> { Contents(s.stored, s.wal) }

  function Slot(h: Hash, idx: Index, id: DocId): nat
    requires idx.shards != []
    ensures Slot(h, idx, id) < |idx.shards|
  {
    h(id) % |idx.shards|
  }

  function AllIds(shards: seq<Shard>): set<DocId> {
    if shards == [] then {} else AllIds(shards[..|shards| - 1]) + ShardDocs(shards[|shards| - 1]).Keys
  }

  lemma {:induction false} AllIdsHas(shards: seq<Shard>, j: nat, id: DocId)
    requires j < |shards| && id in ShardDocs(shards[j])
    ensures id in AllIds(shards)
  {
    if j < |shards| - 1 { AllIdsHas(shards[..|shards| - 1], j, id); }
  }

  function IndexDocs(h: Hash, idx: Index): map<DocId, Doc>
    requires idx.shards != []
  {
    map id | id in AllIds(idx.shards) && id in ShardDocs(idx.shards[Slot(h, idx, id)])
           :: ShardDocs(idx.shards[Slot(h, idx, id)])[id]
  }

  lemma IndexDocsAt(h: Hash, idx: Index, id: DocId)
    requires idx.shards != []
    ensures Find(IndexDocs(h, idx), id) == Find(ShardDocs(idx.shards[Slot(h, idx, id)]), id)
  {
    if id in ShardDocs(idx.shards[Slot(h, idx, id)]) { AllIdsHas(idx.shards, Slot(h, idx, id), id); }
  }

  predicate GoodShard(s: Shard) { s.synced <= |s.wal| - s.hole && (s.hole > 0 ==> s.wal == []) }

  ghost predicate GoodIndex(idx: Index) {
    idx.shards != [] && forall j | 0 <= j < |idx.shards| :: GoodShard(idx.shards[j])
  }

  /** The log reaches what was committed or begun, and no second-level shard was left behind. */
  predicate Sound(s: Shard) { s.hole == 0 && s.begun <= |s.wal| && s.behind == {} }

  predicate SoundShards(shards: seq<Shard>) { forall j | 0 <= j < |shards| :: Sound(shards[j]) }

  /** A document reaches the log. Where the log is short of committed entries, the document's
      entry counts as one of them and is never applied. */
  function Logged(s: Shard, id: DocId, doc: Doc): Shard {
    if s.hole > 0 then s.(hole := s.hole - 1) else s.(wal := s.wal + [(id, doc)])
  }

  /** Such a document is lost: what the shard holds does not change. */
  lemma HoleSwallows(s: Shard, id: DocId, doc: Doc)
    ensures s.hole > 0 ==> ShardDocs(Logged(s, id, doc)) == ShardDocs(s)
    ensures s.hole == 0 ==> ShardDocs(Logged(s, id, doc)) == ShardDocs(s)[id := doc]
  {
    var wal := s.wal + [(id, doc)];
    assert wal[..|wal| - 1] == s.wal;
  }

  ghost predicate WellFormed(d: Disk) {
    forall x | x in d :: GoodIndex(d[x])
  }

  ghost function ViewOf(h: Hash, d: Disk): View
    requires WellFormed(d)
  {
    map x | x in d :: IndexState(d[x].mapping, IndexDocs(h, d[x]))
  }

  lemma ViewDocAt(h: Hash, d: Disk, x: Name, id: DocId)
    requires WellFormed(d) && x in d
    ensures DocAt(ViewOf(h, d), x, id) == Find(ShardDocs(d[x].shards[Slot(h, d[x], id)]), id)
  {
    IndexDocsAt(h, d[x], id);
  }

  // ---------------------------------------------------------------- operations

  function FreshIndex(m: Mapping, n: nat): Index {
    Index(m, seq(n, i => Shard(map[], [], 0, 0, 0, {})))
  }

  function Appended(h: Hash, idx: Index, id: DocId, doc: Doc): seq<Shard>
    requires idx.shards != []
  {
    var j := Slot(h, idx, id);
    idx.shards[j := Logged(idx.shards[j], id, doc)]
  }

  /** What one operation does to the disk. */
  ghost predicate DiskStep(h: Hash, n: nat, d: Disk, op: Op, d': Disk)
    requires WellFormed(d)
  {
    match op
    case Ensure(x) => d' == if x in d then d else d[x := FreshIndex(map[], n)]
    case Create(x, m) => d' == if x in d then d else d[x := FreshIndex(m, n)]
    case Drop(x) => d' == d - {x}
    case Put(x, id, doc) =>
      if x !in d then d' == d
      else if Accepts(d[x].mapping, doc)
      then d' == d[x := Index(Learn(d[x].mapping, doc), Appended(h, d[x], id, doc))]
      else x in d' && d' == d[x := d[x].(mapping := d'[x].mapping)]
           && LeftBehind(d[x].mapping, Naturals(doc), BadFields(d[x].mapping, doc), d'[x].mapping)
    case Extend(x, fields) =>
      if x !in d then d' == d
      else if Agrees(d[x].mapping, fields)
      then d' == d[x := d[x].(mapping := Merged(d[x].mapping, fields))]
      else x in d' && d' == d[x := d[x].(mapping := d'[x].mapping)]
           && LeftBehind(d[x].mapping, fields, Conflicts(d[x].mapping, fields), d'[x].mapping)
  }

  /** What an attempt that failed for a passing reason does to the indexes in memory. */
  ghost predicate DiskHalf(d: Disk, op: Op, d': Disk) {
    var x := op.index;
    || d' == d
    || (op.Drop? && d' == d - {x})
    || (&& (op.Put? || op.Extend?) && x in d && x in d' && d' == d[x := d[x].(mapping := d'[x].mapping)]
        && Sub(d[x].mapping, d'[x].mapping)
        && if op.Put? then Accepts(d[x].mapping, op.doc) && Sub(d'[x].mapping, Learn(d[x].mapping, op.doc))
           else Agrees(d[x].mapping, op.fields) && Sub(d'[x].mapping, Merged(d[x].mapping, op.fields)))
  }

  lemma FreshIsEmpty(h: Hash, m: Mapping, n: nat)
    requires n > 0
    ensures IndexDocs(h, FreshIndex(m, n)) == map[]
  {
    forall id
      ensures id !in IndexDocs(h, FreshIndex(m, n))
    {
      IndexDocsAt(h, FreshIndex(m, n), id);
    }
  }

  lemma AppendedDocs(h: Hash, idx: Index, m: Mapping, id: DocId, doc: Doc)
    requires idx.shards != [] && idx.shards[Slot(h, idx, id)].hole == 0
    ensures IndexDocs(h, Index(m, Appended(h, idx, id, doc))) == IndexDocs(h, idx)[id := doc]
  {
    var idx' := Index(m, Appended(h, idx, id, doc));
    HoleSwallows(idx.shards[Slot(h, idx, id)], id, doc);
    hide ShardDocs;
    forall k
      ensures Find(IndexDocs(h, idx'), k) == Find(IndexDocs(h, idx)[id := doc], k)
    {
      IndexDocsAt(h, idx', k);
      IndexDocsAt(h, idx, k);
    }
    MapsByFind(IndexDocs(h, idx'), IndexDocs(h, idx)[id := doc]);
  }

  lemma MapsByFind(a: map<DocId, Doc>, b: map<DocId, Doc>)
    requires forall k :: Find(a, k) == Find(b, k)
    ensures a == b
  {
    forall k
      ensures k in a <==> k in b
      ensures k in a ==> a[k] == b[k]
    {
      assert Find(a, k) == Find(b, k);
    }
    assert a.Keys == b.Keys;
  }

  lemma SameShards(h: Hash, a: Index, b: Index)
    requires a.shards == b.shards != []
    ensures IndexDocs(h, a) == IndexDocs(h, b)
  {
    forall k
      ensures Find(IndexDocs(h, a), k) == Find(IndexDocs(h, b), k)
    {
      IndexDocsAt(h, a, k);
      IndexDocsAt(h, b, k);
    }
    MapsByFind(IndexDocs(h, a), IndexDocs(h, b));
  }

  /** Replacing one index on disk replaces it in the view. */
  lemma ReplacedView(h: Hash, d: Disk, x: Name, idx: Index)
    requires WellFormed(d) && GoodIndex(idx)
    ensures WellFormed(d[x := idx])
    ensures ViewOf(h, d[x := idx]) == ViewOf(h, d)[x := IndexState(idx.mapping, IndexDocs(h, idx))]
  {
  }

  lemma PutStep(h: Hash, n: nat, d: Disk, op: Op, d': Disk)
    requires WellFormed(d) && op.Put? && op.index in d && DiskStep(h, n, d, op, d')
    requires SoundShards(d[op.index].shards)
    ensures WellFormed(d') && OpStep(ViewOf(h, d), op, ViewOf(h, d'))
  {
    var x := op.index;
    if Accepts(d[x].mapping, op.doc) {
      AppendedDocs(h, d[x], Learn(d[x].mapping, op.doc), op.id, op.doc);
    } else {
      SameShards(h, d[x], d'[x]);
    }
    ReplacedView(h, d, x, d'[x]);
  }

  lemma ExtendStep(h: Hash, n: nat, d: Disk, op: Op, d': Disk)
    requires WellFormed(d) && op.Extend? && op.index in d && DiskStep(h, n, d, op, d')
    ensures WellFormed(d') && OpStep(ViewOf(h, d), op, ViewOf(h, d'))
  {
    var x := op.index;
    SameShards(h, d[x], d'[x]);
    ReplacedView(h, d, x, d'[x]);
  }

  lemma BirthStep(h: Hash, n: nat, d: Disk, x: Name, m: Mapping)
    requires WellFormed(d) && n > 0 && x !in d
    ensures WellFormed(d[x := FreshIndex(m, n)])
    ensures ViewOf(h, d[x := FreshIndex(m, n)]) == ViewOf(h, d)[x := IndexState(m, map[])]
  {
    FreshIsEmpty(h, m, n);
    ReplacedView(h, d, x, FreshIndex(m, n));
  }

  /** The disk operations have the effect that the stream prescribes, if documents go to a sound index. */
  lemma DiskStepIsStep(h: Hash, n: nat, d: Disk, op: Op, d': Disk)
    requires WellFormed(d) && n > 0 && DiskStep(h, n, d, op, d')
    requires op.Put? && op.index in d ==> SoundShards(d[op.index].shards)
    ensures WellFormed(d') && OpStep(ViewOf(h, d), op, ViewOf(h, d'))
  {
    var x := op.index;
    if op.Drop? {
      assert ViewOf(h, d') == ViewOf(h, d) - {x};
    } else if x !in d {
      if op.Ensure? { BirthStep(h, n, d, x, map[]); }
      if op.Create? { BirthStep(h, n, d, x, op.mapping); }
    } else if op.Put? {
      PutStep(h, n, d, op, d');
    } else if op.Extend? {
      ExtendStep(h, n, d, op, d');
    }
  }

  /** They keep the shape of every shard, and the soundness of every index. */
  lemma DiskStepShape(h: Hash, n: nat, d: Disk, op: Op, d': Disk)
    requires WellFormed(d) && n > 0 && DiskStep(h, n, d, op, d')
    ensures WellFormed(d')
    ensures forall x | x in d' :: (x in d ==> SoundShards(d[x].shards)) ==> SoundShards(d'[x].shards)
    ensures forall x | x != op.index :: (x in d <==> x in d') && (x in d ==> d'[x] == d[x])
  {
    hide Accepts, Agrees, Learn, Merged, LeftBehind, GoodShard, Sound;
    var x := op.index;
    if x in d && op.Put? {
      LoggedShape(h, d[x], op.id, op.doc);
    } else if op.Ensure? || op.Create? {
      FreshShape(if op.Create? then op.mapping else map[], n);
    }
  }

  lemma LoggedShape(h: Hash, idx: Index, id: DocId, doc: Doc)
    requires GoodIndex(idx)
    ensures |Appended(h, idx, id, doc)| == |idx.shards| && GoodIndex(Index(idx.mapping, Appended(h, idx, id, doc)))
    ensures forall m :: GoodIndex(Index(m, Appended(h, idx, id, doc)))
    ensures SoundShards(idx.shards) ==> SoundShards(Appended(h, idx, id, doc))
  {
  }

  lemma FreshShape(m: Mapping, n: nat)
    requires n > 0
    ensures GoodIndex(FreshIndex(m, n)) && SoundShards(FreshIndex(m, n).shards)
  {
  }

  lemma DiskHalfIsHalf(h: Hash, d: Disk, op: Op, d': Disk)
    requires WellFormed(d) && DiskHalf(d, op, d')
    ensures WellFormed(d') && HalfStep(ViewOf(h, d), op, ViewOf(h, d'))
  {
    var x := op.index;
    if op.Drop? {
      assert ViewOf(h, d - {x}) == ViewOf(h, d) - {x};
    } else if d' != d {
      SameShards(h, d[x], d'[x]);
      ReplacedView(h, d, x, d'[x]);
    }
  }

  // ---------------------------------------------------------------- durability

  /** d' is d after syncing some logs. */
  ghost predicate Synced(d: Disk, d': Disk) {
    && d'.Keys == d.Keys
    && forall x | x in d ::
         && d'[x].mapping == d[x].mapping && |d'[x].shards| == |d[x].shards|
         && forall j | 0 <= j < |d[x].shards| ::
              ShardSynced(d[x].shards[j], d'[x].shards[j])
  }

  ghost predicate ShardSynced(s: Shard, s': Shard) {
    s' == s.(synced := s'.synced) && s.synced <= s'.synced <= |s.wal| - s.hole
  }

  lemma SyncedTrans(a: Disk, b: Disk, c: Disk)
    requires Synced(a, b) && Synced(b, c)
    ensures Synced(a, c)
  {
  }

  lemma ItselfSynced(d: Disk)
    requires WellFormed(d)
    ensures Synced(d, d)
  {
    assert forall x | x in d :: GoodIndex(d[x]);
  }

  lemma SyncedMappings(d: Disk, d': Disk)
    requires Synced(d, d')
    ensures d'.Keys == d.Keys && forall x | x in d :: d'[x].mapping == d[x].mapping
  {
  }

  /** Everything index x accepted survives a crash. */
  ghost predicate FullySynced(d: Disk, x: Name)
    requires x in d
  {
    forall j | 0 <= j < |d[x].shards| :: d[x].shards[j].synced == |d[x].shards[j].wal| - d[x].shards[j].hole
  }

  lemma StaysSynced(d: Disk, d': Disk)
    requires Synced(d, d')
    ensures forall x | x in d && FullySynced(d, x) :: FullySynced(d', x)
  {
    forall x, j | x in d && FullySynced(d, x) && 0 <= j < |d'[x].shards|
      ensures d'[x].shards[j].synced == |d'[x].shards[j].wal| - d'[x].shards[j].hole
    {
      assert ShardSynced(d[x].shards[j], d'[x].shards[j]);
    }
  }

  /** The mappings in the stored metadata. They may lag behind those in memory. */
  type Meta = map<Name, Mapping>

  /** What is left of the data of indexes that memory forgot and the stored metadata did not. */
  type Leftovers = map<Name, seq<Shard>>

  /** The stored metadata knows every index in memory, and has no definition that memory lacks. */
  ghost predicate MetaFits(d: Disk, meta: Meta, left: Leftovers) {
    && (forall x | x in d :: x in meta && Sub(meta[x], d[x].mapping))
    && left.Keys == meta.Keys - d.Keys
    && forall x | x in left :: GoodIndex(Index(map[], left[x])) && AllSynced(left[x])
  }

  ghost predicate AllSynced(shards: seq<Shard>) {
    forall j | 0 <= j < |shards| :: shards[j].synced == |shards[j].wal| - shards[j].hole
  }

  /** For each shard of an index the documents in second-level shards that the stored metadata
      does not know; without an entry there is no such second-level shard. */
  type Unknown = map<(Name, nat), set<DocId>>

  function UnknownAt(u: Unknown, x: Name, j: nat): set<DocId> { if (x, j) in u then u[(x, j)] else {} }

  /** Storing the metadata of index x makes its second-level shards known. */
  function Known(u: Unknown, x: Name): Unknown { map k | k in u && k.0 != x :: u[k] }

  /** What a crash leaves of a shard: keep entries after the committed ones, or so many less
      than those; of the unknown documents, those that are gone cannot be found any more. If
      only the process died, entries may be there that are still not on disk. */
  function CrashedTo(s: Shard, ids: set<DocId>, keep: int, synced: int, gone: set<DocId>): Shard
    requires keep <= |s.wal|
  {
    Shard(s.stored - gone, if keep > 0 then s.wal[..keep] else [], synced, s.begun, if keep < 0 then -keep else 0,
          s.behind + ids)
  }

  /** All that can be lost is lost. */
  function Worst(s: Shard, ids: set<DocId>): Shard {
    if s.synced <= |s.wal| then CrashedTo(s, ids, s.synced, s.synced, ids) else s
  }

  ghost predicate WorstAt(d: Disk, u: Unknown, d': Disk, x: Name)
    requires x in d && x in d'
  {
    && |d'[x].shards| == |d[x].shards|
    && forall j: nat | j < |d[x].shards| :: d'[x].shards[j] == Worst(d[x].shards[j], UnknownAt(u, x, j))
  }

  ghost predicate AtWorst(d: Disk, meta: Meta, u: Unknown, d': Disk) {
    forall x | x in d && x in d' :: WorstAt(d, u, d', x)
  }

  ghost predicate ShardCrashed(s: Shard, ids: set<DocId>, s': Shard) {
    exists keep: int, synced: int, gone: set<DocId> ::
      s.synced <= synced <= keep <= |s.wal| - s.hole && gone <= ids && s' == CrashedTo(s, ids, keep, synced, gone)
  }

  ghost predicate ShardsCrashed(shards: seq<Shard>, u: Unknown, x: Name, shards': seq<Shard>) {
    && |shards'| == |shards|
    && forall j: nat | j < |shards| :: ShardCrashed(shards[j], UnknownAt(u, x, j), shards'[j])
  }

  /** Index x of d' is what a restart finds: with the mapping of the stored metadata, and each
      log independently without a tail it had not synced. */
  ghost predicate RestartedAt(d: Disk, meta: Meta, left: Leftovers, u: Unknown, d': Disk, x: Name)
    requires x in d' && x in meta
  {
    if x in d then d'[x].mapping == meta[x] && ShardsCrashed(d[x].shards, u, x, d'[x].shards)
    else x in left && d'[x] == Index(meta[x], left[x])
  }

  /** d' is what a restart finds after a crash: the indexes of the stored metadata. */
  ghost predicate Restarted(d: Disk, meta: Meta, left: Leftovers, u: Unknown, d': Disk) {
    d'.Keys == meta.Keys && forall x | x in d' :: RestartedAt(d, meta, left, u, d', x)
  }

  /** No crash can do this shard any harm. */
  predicate Safe(s: Shard, ids: set<DocId>) { Sound(s) && s.begun <= s.synced && ids == {} }

  /** A crash leaves a shard sound, whatever it takes, exactly when the shard is safe. */
  lemma SafeIff(s: Shard, ids: set<DocId>)
    requires GoodShard(s)
    ensures Safe(s, ids) <==> forall s' | ShardCrashed(s, ids, s') :: Sound(s')
    ensures ShardCrashed(s, ids, CrashedTo(s, ids, s.synced, s.synced, {}))
  {
    var worst := CrashedTo(s, ids, s.synced, s.synced, {});
    assert ShardCrashed(s, ids, worst);
    if Sound(worst) {
      assert s.synced >= 0 && |worst.wal| == s.synced;
    }
  }

  /** A sound shard keeps what it stored, and a safe one stays safe. */
  lemma SoundCrash(s: Shard, ids: set<DocId>, s': Shard)
    requires ShardCrashed(s, ids, s') && Sound(s')
    ensures s'.stored == s.stored && s'.wal <= s.wal && s.synced <= s'.synced <= |s'.wal|
    ensures Safe(s, ids) ==> Safe(s', {})
  {
    var keep: int, synced: int, gone: set<DocId> :|
      s.synced <= synced <= keep <= |s.wal| - s.hole && gone <= ids && s' == CrashedTo(s, ids, keep, synced, gone);
    assert gone == {};
  }

  /** The mappings in memory. */
  function MetaOf(d: Disk): Meta { map x | x in d :: d[x].mapping }

  /** d' is d after the WAL consumer moved log entries into the shards. */
  ghost predicate Consumed(d: Disk, d': Disk) {
    && d'.Keys == d.Keys
    && forall x | x in d ::
         && d'[x].mapping == d[x].mapping && |d'[x].shards| == |d[x].shards|
         && forall j | 0 <= j < |d[x].shards| :: ShardConsumed(d[x].shards[j], d'[x].shards[j])
  }

  lemma ConsumedMappings(d: Disk, d': Disk)
    requires Consumed(d, d')
    ensures d'.Keys == d.Keys && forall x | x in d :: d'[x].mapping == d[x].mapping
  {
  }

  ghost predicate ShardConsumed(s: Shard, s': Shard) {
    || s' == s
    || exists k: nat, synced: int, begun: nat ::
         MayConsume(s, k, synced, begun) && s' == ConsumedTo(s, k, synced, begun)
  }

  /** A log that can be read is consumed, whether or not it was synced before. What is on disk
      does not become less. */
  predicate MayConsume(s: Shard, k: nat, synced: int, begun: nat) {
    && s.hole == 0 && s.begun <= |s.wal|
    && k <= |s.wal| && s.synced - k <= synced <= |s.wal| - k
    && begun <= |s.wal| - k
  }

  /** The consumer applies the first k entries of the log. */
  function ConsumedTo(s: Shard, k: nat, synced: int, begun: nat): Shard
    requires MayConsume(s, k, synced, begun)
  {
    Shard(Contents(s.stored, s.wal[..k]), s.wal[k..], synced, begun, 0, s.behind)
  }

  lemma {:induction false} ContentsConcat(stored: map<DocId, Doc>, a: seq<(DocId, Doc)>, b: seq<(DocId, Doc)>)
    ensures Contents(stored, a + b) == Contents(Contents(stored, a), b)
    decreases |b|
  {
    if b == [] {
      assert a + b == a;
    } else {
      ContentsConcat(stored, a, b[..|b| - 1]);
      assert (a + b)[..|a + b| - 1] == a + b[..|b| - 1];
    }
  }

  lemma SameView(h: Hash, d: Disk, d': Disk)
    requires WellFormed(d) && WellFormed(d') && d'.Keys == d.Keys
    requires forall x | x in d :: d'[x].mapping == d[x].mapping && |d'[x].shards| == |d[x].shards|
    requires forall x, j | x in d && 0 <= j < |d[x].shards| :: ShardDocs(d'[x].shards[j]) == ShardDocs(d[x].shards[j])
    ensures ViewOf(h, d') == ViewOf(h, d)
  {
    forall x | x in d
      ensures IndexDocs(h, d'[x]) == IndexDocs(h, d[x])
    {
      forall k
        ensures Find(IndexDocs(h, d'[x]), k) == Find(IndexDocs(h, d[x]), k)
      {
        IndexDocsAt(h, d'[x], k);
        IndexDocsAt(h, d[x], k);
      }
      MapsByFind(IndexDocs(h, d'[x]), IndexDocs(h, d[x]));
    }
  }

  lemma SyncedView(h: Hash, d: Disk, d': Disk)
    requires WellFormed(d) && Synced(d, d')
    ensures WellFormed(d') && ViewOf(h, d') == ViewOf(h, d)
  {
    SameView(h, d, d');
  }

  /** Consuming the log does not change what a client will find. */
  lemma ConsumedView(h: Hash, d: Disk, d': Disk)
    requires WellFormed(d) && Consumed(d, d')
    ensures WellFormed(d') && ViewOf(h, d') == ViewOf(h, d)
  {
    forall x, j | x in d && 0 <= j < |d[x].shards|
      ensures GoodShard(d'[x].shards[j])
      ensures ShardDocs(d'[x].shards[j]) == ShardDocs(d[x].shards[j])
    {
      assert ShardConsumed(d[x].shards[j], d'[x].shards[j]);
      hide ShardConsumed, ShardDocs;
      ConsumedDocs(d[x].shards[j], d'[x].shards[j]);
    }
    hide ShardConsumed;
    SameView(h, d, d');
  }

  lemma ConsumedSound(d: Disk, d': Disk)
    requires WellFormed(d) && Consumed(d, d')
    ensures d'.Keys == d.Keys && forall x | x in d' :: SoundShards(d[x].shards) ==> SoundShards(d'[x].shards)
  {
    forall x, j | x in d' && SoundShards(d[x].shards) && 0 <= j < |d'[x].shards|
      ensures Sound(d'[x].shards[j])
    {
      assert ShardConsumed(d[x].shards[j], d'[x].shards[j]) && GoodIndex(d[x]);
      ConsumedDocs(d[x].shards[j], d'[x].shards[j]);
    }
  }

  lemma SyncedSound(d: Disk, d': Disk)
    requires Synced(d, d')
    ensures d'.Keys == d.Keys && forall x | x in d' :: SoundShards(d[x].shards) ==> SoundShards(d'[x].shards)
  {
    forall x, j | x in d' && SoundShards(d[x].shards) && 0 <= j < |d'[x].shards|
      ensures Sound(d'[x].shards[j])
    {
      assert ShardSynced(d[x].shards[j], d'[x].shards[j]) && Sound(d[x].shards[j]);
    }
  }

  /** Where the log is short of committed entries, or of a chunk that was begun, nothing is
      applied. */
  lemma HoleStays(s: Shard, s': Shard)
    requires ShardConsumed(s, s') && (s.hole > 0 || s.begun > |s.wal|)
    ensures s' == s
  {
  }

  lemma ConsumedDocs(s: Shard, s': Shard)
    requires ShardConsumed(s, s') && GoodShard(s)
    ensures GoodShard(s') && (Sound(s) ==> Sound(s')) && ShardDocs(s') == ShardDocs(s)
  {
    hide Contents;
    if s' != s {
      var k: nat, synced: int, begun: nat :| MayConsume(s, k, synced, begun) && s' == ConsumedTo(s, k, synced, begun);
      ContentsConcat(s.stored, s.wal[..k], s.wal[k..]);
      assert s.wal[..k] + s.wal[k..] == s.wal;
    }
  }

  /** Document id of a shard is safe from a crash when no unsynced entry names it. */
  lemma {:induction false} CrashKeeps(s: Shard, wal': seq<(DocId, Doc)>, id: DocId)
    requires s.synced <= |wal'| && wal' <= s.wal
    requires forall k: nat | s.synced <= k < |s.wal| :: s.wal[k].0 != id
    ensures Find(Contents(s.stored, wal'), id) == Find(Contents(s.stored, s.wal), id)
    decreases |s.wal| - |wal'|
  {
    if |wal'| < |s.wal| {
      var longer := s.wal[..|wal'| + 1];
      assert longer[..|longer| - 1] == wal';
      CrashKeeps(s, longer, id);
    } else {
      assert wal' == s.wal;
    }
  }
}
