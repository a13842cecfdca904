/** Runs on which a node ends up different from one that applied every message once, in order. */
module FailingRuns {
  import opened Wrappers
  import opened Replication
  import opened NodeDisk
  import opened NodeInvariant
  import opened StreamConsumer

  lemma CleanFirst(v: View, op: Op, rest: seq<Op>)
    requires Clean(v, op) && CleanRun(ApplyOp(v, op), rest)
    ensures CleanRun(v, [op] + rest)
  {
    hide Clean, ApplyOp;
    var ops := [op] + rest;
    forall k: nat | k < |ops|
      ensures Clean(At(v, ops, k), ops[k])
    {
      if k == 0 {
        assert ops[..0] == [];
      } else {
        assert ops[..k] == [op] + rest[..k - 1];
        ExactFirst(v, op, rest[..k - 1]);
        assert Clean(At(ApplyOp(v, op), rest, k - 1), rest[k - 1]);
      }
    }
  }

  /** A stream of one message that stands for two operations. */
  lemma TwoOps(m: Message, a: Op, b: Op)
    requires OpsOf(1, m) == [a, b] && Clean(map[], a) && Clean(ApplyOp(map[], a), b)
    ensures StreamOps(1, [m]) == [a, b] && CleanRun(map[], StreamOps(1, [m])) && Pos([m], 1) == 2
    ensures ApplyAll(map[], 1, [m]) == ApplyOp(ApplyOp(map[], a), b)
  {
    hide Clean, ApplyOp;
    OneMessage(m);
    Two(map[], a, b);
  }

  lemma OneMessage(m: Message)
    ensures StreamOps(1, [m]) == OpsOf(1, m) && Pos([m], 1) == |OpsOf(1, m)|
  {
    hide OpsOf;
    assert [m][..0] == [] && [m][..1] == [m];
    assert StreamOps(1, []) == [];
  }

  lemma TwoMessages(m: Message, n: Message)
    ensures StreamOps(1, [m, n]) == OpsOf(1, m) + OpsOf(2, n) && Pos([m, n], 2) == |StreamOps(1, [m, n])|
  {
    hide OpsOf;
    OneMessage(m);
    assert [m, n][..1] == [m] && [m, n][..2] == [m, n];
  }

  lemma Two(v: View, a: Op, b: Op)
    requires Clean(v, a) && Clean(ApplyOp(v, a), b)
    ensures CleanRun(v, [a, b]) && Exact(v, [a, b]) == ApplyOp(ApplyOp(v, a), b)
  {
    hide Clean, ApplyOp;
    ExactFirst(v, a, [b]);
    ExactFirst(ApplyOp(v, a), b, []);
    CleanFirst(ApplyOp(v, a), b, []);
    CleanFirst(v, a, [b]);
    assert [b] == [b] + [] && [a, b] == [a] + [b];
  }

  /** The node stands at its saved offset, and replaying the rest of the stream does not lead
      to the state that the messages prescribe. */
  ghost predicate Diverged(c: Consumer)
    reads c
  {
    && c.saved == c.applied == |c.stream| && c.ops == StreamOps(1, c.stream)
    && c.at == Pos(c.stream, c.saved) <= |c.ops|
    && WellFormed(c.disk) && Exact(c.View(), c.ops[c.at..]) != ApplyAll(map[], 1, c.stream)
  }

  /** Such a node does not stand at its offset in the sense of a valid node. */
  lemma DivergedIsLost(c: Consumer)
    requires Diverged(c)
    ensures !c.Standing()
  {
    if c.Standing() { c.ReplayIsExact(); }
  }

  lemma IsDiverged(c: Consumer, x: Name, id: DocId)
    requires c.saved == c.applied == |c.stream| && c.ops == StreamOps(1, c.stream) && WellFormed(c.disk)
    requires c.at == Pos(c.stream, c.saved)
    requires var v, v' := ApplyAll(map[], 1, c.stream), ViewOf(c.hash, c.disk);
             Find(MetaOf(c.disk), x) != ShapeOf(v, x) || DocAt(v', x, id) != DocAt(v, x, id)
    ensures Diverged(c)
  {
    assert c.stream[..|c.stream|] == c.stream;
    assert c.ops[c.at..] == [];
    assert ShapeOf(c.View(), x) == Find(MetaOf(c.disk), x);
  }

  /** The node flushes, saves the offset and is restarted, all without a failure. */
  method SaveAndRestart(c: Consumer, n: nat)
    requires WellFormed(c.disk) && MetaFits(c.disk, c.meta, c.left) && n <= |c.stream|
    modifies c
    ensures WellFormed(c.disk) && c.meta == old(c.meta) && c.disk.Keys == c.meta.Keys
    ensures c.saved == c.applied == n && c.at == Pos(c.stream, n)
    ensures MetaOf(c.disk) == c.meta
  {
    hide *;
    ghost var d := c.disk;
    var ok := c.Flush(true);
    SyncedMappings(d, c.disk);
    SyncedView(c.hash, d, c.disk);
    SameMappings([], d, c.disk, c.meta, c.left, 0, 0);
    ok := c.Save(n, true, true);
    d := c.disk;
    ghost var left, u := c.left, c.unknown;
    c.RestartNode(false);
    RestartedShape(d, c.meta, left, u, c.disk);
    RestartedMeta(d, c.meta, left, u, c.disk);
  }

  lemma RestartedMeta(d: Disk, meta: Meta, left: Leftovers, u: Unknown, d': Disk)
    requires Restarted(d, meta, left, u, d')
    ensures d'.Keys == meta.Keys && MetaOf(d') == meta
  {
    forall x | x in d'
      ensures d'[x].mapping == meta[x]
    {
      assert RestartedAt(d, meta, left, u, d', x);
    }
    assert MetaOf(d').Keys == meta.Keys;
  }

  /** Setting a mapping. The metadata cannot be stored once; the next attempt finds every field
      in memory, so it stores nothing and reports success. The offset moves on, and a restart
      does not find the fields. */
  method UnstoredMappingRun(hash: Hash, shardNum: nat, x: Name, f: Field, p: Prop) returns (c: Consumer)
    requires shardNum > 0
    ensures fresh(c) && c.stream == [SetMapping(x, map[f := p])] && Diverged(c)
  {
    hide *;
    var fields := map[f := p];
    assert f in fields;
    AgreesNothing(fields);
    SetMappingStream(x, fields, SetMapping(x, fields));
    c := new Consumer(hash, shardNum, [SetMapping(x, fields)]);
    NoIndexes(c.disk);
    SetFieldsTwice(c, x, fields);
    SaveAndRestart(c, 1);
    OneShape(c.disk, x, ApplyAll(map[], 1, c.stream));
    IsDiverged(c, x, "");
  }

  /** Two attempts at the message. */
  method SetFieldsTwice(c: Consumer, x: Name, fields: Mapping)
    requires WellFormed(c.disk) && c.disk == map[] && c.meta == map[] && c.left == map[] && c.shardNum > 0
    modifies c`disk, c`meta, c`unknown, c`left
    ensures WellFormed(c.disk) && MetaFits(c.disk, c.meta, c.left) && c.meta == map[x := map[]]
  {
    hide *;
    ghost var d := c.disk;
    var ok, existed := c.GetOrCreateIndex(x, true);
    DiskStepIsStep(c.hash, c.shardNum, d, Ensure(x), c.disk);
    d := c.disk;
    var r := c.ExtendMapping(x, fields, existed, false);
    AgreesNothing(fields);
    assert fields == map[] || r == Failed;
    DiskHalfIsHalf(c.hash, d, Extend(x, fields), c.disk);
    // the message is applied again
    ok, existed := c.GetOrCreateIndex(x, true);
    d := c.disk;
    r := c.ExtendMapping(x, fields, existed, true);
    assert r == Done && c.meta == map[x := map[]];
    DiskStepIsStep(c.hash, c.shardNum, d, Extend(x, fields), c.disk);
    OneIndex(c.disk, c.meta, x);
  }

  lemma OneShape(d: Disk, x: Name, v: View)
    requires MetaOf(d) == map[x := map[]] && x in v
    ensures ShapeOf(v, x) == Some(v[x].mapping) && Find(MetaOf(d), x) == Some(map[])
  {
  }

  lemma SetMappingStream(x: Name, fields: Mapping, m: Message)
    requires m == SetMapping(x, fields)
    ensures CleanRun(map[], StreamOps(1, [m])) && x in ApplyAll(map[], 1, [m])
    ensures ApplyAll(map[], 1, [m])[x].mapping == Merged(map[], fields)
  {
    hide CleanRun, StreamOps, Pos, Exact, Merged, ApplyAll;
    var v := ApplyOp(map[], Ensure(x));
    assert v == map[x := IndexState(map[], map[])];
    assert Agrees(v[x].mapping, fields);
    assert ApplyOp(v, Extend(x, fields))[x].mapping == Merged(map[], fields);
    TwoOps(m, Ensure(x), Extend(x, fields));
  }

  lemma AgreesNothing(fields: Mapping)
    ensures Agrees(map[], fields) && Agrees(fields, fields) && Merged(map[], fields) == fields == Merged(fields, fields)
  {
  }

  lemma NoIndexes(d: Disk)
    requires d == map[]
    ensures WellFormed(d)
  {
  }

  lemma OneIndex(d: Disk, meta: Meta, x: Name)
    requires d.Keys == {x} && meta == map[x := map[]]
    ensures MetaFits(d, meta, map[])
  {
  }

  /** A document with a new field. The metadata cannot be stored once; the next attempt finds
      the field in memory, so the document is accepted and the field is not stored. */
  method UnstoredFieldRun(hash: Hash, shardNum: nat, x: Name, id: DocId, f: Field, value: Value) returns (c: Consumer)
    requires shardNum > 0 && Fits(value.Natural(), value)
    ensures fresh(c) && c.stream == [DocMsg(x, id, map[f := value])] && Diverged(c)
  {
    hide *;
    var doc := map[f := value];
    AcceptsNatural(f, value, doc);
    DocStream(x, id, doc, DocMsg(x, id, doc));
    c := new Consumer(hash, shardNum, [DocMsg(x, id, doc)]);
    NoIndexes(c.disk);
    PutTwice(c, x, DocName(1, id), doc);
    SaveAndRestart(c, 1);
    OneShape(c.disk, x, ApplyAll(map[], 1, c.stream));
    IsDiverged(c, x, "");
  }

  lemma AcceptsNatural(f: Field, value: Value, doc: Doc)
    requires doc == map[f := value] && Fits(value.Natural(), value)
    ensures Accepts(map[], doc) && Learn(map[], doc) == map[f := value.Natural()] && Learn(map[], doc) != map[]
    ensures doc.Keys == Learn(map[], doc).Keys && Accepts(map[f := value.Natural()], doc)
  {
    assert f in Learn(map[], doc);
  }

  lemma DocStream(x: Name, id: DocId, doc: Doc, m: Message)
    requires m == DocMsg(x, id, doc) && Accepts(map[], doc)
    ensures CleanRun(map[], StreamOps(1, [m])) && x in ApplyAll(map[], 1, [m])
    ensures ApplyAll(map[], 1, [m])[x].mapping == Learn(map[], doc)
  {
    hide CleanRun, StreamOps, Pos, Exact, Learn, ApplyAll;
    var v := ApplyOp(map[], Ensure(x));
    assert v == map[x := IndexState(map[], map[])];
    assert ApplyOp(v, Put(x, DocName(1, id), doc))[x].mapping == Learn(map[], doc);
    TwoOps(m, Ensure(x), Put(x, DocName(1, id), doc));
  }

  /** Two attempts at the message. */
  method PutTwice(c: Consumer, x: Name, id: DocId, doc: Doc)
    requires WellFormed(c.disk) && c.disk == map[] && c.meta == map[] && c.left == map[] && c.shardNum > 0
    requires Accepts(map[], doc) && Accepts(Learn(map[], doc), doc) && doc.Keys == Learn(map[], doc).Keys != {}
    modifies c`disk, c`meta, c`unknown, c`left
    ensures WellFormed(c.disk) && MetaFits(c.disk, c.meta, c.left) && c.meta == map[x := map[]]
  {
    hide *;
    ghost var d := c.disk;
    var ok, existed := c.GetOrCreateIndex(x, true);
    DiskStepShape(c.hash, c.shardNum, d, Ensure(x), c.disk);
    d := c.disk;
    var r := c.CreateDocument(x, id, doc, false, true);
    assert r == Failed;
    DiskHalfIsHalf(c.hash, d, Put(x, id, doc), c.disk);
    HalfKeys(d, x, id, doc, c.disk);
    // the message is applied again
    ok, existed := c.GetOrCreateIndex(x, true);
    d := c.disk;
    r := c.CreateDocument(x, id, doc, true, true);
    assert r == Done && c.meta == map[x := map[]];
    DiskStepShape(c.hash, c.shardNum, d, Put(x, id, doc), c.disk);
    PutKeys(c.hash, c.shardNum, d, x, id, doc, c.disk);
    OneIndex(c.disk, c.meta, x);
  }

  /** Deleting an index. The index is forgotten, and its metadata cannot be deleted once; the
      next attempt finds no index and reports success. A restart brings the index back. */
  method DeletedIndexReturns(hash: Hash, shardNum: nat, x: Name, m: Mapping) returns (c: Consumer)
    requires shardNum > 0
    ensures fresh(c) && c.stream == [CreateIndex(x, m), DeleteIndex(x)] && Diverged(c) && x in c.disk
  {
    hide *;
    DeletedStream(x, m, CreateIndex(x, m), DeleteIndex(x));
    c := new Consumer(hash, shardNum, [CreateIndex(x, m), DeleteIndex(x)]);
    NoIndexes(c.disk);
    ghost var d := c.disk;
    var ok := c.CreateIndex(x, m, true);
    DiskStepIsStep(hash, shardNum, d, Create(x, m), c.disk);
    ok := c.DeleteIndex(x, false, true);
    assert !ok && c.disk.Keys == {};
    NoIndexes(c.disk);
    // the message is applied again
    ok := c.DeleteIndex(x, true, true);
    assert ok && c.meta == map[x := m] && c.disk == map[];
    OneLeft(c.disk, c.meta, c.left, x, m);
    SaveAndRestart(c, 2);
    assert x in c.meta;
    NoShape(c.disk, x, ApplyAll(map[], 1, c.stream));
    IsDiverged(c, x, "");
  }

  lemma OneLeft(d: Disk, meta: Meta, left: Leftovers, x: Name, m: Mapping)
    requires d == map[] && meta == map[x := m] && left.Keys == {x} && GoodIndex(Index(map[], left[x]))
             && AllSynced(left[x])
    ensures MetaFits(d, meta, left)
  {
    assert meta.Keys - d.Keys == {x};
  }

  lemma NoShape(d: Disk, x: Name, v: View)
    requires x in d && x !in v
    ensures ShapeOf(v, x) == None && Find(MetaOf(d), x) != None
  {
  }

  lemma DeletedStream(x: Name, m: Mapping, create: Message, delete: Message)
    requires create == CreateIndex(x, m) && delete == DeleteIndex(x)
    ensures CleanRun(map[], StreamOps(1, [create, delete])) && x !in ApplyAll(map[], 1, [create, delete])
  {
    hide CleanRun, StreamOps, Pos, Exact;
    TwoMessages(create, delete);
    Two(map[], Create(x, m), Drop(x));
    assert OpsOf(1, create) + OpsOf(2, delete) == [Create(x, m), Drop(x)];
  }

  /** A save that stores the offset and reports failure. The node stands at the older offset,
      applies the first message again and is restarted at the stored offset: the document that
      it has is the older one, and nothing replays the newer one. */
  method LostSaveRun(hash: Hash, shardNum: nat, x: Name, id: DocId, f: Field, value: Value) returns (c: Consumer)
    requires shardNum > 0 && id != "" && Fits(value.Natural(), value)
    ensures fresh(c) && c.stream == [DocMsg(x, id, map[]), DocMsg(x, id, map[f := value])]
    ensures Diverged(c) && DocAt(ViewOf(c.hash, c.disk), x, id) == Some(map[])
  {
    hide *;
    var older, newer: Doc := map[], map[f := value];
    assert f in newer;
    AcceptsNatural(f, value, newer);
    AcceptsEmpty();
    RewrittenStream(x, id, older, newer, DocMsg(x, id, older), DocMsg(x, id, newer));
    c := new Consumer(hash, shardNum, [DocMsg(x, id, older), DocMsg(x, id, newer)]);
    StartsSimple(c.disk, c.meta, c.left, x);
    PutTogether(c, x, id, older, newer);
    var ok := c.Save(2, true, false);
    assert !ok && c.applied == 0;
    // the messages from the first one on are applied again
    PutFlushed(c, x, id, older);
    RestartOnce(c, x, id);
    IsDiverged(c, x, id);
  }

  method PutTogether(c: Consumer, x: Name, id: DocId, older: Doc, newer: Doc)
    requires Simple(c.disk, c.meta, c.left, x) && c.shardNum > 0 && MappingOf(c.disk, x) == map[]
    requires Accepts(map[], older) && Accepts(map[], newer) && Learn(map[], older) == map[]
    modifies c`disk, c`meta, c`unknown, c`left, c`touched
    ensures Simple(c.disk, c.meta, c.left, x)
    ensures old(c.unknown) == map[] ==> c.unknown == map[]
  {
    hide *;
    PutOnce(c, x, id, older);
    SimpleShape(c.disk, c.meta, c.left, x);
    PutFlushed(c, x, id, newer);
  }

  method PutFlushed(c: Consumer, x: Name, id: DocId, doc: Doc)
    requires Simple(c.disk, c.meta, c.left, x) && c.shardNum > 0 && Accepts(MappingOf(c.disk, x), doc)
    modifies c`disk, c`meta, c`unknown, c`left, c`touched
    ensures Simple(c.disk, c.meta, c.left, x) && x in c.disk && WellFormed(c.disk) && FullySynced(c.disk, x)
    ensures DocAt(ViewOf(c.hash, c.disk), x, id) == Some(doc)
    ensures old(c.unknown) == map[] ==> c.unknown == map[]
  {
    hide *;
    PutOnce(c, x, id, doc);
    FlushOnce(c, x, id);
  }

  lemma AcceptsEmpty()
    ensures forall m: Mapping :: Accepts(m, map[]) && Learn(m, map[]) == m
  {
    forall m: Mapping
      ensures Learn(m, map[]) == m
    {
    }
  }

  lemma RewrittenStream(x: Name, id: DocId, older: Doc, newer: Doc, m: Message, n: Message)
    requires m == DocMsg(x, id, older) && n == DocMsg(x, id, newer) && id != "" && older == map[]
    requires Accepts(map[], older) && Learn(map[], older) == map[] && Accepts(map[], newer)
    ensures CleanRun(map[], StreamOps(1, [m, n]))
    ensures DocAt(ApplyAll(map[], 1, [m, n]), x, id) == Some(newer)
  {
    hide CleanRun, StreamOps, Pos, Exact, Learn;
    TwoMessages(m, n);
    var a, b, c := Ensure(x), Put(x, id, older), Put(x, id, newer);
    var v := ApplyOp(map[], a);
    assert v == map[x := IndexState(map[], map[])];
    var v' := ApplyOp(v, b);
    assert v' == map[x := IndexState(map[], map[id := older])];
    Two(v', a, c);
    CleanFirst(v, b, [a, c]);
    CleanFirst(map[], a, [b] + [a, c]);
    ExactFirst(v, b, [a, c]);
    ExactFirst(map[], a, [b] + [a, c]);
    assert OpsOf(1, m) + OpsOf(2, n) == [a] + ([b] + [a, c]);
  }

  /** Index x with its metadata stored, or nothing at all. */
  ghost predicate Simple(d: Disk, meta: Meta, left: Leftovers, x: Name) {
    && WellFormed(d) && left == map[] && (x in d ==> SoundShards(d[x].shards))
    && if x in d then d.Keys == {x} && meta == map[x := d[x].mapping] else d == map[] && meta == map[]
  }

  function MappingOf(d: Disk, x: Name): Mapping { if x in d then d[x].mapping else map[] }

  lemma SimpleShape(d: Disk, meta: Meta, left: Leftovers, x: Name)
    requires Simple(d, meta, left, x)
    ensures WellFormed(d) && left == map[] && MetaFits(d, meta, left)
    ensures d == map[] ==> MappingOf(d, x) == map[]
    ensures x in d ==> d.Keys == {x} && MappingOf(d, x) == d[x].mapping
  {
  }

  lemma EnsuredSimple(h: Hash, n: nat, d: Disk, meta: Meta, d': Disk, meta': Meta, x: Name)
    requires Simple(d, meta, map[], x) && n > 0 && DiskStep(h, n, d, Ensure(x), d')
    requires if x in d then meta' == meta else meta' == meta[x := map[]]
    ensures Simple(d', meta', map[], x) && x in d' && d'[x].mapping == MappingOf(d, x)
  {
    DiskStepShape(h, n, d, Ensure(x), d');
  }

  lemma PutSimple(h: Hash, n: nat, d: Disk, meta: Meta, d': Disk, meta': Meta, x: Name, id: DocId, doc: Doc)
    requires Simple(d, meta, map[], x) && x in d && n > 0 && Accepts(d[x].mapping, doc)
    requires DiskStep(h, n, d, Put(x, id, doc), d') && x in d'
    requires meta' == meta[x := d'[x].mapping] || (meta' == meta && d'[x].mapping == d[x].mapping)
    ensures Simple(d', meta', map[], x) && WellFormed(d') && DocAt(ViewOf(h, d'), x, id) == Some(doc)
  {
    hide WellFormed, IndexDocs, Accepts, Learn;
    DiskStepShape(h, n, d, Put(x, id, doc), d');
    DiskStepIsStep(h, n, d, Put(x, id, doc), d');
    PutShows(h, n, d, d', x, id, doc);
    assert d'.Keys == {x};
    assert meta' == map[x := d'[x].mapping];
  }

  lemma PutShows(h: Hash, n: nat, d: Disk, d': Disk, x: Name, id: DocId, doc: Doc)
    requires WellFormed(d) && WellFormed(d') && x in d && Accepts(d[x].mapping, doc)
    requires OpStep(ViewOf(h, d), Put(x, id, doc), ViewOf(h, d'))
    ensures DocAt(ViewOf(h, d'), x, id) == Some(doc)
  {
    hide WellFormed, IndexDocs, Accepts, Learn;
    assert ViewOf(h, d)[x].mapping == d[x].mapping;
    assert ViewOf(h, d')[x].docs == ViewOf(h, d)[x].docs[id := doc];
  }

  lemma StartsSimple(d: Disk, meta: Meta, left: Leftovers, x: Name)
    requires d == map[] && meta == map[] && left == map[]
    ensures Simple(d, meta, left, x) && MappingOf(d, x) == map[]
  {
  }

  /** One document is applied without a failure. */
  method PutOnce(c: Consumer, x: Name, id: DocId, doc: Doc)
    requires Simple(c.disk, c.meta, c.left, x) && c.shardNum > 0 && Accepts(MappingOf(c.disk, x), doc)
    modifies c`disk, c`meta, c`unknown, c`left
    ensures Simple(c.disk, c.meta, c.left, x) && x in c.disk && WellFormed(c.disk)
    ensures c.disk[x].mapping == Learn(old(MappingOf(c.disk, x)), doc)
    ensures DocAt(ViewOf(c.hash, c.disk), x, id) == Some(doc)
    ensures old(c.unknown) == map[] ==> c.unknown == map[]
  {
    hide *;
    ghost var d, m, u := c.disk, c.meta, c.unknown;
    SimpleShape(d, m, c.left, x);
    var ok, existed := c.GetOrCreateIndex(x, true);
    EnsuredSimple(c.hash, c.shardNum, d, m, c.disk, c.meta, x);
    KnowsNothing(d, u, c.disk, c.unknown, x);
    d, m, u := c.disk, c.meta, c.unknown;
    SimpleShape(d, m, c.left, x);
    var r := c.CreateDocument(x, id, doc, true, true);
    KnowsNothing(d, u, c.disk, c.unknown, x);
    PutSimple(c.hash, c.shardNum, d, m, c.disk, c.meta, x, id, doc);
  }

  /** The index is flushed. */
  method FlushOnce(c: Consumer, x: Name, id: DocId)
    requires Simple(c.disk, c.meta, c.left, x) && x in c.disk && WellFormed(c.disk)
    modifies c`disk, c`touched
    ensures Simple(c.disk, c.meta, c.left, x) && x in c.disk && WellFormed(c.disk) && FullySynced(c.disk, x)
    ensures MappingOf(c.disk, x) == old(MappingOf(c.disk, x))
            && DocAt(ViewOf(c.hash, c.disk), x, id) == old(DocAt(ViewOf(c.hash, c.disk), x, id))
  {
    hide *;
    ghost var d := c.disk;
    c.touched := {x};
    var ok := c.Flush(true);
    SyncedMappings(d, c.disk);
    SyncedView(c.hash, d, c.disk);
    assert x in c.disk;
    SyncedSound(d, c.disk);
    SyncedSimple(d, c.disk, c.meta, c.left, x);
  }

  lemma SyncedSimple(d: Disk, d': Disk, meta: Meta, left: Leftovers, x: Name)
    requires Simple(d, meta, left, x) && x in d && WellFormed(d') && d'.Keys == d.Keys && d'[x].mapping == d[x].mapping
    requires SoundShards(d[x].shards) ==> SoundShards(d'[x].shards)
    ensures Simple(d', meta, left, x) && MappingOf(d', x) == MappingOf(d, x)
  {
  }

  /** A restart finds what was flushed. */
  method RestartOnce(c: Consumer, x: Name, id: DocId)
    requires Simple(c.disk, c.meta, c.left, x) && x in c.disk && WellFormed(c.disk) && FullySynced(c.disk, x)
    requires c.unknown == map[]
    modifies c`disk, c`left, c`unknown, c`touched, c`applied, c`cursor
    ensures WellFormed(c.disk) && c.applied == c.saved
    ensures DocAt(ViewOf(c.hash, c.disk), x, id) == old(DocAt(ViewOf(c.hash, c.disk), x, id))
  {
    hide *;
    ghost var d := c.disk;
    SimpleShape(d, c.meta, c.left, x);
    c.RestartNode(false);
    RestartedShape(d, c.meta, map[], map[], c.disk);
    RestartedSynced(c.hash, d, c.meta, c.disk, x, id);
  }

  lemma RestartedSynced(h: Hash, d: Disk, meta: Meta, d': Disk, x: Name, id: DocId)
    requires Simple(d, meta, map[], x) && x in d && FullySynced(d, x) && Restarted(d, meta, map[], map[], d')
    requires WellFormed(d')
    ensures DocAt(ViewOf(h, d'), x, id) == DocAt(ViewOf(h, d), x, id)
  {
    assert x in d' && RestartedAt(d, meta, map[], map[], d', x);
    forall j: nat | j < |d[x].shards|
      ensures d'[x].shards[j].stored == d[x].shards[j].stored && d'[x].shards[j].wal == d[x].shards[j].wal
    {
      assert ShardCrashed(d[x].shards[j], UnknownAt(map[], x, j), d'[x].shards[j]) && Sound(d[x].shards[j]);
      KeepsAll(d[x].shards[j], d'[x].shards[j]);
    }
    ViewDocAt(h, d, x, id);
    ViewDocAt(h, d', x, id);
  }

  lemma KeepsAll(s: Shard, s': Shard)
    requires Sound(s) && s.synced == |s.wal| && ShardCrashed(s, {}, s')
    ensures s'.stored == s.stored && s'.wal == s.wal
  {
    var keep: int, synced: int, gone: set<DocId> :|
      s.synced <= synced <= keep <= |s.wal| - s.hole && gone <= {} && s' == CrashedTo(s, {}, keep, synced, gone);
    assert s.wal[..keep] == s.wal && s.stored - gone == s.stored;
  }

  // ---------------------------------------------------------------- a rejected document

  /** A document that is rejected for its one field. The field stays mapped in memory, nothing
      stores it, and a restart does not find it. */
  method RejectedFieldRun(hash: Hash, shardNum: nat, x: Name, id: DocId, f: Field, value: Value) returns (c: Consumer)
    requires shardNum > 0 && !Fits(value.Natural(), value)
    ensures fresh(c) && c.stream == [DocMsg(x, id, map[f := value])] && Diverged(c)
  {
    hide *;
    var doc := map[f := value];
    RejectedStream(x, id, f, value, doc, DocMsg(x, id, doc));
    c := new Consumer(hash, shardNum, [DocMsg(x, id, doc)]);
    NoIndexes(c.disk);
    PutSkipped(c, x, DocName(1, id), doc);
    SaveAndRestart(c, 1);
    OneShape(c.disk, x, ApplyAll(map[], 1, c.stream));
    IsDiverged(c, x, "");
  }

  /** Mixed arrays do this. */
  lemma MixedArray(number: string, word: string)
    ensures var value := Value(Scalar(Number, number, {}), [Scalar(Word, word, {})]);
            !Fits(value.Natural(), value)
  {
    var value := Value(Scalar(Number, number, {}), [Scalar(Word, word, {})]);
    assert value.more[0] in value.more;
  }

  lemma RejectedStream(x: Name, id: DocId, f: Field, value: Value, doc: Doc, m: Message)
    requires m == DocMsg(x, id, doc) && doc == map[f := value] && !Fits(value.Natural(), value)
    ensures !Accepts(map[], doc) && CleanRun(map[], StreamOps(1, [m])) && x in ApplyAll(map[], 1, [m])
    ensures ApplyAll(map[], 1, [m])[x].mapping != map[]
  {
    assert !Accepts(map[], doc) by { assert f in doc; }
    assert f in Seen(map[], Naturals(doc), BadFields(map[], doc));
    hide CleanRun, StreamOps, Pos, Exact, Seen, ApplyAll;
    var v := ApplyOp(map[], Ensure(x));
    assert v == map[x := IndexState(map[], map[])];
    TwoOps(m, Ensure(x), Put(x, DocName(1, id), doc));
  }

  method PutSkipped(c: Consumer, x: Name, id: DocId, doc: Doc)
    requires WellFormed(c.disk) && c.disk == map[] && c.meta == map[] && c.left == map[] && c.shardNum > 0
    requires !Accepts(map[], doc)
    modifies c`disk, c`meta, c`unknown, c`left
    ensures WellFormed(c.disk) && MetaFits(c.disk, c.meta, c.left) && c.meta == map[x := map[]]
  {
    hide *;
    ghost var d := c.disk;
    var ok, existed := c.GetOrCreateIndex(x, true);
    DiskStepShape(c.hash, c.shardNum, d, Ensure(x), c.disk);
    d := c.disk;
    var r := c.CreateDocument(x, id, doc, true, true);
    assert r == Skipped && c.meta == map[x := map[]];
    DiskStepShape(c.hash, c.shardNum, d, Put(x, id, doc), c.disk);
    PutKeys(c.hash, c.shardNum, d, x, id, doc, c.disk);
    OneIndex(c.disk, c.meta, x);
  }

  lemma HalfKeys(d: Disk, x: Name, id: DocId, doc: Doc, d': Disk)
    requires x in d && DiskHalf(d, Put(x, id, doc), d')
    ensures d'.Keys == d.Keys
  {
  }

  lemma KnowsNothing(d: Disk, u: Unknown, d': Disk, u': Unknown, x: Name)
    requires Knows(d, u, d', u', x)
    ensures u == map[] ==> u' == map[]
  {
  }

  lemma PutKeys(h: Hash, n: nat, d: Disk, x: Name, id: DocId, doc: Doc, d': Disk)
    requires WellFormed(d) && x in d && DiskStep(h, n, d, Put(x, id, doc), d')
    ensures d'.Keys == d.Keys
  {
  }

  // ---------------------------------------------------------------- what a shard can lose

  /** Index x alone, with one shard. */
  ghost predicate OneShard(c: Consumer, x: Name, s: Shard)
    reads c`disk, c`meta, c`left
  {
    && c.disk == map[x := Index(map[], [s])] && c.meta == map[x := map[]] && c.left == map[]
    && c.shardNum == 1 && GoodShard(s)
  }

  lemma OneShardShape(c: Consumer, x: Name, s: Shard)
    requires OneShard(c, x, s)
    ensures WellFormed(c.disk) && MetaFits(c.disk, c.meta, c.left) && x in c.disk && c.disk[x] == Index(map[], [s])
    ensures forall id :: DocAt(ViewOf(c.hash, c.disk), x, id) == Find(ShardDocs(s), id)
  {
    OneIndex(c.disk, c.meta, x);
    forall id
      ensures DocAt(ViewOf(c.hash, c.disk), x, id) == Find(ShardDocs(s), id)
    {
      ViewDocAt(c.hash, c.disk, x, id);
    }
  }

  function NewShard(): Shard { Shard(map[], [], 0, 0, 0, {}) }

  method CreateOne(c: Consumer, x: Name)
    requires c.disk == map[] && c.meta == map[] && c.left == map[] && c.shardNum == 1
    modifies c`disk, c`meta, c`unknown, c`left
    ensures OneShard(c, x, NewShard()) && c.unknown == old(c.unknown) - UnknownOf(old(c.unknown), x)
  {
    NoIndexes(c.disk);
    var ok, existed := c.GetOrCreateIndex(x, true);
    assert FreshIndex(map[], 1).shards == [NewShard()];
    assert Known(old(c.unknown), x) == old(c.unknown) - UnknownOf(old(c.unknown), x);
  }

  function UnknownOf(u: Unknown, x: Name): set<(Name, nat)> { set k | k in u && k.0 == x }

  /** An empty document reaches the log. */
  method LogEmpty(c: Consumer, x: Name, s: Shard, id: DocId)
    requires OneShard(c, x, s)
    modifies c`disk, c`meta, c`unknown
    ensures OneShard(c, x, Logged(s, id, map[])) && c.unknown == old(c.unknown)
  {
    OneShardShape(c, x, s);
    AcceptsEmpty();
    ghost var d := c.disk;
    var r := c.CreateDocument(x, id, map[], true, true);
    LogsEmpty(c.hash, d, x, s, id, c.disk);
  }

  lemma LogsEmpty(h: Hash, d: Disk, x: Name, s: Shard, id: DocId, d': Disk)
    requires WellFormed(d) && d == map[x := Index(map[], [s])] && DiskStep(h, 1, d, Put(x, id, map[]), d')
    ensures d' == map[x := Index(map[], [Logged(s, id, map[])])]
  {
    AcceptsEmpty();
    assert Appended(h, d[x], id, map[]) == [Logged(s, id, map[])];
    assert d'[x] == Index(map[], [Logged(s, id, map[])]);
  }

  /** All that can be lost is lost. */
  method RestartWorst(c: Consumer, x: Name, s: Shard)
    requires OneShard(c, x, s)
    modifies c`disk, c`left, c`unknown, c`touched, c`applied, c`cursor
    ensures OneShard(c, x, Worst(s, UnknownAt(old(c.unknown), x, 0))) && c.applied == c.saved
    ensures c.unknown == map[]
  {
    OneShardShape(c, x, s);
    ghost var d, u := c.disk, c.unknown;
    c.RestartNode(true);
    assert x in c.disk && RestartedAt(d, c.meta, map[], u, c.disk, x) && WorstAt(d, u, c.disk, x);
    assert c.disk[x].shards == [Worst(s, UnknownAt(u, x, 0))];
  }

  /** Two empty documents. */
  lemma EmptiesStream(x: Name, a: DocId, b: DocId, m: Message, n: Message)
    requires m == DocMsg(x, a, map[]) && n == DocMsg(x, b, map[]) && a != "" && b != ""
    ensures CleanRun(map[], StreamOps(1, [m, n]))
    ensures DocAt(ApplyAll(map[], 1, [m, n]), x, b) == Some(map[])
  {
    AcceptsEmpty();
    hide CleanRun, StreamOps, Pos, Exact, Learn, Accepts;
    TwoMessages(m, n);
    var e, p, r := Ensure(x), Put(x, a, map[]), Put(x, b, map[]);
    var v := ApplyOp(map[], e);
    assert v == map[x := IndexState(map[], map[])];
    var v' := ApplyOp(v, p);
    assert v' == map[x := IndexState(map[], map[a := map[]])];
    Two(v', e, r);
    CleanFirst(v, p, [e, r]);
    CleanFirst(map[], e, [p] + [e, r]);
    ExactFirst(v, p, [e, r]);
    ExactFirst(map[], e, [p] + [e, r]);
    assert OpsOf(1, m) + OpsOf(2, n) == [e] + ([p] + [e, r]);
  }

  method ConsumeOne(c: Consumer, x: Name, s: Shard, r: Round)
    requires OneShard(c, x, s) && Possible(s, r)
    modifies c`disk, c`unknown
    ensures OneShard(c, x, ConsumedTo(s, r.k, r.synced, r.begun))
    ensures c.unknown == Moved(old(c.unknown), x, 0, Ids(s.wal[..r.reached]))
  {
    c.Consume(x, 0, r);
    assert Shifted(Index(map[], [s]), 0, r) == Index(map[], [ConsumedTo(s, r.k, r.synced, r.begun)]);
  }

  /** The node flushes, saves the offset and moves on. */
  method FlushAndSave(c: Consumer, x: Name, s: Shard, n: nat)
    requires OneShard(c, x, s) && n <= |c.stream|
    modifies c`disk, c`touched, c`saved, c`at, c`applied
    ensures OneShard(c, x, s.(synced := |s.wal| - s.hole))
    ensures c.saved == c.applied == n && c.at == Pos(c.stream, n)
  {
    OneShardShape(c, x, s);
    ghost var d := c.disk;
    c.touched := {x};
    var ok := c.Flush(true);
    assert x in c.disk && FullySynced(c.disk, x) && ShardSynced(d[x].shards[0], c.disk[x].shards[0]);
    assert c.disk[x].shards == [s.(synced := |s.wal| - s.hole)];
    ok := c.Save(n, true, true);
    c.applied := n;
  }

  /** What becomes of a shard that gets document a twice, applies both without syncing, loses
      its log, and then gets a again and b. */
  lemma Swallows(a: DocId, b: DocId)
    requires a != b
    ensures var s2, r := Logged(Logged(NewShard(), a, map[]), a, map[]), Round(2, -2, 0, 2, false, false);
            && GoodShard(NewShard()) && GoodShard(s2) && Possible(s2, r)
            && var s4 := Worst(ConsumedTo(s2, 2, -2, 0), {});
               var s6 := Logged(Logged(s4, a, map[]), b, map[]);
               s6 == s4.(hole := 0) && s6.wal == [] && b !in ShardDocs(s6.(synced := 0))
  {
    var s2 := Logged(Logged(NewShard(), a, map[]), a, map[]);
    assert s2.wal == [(a, map[]), (a, map[])] && s2.wal[..2] == s2.wal && s2.wal[2..] == [];
    assert s2.wal[..1] == [(a, map[])] && s2.wal[..1][..0] == [];
    assert Contents(map[], s2.wal[..1]) == map[a := map[]];
    assert Contents(map[], s2.wal) == map[a := map[]];
    var s3 := ConsumedTo(s2, 2, -2, 0);
    assert s3 == Shard(map[a := map[]], [], -2, 0, 0, {});
    assert s3.stored - {} == s3.stored;
    assert Worst(s3, {}) == Shard(map[a := map[]], [], -2, 0, 2, {});
  }

  /** The log consumer's sync fails. The first document is logged, its flush fails, and it is
      logged again; the log consumer, whose sync fails, too, applies both entries. A crash takes
      them from the log. The documents that are applied then get their numbers: the second
      message's document is never found, although flush and save succeed. */
  method SwallowedRun(hash: Hash, x: Name, a: DocId, b: DocId) returns (c: Consumer)
    requires a != "" && b != "" && a != b
    ensures fresh(c) && c.stream == [DocMsg(x, a, map[]), DocMsg(x, b, map[])]
    ensures Diverged(c) && DocAt(ViewOf(c.hash, c.disk), x, b) == None
  {
    hide *;
    EmptiesStream(x, a, b, DocMsg(x, a, map[]), DocMsg(x, b, map[]));
    Swallows(a, b);
    c := new Consumer(hash, 1, [DocMsg(x, a, map[]), DocMsg(x, b, map[])]);
    CreateOne(c, x);
    NothingUnknown(c.unknown, x);
    LoseTwice(c, x, a);
    var s4 := Worst(ConsumedTo(Logged(Logged(NewShard(), a, map[]), a, map[]), 2, -2, 0), {});
    LogEmpty(c, x, s4, a);
    LogEmpty(c, x, Logged(s4, a, map[]), b);
    var s6 := Logged(Logged(s4, a, map[]), b, map[]);
    FlushAndSave(c, x, s6, 2);
    OneShardShape(c, x, s6.(synced := 0));
    NotFound(ShardDocs(s6.(synced := 0)), b);
    IsDiverged(c, x, b);
  }

  /** A document is logged twice and applied without a sync, and the log is lost. */
  method LoseTwice(c: Consumer, x: Name, a: DocId)
    requires OneShard(c, x, NewShard()) && c.unknown == map[]
    requires Possible(Logged(Logged(NewShard(), a, map[]), a, map[]), Round(2, -2, 0, 2, false, false))
    modifies c`disk, c`meta, c`unknown, c`left, c`touched, c`applied, c`cursor
    ensures OneShard(c, x, Worst(ConsumedTo(Logged(Logged(NewShard(), a, map[]), a, map[]), 2, -2, 0), {}))
    ensures c.applied == c.saved && c.unknown == map[]
  {
    hide *;
    LogEmpty(c, x, NewShard(), a);
    LogEmpty(c, x, Logged(NewShard(), a, map[]), a);
    var s2 := Logged(Logged(NewShard(), a, map[]), a, map[]);
    ConsumeOne(c, x, s2, Round(2, -2, 0, 2, false, false));
    NothingUnknown(c.unknown, x);
    NothingUnknown(map[], x);
    MayBeConsumed(s2, Round(2, -2, 0, 2, false, false));
    RestartWorst(c, x, ConsumedTo(s2, 2, -2, 0));
  }

  lemma MayBeConsumed(s: Shard, r: Round)
    requires Possible(s, r)
    ensures MayConsume(s, r.k, r.synced, r.begun)
  {
  }

  lemma NothingUnknown(u: Unknown, x: Name)
    ensures u == map[] ==> UnknownAt(u, x, 0) == {} && forall ids :: Moved(u, x, 0, ids) == map[]
  {
  }

  lemma NotFound(m: map<DocId, Doc>, id: DocId)
    requires id !in m
    ensures Find(m, id) == None
  {
  }

  /** A new second-level shard is started, and the metadata cannot be stored, then or later. The
      second document goes to that shard; the log is synced and the offset saved. A restart
      does not know the shard. */
  method UnknownShardRun(hash: Hash, x: Name, a: DocId, b: DocId) returns (c: Consumer)
    requires a != "" && b != "" && a != b
    ensures fresh(c) && c.stream == [DocMsg(x, a, map[]), DocMsg(x, b, map[])]
    ensures Diverged(c) && DocAt(ViewOf(c.hash, c.disk), x, b) == None
  {
    hide *;
    EmptiesStream(x, a, b, DocMsg(x, a, map[]), DocMsg(x, b, map[]));
    c := new Consumer(hash, 1, [DocMsg(x, a, map[]), DocMsg(x, b, map[])]);
    FillTwo(c, x, a, b);
    var s4 := Holding(map[a := map[]][b := map[]]);
    SaveAndLose(c, x, s4, {b}, 2);
    Vanishes(a, b);
    var s5 := Worst(s4.(synced := |s4.wal| - s4.hole), {b});
    OneShardShape(c, x, s5);
    NotFound(ShardDocs(s5), b);
    IsDiverged(c, x, b);
  }

  /** Two documents, the second of which goes to a second-level shard that is not stored. */
  method FillTwo(c: Consumer, x: Name, a: DocId, b: DocId)
    requires c.disk == map[] && c.meta == map[] && c.left == map[] && c.unknown == map[] && c.shardNum == 1
    modifies c`disk, c`meta, c`unknown, c`left
    ensures OneShard(c, x, Holding(map[a := map[]][b := map[]])) && UnknownAt(c.unknown, x, 0) == {b}
  {
    hide *;
    CreateOne(c, x);
    NothingUnknown(c.unknown, x);
    ConsumesFirst(map[], a);
    LogAndConsume(c, x, Holding(map[]), a, Round(1, 0, 0, 1, false, false));
    NothingUnknown(c.unknown, x);
    c.Grow(x, 0);
    ConsumesFirst(map[a := map[]], b);
    LogAndConsume(c, x, Holding(map[a := map[]]), b, Round(1, 0, 0, 1, false, false));
    OnlyUnknown(x, b);
  }

  /** A shard with some documents and an empty log. */
  function Holding(docs: map<DocId, Doc>): Shard { Shard(docs, [], 0, 0, 0, {}) }

  lemma ConsumesFirst(docs: map<DocId, Doc>, id: DocId)
    ensures NewShard() == Holding(map[])
    ensures var s, r := Logged(Holding(docs), id, map[]), Round(1, 0, 0, 1, false, false);
            && Possible(s, r) && MayConsume(s, r.k, r.synced, r.begun) && r.reached <= |s.wal|
            && ConsumedTo(s, 1, 0, 0) == Holding(docs[id := map[]]) && Ids(s.wal[..1]) == {id}
  {
    var s := Logged(Holding(docs), id, map[]);
    assert s.wal == [(id, map[])] && s.wal[..1] == s.wal && s.wal[1..] == [] && s.wal[..0] == [];
    assert Contents(docs, s.wal) == docs[id := map[]];
    assert Ids(s.wal) == {id} by { assert s.wal[0].0 == id; }
  }

  lemma OnlyUnknown(x: Name, b: DocId)
    ensures UnknownAt(map[], x, 0) == {}
    ensures UnknownAt(Moved(map[(x, 0) := {}], x, 0, {b}), x, 0) == {b}
  {
  }

  lemma Vanishes(a: DocId, b: DocId)
    requires a != b
    ensures var s4 := Holding(map[a := map[]][b := map[]]);
            b !in ShardDocs(Worst(s4.(synced := |s4.wal| - s4.hole), {b}))
  {
  }

  method SaveAndLose(c: Consumer, x: Name, s: Shard, ids: set<DocId>, n: nat)
    requires OneShard(c, x, s) && n <= |c.stream| && UnknownAt(c.unknown, x, 0) == ids
    modifies c`disk, c`touched, c`saved, c`at, c`applied, c`left, c`unknown, c`cursor
    ensures OneShard(c, x, Worst(s.(synced := |s.wal| - s.hole), ids))
    ensures c.saved == c.applied == n && c.at == Pos(c.stream, n)
  {
    hide *;
    FlushAndSave(c, x, s, n);
    RestartWorst(c, x, s.(synced := |s.wal| - s.hole));
  }

  method LogAndConsume(c: Consumer, x: Name, s: Shard, id: DocId, r: Round)
    requires OneShard(c, x, s) && Possible(Logged(s, id, map[]), r)
    modifies c`disk, c`meta, c`unknown
    ensures OneShard(c, x, ConsumedTo(Logged(s, id, map[]), r.k, r.synced, r.begun))
    ensures c.unknown == Moved(old(c.unknown), x, 0, Ids(Logged(s, id, map[]).wal[..r.reached]))
  {
    hide *;
    LogEmpty(c, x, s, id);
    ConsumeOne(c, x, Logged(s, id, map[]), r);
  }
}
