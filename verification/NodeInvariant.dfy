/** What a consuming node (pkg/streaming/consumer.go, pkg/streaming/apply.go) keeps at all times,
    on values: its indexes in memory, its logs, and its stored metadata, relative to the
    operations of the stream. */
module NodeInvariant {
  import opened Wrappers
  import opened Replication
  import opened NodeDisk

  // ---------------------------------------------------------------- the invariant, on values

  /** Every log entry of index x that a crash may still take is one that operations a..q store again. */
  ghost predicate TailRepeats(ops: seq<Op>, d: Disk, x: Name, a: nat, q: nat)
    requires x in d && a <= q <= |ops|
  {
    forall j, k: nat | 0 <= j < |d[x].shards| && d[x].shards[j].synced <= k < |d[x].shards[j].wal| ::
      Stored(map[], ops, x, d[x].shards[j].wal[k].0, a, q)
  }

  /** Every index is sound, unless operations p..q delete it. */
  predicate SoundAll(ops: seq<Op>, d: Disk, p: nat, q: nat)
    requires p <= q <= |ops|
  {
    forall x | x in d && NoDrop(ops, x, p, q) :: SoundShards(d[x].shards)
  }

  ghost predicate Recoverable(ops: seq<Op>, d: Disk, exempt: set<Name>, a: nat, q: nat)
    requires a <= q <= |ops|
  {
    forall x | x in d && x !in exempt && NoDrop(ops, x, a, q) :: TailRepeats(ops, d, x, a, q)
  }

  /** A node whose saved offset stands at position s, that completed the messages up to
      position b since it last started there, performed the operations up to p, and at some
      time attempted operations up to q. */
  ghost predicate Holds(h: Hash, ops: seq<Op>, d: Disk, touched: set<Name>, s: nat, b: nat, p: nat, q: nat) {
    && s <= b <= p <= q <= |ops|
    && WellFormed(d)
    && CleanRun(map[], ops)
    && Between(map[], ops, ViewOf(h, d), p, q)
    && SoundAll(ops, d, p, q)
    && Recoverable(ops, d, {}, s, q)
    && Recoverable(ops, d, touched, b, q)
  }

  lemma RecoverableWiden(ops: seq<Op>, d: Disk, exempt: set<Name>, a: nat, q: nat, q': nat)
    requires a <= q <= q' <= |ops| && Recoverable(ops, d, exempt, a, q)
    ensures Recoverable(ops, d, exempt, a, q')
  {
    forall x | x in d && x !in exempt && NoDrop(ops, x, a, q')
      ensures TailRepeats(ops, d, x, a, q')
    {
      assert NoDrop(ops, x, a, q);
      assert TailRepeats(ops, d, x, a, q);
    }
  }

  lemma HoldsWiden(h: Hash, ops: seq<Op>, d: Disk, touched: set<Name>, s: nat, b: nat, p: nat, q: nat, q': nat)
    requires Holds(h, ops, d, touched, s, b, p, q) && q <= q' <= |ops|
    ensures Holds(h, ops, d, touched, s, b, p, q')
  {
    Widen(map[], ops, ViewOf(h, d), p, q, q');
    SoundWiden(ops, d, p, q, q');
    RecoverableWiden(ops, d, {}, s, q, q');
    RecoverableWiden(ops, d, touched, b, q, q');
  }

  lemma SoundWiden(ops: seq<Op>, d: Disk, p: nat, q: nat, q': nat)
    requires p <= q <= q' <= |ops| && SoundAll(ops, d, p, q)
    ensures SoundAll(ops, d, p, q')
  {
    forall x | x in d && NoDrop(ops, x, p, q')
      ensures SoundShards(d[x].shards)
    {
      assert NoDrop(ops, x, p, q);
    }
  }

  lemma SoundBack(ops: seq<Op>, d: Disk, n: nat, p: nat, q: nat)
    requires n <= p <= q <= |ops| && SoundAll(ops, d, p, q)
    ensures SoundAll(ops, d, n, q)
  {
    forall x | x in d && NoDrop(ops, x, n, q)
      ensures SoundShards(d[x].shards)
    {
      assert NoDrop(ops, x, p, q);
    }
  }

  lemma SoundStep(h: Hash, n: nat, ops: seq<Op>, d: Disk, d': Disk, p: nat, q: nat)
    requires p < q <= |ops| && WellFormed(d) && n > 0 && SoundAll(ops, d, p, q) && DiskStep(h, n, d, ops[p], d')
    ensures SoundAll(ops, d', p + 1, q)
  {
    var p' := p + 1;
    DiskStepShape(h, n, d, ops[p], d');
    forall x | x in d' && NoDrop(ops, x, p', q)
      ensures SoundShards(d'[x].shards)
    {
      DropForgets(h, n, d, ops[p], d', x);
      hide DiskStep, SoundShards, WellFormed;
      assert NoDrop(ops, x, p, q);
    }
  }

  lemma SameSound(ops: seq<Op>, d: Disk, d': Disk, p: nat, q: nat)
    requires p <= q <= |ops| && SoundAll(ops, d, p, q)
    requires forall x | x in d' :: x in d && (SoundShards(d[x].shards) ==> SoundShards(d'[x].shards))
    ensures SoundAll(ops, d', p, q)
  {
  }

  /** One operation leaves the tails of the logs repeatable. */
  lemma RecoverableStep(h: Hash, n: nat, ops: seq<Op>, d: Disk, d': Disk, exempt: set<Name>, a: nat, p: nat, q: nat)
    requires a <= p < q <= |ops| && n > 0 && WellFormed(d) && CleanRun(map[], ops)
    requires Between(map[], ops, ViewOf(h, d), p, q) && Recoverable(ops, d, exempt, a, q)
    requires DiskStep(h, n, d, ops[p], d')
    ensures Recoverable(ops, d', exempt, a, q)
  {
    forall x | x in d' && x !in exempt && NoDrop(ops, x, a, q)
      ensures TailRepeats(ops, d', x, a, q)
    {
      var op := ops[p];
      if x in d {
        assert TailRepeats(ops, d, x, a, q);
        if op.Put? && op.index == x && Accepts(d[x].mapping, op.doc) {
          PutIsStored(h, ops, d, a, p, q);
          AppendRepeats(h, ops, d, d', a, p, q);
        } else {
          assert d'[x].shards == d[x].shards;
        }
      }
    }
  }

  lemma PutIsStored(h: Hash, ops: seq<Op>, d: Disk, a: nat, p: nat, q: nat)
    requires a <= p < q <= |ops| && WellFormed(d) && CleanRun(map[], ops)
    requires Between(map[], ops, ViewOf(h, d), p, q)
    requires ops[p].Put? && ops[p].index in d && Accepts(d[ops[p].index].mapping, ops[p].doc)
    requires NoDrop(ops, ops[p].index, a, q)
    ensures Stored(map[], ops, ops[p].index, ops[p].id, a, q)
  {
    var x := ops[p].index;
    assert NoDrop(ops, x, p, q);
    assert BetweenAt(map[], ops, ViewOf(h, d), p, q, x);
    assert Clean(At(map[], ops, p), ops[p]);
    PutAccepted(map[], ops, ViewOf(h, d), p, q, x);
    assert Stores(map[], ops, p, x, ops[p].id);
  }

  lemma AppendRepeats(h: Hash, ops: seq<Op>, d: Disk, d': Disk, a: nat, p: nat, q: nat)
    requires a <= p < q <= |ops| && WellFormed(d) && ops[p].Put? && ops[p].index in d
    requires TailRepeats(ops, d, ops[p].index, a, q)
    requires Stored(map[], ops, ops[p].index, ops[p].id, a, q)
    requires ops[p].index in d' && d'[ops[p].index].shards == Appended(h, d[ops[p].index], ops[p].id, ops[p].doc)
    ensures TailRepeats(ops, d', ops[p].index, a, q)
  {
    var x := ops[p].index;
    forall j, k: nat | 0 <= j < |d'[x].shards| && d'[x].shards[j].synced <= k < |d'[x].shards[j].wal|
      ensures Stored(map[], ops, x, d'[x].shards[j].wal[k].0, a, q)
    {
      if k < |d[x].shards[j].wal| {
        assert d'[x].shards[j].wal[k] == d[x].shards[j].wal[k];
      }
    }
  }

  lemma StepHolds(h: Hash, n: nat, ops: seq<Op>, d: Disk, d': Disk, touched: set<Name>, s: nat, b: nat, p: nat, q: nat)
    requires Holds(h, ops, d, touched, s, b, p, q) && p < |ops| && n > 0
    requires DiskStep(h, n, d, ops[p], d')
    ensures Holds(h, ops, d', touched, s, b, p + 1, Max(q, p + 1))
  {
    var q' := Max(q, p + 1);
    HoldsWiden(h, ops, d, touched, s, b, p, q, q');
    StepMoves(h, n, ops, d, d', p, q');
    RecoverableStep(h, n, ops, d, d', {}, s, p, q');
    RecoverableStep(h, n, ops, d, d', touched, b, p, q');
  }

  lemma StepMoves(h: Hash, n: nat, ops: seq<Op>, d: Disk, d': Disk, p: nat, q: nat)
    requires CleanRun(map[], ops) && p < q <= |ops| && n > 0 && WellFormed(d)
    requires Between(map[], ops, ViewOf(h, d), p, q) && SoundAll(ops, d, p, q) && DiskStep(h, n, d, ops[p], d')
    ensures WellFormed(d') && Between(map[], ops, ViewOf(h, d'), p + 1, q) && SoundAll(ops, d', p + 1, q)
  {
    var x := ops[p].index;
    SoundStep(h, n, ops, d, d', p, q);
    DiskStepShape(h, n, d, ops[p], d');
    if ops[p].Put? && x in d && !SoundShards(d[x].shards) {
      hide DiskStep, CleanRun, Between, SoundShards;
      assert !NoDrop(ops, x, p, q);
      SkipBetween(map[], ops, ViewOf(h, d), ViewOf(h, d'), p, q);
    } else {
      DiskStepIsStep(h, n, d, ops[p], d');
      hide DiskStep, CleanRun, Between, SoundShards;
      StepBetween(map[], ops, ViewOf(h, d), ViewOf(h, d'), p, q);
    }
  }

  lemma HalfHolds(h: Hash, ops: seq<Op>, d: Disk, d': Disk, touched: set<Name>, s: nat, b: nat, p: nat, q: nat)
    requires Holds(h, ops, d, touched, s, b, p, q) && p < |ops|
    requires DiskHalf(d, ops[p], d')
    ensures Holds(h, ops, d', touched, s, b, p, Max(q, p + 1))
  {
    var q' := Max(q, p + 1);
    HoldsWiden(h, ops, d, touched, s, b, p, q, q');
    HalfMoves(h, ops, d, d', p, q');
    hide DiskHalf, Between, CleanRun, WellFormed, TailRepeats, SoundShards;
    SameTails(ops, d, d', {}, s, q');
    SameTails(ops, d, d', touched, b, q');
  }

  lemma HalfMoves(h: Hash, ops: seq<Op>, d: Disk, d': Disk, p: nat, q: nat)
    requires CleanRun(map[], ops) && p < q <= |ops| && WellFormed(d)
    requires Between(map[], ops, ViewOf(h, d), p, q) && SoundAll(ops, d, p, q) && DiskHalf(d, ops[p], d')
    ensures WellFormed(d') && Between(map[], ops, ViewOf(h, d'), p, q) && SoundAll(ops, d', p, q)
    ensures forall y | y in d' :: y in d && d'[y].shards == d[y].shards
  {
    DiskHalfIsHalf(h, d, ops[p], d');
    HalfShards(d, ops[p], d');
    hide DiskHalf, CleanRun, Between, SoundShards;
    HalfBetween(map[], ops, ViewOf(h, d), ViewOf(h, d'), p, q);
    SameSound(ops, d, d', p, q);
  }

  lemma SameTails(ops: seq<Op>, d: Disk, d': Disk, exempt: set<Name>, a: nat, q: nat)
    requires a <= q <= |ops| && Recoverable(ops, d, exempt, a, q)
    requires forall x | x in d' :: x in d && d'[x].shards == d[x].shards
    ensures Recoverable(ops, d', exempt, a, q)
  {
    forall x | x in d' && x !in exempt && NoDrop(ops, x, a, q)
      ensures TailRepeats(ops, d', x, a, q)
    {
      assert TailRepeats(ops, d, x, a, q);
    }
  }

  /** Giving up in the middle of a message: its operations count as not performed. */
  lemma BackHolds(h: Hash, ops: seq<Op>, d: Disk, touched: set<Name>, s: nat, b: nat, p: nat, q: nat)
    requires Holds(h, ops, d, touched, s, b, p, q)
    ensures Holds(h, ops, d, touched, s, b, b, q)
  {
    Lower(map[], ops, ViewOf(h, d), b, p, q);
    SoundBack(ops, d, b, p, q);
  }

  lemma HoldsShape(h: Hash, ops: seq<Op>, d: Disk, touched: set<Name>, s: nat, b: nat, p: nat, q: nat)
    requires Holds(h, ops, d, touched, s, b, p, q)
    ensures s <= b <= p <= q <= |ops| && WellFormed(d)
  {
  }

  lemma StandsBetween(h: Hash, ops: seq<Op>, d: Disk, touched: set<Name>, s: nat, q: nat)
    requires Holds(h, ops, d, touched, s, s, s, q)
    ensures s <= q <= |ops| && WellFormed(d) && CleanRun(map[], ops) && Between(map[], ops, ViewOf(h, d), s, q)
  {
  }

  /** Nothing that operations b..p store on an index is missing from the touched set. */
  ghost predicate Noted(ops: seq<Op>, d: Disk, touched: set<Name>, b: nat, p: nat, q: nat)
    requires b <= p <= q <= |ops|
  {
    forall x | x in d && x !in touched && NoDrop(ops, x, p, q) ::
      NoDrop(ops, x, b, p) && forall i: nat, id | b <= i < p :: !Stores(map[], ops, i, x, id)
  }

  /** Completing a message. */
  lemma DoneHolds(h: Hash, ops: seq<Op>, d: Disk, touched: set<Name>, touched': set<Name>, s: nat, b: nat, p: nat,
                  q: nat)
    requires Holds(h, ops, d, touched, s, b, p, q)
    requires touched <= touched' && Noted(ops, d, touched', b, p, q)
    ensures Holds(h, ops, d, touched', s, p, p, q)
  {
    forall x | x in d && x !in touched' && NoDrop(ops, x, p, q)
      ensures TailRepeats(ops, d, x, p, q)
    {
      assert NoDrop(ops, x, b, p);
      assert NoDrop(ops, x, b, q) by {
        forall i | b <= i < q ensures ops[i] != Drop(x) { if i < p {} }
      }
      assert TailRepeats(ops, d, x, b, q);
      forall j, k: nat | 0 <= j < |d[x].shards| && d[x].shards[j].synced <= k < |d[x].shards[j].wal|
        ensures Stored(map[], ops, x, d[x].shards[j].wal[k].0, p, q)
      {
        var id := d[x].shards[j].wal[k].0;
        var i: nat :| b <= i < q && Stores(map[], ops, i, x, id);
        assert !(b <= i < p);
      }
    }
  }

  /** After a flush that synced every touched index the offset may move to p. */
  lemma FlushHolds(h: Hash, ops: seq<Op>, d: Disk, d': Disk, touched: set<Name>, s: nat, p: nat, q: nat)
    requires Holds(h, ops, d, touched, s, p, p, q)
    requires Synced(d, d') && forall x | x in touched && x in d :: FullySynced(d', x)
    ensures Holds(h, ops, d', {}, s, p, p, q) && Holds(h, ops, d', {}, p, p, p, q)
  {
    SyncHolds(h, ops, d, d', touched, s, p, p, q);
    SyncedView(h, d, d');
    SyncedSound(d, d');
    SameSound(ops, d, d', p, q);
    forall x | x in d' && NoDrop(ops, x, p, q)
      ensures TailRepeats(ops, d', x, p, q)
    {
      if x in touched {
        assert FullySynced(d', x);
      } else {
        assert TailRepeats(ops, d, x, p, q);
      }
    }
  }

  /** With nothing touched since the last flush, the offset may move. */
  lemma SaveHolds(h: Hash, ops: seq<Op>, d: Disk, s: nat, p: nat, q: nat)
    requires Holds(h, ops, d, {}, s, p, p, q)
    ensures Holds(h, ops, d, {}, p, p, p, q)
  {
  }

  /** A flush that failed somewhere: the node goes back to its saved offset. */
  lemma SyncHolds(h: Hash, ops: seq<Op>, d: Disk, d': Disk, touched: set<Name>, s: nat, b: nat, p: nat, q: nat)
    requires Holds(h, ops, d, touched, s, b, p, q) && Synced(d, d')
    ensures Holds(h, ops, d', {}, s, s, s, q)
  {
    SyncedView(h, d, d');
    Lower(map[], ops, ViewOf(h, d'), s, p, q);
    SyncedSound(d, d');
    SoundBack(ops, d, s, p, q);
    SameSound(ops, d, d', s, q);
    forall x | x in d' && NoDrop(ops, x, s, q)
      ensures TailRepeats(ops, d', x, s, q)
    {
      assert TailRepeats(ops, d, x, s, q);
    }
  }

  // ---------------------------------------------------------------- the stored metadata

  /** The stored metadata has every definition that the first s operations make, and no more
      than the first q make; indexes that are deleted on the way do not matter. In other words,
      no change of a mapping and no deletion by the first s operations is missing from it. */
  ghost predicate MetaLasts(ops: seq<Op>, meta: Meta, s: nat, q: nat) {
    s <= q <= |ops| && forall x | NoDrop(ops, x, s, q) :: ShapeAt(map[], ops, Find(meta, x), s, q, x)
  }

  /** What is left of a forgotten index is sound, and only has documents that operations s..q store. */
  ghost predicate LeftLasts(h: Hash, ops: seq<Op>, left: Leftovers, s: nat, q: nat) {
    && s <= q <= |ops|
    && (forall x | x in left && NoDrop(ops, x, s, q) :: SoundShards(left[x]))
    && forall x, id | x in left && left[x] != [] && NoDrop(ops, x, s, q) && id in IndexDocs(h, Index(map[], left[x])) ::
         Stored(map[], ops, x, id, s, q)
  }

  ghost predicate Lasting(h: Hash, ops: seq<Op>, meta: Meta, left: Leftovers, s: nat, q: nat) {
    MetaLasts(ops, meta, s, q) && LeftLasts(h, ops, left, s, q)
  }

  /** The same, as something that can be checked: only indexes that the metadata or the first s
      operations know need a look. */
  predicate CheckLasting(h: Hash, ops: seq<Op>, meta: Meta, left: Leftovers, s: nat, q: nat) {
    && s <= q <= |ops|
    && (forall x | x in meta.Keys + At(map[], ops, s).Keys ::
          NoDrop(ops, x, s, q) ==> ShapeAt(map[], ops, Find(meta, x), s, q, x))
    && forall x | x in left && left[x] != [] && NoDrop(ops, x, s, q) ::
         SoundShards(left[x]) && forall id | id in IndexDocs(h, Index(map[], left[x])) ::
           Stored(map[], ops, x, id, s, q)
  }

  lemma CheckIsLasting(h: Hash, ops: seq<Op>, meta: Meta, left: Leftovers, s: nat, q: nat)
    ensures CheckLasting(h, ops, meta, left, s, q) <==> Lasting(h, ops, meta, left, s, q)
  {
    if CheckLasting(h, ops, meta, left, s, q) {
      forall x | NoDrop(ops, x, s, q)
        ensures ShapeAt(map[], ops, Find(meta, x), s, q, x)
      {
        if x !in meta && x !in At(map[], ops, s) { assert Find(meta, x) == None; }
      }
    }
  }

  /** No crash can do harm to the shards of an index that operations s..q do not delete. */
  predicate SafeAll(ops: seq<Op>, d: Disk, u: Unknown, s: nat, q: nat) {
    && s <= q <= |ops|
    && forall x | x in d && NoDrop(ops, x, s, q) :: SafeShards(d[x].shards, u, x)
  }

  predicate SafeShards(shards: seq<Shard>, u: Unknown, x: Name) {
    forall j: nat | j < |shards| :: Safe(shards[j], UnknownAt(u, x, j))
  }

  /** The node: its indexes in memory and its logs as above, and the stored metadata. */
  ghost predicate Node(h: Hash, ops: seq<Op>, d: Disk, meta: Meta, left: Leftovers, touched: set<Name>,
                       s: nat, b: nat, p: nat, q: nat) {
    Holds(h, ops, d, touched, s, b, p, q) && MetaFits(d, meta, left)
  }

  lemma LastingWiden(h: Hash, ops: seq<Op>, meta: Meta, left: Leftovers, s: nat, q: nat, q': nat)
    requires Lasting(h, ops, meta, left, s, q) && q <= q' <= |ops|
    ensures Lasting(h, ops, meta, left, s, q')
  {
    forall x | NoDrop(ops, x, s, q')
      ensures ShapeAt(map[], ops, Find(meta, x), s, q', x)
    {
      assert NoDrop(ops, x, s, q);
      ShapeWiden(map[], ops, Find(meta, x), s, q, q', x);
    }
    forall x, id | x in left && left[x] != [] && NoDrop(ops, x, s, q') && id in IndexDocs(h, Index(map[], left[x]))
      ensures Stored(map[], ops, x, id, s, q')
    {
      assert NoDrop(ops, x, s, q);
      assert Stored(map[], ops, x, id, s, q);
    }
  }

  /** An index as it is in memory is as the metadata should be. */
  lemma MemoryShape(h: Hash, ops: seq<Op>, d: Disk, touched: set<Name>, s: nat, b: nat, p: nat, q: nat, x: Name)
    requires Holds(h, ops, d, touched, s, b, p, q) && NoDrop(ops, x, s, q)
    ensures ShapeAt(map[], ops, Find(MetaOf(d), x), s, q, x)
    ensures x in At(map[], ops, s) ==> x in d
  {
    Lower(map[], ops, ViewOf(h, d), s, p, q);
    assert BetweenAt(map[], ops, ViewOf(h, d), s, q, x);
    assert ShapeOf(ViewOf(h, d), x) == Find(MetaOf(d), x);
    hide Holds, Between;
  }

  /** What one operation on index x does to the stored metadata: nothing, while x stays in
      memory or stays out of it; it stores what memory has; or it is a deletion, done or not. */
  ghost predicate StoreStep(d: Disk, meta: Meta, left: Leftovers, d': Disk, meta': Meta, left': Leftovers, x: Name) {
    || (meta' == meta && left' == left && (x in d <==> x in d'))
    || (x in d' && meta' == meta[x := d'[x].mapping] && left' == left - {x})
    || (x !in d' && x in d && meta' == meta - {x} && left' == left - {x})
    || (&& x !in d' && x in d && meta' == meta && x in left' && left' == left[x := left'[x]]
        && GoodIndex(Index(map[], left'[x])) && AllSynced(left'[x]))
  }

  /** d' differs from d in index x only, and a mapping there only grows. */
  ghost predicate OnlyIndex(d: Disk, d': Disk, x: Name) {
    && d'.Keys + {x} == d.Keys + {x}
    && (forall y | y in d && y != x :: d'[y] == d[y])
    && (x in d && x in d' ==> Sub(d[x].mapping, d'[x].mapping))
  }

  lemma StepIsLocal(h: Hash, n: nat, d: Disk, op: Op, d': Disk)
    requires WellFormed(d)
    ensures DiskStep(h, n, d, op, d') ==> OnlyIndex(d, d', op.index)
    ensures DiskHalf(d, op, d') ==> OnlyIndex(d, d', op.index)
  {
    hide GoodIndex, Accepts, Agrees, Learn, Merged, LeftBehind, Sub, Appended;
    var x := op.index;
    if x in d {
      var m := d[x].mapping;
      SubSame(m);
      if op.Put? { LearnGrows(m, op.doc); }
      if op.Extend? { MergedGrows(m, op.fields); }
      if x in d' {
        if op.Put? { LeftGrows(m, Naturals(op.doc), BadFields(m, op.doc), d'[x].mapping); }
        if op.Extend? { LeftGrows(m, op.fields, Conflicts(m, op.fields), d'[x].mapping); }
      }
    }
  }

  lemma LearnGrows(m: Mapping, doc: Doc)
    ensures Sub(m, Learn(m, doc))
  {
  }

  lemma MergedGrows(m: Mapping, fields: Mapping)
    ensures Sub(m, Merged(m, fields))
  {
  }

  lemma LeftGrows(m: Mapping, defs: Mapping, bad: set<Field>, m': Mapping)
    ensures LeftBehind(m, defs, bad, m') ==> Sub(m, m')
  {
  }

  lemma StoreFits(d: Disk, meta: Meta, left: Leftovers, d': Disk, meta': Meta, left': Leftovers, x: Name)
    requires MetaFits(d, meta, left) && OnlyIndex(d, d', x) && StoreStep(d, meta, left, d', meta', left', x)
    ensures MetaFits(d', meta', left')
  {
    hide GoodIndex, AllSynced, Sub;
    assert left'.Keys == meta'.Keys - d'.Keys;
    forall y | y in d'
      ensures y in meta' && Sub(meta'[y], d'[y].mapping)
    {
      if y == x && x in d && meta' == meta {
        SubTrans(meta[x], d[x].mapping, d'[x].mapping);
      } else if y == x {
        SubSame(d'[x].mapping);
      }
    }
  }

  lemma SubSame(m: Mapping)
    ensures Sub(m, m)
  {
  }

  /** No operation after the saved offset takes anything back that the metadata must have. */
  lemma StoreLasts(h: Hash, ops: seq<Op>, d: Disk, meta: Meta, left: Leftovers, d': Disk, meta': Meta, left': Leftovers,
                   touched: set<Name>, s: nat, b: nat, p: nat, q: nat, x: Name)
    requires Lasting(h, ops, meta, left, s, q) && Holds(h, ops, d', touched, s, b, p, q)
    requires StoreStep(d, meta, left, d', meta', left', x)
    requires x in d && x !in d' ==> !NoDrop(ops, x, s, q)
    ensures Lasting(h, ops, meta', left', s, q)
  {
    hide Holds;
    forall y | NoDrop(ops, y, s, q)
      ensures ShapeAt(map[], ops, Find(meta', y), s, q, y)
    {
      assert ShapeAt(map[], ops, Find(meta, y), s, q, y);
      if y == x && meta' != meta {
        MemoryShape(h, ops, d', touched, s, b, p, q, x);
        assert Find(meta', x) == Find(MetaOf(d'), x);
      } else {
        assert Find(meta', y) == Find(meta, y);
      }
      hide ShapeAt;
    }
    forall y, id | y in left' && left'[y] != [] && NoDrop(ops, y, s, q) && id in IndexDocs(h, Index(map[], left'[y]))
      ensures Stored(map[], ops, y, id, s, q)
    {
      assert y in left && left'[y] == left[y];
    }
  }

  lemma NodeStep(h: Hash, n: nat, ops: seq<Op>, d: Disk, meta: Meta, left: Leftovers, d': Disk, meta': Meta,
                 left': Leftovers,
                 touched: set<Name>, s: nat, b: nat, p: nat, q: nat)
    requires Node(h, ops, d, meta, left, touched, s, b, p, q) && p < |ops| && n > 0
    requires DiskStep(h, n, d, ops[p], d') && StoreStep(d, meta, left, d', meta', left', ops[p].index)
    ensures var q' := Max(q, p + 1);
            && Node(h, ops, d', meta', left', touched, s, b, p + 1, q')
            && (Lasting(h, ops, meta, left, s, q) ==> Lasting(h, ops, meta', left', s, q'))
  {
    hide Lasting, MetaFits, StoreStep;
    var x, q' := ops[p].index, Max(q, p + 1);
    HoldsShape(h, ops, d, touched, s, b, p, q);
    StepHolds(h, n, ops, d, d', touched, s, b, p, q);
    StepIsLocal(h, n, d, ops[p], d');
    StoreFits(d, meta, left, d', meta', left', x);
    assert x in d && x !in d' ==> ops[p] == Drop(x);
    hide Holds, DiskStep;
    if Lasting(h, ops, meta, left, s, q) {
      LastingWiden(h, ops, meta, left, s, q, q');
      StoreLasts(h, ops, d, meta, left, d', meta', left', touched, s, b, p + 1, q', x);
    }
  }

  lemma NodeHalf(h: Hash, ops: seq<Op>, d: Disk, meta: Meta, left: Leftovers, d': Disk, meta': Meta, left': Leftovers,
                 touched: set<Name>, s: nat, b: nat, p: nat, q: nat)
    requires Node(h, ops, d, meta, left, touched, s, b, p, q) && p < |ops|
    requires DiskHalf(d, ops[p], d') && StoreStep(d, meta, left, d', meta', left', ops[p].index)
    ensures var q' := Max(q, p + 1);
            && Node(h, ops, d', meta', left', touched, s, b, p, q')
            && (Lasting(h, ops, meta, left, s, q) ==> Lasting(h, ops, meta', left', s, q'))
  {
    hide Lasting, MetaFits, StoreStep;
    var x, q' := ops[p].index, Max(q, p + 1);
    HoldsShape(h, ops, d, touched, s, b, p, q);
    HalfHolds(h, ops, d, d', touched, s, b, p, q);
    StepIsLocal(h, 1, d, ops[p], d');
    StoreFits(d, meta, left, d', meta', left', x);
    assert x in d && x !in d' ==> ops[p] == Drop(x);
    hide Holds, DiskHalf;
    if Lasting(h, ops, meta, left, s, q) {
      LastingWiden(h, ops, meta, left, s, q, q');
      StoreLasts(h, ops, d, meta, left, d', meta', left', touched, s, b, p, q', x);
    }
  }

  // ---------------------------------------------------------------- crashes

  /** A crash takes any unsynced tail of each log, and what memory had and the metadata has
      not. The restarted node is one that stands at its saved offset, exactly when the stored
      metadata lasts and every shard came out sound. */
  lemma CrashHolds(h: Hash, ops: seq<Op>, d: Disk, meta: Meta, left: Leftovers, u: Unknown, d': Disk,
                   touched: set<Name>, s: nat, b: nat, p: nat, q: nat)
    requires Node(h, ops, d, meta, left, touched, s, b, p, q) && Restarted(d, meta, left, u, d')
    ensures WellFormed(d')
    ensures Holds(h, ops, d', {}, s, s, s, q) <==> Lasting(h, ops, meta, left, s, q) && SoundAll(ops, d', s, q)
  {
    RestartedShape(d, meta, left, u, d');
    hide Holds, Lasting, SoundAll, MetaFits;
    RestartHolds(h, ops, d, meta, left, u, d', touched, s, b, p, q);
  }

  /** The same, where an index that will be deleted may be found in any state. */
  lemma RestartHolds(h: Hash, ops: seq<Op>, d: Disk, meta: Meta, left: Leftovers, u: Unknown, d': Disk,
                     touched: set<Name>, s: nat, b: nat, p: nat, q: nat)
    requires Node(h, ops, d, meta, left, touched, s, b, p, q) && WellFormed(d') && d'.Keys == meta.Keys
             && s <= q <= |ops|
    requires forall x | x in d' && NoDrop(ops, x, s, q) :: RestartedAt(d, meta, left, u, d', x)
    ensures Holds(h, ops, d', {}, s, s, s, q) <==> Lasting(h, ops, meta, left, s, q) && SoundAll(ops, d', s, q)
  {
    HoldsShape(h, ops, d, touched, s, b, p, q);
    Lower(map[], ops, ViewOf(h, d), s, p, q);
    if Lasting(h, ops, meta, left, s, q) && SoundAll(ops, d', s, q) {
      forall x | NoDrop(ops, x, s, q)
        ensures BetweenAt(map[], ops, ViewOf(h, d'), s, q, x)
        ensures x in d' ==> TailRepeats(ops, d', x, s, q)
      {
        assert x in d ==> TailRepeats(ops, d, x, s, q);
        assert BetweenAt(map[], ops, ViewOf(h, d), s, q, x);
        hide Holds, Lasting, Recoverable, TailRepeats, SoundShards, RestartedAt;
        LastingRestart(h, ops, d, meta, left, u, d', s, q, x);
      }
    }
    if Holds(h, ops, d', {}, s, s, s, q) {
      hide Lasting, Recoverable, TailRepeats, SoundShards;
      LastingNeeded(h, ops, d, meta, left, u, d', s, q);
    }
  }

  /** No crash can do the node any harm, exactly when the stored metadata lasts and its shards
      are safe. */
  lemma CrashesAreHarmless(h: Hash, ops: seq<Op>, d: Disk, meta: Meta, left: Leftovers, u: Unknown,
                           touched: set<Name>, s: nat, b: nat, p: nat, q: nat)
    requires Node(h, ops, d, meta, left, touched, s, b, p, q)
    ensures Lasting(h, ops, meta, left, s, q) && SafeAll(ops, d, u, s, q) <==>
              forall d': Disk | Restarted(d, meta, left, u, d') :: WellFormed(d') && Holds(h, ops, d', {}, s, s, s, q)
  {
    HoldsShape(h, ops, d, touched, s, b, p, q);
    if Lasting(h, ops, meta, left, s, q) && SafeAll(ops, d, u, s, q) {
      forall d': Disk | Restarted(d, meta, left, u, d')
        ensures WellFormed(d') && Holds(h, ops, d', {}, s, s, s, q)
      {
        CrashHolds(h, ops, d, meta, left, u, d', touched, s, b, p, q);
        hide Holds;
        SafeRestart(h, ops, d, meta, left, u, d', s, q);
      }
    }
    if forall d': Disk | Restarted(d, meta, left, u, d') :: WellFormed(d') && Holds(h, ops, d', {}, s, s, s, q) {
      var d' := WorstRestart(d, meta, left, u);
      WorstIsRestart(d, meta, left, u);
      CrashHolds(h, ops, d, meta, left, u, d', touched, s, b, p, q);
      hide Holds, MetaFits, Restarted, Lasting;
      forall x, j: nat | x in d && NoDrop(ops, x, s, q) && j < |d[x].shards|
        ensures Safe(d[x].shards[j], UnknownAt(u, x, j))
      {
        assert x in d' && SoundShards(d'[x].shards) && GoodIndex(d[x]);
        assert Sound(d'[x].shards[j]);
        SafeIfWorst(d[x].shards[j], UnknownAt(u, x, j));
      }
    }
  }

  /** Every log loses all that it can lose. */
  function WorstRestart(d: Disk, meta: Meta, left: Leftovers, u: Unknown): Disk {
    map x | x in meta ::
      if x in d then Index(meta[x], WorstShards(d[x].shards, u, x))
      else Index(meta[x], if x in left then left[x] else [])
  }

  function WorstShards(shards: seq<Shard>, u: Unknown, x: Name): (worst: seq<Shard>)
    ensures |worst| == |shards|
    ensures forall j: nat | j < |shards| && shards[j].synced <= |shards[j].wal| ::
              worst[j] == CrashedTo(shards[j], UnknownAt(u, x, j), shards[j].synced, shards[j].synced, {})
  {
    seq(|shards|, (j: nat) requires j < |shards| =>
      if shards[j].synced <= |shards[j].wal|
      then CrashedTo(shards[j], UnknownAt(u, x, j), shards[j].synced, shards[j].synced, {})
      else shards[j])
  }

  lemma WorstIsRestart(d: Disk, meta: Meta, left: Leftovers, u: Unknown)
    requires WellFormed(d) && MetaFits(d, meta, left)
    ensures var d' := WorstRestart(d, meta, left, u);
            && Restarted(d, meta, left, u, d')
            && forall x, j: nat | x in d && j < |d[x].shards| ::
                 && x in d' && |d'[x].shards| == |d[x].shards| && d[x].shards[j].synced <= |d[x].shards[j].wal|
                 && var was := d[x].shards[j];
                    d'[x].shards[j] == CrashedTo(was, UnknownAt(u, x, j), was.synced, was.synced, {})
  {
    var d' := WorstRestart(d, meta, left, u);
    forall x, j: nat | x in d && j < |d[x].shards|
      ensures d[x].shards[j].synced <= |d[x].shards[j].wal|
      ensures ShardCrashed(d[x].shards[j], UnknownAt(u, x, j), d'[x].shards[j])
    {
      assert GoodIndex(d[x]);
      SafeIff(d[x].shards[j], UnknownAt(u, x, j));
    }
  }

  lemma SafeIfWorst(s: Shard, ids: set<DocId>)
    requires GoodShard(s) && Sound(CrashedTo(s, ids, s.synced, s.synced, {}))
    ensures Safe(s, ids)
  {
    assert s.behind <= s.behind + ids && ids <= s.behind + ids;
  }

  lemma SafeRestart(h: Hash, ops: seq<Op>, d: Disk, meta: Meta, left: Leftovers, u: Unknown, d': Disk, s: nat, q: nat)
    requires s <= q <= |ops| && Lasting(h, ops, meta, left, s, q) && SafeAll(ops, d, u, s, q)
    requires WellFormed(d) && MetaFits(d, meta, left) && Restarted(d, meta, left, u, d')
    ensures SoundAll(ops, d', s, q) && SafeAll(ops, d', map[], s, q)
  {
    forall x, j: nat | x in d' && NoDrop(ops, x, s, q) && j < |d'[x].shards|
      ensures Sound(d'[x].shards[j]) && Safe(d'[x].shards[j], {})
    {
      assert RestartedAt(d, meta, left, u, d', x);
      if x in d {
        assert GoodIndex(d[x]) && SafeShards(d[x].shards, u, x);
        SafeShard(d[x].shards[j], UnknownAt(u, x, j), d'[x].shards[j]);
      } else {
        assert SoundShards(left[x]) && AllSynced(left[x]) && Sound(left[x][j]);
      }
    }
  }

  lemma SafeShard(s: Shard, ids: set<DocId>, s': Shard)
    requires GoodShard(s) && Safe(s, ids) && ShardCrashed(s, ids, s')
    ensures Sound(s') && Safe(s', {})
  {
    SafeIff(s, ids);
    SoundCrash(s, ids, s');
  }

  lemma RestartedShape(d: Disk, meta: Meta, left: Leftovers, u: Unknown, d': Disk)
    requires WellFormed(d) && MetaFits(d, meta, left) && Restarted(d, meta, left, u, d')
    ensures WellFormed(d')
  {
    forall x | x in d'
      ensures GoodIndex(d'[x])
    {
      assert RestartedAt(d, meta, left, u, d', x);
      if x in d {
        assert GoodIndex(d[x]);
        forall j | 0 <= j < |d'[x].shards|
          ensures GoodShard(d'[x].shards[j])
        {
          assert ShardCrashed(d[x].shards[j], UnknownAt(u, x, j), d'[x].shards[j]);
        }
      }
    }
  }

  lemma LastingRestart(h: Hash, ops: seq<Op>, d: Disk, meta: Meta, left: Leftovers, u: Unknown, d': Disk,
                       s: nat, q: nat, x: Name)
    requires s <= q <= |ops| && NoDrop(ops, x, s, q) && Lasting(h, ops, meta, left, s, q)
    requires WellFormed(d) && WellFormed(d') && MetaFits(d, meta, left) && d'.Keys == meta.Keys
    requires x in d' ==> RestartedAt(d, meta, left, u, d', x) && SoundShards(d'[x].shards)
    requires BetweenAt(map[], ops, ViewOf(h, d), s, q, x) && (x in d ==> TailRepeats(ops, d, x, s, q))
    ensures BetweenAt(map[], ops, ViewOf(h, d'), s, q, x)
    ensures x in d' ==> TailRepeats(ops, d', x, s, q)
  {
    assert ShapeOf(ViewOf(h, d'), x) == Find(meta, x);
    assert ShapeAt(map[], ops, Find(meta, x), s, q, x);
    if x in d {
      CrashTails(ops, d, d', u, x, s, q);
      CrashDocs(h, ops, d, d', u, s, q, x);
    } else {
      assert x !in At(map[], ops, s);
      forall id | !Stored(map[], ops, x, id, s, q)
        ensures DocAt(ViewOf(h, d'), x, id) == DocAt(At(map[], ops, s), x, id)
      {
        if x in d' { SameShards(h, d'[x], Index(map[], left[x])); }
      }
    }
  }

  lemma LastingNeeded(h: Hash, ops: seq<Op>, d: Disk, meta: Meta, left: Leftovers, u: Unknown, d': Disk,
                      s: nat, q: nat)
    requires WellFormed(d) && WellFormed(d') && MetaFits(d, meta, left) && d'.Keys == meta.Keys && s <= q <= |ops|
    requires forall x | x in d' && NoDrop(ops, x, s, q) :: RestartedAt(d, meta, left, u, d', x)
    requires Between(map[], ops, ViewOf(h, d), s, q) && Between(map[], ops, ViewOf(h, d'), s, q)
    requires SoundAll(ops, d', s, q)
    ensures Lasting(h, ops, meta, left, s, q)
  {
    forall x | NoDrop(ops, x, s, q)
      ensures ShapeAt(map[], ops, Find(meta, x), s, q, x)
    {
      assert BetweenAt(map[], ops, ViewOf(h, d'), s, q, x);
      assert ShapeOf(ViewOf(h, d'), x) == Find(meta, x);
    }
    forall x | x in left && NoDrop(ops, x, s, q)
      ensures SoundShards(left[x])
    {
      assert x in d' && RestartedAt(d, meta, left, u, d', x);
    }
    forall x, id | x in left && left[x] != [] && NoDrop(ops, x, s, q) && id in IndexDocs(h, Index(map[], left[x]))
      ensures Stored(map[], ops, x, id, s, q)
    {
      assert BetweenAt(map[], ops, ViewOf(h, d), s, q, x);
      assert x !in At(map[], ops, s);
      assert BetweenAt(map[], ops, ViewOf(h, d'), s, q, x);
      SameShards(h, d'[x], Index(map[], left[x]));
      assert DocAt(ViewOf(h, d'), x, id).Some?;
    }
  }

  lemma CrashTails(ops: seq<Op>, d: Disk, d': Disk, u: Unknown, x: Name, s: nat, q: nat)
    requires s <= q <= |ops| && x in d && x in d' && ShardsCrashed(d[x].shards, u, x, d'[x].shards)
    requires SoundShards(d'[x].shards) && TailRepeats(ops, d, x, s, q)
    ensures TailRepeats(ops, d', x, s, q)
  {
    forall j, k: nat | 0 <= j < |d'[x].shards| && d'[x].shards[j].synced <= k < |d'[x].shards[j].wal|
      ensures Stored(map[], ops, x, d'[x].shards[j].wal[k].0, s, q)
    {
      assert ShardCrashed(d[x].shards[j], UnknownAt(u, x, j), d'[x].shards[j]);
      SoundCrash(d[x].shards[j], UnknownAt(u, x, j), d'[x].shards[j]);
      assert d'[x].shards[j].wal[k] == d[x].shards[j].wal[k];
    }
  }

  lemma CrashDocs(h: Hash, ops: seq<Op>, d: Disk, d': Disk, u: Unknown, s: nat, q: nat, x: Name)
    requires s <= q <= |ops| && WellFormed(d) && WellFormed(d') && x in d && x in d'
    requires ShardsCrashed(d[x].shards, u, x, d'[x].shards) && SoundShards(d'[x].shards) && TailRepeats(ops, d, x, s, q)
    requires BetweenAt(map[], ops, ViewOf(h, d), s, q, x)
    ensures forall id | !Stored(map[], ops, x, id, s, q) ::
              DocAt(ViewOf(h, d'), x, id) == DocAt(At(map[], ops, s), x, id)
  {
    forall id | !Stored(map[], ops, x, id, s, q)
      ensures DocAt(ViewOf(h, d'), x, id) == DocAt(At(map[], ops, s), x, id)
    {
      ViewDocAt(h, d, x, id);
      ViewDocAt(h, d', x, id);
      var j := Slot(h, d[x], id);
      assert ShardCrashed(d[x].shards[j], UnknownAt(u, x, j), d'[x].shards[j]);
      SoundCrash(d[x].shards[j], UnknownAt(u, x, j), d'[x].shards[j]);
      CrashKeeps(d[x].shards[j], d'[x].shards[j].wal, id);
    }
  }

  // ---------------------------------------------------------------- backups

  /** The files of one shard: its written documents, and those of them that are in second-level
      shards that the stored metadata does not know. */
  datatype Files = Files(docs: map<DocId, Doc>, unknown: set<DocId>)

  /** A backup of the whole node: the stored metadata with the offset, and the written
      documents of the indexes in memory. The logs are not part of it. */
  datatype Backup = Backup(metadata: Meta, data: map<Name, seq<Files>>, offset: nat)

  /** A shard whose log is empty. */
  function Restored(f: Files): Shard { Shard(f.docs - f.unknown, [], 0, 0, 0, f.unknown) }

  function RestoredShards(data: seq<Files>): (shards: seq<Shard>)
    ensures |shards| == |data| && forall j | 0 <= j < |data| :: shards[j] == Restored(data[j])
  {
    seq(|data|, j requires 0 <= j < |data| => Restored(data[j]))
  }

  /** What a restore puts in place. An index without data starts empty. */
  function RestoredDisk(n: nat, b: Backup): Disk {
    map x | x in b.metadata ::
      Index(b.metadata[x], if x in b.data then RestoredShards(b.data[x]) else FreshIndex(map[], n).shards)
  }

  /** A copy of the node d, whose logs are empty, and of its stored metadata. */
  ghost predicate IsCopy(d: Disk, meta: Meta, u: Unknown, b: Backup) {
    && b.metadata == meta && b.data.Keys == d.Keys
    && forall x | x in d ::
         && |b.data[x]| == |d[x].shards|
         && forall j: nat | j < |d[x].shards| :: b.data[x][j] == Files(d[x].shards[j].stored, UnknownAt(u, x, j))
  }

  /** The backup can be restored: it stands for a node at its offset, whose shards are sound. */
  ghost predicate GoodBackup(h: Hash, n: nat, ops: seq<Op>, b: Backup, s: nat, q: nat) {
    && s <= q <= |ops| && WellFormed(RestoredDisk(n, b))
    && Between(map[], ops, ViewOf(h, RestoredDisk(n, b)), s, q) && SoundAll(ops, RestoredDisk(n, b), s, q)
  }

  /** The stored metadata knows every second-level shard with documents, but for indexes that
      operations s..q delete. */
  predicate NoneUnknown(ops: seq<Op>, d: Disk, u: Unknown, s: nat, q: nat)
    requires s <= q <= |ops|
  {
    forall x | x in d && NoDrop(ops, x, s, q) :: forall j: nat | j < |d[x].shards| :: UnknownAt(u, x, j) == {}
  }

  function Emptied(n: nat, left: Leftovers): Leftovers { map x | x in left :: FreshIndex(map[], n).shards }

  /** A backup of a drained node is good exactly when the stored metadata lasts and knows every
      second-level shard, even if a step that failed left data beyond the offset. */
  lemma BackupHolds(h: Hash, n: nat, ops: seq<Op>, d: Disk, meta: Meta, left: Leftovers, u: Unknown, b: Backup,
                    touched: set<Name>, s: nat, q: nat)
    requires Node(h, ops, d, meta, left, touched, s, s, s, q) && n > 0 && IsCopy(d, meta, u, b)
    requires forall x, j | x in d && 0 <= j < |d[x].shards| :: d[x].shards[j].wal == []
    ensures s <= q <= |ops|
    ensures GoodBackup(h, n, ops, b, s, q) <==> MetaLasts(ops, meta, s, q) && NoneUnknown(ops, d, u, s, q)
  {
    var empty, d' := Emptied(n, left), RestoredDisk(n, b);
    EmptiedFits(n, d, meta, left);
    CopyShape(n, d, meta, left, u, b);
    EmptiedLasts(h, n, ops, meta, left, s, q);
    HoldsShape(h, ops, d, touched, s, s, s, q);
    SoundHere(h, ops, d, touched, s, s, s, q);
    CopySound(n, ops, d, meta, left, u, b, s, q);
    hide Holds, MetaFits, SoundAll, NoneUnknown, IsCopy, RestartedAt, IndexDocs, MetaLasts, RestoredDisk;
    forall x | x in d' && NoDrop(ops, x, s, q)
      ensures RestartedAt(d, meta, empty, u, d', x)
    {
      CopyRestarts(n, ops, d, meta, left, u, b, s, q, x);
    }
    RestartHolds(h, ops, d, meta, empty, u, d', touched, s, s, s, q);
    NoTails(ops, d', s, q);
    HoldsIff(h, ops, d, d', touched, s, q);
  }

  lemma SoundHere(h: Hash, ops: seq<Op>, d: Disk, touched: set<Name>, s: nat, b: nat, p: nat, q: nat)
    requires Holds(h, ops, d, touched, s, b, p, q)
    ensures s <= b <= p <= q <= |ops| && SoundAll(ops, d, p, q)
  {
  }

  /** With empty logs nothing can be lost. */
  lemma HoldsIff(h: Hash, ops: seq<Op>, d: Disk, d': Disk, touched: set<Name>, s: nat, q: nat)
    requires Holds(h, ops, d, touched, s, s, s, q) && WellFormed(d') && Recoverable(ops, d', {}, s, q)
    ensures s <= q <= |ops|
    ensures Holds(h, ops, d', {}, s, s, s, q) <==>
              Between(map[], ops, ViewOf(h, d'), s, q) && SoundAll(ops, d', s, q)
  {
  }

  lemma RestoredNode(h: Hash, n: nat, ops: seq<Op>, b: Backup, s: nat, q: nat)
    requires GoodBackup(h, n, ops, b, s, q) && CleanRun(map[], ops) && b.data.Keys <= b.metadata.Keys
    ensures Node(h, ops, RestoredDisk(n, b), b.metadata, map[], {}, s, s, s, q)
    ensures UpToDate(ops, RestoredDisk(n, b), b.metadata, map[], s, q)
  {
    var d := RestoredDisk(n, b);
    RestoredFits(n, b);
    hide MetaFits, RestoredDisk, IndexDocs, SoundShards;
    NoTails(ops, d, s, q);
    assert Recoverable(ops, d, {}, s, q);
  }

  /** A restored node is safe from every crash. */
  lemma RestoredSafe(ops: seq<Op>, n: nat, b: Backup, s: nat, q: nat)
    requires s <= q <= |ops| && SoundAll(ops, RestoredDisk(n, b), s, q)
    ensures SecureAll(ops, RestoredDisk(n, b), map[], s, q)
  {
    var d := RestoredDisk(n, b);
    forall x, j: nat | x in d && NoDrop(ops, x, s, q) && j < |d[x].shards|
      ensures Safe(d[x].shards[j], {})
    {
      assert SoundShards(d[x].shards) && Sound(d[x].shards[j]);
    }
  }

  lemma NothingLeftLasts(h: Hash, ops: seq<Op>, meta: Meta, s: nat, q: nat)
    requires s <= q <= |ops|
    ensures Lasting(h, ops, meta, map[], s, q) <==> MetaLasts(ops, meta, s, q)
  {
    hide MetaLasts;
    assert LeftLasts(h, ops, map[], s, q);
  }

  lemma LastingMeta(h: Hash, ops: seq<Op>, meta: Meta, left: Leftovers, s: nat, q: nat)
    ensures Lasting(h, ops, meta, left, s, q) ==> MetaLasts(ops, meta, s, q)
  {
  }

  lemma MetadataKnowsAll(d: Disk, meta: Meta, left: Leftovers)
    requires MetaFits(d, meta, left)
    ensures d.Keys <= meta.Keys
  {
  }

  lemma RestoredFits(n: nat, b: Backup)
    requires b.data.Keys <= b.metadata.Keys
    ensures var d := RestoredDisk(n, b);
            && MetaFits(d, b.metadata, map[]) && d.Keys == b.metadata.Keys
            && (forall x | x in d :: d[x].mapping == b.metadata[x])
            && forall x, j | x in d && 0 <= j < |d[x].shards| :: d[x].shards[j].wal == []
  {
  }

  lemma NoTails(ops: seq<Op>, d: Disk, s: nat, q: nat)
    requires s <= q <= |ops|
    requires forall x, j | x in d && 0 <= j < |d[x].shards| :: d[x].shards[j].wal == []
    ensures Recoverable(ops, d, {}, s, q)
  {
  }

  lemma EmptiedFits(n: nat, d: Disk, meta: Meta, left: Leftovers)
    requires n > 0 && MetaFits(d, meta, left)
    ensures MetaFits(d, meta, Emptied(n, left))
  {
  }

  lemma CopyShape(n: nat, d: Disk, meta: Meta, left: Leftovers, u: Unknown, b: Backup)
    requires n > 0 && WellFormed(d) && MetaFits(d, meta, left) && IsCopy(d, meta, u, b)
    ensures var d' := RestoredDisk(n, b);
            && WellFormed(d') && d'.Keys == meta.Keys
            && forall x, j | x in d' && 0 <= j < |d'[x].shards| :: d'[x].shards[j].wal == []
  {
    forall x | x in d
      ensures GoodIndex(d[x])
    {
    }
  }

  /** The copy of a sound index is sound exactly when no documents are unknown. */
  lemma CopySound(n: nat, ops: seq<Op>, d: Disk, meta: Meta, left: Leftovers, u: Unknown, b: Backup, s: nat, q: nat)
    requires n > 0 && s <= q <= |ops| && MetaFits(d, meta, left) && IsCopy(d, meta, u, b)
    ensures SoundAll(ops, RestoredDisk(n, b), s, q) <==> NoneUnknown(ops, d, u, s, q)
  {
    var d' := RestoredDisk(n, b);
    forall x | x in d && NoDrop(ops, x, s, q)
      ensures SoundShards(d'[x].shards) <==> forall j: nat | j < |d[x].shards| :: UnknownAt(u, x, j) == {}
    {
      forall j: nat | j < |d[x].shards|
        ensures Sound(d'[x].shards[j]) <==> UnknownAt(u, x, j) == {}
      {
        assert b.data[x][j] == Files(d[x].shards[j].stored, UnknownAt(u, x, j));
      }
    }
    assert forall x | x in d' && x !in d :: SoundShards(d'[x].shards);
  }

  lemma CopyRestarts(n: nat, ops: seq<Op>, d: Disk, meta: Meta, left: Leftovers, u: Unknown, b: Backup,
                     s: nat, q: nat, x: Name)
    requires n > 0 && WellFormed(d) && MetaFits(d, meta, left) && IsCopy(d, meta, u, b) && x in meta
    requires s <= q <= |ops| && SoundAll(ops, d, s, q) && NoDrop(ops, x, s, q)
    requires forall x, j | x in d && 0 <= j < |d[x].shards| :: d[x].shards[j].wal == []
    ensures x in RestoredDisk(n, b) && RestartedAt(d, meta, Emptied(n, left), u, RestoredDisk(n, b), x)
  {
    var d' := RestoredDisk(n, b);
    if x in d {
      assert GoodIndex(d[x]);
      forall j: nat | j < |d[x].shards|
        ensures ShardCrashed(d[x].shards[j], UnknownAt(u, x, j), d'[x].shards[j])
      {
        var shard, ids := d[x].shards[j], UnknownAt(u, x, j);
        assert Sound(shard) && shard.wal == [] && shard.begun == 0;
        assert d'[x].shards[j] == CrashedTo(shard, ids, 0, 0, ids);
      }
    }
  }

  lemma EmptiedLasts(h: Hash, n: nat, ops: seq<Op>, meta: Meta, left: Leftovers, s: nat, q: nat)
    requires n > 0 && s <= q <= |ops|
    ensures LeftLasts(h, ops, Emptied(n, left), s, q)
  {
    FreshIsEmpty(h, map[], n);
  }

  // ---------------------------------------------------------------- metadata that is up to date

  /** The stored metadata is that of memory, but for mappings of indexes that will be deleted. */
  ghost predicate UpToDate(ops: seq<Op>, d: Disk, meta: Meta, left: Leftovers, p: nat, q: nat) {
    && p <= q <= |ops| && left == map[] && meta.Keys == d.Keys
    && forall x | x in d && NoDrop(ops, x, p, q) :: meta[x] == d[x].mapping
  }

  /** An offset that is saved while the metadata is up to date may be restarted from. */
  lemma UpToDateLasts(h: Hash, ops: seq<Op>, d: Disk, meta: Meta, left: Leftovers, touched: set<Name>, p: nat, q: nat)
    requires Holds(h, ops, d, touched, p, p, p, q) && UpToDate(ops, d, meta, left, p, q)
    ensures Lasting(h, ops, meta, left, p, q)
  {
    hide Holds;
    forall x | NoDrop(ops, x, p, q)
      ensures ShapeAt(map[], ops, Find(meta, x), p, q, x)
    {
      MemoryShape(h, ops, d, touched, p, p, p, q, x);
      assert Find(meta, x) == Find(MetaOf(d), x);
    }
  }

  /** After an operation, the metadata of its index is stored as memory has it; or memory has
      it as before; or the operation was rejected. */
  ghost predicate StoredWell(d: Disk, meta: Meta, left: Leftovers, op: Op, d': Disk, meta': Meta, left': Leftovers) {
    var x := op.index;
    && left' == left
    && (forall y | y != x :: Find(meta', y) == Find(meta, y))
    && (|| Find(meta', x) == Find(MetaOf(d'), x)
        || (Find(meta', x) == Find(meta, x) && Find(MetaOf(d'), x) == Find(MetaOf(d), x))
        || (Find(meta', x) == Find(meta, x) && x in d && x in d' && Rejecting(d[x].mapping, op) != {}))
  }

  /** Storing the metadata whenever memory changed keeps it up to date. */
  lemma UpToDateStep(h: Hash, n: nat, ops: seq<Op>, d: Disk, meta: Meta, left: Leftovers, d': Disk, meta': Meta,
                     left': Leftovers,
                     touched: set<Name>, s: nat, b: nat, p: nat, q: nat)
    requires Holds(h, ops, d, touched, s, b, p, q) && UpToDate(ops, d, meta, left, p, q) && p < |ops|
    requires DiskStep(h, n, d, ops[p], d') && OnlyIndex(d, d', ops[p].index)
    requires StoredWell(d, meta, left, ops[p], d', meta', left') && TidyRun(map[], ops)
    ensures UpToDate(ops, d', meta', left', p + 1, Max(q, p + 1))
  {
    HoldsShape(h, ops, d, touched, s, b, p, q);
    var x, q', p' := ops[p].index, Max(q, p + 1), p + 1;
    StoredNames(ops, d, meta, left, ops[p], d', meta', left', p, q);
    forall y | y in d' && NoDrop(ops, y, p', q')
      ensures y in meta' && meta'[y] == d'[y].mapping
    {
      hide Holds, DiskStep, OnlyIndex, UpToDate, StoredWell, NoDrop;
      if y != x {
        OtherUpToDate(ops, d, meta, left, ops[p], d', meta', left', p, q, y);
      } else {
        IndexUpToDate(h, n, ops, d, meta, left, d', meta', left', touched, s, b, p, q);
      }
    }
  }

  lemma StoredNames(ops: seq<Op>, d: Disk, meta: Meta, left: Leftovers, op: Op, d': Disk, meta': Meta, left': Leftovers,
                    p: nat, q: nat)
    requires UpToDate(ops, d, meta, left, p, q) && OnlyIndex(d, d', op.index)
    requires StoredWell(d, meta, left, op, d', meta', left')
    ensures meta'.Keys == d'.Keys && left' == map[]
  {
    hide Rejecting, NoDrop;
    var x := op.index;
    assert x in meta' <==> Find(meta', x).Some?;
    assert x in d' <==> Find(MetaOf(d'), x).Some?;
    SameNames(meta', d', x, meta, d);
  }

  lemma OtherUpToDate(ops: seq<Op>, d: Disk, meta: Meta, left: Leftovers, op: Op, d': Disk, meta': Meta,
                      left': Leftovers,
                      p: nat, q: nat, y: Name)
    requires UpToDate(ops, d, meta, left, p, q) && OnlyIndex(d, d', op.index) && p < |ops| && op == ops[p]
    requires StoredWell(d, meta, left, op, d', meta', left')
    requires y in d' && y != op.index && NoDrop(ops, y, p + 1, Max(q, p + 1))
    ensures y in meta' && meta'[y] == d'[y].mapping
  {
    hide Rejecting;
    assert NoDrop(ops, y, p, q) && y in d && d'[y] == d[y];
    assert Find(meta', y) == Find(meta, y);
  }

  lemma IndexUpToDate(h: Hash, n: nat, ops: seq<Op>, d: Disk, meta: Meta, left: Leftovers, d': Disk, meta': Meta,
                      left': Leftovers,
                      touched: set<Name>, s: nat, b: nat, p: nat, q: nat)
    requires Holds(h, ops, d, touched, s, b, p, q) && UpToDate(ops, d, meta, left, p, q) && p < |ops|
    requires DiskStep(h, n, d, ops[p], d') && StoredWell(d, meta, left, ops[p], d', meta', left')
    requires ops[p].index in d' && NoDrop(ops, ops[p].index, p + 1, Max(q, p + 1)) && TidyRun(map[], ops)
    ensures ops[p].index in meta' && meta'[ops[p].index] == d'[ops[p].index].mapping
  {
    hide Holds, DiskStep, WellFormed, Rejecting, TidyRun;
    HoldsShape(h, ops, d, touched, s, b, p, q);
    var x := ops[p].index;
    DropForgets(h, n, d, ops[p], d', x);
    NoDropBefore(ops, x, p, q);
    StoredNow(ops, d, meta, left, ops[p], d', meta', left', p, q);
    if Find(meta', x) != Find(MetaOf(d'), x) {
      RejectedLeavesNothing(h, n, ops, d, d', touched, s, b, p, q);
    }
    FoundIn(d', meta', x);
  }

  lemma NoDropBefore(ops: seq<Op>, x: Name, p: nat, q: nat)
    requires p < |ops| && p <= q <= |ops| && ops[p] != Drop(x) && NoDrop(ops, x, p + 1, Max(q, p + 1))
    ensures NoDrop(ops, x, p, q) && NoDrop(ops, x, p, Max(q, p + 1))
  {
  }

  /** What is not stored as memory has it was not changed, or changed by a rejection. */
  lemma StoredNow(ops: seq<Op>, d: Disk, meta: Meta, left: Leftovers, op: Op, d': Disk, meta': Meta, left': Leftovers,
                  p: nat, q: nat)
    requires UpToDate(ops, d, meta, left, p, q) && StoredWell(d, meta, left, op, d', meta', left')
    requires NoDrop(ops, op.index, p, q)
    ensures var x := op.index;
            || Find(meta', x) == Find(MetaOf(d'), x)
            || (x in d && Rejecting(d[x].mapping, op) != {} && (d' == d ==> Find(meta', x) == Find(MetaOf(d'), x)))
  {
    hide Rejecting, NoDrop;
    var x := op.index;
    assert Find(meta, x) == Find(MetaOf(d), x);
  }

  lemma FoundIn(d: Disk, meta: Meta, x: Name)
    requires x in d && Find(meta, x) == Find(MetaOf(d), x)
    ensures x in meta && meta[x] == d[x].mapping
  {
  }

  /** An attempt that failed after storing what memory has. */
  lemma UpToDateHalf(ops: seq<Op>, d: Disk, meta: Meta, left: Leftovers, d': Disk, meta': Meta, x: Name, p: nat, q: nat,
                     q': nat)
    requires UpToDate(ops, d, meta, left, p, q) && OnlyIndex(d, d', x) && q <= q' <= |ops| && x in d && x in d'
    requires meta' == meta[x := d'[x].mapping] || (meta' == meta && d' == d)
    ensures UpToDate(ops, d', meta', left, p, q')
  {
    forall y | y in d' && NoDrop(ops, y, p, q')
      ensures meta'[y] == d'[y].mapping
    {
      assert NoDrop(ops, y, p, q);
    }
  }

  lemma DropForgets(h: Hash, n: nat, d: Disk, op: Op, d': Disk, x: Name)
    requires WellFormed(d) && DiskStep(h, n, d, op, d') && x in d'
    ensures op != Drop(x)
  {
  }

  lemma SameNames(meta': Meta, d': Disk, x: Name, meta: Meta, d: Disk)
    requires meta.Keys == d.Keys && OnlyIndex(d, d', x)
    requires forall y | y != x :: Find(meta', y) == Find(meta, y)
    requires x in meta' <==> x in d'
    ensures meta'.Keys == d'.Keys
  {
    forall y
      ensures y in meta' <==> y in d'
    {
      if y != x { assert Find(meta', y) == Find(meta, y); }
    }
  }

  /** A tidy message that is rejected leaves nothing in memory that would have to be stored. */
  lemma RejectedLeavesNothing(h: Hash, n: nat, ops: seq<Op>, d: Disk, d': Disk, touched: set<Name>, s: nat, b: nat,
                              p: nat, q: nat)
    requires Holds(h, ops, d, touched, s, b, p, q) && p < |ops| && DiskStep(h, n, d, ops[p], d') && ops[p].index in d
    requires NoDrop(ops, ops[p].index, p, Max(q, p + 1)) && Rejecting(d[ops[p].index].mapping, ops[p]) != {}
    requires TidyRun(map[], ops)
    ensures d' == d
  {
    TidyOnNode(h, ops, d, touched, s, b, p, q);
    hide Holds;
    TidyRejection(h, n, d, ops[p], d');
  }

  lemma TidyOnNode(h: Hash, ops: seq<Op>, d: Disk, touched: set<Name>, s: nat, b: nat, p: nat, q: nat)
    requires Holds(h, ops, d, touched, s, b, p, q) && p < |ops| && NoDrop(ops, ops[p].index, p, Max(q, p + 1))
    requires TidyRun(map[], ops)
    ensures WellFormed(d) && Tidy(ViewOf(h, d), ops[p])
  {
    var x, q' := ops[p].index, Max(q, p + 1);
    Widen(map[], ops, ViewOf(h, d), p, q, q');
    assert BetweenAt(map[], ops, ViewOf(h, d), p, q', x);
    assert Clean(At(map[], ops, p), ops[p]) && Tidy(At(map[], ops, p), ops[p]);
    hide Holds, Between, BetweenAt, Clean, Tidy;
    CleanBetween(map[], ops, ViewOf(h, d), p, q', x);
  }

  lemma TidyRejection(h: Hash, n: nat, d: Disk, op: Op, d': Disk)
    requires WellFormed(d) && op.index in d && DiskStep(h, n, d, op, d')
    requires Tidy(ViewOf(h, d), op) && Rejecting(d[op.index].mapping, op) != {}
    ensures d' == d
  {
    var m := d[op.index].mapping;
    RejectingIff(m, op);
    hide LeftBehind, WellFormed, IndexDocs;
    if op.Put? {
      NothingLeft(m, Naturals(op.doc), BadFields(m, op.doc), d'[op.index].mapping);
    } else {
      NothingLeft(m, op.fields, Conflicts(m, op.fields), d'[op.index].mapping);
    }
  }

  lemma ConsumeHolds(h: Hash, ops: seq<Op>, d: Disk, d': Disk, touched: set<Name>, s: nat, b: nat, p: nat, q: nat)
    requires Holds(h, ops, d, touched, s, b, p, q) && Consumed(d, d')
    ensures Holds(h, ops, d', touched, s, b, p, q)
  {
    ConsumedView(h, d, d');
    ConsumedSound(d, d');
    SameSound(ops, d, d', p, q);
    ConsumedTails(ops, d, d', {}, s, q);
    ConsumedTails(ops, d, d', touched, b, q);
  }

  lemma ConsumedTails(ops: seq<Op>, d: Disk, d': Disk, exempt: set<Name>, a: nat, q: nat)
    requires a <= q <= |ops| && Recoverable(ops, d, exempt, a, q) && Consumed(d, d')
    ensures Recoverable(ops, d', exempt, a, q)
  {
    forall x | x in d' && x !in exempt && NoDrop(ops, x, a, q)
      ensures TailRepeats(ops, d', x, a, q)
    {
      assert TailRepeats(ops, d, x, a, q);
      forall j, k: nat | 0 <= j < |d'[x].shards| && d'[x].shards[j].synced <= k < |d'[x].shards[j].wal|
        ensures Stored(map[], ops, x, d'[x].shards[j].wal[k].0, a, q)
      {
        assert ShardConsumed(d[x].shards[j], d'[x].shards[j]);
      }
    }
  }

  // ---------------------------------------------------------------- positions of messages

  lemma {:induction false} StreamPrefix(first: nat, msgs: seq<Message>, k: nat)
    requires k <= |msgs|
    ensures StreamOps(first, msgs[..k]) <= StreamOps(first, msgs)
    decreases |msgs|
  {
    if k == |msgs| {
      assert msgs[..k] == msgs;
    } else {
      StreamPrefix(first, msgs[..|msgs| - 1], k);
      assert msgs[..|msgs| - 1][..k] == msgs[..k];
    }
  }

  function Pos(stream: seq<Message>, k: nat): nat
    requires k <= |stream|
  {
    |StreamOps(1, stream[..k])|
  }

  /** The operations of message k + 1 are those between its position and the next. */
  lemma MessageOps(stream: seq<Message>, k: nat)
    requires k < |stream|
    ensures Pos(stream, k + 1) == Pos(stream, k) + |OpsOf(k + 1, stream[k])| <= |StreamOps(1, stream)|
    ensures StreamOps(1, stream)[Pos(stream, k)..Pos(stream, k + 1)] == OpsOf(k + 1, stream[k])
  {
    assert stream[..k + 1][..k] == stream[..k];
    StreamPrefix(1, stream, k);
    StreamPrefix(1, stream, k + 1);
    var a, b := StreamOps(1, stream[..k]), OpsOf(k + 1, stream[k]);
    assert StreamOps(1, stream[..k + 1]) == a + b;
    assert (a + b)[|a|..] == b;
    assert StreamOps(1, stream)[..|a + b|] == a + b;
    assert StreamOps(1, stream)[|a|..|a + b|] == (a + b)[|a|..];
  }

  lemma NotedByKind(ops: seq<Op>, d: Disk, touched: set<Name>, b: nat, p: nat, q: nat)
    requires b <= p <= q <= |ops|
    requires forall i | b <= i < p :: !ops[i].Drop? && (ops[i].Put? ==> ops[i].index in touched)
    ensures Noted(ops, d, touched, b, p, q)
  {
  }

  /** A document that this node rejects is one that the exact run does not store either,
      unless its index is deleted later on. */
  lemma RejectedIsNotStored(h: Hash, ops: seq<Op>, d: Disk, touched: set<Name>, s: nat, b: nat, p: nat, q: nat)
    requires Holds(h, ops, d, touched, s, b, p, q) && p < q && ops[p].Put?
    requires ops[p].index in d && !Accepts(d[ops[p].index].mapping, ops[p].doc)
    requires NoDrop(ops, ops[p].index, p + 1, q)
    ensures forall id :: !Stores(map[], ops, p, ops[p].index, id)
  {
    var x := ops[p].index;
    assert NoDrop(ops, x, p, q);
    assert BetweenAt(map[], ops, ViewOf(h, d), p, q, x);
    assert Clean(At(map[], ops, p), ops[p]);
    PutAccepted(map[], ops, ViewOf(h, d), p, q, x);
  }

  lemma NotedDropped(ops: seq<Op>, d: Disk, touched: set<Name>, b: nat, q: nat, x: Name)
    requires b < q <= |ops| && ops[b] == Drop(x) && x !in d
    ensures Noted(ops, d, touched, b, b + 1, q)
  {
  }

  lemma NotedRejected(h: Hash, ops: seq<Op>, d: Disk, d': Disk, touched: set<Name>, s: nat, b: nat, q: nat)
    requires b + 2 <= q <= |ops| && ops[b].Ensure? && ops[b + 1].Put?
    requires ops[b + 1].index in d && !Accepts(d[ops[b + 1].index].mapping, ops[b + 1].doc)
    requires Holds(h, ops, d, touched, s, b, b + 1, q)
    ensures Noted(ops, d', touched, b, b + 2, q)
  {
    hide Holds, At, Accepts;
    var y := ops[b + 1].index;
    if NoDrop(ops, y, b + 2, q) {
      RejectedIsNotStored(h, ops, d, touched, s, b, b + 1, q);
    }
    OnlyOneStores(ops, d', touched, b, b + 1, q);
  }

  lemma OnlyOneStores(ops: seq<Op>, d: Disk, touched: set<Name>, b: nat, c: nat, q: nat)
    requires b + 2 <= q <= |ops| && c == b + 1 && ops[b].Ensure? && ops[c].Put?
    requires NoDrop(ops, ops[c].index, b + 2, q) ==> forall id :: !Stores(map[], ops, c, ops[c].index, id)
    ensures Noted(ops, d, touched, b, b + 2, q)
  {
    hide At, Accepts;
    forall x, i: nat, id | NoDrop(ops, x, b + 2, q) && b <= i < b + 2
      ensures !Stores(map[], ops, i, x, id)
    {
      if i == c && x == ops[c].index {
        assert !Stores(map[], ops, c, ops[c].index, id);
      }
    }
  }

  /** The operations of a batch, one by one. */
  lemma BatchAt(ops: seq<Op>, b: nat, seqNo: nat, x: Name, docs: seq<(DocId, Doc)>)
    requires b + |docs| + 1 <= |ops| && ops[b..b + |docs| + 1] == OpsOf(seqNo, DocsMsg(x, docs))
    ensures ops[b] == Ensure(x)
    ensures forall i | 0 <= i < |docs| :: ops[b + i + 1] == Put(x, BatchDocName(seqNo, i, docs[i].0), docs[i].1)
    ensures forall i | b <= i < b + |docs| + 1 :: !ops[i].Drop? && (ops[i].Put? ==> ops[i].index == x)
  {
    var m := OpsOf(seqNo, DocsMsg(x, docs));
    BatchOp(seqNo, x, docs, 0);
    SliceAt(ops, b, m, 0);
    forall i | 0 <= i < |docs|
      ensures ops[b + i + 1] == Put(x, BatchDocName(seqNo, i, docs[i].0), docs[i].1)
    {
      hide OpsOf;
      BatchOp(seqNo, x, docs, i);
      SliceAt(ops, b, m, i + 1);
    }
    forall i | b < i < b + |docs| + 1
      ensures ops[i].Put? && ops[i].index == x
    {
      hide OpsOf;
      BatchOp(seqNo, x, docs, i - b - 1);
      SliceAt(ops, b, m, i - b);
    }
  }

  lemma SliceAt(ops: seq<Op>, b: nat, m: seq<Op>, i: nat)
    requires b + |m| <= |ops| && ops[b..b + |m|] == m && i < |m|
    ensures ops[b + i] == m[i]
  {
  }

  lemma BatchOp(seqNo: nat, x: Name, docs: seq<(DocId, Doc)>, i: nat)
    ensures var m := OpsOf(seqNo, DocsMsg(x, docs));
            && |m| == |docs| + 1 && m[0] == Ensure(x)
            && (i < |docs| ==> m[i + 1] == Put(x, BatchDocName(seqNo, i, docs[i].0), docs[i].1))
  {
  }

  // ---------------------------------------------------------------- one operation of a node

  /** What the offset needs is on disk: no crash can do harm. */
  ghost predicate Enduring(h: Hash, ops: seq<Op>, d: Disk, meta: Meta, left: Leftovers, u: Unknown, s: nat, q: nat) {
    Lasting(h, ops, meta, left, s, q) && SafeAll(ops, d, u, s, q)
  }

  /** Moreover no second-level shard is unknown, not even an empty one, which may receive documents. */
  predicate SecureAll(ops: seq<Op>, d: Disk, u: Unknown, s: nat, q: nat) {
    && s <= q <= |ops|
    && forall x | x in d && NoDrop(ops, x, s, q) :: SecureShards(d[x].shards, u, x)
  }

  predicate SecureShards(shards: seq<Shard>, u: Unknown, x: Name) {
    forall j: nat | j < |shards| :: Safe(shards[j], {}) && (x, j) !in u
  }

  ghost predicate Guarded(h: Hash, ops: seq<Op>, d: Disk, meta: Meta, left: Leftovers, u: Unknown, s: nat, q: nat) {
    Lasting(h, ops, meta, left, s, q) && SecureAll(ops, d, u, s, q)
  }

  lemma GuardedEndures(h: Hash, ops: seq<Op>, d: Disk, meta: Meta, left: Leftovers, u: Unknown, s: nat, q: nat)
    requires Guarded(h, ops, d, meta, left, u, s, q)
    ensures Enduring(h, ops, d, meta, left, u, s, q)
  {
    hide Lasting;
    forall x, j: nat | x in d && NoDrop(ops, x, s, q) && j < |d[x].shards|
      ensures Safe(d[x].shards[j], UnknownAt(u, x, j))
    {
      assert SecureShards(d[x].shards, u, x);
    }
  }

  /** The stored metadata is up to date and the shards are safe, and no message is rejected
      only after it changed a mapping. */
  ghost predicate Settled(ops: seq<Op>, d: Disk, meta: Meta, left: Leftovers, u: Unknown, p: nat, q: nat) {
    TidyRun(map[], ops) && UpToDate(ops, d, meta, left, p, q) && SecureAll(ops, d, u, p, q)
  }

  /** Storing metadata makes second-level shards known; creating an index stores its metadata. */
  ghost predicate Knows(d: Disk, u: Unknown, d': Disk, u': Unknown, x: Name) {
    (u' == u || u' == Known(u, x)) && (x !in d && x in d' ==> u' == Known(u, x))
  }

  lemma SafeStep(h: Hash, n: nat, ops: seq<Op>, d: Disk, u: Unknown, d': Disk, u': Unknown, a: nat, p: nat, q: nat)
    requires SecureAll(ops, d, u, a, q) && a <= p < |ops| && WellFormed(d) && n > 0
    requires DiskStep(h, n, d, ops[p], d') && Knows(d, u, d', u', ops[p].index)
    ensures var q' := Max(q, p + 1);
            SecureAll(ops, d', u', a, q') && (a == p ==> SecureAll(ops, d', u', p + 1, q'))
  {
    var q', p' := Max(q, p + 1), p + 1;
    forall x | x in d' && (NoDrop(ops, x, a, q') || (a == p && NoDrop(ops, x, p', q')))
      ensures SecureShards(d'[x].shards, u', x)
    {
      DropForgets(h, n, d, ops[p], d', x);
      StepSafe(h, n, d, u, ops[p], d', u', x);
      hide DiskStep, SecureShards, WellFormed, Knows;
      assert NoDrop(ops, x, a, q);
    }
  }

  lemma StepSafe(h: Hash, n: nat, d: Disk, u: Unknown, op: Op, d': Disk, u': Unknown, x: Name)
    requires WellFormed(d) && n > 0 && DiskStep(h, n, d, op, d') && Knows(d, u, d', u', op.index) && x in d'
    requires x in d ==> SecureShards(d[x].shards, u, x)
    ensures SecureShards(d'[x].shards, u', x)
  {
    StepShards(h, n, d, op, d', x);
    hide DiskStep, WellFormed;
    forall j: nat | j < |d'[x].shards|
      ensures Safe(d'[x].shards[j], {}) && (x, j) !in u'
    {
      if x in d { assert Safe(d[x].shards[j], {}) && (x, j) !in u; }
    }
  }

  /** Each shard is as before, or has one entry more, or is new and empty. */
  lemma StepShards(h: Hash, n: nat, d: Disk, op: Op, d': Disk, x: Name)
    requires WellFormed(d) && n > 0 && DiskStep(h, n, d, op, d') && x in d'
    ensures x !in d ==>
              x == op.index && forall j: nat | j < |d'[x].shards| :: d'[x].shards[j] == Shard(map[], [], 0, 0, 0, {})
    ensures x in d ==>
              && |d'[x].shards| == |d[x].shards|
              && forall j: nat | j < |d[x].shards| ::
                   || d'[x].shards[j] == d[x].shards[j]
                   || exists id, doc :: d'[x].shards[j] == Logged(d[x].shards[j], id, doc)
  {
  }

  lemma SafeHalf(ops: seq<Op>, d: Disk, u: Unknown, d': Disk, u': Unknown, x: Name, a: nat, q: nat, q': nat)
    requires SecureAll(ops, d, u, a, q) && q <= q' <= |ops| && (u' == u || u' == Known(u, x))
    requires forall y | y in d' :: y in d && d'[y].shards == d[y].shards
    ensures SecureAll(ops, d', u', a, q')
  {
    forall y | y in d' && NoDrop(ops, y, a, q')
      ensures SecureShards(d'[y].shards, u', y)
    {
      assert NoDrop(ops, y, a, q);
      forall j: nat | j < |d'[y].shards|
        ensures Safe(d'[y].shards[j], {}) && (y, j) !in u'
      {
        assert Safe(d[y].shards[j], {}) && (y, j) !in u;
      }
    }
  }

  lemma SafeBack(ops: seq<Op>, d: Disk, u: Unknown, a: nat, p: nat, q: nat)
    requires SecureAll(ops, d, u, p, q) && a <= p
    ensures SecureAll(ops, d, u, a, q)
  {
    forall x | x in d && NoDrop(ops, x, a, q)
      ensures SecureShards(d[x].shards, u, x)
    {
      assert NoDrop(ops, x, p, q);
    }
  }

  /** An operation that was performed, with what it did to the stored metadata. */
  lemma Performs(h: Hash, n: nat, ops: seq<Op>, d: Disk, meta: Meta, left: Leftovers, u: Unknown,
                 d': Disk, meta': Meta, left': Leftovers, u': Unknown, touched: set<Name>, s: nat, b: nat, p: nat,
                 q: nat)
    requires Node(h, ops, d, meta, left, touched, s, b, p, q) && p < |ops| && n > 0
    requires WellFormed(d) && DiskStep(h, n, d, ops[p], d')
    requires StoreStep(d, meta, left, d', meta', left', ops[p].index) && Knows(d, u, d', u', ops[p].index)
    ensures var q' := Max(q, p + 1);
            && Node(h, ops, d', meta', left', touched, s, b, p + 1, q')
            && (Guarded(h, ops, d, meta, left, u, s, q) ==> Guarded(h, ops, d', meta', left', u', s, q'))
            && (Settled(ops, d, meta, left, u, p, q) && StoredWell(d, meta, left, ops[p], d', meta', left') ==>
                  Settled(ops, d', meta', left', u', p + 1, q'))
  {
    hide *;
    NodeStep(h, n, ops, d, meta, left, d', meta', left', touched, s, b, p, q);
    if Guarded(h, ops, d, meta, left, u, s, q) {
      GuardedStep(h, n, ops, d, meta, left, u, d', meta', left', u', touched, s, b, p, q);
    }
    if Settled(ops, d, meta, left, u, p, q) && StoredWell(d, meta, left, ops[p], d', meta', left') {
      SettledStep(h, n, ops, d, meta, left, u, d', meta', left', u', touched, s, b, p, q);
    }
  }

  lemma GuardedStep(h: Hash, n: nat, ops: seq<Op>, d: Disk, meta: Meta, left: Leftovers, u: Unknown, d': Disk,
                    meta': Meta, left': Leftovers, u': Unknown, touched: set<Name>, s: nat, b: nat, p: nat, q: nat)
    requires Node(h, ops, d, meta, left, touched, s, b, p, q) && p < |ops| && n > 0
    requires WellFormed(d) && DiskStep(h, n, d, ops[p], d') && StoreStep(d, meta, left, d', meta', left', ops[p].index)
    requires Knows(d, u, d', u', ops[p].index) && Guarded(h, ops, d, meta, left, u, s, q)
    ensures Guarded(h, ops, d', meta', left', u', s, Max(q, p + 1))
  {
    NodeShape(h, ops, d, meta, left, touched, s, b, p, q);
    hide Holds, MetaFits, DiskStep, StoreStep, Lasting, SecureAll, Knows, Node, WellFormed;
    NodeStep(h, n, ops, d, meta, left, d', meta', left', touched, s, b, p, q);
    SafeStep(h, n, ops, d, u, d', u', s, p, q);
  }

  lemma SettledStep(h: Hash, n: nat, ops: seq<Op>, d: Disk, meta: Meta, left: Leftovers, u: Unknown, d': Disk,
                    meta': Meta, left': Leftovers, u': Unknown, touched: set<Name>, s: nat, b: nat, p: nat, q: nat)
    requires Node(h, ops, d, meta, left, touched, s, b, p, q) && p < |ops| && n > 0
    requires WellFormed(d) && DiskStep(h, n, d, ops[p], d') && Knows(d, u, d', u', ops[p].index)
    requires Settled(ops, d, meta, left, u, p, q) && StoredWell(d, meta, left, ops[p], d', meta', left')
    ensures Settled(ops, d', meta', left', u', p + 1, Max(q, p + 1))
  {
    NodeShape(h, ops, d, meta, left, touched, s, b, p, q);
    StepIsLocal(h, n, d, ops[p], d');
    hide Holds, MetaFits, DiskStep, OnlyIndex, StoredWell, UpToDate, SecureAll, Knows, TidyRun, Node, WellFormed;
    UpToDateStep(h, n, ops, d, meta, left, d', meta', left', touched, s, b, p, q);
    SafeStep(h, n, ops, d, u, d', u', p, p, q);
  }

  /** A failed attempt changed nothing, or stored what memory has. */
  ghost predicate StoredHalf(d: Disk, meta: Meta, left: Leftovers, op: Op, d': Disk, meta': Meta, left': Leftovers) {
    var x := op.index;
    left' == left && ((d' == d && meta' == meta) || (x in d && x in d' && meta' == meta[x := d'[x].mapping]))
  }

  /** An operation that failed: the message it belongs to will be applied again from its beginning. */
  lemma Fails(h: Hash, ops: seq<Op>, d: Disk, meta: Meta, left: Leftovers, u: Unknown,
              d': Disk, meta': Meta, left': Leftovers, u': Unknown, touched: set<Name>, s: nat, b: nat, p: nat, q: nat)
    requires Node(h, ops, d, meta, left, touched, s, b, p, q) && p < |ops|
    requires DiskHalf(d, ops[p], d') && StoreStep(d, meta, left, d', meta', left', ops[p].index)
    requires Knows(d, u, d', u', ops[p].index)
    ensures var q' := Max(q, p + 1);
            && Node(h, ops, d', meta', left', touched, s, b, b, q')
            && (Guarded(h, ops, d, meta, left, u, s, q) ==> Guarded(h, ops, d', meta', left', u', s, q'))
            && (Settled(ops, d, meta, left, u, p, q) && StoredHalf(d, meta, left, ops[p], d', meta', left') ==>
                  Settled(ops, d', meta', left', u', b, q'))
  {
    NodeShape(h, ops, d, meta, left, touched, s, b, p, q);
    StepIsLocal(h, 1, d, ops[p], d');
    HalfShards(d, ops[p], d');
    hide *;
    FailsNode(h, ops, d, meta, left, d', meta', left', touched, s, b, p, q);
    if Guarded(h, ops, d, meta, left, u, s, q) {
      FailsGuarded(h, ops, d, meta, left, u, d', meta', left', u', touched, s, b, p, q);
    }
    if Settled(ops, d, meta, left, u, p, q) && StoredHalf(d, meta, left, ops[p], d', meta', left') {
      KnowsFewer(d, u, d', u', ops[p].index);
      FailsSettled(ops, d, meta, left, u, d', meta', left', u', b, p, q);
    }
  }

  lemma KnowsFewer(d: Disk, u: Unknown, d': Disk, u': Unknown, x: Name)
    requires Knows(d, u, d', u', x)
    ensures u' == u || u' == Known(u, x)
  {
  }

  lemma FailsNode(h: Hash, ops: seq<Op>, d: Disk, meta: Meta, left: Leftovers, d': Disk, meta': Meta, left': Leftovers,
                  touched: set<Name>, s: nat, b: nat, p: nat, q: nat)
    requires Node(h, ops, d, meta, left, touched, s, b, p, q) && p < |ops|
    requires DiskHalf(d, ops[p], d') && StoreStep(d, meta, left, d', meta', left', ops[p].index)
    ensures var q' := Max(q, p + 1);
            && Node(h, ops, d', meta', left', touched, s, b, b, q')
            && (Lasting(h, ops, meta, left, s, q) ==> Lasting(h, ops, meta', left', s, q'))
  {
    NodeHalf(h, ops, d, meta, left, d', meta', left', touched, s, b, p, q);
    hide Holds, MetaFits, DiskHalf, StoreStep, Lasting;
    BackHolds(h, ops, d', touched, s, b, p, Max(q, p + 1));
  }

  lemma FailsGuarded(h: Hash, ops: seq<Op>, d: Disk, meta: Meta, left: Leftovers, u: Unknown, d': Disk, meta': Meta,
                     left': Leftovers, u': Unknown, touched: set<Name>, s: nat, b: nat, p: nat, q: nat)
    requires Node(h, ops, d, meta, left, touched, s, b, p, q) && p < |ops|
    requires DiskHalf(d, ops[p], d') && StoreStep(d, meta, left, d', meta', left', ops[p].index)
    requires Knows(d, u, d', u', ops[p].index) && Guarded(h, ops, d, meta, left, u, s, q)
    ensures Guarded(h, ops, d', meta', left', u', s, Max(q, p + 1))
  {
    NodeShape(h, ops, d, meta, left, touched, s, b, p, q);
    HalfShards(d, ops[p], d');
    KnowsFewer(d, u, d', u', ops[p].index);
    hide Node, Holds, MetaFits, DiskHalf, StoreStep, Lasting, SecureAll, Knows;
    FailsNode(h, ops, d, meta, left, d', meta', left', touched, s, b, p, q);
    SafeHalf(ops, d, u, d', u', ops[p].index, s, q, Max(q, p + 1));
  }

  lemma FailsSettled(ops: seq<Op>, d: Disk, meta: Meta, left: Leftovers, u: Unknown,
                     d': Disk, meta': Meta, left': Leftovers, u': Unknown, b: nat, p: nat, q: nat)
    requires Settled(ops, d, meta, left, u, p, q) && b <= p < |ops| && (u' == u || u' == Known(u, ops[p].index))
    requires StoredHalf(d, meta, left, ops[p], d', meta', left') && OnlyIndex(d, d', ops[p].index)
    requires forall y | y in d' :: y in d && d'[y].shards == d[y].shards
    ensures Settled(ops, d', meta', left', u', b, Max(q, p + 1))
  {
    hide UpToDate, SecureAll, TidyRun, OnlyIndex;
    var q' := Max(q, p + 1);
    SafeShape(ops, d, u, p, q);
    SafeHalf(ops, d, u, d', u', ops[p].index, p, q, q');
    SafeBack(ops, d', u', b, p, q');
    if ops[p].index in d && ops[p].index in d' {
      UpToDateHalf(ops, d, meta, left, d', meta', ops[p].index, p, q, q');
    } else {
      UpToDateWiden(ops, d, meta, left, p, q, q');
    }
    UpToDateBack(ops, d', meta', left', b, p, q');
  }

  lemma HalfShards(d: Disk, op: Op, d': Disk)
    requires DiskHalf(d, op, d')
    ensures forall y | y in d' :: y in d && d'[y].shards == d[y].shards
  {
  }

  lemma UpToDateWiden(ops: seq<Op>, d: Disk, meta: Meta, left: Leftovers, p: nat, q: nat, q': nat)
    requires UpToDate(ops, d, meta, left, p, q) && q <= q' <= |ops|
    ensures UpToDate(ops, d, meta, left, p, q')
  {
    forall x | x in d && NoDrop(ops, x, p, q')
      ensures meta[x] == d[x].mapping
    {
      assert NoDrop(ops, x, p, q);
    }
  }

  lemma UpToDateBack(ops: seq<Op>, d: Disk, meta: Meta, left: Leftovers, b: nat, p: nat, q: nat)
    requires UpToDate(ops, d, meta, left, p, q) && b <= p
    ensures UpToDate(ops, d, meta, left, b, q)
  {
    forall x | x in d && NoDrop(ops, x, b, q)
      ensures meta[x] == d[x].mapping
    {
      assert NoDrop(ops, x, p, q);
    }
  }

  lemma NotLeft(d: Disk, meta: Meta, left: Leftovers, x: Name)
    requires MetaFits(d, meta, left) && x in d
    ensures x !in left
  {
  }

  lemma PutStores(d: Disk, meta: Meta, left: Leftovers, d': Disk, meta': Meta, x: Name)
    requires x in d && x in d' && x !in left && (meta' == meta || meta' == meta[x := d'[x].mapping])
    ensures StoreStep(d, meta, left, d', meta', left, x)
  {
    assert left - {x} == left;
  }

  lemma HalfStored(d: Disk, meta: Meta, left: Leftovers, op: Op, d': Disk, meta': Meta)
    requires op.index in d && op.index in d' && DiskHalf(d, op, d')
    requires meta' == meta[op.index := d'[op.index].mapping]
             || (meta' == meta && d'[op.index].mapping == d[op.index].mapping)
    ensures StoredHalf(d, meta, left, op, d', meta', left)
  {
  }

  lemma WellStored(d: Disk, meta: Meta, left: Leftovers, op: Op, d': Disk, meta': Meta)
    requires op.index in d && op.index in d'
    requires || meta' == meta[op.index := d'[op.index].mapping]
             || (meta' == meta
                 && (d'[op.index].mapping == d[op.index].mapping || Rejecting(d[op.index].mapping, op) != {}))
    ensures StoredWell(d, meta, left, op, d', meta', left)
  {
  }

  lemma NothingLeftOver(ops: seq<Op>, d: Disk, meta: Meta, left: Leftovers, u: Unknown, p: nat, q: nat)
    ensures Settled(ops, d, meta, left, u, p, q) ==> left == map[]
  {
  }

  lemma NodeShape(h: Hash, ops: seq<Op>, d: Disk, meta: Meta, left: Leftovers, touched: set<Name>, s: nat, b: nat,
                  p: nat, q: nat)
    requires Node(h, ops, d, meta, left, touched, s, b, p, q)
    ensures s <= b <= p <= q <= |ops| && WellFormed(d)
    ensures Holds(h, ops, d, touched, s, b, p, q)
  {
    HoldsShape(h, ops, d, touched, s, b, p, q);
  }

  /** Completing a message. */
  lemma NodeDone(h: Hash, ops: seq<Op>, d: Disk, meta: Meta, left: Leftovers, touched: set<Name>, touched': set<Name>,
                 s: nat, b: nat, p: nat, q: nat)
    requires Node(h, ops, d, meta, left, touched, s, b, p, q)
    requires touched <= touched' && b <= p <= q <= |ops| && Noted(ops, d, touched', b, p, q)
    ensures Node(h, ops, d, meta, left, touched', s, p, p, q)
  {
    hide Holds, MetaFits;
    DoneHolds(h, ops, d, touched, touched', s, b, p, q);
  }

  /** What a deletion does, done or not. */
  lemma DropStores(h: Hash, n: nat, ops: seq<Op>, d: Disk, meta: Meta, left: Leftovers, u: Unknown, d': Disk,
                   meta': Meta,
                   left': Leftovers,
                   x: Name, b: nat, q: nat)
    requires WellFormed(d) && MetaFits(d, meta, left) && d' == d - {x} && b < |ops| && ops[b] == Drop(x)
    requires || (left' == left && meta' == if x in d then meta - {x} else meta)
             || (&& x in d && meta' == meta && x in left' && left' == left[x := left'[x]]
                 && GoodIndex(Index(map[], left'[x])) && AllSynced(left'[x]))
    ensures DiskStep(h, n, d, Drop(x), d') && DiskHalf(d, Drop(x), d')
    ensures StoreStep(d, meta, left, d', meta', left', x)
    ensures left' == left && Settled(ops, d, meta, left, u, b, q) ==>
              StoredWell(d, meta, left, Drop(x), d', meta', left')
  {
    if x in d {
      assert left - {x} == left;
    } else {
      assert d' == d;
    }
  }

  lemma SameMappings(ops: seq<Op>, d: Disk, d': Disk, meta: Meta, left: Leftovers, p: nat, q: nat)
    requires d'.Keys == d.Keys && forall x | x in d :: d'[x].mapping == d[x].mapping
    ensures MetaFits(d, meta, left) ==> MetaFits(d', meta, left)
    ensures UpToDate(ops, d, meta, left, p, q) ==> UpToDate(ops, d', meta, left, p, q)
  {
  }

  /** Storing the metadata of an index once more. */
  lemma Restores(h: Hash, ops: seq<Op>, d: Disk, meta: Meta, left: Leftovers, u: Unknown, meta': Meta,
                 touched: set<Name>, s: nat, b: nat, p: nat, q: nat, x: Name)
    requires Node(h, ops, d, meta, left, touched, s, b, p, q) && x in d && meta' == meta[x := d[x].mapping]
    ensures Node(h, ops, d, meta', left, touched, s, b, p, q)
    ensures Guarded(h, ops, d, meta, left, u, s, q) ==> Guarded(h, ops, d, meta', left, Known(u, x), s, q)
    ensures Settled(ops, d, meta, left, u, p, q) ==> Settled(ops, d, meta', left, Known(u, x), p, q)
  {
    hide Holds, Lasting, StoreStep, OnlyIndex, SecureAll, TidyRun;
    NotLeft(d, meta, left, x);
    Itself(d, x);
    PutStores(d, meta, left, d, meta', x);
    StoreFits(d, meta, left, d, meta', left, x);
    hide MetaFits;
    if Guarded(h, ops, d, meta, left, u, s, q) {
      StoreLasts(h, ops, d, meta, left, d, meta', left, touched, s, b, p, q, x);
      SafeShape(ops, d, u, s, q);
      SafeHalf(ops, d, u, d, Known(u, x), x, s, q, q);
    }
    if Settled(ops, d, meta, left, u, p, q) {
      SafeShape(ops, d, u, p, q);
      SafeHalf(ops, d, u, d, Known(u, x), x, p, q, q);
    }
  }

  lemma SafeShape(ops: seq<Op>, d: Disk, u: Unknown, s: nat, q: nat)
    requires SecureAll(ops, d, u, s, q)
    ensures s <= q <= |ops|
  {
  }

  /** An offset that is saved while the node is settled needs nothing more. */
  lemma SettledEndures(h: Hash, ops: seq<Op>, d: Disk, meta: Meta, left: Leftovers, u: Unknown, touched: set<Name>,
                       p: nat, q: nat)
    requires Holds(h, ops, d, touched, p, p, p, q) && Settled(ops, d, meta, left, u, p, q)
    ensures Guarded(h, ops, d, meta, left, u, p, q)
  {
    hide Holds, UpToDate, SecureAll, Lasting, TidyRun;
    UpToDateLasts(h, ops, d, meta, left, touched, p, q);
  }

  lemma SettledBack(ops: seq<Op>, d: Disk, meta: Meta, left: Leftovers, u: Unknown, b: nat, p: nat, q: nat)
    requires Settled(ops, d, meta, left, u, p, q) && b <= p
    ensures Settled(ops, d, meta, left, u, b, q)
  {
    hide UpToDate, SecureAll, TidyRun;
    UpToDateBack(ops, d, meta, left, b, p, q);
    SafeBack(ops, d, u, b, p, q);
  }

  /** When no shard became less safe, and no second-level shard unknown. */
  lemma StaysSafe(ops: seq<Op>, d: Disk, d': Disk, u: Unknown, u': Unknown, s: nat, q: nat)
    requires SecureAll(ops, d, u, s, q) && d'.Keys == d.Keys && u'.Keys <= u.Keys
    requires forall x | x in d :: |d'[x].shards| == |d[x].shards|
    requires forall x, j: nat | x in d && j < |d[x].shards| && Safe(d[x].shards[j], {}) :: Safe(d'[x].shards[j], {})
    ensures SecureAll(ops, d', u', s, q)
  {
    forall x, j: nat | x in d' && NoDrop(ops, x, s, q) && j < |d'[x].shards|
      ensures Safe(d'[x].shards[j], {}) && (x, j) !in u'
    {
      assert SecureShards(d[x].shards, u, x);
      assert Safe(d[x].shards[j], {}) && (x, j) !in u;
    }
  }

  lemma AllGuarded(h: Hash, ops: seq<Op>, d: Disk, d': Disk, meta: Meta, left: Leftovers, u: Unknown, u': Unknown,
                   p: nat, s: nat, q: nat)
    requires d'.Keys == d.Keys && u'.Keys <= u.Keys && forall x | x in d :: |d'[x].shards| == |d[x].shards|
    requires forall x, j: nat | x in d && j < |d[x].shards| && Safe(d[x].shards[j], {}) :: Safe(d'[x].shards[j], {})
    requires UpToDate(ops, d, meta, left, p, q) ==> UpToDate(ops, d', meta, left, p, q)
    ensures Guarded(h, ops, d, meta, left, u, s, q) ==> Guarded(h, ops, d', meta, left, u', s, q)
    ensures Settled(ops, d, meta, left, u, p, q) ==> Settled(ops, d', meta, left, u', p, q)
  {
    hide Lasting, UpToDate, SecureAll, TidyRun, Safe;
    if Guarded(h, ops, d, meta, left, u, s, q) { StaysSafe(ops, d, d', u, u', s, q); }
    if Settled(ops, d, meta, left, u, p, q) { StaysSafe(ops, d, d', u, u', p, q); }
  }

  lemma SafeIsKnown(ops: seq<Op>, d: Disk, u: Unknown, s: nat, q: nat)
    requires SafeAll(ops, d, u, s, q)
    ensures NoneUnknown(ops, d, u, s, q)
  {
    forall x, j: nat | x in d && NoDrop(ops, x, s, q) && j < |d[x].shards|
      ensures UnknownAt(u, x, j) == {}
    {
      assert SafeShards(d[x].shards, u, x);
      assert Safe(d[x].shards[j], UnknownAt(u, x, j));
    }
  }

  lemma CopyKeys(d: Disk, meta: Meta, u: Unknown, b: Backup)
    requires IsCopy(d, meta, u, b)
    ensures b.data.Keys == d.Keys && b.metadata == meta
  {
  }

  /** Syncing makes no shard less safe. */
  lemma SyncedGuarded(h: Hash, ops: seq<Op>, d: Disk, d': Disk, meta: Meta, left: Leftovers, u: Unknown,
                      p: nat, s: nat, q: nat)
    requires Synced(d, d')
    requires UpToDate(ops, d, meta, left, p, q) ==> UpToDate(ops, d', meta, left, p, q)
    ensures Guarded(h, ops, d, meta, left, u, s, q) ==> Guarded(h, ops, d', meta, left, u, s, q)
    ensures Settled(ops, d, meta, left, u, p, q) ==> Settled(ops, d', meta, left, u, p, q)
  {
    SyncedSafe(d, d');
    hide Lasting, UpToDate, SecureAll, TidyRun, Safe, Synced;
    AllGuarded(h, ops, d, d', meta, left, u, u, p, s, q);
  }

  /** A round that synced its log first, and where a new second-level shard is stored, if any. */
  lemma RoundSafe(ops: seq<Op>, d: Disk, u: Unknown, d': Disk, u': Unknown, x: Name, j: nat, s: nat, q: nat)
    requires SecureAll(ops, d, u, s, q) && x in d && j < |d[x].shards| && d'.Keys == d.Keys
    requires forall y | y in d && y != x :: d'[y].shards == d[y].shards
    requires |d'[x].shards| == |d[x].shards|
    requires forall i: nat | i < |d[x].shards| && i != j :: d'[x].shards[i] == d[x].shards[i]
    requires Sound(d[x].shards[j]) ==> Safe(d'[x].shards[j], {})
    requires (x, j) !in u ==> u' == u
    requires forall k | k in u' :: k in u || k == (x, j)
    ensures SecureAll(ops, d', u', s, q)
  {
    forall y, i: nat | y in d' && NoDrop(ops, y, s, q) && i < |d'[y].shards|
      ensures Safe(d'[y].shards[i], {}) && (y, i) !in u'
    {
      assert SecureShards(d[y].shards, u, y);
      assert Safe(d[y].shards[i], {}) && (y, i) !in u;
    }
  }

  lemma RoundGuarded(h: Hash, ops: seq<Op>, d: Disk, meta: Meta, left: Leftovers, u: Unknown, d': Disk, u': Unknown,
                     x: Name, j: nat, p: nat, s: nat, q: nat)
    requires x in d && j < |d[x].shards| && d'.Keys == d.Keys
    requires forall y | y in d && y != x :: d'[y].shards == d[y].shards
    requires |d'[x].shards| == |d[x].shards|
    requires forall i: nat | i < |d[x].shards| && i != j :: d'[x].shards[i] == d[x].shards[i]
    requires Sound(d[x].shards[j]) ==> Safe(d'[x].shards[j], {})
    requires (x, j) !in u ==> u' == u
    requires forall k | k in u' :: k in u || k == (x, j)
    requires UpToDate(ops, d, meta, left, p, q) ==> UpToDate(ops, d', meta, left, p, q)
    ensures Guarded(h, ops, d, meta, left, u, s, q) ==> Guarded(h, ops, d', meta, left, u', s, q)
    ensures Settled(ops, d, meta, left, u, p, q) ==> Settled(ops, d', meta, left, u', p, q)
  {
    hide Lasting, UpToDate, SecureAll, TidyRun, Safe, Sound;
    if Guarded(h, ops, d, meta, left, u, s, q) { RoundSafe(ops, d, u, d', u', x, j, s, q); }
    if Settled(ops, d, meta, left, u, p, q) { RoundSafe(ops, d, u, d', u', x, j, p, q); }
  }

  lemma SyncedSafe(d: Disk, d': Disk)
    requires Synced(d, d')
    ensures d'.Keys == d.Keys && forall x | x in d :: |d'[x].shards| == |d[x].shards|
    ensures forall x, j: nat | x in d && j < |d[x].shards| && Safe(d[x].shards[j], {}) :: Safe(d'[x].shards[j], {})
  {
    forall x, j: nat | x in d && j < |d[x].shards| && Safe(d[x].shards[j], {})
      ensures Safe(d'[x].shards[j], {})
    {
      assert ShardSynced(d[x].shards[j], d'[x].shards[j]);
    }
  }

  lemma Itself(d: Disk, x: Name)
    ensures OnlyIndex(d, d, x)
  {
  }

  /** The node that a restart finds stands at the saved offset exactly when the stored metadata
      lasts and its shards are sound. Where no crash could do harm, none can after it. */
  lemma RestartStands(h: Hash, ops: seq<Op>, d: Disk, meta: Meta, left: Leftovers, u: Unknown, d': Disk,
                      touched: set<Name>, s: nat, b: nat, p: nat, q: nat)
    requires Node(h, ops, d, meta, left, touched, s, b, p, q) && Restarted(d, meta, left, u, d')
    ensures s <= q <= |ops|
    ensures Node(h, ops, d', meta, map[], {}, s, s, s, q) <==>
              Lasting(h, ops, meta, left, s, q) && SoundAll(ops, d', s, q)
    ensures Enduring(h, ops, d, meta, left, u, s, q) ==>
              && Node(h, ops, d', meta, map[], {}, s, s, s, q)
              && Guarded(h, ops, d', meta, map[], map[], s, q)
              && (TidyRun(map[], ops) ==> Settled(ops, d', meta, map[], map[], s, q))
  {
    NodeShape(h, ops, d, meta, left, touched, s, b, p, q);
    hide Holds, MetaFits, Lasting, UpToDate, Restarted, SoundAll, SafeAll, SecureAll, TidyRun;
    CrashHolds(h, ops, d, meta, left, u, d', touched, s, b, p, q);
    RestartedNode(h, ops, d, meta, left, u, d', s, q);
    if Enduring(h, ops, d, meta, left, u, s, q) {
      SafeRestart(h, ops, d, meta, left, u, d', s, q);
      NoneUnknownIsSecure(ops, d', s, q);
    }
  }

  lemma NoneUnknownIsSecure(ops: seq<Op>, d: Disk, s: nat, q: nat)
    requires SafeAll(ops, d, map[], s, q)
    ensures SecureAll(ops, d, map[], s, q)
  {
    forall x, j: nat | x in d && NoDrop(ops, x, s, q) && j < |d[x].shards|
      ensures Safe(d[x].shards[j], {})
    {
      assert SafeShards(d[x].shards, map[], x);
      assert Safe(d[x].shards[j], UnknownAt(map[], x, j));
    }
  }

  /** A node restored from a good backup stands at its offset, and needs nothing more. */
  lemma RestoredStands(h: Hash, n: nat, ops: seq<Op>, b: Backup, s: nat, q: nat)
    requires GoodBackup(h, n, ops, b, s, q) && CleanRun(map[], ops) && b.data.Keys <= b.metadata.Keys
    ensures var d := RestoredDisk(n, b);
            && Node(h, ops, d, b.metadata, map[], {}, s, s, s, q)
            && Guarded(h, ops, d, b.metadata, map[], map[], s, q)
            && (TidyRun(map[], ops) ==> Settled(ops, d, b.metadata, map[], map[], s, q))
  {
    RestoredNode(h, n, ops, b, s, q);
    RestoredSafe(ops, n, b, s, q);
    hide Holds, MetaFits, Lasting, UpToDate, SecureAll, RestoredDisk, TidyRun;
    UpToDateLasts(h, ops, RestoredDisk(n, b), b.metadata, map[], {}, s, q);
  }

  lemma GoodShards(idx: Index)
    requires GoodIndex(idx)
    ensures forall j | 0 <= j < |idx.shards| :: GoodShard(idx.shards[j])
  {
  }

  lemma GoodTails(shards: seq<Shard>, u: Unknown, x: Name, shards': seq<Shard>)
    requires GoodIndex(Index(map[], shards)) && ShardsCrashed(shards, u, x, shards')
    ensures shards' != [] && forall j | 0 <= j < |shards'| :: GoodShard(shards'[j])
  {
    forall j | 0 <= j < |shards'|
      ensures GoodShard(shards'[j])
    {
      assert ShardCrashed(shards[j], UnknownAt(u, x, j), shards'[j]) && GoodShard(Index(map[], shards).shards[j]);
    }
  }

  lemma IsCrashed(s: Shard, ids: set<DocId>, keep: int, synced: int, gone: set<DocId>)
    requires s.synced <= synced <= keep <= |s.wal| - s.hole && gone <= ids
    ensures ShardCrashed(s, ids, CrashedTo(s, ids, keep, synced, gone))
  {
  }

  /** The node after a restart: its memory is what the metadata has. */
  lemma RestartedNode(h: Hash, ops: seq<Op>, d: Disk, meta: Meta, left: Leftovers, u: Unknown, d': Disk, s: nat, q: nat)
    requires WellFormed(d) && MetaFits(d, meta, left) && Restarted(d, meta, left, u, d') && s <= q <= |ops|
    ensures MetaFits(d', meta, map[]) && UpToDate(ops, d', meta, map[], s, q)
    ensures Holds(h, ops, d', {}, s, s, s, q) ==> Lasting(h, ops, meta, map[], s, q)
  {
    forall x | x in d'
      ensures d'[x].mapping == meta[x] && Sub(meta[x], d'[x].mapping)
    {
      assert RestartedAt(d, meta, left, u, d', x);
    }
    if Holds(h, ops, d', {}, s, s, s, q) {
      hide Holds, MetaFits, Restarted;
      UpToDateLasts(h, ops, d', meta, map[], {}, s, q);
    }
  }
}
