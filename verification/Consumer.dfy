/** The stream consumer of a node (pkg/streaming/consumer.go) with the applier
    (pkg/streaming/apply.go), the stored metadata of its indexes (pkg/core/newindex.go), its
    offset, crashes, backups and restores. */
module StreamConsumer {
  import opened Wrappers
  import opened Replication
  import opened NodeDisk
  import opened NodeInvariant

  /** How one attempt to apply something ended. Skipped means it can never succeed. */
  datatype Outcome = Done | Skipped | Failed

  /** What the node learns from the stream server. first is the oldest message it holds. */
  datatype StreamInfo = StreamInfo(msgs: nat, first: nat, last: nat) {
    /** The first message that can still be delivered. */
    function Oldest(): nat { if msgs == 0 then last + 1 else first }
  }

  datatype GapError = ErrGap | ErrAhead

  /** One round of the log consumer on one shard: it applies k entries, with synced entries
      on disk and a chunk of begun entries begun afterwards; the documents of the first reached
      entries are in second-level shards then. grows tells whether it starts a new second-level
      shard, and stores whether the metadata of the index is stored then. */
  datatype Round = Round(k: nat, synced: int, begun: nat, reached: nat, grows: bool, stores: bool)

  predicate Possible(s: Shard, r: Round) {
    MayConsume(s, r.k, r.synced, r.begun) && r.k <= r.reached <= r.k + r.begun
  }

  function Shifted(idx: Index, j: nat, r: Round): Index
    requires j < |idx.shards| && Possible(idx.shards[j], r)
  {
    idx.(shards := idx.shards[j := ConsumedTo(idx.shards[j], r.k, r.synced, r.begun)])
  }

  function Ids(wal: seq<(DocId, Doc)>): set<DocId> { set i | 0 <= i < |wal| :: wal[i].0 }

  /** Documents went to the latest second-level shard, which may be an unknown one. */
  function Moved(u: Unknown, x: Name, j: nat, ids: set<DocId>): Unknown {
    if (x, j) in u then u[(x, j) := u[(x, j)] + ids] else u
  }

  /** What the stored metadata does not know after such a round. */
  function Unseen(u: Unknown, x: Name, j: nat, wal: seq<(DocId, Doc)>, r: Round): Unknown
    requires r.reached <= |wal|
  {
    var moved := Moved(u, x, j, Ids(wal[..r.reached]));
    if !r.grows then moved else if r.stores then Known(u, x) else moved[(x, j) := UnknownAt(moved, x, j)]
  }

  lemma RoundConsumes(d: Disk, x: Name, j: nat, r: Round)
    requires x in d && j < |d[x].shards| && Possible(d[x].shards[j], r)
    ensures Consumed(d, d[x := Shifted(d[x], j, r)])
    ensures Harmless(d[x].shards[j], r) && Sound(d[x].shards[j]) ==> Safe(Shifted(d[x], j, r).shards[j], {})
  {
    var d' := d[x := Shifted(d[x], j, r)];
    assert ShardConsumed(d[x].shards[j], d'[x].shards[j]);
  }

  lemma MovedKnown(u: Unknown, x: Name, j: nat, ids: set<DocId>)
    ensures Known(Moved(u, x, j, ids), x) == Known(u, x)
  {
  }

  /** A round whose sync succeeds, as does the store of a new second-level shard. */
  predicate Harmless(s: Shard, r: Round) { r.synced == |s.wal| - r.k && (r.grows ==> r.stores) }

  /** All of a log, synced, is applied. */
  function Whole(s: Shard): Round { Round(|s.wal|, 0, 0, |s.wal|, false, false) }

  function WhollyConsumed(s: Shard): Shard { if Possible(s, Whole(s)) then ConsumedTo(s, |s.wal|, 0, 0) else s }

  lemma EmptiedShard(s: Shard)
    requires GoodShard(s)
    ensures ShardConsumed(s, WhollyConsumed(s)) && (Sound(s) ==> WhollyConsumed(s).wal == [])
    ensures Safe(s, {}) ==> Safe(WhollyConsumed(s), {})
  {
  }

  /** The documents of all logs go to the latest second-level shards. */
  function AllMoved(u: Unknown, d: Disk): Unknown {
    map k | k in u :: u[k] + LogIds(d, k.0, k.1)
  }

  function LogIds(d: Disk, x: Name, j: nat): set<DocId> {
    if x in d && j < |d[x].shards| then Ids(d[x].shards[j].wal) else {}
  }

  lemma MovedKeys(u: Unknown, d: Disk)
    ensures AllMoved(u, d).Keys == u.Keys
  {
  }

  lemma ConsumedLengths(d: Disk, d': Disk)
    requires Consumed(d, d')
    ensures forall x | x in d :: x in d' && |d'[x].shards| == |d[x].shards|
  {
  }

  function Drained(idx: Index): Index {
    var n := |idx.shards|;
    idx.(shards := seq(n, (j: nat) requires j < n => WhollyConsumed(idx.shards[j])))
  }

  /** A passing failure may happen whenever the environment is not quiet. */
  method Fault(quiet: bool) returns (fails: bool)
    ensures quiet ==> !fails
  {
    fails := *;
    if quiet { fails := false; }
  }

  /** Where consuming continues, or an error when the stream was trimmed past the node's
      position and gaps are not allowed. */
  method CheckGap(applied: nat, info: StreamInfo, allowGap: bool) returns (r: Result<nat, GapError>)
    ensures r.Failure? <==> !allowGap && if info.msgs == 0 then applied < info.last else applied + 1 < info.first
    ensures r.Success? ==> r.value == Max(applied + 1, if info.msgs == 0 then info.last + 1 else info.first)
    ensures r.Failure? ==> r.error == ErrGap
  {
    var need := applied + 1;
    var first := info.first;
    if info.msgs == 0 { first := info.last + 1; }
    if need >= first { return Success(need); }
    if !allowGap { return Failure(ErrGap); }
    return Success(first);
  }

  /** The cursor position a consumer is (re)created at. */
  method Prepare(applied: nat, info: StreamInfo, allowGap: bool) returns (r: Result<nat, GapError>)
    ensures r.Success? <==>
              (allowGap || info.Oldest() <= applied + 1) && Max(applied + 1, info.Oldest()) <= info.last + 1
    ensures r.Success? ==> r.value == Max(applied + 1, if info.msgs == 0 then info.last + 1 else info.first)
    ensures r.Failure? ==>
              r.error == if !allowGap && applied + 1 < info.Oldest() then ErrGap else ErrAhead
  {
    r := CheckGap(applied, info, allowGap);
    if r.Success? && r.value > info.last + 1 { r := Failure(ErrAhead); }
  }

  lemma SeesOne(m: Mapping, defs: Mapping, seen: set<Field>, f: Field)
    requires f in defs && f !in seen
    ensures f in Seen(m, defs, seen) <==> f in m
    ensures Seen(m, defs, seen + {f}) == if f in m then Seen(m, defs, seen) else Seen(m, defs, seen)[f := defs[f]]
    ensures f in m ==> Seen(m, defs, seen)[f] == m[f]
  {
  }

  lemma SeesNothing(m: Mapping, defs: Mapping)
    ensures Seen(m, defs, {}) == m
  {
  }

  lemma MergesAll(m: Mapping, fields: Mapping)
    ensures Seen(m, fields, fields.Keys) == Merged(m, fields)
  {
  }

  lemma Stopped(m: Mapping, fields: Mapping, seen: set<Field>, f: Field)
    requires seen <= fields.Keys && f in seen && f in m && m[f] != fields[f]
    requires forall g | g in seen && g in m && g != f :: m[g] == fields[g]
    ensures LeftBehind(m, fields, Conflicts(m, fields), Seen(m, fields, seen))
  {
    assert StopsAfter(fields, Conflicts(m, fields), seen, f);
  }

  lemma LearnsIff(m: Mapping, doc: Doc)
    ensures Learn(m, doc) == m <==> doc.Keys <= m.Keys
  {
    if !(doc.Keys <= m.Keys) {
      var f :| f in doc && f !in m;
      assert f in Learn(m, doc);
    }
  }

  lemma HasShards(idx: Index)
    requires GoodIndex(idx)
    ensures idx.shards != []
  {
  }

  lemma PutHalfIs(d: Disk, x: Name, id: DocId, doc: Doc, d': Disk)
    requires x in d && Accepts(d[x].mapping, doc) && d' == d[x := d[x].(mapping := Learn(d[x].mapping, doc))]
    ensures DiskHalf(d, Put(x, id, doc), d')
  {
  }

  lemma PutSkipIs(h: Hash, n: nat, d: Disk, x: Name, id: DocId, doc: Doc, d': Disk)
    requires WellFormed(d) && x in d && !Accepts(d[x].mapping, doc)
    requires x in d' && d' == d[x := d[x].(mapping := d'[x].mapping)]
    requires LeftBehind(d[x].mapping, Naturals(doc), BadFields(d[x].mapping, doc), d'[x].mapping)
    ensures DiskStep(h, n, d, Put(x, id, doc), d')
  {
  }

  lemma PutStepIs(h: Hash, n: nat, d: Disk, x: Name, id: DocId, doc: Doc, d': Disk)
    requires WellFormed(d) && x in d && Accepts(d[x].mapping, doc) && d[x].shards != []
    requires d' == d[x := Index(Learn(d[x].mapping, doc), Appended(h, d[x], id, doc))]
    ensures DiskStep(h, n, d, Put(x, id, doc), d')
  {
  }

  lemma SameSlot(h: Hash, idx: Index, m: Mapping, id: DocId, doc: Doc)
    requires idx.shards != []
    ensures Appended(h, idx.(mapping := m), id, doc) == Appended(h, idx, id, doc)
  {
  }

  /** A document goes to the log of the shard that its ID decides. */
  lemma AppendsToOne(h: Hash, idx: Index, id: DocId, doc: Doc)
    requires idx.shards != []
    ensures |Appended(h, idx, id, doc)| == |idx.shards|
    ensures forall j | 0 <= j < |idx.shards| && j != h(id) % |idx.shards| ::
              Appended(h, idx, id, doc)[j] == idx.shards[j]
  {
  }

  lemma LearnsAll(m: Mapping, doc: Doc)
    ensures Seen(m, Naturals(doc), doc.Keys) == Learn(m, doc)
  {
  }

  /** The fields seen get the kinds of their first scalars, where they are not mapped. */
  lemma SeenKinds(m: Mapping, doc: Doc, seen: set<Field>)
    ensures var m' := Seen(m, Naturals(doc), seen);
            && (forall f | f in m :: f in m' && m'[f] == m[f])
            && (forall f | f in m' && f !in m ::
                  && f in doc
                  && match doc[f].first.look
                     case Word => m'[f] == Prop(Text, "")
                     case Number => m'[f] == Prop(Numeric, "")
                     case Flag => m'[f] == Prop(Bool, "")
                     case Moment(layout) => m'[f] == Prop(Date, layout))
            && (seen == doc.Keys ==> m'.Keys == m.Keys + doc.Keys)
  {
  }

  lemma StopsAt(m: Mapping, doc: Doc, seen: set<Field>, f: Field)
    requires seen <= doc.Keys && f in seen && !Fits(DefinitionOf(m, f, doc[f]), doc[f])
    requires forall g | g in seen && g != f :: Fits(DefinitionOf(m, g, doc[g]), doc[g])
    ensures LeftBehind(m, Naturals(doc), BadFields(m, doc), Seen(m, Naturals(doc), seen))
  {
    assert StopsAfter(Naturals(doc), BadFields(m, doc), seen, f);
  }

  /** When a document is accepted. Every scalar must be readable: everything as text or keyword,
      numbers and booleans as each other, a date in its own layout, and what can be parsed. A
      field that is not mapped is checked against what its first scalar looks like. */
  lemma AcceptsIff(m: Mapping, doc: Doc)
    ensures Accepts(m, doc) <==>
              forall f | f in doc :: forall s | s in doc[f].All() ::
                if f in m then
                  || m[f].kind == Text || m[f].kind == Keyword || m[f] in s.readable
                  || ((m[f].kind == Numeric || m[f].kind == Bool) && (s.look == Number || s.look == Flag))
                  || (m[f].kind == Date && s.look == Moment(m[f].options))
                else match doc[f].first.look
                  case Word => true
                  case Number => s.look == Number || s.look == Flag || Prop(Numeric, "") in s.readable
                  case Flag => s.look == Number || s.look == Flag || Prop(Bool, "") in s.readable
                  case Moment(layout) => s.look == Moment(layout) || Prop(Date, layout) in s.readable
  {
    hide Fits;
    forall f | f in doc
      ensures Fits(DefinitionOf(m, f, doc[f]), doc[f]) <==> forall s | s in doc[f].All() ::
                if f in m then
                  || m[f].kind == Text || m[f].kind == Keyword || m[f] in s.readable
                  || ((m[f].kind == Numeric || m[f].kind == Bool) && (s.look == Number || s.look == Flag))
                  || (m[f].kind == Date && s.look == Moment(m[f].options))
                else match doc[f].first.look
                  case Word => true
                  case Number => s.look == Number || s.look == Flag || Prop(Numeric, "") in s.readable
                  case Flag => s.look == Number || s.look == Flag || Prop(Bool, "") in s.readable
                  case Moment(layout) => s.look == Moment(layout) || Prop(Date, layout) in s.readable
    {
      FitsAll(DefinitionOf(m, f, doc[f]), doc[f]);
    }
  }

  lemma SinglesFit(m: Mapping, doc: Doc)
    ensures (forall f | f in doc :: f !in m && doc[f].more == []) ==> Accepts(m, doc)
  {
  }

  lemma FitsAll(p: Prop, v: Value)
    ensures Fits(p, v) <==> forall s | s in v.All() :: FitsOne(p, s)
  {
    hide FitsOne;
    assert v.All()[0] == v.first;
    assert forall s | s in v.more :: s in v.All();
  }

  /** Checks a document against the mapping, extending the mapping on the way. The fields are
      visited in map order, so what a rejected document leaves behind is not determined. A field
      that is learned gets the kind of its first scalar: strings are text, or dates where they
      look like one, numbers are numeric, booleans are bool. A single scalar is never refused
      by the definition it was given. */
  method CheckDocument(m: Mapping, doc: Doc) returns (ok: bool, m': Mapping)
    ensures ok <==> Accepts(m, doc)
    ensures (forall f | f in doc :: f !in m && doc[f].more == []) ==> ok
    ensures ok ==> m' == Learn(m, doc) && m'.Keys == m.Keys + doc.Keys
    ensures !ok ==> LeftBehind(m, Naturals(doc), BadFields(m, doc), m')
    ensures forall f | f in m :: f in m' && m'[f] == m[f]
    ensures forall f | f in m' && f !in m ::
              && f in doc
              && match doc[f].first.look
                 case Word => m'[f] == Prop(Text, "")
                 case Number => m'[f] == Prop(Numeric, "")
                 case Flag => m'[f] == Prop(Bool, "")
                 case Moment(layout) => m'[f] == Prop(Date, layout)
  {
    SinglesFit(m, doc);
    hide Seen, Learn, Fits, LeftBehind, Value.Natural;
    m' := m;
    var todo := doc.Keys;
    ghost var defs, seen := Naturals(doc), {};
    SeesNothing(m, defs);
    while todo != {}
      invariant todo <= doc.Keys && seen == doc.Keys - todo && m' == Seen(m, defs, seen)
      invariant forall f | f in seen :: Fits(DefinitionOf(m, f, doc[f]), doc[f])
    {
      var f :| f in todo;
      SeesOne(m, defs, seen, f);
      todo, seen := todo - {f}, seen + {f};
      SeenKinds(m, doc, seen);
      if f !in m' { m' := m'[f := doc[f].Natural()]; }
      if !Fits(m'[f], doc[f]) {
        StopsAt(m, doc, seen, f);
        return false, m';
      }
    }
    assert seen == doc.Keys;
    SeenKinds(m, doc, seen);
    LearnsAll(m, doc);
    ok := true;
  }

  /** Adds fields one by one, in map order, until one is mapped differently. */
  method MergeFields(start: Mapping, fields: Mapping) returns (agrees: bool, m: Mapping)
    ensures agrees <==> Agrees(start, fields)
    ensures agrees ==> m == Merged(start, fields)
    ensures !agrees ==> LeftBehind(start, fields, Conflicts(start, fields), m)
  {
    hide Seen, LeftBehind;
    m := start;
    var todo := fields.Keys;
    ghost var seen := {};
    SeesNothing(start, fields);
    while todo != {}
      invariant todo <= fields.Keys && seen == fields.Keys - todo && m == Seen(start, fields, seen)
      invariant forall f | f in seen && f in start :: start[f] == fields[f]
    {
      var f :| f in todo;
      SeesOne(start, fields, seen, f);
      todo, seen := todo - {f}, seen + {f};
      if f !in m {
        m := m[f := fields[f]];
      } else if m[f] != fields[f] {
        Stopped(start, fields, seen, f);
        return false, m;
      }
    }
    assert seen == fields.Keys;
    MergesAll(start, fields);
    agrees := true;
  }

  // ---------------------------------------------------------------- gaps

  function Nums(batch: seq<(nat, Message)>): (nums: seq<nat>)
    ensures |nums| == |batch| && forall i | 0 <= i < |batch| :: nums[i] == batch[i].0
  {
    seq(|batch|, i requires 0 <= i < |batch| => batch[i].0)
  }

  /** The messages that a batch delivering these numbers makes the node apply. */
  function Taken(last: nat, nums: seq<nat>): seq<nat> {
    if nums == [] then []
    else
      var before, n := nums[..|nums| - 1], nums[|nums| - 1];
      Taken(last, before) + if n > EndOf(last, before) then [n] else []
  }

  /** The offset after the batch. */
  function EndOf(last: nat, nums: seq<nat>): nat {
    if nums == [] then last else Max(EndOf(last, nums[..|nums| - 1]), nums[|nums| - 1])
  }

  /** No delivered message is more than one ahead of everything before it. */
  predicate NoJump(last: nat, nums: seq<nat>) {
    nums == [] || (NoJump(last, nums[..|nums| - 1]) && nums[|nums| - 1] <= EndOf(last, nums[..|nums| - 1]) + 1)
  }

  lemma TakenNothing(last: nat)
    ensures Taken(last, []) == [] && EndOf(last, []) == last && NoJump(last, [])
  {
  }

  /** One more message. */
  lemma TakenNext(last: nat, nums: seq<nat>, n: nat)
    ensures EndOf(last, nums + [n]) == Max(EndOf(last, nums), n)
    ensures Taken(last, nums + [n]) == if n > EndOf(last, nums) then Taken(last, nums) + [n] else Taken(last, nums)
    ensures NoJump(last, nums + [n]) <==> NoJump(last, nums) && n <= EndOf(last, nums) + 1
  {
    assert (nums + [n])[..|nums|] == nums;
  }

  lemma {:induction false} TakenPrefix(last: nat, nums: seq<nat>, i: nat)
    requires i <= |nums|
    ensures Taken(last, nums[..i]) <= Taken(last, nums) && (NoJump(last, nums) ==> NoJump(last, nums[..i]))
    ensures NoJump(last, nums) && i < |nums| ==> nums[i] <= EndOf(last, nums[..i]) + 1
    decreases |nums|
  {
    if i == |nums| {
      assert nums[..i] == nums;
    } else {
      var before := nums[..|nums| - 1];
      TakenPrefix(last, before, i);
      assert before[..i] == nums[..i];
    }
  }

  /** Every message that the offset moves over is applied. */
  ghost predicate Covered(last: nat, nums: seq<nat>) {
    forall n: nat | last < n <= EndOf(last, nums) :: n in Taken(last, nums)
  }

  lemma {:induction false} EndGrows(last: nat, nums: seq<nat>)
    ensures last <= EndOf(last, nums)
    ensures forall n | n in Taken(last, nums) :: last < n <= EndOf(last, nums)
  {
    if nums != [] { EndGrows(last, nums[..|nums| - 1]); }
  }

  /** Every message the offset moves over is applied exactly when no delivered message jumps
      ahead. The live check looks at the first message only, so contiguity within a batch is
      what the rest depends on. */
  lemma {:induction false} CoveredIffNoJump(last: nat, nums: seq<nat>)
    ensures Covered(last, nums) <==> NoJump(last, nums)
  {
    if nums != [] {
      var before, n := nums[..|nums| - 1], nums[|nums| - 1];
      var t, end := Taken(last, before), EndOf(last, before);
      CoveredIffNoJump(last, before);
      EndGrows(last, before);
      assert forall k | k <= end :: k in Taken(last, nums) <==> k in t;
      if n > end + 1 {
        assert last < end + 1 <= EndOf(last, nums) && end + 1 !in Taken(last, nums);
      }
    }
  }

  /** What a node takes is one after another, without a gap. */
  lemma {:induction false} TakenInOrder(last: nat, nums: seq<nat>)
    requires NoJump(last, nums)
    ensures |Taken(last, nums)| == EndOf(last, nums) - last
    ensures forall i | 0 <= i < |Taken(last, nums)| :: Taken(last, nums)[i] == last + 1 + i
  {
    if nums != [] { TakenInOrder(last, nums[..|nums| - 1]); }
  }

  /** A gap inside a batch goes unnoticed: the first message follows the offset, and the
      offset still moves over messages that were never applied. */
  lemma GapInsideBatch()
    ensures EndOf(4, [5, 9]) == 9 && Taken(4, [5, 9]) == [5, 9] && 6 !in Taken(4, [5, 9])
  {
    assert [5, 9] == [] + [5] + [9];
    TakenNothing(4);
    TakenNext(4, [], 5);
    TakenNext(4, [] + [5], 9);
  }

  // ---------------------------------------------------------------- the node

  class Consumer {
    const hash: Hash
    const shardNum: nat
    /** The messages of the stream, oldest first; message i has sequence number i + 1. */
    const stream: seq<Message>
    /** The operations of the stream. */
    const ops: seq<Op>

    /** The indexes in memory, with the data of their shards. Their mappings are lost in a crash. */
    var disk: Disk
    // durable
    var meta: Meta
    var left: Leftovers
    /** The documents in second-level shards that meta does not know. */
    var unknown: Unknown
    var saved: nat
    /** The position of the saved offset among the operations. */
    var at: nat
    // in memory
    var touched: set<Name>
    var applied: nat
    /** Where the server will deliver from, if there is a cursor. */
    var cursor: Option<nat>
    // the stream server
    var first: nat
    var published: nat
    /** The furthest operation that was ever attempted. */
    var high: nat

    /** The node while it applies messages: it completed the operations up to b since it last
        started at its saved offset, and performed those up to p. */
    ghost predicate In(b: nat, p: nat)
      reads this`disk, this`meta, this`left, this`at, this`touched, this`high
    {
      shardNum > 0 && Node(hash, ops, disk, meta, left, touched, at, b, p, high)
    }

    /** No change of a mapping and no deletion by a message up to the saved offset is missing
        from the stored metadata, and what the shards committed is on disk and known to it. */
    ghost predicate Durable()
      reads this`disk, this`meta, this`unknown, this`left, this`at, this`high
    {
      Enduring(hash, ops, disk, meta, left, unknown, at, high)
    }

    /** Moreover there is no second-level shard that the stored metadata does not know. */
    ghost predicate Guarded()
      reads this`disk, this`meta, this`unknown, this`left, this`at, this`high
    {
      NodeInvariant.Guarded(hash, ops, disk, meta, left, unknown, at, high)
    }

    /** The stored metadata is that of memory, but for indexes that will be deleted; the shards
        are safe; and no message is rejected only after it changed a mapping. */
    ghost predicate Current(p: nat)
      reads this`disk, this`meta, this`unknown, this`left, this`high
    {
      Settled(ops, disk, meta, left, unknown, p, high)
    }

    ghost predicate ServerOk()
      reads this`first, this`published, this`cursor, this`applied
    {
      1 <= first <= published + 1 && published <= |stream| && (cursor.Some? ==> cursor.value <= applied + 1)
    }

    /** The state between two steps: what the node holds is at least the first saved messages
        and differs from them only in what will be applied again. */
    ghost predicate Valid()
      reads this
    {
      applied == saved && Standing()
    }

    ghost predicate Anchored()
      reads this`saved, this`at, this`first, this`published, this`cursor, this`applied
    {
      saved <= |stream| && ops == StreamOps(1, stream) && at == Pos(stream, saved) && ServerOk()
    }

    /** The node stands at its saved offset. */
    ghost predicate Standing()
      reads this
    {
      Anchored() && In(at, at)
    }

    ghost function View(): View
      requires WellFormed(disk)
      reads this`disk
    {
      ViewOf(hash, disk)
    }

    /** An empty node. */
    constructor (hash: Hash, shardNum: nat, stream: seq<Message>)
      requires shardNum > 0 && CleanRun(map[], StreamOps(1, stream))
      ensures Valid() && this.hash == hash && this.shardNum == shardNum && this.stream == stream
      ensures ops == StreamOps(1, stream) && applied == 0 && touched == {}
      ensures saved == 0 && disk == map[] && meta == map[] && left == map[] && unknown == map[] && high == 0
      ensures Guarded() && (TidyRun(map[], ops) ==> Current(at))
      ensures published == 0 && first == 1 && cursor == None
    {
      this.hash, this.shardNum, this.stream, ops := hash, shardNum, stream, StreamOps(1, stream);
      disk, meta, left, saved, at, touched, applied, high := map[], map[], map[], 0, 0, {}, 0, 0;
      cursor, first, published, unknown := None, 1, 0, map[];
      new;
      assert stream[..0] == [];
      assert ViewOf(hash, disk) == At(map[], ops, 0);
      ExactIsBetween(map[], ops, 0, 0);
      hide Holds, Lasting;
      UpToDateLasts(hash, ops, disk, meta, left, touched, 0, 0);
    }

    /** A node restored from a backup resumes right after the last message the backup covers. */
    constructor Restore(hash: Hash, shardNum: nat, stream: seq<Message>, b: Backup, q: nat, first: nat, published: nat)
      requires shardNum > 0 && b.offset <= |stream| && CleanRun(map[], StreamOps(1, stream))
      requires GoodBackup(hash, shardNum, StreamOps(1, stream), b, Pos(stream, b.offset), q)
      requires b.data.Keys <= b.metadata.Keys && 1 <= first <= published + 1 && published <= |stream|
      ensures Valid() && this.hash == hash && this.shardNum == shardNum && this.stream == stream
      ensures saved == b.offset && high == q && disk == RestoredDisk(shardNum, b)
      ensures Guarded() && (TidyRun(map[], ops) ==> Current(at))
      ensures this.first == first && this.published == published
    {
      hide Node, NodeInvariant.Guarded, Settled, RestoredDisk, TidyRun, GoodBackup, CleanRun;
      this.hash, this.shardNum, this.stream, ops := hash, shardNum, stream, StreamOps(1, stream);
      disk, meta, left, unknown := RestoredDisk(shardNum, b), b.metadata, map[], map[];
      saved, at, touched, applied, high := b.offset, Pos(stream, b.offset), {}, b.offset, q;
      cursor, this.first, this.published := None, first, published;
      new;
      RestoredStands(hash, shardNum, ops, b, at, q);
    }

    // -------------------------------------------------------------- one attempt

    /** stores tells whether writing the metadata succeeds. */
    method GetOrCreateIndex(x: Name, stores: bool) returns (ok: bool, existed: bool)
      requires WellFormed(disk)
      modifies this`disk, this`meta, this`unknown, this`left
      ensures existed <==> x in old(disk)
      ensures ok <==> existed || stores
      ensures ok ==> x in disk && DiskStep(hash, shardNum, old(disk), Ensure(x), disk)
      ensures ok && !existed ==> disk[x].mapping == map[] && meta == old(meta)[x := map[]] && left == old(left) - {x}
      ensures ok && !existed ==>
                |disk[x].shards| == shardNum && forall j | 0 <= j < shardNum :: ShardDocs(disk[x].shards[j]) == map[]
      ensures existed ==> disk == old(disk) && meta == old(meta) && left == old(left) && unknown == old(unknown)
      ensures Knows(old(disk), old(unknown), disk, unknown, x)
      ensures ok ==> StoreStep(old(disk), old(meta), old(left), disk, meta, left, x)
      ensures ok && old(left) == map[] ==> StoredWell(old(disk), old(meta), old(left), Ensure(x), disk, meta, left)
      ensures !ok ==> disk == old(disk) && meta == old(meta) && left == old(left) && unknown == old(unknown)
    {
      existed := x in disk;
      if existed { return true, true; }
      if !stores { return false, false; }
      disk, meta, left := disk[x := FreshIndex(map[], shardNum)], meta[x := map[]], left - {x};
      unknown := Known(unknown, x);
      ok := true;
    }

    /** Accepts a document into the log of its shard. The mapping is extended in memory first,
        and stored only by the attempt that extended it. stores and logs tell whether writing
        the metadata and the log succeeds. */
    method CreateDocument(x: Name, id: DocId, doc: Doc, stores: bool, logs: bool) returns (r: Outcome)
      requires WellFormed(disk) && x in disk
      modifies this`disk, this`meta, this`unknown
      ensures r == Skipped <==> !Accepts(old(disk)[x].mapping, doc)
      ensures r == Failed <==> r != Skipped && (!logs || (!stores && !(doc.Keys <= old(disk)[x].mapping.Keys)))
      ensures r != Skipped ==> x in disk && disk[x].mapping == Learn(old(disk)[x].mapping, doc)
      ensures doc.Keys <= old(disk)[x].mapping.Keys ==> meta == old(meta) && unknown == old(unknown)
      ensures r != Skipped && !stores ==> meta == old(meta)
      ensures r != Failed ==> DiskStep(hash, shardNum, old(disk), Put(x, id, doc), disk)
      ensures r == Failed ==> DiskHalf(old(disk), Put(x, id, doc), disk)
      ensures x in disk
      ensures meta == old(meta) || meta == old(meta)[x := disk[x].mapping]
      ensures stores && r != Skipped ==>
                meta == old(meta)[x := disk[x].mapping]
                || (meta == old(meta) && disk[x].mapping == old(disk)[x].mapping)
      ensures r == Skipped ==> meta == old(meta)
      ensures r == Done ==>
                && |disk[x].shards| == |old(disk)[x].shards| > 0
                && forall j | 0 <= j < |disk[x].shards| && j != hash(id) % |disk[x].shards| ::
                     disk[x].shards[j] == old(disk)[x].shards[j]
      ensures Knows(old(disk), old(unknown), disk, unknown, x)
    {
      hide DiskStep, DiskHalf, Learn, Accepts, LeftBehind, GoodIndex, Appended;
      ghost var d := disk;
      assert GoodIndex(d[x]);
      HasShards(d[x]);
      LearnsIff(d[x].mapping, doc);
      var ok, m := CheckDocument(disk[x].mapping, doc);
      var update := m != disk[x].mapping;
      disk := disk[x := disk[x].(mapping := m)];
      if ok { PutHalfIs(d, x, id, doc, disk); } else { PutSkipIs(hash, shardNum, d, x, id, doc, disk); }
      if !ok { return Skipped; }
      if update {
        if !stores { return Failed; }
        meta, unknown := meta[x := m], Known(unknown, x);
      }
      if !logs { return Failed; }
      SameSlot(hash, d[x], m, id, doc);
      disk := disk[x := disk[x].(shards := Appended(hash, disk[x], id, doc))];
      PutStepIs(hash, shardNum, d, x, id, doc, disk);
      AppendsToOne(hash, d[x], id, doc);
      r := Done;
    }

    /** Adds the fields one by one, in map order; a field that is mapped differently stops it.
        Nothing is stored for an index that has all the fields already. */
    method ExtendMapping(x: Name, fields: Mapping, existed: bool, stores: bool) returns (r: Outcome)
      requires WellFormed(disk) && x in disk
      modifies this`disk, this`meta, this`unknown
      ensures r == Skipped <==> !Agrees(old(disk)[x].mapping, fields)
      ensures r == Failed <==> r != Skipped && !stores && (!existed || !(fields.Keys <= old(disk)[x].mapping.Keys))
      ensures r != Skipped ==> disk == old(disk)[x := old(disk)[x].(mapping := Merged(old(disk)[x].mapping, fields))]
      ensures r != Failed ==> DiskStep(hash, shardNum, old(disk), Extend(x, fields), disk)
      ensures r == Failed ==> DiskHalf(old(disk), Extend(x, fields), disk)
      ensures x in disk && (meta == old(meta) || meta == old(meta)[x := disk[x].mapping])
      ensures r != Done ==> meta == old(meta)
      ensures Knows(old(disk), old(unknown), disk, unknown, x)
      ensures existed && fields.Keys <= old(disk)[x].mapping.Keys ==> meta == old(meta)
      ensures r == Done && meta == old(meta) ==>
                meta == old(meta)[x := disk[x].mapping] || disk[x].mapping == old(disk)[x].mapping
    {
      ghost var start := disk[x].mapping;
      var agrees, m := MergeFields(disk[x].mapping, fields);
      var changed := m != disk[x].mapping;
      disk := disk[x := disk[x].(mapping := m)];
      if !agrees { return Skipped; }
      assert changed <==> !(fields.Keys <= start.Keys);
      if existed && !changed { return Done; }
      if !stores { return Failed; }
      meta, unknown := meta[x := m], Known(unknown, x);
      r := Done;
    }

    method CreateIndex(x: Name, mapping: Mapping, stores: bool) returns (ok: bool)
      requires WellFormed(disk)
      modifies this`disk, this`meta, this`unknown, this`left
      ensures Knows(old(disk), old(unknown), disk, unknown, x)
      ensures ok <==> x in old(disk) || stores
      ensures ok ==> DiskStep(hash, shardNum, old(disk), Create(x, mapping), disk)
      ensures x !in old(disk) && stores ==>
                meta == old(meta)[x := mapping] && left == old(left) - {x} && disk.Keys == old(disk).Keys + {x}
      ensures ok ==> StoreStep(old(disk), old(meta), old(left), disk, meta, left, x)
      ensures ok && old(left) == map[] ==>
                StoredWell(old(disk), old(meta), old(left), Create(x, mapping), disk, meta, left)
      ensures !ok ==> disk == old(disk) && meta == old(meta) && left == old(left) && unknown == old(unknown)
    {
      if x in disk { return true; }
      if !stores { return false; }
      disk, meta, left := disk[x := FreshIndex(mapping, shardNum)], meta[x := mapping], left - {x};
      unknown := Known(unknown, x);
      ok := true;
    }

    /** Forgets the index, removes its files and deletes it from the metadata. A second attempt
        finds nothing to do. removes tells whether its files are gone. */
    method DeleteIndex(x: Name, stores: bool, removes: bool) returns (ok: bool)
      requires WellFormed(disk)
      modifies this`disk, this`meta, this`unknown, this`left
      ensures disk == old(disk) - {x} && (ok <==> x !in old(disk) || stores)
      ensures ok ==> left == old(left) && meta == if x in old(disk) then old(meta) - {x} else old(meta)
      ensures !ok ==> meta == old(meta) && x in left && left == old(left)[x := left[x]]
      ensures !ok ==> GoodIndex(Index(map[], left[x])) && AllSynced(left[x])
      ensures !ok && removes ==> forall j | 0 <= j < |left[x]| :: ShardDocs(left[x][j]) == map[]
      ensures Knows(old(disk), old(unknown), disk, unknown, x)
      ensures unknown == old(unknown) || unknown == Known(old(unknown), x)
    {
      assert x !in disk ==> disk - {x} == disk;
      if x !in disk { return true; }
      var remains := Remains(disk[x].shards, unknown, x, removes);
      disk, unknown := disk - {x}, Known(unknown, x);
      if !stores {
        left := left[x := remains];
        return false;
      }
      meta := meta - {x};
      ok := true;
    }

    /** What a restart would find of the shards of a forgotten index. */
    static method Remains(shards: seq<Shard>, u: Unknown, x: Name, removed: bool) returns (remains: seq<Shard>)
      requires GoodIndex(Index(map[], shards))
      ensures GoodIndex(Index(map[], remains)) && AllSynced(remains) && |remains| == |shards|
      ensures removed ==> forall j | 0 <= j < |remains| :: ShardDocs(remains[j]) == map[]
      ensures !removed ==>
                exists lost: seq<Shard> ::
                  && ShardsCrashed(shards, u, x, lost)
                  && forall j: nat | j < |lost| :: remains[j].stored == lost[j].stored && remains[j].wal == lost[j].wal
    {
      if removed { return FreshIndex(map[], |shards|).shards; }
      var lost := LoseTails(shards, u, x, false);
      GoodTails(shards, u, x, lost);
      remains := seq(|lost|, (j: nat) requires j < |lost| => lost[j].(synced := |lost[j].wal| - lost[j].hole));
    }

    /** Every log loses some of what it had not synced, and some of what is unknown is gone;
        all of it, if the worst happens. */
    static method LoseTails(shards: seq<Shard>, u: Unknown, x: Name, worst: bool) returns (lost: seq<Shard>)
      requires forall j | 0 <= j < |shards| :: GoodShard(shards[j])
      ensures |lost| == |shards| && ShardsCrashed(shards, u, x, lost)
      ensures worst ==> forall j: nat | j < |shards| :: lost[j] == Worst(shards[j], UnknownAt(u, x, j))
    {
      hide ShardCrashed;
      lost := shards;
      for j := 0 to |shards|
        invariant |lost| == |shards|
        invariant forall i: nat | i < j :: ShardCrashed(shards[i], UnknownAt(u, x, i), lost[i])
        invariant worst ==> forall i: nat | i < j :: lost[i] == Worst(shards[i], UnknownAt(u, x, i))
        invariant forall i | j <= i < |shards| :: lost[i] == shards[i]
      {
        var s, ids := shards[j], UnknownAt(u, x, j);
        var keep: int :| s.synced <= keep <= |s.wal| - s.hole;
        var synced: int :| s.synced <= synced <= keep;
        var gone: set<DocId> := *;
        gone := gone * ids;
        if worst { keep, synced, gone := s.synced, s.synced, ids; }
        IsCrashed(s, ids, keep, synced, gone);
        lost := lost[j := CrashedTo(s, ids, keep, synced, gone)];
      }
    }

    // -------------------------------------------------------------- applying

    /** One document of a message whose operations up to p were performed. */
    method PutDocument(x: Name, id: DocId, doc: Doc, quiet: bool, storing: bool, b: nat, p: nat) returns (r: Outcome)
      requires In(b, p) && p < |ops| && ops[p] == Put(x, id, doc) && x in disk
      modifies this`disk, this`meta, this`unknown, this`high
      ensures x in disk && (quiet ==> r != Failed) && p < high
      ensures old(Guarded()) ==> Guarded()
      ensures r == Failed ==> In(b, b) && (storing && old(Current(p)) ==> Current(b))
      ensures r != Failed ==> In(b, p + 1) && (storing && old(Current(p)) ==> Current(p + 1))
      ensures r == Skipped ==>
                !Accepts(old(disk)[x].mapping, doc) && Holds(hash, ops, old(disk), touched, at, b, p, high)
    {
      hide Holds, MetaFits, NodeInvariant.Guarded, Settled, Knows, DiskStep, DiskHalf, StoreStep, StoredWell,
           StoredHalf, Accepts,
           Rejecting;
      Shape(b, p);
      ghost var d, m, u, q := disk, meta, unknown, high;
      NotLeft(d, m, left, x);
      var lost := Fault(quiet);
      var unstored := Fault(quiet || storing);
      r := CreateDocument(x, id, doc, !unstored, !lost);
      high := Max(high, p + 1);
      PutStores(d, m, left, disk, meta, x);
      if r == Failed {
        if storing { HalfStored(d, m, left, Put(x, id, doc), disk, meta); }
        Fails(hash, ops, d, m, left, u, disk, meta, left, unknown, touched, at, b, p, q);
      } else {
        RejectingIff(d[x].mapping, Put(x, id, doc));
        if storing { WellStored(d, m, left, Put(x, id, doc), disk, meta); }
        Performs(hash, shardNum, ops, d, m, left, u, disk, meta, left, unknown, touched, at, b, p, q);
        HoldsWiden(hash, ops, d, touched, at, b, p, q, high);
      }
    }

    /** The index a message is about, created when it is missing. */
    method EnsureIndex(x: Name, quiet: bool, storing: bool, b: nat) returns (ok: bool, existed: bool)
      requires In(b, b) && b < |ops| && ops[b] == Ensure(x)
      modifies this`disk, this`meta, this`unknown, this`left, this`high
      ensures quiet ==> ok
      ensures old(Guarded()) ==> Guarded()
      ensures !ok ==> In(b, b) && (storing && old(Current(b)) ==> Current(b))
      ensures ok ==> x in disk && In(b, b + 1) && (storing && old(Current(b)) ==> Current(b + 1)) && b < high
      ensures ok && !existed ==> disk[x].mapping == map[]
    {
      hide Holds, MetaFits, NodeInvariant.Guarded, Settled, Knows, DiskStep, StoreStep, StoredWell;
      Shape(b, b);
      ghost var d, m, l, u, q := disk, meta, left, unknown, high;
      var fails := Fault(quiet || storing);
      ok, existed := GetOrCreateIndex(x, !fails);
      if ok {
        NothingLeftOver(ops, d, m, l, u, b, q);
        high := Max(high, b + 1);
        Performs(hash, shardNum, ops, d, m, l, u, disk, meta, left, unknown, touched, at, b, b, q);
      }
    }

    lemma Shape(b: nat, p: nat)
      requires In(b, p)
      ensures shardNum > 0 && at <= b <= p <= high <= |ops| && WellFormed(disk)
      ensures Holds(hash, ops, disk, touched, at, b, p, high)
    {
      NodeShape(hash, ops, disk, meta, left, touched, at, b, p, high);
    }

    /** Completes a message: notes which indexes received documents. */
    method Complete(received: set<Name>, b: nat, p: nat)
      requires In(b, p) && b <= p <= high <= |ops| && Noted(ops, disk, touched + received, b, p, high)
      modifies this`touched
      ensures touched == old(touched) + received && In(p, p)
    {
      hide Holds, MetaFits, Noted;
      NodeDone(hash, ops, disk, meta, left, touched, touched + received, at, b, p, high);
      touched := touched + received;
    }

    method ApplyDoc(seqNo: nat, x: Name, givenId: DocId, doc: Doc, quiet: bool, storing: bool, b: nat)
      returns (r: Outcome)
      requires In(b, b) && b + 2 <= |ops| && ops[b..b + 2] == OpsOf(seqNo, DocMsg(x, givenId, doc))
      modifies this`disk, this`meta, this`unknown, this`left, this`touched, this`high
      ensures quiet ==> r != Failed
      ensures old(Guarded()) ==> Guarded()
      ensures r == Failed ==> In(b, b) && (storing && old(Current(b)) ==> Current(b))
      ensures r != Failed ==> In(b + 2, b + 2) && (storing && old(Current(b)) ==> Current(b + 2))
    {
      hide In, Durable, Guarded, Current, Noted, Accepts, Holds;
      Shape(b, b);
      assert ops[b] == ops[b..b + 2][0] && ops[b + 1] == ops[b..b + 2][1];
      var ok, existed := EnsureIndex(x, quiet, storing, b);
      if !ok { return Failed; }
      ghost var d := disk;
      r := PutDocument(x, DocName(seqNo, givenId), doc, quiet, storing, b, b + 1);
      if r == Failed { return; }
      Shape(b, b + 2);
      if r == Skipped {
        NotedRejected(hash, ops, d, disk, touched, at, b, high);
        assert touched + {} == touched;
        Complete({}, b, b + 2);
      } else {
        NotedByKind(ops, disk, touched + {x}, b, b + 2, high);
        Complete({x}, b, b + 2);
      }
    }

    /** A batch is applied document by document; after a failure in the middle it is applied
        again as a whole. */
    method ApplyDocs(seqNo: nat, x: Name, docs: seq<(DocId, Doc)>, quiet: bool, storing: bool, b: nat)
      returns (r: Outcome)
      requires In(b, b) && b + |docs| + 1 <= |ops| && ops[b..b + |docs| + 1] == OpsOf(seqNo, DocsMsg(x, docs))
      modifies this`disk, this`meta, this`unknown, this`left, this`touched, this`high
      ensures quiet ==> r != Failed
      ensures old(Guarded()) ==> Guarded()
      ensures r == Failed ==> In(b, b) && (storing && old(Current(b)) ==> Current(b))
      ensures r != Failed ==>
                In(b + |docs| + 1, b + |docs| + 1) && (storing && old(Current(b)) ==> Current(b + |docs| + 1))
    {
      hide In, Durable, Guarded, Current, Noted, OpsOf, Holds;
      Shape(b, b);
      BatchAt(ops, b, seqNo, x, docs);
      var ok, existed := EnsureIndex(x, quiet, storing, b);
      if !ok { return Failed; }
      r := PutDocuments(seqNo, x, docs, quiet, storing, b);
      if r == Failed { return; }
      var end := b + |docs| + 1;
      Shape(b, end);
      NotedByKind(ops, disk, touched + {x}, b, end, high);
      Complete({x}, b, end);
    }

    /** Invalid documents are skipped, the others of the batch still apply. */
    method PutDocuments(seqNo: nat, x: Name, docs: seq<(DocId, Doc)>, quiet: bool, storing: bool, b: nat)
      returns (r: Outcome)
      requires In(b, b + 1) && x in disk && b + |docs| + 1 <= |ops|
      requires forall i | 0 <= i < |docs| :: ops[b + i + 1] == Put(x, BatchDocName(seqNo, i, docs[i].0), docs[i].1)
      modifies this`disk, this`meta, this`unknown, this`high
      ensures x in disk && (quiet ==> r != Failed)
      ensures old(Guarded()) ==> Guarded()
      ensures r == Failed ==> In(b, b) && (storing && old(Current(b + 1)) ==> Current(b))
      ensures r != Failed ==> In(b, b + |docs| + 1) && (storing && old(Current(b + 1)) ==> Current(b + |docs| + 1))
    {
      hide In, Durable, Guarded, Current;
      var i, p := 0, b + 1;
      while i < |docs|
        invariant 0 <= i <= |docs| && p == b + i + 1 && x in disk && In(b, p)
        invariant (old(Guarded()) ==> Guarded()) && (storing && old(Current(b + 1)) ==> Current(p))
      {
        r := PutDocument(x, BatchDocName(seqNo, i, docs[i].0), docs[i].1, quiet, storing, b, p);
        if r == Failed { return; }
        i, p := i + 1, p + 1;
      }
      r := Done;
    }

    method ApplySetMapping(seqNo: nat, x: Name, fields: Mapping, quiet: bool, storing: bool, b: nat)
      returns (r: Outcome)
      requires In(b, b) && b + 2 <= |ops| && ops[b..b + 2] == OpsOf(seqNo, SetMapping(x, fields))
      modifies this`disk, this`meta, this`unknown, this`left, this`touched, this`high
      ensures quiet ==> r != Failed
      ensures old(Guarded()) ==> Guarded()
      ensures r == Failed ==> In(b, b) && (storing && old(Current(b)) ==> Current(b))
      ensures r != Failed ==> In(b + 2, b + 2) && (storing && old(Current(b)) ==> Current(b + 2))
    {
      hide In, Durable, Guarded, Current, Noted, Holds, Agrees;
      Shape(b, b);
      assert ops[b] == ops[b..b + 2][0] && ops[b + 1] == ops[b..b + 2][1];
      var ok, existed := EnsureIndex(x, quiet, storing, b);
      if !ok { return Failed; }
      r := SetFields(x, fields, existed, quiet, storing, b, b + 1);
      if r == Failed { return; }
      Shape(b, b + 2);
      NotedByKind(ops, disk, touched + {}, b, b + 2, high);
      Complete({}, b, b + 2);
    }

    method SetFields(x: Name, fields: Mapping, existed: bool, quiet: bool, storing: bool, b: nat, p: nat)
      returns (r: Outcome)
      requires In(b, p) && p < |ops| && ops[p] == Extend(x, fields) && x in disk
      modifies this`disk, this`meta, this`unknown, this`high
      ensures quiet ==> r != Failed
      ensures old(Guarded()) ==> Guarded()
      ensures r == Failed ==> In(b, b) && (storing && old(Current(p)) ==> Current(b))
      ensures r != Failed ==> In(b, p + 1) && (storing && old(Current(p)) ==> Current(p + 1)) && p < high
    {
      hide Holds, MetaFits, NodeInvariant.Guarded, Settled, Knows, DiskStep, DiskHalf, StoreStep, StoredWell,
           StoredHalf, Rejecting, Agrees,
           Merged;
      Shape(b, p);
      ghost var d, m, u, q := disk, meta, unknown, high;
      NotLeft(d, m, left, x);
      var fails := Fault(quiet || storing);
      r := ExtendMapping(x, fields, existed, !fails);
      high := Max(high, p + 1);
      PutStores(d, m, left, disk, meta, x);
      if r == Failed {
        Fails(hash, ops, d, m, left, u, disk, meta, left, unknown, touched, at, b, p, q);
      } else {
        RejectingIff(d[x].mapping, Extend(x, fields));
        WellStored(d, m, left, Extend(x, fields), disk, meta);
        Performs(hash, shardNum, ops, d, m, left, u, disk, meta, left, unknown, touched, at, b, p, q);
      }
    }

    method ApplyCreateIndex(x: Name, mapping: Mapping, quiet: bool, storing: bool, b: nat) returns (r: Outcome)
      requires In(b, b) && b < |ops| && ops[b] == Create(x, mapping)
      modifies this`disk, this`meta, this`unknown, this`left, this`touched, this`high
      ensures (quiet ==> r != Failed) && r != Skipped
      ensures old(Guarded()) ==> Guarded()
      ensures r == Failed ==> In(b, b) && (storing && old(Current(b)) ==> Current(b))
      ensures r != Failed ==> In(b + 1, b + 1) && (storing && old(Current(b)) ==> Current(b + 1))
    {
      hide Holds, MetaFits, NodeInvariant.Guarded, Settled, Knows, DiskStep, StoreStep, StoredWell, Noted;
      Shape(b, b);
      ghost var d, m, l, u, q := disk, meta, left, unknown, high;
      var fails := Fault(quiet || storing);
      var ok := CreateIndex(x, mapping, !fails);
      if !ok { return Failed; }
      NothingLeftOver(ops, d, m, l, u, b, q);
      high := Max(high, b + 1);
      Performs(hash, shardNum, ops, d, m, l, u, disk, meta, left, unknown, touched, at, b, b, q);
      NotedByKind(ops, disk, touched + {}, b, b + 1, high);
      Complete({}, b, b + 1);
      r := Done;
    }

    method ApplyDeleteIndex(x: Name, quiet: bool, storing: bool, b: nat) returns (r: Outcome)
      requires In(b, b) && b < |ops| && ops[b] == Drop(x)
      modifies this`disk, this`meta, this`unknown, this`left, this`touched, this`high
      ensures (quiet ==> r != Failed) && r != Skipped && disk == old(disk) - {x}
      ensures r == Done ==> meta == if x in old(disk) then old(meta) - {x} else old(meta)
      ensures r == Failed ==> x in old(disk) && meta == old(meta)
      ensures old(Guarded()) ==> Guarded()
      ensures r == Failed ==> In(b, b) && (storing && old(Current(b)) ==> Current(b))
      ensures r != Failed ==> In(b + 1, b + 1) && (storing && old(Current(b)) ==> Current(b + 1))
    {
      hide Holds, NodeInvariant.Guarded, Settled, Knows, DiskStep, DiskHalf, StoreStep, StoredWell, StoredHalf, Noted,
           AllSynced;
      Shape(b, b);
      ghost var d, m, l, u, q := disk, meta, left, unknown, high;
      var fails := Fault(quiet || storing);
      var removes: bool := *;
      var ok := DeleteIndex(x, !fails, removes);
      high := Max(high, b + 1);
      DropStores(hash, shardNum, ops, d, m, l, u, disk, meta, left, x, b, q);
      if !ok {
        Fails(hash, ops, d, m, l, u, disk, meta, left, unknown, touched, at, b, b, q);
        return Failed;
      }
      Performs(hash, shardNum, ops, d, m, l, u, disk, meta, left, unknown, touched, at, b, b, q);
      NotedDropped(ops, disk, touched + {}, b, high, x);
      Complete({}, b, b + 1);
      r := Done;
    }

    /** Applies one message. */
    method Apply(seqNo: nat, m: Message, quiet: bool, storing: bool, b: nat) returns (r: Outcome)
      requires In(b, b) && b + |OpsOf(seqNo, m)| <= |ops| && ops[b..b + |OpsOf(seqNo, m)|] == OpsOf(seqNo, m)
      modifies this`disk, this`meta, this`unknown, this`left, this`touched, this`high
      ensures quiet ==> r != Failed
      ensures old(Guarded()) ==> Guarded()
      ensures r == Failed ==> In(b, b) && (storing && old(Current(b)) ==> Current(b))
      ensures r != Failed ==>
                var e := b + |OpsOf(seqNo, m)|; In(e, e) && (storing && old(Current(b)) ==> Current(e))
    {
      hide In, Durable, Guarded, Current;
      match m {
        case DocMsg(x, id, doc) =>
          r := ApplyDoc(seqNo, x, id, doc, quiet, storing, b);
        case DocsMsg(x, docs) =>
          r := ApplyDocs(seqNo, x, docs, quiet, storing, b);
        case SetMapping(x, fields) =>
          r := ApplySetMapping(seqNo, x, fields, quiet, storing, b);
        case CreateIndex(x, mapping) =>
          assert ops[b] == ops[b..b + 1][0];
          r := ApplyCreateIndex(x, mapping, quiet, storing, b);
        case DeleteIndex(x) =>
          assert ops[b] == ops[b..b + 1][0];
          r := ApplyDeleteIndex(x, quiet, storing, b);
        case Permanent =>
          r := Skipped;
      }
    }

    /** Applies message seqNo, trying again after passing failures so that order is never
        broken. A message that can never succeed is skipped. */
    method ApplyOne(seqNo: nat, m: Message, quiet: bool, storing: bool, b: nat) returns (ok: bool)
      requires In(b, b) && b + |OpsOf(seqNo, m)| <= |ops| && ops[b..b + |OpsOf(seqNo, m)|] == OpsOf(seqNo, m)
      modifies this`disk, this`meta, this`unknown, this`left, this`touched, this`high
      ensures quiet ==> ok
      ensures old(Guarded()) ==> Guarded()
      ensures !ok ==> In(b, b) && (storing && old(Current(b)) ==> Current(b))
      ensures ok ==> var e := b + |OpsOf(seqNo, m)|; In(e, e) && (storing && old(Current(b)) ==> Current(e))
    {
      hide In, Durable, Guarded, Current, OpsOf;
      var patience: nat := *;
      while true
        invariant In(b, b) && (old(Guarded()) ==> Guarded()) && (storing && old(Current(b)) ==> Current(b))
        decreases patience
      {
        var r := Apply(seqNo, m, quiet, storing, b);
        if r != Failed { return true; }
        // the consumer was stopped while it waited for the next attempt
        if patience == 0 { return false; }
        patience := patience - 1;
      }
      ok := false;
    }

    // -------------------------------------------------------------- in the background

    /** One round of the background log consumer on one log. A sync that fails is passed over. */
    method ConsumeWAL(x: Name, j: nat, r: Round, b: nat, p: nat)
      requires In(b, p) && x in disk && j < |disk[x].shards| && Possible(disk[x].shards[j], r)
      modifies this`disk, this`unknown, this`meta
      ensures disk == old(disk)[x := Shifted(old(disk)[x], j, r)] && In(b, p)
      ensures meta == old(meta) || meta == old(meta)[x := disk[x].mapping]
      ensures unknown == Unseen(old(unknown), x, j, old(disk)[x].shards[j].wal, r)
      ensures WellFormed(old(disk)) && WellFormed(disk) && View() == old(View())
      ensures r.synced == |old(disk)[x].shards[j].wal| - r.k && (r.grows ==> r.stores) ==>
                (old(Guarded()) ==> Guarded()) && (old(Current(p)) ==> Current(p))
    {
      hide In, Guarded, Current, WellFormed, Moved, Known;
      ghost var u := unknown;
      var ids := Ids(disk[x].shards[j].wal[..r.reached]);
      Shift(x, j, r, b, p);
      if r.grows {
        if r.stores {
          MovedKnown(u, x, j, ids);
          StoreMetadata(x, b, p);
        } else {
          Grow(x, j);
        }
      }
    }

    method Consume(x: Name, j: nat, r: Round)
      requires x in disk && j < |disk[x].shards| && Possible(disk[x].shards[j], r)
      modifies this`disk, this`unknown
      ensures disk == old(disk)[x := Shifted(old(disk)[x], j, r)]
      ensures unknown == Moved(old(unknown), x, j, Ids(old(disk)[x].shards[j].wal[..r.reached]))
    {
      unknown := Moved(unknown, x, j, Ids(disk[x].shards[j].wal[..r.reached]));
      disk := disk[x := Shifted(disk[x], j, r)];
    }

    /** A new second-level shard is started, and the metadata cannot be stored. */
    method Grow(x: Name, j: nat)
      modifies this`unknown
      ensures unknown == old(unknown)[(x, j) := UnknownAt(old(unknown), x, j)]
    {
      unknown := unknown[(x, j) := UnknownAt(unknown, x, j)];
    }

    /** The documents of a round reach the latest second-level shard. */
    method Shift(x: Name, j: nat, r: Round, b: nat, p: nat)
      requires In(b, p) && x in disk && j < |disk[x].shards| && Possible(disk[x].shards[j], r)
      modifies this`disk, this`unknown
      ensures disk == old(disk)[x := Shifted(old(disk)[x], j, r)] && In(b, p)
      ensures unknown == Moved(old(unknown), x, j, Ids(old(disk)[x].shards[j].wal[..r.reached]))
      ensures WellFormed(old(disk)) && WellFormed(disk) && View() == old(View())
      ensures Harmless(old(disk)[x].shards[j], r) ==> (old(Guarded()) ==> Guarded()) && (old(Current(p)) ==> Current(p))
    {
      hide Holds, MetaFits, NodeInvariant.Guarded, Settled, UpToDate, Sound, Safe, WellFormed;
      Shape(b, p);
      ghost var d, u := disk, unknown;
      Consume(x, j, r);
      RoundConsumes(d, x, j, r);
      hide Consumed;
      ConsumedView(hash, d, disk);
      ConsumeHolds(hash, ops, d, disk, touched, at, b, p, high);
      SameMappings(ops, d, disk, meta, left, p, high);
      if Harmless(d[x].shards[j], r) {
        RoundGuarded(hash, ops, d, meta, left, u, disk, unknown, x, j, p, at, high);
      }
    }

    /** After a round of the log consumer, or any other change, the metadata of an index is
        stored as memory has it. */
    method StoreMetadata(x: Name, b: nat, p: nat)
      requires In(b, p) && x in disk
      modifies this`meta, this`unknown
      ensures In(b, p) && meta == old(meta)[x := disk[x].mapping] && unknown == Known(old(unknown), x)
      ensures (old(Guarded()) ==> Guarded()) && (old(Current(p)) ==> Current(p))
    {
      hide Holds, MetaFits, NodeInvariant.Guarded, Settled;
      Shape(b, p);
      ghost var m, u := meta, unknown;
      meta, unknown := meta[x := disk[x].mapping], Known(unknown, x);
      Restores(hash, ops, disk, m, left, u, meta, touched, at, b, p, high, x);
    }

    /** Anything the background does between two actions of the consumer. syncing and storing
        say that it does not fail to sync a log or to store metadata. */
    method Background(syncing: bool, storing: bool, b: nat, p: nat)
      requires In(b, p)
      modifies this`disk, this`meta, this`unknown
      ensures In(b, p)
      ensures syncing && storing ==> (old(Guarded()) ==> Guarded()) && (old(Current(p)) ==> Current(p))
    {
      hide In, Durable, Guarded, Current;
      var rounds: nat := *;
      while rounds > 0
        invariant In(b, p)
        invariant syncing && storing ==> (old(Guarded()) ==> Guarded()) && (old(Current(p)) ==> Current(p))
      {
        rounds := rounds - 1;
        var x: Name, j: nat, r: Round := *, *, *;
        if x in disk {
          if * {
            StoreMetadata(x, b, p);
          } else if j < |disk[x].shards| && Possible(disk[x].shards[j], r) {
            if (syncing ==> r.synced == |disk[x].shards[j].wal| - r.k) && (storing && r.grows ==> r.stores) {
              ConsumeWAL(x, j, r, b, p);
            }
          }
        }
      }
    }

    // -------------------------------------------------------------- durability

    /** Syncs the log of every shard of an index. A failure does not stop the others. */
    method SyncWAL(x: Name, quiet: bool) returns (ok: bool)
      requires WellFormed(disk) && x in disk
      modifies this`disk
      ensures Synced(old(disk), disk)
      ensures ok ==> FullySynced(disk, x)
      ensures quiet ==> ok
    {
      ok := true;
      GoodShards(disk[x]);
      var shards := disk[x].shards;
      for j := 0 to |shards|
        invariant disk == old(disk) && |shards| == |disk[x].shards|
        invariant forall i | 0 <= i < |shards| :: ShardSynced(old(disk)[x].shards[i], shards[i])
        invariant ok ==> forall i | 0 <= i < j :: shards[i].synced == |shards[i].wal| - shards[i].hole
        invariant quiet ==> ok
      {
        var fails := Fault(quiet);
        if fails {
          ok := false;
        } else {
          shards := shards[j := shards[j].(synced := |shards[j].wal| - shards[j].hole)];
        }
      }
      disk := disk[x := disk[x].(shards := shards)];
      ItselfSynced(old(disk));
    }

    /** Makes everything applied since the previous flush durable. The set of touched
        indexes is emptied whether or not that succeeds. */
    method Flush(quiet: bool) returns (ok: bool)
      requires WellFormed(disk)
      modifies this`disk, this`touched
      ensures Synced(old(disk), disk) && touched == {}
      ensures ok ==> forall x | x in old(touched) && x in disk :: FullySynced(disk, x)
      ensures quiet ==> ok
    {
      hide Synced, FullySynced, WellFormed;
      var names := touched;
      touched := {};
      ok := true;
      ItselfSynced(disk);
      while names != {}
        invariant names <= old(touched) && touched == {}
        invariant Synced(old(disk), disk) && WellFormed(disk) && disk.Keys == old(disk).Keys
        invariant ok ==> forall x | x in old(touched) && x !in names && x in disk :: FullySynced(disk, x)
        invariant quiet ==> ok
      {
        var x :| x in names;
        names := names - {x};
        if x in disk {
          ghost var d := disk;
          var done := SyncWAL(x, quiet);
          SyncedTrans(old(disk), d, disk);
          SyncedMappings(d, disk);
          SyncedView(hash, d, disk);
          StaysSynced(d, disk);
          ok := ok && done;
        }
      }
    }

    /** Records the offset. A save may store it and still report failure. */
    method Save(n: nat, stores: bool, reports: bool) returns (ok: bool)
      requires n <= |stream|
      modifies this`saved, this`at
      ensures ok <==> stores && reports
      ensures if stores then saved == n && at == Pos(stream, n) else saved == old(saved) && at == old(at)
    {
      if stores { saved, at := n, Pos(stream, n); }
      ok := stores && reports;
    }

    /** The process starts again: it finds the stored metadata, the data of the indexes named
        there, of which each log lost some of what it had not synced, and the saved offset. */
    method RestartNode(worst: bool)
      requires WellFormed(disk) && MetaFits(disk, meta, left)
      modifies this`disk, this`left, this`unknown, this`touched, this`applied, this`cursor
      ensures Restarted(old(disk), meta, old(left), old(unknown), disk)
      ensures worst ==> AtWorst(old(disk), meta, old(unknown), disk)
      ensures left == map[] && unknown == map[] && touched == {} && applied == saved && cursor == None
    {
      hide *;
      disk := LoadIndexes(disk, meta, left, unknown, worst);
      left, unknown, touched, applied, cursor := map[], map[], {}, saved, None;
    }

    static method LoadIndexes(d: Disk, meta: Meta, left: Leftovers, u: Unknown, worst: bool) returns (found: Disk)
      requires WellFormed(d) && MetaFits(d, meta, left)
      ensures Restarted(d, meta, left, u, found)
      ensures worst ==> AtWorst(d, meta, u, found)
    {
      hide AllSynced, ShardsCrashed, GoodShard;
      found := map[];
      var names := meta.Keys;
      while names != {}
        invariant names <= meta.Keys && found.Keys == meta.Keys - names
        invariant forall x | x in found :: RestartedAt(d, meta, left, u, found, x)
        invariant worst ==> forall x | x in found && x in d :: WorstAt(d, u, found, x)
      {
        var x :| x in names;
        names := names - {x};
        ghost var before := found;
        if x in d {
          GoodShards(d[x]);
          var shards := LoseTails(d[x].shards, u, x, worst);
          found := found[x := Index(meta[x], shards)];
        } else {
          found := found[x := Index(meta[x], left[x])];
        }
        forall y | y in found
          ensures RestartedAt(d, meta, left, u, found, y)
          ensures worst && y in d ==> WorstAt(d, u, found, y)
        {
          if y == x {
            assert worst && x in d ==> WorstAt(d, u, found, x);
          } else {
            assert RestartedAt(d, meta, left, u, before, y);
            assert worst && y in d ==> WorstAt(d, u, before, y);
          }
        }
      }
    }

    lemma MayRestart(b: nat, p: nat)
      requires In(b, p)
      ensures WellFormed(disk) && MetaFits(disk, meta, left)
    {
      Shape(b, p);
    }

    /** The process dies and starts again. The node is lost exactly when a change of a mapping or
        a deletion by a message up to the saved offset was missing from the stored metadata, or
        a shard did not come out sound. Where what was needed is on disk, it is not lost. */
    method Crash(b: nat, p: nat) returns (lost: bool)
      requires Anchored() && In(b, p)
      modifies this`disk, this`left, this`unknown, this`touched, this`applied, this`cursor
      ensures Anchored() && applied == saved && cursor == None && at <= high <= |ops|
      ensures lost <==> !(old(Lasting(hash, ops, meta, left, at, high)) && SoundAll(ops, disk, at, high))
      ensures Standing() <==> !lost
      ensures old(Durable()) ==> !lost && Guarded() && (TidyRun(map[], ops) ==> Current(at))
    {
      hide Node, MetaFits, CheckLasting, Lasting, UpToDate, Restarted, Pos, StreamOps, SoundAll, TidyRun;
      hide NodeInvariant.Guarded, Settled, Enduring;
      MayRestart(b, p);
      ghost var d, l, t, u := disk, left, touched, unknown;
      CheckIsLasting(hash, ops, meta, left, at, high);
      var lasts := CheckLasting(hash, ops, meta, left, at, high);
      var worst: bool := *;
      RestartNode(worst);
      RestartStands(hash, ops, d, meta, l, u, disk, t, at, b, p, high);
      lost := !(lasts && SoundAll(ops, disk, at, high));
    }

    /** Which crashes are harmless: all of them, exactly when what is needed is on disk. */
    lemma DurableIff(b: nat, p: nat)
      requires In(b, p)
      ensures WellFormed(disk)
      ensures Durable() <==>
                forall d': Disk | Restarted(disk, meta, left, unknown, d') ::
                  WellFormed(d') && Holds(hash, ops, d', {}, at, at, at, high)
    {
      hide Holds, Restarted, Lasting, SafeAll;
      Shape(b, p);
      CrashesAreHarmless(hash, ops, disk, meta, left, unknown, touched, at, b, p, high);
    }

    // -------------------------------------------------------------- consuming

    /** Between two actions of the consumer the log consumer may work, and the process may die. */
    method Interlude(p: nat, quiet: bool, syncing: bool, storing: bool) returns (crashed: bool, lost: bool)
      requires Anchored() && In(p, p)
      modifies this`disk, this`meta, this`unknown, this`left, this`touched, this`applied, this`cursor
      ensures Anchored() && (lost ==> crashed) && (quiet ==> !crashed)
      ensures syncing && storing && old(Guarded()) ==> !lost && Guarded()
      ensures crashed ==> applied == saved && cursor == None
      ensures crashed && !lost ==> Standing()
      ensures crashed && syncing && storing && old(Guarded()) && TidyRun(map[], ops) ==> Current(at)
      ensures !crashed ==> applied == old(applied) && cursor == old(cursor) && touched == old(touched) && In(p, p)
      ensures !crashed && syncing && storing && old(Current(p)) ==> Current(p)
    {
      hide In, Durable, Guarded, Current, Pos, StreamOps, TidyRun, SoundAll, Lasting;
      Background(syncing, storing, p, p);
      crashed := Fault(quiet);
      lost := false;
      if crashed {
        GuardedIsDurable();
        lost := Crash(p, p);
      }
    }

    lemma GuardedIsDurable()
      ensures Guarded() ==> Durable()
    {
      hide NodeInvariant.Guarded, Enduring;
      if Guarded() { GuardedEndures(hash, ops, disk, meta, left, unknown, at, high); }
    }

    lemma CurrentIsTidy(p: nat)
      requires Current(p)
      ensures TidyRun(map[], ops)
    {
    }

    /** One message of a batch; the process may die during or right after it. */
    method Deliver(seqNo: nat, m: Message, quiet: bool, syncing: bool, storing: bool)
      returns (ok: bool, crashed: bool, lost: bool)
      requires Anchored() && applied == saved && 0 < seqNo <= |stream| && m == stream[seqNo - 1]
      requires In(Pos(stream, seqNo - 1), Pos(stream, seqNo - 1))
      modifies this`disk, this`meta, this`unknown, this`left, this`touched, this`high, this`applied, this`cursor
      ensures Anchored() && applied == saved && (lost ==> crashed) && (quiet ==> ok && !crashed)
      ensures syncing && storing && old(Guarded()) ==> !lost && Guarded()
      ensures crashed ==> cursor == None
      ensures crashed && !lost ==> Standing()
      ensures crashed && syncing && storing && old(Guarded()) && TidyRun(map[], ops) ==> Current(at)
      ensures !crashed ==> cursor == old(cursor)
      ensures !crashed ==>
                var from, to := Pos(stream, seqNo - 1), Pos(stream, if ok then seqNo else seqNo - 1);
                In(to, to) && (syncing && storing && old(Current(from)) ==> Current(to))
    {
      hide In, Durable, Guarded, Current, OpsOf, Pos, StreamOps, TidyRun;
      MessageOps(stream, seqNo - 1);
      ok := ApplyOne(seqNo, m, quiet, storing, Pos(stream, seqNo - 1));
      var p := Pos(stream, if ok then seqNo else seqNo - 1);
      crashed, lost := Interlude(p, quiet, syncing, storing);
    }

    /** Flushes, saves the offset and only then moves on. The process may die, and the log
        consumer may work, between any two of these. */
    method Commit(last: nat, quiet: bool, syncing: bool, storing: bool, honest: bool)
      returns (ok: bool, crashed: bool, lost: bool)
      requires Anchored() && applied == saved < last <= |stream| && In(Pos(stream, last), Pos(stream, last))
      modifies this`disk, this`meta, this`unknown, this`left, this`touched, this`saved, this`at, this`applied,
               this`cursor
      ensures Anchored() && (lost ==> crashed) && (!lost ==> Standing()) && (quiet ==> ok)
      ensures (saved == last || saved == old(saved)) && applied <= saved
      ensures ok ==> !crashed && applied == saved == last
      ensures crashed ==> applied == saved && cursor == None
      ensures !ok && !crashed ==> applied == old(applied) && (honest ==> applied == saved)
      ensures !crashed ==> cursor == old(cursor)
      ensures syncing && storing && old(Guarded()) && saved == old(saved) ==> !lost && Guarded()
      ensures syncing && storing && old(Guarded()) && old(Current(Pos(stream, last))) ==>
                !lost && Guarded() && Current(at)
    {
      hide In, Durable, Guarded, Current, Pos, StreamOps, TidyRun;
      var p := Pos(stream, last);
      if Current(p) { CurrentIsTidy(p); }
      crashed, lost := false, false;
      ok := FlushAt(p, quiet);
      if !ok { return; }
      crashed, lost := Interlude(p, quiet, syncing, storing);
      if crashed { return false, true, lost; }
      var fails := Fault(quiet);
      var lies := Fault(honest);
      if fails && !lies {
        GiveUp(p);
        return false, false, false;
      }
      ok, crashed, lost := SaveAt(last, !fails, quiet, syncing, storing);
    }

    /** The offset is stored, and the node moves on if it is told so. */
    method SaveAt(last: nat, reports: bool, quiet: bool, syncing: bool, storing: bool)
      returns (ok: bool, crashed: bool, lost: bool)
      requires Anchored() && applied == saved < last <= |stream| && touched == {}
      requires In(Pos(stream, last), Pos(stream, last)) && (quiet ==> reports)
      modifies this`disk, this`meta, this`unknown, this`left, this`touched, this`saved, this`at, this`applied,
               this`cursor
      ensures Anchored() && (lost ==> crashed) && (!lost ==> Standing()) && (quiet ==> ok) && saved == last
      ensures ok ==> !crashed && applied == last
      ensures crashed ==> applied == saved && cursor == None
      ensures !ok && !crashed ==> !reports && applied == old(applied)
      ensures !crashed ==> cursor == old(cursor)
      ensures syncing && storing && old(Current(Pos(stream, last))) ==> !lost && Guarded() && Current(at)
    {
      hide In, Durable, Guarded, Current, Pos, StreamOps, TidyRun;
      var p := Pos(stream, last);
      if Current(p) { CurrentIsTidy(p); }
      label Unsaved:
      ok := Save(last, true, reports);
      Saved@Unsaved(p);
      crashed, lost := Interlude(p, quiet, syncing, storing);
      if crashed { return false, true, lost; }
      if ok { applied := last; }
    }

    /** A flush in the course of a commit: when it fails, the node stands at its saved offset. */
    method FlushAt(p: nat, quiet: bool) returns (ok: bool)
      requires In(p, p)
      modifies this`disk, this`touched
      ensures touched == {} && (quiet ==> ok)
      ensures if ok then In(p, p) else In(at, at)
      ensures (old(Guarded()) ==> Guarded()) && (old(Current(p)) ==> Current(if ok then p else at))
    {
      hide Holds, MetaFits, NodeInvariant.Guarded, Settled, UpToDate, Synced, FullySynced;
      Shape(p, p);
      ghost var d, t := disk, touched;
      ok := Flush(quiet);
      SyncHolds(hash, ops, d, disk, t, at, p, p, high);
      SyncedMappings(d, disk);
      if ok { FlushHolds(hash, ops, d, disk, t, at, p, high); }
      SameMappings(ops, d, disk, meta, left, p, high);
      SyncedGuarded(hash, ops, d, disk, meta, left, unknown, p, at, high);
      if Current(p) { SettledBack(ops, disk, meta, left, unknown, at, p, high); }
    }

    /** Nothing was saved: the node is back at its offset. */
    lemma GiveUp(p: nat)
      requires In(p, p) && touched == {}
      ensures In(at, at) && (Current(p) ==> Current(at))
    {
      hide Holds, MetaFits, Settled;
      Shape(p, p);
      ItselfSynced(disk);
      SyncHolds(hash, ops, disk, disk, touched, at, p, p, high);
      if Current(p) { SettledBack(ops, disk, meta, left, unknown, at, p, high); }
    }

    /** The offset was saved while nothing was touched. */
    twostate lemma Saved(p: nat)
      requires old(In(p, p)) && touched == {} && at == p
      requires unchanged(this`disk, this`meta, this`unknown, this`left, this`touched, this`high)
      ensures In(p, p) && (Current(p) ==> Guarded())
    {
      hide Holds, MetaFits, Settled, NodeInvariant.Guarded;
      SaveHolds(hash, ops, disk, old(at), p, high);
      if Current(p) { SettledEndures(hash, ops, disk, meta, left, unknown, {}, p, high); }
    }

    // -------------------------------------------------------------- consuming

    /** The batch has messages of the stream. */
    ghost predicate Genuine(batch: seq<(nat, Message)>) {
      forall i | 0 <= i < |batch| :: 1 <= batch[i].0 <= |stream| && batch[i].1 == stream[batch[i].0 - 1]
    }

    /** The batch has messages of the stream, and the server delivered it when oldest was the
        first message it held: each message follows those before it, or is delivered again;
        only a stream that was trimmed past the offset starts beyond it. */
    ghost predicate Delivered(batch: seq<(nat, Message)>, oldest: nat)
      reads this`applied
    {
      && Genuine(batch)
      && (batch != [] ==> if batch[0].0 > applied + 1 then oldest > applied + 1 else NoJump(applied, Nums(batch)))
    }

    /** Applies the messages of a batch that were not applied yet, until one fails. */
    method ApplyBatch(batch: seq<(nat, Message)>, quiet: bool, syncing: bool, storing: bool)
      returns (last: nat, applyErr: bool, crashed: bool, lost: bool, ghost done: seq<nat>)
      requires Valid() && batch != [] && Delivered(batch, 0)
      modifies this`disk, this`meta, this`unknown, this`left, this`touched, this`applied, this`cursor, this`high
      ensures Anchored() && applied == saved && (lost ==> crashed) && (quiet ==> !applyErr && !crashed)
      ensures !crashed ==>
                cursor == old(cursor) && applied <= last <= |stream| && In(Pos(stream, last), Pos(stream, last))
      ensures crashed && !lost ==> Standing()
      ensures crashed && syncing && storing && old(Guarded()) && TidyRun(map[], ops) ==> Current(at)
      ensures crashed ==> cursor == None
      ensures done <= Taken(applied, Nums(batch))
      ensures !crashed ==> last == EndOf(applied, done)
      ensures !crashed && !applyErr ==> last == EndOf(applied, Nums(batch)) && done == Taken(applied, Nums(batch))
      ensures syncing && storing && old(Guarded()) ==> !lost && Guarded()
      ensures !crashed && syncing && storing && old(Current(at)) ==> Current(Pos(stream, last))
    {
      hide In, Durable, Guarded, Current, Pos, StreamOps, NoJump, Taken, EndOf;
      last, applyErr, crashed, lost, done := applied, false, false, false, [];
      TakenNothing(applied);
      ghost var nums := Nums(batch);
      var i := 0;
      while i < |batch| && !applyErr
        invariant 0 <= i <= |batch| && Anchored() && applied == saved <= last <= |stream| && nums[..0] == []
        invariant cursor == old(cursor) && !crashed && !lost
        invariant last == EndOf(applied, nums[..i]) == EndOf(applied, done)
        invariant done == Taken(applied, nums[..i])
        invariant In(Pos(stream, last), Pos(stream, last))
        invariant quiet ==> !applyErr
        invariant syncing && storing && old(Guarded()) ==> Guarded()
        invariant syncing && storing && old(Current(at)) ==> Current(Pos(stream, last))
        decreases |batch| - i, !applyErr
      {
        var seqNo := batch[i].0;
        TakenPrefix(applied, nums, i);
        TakenNext(applied, nums[..i], seqNo);
        TakenNext(applied, done, seqNo);
        assert nums[..i + 1] == nums[..i] + [seqNo];
        if seqNo > last {
          var applyOk;
          applyOk, crashed, lost := Deliver(seqNo, batch[i].1, quiet, syncing, storing);
          if crashed { return; }
          if applyOk {
            last := seqNo;
            done := done + [seqNo];
            i := i + 1;
          } else {
            applyErr := true;
          }
        } else {
          i := i + 1;
        }
      }
      TakenPrefix(applied, nums, i);
      assert nums[..|nums|] == nums;
    }

    /** Applies one batch and makes it durable. done lists the messages that were applied or
        skipped, in order. The process may die between any two actions. */
    method Step(batch: seq<(nat, Message)>, info: StreamInfo, quiet: bool, syncing: bool, storing: bool, honest: bool)
      returns (ok: bool, crashed: bool, lost: bool, ghost done: seq<nat>)
      requires Valid() && Delivered(batch, info.Oldest())
      modifies this`disk, this`meta, this`unknown, this`left, this`touched, this`saved, this`at, this`applied,
               this`cursor, this`high
      ensures Anchored() && (lost ==> crashed) && (!lost ==> Standing())
      ensures crashed ==> applied == saved && cursor == None
      ensures !crashed ==> cursor == old(cursor) && (honest ==> applied == saved)
      ensures done <= Taken(old(applied), Nums(batch))
      ensures saved == old(saved) || saved == EndOf(old(applied), done)
      ensures applied == saved || old(applied) == applied < saved
      ensures ok ==> !crashed && applied == saved == EndOf(old(applied), Nums(batch))
                     && done == Taken(old(applied), Nums(batch))
      ensures batch != [] && batch[0].0 > old(applied) + 1 ==>
                !ok && !crashed && disk == old(disk) && saved == old(saved)
      ensures quiet && (batch == [] || batch[0].0 <= old(applied) + 1) ==> ok
      ensures syncing && storing && old(Guarded()) && saved == old(saved) ==> !lost && Guarded()
      ensures syncing && storing && old(Guarded() && Current(at)) ==> !lost && Guarded() && Current(at)
    {
      hide In, Durable, Guarded, Current, Pos, StreamOps, NoJump, Taken, EndOf, TidyRun;
      if Current(at) { CurrentIsTidy(at); }
      crashed, lost, done := false, false, [];
      if batch == [] {
        TakenNothing(applied);
        return true, false, false, [];
      }
      if batch[0].0 > applied + 1 {
        TakenNothing(applied);
        var fails := Fault(quiet);
        if fails { return false, false, false, []; }
        var gap := CheckGap(applied, info, false);
        assert gap.Failure?;
        return false, false, false, [];
      }
      var last, applyErr;
      last, applyErr, crashed, lost, done := ApplyBatch(batch, quiet, syncing, storing);
      if crashed { return false, true, lost, done; }
      if last > applied {
        ok, crashed, lost := Commit(last, quiet, syncing, storing, honest);
        if !ok { return; }
      }
      ok := !applyErr;
    }

    // -------------------------------------------------------------- the stream server

    /** The server keeps n more messages. */
    method Publish(n: nat)
      requires published + n <= |stream|
      modifies this`published
      ensures published == old(published) + n
      ensures old(Anchored()) ==> Anchored()
      ensures old(Standing()) ==> Standing()
    {
      published := published + n;
    }

    /** Retention drops the messages before n. */
    method Trim(n: nat)
      requires first <= n <= published + 1
      modifies this`first
      ensures first == n
      ensures old(Anchored()) ==> Anchored()
      ensures old(Standing()) ==> Standing()
    {
      first := n;
    }

    function Info(): (info: StreamInfo)
      requires first <= published + 1
      reads this`first, this`published
      ensures info.Oldest() == first && info.last == published
    {
      StreamInfo(published + 1 - first, first, published)
    }

    /** Message n is delivered next. */
    function Next(batch: seq<(nat, Message)>, n: nat): (batch': seq<(nat, Message)>)
      requires 1 <= n <= |stream|
      reads this`applied
      ensures |batch'| == |batch| + 1
      ensures batch'[0].0 == if batch == [] then n else batch[0].0
      ensures Genuine(batch) ==> Genuine(batch')
      ensures n <= EndOf(applied, Nums(batch)) + 1 && NoJump(applied, Nums(batch)) ==> NoJump(applied, Nums(batch'))
      ensures EndOf(applied, Nums(batch')) == Max(n, EndOf(applied, Nums(batch)))
    {
      hide EndOf, NoJump, Genuine, Nums;
      NextInBatch(batch, n);
      batch + [(n, stream[n - 1])]
    }

    lemma NextInBatch(batch: seq<(nat, Message)>, n: nat)
      requires 1 <= n <= |stream|
      ensures var batch' := batch + [(n, stream[n - 1])];
              && (Genuine(batch) ==> Genuine(batch'))
              && (n <= EndOf(applied, Nums(batch)) + 1 && NoJump(applied, Nums(batch)) ==>
                    NoJump(applied, Nums(batch')))
              && EndOf(applied, Nums(batch')) == Max(n, EndOf(applied, Nums(batch)))
    {
      hide EndOf, NoJump, Taken;
      var batch' := batch + [(n, stream[n - 1])];
      assert Nums(batch') == Nums(batch) + [n];
      hide Nums;
      TakenNext(applied, Nums(batch), n);
    }

    /** Delivers up to n messages from the cursor on. Messages whose acknowledgement was lost
        may be delivered again between them. next is where the cursor stands afterwards. */
    method Fetch(n: nat, quiet: bool) returns (batch: seq<(nat, Message)>, next: nat)
      requires ServerOk() && cursor.Some?
      ensures Delivered(batch, first)
      ensures batch != [] && batch[0].0 <= applied + 1 ==> next <= EndOf(applied, Nums(batch)) + 1
      ensures batch == [] ==> next == cursor.value
      ensures quiet && first <= applied + 1 && n > published ==> EndOf(applied, Nums(batch)) >= published
    {
      hide NoJump, EndOf, Taken;
      batch, next := [], cursor.value;
      TakenNothing(applied);
      assert Nums(batch) == [];
      var i := 0;
      while i < n
        invariant 0 <= i <= n
        invariant Genuine(batch)
        invariant batch == [] ==> next == cursor.value
        invariant batch != [] ==> (batch[0].0 > applied + 1 <==> first > applied + 1)
        invariant first <= applied + 1 ==> NoJump(applied, Nums(batch)) && next <= EndOf(applied, Nums(batch)) + 1
        invariant quiet ==> Max(next, first) >= i || Max(next, first) > published
      {
        i := i + 1;
        EndGrows(applied, Nums(batch));
        var from := Max(next, first);
        var again: nat := *;
        if !quiet && first <= again <= applied && again <= published {
          batch := Next(batch, again);
        } else if from <= published {
          batch, next := Next(batch, from), from + 1;
        }
      }
      EndGrows(applied, Nums(batch));
    }

    /** Creates the cursor right after the saved offset, when there is none. */
    method PrepareCursor() returns (ok: bool)
      requires Valid()
      modifies this`cursor
      ensures Valid() && (ok ==> ServerOk() && cursor.Some?)
      ensures ok <==> old(cursor).Some? || first <= applied + 1 <= published + 1
      ensures !ok ==> cursor == None
    {
      hide In, Pos, StreamOps;
      if cursor.None? {
        var start := Prepare(applied, Info(), false);
        if start.Failure? { return false; }
        cursor := Some(start.value);
      }
      ok := true;
    }

    /** One round of the consumer: the cursor is created when there is none, one batch is
        fetched and applied. Retention may trim the stream at any time in between. */
    method RunOnce(n: nat, quiet: bool, syncing: bool, storing: bool, honest: bool)
      returns (ok: bool, crashed: bool, lost: bool)
      requires Valid()
      modifies this`disk, this`meta, this`unknown, this`left, this`touched, this`saved, this`at, this`applied
      modifies this`cursor, this`high, this`first
      ensures Anchored() && (lost ==> crashed) && (!lost ==> Standing())
      ensures applied == saved || (old(applied) == applied < saved && !honest && !crashed)
      ensures quiet && old(first <= applied + 1 <= published + 1) && n > published ==>
                ok && applied == saved >= published
      ensures ok ==> !crashed && applied == saved && cursor.Some? && cursor.value <= applied + 1
      ensures !ok ==> cursor == None
      ensures syncing && storing && old(Guarded() && Current(at)) ==> !lost && Guarded() && Current(at)
    {
      hide In, Durable, Guarded, Current, Pos, StreamOps, NoJump, Taken, EndOf;
      crashed, lost := false, false;
      ok := PrepareCursor();
      if !ok { return; }
      Trims(quiet);
      var batch, next := Fetch(n, quiet);
      Trims(quiet);
      ghost var done;
      ok, crashed, lost, done := Step(batch, Info(), quiet, syncing, storing, honest);
      cursor := if ok then Some(next) else None;
    }

    method Trims(quiet: bool)
      requires Anchored()
      modifies this`first
      ensures Anchored() && first >= old(first) && (quiet ==> first == old(first))
      ensures old(Standing()) ==> Standing()
    {
      var n: nat := *;
      if !quiet && first <= n <= published + 1 { Trim(n); }
    }

    /** The consumer was paused or stopped: its cursor will be created anew. */
    method DropCursor()
      modifies this`cursor
      ensures cursor == None
      ensures old(Valid()) ==> Valid()
    {
      cursor := None;
    }

    /** Reading the stored offset again, as a restart does, repairs a save that stored the
        offset and reported failure. */
    method Reload()
      requires Standing() && applied <= saved
      modifies this`applied, this`cursor
      ensures Valid()
    {
      applied, cursor := saved, None;
    }

    /** A node that reached everything it ever attempted holds exactly the messages up to its
        offset, each applied once, in order. */
    lemma CaughtUpIsExact()
      requires Standing() && high <= at
      ensures View() == ApplyAll(map[], 1, stream[..saved])
    {
      hide Holds;
      StandsBetween(hash, ops, disk, touched, at, high);
      StreamPrefix(1, stream, saved);
      CaughtUp(map[], ops, View(), at);
      assert ops[..at] == StreamOps(1, stream[..saved]);
    }

    /** At any time, replaying what follows the saved offset makes the node equal to one that
        applied every message once, in order. */
    lemma ReplayIsExact()
      requires Standing()
      ensures Exact(View(), ops[at..]) == ApplyAll(map[], 1, stream)
    {
      hide Holds;
      StandsBetween(hash, ops, disk, touched, at, high);
      CatchUp(map[], ops, View(), at, high);
    }

    lemma FinishedIsExact()
      requires Standing() && saved == |stream|
      ensures View() == ApplyAll(map[], 1, stream)
    {
      assert stream[..|stream|] == stream;
      CaughtUpIsExact();
    }

    // -------------------------------------------------------------- draining, backups

    /** How many accepted documents are not written to the shards yet. */
    method WALPending() returns (pending: nat)
      requires WellFormed(disk)
      ensures pending == 0 <==> forall x, j | x in disk && 0 <= j < |disk[x].shards| :: disk[x].shards[j].wal == []
    {
      pending := 0;
      var names := disk.Keys;
      while names != {}
        invariant names <= disk.Keys
        invariant pending == 0 <==>
                    forall x, j | x in disk && x !in names && 0 <= j < |disk[x].shards| :: disk[x].shards[j].wal == []
      {
        var x :| x in names;
        var n: nat := 0;
        for j := 0 to |disk[x].shards|
          invariant n == 0 <==> forall i | 0 <= i < j :: disk[x].shards[i].wal == []
        {
          n := n + |disk[x].shards[j].wal|;
        }
        pending := pending + n;
        names := names - {x};
      }
    }

    /** The log consumer runs, its syncs succeeding, until nothing is pending in any log that
        can be read; the consumer itself is paused. */
    method Drain()
      requires Standing()
      modifies this`disk, this`unknown
      ensures Standing() && WellFormed(old(disk)) && View() == old(View())
      ensures (old(Guarded()) ==> Guarded()) && (old(Current(at)) ==> Current(at))
      ensures disk.Keys == old(disk).Keys && unknown == AllMoved(old(unknown), old(disk))
      ensures forall x | x in disk && SoundShards(old(disk)[x].shards) ::
                forall j | 0 <= j < |disk[x].shards| :: disk[x].shards[j].wal == []
    {
      hide Holds, MetaFits, NodeInvariant.Guarded, Settled, UpToDate, Pos, StreamOps, Sound, Safe, Consumed;
      hide SoundShards, WellFormed, ViewOf;
      Shape(at, at);
      ghost var d, u := disk, unknown;
      ConsumeAll();
      ConsumedView(hash, d, disk);
      ConsumeHolds(hash, ops, d, disk, touched, at, at, at, high);
      ConsumedMappings(d, disk);
      SameMappings(ops, d, disk, meta, left, at, high);
      AllGuarded(hash, ops, d, disk, meta, left, u, unknown, at, at, high);
    }

    method ConsumeAll()
      requires WellFormed(disk)
      modifies this`disk, this`unknown
      ensures Consumed(old(disk), disk) && unknown.Keys <= old(unknown).Keys && disk.Keys == old(disk).Keys
      ensures unknown == AllMoved(old(unknown), old(disk))
      ensures forall x | x in disk :: |disk[x].shards| == |old(disk)[x].shards|
      ensures forall x, j: nat | x in disk && j < |disk[x].shards| && Safe(old(disk)[x].shards[j], {}) ::
                Safe(disk[x].shards[j], {})
      ensures forall x | x in disk && SoundShards(old(disk)[x].shards) ::
                forall j | 0 <= j < |disk[x].shards| :: disk[x].shards[j].wal == []
    {
      hide Consumed, Safe, Sound, SoundShards, WellFormed;
      MovedKeys(unknown, disk);
      unknown := AllMoved(unknown, disk);
      ghost var d := disk;
      disk := AllDrained(disk);
      ConsumedMappings(d, disk);
      ConsumedLengths(d, disk);
    }

    static method AllDrained(d: Disk) returns (next: Disk)
      requires WellFormed(d)
      ensures Consumed(d, next)
      ensures forall x, j: nat | x in d && j < |d[x].shards| && Safe(d[x].shards[j], {}) :: Safe(next[x].shards[j], {})
      ensures forall x | x in next && SoundShards(d[x].shards) ::
                forall j | 0 <= j < |next[x].shards| :: next[x].shards[j].wal == []
    {
      var names := d.Keys;
      next := d;
      while names != {}
        invariant names <= d.Keys && next.Keys == d.Keys
        invariant forall x | x in names :: next[x] == d[x]
        invariant forall x | x in d && x !in names :: next[x] == Drained(d[x])
      {
        var x :| x in names;
        names := names - {x};
        next := next[x := Drained(next[x])];
      }
      forall x, j | x in d && 0 <= j < |d[x].shards|
        ensures ShardConsumed(d[x].shards[j], next[x].shards[j])
        ensures Sound(d[x].shards[j]) ==> next[x].shards[j].wal == []
        ensures Safe(d[x].shards[j], {}) ==> Safe(next[x].shards[j], {})
      {
        assert next[x].shards[j] == WhollyConsumed(d[x].shards[j]);
        assert GoodIndex(d[x]);
        EmptiedShard(d[x].shards[j]);
      }
    }

    /** The files of every shard, as they are. */
    static method Copied(d: Disk, u: Unknown) returns (data: map<Name, seq<Files>>)
      ensures forall meta, offset :: IsCopy(d, meta, u, Backup(meta, data, offset))
    {
      data := map x | x in d :: seq(|d[x].shards|, (j: nat) requires x in d && j < |d[x].shards| =>
                                                     Files(d[x].shards[j].stored, UnknownAt(u, x, j)));
    }

    /** Copies the node and its stored metadata. It fails when accepted documents are not
        written yet. The copy can be restored exactly when the stored metadata has every
        definition and every deletion up to the offset, and knows all that it copied. */
    method CreateBackup() returns (b: Option<Backup>, good: bool)
      requires Standing()
      ensures b.None? <==> exists x, j :: x in disk && 0 <= j < |disk[x].shards| && disk[x].shards[j].wal != []
      ensures b.Some? ==> b.value.offset == saved && IsCopy(disk, meta, unknown, b.value)
      ensures b.Some? ==> b.value.data.Keys <= b.value.metadata.Keys
      ensures at <= high <= |ops|
      ensures b.Some? ==> (good <==> MetaLasts(ops, meta, at, high) && NoneUnknown(ops, disk, unknown, at, high))
      ensures b.Some? ==> (good <==> GoodBackup(hash, shardNum, ops, b.value, at, high))
      ensures b.Some? && Durable() ==> good
    {
      hide Holds, MetaFits, Lasting, GoodBackup, MetaLasts, NoneUnknown, SafeAll, IsCopy, Pos, StreamOps;
      Shape(at, at);
      var pending := WALPending();
      if pending != 0 { return None, false; }
      var data := Copied(disk, unknown);
      b := Some(Backup(meta, data, saved));
      good := CheckLasting(hash, ops, meta, map[], at, high) && NoneUnknown(ops, disk, unknown, at, high);
      CheckIsLasting(hash, ops, meta, map[], at, high);
      NothingLeftLasts(hash, ops, meta, at, high);
      MetadataKnowsAll(disk, meta, left);
      CopyKeys(disk, meta, unknown, b.value);
      BackupHolds(hash, shardNum, ops, disk, meta, left, unknown, b.value, touched, at, high);
      LastingMeta(hash, ops, meta, left, at, high);
      if Durable() { SafeIsKnown(ops, disk, unknown, at, high); }
    }
  }
}
