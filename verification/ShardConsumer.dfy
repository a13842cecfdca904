/** Consuming the write-ahead log of an index shard (pkg/core/index_shards_wal.go): chunks,
    redo records, recovery on open, truncation. */
module ShardConsumer {
  import opened Wrappers
  import opened ShardWal

  /** The entries that a merge map keeps under one group and document. */
  function OfKey(es: seq<Entry>, g: int, id: DocId): seq<Entry> {
    if es == [] then []
    else OfKey(es[..|es| - 1], g, id) + if es[|es| - 1].id == id && es[|es| - 1].group == g then [es[|es| - 1]] else []
  }

  lemma {:induction false} OfKeyIsOfId(es: seq<Entry>, g: int, id: DocId)
    requires OneGroup(es)
    ensures OfKey(es, g, id) == if OfId(es, id) != [] && OfId(es, id)[0].group == g then OfId(es, id) else []
    decreases |es|
  {
    if es != [] {
      var shorter, e := es[..|es| - 1], es[|es| - 1];
      assert OneGroup(shorter) by {
        forall i, j | 0 <= i < |shorter| && 0 <= j < |shorter| && shorter[i].id == shorter[j].id
          ensures shorter[i].group == shorter[j].group
        {
          assert es[i].id == es[j].id;
        }
      }
      OfKeyIsOfId(shorter, g, id);
      if e.id == id && OfId(shorter, id) != [] {
        OfIdMember(shorter, id);
        assert OfId(shorter, id)[0] in shorter;
        assert OfId(shorter, id)[0] in es && e in es;
        SameGroup(es, OfId(shorter, id)[0], e);
      }
    }
  }

  lemma {:induction false} OfKeyMember(es: seq<Entry>, g: int, id: DocId)
    ensures forall e | e in OfKey(es, g, id) :: e in es
    decreases |es|
  {
    if es != [] { OfKeyMember(es[..|es| - 1], g, id); }
  }

  /** The documents that the entries es mention under the group g. */
  function GroupIds(es: seq<Entry>, g: int): set<DocId> {
    set i | 0 <= i < |es| && es[i].group == g :: es[i].id
  }

  /** Some group has at least size documents. */
  ghost predicate Full(es: seq<Entry>, size: int) {
    exists g :: |GroupIds(es, g)| >= size
  }

  lemma SubsetSize<T>(a: set<T>, b: set<T>)
    requires a <= b
    ensures |a| <= |b|
  {
    assert b == a + (b - a);
  }

  lemma Inhabited(s: set<int>)
    ensures s == {} || exists g :: g in s
  {
    if forall g :: g !in s { assert s == {}; }
  }

  lemma FullStays(a: seq<Entry>, b: seq<Entry>, size: int)
    requires a <= b && Full(a, size)
    ensures Full(b, size)
  {
    var g :| |GroupIds(a, g)| >= size;
    forall id | id in GroupIds(a, g)
      ensures id in GroupIds(b, g)
    {
      var i :| 0 <= i < |a| && a[i].group == g && a[i].id == id;
      assert b[i] == a[i];
    }
    SubsetSize(GroupIds(a, g), GroupIds(b, g));
  }

  // ---------------------------------------------------------------- the merge map

  type Groups = map<int, map<DocId, WalDocument>>

  /** groups is the merge of the entries es. Groups that were emptied may stay as keys. */
  ghost predicate Merges(groups: Groups, es: seq<Entry>) {
    && (forall g, id :: g in groups && id in groups[g] <==> OfKey(es, g, id) != [])
    && (forall g, id | g in groups && id in groups[g] :: groups[g][id] == MergedDoc(OfKey(es, g, id)))
  }

  lemma {:induction false} GroupKeys(es: seq<Entry>, g: int, id: DocId)
    ensures id in GroupIds(es, g) <==> OfKey(es, g, id) != []
    decreases |es|
  {
    if es != [] {
      GroupKeys(es[..|es| - 1], g, id);
      var n := |es| - 1;
      assert id in GroupIds(es, g) <==> id in GroupIds(es[..n], g) || (es[n].group == g && es[n].id == id) by {
        if i :| 0 <= i < |es| && es[i].group == g && es[i].id == id && i < n {
          assert es[..n][i] == es[i];
        }
      }
    }
  }

  /** groups after e was merged into them. */
  function Added(groups: Groups, e: Entry): Groups {
    var docs := if e.group in groups then groups[e.group] else map[];
    var w := if e.id in docs then docs[e.id] else WalDocument([], e.doc);
    groups[e.group := docs[e.id := WalDocument(w.actions + [e.action], e.doc)]]
  }

  lemma MergesOne(groups: Groups, es: seq<Entry>, e: Entry)
    requires Merges(groups, es)
    ensures Merges(Added(groups, e), es + [e])
  {
    hide OfKey, MergedDoc, Added;
    forall g, id
      ensures g in Added(groups, e) && id in Added(groups, e)[g] <==> OfKey(es + [e], g, id) != []
      ensures g in Added(groups, e) && id in Added(groups, e)[g] ==>
                Added(groups, e)[g][id] == MergedDoc(OfKey(es + [e], g, id))
    {
      var mine := OfKey(es, g, id);
      assert g in groups && id in groups[g] <==> mine != [];
      assert mine != [] ==> groups[g][id] == MergedDoc(mine);
      hide Merges;
      OfKeyNext(es, e, g, id);
      if g == e.group && id == e.id {
        AddedHere(groups, e);
        MergedNext(mine, e);
        assert OfKey(es + [e], g, id) == mine + [e];
      } else {
        AddedElsewhere(groups, e, g, id);
      }
    }
  }

  lemma AddedHere(groups: Groups, e: Entry)
    ensures var added := Added(groups, e);
            && e.group in added && e.id in added[e.group]
            && added[e.group][e.id] == WalDocument(
                 (if e.group in groups && e.id in groups[e.group] then groups[e.group][e.id].actions else [])
                   + [e.action],
                 e.doc)
  {
  }

  lemma AddedElsewhere(groups: Groups, e: Entry, g: int, id: DocId)
    requires g != e.group || id != e.id
    ensures g in Added(groups, e) && id in Added(groups, e)[g] <==> g in groups && id in groups[g]
    ensures g in groups && id in groups[g] ==> Added(groups, e)[g][id] == groups[g][id]
  {
  }

  lemma MergedNext(mine: seq<Entry>, e: Entry)
    ensures mine + [e] != []
    ensures MergedDoc(mine + [e])
            == WalDocument((if mine == [] then [] else MergedDoc(mine).actions) + [e.action], e.doc)
  {
  }

  lemma OfKeyNext(es: seq<Entry>, e: Entry, g: int, id: DocId)
    ensures OfKey(es + [e], g, id) ==
              if e.group == g && e.id == id then OfKey(es, g, id) + [e] else OfKey(es, g, id)
  {
    assert (es + [e])[..|es|] == es;
  }

  class WalMergeDocs {
    var groups: Groups
    /** The entries added since the last reset. */
    ghost var entries: seq<Entry>

    ghost predicate Valid()
      reads this
    {
      Merges(groups, entries)
    }

    constructor ()
      ensures Valid() && entries == [] && groups == map[]
    {
      groups, entries := map[], [];
    }

    method AddDocument(e: Entry)
      requires Valid()
      modifies this
      ensures Valid() && entries == old(entries) + [e]
      ensures groups.Keys == old(groups.Keys) + {e.group}
    {
      MergesOne(groups, entries, e);
      var docs := if e.group in groups then groups[e.group] else map[];
      var w := if e.id in docs then docs[e.id] else WalDocument([], e.doc);
      groups := groups[e.group := docs[e.id := WalDocument(w.actions + [e.action], e.doc)]];
      entries := entries + [e];
    }

    method MaxShardLen() returns (n: nat)
      requires Valid()
      ensures forall size: int :: n >= size <==> Full(entries, size)
      ensures n == 0 <==> entries == []
    {
      hide Merges;
      n := MaxLen();
      MergedSizes();
      assert |GroupIds(entries, 0)| >= 0;
      if entries != [] {
        var g := entries[0].group;
        assert entries[0].id in GroupIds(entries, g);
      }
    }

    method MaxLen() returns (n: nat)
      ensures forall g | g in groups :: |groups[g]| <= n
      ensures n == 0 || exists g :: g in groups && |groups[g]| == n
    {
      n := 0;
      var todo: set<int> := groups.Keys;
      while todo != {}
        invariant todo <= groups.Keys
        invariant forall g | g in groups && g !in todo :: |groups[g]| <= n
        invariant n == 0 || exists g :: g in groups && |groups[g]| == n
      {
        Inhabited(todo);
        var g :| g in todo;
        if |groups[g]| > n { n := |groups[g]|; }
        todo := todo - {g};
      }
    }

    lemma MergedSizes()
      requires Valid()
      ensures forall g | g in groups :: |groups[g]| == |GroupIds(entries, g)|
      ensures forall g | g !in groups :: GroupIds(entries, g) == {}
    {
      forall g
        ensures if g in groups then groups[g].Keys == GroupIds(entries, g) else GroupIds(entries, g) == {}
      {
        forall id
          ensures id in GroupIds(entries, g) <==> g in groups && id in groups[g]
        {
          GroupKeys(entries, g, id);
        }
      }
    }

    lemma EveryGroup()
      requires Valid()
      ensures forall i | 0 <= i < |entries| :: entries[i].group in groups
    {
      forall i | 0 <= i < |entries|
        ensures entries[i].group in groups
      {
        GroupKeys(entries, entries[i].group, entries[i].id);
      }
    }

    lemma NothingInserted()
      requires Valid() && forall i | 0 <= i < |entries| :: entries[i].action != Insert
      ensures forall g, id | g in groups && id in groups[g] && groups[g][id].actions != [] ::
                groups[g][id].actions[0] != Insert
    {
      forall g, id | g in groups && id in groups[g] && groups[g][id].actions != []
        ensures groups[g][id].actions[0] != Insert
      {
        OfKeyMember(entries, g, id);
        assert OfKey(entries, g, id)[0] in entries;
      }
    }

    lemma HasActions()
      requires Valid()
      ensures forall g, id | g in groups && id in groups[g] :: groups[g][id].actions != []
    {
    }

    /** Empties every group; the groups stay as keys. */
    method Reset()
      modifies this
      ensures Valid() && entries == [] && groups.Keys == old(groups.Keys)
    {
      entries := [];
      groups := map g | g in groups :: map[];
    }
  }

  // ---------------------------------------------------------------- writing a chunk

  /** The batch of the target writer and the batch of the other writers. */
  method BuildBatches(docs: map<DocId, WalDocument>) returns (batch: Batch, others: Batch)
    requires forall id | id in docs :: docs[id].actions != []
    ensures forall id :: OpFor(batch, id) == if id in docs then TargetOp(docs[id]) else None
    ensures forall id :: OpFor(others, id) == if id in docs then OtherOp(docs[id]) else None
  {
    batch, others := map[], map[];
    var todo := docs.Keys;
    while todo != {}
      invariant todo <= docs.Keys
      invariant forall id :: OpFor(batch, id) == if id in docs && id !in todo then TargetOp(docs[id]) else None
      invariant forall id :: OpFor(others, id) == if id in docs && id !in todo then OtherOp(docs[id]) else None
    {
      var id :| id in todo;
      var w := docs[id];
      var first, last := w.actions[0], w.actions[|w.actions| - 1];
      match first {
        case Insert =>
          if last != Delete { batch := batch[id := AddDoc(w.doc)]; }
        case _ =>
          batch := batch[id := if last == Delete then RemoveDoc else ReplaceDoc(w.doc)];
          others := others[id := RemoveDoc];
      }
      todo := todo - {id};
    }
  }

  /** What recovery asks the writer of a group: to remove what was inserted. */
  method BuildRollback(docs: map<DocId, WalDocument>) returns (batch: Batch)
    requires forall id | id in docs :: docs[id].actions != []
    ensures forall id ::
              OpFor(batch, id) == if id in docs && docs[id].actions[0] == Insert then Some(RemoveDoc) else None
  {
    batch := map[];
    var todo := docs.Keys;
    while todo != {}
      invariant todo <= docs.Keys
      invariant forall id :: OpFor(batch, id) ==
                             if id in docs && id !in todo
                                && docs[id].actions[0] == Insert then Some(RemoveDoc) else None
    {
      var id :| id in todo;
      if docs[id].actions[0] == Insert { batch := batch[id := RemoveDoc]; }
      todo := todo - {id};
    }
  }

  /** Whether the document id is logged under the group g. */
  predicate Under(es: seq<Entry>, g: int, id: DocId) {
    OfId(es, id) != [] && OfId(es, id)[0].group == g
  }

  /** The writers that hear of the group g. */
  predicate Addressed(n: nat, g: int, j: nat) { n > 0 && j < n && (AllShards(g) || Target(n, g) == Some(j)) }

  /** What shard j holds of a document once the writers told have received their batch for the group g. */
  function PartCopies(start: seq<Shard>, es: seq<Entry>, g: int, told: set<nat>, j: nat, id: DocId): seq<Doc>
    requires j < |start|
  {
    if j in told && Under(es, g, id) then Effect(|start|, OfId(es, id), j, Copies(start[j], id))
    else Copies(start[j], id)
  }

  /** The writers told have received their batch for the group g, the others have not. */
  ghost predicate PartGroup(start: seq<Shard>, es: seq<Entry>, g: int, told: set<nat>, shards: seq<Shard>) {
    && |shards| == |start| > 0
    && (forall j | j in told :: Addressed(|start|, g, j))
    && forall j: nat, id | j < |start| :: Copies(shards[j], id) == PartCopies(start, es, g, told, j, id)
  }

  /** The groups done are written completely, the others not at all. */
  ghost predicate GroupsWritten(start: seq<Shard>, es: seq<Entry>, done: set<int>, shards: seq<Shard>) {
    && |shards| == |start| > 0
    && forall j: nat, id | j < |start| ::
         Copies(shards[j], id) ==
         if OfId(es, id) != [] && OfId(es, id)[0].group in done
         then Effect(|start|, OfId(es, id), j, Copies(start[j], id)) else Copies(start[j], id)
  }

  lemma GroupBegins(shards: seq<Shard>, es: seq<Entry>, g: int)
    requires shards != []
    ensures PartGroup(shards, es, g, {}, shards) && GroupsWritten(shards, es, {}, shards)
  {
  }

  /** What a writer's batch for a group says. */
  ghost predicate BatchFor(n: nat, es: seq<Entry>, g: int, j: nat, batch: Batch) {
    && n > 0
    && forall id :: OpFor(batch, id) ==
         if !Under(es, g, id) then None
         else if Target(n, g) == Some(j) then TargetOp(MergedDoc(OfId(es, id))) else OtherOp(MergedDoc(OfId(es, id)))
  }

  lemma OneBatch(start: seq<Shard>, es: seq<Entry>, g: int, told: set<nat>, shards: seq<Shard>, j: nat, batch: Batch)
    requires PartGroup(start, es, g, told, shards) && Addressed(|start|, g, j) && j !in told
    requires BatchFor(|start|, es, g, j, batch)
    ensures PartGroup(start, es, g, told + {j}, shards[j := ApplyBatch(shards[j], batch)])
  {
    var after := shards[j := ApplyBatch(shards[j], batch)];
    forall k: nat, id | k < |start|
      ensures Copies(after[k], id) == PartCopies(start, es, g, told + {j}, k, id)
    {
      hide PartCopies, ApplyBatch, BatchFor, Addressed;
      if k == j {
        OneCopy(start, es, g, told, shards, j, batch, id);
      } else {
        OtherCopy(start, es, g, told, shards, j, k, id);
        assert after[k] == shards[k];
      }
    }
  }

  lemma OneCopy(start: seq<Shard>, es: seq<Entry>, g: int, told: set<nat>, shards: seq<Shard>, j: nat, batch: Batch,
                id: DocId)
    requires PartGroup(start, es, g, told, shards) && Addressed(|start|, g, j) && j !in told
    requires BatchFor(|start|, es, g, j, batch)
    ensures Copies(ApplyBatch(shards[j], batch), id) == PartCopies(start, es, g, told + {j}, j, id)
  {
    hide OfId, MergedDoc, Effect, Applied, OpFor, Under, BatchFor;
    assert Copies(shards[j], id) == Copies(start[j], id);
    BatchEffect(|start|, es, g, j, batch, id, Copies(start[j], id));
  }

  lemma OtherCopy(start: seq<Shard>, es: seq<Entry>, g: int, told: set<nat>, shards: seq<Shard>, j: nat, k: nat,
                  id: DocId)
    requires PartGroup(start, es, g, told, shards) && k != j && k < |start|
    ensures Copies(shards[k], id) == PartCopies(start, es, g, told + {j}, k, id)
  {
    hide OfId, Effect, Under, Addressed;
    assert k in told + {j} <==> k in told;
  }

  lemma BatchEffect(n: nat, es: seq<Entry>, g: int, j: nat, batch: Batch, id: DocId, copies: seq<Doc>)
    requires Addressed(n, g, j) && BatchFor(n, es, g, j, batch)
    ensures Applied(OpFor(batch, id), copies) == if Under(es, g, id) then Effect(n, OfId(es, id), j, copies) else copies
  {
    hide OfId, MergedDoc, TargetOp, OtherOp;
    assert OpFor(batch, id) ==
           if !Under(es, g, id) then None
           else if Target(n, g) == Some(j) then TargetOp(MergedDoc(OfId(es, id))) else OtherOp(MergedDoc(OfId(es, id)));
  }

  /** The batches built from a group of the merge map are what the group's writers must hear. */
  lemma BatchesFor(groups: Groups, es: seq<Entry>, g: int, n: nat, t: nat, batch: Batch, others: Batch)
    requires Merges(groups, es) && OneGroup(es) && g in groups && n > 0 && Target(n, g) == Some(t)
    requires forall id | id in groups[g] :: groups[g][id].actions != []
    requires forall id :: OpFor(batch, id) == if id in groups[g] then TargetOp(groups[g][id]) else None
    requires forall id :: OpFor(others, id) == if id in groups[g] then OtherOp(groups[g][id]) else None
    ensures BatchFor(n, es, g, t, batch)
    ensures forall j: nat | j != t :: BatchFor(n, es, g, j, others)
  {
    hide OfId, MergedDoc, TargetOp, OtherOp, OpFor, OfKey;
    forall id
      ensures id in groups[g] <==> Under(es, g, id)
      ensures id in groups[g] ==> groups[g][id] == MergedDoc(OfId(es, id))
    {
      MergedUnder(groups, es, g, id);
    }
  }

  lemma GroupDone(start: seq<Shard>, es: seq<Entry>, done: set<int>, mid: seq<Shard>, g: int, told: set<nat>,
                  shards: seq<Shard>)
    requires GroupsWritten(start, es, done, mid) && g !in done && PartGroup(mid, es, g, told, shards)
    ensures Loose(start, es, shards)
    ensures (forall j: nat :: Addressed(|start|, g, j) ==> j in told) ==> GroupsWritten(start, es, done + {g}, shards)
  {
    hide OfId, MergedDoc, Applied, TargetOp, OtherOp;
  }

  lemma AllGroupsWritten(start: seq<Shard>, es: seq<Entry>, done: set<int>, shards: seq<Shard>)
    requires GroupsWritten(start, es, done, shards)
    requires forall i | 0 <= i < |es| :: es[i].group in done
    ensures Written(start, es, shards)
  {
    forall j: nat, id | j < |start|
      ensures Copies(shards[j], id) == Effect(|start|, OfId(es, id), j, Copies(start[j], id))
    {
      OfIdMember(es, id);
      if OfId(es, id) != [] { assert OfId(es, id)[0] in es; }
      hide OfId;
    }
  }

  /** A merged document under the group g is the document's whole history in the chunk. */
  lemma MergedUnder(groups: Groups, es: seq<Entry>, g: int, id: DocId)
    requires Merges(groups, es) && OneGroup(es) && g in groups
    ensures id in groups[g] <==> Under(es, g, id)
    ensures id in groups[g] ==> groups[g][id] == MergedDoc(OfId(es, id))
  {
    hide OfId, OfKey, MergedDoc;
    OfKeyIsOfId(es, g, id);
  }

  /** Whether a step of the environment took effect, and whether it reported success. Nothing
      fails while quiet. */
  method Outcome(quiet: bool) returns (stored: bool, ok: bool)
    ensures ok ==> stored
    ensures quiet ==> ok
  {
    stored, ok := *, *;
    if quiet { stored, ok := true, true; }
    ok := ok && stored;
  }

  // ---------------------------------------------------------------- the invariant

  datatype Range = Range(min: nat, max: nat)

  /** At a committed point: the shards clean hold exactly the documents m. */
  ghost predicate CommittedAt(m: map<DocId, Doc>, log: seq<Entry>, c: nat, clean: seq<Shard>) {
    && c <= |log|
    && Replayable(log[c..], |clean|)
    && Settled(clean, m, log[c..])
  }

  /** A chunk never extends beyond the entry that fills it. */
  ghost predicate FirstFull(log: seq<Entry>, c: nat, b: nat, size: int) {
    && c < b <= |log| && b <= c + MAX_BATCH_SIZE
    && (b == c + 1 || !Full(log[c..b - 1], size))
  }

  lemma PrefixReplayable(es: seq<Entry>, k: nat, n: nat)
    requires Replayable(es, n) && k <= |es|
    ensures Replayable(es[..k], n) && Replayable(es[k..], n)
  {
    var a, b := es[..k], es[k..];
    forall i, j | 0 <= i < |a| && 0 <= j < |a| && a[i].id == a[j].id
      ensures a[i].group == a[j].group
    {
      assert es[i].id == es[j].id;
    }
    forall i, j | 0 <= i < |b| && 0 <= j < |b| && b[i].id == b[j].id
      ensures b[i].group == b[j].group
    {
      assert es[k + i].id == es[k + j].id;
    }
  }

  lemma WrittenLength(clean: seq<Shard>, es: seq<Entry>, shards: seq<Shard>)
    requires Written(clean, es, shards)
    ensures |clean| == |shards|
  {
  }

  lemma SettledSuffix(shards: seq<Shard>, m: map<DocId, Doc>, es: seq<Entry>, k: nat)
    requires Settled(shards, m, es) && k <= |es|
    ensures Settled(shards, m, es[k..])
  {
    hide Placed, Exact;
    forall i | 0 <= i < |es[k..]|
      ensures Placed(shards, es[k..][i].id, es[k..][i].group)
    {
      assert es[k..][i] == es[k + i];
    }
  }

  /** What holds at any time, crashes and failures included: at the last committed point c the
      shards were clean; since then at most the one chunk begun right after c was written,
      completely, partly or not at all. */
  ghost predicate Recoverable(m: map<DocId, Doc>, log: seq<Entry>, c: nat, attempt: Option<Range>,
                              clean: seq<Shard>, shards: seq<Shard>, size: int) {
    && c <= |log| && |shards| == |clean|
    && CommittedAt(m, log, c, clean)
    && match attempt
       case None => SameCopies(clean, shards)
       case Some(r) =>
         && r.min == c + 1 && r.max <= |log|
         && FirstFull(log, c, r.max, size)
         && Loose(clean, log[c..r.max], shards)
  }

  lemma EmptyCommitted(size: int)
    ensures Recoverable(map[], [], 0, None, [map[]], [map[]], size)
  {
    var none: seq<Entry> := [];
    forall id
      ensures Exact([map[]], Find(map[], id), id)
    {
      assert Column([map[]], id) == [[]];
    }
  }

  lemma Appended(m: map<DocId, Doc>, log: seq<Entry>, c: nat, attempt: Option<Range>, clean: seq<Shard>,
                 shards: seq<Shard>, size: int, e: Entry)
    requires Recoverable(m, log, c, attempt, clean, shards, size) && Replayable(log[c..] + [e], |clean|)
    requires AllShards(e.group) || Placed(clean, e.id, e.group)
    ensures Recoverable(m, log + [e], c, attempt, clean, shards, size)
  {
    hide Exact, Fold, Replayable, Loose, SameCopies, Full;
    assert (log + [e])[c..] == log[c..] + [e] && (log + [e])[..c] == log[..c];
    if attempt.Some? {
      var b := attempt.value.max;
      assert (log + [e])[c..b] == log[c..b] && (log + [e])[c..b - 1] == log[c..b - 1];
    }
  }

  lemma LostTail(m: map<DocId, Doc>, log: seq<Entry>, c: nat, attempt: Option<Range>, clean: seq<Shard>,
                 shards: seq<Shard>, size: int, keep: nat)
    requires Recoverable(m, log, c, attempt, clean, shards, size) && c <= keep <= |log|
             && (attempt.Some? ==> attempt.value.max <= keep)
    ensures Recoverable(m, log[..keep], c, attempt, clean, shards, size)
  {
    hide Exact, Fold, Replayable, Placed, Loose, SameCopies, Full;
    assert log[..keep][c..] == log[c..][..keep - c] && log[..keep][..c] == log[..c];
    PrefixReplayable(log[c..], keep - c, |clean|);
    if attempt.Some? {
      var b := attempt.value.max;
      assert log[..keep][c..b] == log[c..b] && log[..keep][c..b - 1] == log[c..b - 1];
    }
  }

  lemma RecoverableFacts(m: map<DocId, Doc>, log: seq<Entry>, c: nat, attempt: Option<Range>, clean: seq<Shard>,
                         shards: seq<Shard>, size: int)
    requires Recoverable(m, log, c, attempt, clean, shards, size)
    ensures GroupsExist(log, c, |shards|)
    ensures attempt.Some? ==> c < attempt.value.max <= Min(|log|, c + MAX_BATCH_SIZE)
  {
    hide Settled, OneGroup, Loose, SameCopies, Full;
    forall i | c <= i < |log|
      ensures log[i].group < |clean|
    {
      assert log[c..][i - c] == log[i];
    }
  }

  /** The next chunk can be begun whatever an earlier attempt left behind, as it includes it. */
  lemma ChunkBegins(m: map<DocId, Doc>, log: seq<Entry>, c: nat, attempt: Option<Range>, clean: seq<Shard>,
                    shards: seq<Shard>, size: int, id: nat)
    requires Recoverable(m, log, c, attempt, clean, shards, size)
    requires FirstFull(log, c, id, size) && (attempt.Some? ==> attempt.value.max <= id)
    ensures Recoverable(m, log, c, Some(Range(c + 1, id)), clean, shards, size)
    ensures shards != [] && OneGroup(log[c..id])
  {
    hide Settled, Fold, Full;
    assert log[c..id] == log[c..][..id - c];
    PrefixReplayable(log[c..], id - c, |clean|);
    if attempt.Some? {
      assert log[c..attempt.value.max] <= log[c..id];
      SameIsLoose(shards, log[c..id]);
      LooseTrans(clean, log[c..attempt.value.max], shards, log[c..id], shards);
    }
  }

  lemma ChunkPartlyWritten(m: map<DocId, Doc>, log: seq<Entry>, c: nat, id: nat, clean: seq<Shard>,
                           before: seq<Shard>, shards: seq<Shard>, size: int)
    requires Recoverable(m, log, c, Some(Range(c + 1, id)), clean, before, size)
    requires c < id <= |log| && Loose(before, log[c..id], shards)
    ensures Recoverable(m, log, c, Some(Range(c + 1, id)), clean, shards, size)
  {
    hide Full, CommittedAt;
    LooseTrans(clean, log[c..id], before, log[c..id], shards);
  }

  /** A chunk written completely is committed, whatever earlier attempts wrote of it. */
  lemma ChunkCommitted(m: map<DocId, Doc>, log: seq<Entry>, c: nat, id: nat, clean: seq<Shard>, before: seq<Shard>,
                       shards: seq<Shard>, size: int)
    requires Recoverable(m, log, c, Some(Range(c + 1, id)), clean, before, size)
    requires c < id <= |log| && Written(before, log[c..id], shards)
    ensures Recoverable(Fold(m, log[c..id]), log, id, None, shards, shards, size)
  {
    hide Replayable, Settled, Written, Fold, Full, Loose;
    var rest := log[c..];
    assert rest[..id - c] == log[c..id] && rest[id - c..] == log[id..];
    PrefixReplayable(rest, id - c, |clean|);
    RetryCompletes(clean, log[c..id], before, log[c..id], shards);
    WrittenLength(clean, log[c..id], shards);
    assert forall e | e in log[c..id] :: e in rest;
    WrittenSettles(clean, m, log[c..id], shards, rest);
    SettledSuffix(shards, Fold(m, log[c..id]), rest, id - c);
  }

  lemma Grown(m: map<DocId, Doc>, log: seq<Entry>, c: nat, clean: seq<Shard>, shards: seq<Shard>, extra: Shard,
              size: int)
    requires Recoverable(m, log, c, None, clean, shards, size) && Blank(extra)
    ensures Recoverable(m, log, c, None, clean + [extra], shards + [extra], size)
  {
    hide Settled, Replayable, Fold;
    GrownSettles(clean, extra, m, log[c..]);
  }

  /** After the shards from number n on were lost, the others are recoverable exactly when
      nothing was in the lost ones at the last commit and nothing pending names them. */
  lemma ShardsLost(m: map<DocId, Doc>, log: seq<Entry>, c: nat, attempt: Option<Range>, clean: seq<Shard>,
                   shards: seq<Shard>, size: int, n: nat)
    requires Recoverable(m, log, c, attempt, clean, shards, size) && 0 < n <= |shards|
    ensures Recoverable(m, log, c, attempt, clean[..n], shards[..n], size) <==>
            AllBlank(clean[n..]) && NamesBelow(log[c..], n)
  {
    hide Settled, Replayable, Fold, Full;
    ShrunkSettles(clean, n, m, log[c..]);
    if AllBlank(clean[n..]) && NamesBelow(log[c..], n) && attempt.Some? {
      assert c < attempt.value.max <= |log|;
      assert log[c..][..attempt.value.max - c] == log[c..attempt.value.max];
      ShrunkLoose(clean, log[c..], attempt.value.max - c, shards, n);
    }
  }

  /** What a crash leaves is recoverable exactly when the log reaches the committed entry and
      the chunk that was begun, and the lost shards do not matter. */
  lemma CrashRecoverable(m: map<DocId, Doc>, log: seq<Entry>, c: nat, attempt: Option<Range>, clean: seq<Shard>,
                         shards: seq<Shard>, size: int, keep: nat, n: nat)
    requires Recoverable(m, log, c, attempt, clean, shards, size) && 0 < n <= |shards| && keep <= |log|
    requires |clean| == |shards|
    ensures Recoverable(m, log[..keep], c, attempt, clean[..n], shards[..n], size) <==>
            && c <= keep && (attempt.Some? ==> attempt.value.max <= keep)
            && AllBlank(clean[n..]) && NamesBelow(log[..keep][c..], n)
  {
    if c <= keep && (attempt.Some? ==> attempt.value.max <= keep) {
      hide Recoverable;
      LostTail(m, log, c, attempt, clean, shards, size, keep);
      ShardsLost(m, log[..keep], c, attempt, clean, shards, size, n);
    } else {
      hide CommittedAt, FirstFull, Loose, SameCopies;
    }
  }

  lemma ShrunkLoose(clean: seq<Shard>, es: seq<Entry>, k: nat, shards: seq<Shard>, n: nat)
    requires k <= |es| && Loose(clean, es[..k], shards) && 0 < n <= |clean| && NamesBelow(es, n) && Replayable(es, n)
    ensures Loose(clean[..n], es[..k], shards[..n])
  {
    hide Replayable, NamesBelow, OfId;
    forall j: nat, id | j < n
      ensures || Copies(shards[..n][j], id) == Copies(clean[..n][j], id)
              || (&& OfId(es[..k], id) != []
                  && (AllShards(OfId(es[..k], id)[0].group) || Target(n, OfId(es[..k], id)[0].group) == Some(j)))
    {
      GroupBelow(es, k, id, n);
    }
  }

  lemma GroupBelow(es: seq<Entry>, k: nat, id: DocId, n: nat)
    requires k <= |es| && NamesBelow(es, n)
    ensures OfId(es[..k], id) != [] ==> OfId(es[..k], id)[0].group < n
  {
    OfIdMember(es[..k], id);
    hide OfId;
    if OfId(es[..k], id) != [] {
      assert OfId(es[..k], id)[0] in es[..k];
      var i :| 0 <= i < k && es[i] == OfId(es[..k], id)[0];
    }
  }

  /** Once the log has as many entries as were committed, it can be consumed again. */
  lemma HoleFilled(m: map<DocId, Doc>, log: seq<Entry>, clean: seq<Shard>, shards: seq<Shard>, size: int)
    requires clean != [] && Settled(clean, m, []) && SameCopies(clean, shards)
    ensures Recoverable(m, log, |log|, None, clean, shards, size)
  {
    hide Exact;
    assert log[|log|..] == [];
  }

  lemma SettledNothing(clean: seq<Shard>, m: map<DocId, Doc>, es: seq<Entry>)
    requires Settled(clean, m, es)
    ensures Settled(clean, m, [])
  {
  }

  lemma SameIsLoose(shards: seq<Shard>, es: seq<Entry>)
    requires shards != []
    ensures Loose(shards, es, shards)
  {
  }

  lemma SameAsItself(shards: seq<Shard>)
    ensures SameCopies(shards, shards)
  {
  }

  lemma SameLength(start: seq<Shard>, es: seq<Entry>, g: int, told: set<nat>, shards: seq<Shard>)
    requires PartGroup(start, es, g, told, shards)
    ensures |shards| == |start|
  {
  }

  /** A retried chunk ends no earlier than the attempt before. */
  lemma ChunkReaches(m: map<DocId, Doc>, log: seq<Entry>, c: nat, attempt: Option<Range>, clean: seq<Shard>,
                     shards: seq<Shard>, size: int, id: nat)
    requires Recoverable(m, log, c, attempt, clean, shards, size)
    requires c < id <= |log| && (Full(log[c..id], size) || (attempt.Some? ==> attempt.value.max <= id))
    ensures attempt.Some? ==> attempt.value.max <= id
  {
    hide CommittedAt, Full, Loose, SameCopies;
    if attempt.Some? && id < attempt.value.max { FullStays(log[c..id], log[c..attempt.value.max - 1], size); }
  }

  lemma NotYetFull(log: seq<Entry>, c: nat, id: nat, size: int)
    requires c < id <= |log| && id <= c + MAX_BATCH_SIZE
             && (c == id - 1 || !Full(log[c..id - 1], size) || !Full(log[c..id], size))
    ensures FirstFull(log, c, id, size)
  {
    if Full(log[c..id - 1], size) { FullStays(log[c..id - 1], log[c..id], size); }
  }

  /** The documents that some shards hold. */
  function Held(shards: seq<Shard>): set<DocId> {
    set j, id | 0 <= j < |shards| && id in shards[j] && shards[j][id] != [] :: id
  }

  lemma HeldNothing(shards: seq<Shard>)
    ensures Held(shards) == {} <==> AllBlank(shards)
  {
    if !AllBlank(shards) {
      var j :| 0 <= j < |shards| && !Blank(shards[j]);
      var id :| id in shards[j] && shards[j][id] != [];
      assert id in Held(shards);
    }
  }

  lemma HeldBoth(a: seq<Shard>, b: seq<Shard>)
    ensures Held(a + b) == Held(a) + Held(b)
  {
    forall id
      ensures id in Held(a + b) <==> id in Held(a) || id in Held(b)
    {
      if id in Held(a) {
        var j :| 0 <= j < |a| && id in a[j] && a[j][id] != [];
        assert (a + b)[j] == a[j];
      }
      if id in Held(b) {
        var j :| 0 <= j < |b| && id in b[j] && b[j][id] != [];
        assert (a + b)[|a| + j] == b[j];
      }
    }
  }

  /** Documents that are not among ids are where they were. */
  ghost predicate Elsewhere(a: seq<Shard>, b: seq<Shard>, ids: set<DocId>) {
    |a| <= |b| && forall j: nat, id | j < |a| && id !in ids :: Copies(b[j], id) == Copies(a[j], id)
  }

  lemma ElsewhereOn(a: seq<Shard>, b: seq<Shard>, c: seq<Shard>, log: seq<Entry>, x: nat, y: nat, z: nat)
    requires x <= y <= z <= |log| && Elsewhere(a, b, Ids(log[x..y])) && Elsewhere(b, c, Ids(log[y..z]))
    ensures Elsewhere(a, c, Ids(log[x..z]))
  {
    IdsOn(log, x, y, z);
  }

  lemma IdsOn(log: seq<Entry>, x: nat, y: nat, z: nat)
    requires x <= y <= z <= |log|
    ensures Ids(log[x..z]) == Ids(log[x..y]) + Ids(log[y..z])
  {
    var a, b := log[x..y], log[y..z];
    assert log[x..z] == a + b;
    forall id
      ensures id in Ids(a + b) <==> id in Ids(a) || id in Ids(b)
    {
      if id in Ids(a) {
        var i :| 0 <= i < |a| && a[i].id == id;
        assert (a + b)[i].id == id;
      }
      if id in Ids(b) {
        var i :| 0 <= i < |b| && b[i].id == id;
        assert (a + b)[|a| + i].id == id;
      }
    }
  }

  /** Writing a chunk leaves all other documents where they are. */
  lemma WrittenElsewhere(m: map<DocId, Doc>, log: seq<Entry>, c: nat, id: nat, clean: seq<Shard>, before: seq<Shard>,
                         shards: seq<Shard>, size: int)
    requires Recoverable(m, log, c, Some(Range(c + 1, id)), clean, before, size)
    requires c < id <= |log| && Written(before, log[c..id], shards)
    ensures Elsewhere(clean, shards, Ids(log[c..id]))
  {
    hide Replayable, Settled, Full, Fold;
    var es := log[c..id];
    assert es == log[c..][..id - c];
    PrefixReplayable(log[c..], id - c, |clean|);
    RetryCompletes(clean, es, before, es, shards);
    WriteAllMember(es);
    forall j: nat, k | j < |clean| && k !in Ids(es)
      ensures Copies(shards[j], k) == Copies(clean[j], k)
    {
      assert OfId(es, k) == [];
    }
  }

  /** What is written of a chunk so far leaves all other documents where they are. */
  lemma BegunElsewhere(m: map<DocId, Doc>, log: seq<Entry>, c: nat, attempt: Option<Range>, clean: seq<Shard>,
                       shards: seq<Shard>, size: int)
    requires Recoverable(m, log, c, attempt, clean, shards, size)
    ensures |shards| == |clean| && c <= |log| && (attempt.Some? ==> c <= attempt.value.max <= |log|)
    ensures Elsewhere(clean, shards, if attempt.Some? then Ids(log[c..attempt.value.max]) else {})
    ensures Elsewhere(shards, clean, if attempt.Some? then Ids(log[c..attempt.value.max]) else {})
  {
    hide Settled, Replayable, Full;
    if attempt.Some? { WriteAllMember(log[c..attempt.value.max]); }
  }

  /** What some shards hold beyond what they held before has new documents only. */
  lemma HeldElsewhere(a: seq<Shard>, b: seq<Shard>, ids: set<DocId>, n: nat)
    requires Elsewhere(a, b, ids) && n <= |a|
    ensures Held(b[n..|a|]) <= Held(a[n..]) + ids
  {
    forall id | id in Held(b[n..|a|]) && id !in ids
      ensures id in Held(a[n..])
    {
      var j :| 0 <= j < |a| - n && id in b[n..|a|][j] && b[n..|a|][j][id] != [];
      assert Copies(b[n + j], id) == Copies(a[n + j], id);
      assert a[n..][j] == a[n + j];
    }
  }

  lemma Longer(a: seq<Shard>, b: seq<Shard>, c: seq<Shard>, ids: set<DocId>)
    requires Elsewhere(a, b, ids) && b <= c
    ensures Elsewhere(a, c, ids)
  {
  }

  lemma NothingMore(shards: seq<Shard>)
    ensures AllBlank(shards[|shards|..])
  {
  }

  lemma OneMore(a: seq<Shard>, b: seq<Shard>)
    ensures |b| == |a| + 1 && Blank(b[|a|]) ==> AllBlank(b[|a|..])
  {
  }

  lemma ElsewhereItself(a: seq<Shard>, log: seq<Entry>, c: nat)
    requires c <= |log|
    ensures Elsewhere(a, a, Ids(log[c..c]))
  {
  }

  /** The documents of m without those in some shards. */
  ghost function Left(m: map<DocId, Doc>, cut: seq<Shard>): map<DocId, Doc> { m - Held(cut) }

  lemma NothingGone(m: map<DocId, Doc>, cut: seq<Shard>)
    ensures Held(cut) == {} <==> AllBlank(cut)
    ensures AllBlank(cut) ==> Left(m, cut) == m
  {
    HeldNothing(cut);
  }

  lemma HoleBegins(m: map<DocId, Doc>, log: seq<Entry>, c: nat, clean: seq<Shard>, shards: seq<Shard>, size: int,
                   n: nat)
    requires Recoverable(m, log, c, None, clean, shards, size) && 0 < n <= |shards| && AllBlank(clean[n..])
    ensures |clean| == |shards| && Settled(clean[..n], m, []) && SameCopies(clean[..n], shards[..n])
  {
    hide Exact, Placed, Replayable;
    SettledNothing(clean, m, log[c..]);
    ShrunkSettles(clean, n, m, []);
    assert Replayable([], |clean|) && Replayable([], n) && NamesBelow([], n) by { NothingReplayable(|clean|, n); }
  }

  lemma NothingReplayable(a: nat, b: nat)
    requires a > 0 && b > 0
    ensures Replayable([], a) && Replayable([], b)
  {
  }

  lemma BlankBoth(a: seq<Shard>, b: seq<Shard>)
    ensures AllBlank(a + b) <==> AllBlank(a) && AllBlank(b)
  {
    if AllBlank(a + b) {
      assert forall j | 0 <= j < |a| :: a[j] == (a + b)[j];
      assert forall j | 0 <= j < |b| :: b[j] == (a + b)[|a| + j];
    }
  }

  lemma NothingBehind()
    ensures AllBlank([]) && Kept([], 1, [])
  {
  }

  /** What is left of the log begins with entry number first. */
  ghost predicate Kept(log: seq<Entry>, first: nat, wal: seq<Entry>) {
    1 <= first <= |log| + 1 && wal == log[first - 1..]
  }

  lemma KeptFacts(log: seq<Entry>, first: nat, wal: seq<Entry>)
    requires Kept(log, first, wal)
    ensures |wal| == |log| + 1 - first && 1 <= first <= |log| + 1
  {
  }

  lemma KeptMore(log: seq<Entry>, first: nat, wal: seq<Entry>, e: Entry)
    requires Kept(log, first, wal)
    ensures Kept(log + [e], first, wal + [e])
  {
  }

  lemma KeptRest(log: seq<Entry>, first: nat, wal: seq<Entry>, id: nat)
    requires Kept(log, first, wal) && first <= id && id < first + |wal|
    ensures Kept(log, id, wal[id - first..])
  {
  }

  lemma KeptLess(log: seq<Entry>, first: nat, wal: seq<Entry>, keep: nat)
    requires Kept(log, first, wal) && first <= keep + 1 && keep <= |log|
    ensures Kept(log[..keep], first, wal[..keep + 1 - first])
    ensures forall c: nat | first <= c + 1 && c <= keep :: log[..keep][c..] == wal[..keep + 1 - first][c + 1 - first..]
  {
  }

  const NEED_UPDATE := -2

  lemma PendingReplayable(m: map<DocId, Doc>, log: seq<Entry>, c: nat, attempt: Option<Range>, clean: seq<Shard>,
                          shards: seq<Shard>, size: int)
    requires Recoverable(m, log, c, attempt, clean, shards, size)
    ensures c <= |log| && Replayable(log[c..], |shards|) && clean != []
  {
    hide OneGroup, Settled, Loose, SameCopies, Full;
  }

  lemma PlacedIff(clean: seq<Shard>, id: DocId, g: nat)
    requires g < |clean|
    ensures Placed(clean, id, g) <==> forall j: nat | j < |clean| && j != g :: Copies(clean[j], id) == []
  {
    forall j: nat | j < |clean|
      ensures Column(clean, id)[j] == Copies(clean[j], id)
    {
    }
  }

  lemma ReplayableMore(es: seq<Entry>, e: Entry, n: nat)
    requires Replayable(es, n)
    ensures Replayable(es + [e], n) <==>
              && e.action != Insert && e.group < n && e.group != -1
              && forall f | f in es && f.id == e.id :: f.group == e.group
  {
    var more := es + [e];
    assert forall i | 0 <= i < |es| :: more[i] == es[i];
    assert more[|es|] == e;
  }

  lemma StreamReplayable(es: seq<Entry>, n: nat)
    requires n > 0 && forall e | e in es :: StreamEntry(e)
    ensures Replayable(es, n)
  {
    forall i | 0 <= i < |es|
      ensures StreamEntry(es[i])
    {
      assert es[i] in es;
    }
  }

  lemma AttemptIsNext(m: map<DocId, Doc>, log: seq<Entry>, c: nat, attempt: Range, clean: seq<Shard>,
                      shards: seq<Shard>, size: int)
    requires Recoverable(m, log, c, Some(attempt), clean, shards, size)
    ensures attempt.min == c + 1 && c < attempt.max <= |log| && GroupsExist(log, c, |shards|)
    ensures forall i | c <= i < |log| :: log[i].action != Insert
  {
    hide Settled, OneGroup, Loose, SameCopies, Full;
    forall i | c <= i < |log|
      ensures log[i].action != Insert && log[i].group < |clean|
    {
      assert log[c..][i - c] == log[i];
    }
  }

  lemma StillRecoverable(m: map<DocId, Doc>, log: seq<Entry>, c: nat, attempt: Option<Range>, clean: seq<Shard>,
                         before: seq<Shard>, shards: seq<Shard>, size: int)
    requires Recoverable(m, log, c, attempt, clean, before, size) && SameCopies(before, shards)
    ensures Recoverable(m, log, c, attempt, clean, shards, size)
  {
    hide CommittedAt, Full, OfId;
  }

  lemma ExactIsUnique(col: seq<seq<Doc>>, d1: Option<Doc>, d2: Option<Doc>)
    requires ExactColumn(col, d1) && ExactColumn(col, d2)
    ensures d1 == d2
  {
  }

  lemma SameMaps(a: map<DocId, Doc>, b: map<DocId, Doc>)
    requires forall id :: Find(a, id) == Find(b, id)
    ensures a == b
  {
    forall id
      ensures id in a <==> id in b
      ensures id in a && id in b ==> a[id] == b[id]
    {
      assert Find(a, id) == Find(b, id);
    }
  }

  /** Every entry from number c + 1 on names a shard that exists, or none. */
  ghost predicate GroupsExist(log: seq<Entry>, c: nat, n: nat) {
    forall i | c <= i < |log| :: log[i].group < n
  }

  lemma FoldNothing(m: map<DocId, Doc>, log: seq<Entry>, c: nat)
    requires c <= |log|
    ensures Fold(m, log[c..c]) == m
  {
  }

  lemma FoldOn(m: map<DocId, Doc>, log: seq<Entry>, a: nat, b: nat, c: nat)
    requires a <= b <= c <= |log|
    ensures Fold(Fold(m, log[a..b]), log[b..c]) == Fold(m, log[a..c])
  {
    FoldConcat(m, log[a..b], log[b..c]);
    assert log[a..b] + log[b..c] == log[a..c];
  }

  lemma FewerExist(log: seq<Entry>, c: nat, c': nat, n: nat)
    requires GroupsExist(log, c, n) && c <= c'
    ensures GroupsExist(log, c', n)
  {
  }

  lemma NextEntry(log: seq<Entry>, c: nat, id: nat, c0: nat, n: nat)
    requires c0 <= c < id <= |log| && GroupsExist(log, c0, n)
    ensures log[c..id] == log[c..id - 1] + [log[id - 1]] && log[id - 1].group < n
    ensures log[id..id] == []
  {
  }

  // ---------------------------------------------------------------- the index shard

  class IndexShard {
    const batchSize: int
    ghost const base: map<DocId, Doc>
    /** The documents that were committed. */
    ghost var committed: map<DocId, Doc>
    /** Every entry ever written and not lost, from number 1 on. */
    ghost var log: seq<Entry>
    /** The entries kept, from number first on. */
    var wal: seq<Entry>
    var first: nat
    /** The number of the last entry known to be on disk. */
    var durable: nat
    var redoRead: Option<Range>
    var redoWrite: Option<Range>
    var shards: seq<Shard>
    /** The shards at the last commit. */
    var clean: seq<Shard>
    /** The committed documents that a restart could not find any more. */
    ghost var gone: set<DocId>
    /** Whether the shard is in the list of those whose logs are consumed. */
    var listed: bool
    /** How many shards the stored metadata knows. */
    var stored: nat
    /** What a restart left on disk of shards that the stored metadata does not know; a new
        shard takes over what is there. */
    var behind: seq<Shard>

    function LastIndex(): nat
      reads this`first, this`wal
      requires first >= 1
    {
      first + |wal| - 1
    }

    /** The last committed entry. */
    function Committed(): nat
      reads this`redoWrite
    {
      if redoWrite.Some? then redoWrite.value.max else 0
    }

    function Pending(): int
      reads this`first, this`wal, this`redoWrite
      requires first >= 1
    {
      LastIndex() - Committed()
    }

    /** A chunk was begun and not committed. An absent record reads as 0 to 0. */
    predicate Interrupted()
      reads this`redoRead, this`redoWrite
    {
      redoRead.Some? && redoRead.value != if redoWrite.Some? then redoWrite.value else Range(0, 0)
    }

    /** The log as such. It may end before the last committed entry. */
    ghost predicate LogShape()
      reads this`log, this`wal, this`first, this`durable, this`redoWrite
    {
      && 1 <= first && |log| == LastIndex() && Kept(log, first, wal)
      && durable <= |log| && first <= Max(Committed(), 1)
    }

    ghost predicate LogValid()
      reads this`log, this`wal, this`first, this`durable, this`redoWrite
    {
      LogShape() && Committed() <= |log|
    }

    /** The shard can be recovered at any time; what was committed is in its second-level shards. */
    ghost predicate Works()
      reads this
    {
      && LogValid() && Recoverable(committed, log, Committed(), Attempt(), clean, shards, batchSize)
      && 1 <= stored <= |shards| && AllBlank(behind) && gone == {}
    }

    /** Moreover what was committed is what the log says. */
    ghost predicate Valid()
      reads this
    {
      Works() && committed == Fold(base, log[..Committed()])
    }

    /** The log is short of committed entries, with nothing else wrong. */
    ghost predicate Holed()
      reads this
    {
      && LogShape() && |log| < Committed() && !Interrupted() && clean != []
      && Settled(clean, committed, []) && SameCopies(clean, shards)
      && 1 <= stored <= |shards| && AllBlank(behind) && gone == {}
    }

    /** What a commit relies on is on disk: no crash can do harm. */
    predicate Safe()
      reads this
    {
      && Committed() <= durable && (Interrupted() ==> redoRead.value.max <= durable)
      && stored == |shards|
    }

    /** The chunk that was begun and not committed. */
    function Attempt(): Option<Range>
      reads this`redoRead, this`redoWrite
    {
      if Interrupted() then redoRead else None
    }

    constructor (batchSize: int)
      ensures Valid() && Safe() && listed && log == [] && base == map[] && this.batchSize == batchSize && Pending() == 0
      ensures first == 1 && durable == Committed() == 0 && |shards| == 1
    {
      hide Recoverable, AllBlank, Kept;
      this.batchSize, base, committed, gone, listed := batchSize, map[], map[], {}, true;
      log, wal, first, durable := [], [], 1, 0;
      redoRead, redoWrite := None, None;
      shards, clean, stored, behind := [map[]], [map[]], 1, [];
      new;
      NothingBehind();
      EmptyCommitted(batchSize);
    }

    // -------------------------------------------------------------- the log

    function Read(id: nat): (e: Entry)
      reads this`log, this`wal, this`first, this`durable, this`redoWrite
      requires LogShape() && first <= id <= LastIndex()
      ensures e == log[id - 1]
    {
      wal[id - first]
    }

    /** The entry fits to those that are pending: no insert, and every update and delete of
        a document goes to one group, which is where the document is. */
    predicate Loggable(e: Entry)
      requires 1 <= first <= Committed() + 1 <= LastIndex() + 1
      reads this`first, this`wal, this`redoWrite, this`shards, this`clean
    {
      && Replayable(wal[Committed() + 1 - first..] + [e], |shards|)
      && (AllShards(e.group) || (clean != [] && Placed(clean, e.id, e.group)))
    }

    /** Logs an entry. Where the log is short of committed entries the new entry takes the number
        of one, and counts as committed. */
    method Write(e: Entry)
      requires LogShape()
      modifies this`log, this`wal
      ensures LogShape() && log == old(log) + [e] && Pending() == old(Pending()) + 1
      ensures old(Works() && Loggable(e)) ==> Works()
      ensures old(Valid() && Loggable(e)) ==> Valid()
      ensures old(Holed()) ==> if |log| < Committed() then Holed() else Works()
      ensures old(Safe()) ==> Safe()
    {
      hide Recoverable, AllBlank, Replayable, Placed, Kept, Settled, SameCopies, Fold, Loggable;
      WriteKeeps(e);
      Log(e);
    }

    lemma WriteKeeps(e: Entry)
      requires LogShape()
      ensures LogValid() ==> 1 <= first <= Committed() + 1 <= LastIndex() + 1
      ensures Works() && Loggable(e) ==>
                Recoverable(committed, log + [e], Committed(), Attempt(), clean, shards, batchSize)
      ensures Committed() <= |log| ==> (log + [e])[..Committed()] == log[..Committed()]
      ensures Holed() && |log| + 1 == Committed() ==>
                Recoverable(committed, log + [e], Committed(), None, clean, shards, batchSize)
    {
      hide Recoverable, AllBlank, Replayable, Placed, Kept, Settled, SameCopies;
      if LogValid() { PendingEntries(); }
      if Works() && Loggable(e) {
        SameNumber();
        Appended(committed, log, Committed(), Attempt(), clean, shards, batchSize, e);
      }
      if Holed() && |log| + 1 == Committed() {
        HoleFilled(committed, log + [e], clean, shards, batchSize);
      }
    }

    method Log(e: Entry)
      requires LogShape()
      modifies this`log, this`wal
      ensures LogShape() && log == old(log) + [e] && wal == old(wal) + [e]
    {
      hide Kept;
      KeptFacts(log, first, wal);
      KeptMore(log, first, wal, e);
      log, wal := log + [e], wal + [e];
    }

    lemma PendingEntries()
      requires LogValid()
      ensures 1 <= first <= Committed() + 1 <= LastIndex() + 1
      ensures log[Committed()..] == wal[Committed() + 1 - first..]
    {
    }

    lemma SameNumber()
      requires Works()
      ensures |shards| == |clean| && 1 <= stored <= |shards|
    {
      hide AllBlank, CommittedAt, SameCopies, Loose, FirstFull;
    }

    /** A crash that leaves the first keep log entries does no harm: the log still reaches the
        committed entry and the chunk that was begun, and no second-level shard that the stored
        metadata does not know holds a document or is named by what is pending. */
    predicate Survives(keep: nat)
      requires Kept(log, first, wal) && first <= keep + 1 && keep <= |log| && first <= Max(Committed(), 1)
      requires stored <= |shards| == |clean|
      reads this
    {
      && Committed() <= keep && (Interrupted() ==> redoRead.value.max <= keep)
      && AllBlank(shards[stored..]) && AllBlank(clean[stored..])
      && NamesBelow(wal[Committed() + 1 - first..keep + 1 - first], stored)
    }

    lemma SurvivesIff(keep: nat)
      requires Works() && keep <= LastIndex() && first <= keep + 1
      ensures |shards| == |clean| && 1 <= stored <= |shards|
      ensures Survives(keep) <==>
              && Recoverable(committed, log[..keep], Committed(), Attempt(), clean[..stored], shards[..stored],
                             batchSize)
              && AllBlank(shards[stored..])
      ensures Survives(keep) ==> Committed() <= keep && (Interrupted() ==> redoRead.value.max <= keep)
      ensures Survives(keep) ==> AllBlank(clean[stored..])
    {
      hide Recoverable, AllBlank, NamesBelow;
      SameNumber();
      CrashRecoverable(committed, log, Committed(), Attempt(), clean, shards, batchSize, keep, stored);
      if Committed() <= keep {
        assert log[..keep][Committed()..] == wal[Committed() + 1 - first..keep + 1 - first];
      }
    }

    lemma SafeSurvives(keep: nat)
      requires Works() && Safe() && durable <= keep <= LastIndex() && first <= keep + 1
      ensures |shards| == |clean| && Survives(keep)
    {
      hide Recoverable;
      SameNumber();
      RecoverableFacts(committed, log, Committed(), Attempt(), clean, shards, batchSize);
      assert shards[stored..] == [] && clean[stored..] == [];
    }

    /** Log entries that were not synced may be lost, and second-level shards that the stored
        metadata does not know. The log is not consumed until it is opened again. */
    method Crash(keep: nat, synced: nat) returns (lost: bool)
      requires Works() && durable <= synced <= keep <= LastIndex() && first <= keep + 1
      modifies this`log, this`wal, this`durable, this`shards, this`clean, this`behind, this`committed, this`gone,
               this`listed
      ensures |old(shards)| == |old(clean)| && stored <= |old(shards)| && !listed
      ensures lost <==> !old(Survives(keep))
      ensures LogShape() && log == old(log)[..keep] && durable == synced
      ensures shards == old(shards)[..stored] && behind == old(shards)[stored..] + old(behind)
      ensures clean == old(clean)[..stored] && committed == Left(old(committed), old(clean)[stored..])
      ensures gone == old(gone) + Held(old(clean)[stored..])
      ensures Works() <==> !lost
      ensures !lost ==> committed == old(committed) && (old(Valid()) ==> Valid())
      ensures old(Safe()) ==> !lost && Safe()
      ensures keep < Committed() && !Interrupted() && AllBlank(old(shards)[stored..])
              && AllBlank(old(clean)[stored..]) ==>
                Holed()
    {
      hide Recoverable, AllBlank, NamesBelow, Survives, Kept, Settled, SameCopies, Fold, Left, Held;
      SurvivesIff(keep);
      if Safe() { SafeSurvives(keep); }
      CrashHoles(keep);
      ghost var l, c, r, bh := log, Committed(), Attempt(), behind;
      ghost var cut := shards[stored..];
      lost := !Survives(keep);
      Lose(keep, synced);
      BlankBoth(cut, bh);
      assert Committed() == c && Attempt() == r;
      if keep >= c { assert log[..c] == l[..c]; }
      hide LogShape;
    }

    /** What a crash takes. */
    method Lose(keep: nat, synced: nat)
      requires LogShape() && durable <= synced <= keep <= LastIndex() && first <= keep + 1
      requires stored <= |shards| == |clean|
      modifies this`log, this`wal, this`durable, this`shards, this`clean, this`behind, this`committed, this`gone,
               this`listed
      ensures LogShape() && log == old(log)[..keep] && durable == synced && !listed
      ensures shards == old(shards)[..stored] && behind == old(shards)[stored..] + old(behind)
      ensures clean == old(clean)[..stored] && committed == Left(old(committed), old(clean)[stored..])
      ensures gone == old(gone) + Held(old(clean)[stored..])
    {
      hide Kept, Left, Held;
      committed, gone := Left(committed, clean[stored..]), gone + Held(clean[stored..]);
      CutLog(keep, synced);
      behind := shards[stored..] + behind;
      shards, clean, listed := shards[..stored], clean[..stored], false;
    }

    lemma CrashHoles(keep: nat)
      requires Works() && keep <= LastIndex()
      ensures |shards| == |clean| && 1 <= stored <= |shards|
      ensures Held(clean[stored..]) == {} <==> AllBlank(clean[stored..])
      ensures AllBlank(clean[stored..]) ==> Left(committed, clean[stored..]) == committed
      ensures keep < Committed() && !Interrupted() && AllBlank(clean[stored..]) ==>
                Settled(clean[..stored], committed, []) && SameCopies(clean[..stored], shards[..stored])
    {
      hide Recoverable, AllBlank, Kept, Settled, SameCopies, Left;
      SameNumber();
      NothingGone(committed, clean[stored..]);
      if keep < Committed() && !Interrupted() && AllBlank(clean[stored..]) {
        HoleBegins(committed, log, Committed(), clean, shards, batchSize, stored);
      }
    }

    /** Of what is left of the log, some may still not be on disk. */
    method CutLog(keep: nat, synced: nat)
      requires LogShape() && durable <= synced <= keep <= LastIndex() && first <= keep + 1
      modifies this`log, this`wal, this`durable
      ensures LogShape() && log == old(log)[..keep] && durable == synced
    {
      hide Kept;
      KeptLess(log, first, wal, keep);
      KeptFacts(log[..keep], first, wal[..keep + 1 - first]);
      log, wal, durable := log[..keep], wal[..keep + 1 - first], synced;
    }

    lemma NoneCut()
      requires Works() && stored == |shards|
      ensures |clean| == |shards| && AllBlank(shards[stored..]) && AllBlank(clean[stored..])
    {
      hide Recoverable;
      SameNumber();
      assert shards[stored..] == [] && clean[stored..] == [];
    }

    /** Stores the metadata, and with it the number of shards. */
    method StoreMetadata(stores: bool)
      requires Works()
      modifies this`stored
      ensures Works() && (old(Valid()) ==> Valid()) && stored == if stores then |shards| else old(stored)
    {
      hide Recoverable, AllBlank, LogValid;
      SameNumber();
      if stores { stored := |shards|; }
    }

    /** Drops the entries before id, unless that fails. What is left is written anew, so more
        of it may be on disk afterwards. */
    method TruncateFront(id: nat, works: bool) returns (ok: bool)
      requires Works() && id <= Committed()
      modifies this`wal, this`first, this`durable
      ensures Works() && (old(Valid()) ==> Valid()) && LastIndex() == old(LastIndex())
      ensures ok <==> works && old(first) <= id <= old(LastIndex())
      ensures first == if ok then id else old(first)
      ensures old(durable) <= durable && (!ok ==> durable == old(durable))
    {
      hide Recoverable, AllBlank, Kept, Fold;
      ok := works && first <= id <= LastIndex();
      if ok {
        KeptRest(log, first, wal, id);
        wal := wal[id - first..];
        first := id;
        var reached: nat := *;
        if durable <= reached <= LastIndex() { durable := reached; }
      }
    }

    // -------------------------------------------------------------- writing

    /** Writes the documents of one group: a batch for the target writer, a batch for each
        other writer. Failing, it may stop between any two of them. */
    method WriteToShard(docs: WalMergeDocs, g: int, quiet: bool) returns (ok: bool, ghost told: set<nat>)
      requires docs.Valid() && OneGroup(docs.entries) && g in docs.groups && shards != []
      modifies this`shards
      ensures PartGroup(old(shards), docs.entries, g, told, shards)
      ensures ok ==> forall j: nat :: Addressed(|shards|, g, j) ==> j in told
      ensures quiet && g < |shards| ==> ok
      ensures g >= |shards| ==> !ok && shards == old(shards)
    {
      hide Merges, OfId, MergedDoc, OpFor, PartGroup, BatchFor, OneGroup, TargetOp, OtherOp, Applied;
      ghost var start, es := shards, docs.entries;
      var n := |shards|;
      GroupBegins(shards, es, g);
      told := {};
      if g >= |shards| { return false, told; }
      var t := if g >= 0 then g else |shards| - 1;
      docs.HasActions();
      var batch, others := BuildBatches(docs.groups[g]);
      BatchesFor(docs.groups, es, g, n, t, batch, others);
      ok, told := Tell(t, batch, start, es, g, told, quiet);
      if !ok || !AllShards(g) { return; }
      var j := 0;
      while j < n - 1
        invariant 0 <= j <= n - 1 && |shards| == n
        invariant PartGroup(start, es, g, told, shards)
        invariant ok && forall k: nat :: k in told <==> k < j || k == t
      {
        ok, told := Tell(j, others, start, es, g, told, quiet);
        if !ok { return; }
        j := j + 1;
      }
    }

    /** One writer receives its batch. */
    method Tell(j: nat, batch: Batch, ghost start: seq<Shard>, ghost es: seq<Entry>, g: int, ghost told: set<nat>,
                quiet: bool)
      returns (ok: bool, ghost told': set<nat>)
      requires |start| == |shards| > 0 && PartGroup(start, es, g, told, shards)
      requires Addressed(|shards|, g, j) && j !in told && BatchFor(|start|, es, g, j, batch)
      modifies this`shards
      ensures |shards| == |old(shards)| && PartGroup(start, es, g, told', shards)
      ensures told' == told || told' == told + {j}
      ensures ok ==> told' == told + {j}
      ensures quiet ==> ok
    {
      hide PartGroup, BatchFor;
      var stored;
      stored, ok := Outcome(quiet);
      told' := told;
      if stored {
        OneBatch(start, es, g, told, shards, j, batch);
        shards := shards[j := ApplyBatch(shards[j], batch)];
        told' := told + {j};
      }
    }

    /** Writes every group, in an arbitrary order, and empties the merge map. */
    method WriteTo(docs: WalMergeDocs, quiet: bool) returns (ok: bool)
      requires docs.Valid() && OneGroup(docs.entries) && shards != []
      modifies this`shards, docs
      ensures |shards| == |old(shards)| && Loose(old(shards), old(docs.entries), shards)
      ensures ok ==> Written(old(shards), old(docs.entries), shards) && docs.Valid() && docs.entries == []
      ensures docs.groups.Keys == old(docs.groups.Keys)
      ensures quiet && (forall g | g in docs.groups :: g < |shards|) ==> ok
    {
      hide Merges, PartGroup, GroupsWritten, Loose, OneGroup, Written, Addressed;
      ghost var start, es := shards, docs.entries;
      SameIsLoose(shards, es);
      GroupBegins(shards, es, 0);
      var todo, done := docs.groups.Keys, {};
      while todo != {}
        invariant todo <= docs.groups.Keys && done == docs.groups.Keys - todo
        invariant |shards| == |start|
        invariant GroupsWritten(start, es, done, shards) && Loose(start, es, shards)
        invariant docs.groups == old(docs.groups) && docs.entries == es
      {
        Inhabited(todo);
        var g :| g in todo;
        ghost var mid, told := shards, {};
        ok, told := WriteToShard(docs, g, quiet);
        GroupDone(start, es, done, mid, g, told, shards);
        SameLength(mid, es, g, told, shards);
        if !ok { return; }
        todo, done := todo - {g}, done + {g};
      }
      docs.EveryGroup();
      AllGroupsWritten(start, es, done, shards);
      docs.Reset();
      ok := true;
    }

    // -------------------------------------------------------------- committing

    /** Writes the entries Committed()+1 to id between two redo records. */
    method CommitChunk(docs: WalMergeDocs, startID: nat, id: nat, quiet: bool) returns (ok: bool)
      requires Works() && docs.Valid() && startID == Committed() + 1 && Committed() < id <= |log|
      requires docs.entries == log[Committed()..id] && FirstFull(log, Committed(), id, batchSize)
      requires Interrupted() ==> redoRead.value.max <= id
      modifies this`redoRead, this`redoWrite, this`shards, this`clean, this`committed, docs
      ensures Works() && |shards| == |old(shards)| && docs.groups.Keys == old(docs.groups.Keys)
      ensures Committed() == old(Committed()) || Committed() == id
      ensures committed == Fold(old(committed), log[old(Committed())..Committed()])
      ensures Elsewhere(old(clean), clean, Ids(log[old(Committed())..Committed()]))
      ensures ok ==> Committed() == id && !Interrupted() && docs.Valid() && docs.entries == []
      ensures quiet && (forall g | g in docs.groups :: g < |shards|) ==> ok
    {
      hide Recoverable, Loose, Written, FirstFull, Merges, OneGroup, Fold, AllBlank, Kept, Elsewhere;
      FoldNothing(committed, log, Committed());
      ElsewhereItself(clean, log, Committed());
      ghost var before := shards;
      ok := BeginChunk(startID, id, quiet);
      if !ok { return; }
      ok := WriteTo(docs, quiet);
      ChunkPartlyWritten(committed, log, Committed(), id, clean, before, shards, batchSize);
      if !ok { return; }
      ok := EndChunk(startID, id, before, quiet);
    }

    /** Records that the entries startID to id are being written. */
    method BeginChunk(startID: nat, id: nat, quiet: bool) returns (ok: bool)
      requires Works() && startID == Committed() + 1 && Committed() < id <= |log|
      requires FirstFull(log, Committed(), id, batchSize)
      requires Interrupted() ==> redoRead.value.max <= id
      modifies this`redoRead
      ensures Works() && shards != [] && OneGroup(log[Committed()..id])
      ensures ok ==> Attempt() == Some(Range(Committed() + 1, id))
      ensures quiet ==> ok
    {
      hide Recoverable, FirstFull, OneGroup, AllBlank, Kept;
      ChunkBegins(committed, log, Committed(), Attempt(), clean, shards, batchSize, id);
      var stored;
      stored, ok := Outcome(quiet);
      if stored { redoRead := Some(Range(startID, id)); }
    }

    /** Records that they were written. */
    method EndChunk(startID: nat, id: nat, ghost before: seq<Shard>, quiet: bool) returns (ok: bool)
      requires Works() && startID == Committed() + 1
      requires Committed() < id <= |log| && Attempt() == Some(Range(Committed() + 1, id)) && Works()
      requires Recoverable(committed, log, Committed(), Attempt(), clean, before, batchSize)
      requires Written(before, log[Committed()..id], shards)
      modifies this`redoWrite, this`clean, this`committed
      ensures Works() && (Committed() == old(Committed()) || Committed() == id)
      ensures committed == Fold(old(committed), log[old(Committed())..Committed()])
      ensures Elsewhere(old(clean), clean, Ids(log[old(Committed())..Committed()]))
      ensures ok ==> Committed() == id && !Interrupted()
      ensures quiet ==> ok
    {
      hide Recoverable, Written, Fold, AllBlank, Kept, Elsewhere;
      FoldNothing(committed, log, Committed());
      ElsewhereItself(clean, log, Committed());
      WrittenElsewhere(committed, log, Committed(), id, clean, before, shards, batchSize);
      ChunkCommitted(committed, log, Committed(), id, clean, before, shards, batchSize);
      ghost var folded := Fold(committed, log[Committed()..id]);
      var stored;
      stored, ok := Outcome(quiet);
      if stored {
        redoWrite := Some(Range(startID, id));
        clean, committed := shards, folded;
      }
    }

    /** Starts a new latest second-level shard when the latest one is over its size. The list of
        shards grows in memory before the metadata is stored. */
    method CheckShards(over: bool, stores: bool)
      requires Works() && !Interrupted()
      modifies this`shards, this`clean, this`stored, this`behind
      ensures Works() && (old(Valid()) ==> Valid()) && (stores && old(stored == |shards|) ==> stored == |shards|)
      ensures over && stores ==> stored == |shards|
      ensures stored == |shards| || stored == old(stored)
      ensures if over then |shards| == |old(shards)| + 1 && shards[..|old(shards)|] == old(shards)
              && Blank(shards[|old(shards)|])
              else shards == old(shards) && stored == old(stored)
      ensures over ==> clean == old(clean) + [shards[|old(shards)|]]
      ensures !over ==> clean == old(clean)
    {
      hide Recoverable, LogValid;
      if over {
        var extra := if behind == [] then map[] else behind[0];
        Grown(committed, log, Committed(), clean, shards, extra, batchSize);
        clean := clean + [extra];
        shards := shards + [extra];
        if behind != [] { behind := behind[1..]; }
        if stores { stored := |shards|; }
      }
    }

    /** Syncs the log, applies up to MAX_BATCH_SIZE entries and drops them from it. A sync that
        fails is passed over. Where the log ends before the committed entry, the count of new
        entries wraps around and the first of them cannot be read: nothing is ever applied. */
    method ConsumeWAL(syncs: bool, truncates: bool, stores: bool, quiet: bool, over: bool) returns (updated: bool)
      requires listed && LogShape() && (Committed() < LastIndex() ==> Works())
      modifies this`redoRead, this`redoWrite, this`shards, this`clean, this`committed, this`stored, this`behind
      modifies this`wal, this`first, this`durable
      ensures LogShape() && LastIndex() == old(LastIndex())
      ensures (old(Works()) ==> Works()) && (old(Valid()) ==> Valid()) && (old(Holed()) ==> Holed())
      ensures old(Pending()) <= 0 ==> !updated && shards == old(shards) && committed == old(committed)
      ensures old(Pending()) <= 0 ==> redoRead == old(redoRead) && redoWrite == old(redoWrite)
      ensures old(Committed()) <= Committed() <= old(Committed()) + 10240
      ensures old(Pending()) >= 0 ==>
                && Committed() <= |log| && committed == Fold(old(committed), log[old(Committed())..Committed()])
                && Elsewhere(old(clean), clean, Ids(log[old(Committed())..Committed()]))
      ensures updated ==> old(Pending()) > 0 && !Interrupted()
      ensures updated ==> Pending() == old(Pending()) - Min(old(Pending()), 10240)
      ensures quiet && old(Pending()) > 0 ==> updated
      ensures durable >= if syncs then LastIndex() else old(durable)
      ensures !truncates || !updated ==> durable == if syncs then LastIndex() else old(durable)
      ensures !truncates ==> first == old(first)
      ensures !over ==> |shards| == |old(shards)| && stored == old(stored)
      ensures |shards| == |old(shards)| + if updated && over && truncates then 1 else 0
      ensures stored == |shards| || stored == old(stored)
      ensures |old(clean)| <= |clean| && AllBlank(clean[|old(clean)|..])
      ensures old(Works() && stored == |shards|) && syncs && stores ==> Safe()
    {
      hide Recoverable, Kept, Fold, AllBlank, Settled, SameCopies, Elsewhere;
      SyncLog(syncs);
      NothingMore(clean);
      updated := false;
      if Committed() <= LastIndex() {
        FoldNothing(committed, log, Committed());
        ElsewhereItself(clean, log, Committed());
      }
      if Committed() == LastIndex() { return; }
      if LastIndex() < Committed() { return; }
      updated := ApplyPending(truncates, stores, quiet, over);
    }

    method SyncLog(syncs: bool)
      requires LogShape()
      modifies this`durable
      ensures LogShape() && durable == if syncs then LastIndex() else old(durable)
      ensures (old(Works()) ==> Works()) && (old(Valid()) ==> Valid()) && (old(Holed()) ==> Holed())
      ensures old(Works() && stored == |shards|) && syncs ==> Safe()
    {
      hide Recoverable, Kept, Fold, AllBlank, Settled, SameCopies, Elsewhere;
      if syncs { durable := LastIndex(); }
      SyncedIsSafe();
    }

    /** Applies up to MAX_BATCH_SIZE of the entries that are pending. */
    method ApplyPending(truncates: bool, stores: bool, quiet: bool, over: bool) returns (updated: bool)
      requires Works() && Pending() > 0
      modifies this`redoRead, this`redoWrite, this`shards, this`clean, this`committed, this`stored, this`behind
      modifies this`wal, this`first, this`durable
      ensures Works() && (old(Valid()) ==> Valid()) && LastIndex() == old(LastIndex())
      ensures old(Committed()) <= Committed() <= old(Committed()) + MAX_BATCH_SIZE && Committed() <= |log|
      ensures committed == Fold(old(committed), log[old(Committed())..Committed()])
      ensures Elsewhere(old(clean), clean, Ids(log[old(Committed())..Committed()]))
      ensures updated ==> !Interrupted() && Pending() == old(Pending()) - Min(old(Pending()), MAX_BATCH_SIZE)
      ensures quiet ==> updated
      ensures old(durable) <= durable && (!truncates || !updated ==> durable == old(durable))
      ensures !truncates ==> first == old(first)
      ensures stored == |shards| || stored == old(stored)
      ensures |old(clean)| <= |clean| && AllBlank(clean[|old(clean)|..])
      ensures !over ==> |shards| == |old(shards)| && stored == old(stored)
      ensures |shards| == |old(shards)| + if updated && over && truncates then 1 else 0
      ensures durable == LastIndex() && stores && old(stored == |shards|) ==> Safe()
    {
      hide Recoverable, GroupsExist, Kept, Fold, AllBlank, Settled, SameCopies, Elsewhere;
      var minID, maxID := Committed(), LastIndex();
      SameNumber();
      RecoverableFacts(committed, log, Committed(), Attempt(), clean, shards, batchSize);
      if maxID - minID > MAX_BATCH_SIZE { maxID := minID + MAX_BATCH_SIZE; }
      assert maxID == minID + Min(Pending(), MAX_BATCH_SIZE);
      updated := WriteChunks(maxID, quiet);
      FoldFromStart(old(committed), base, log, minID, Committed());
      SyncedIsSafe();
      SameNumber();
      NothingMore(clean);
      if !updated { return; }
      ghost var before := clean;
      TidyUp(maxID, truncates, stores, over);
      Longer(old(clean), before, clean, Ids(log[minID..Committed()]));
    }

    /** Drops what was applied; unless that fails, starts a new second-level shard if need be. */
    method TidyUp(id: nat, truncates: bool, stores: bool, over: bool)
      requires Works() && !Interrupted() && id <= Committed()
      modifies this`shards, this`clean, this`stored, this`behind, this`wal, this`first, this`durable
      ensures Works() && (old(Valid()) ==> Valid()) && LastIndex() == old(LastIndex())
      ensures old(durable) <= durable && (!truncates ==> durable == old(durable) && first == old(first))
      ensures old(clean) <= clean && AllBlank(clean[|old(clean)|..])
      ensures stored == |shards| || stored == old(stored)
      ensures !over ==> |shards| == |old(shards)| && stored == old(stored)
      ensures |shards| == |old(shards)| + if over && truncates && old(first <= id <= LastIndex()) then 1 else 0
      ensures durable == LastIndex() && stores && old(stored == |shards|) ==> Safe()
    {
      hide Recoverable, Kept, Fold, AllBlank;
      var ok := TruncateFront(id, truncates);
      NothingMore(clean);
      if ok {
        SameNumber();
        CheckShards(over, stores);
        OneMore(old(clean), clean);
      }
      SyncedIsSafe();
    }

    lemma FoldFromStart(m: map<DocId, Doc>, base: map<DocId, Doc>, log: seq<Entry>, a: nat, b: nat)
      requires a <= b <= |log|
      ensures m == Fold(base, log[..a]) ==> Fold(m, log[a..b]) == Fold(base, log[..b])
    {
      assert log[..a] == log[0..a] && log[..b] == log[0..b];
      FoldOn(base, log, 0, a, b);
    }

    lemma SyncedIsSafe()
      requires LogShape()
      ensures Works() && durable == LastIndex() && stored == |shards| ==> Safe()
    {
      hide AllBlank;
      if Works() { RecoverableFacts(committed, log, Committed(), Attempt(), clean, shards, batchSize); }
    }

    /** Commits what was gathered up to id once a group has batchSize documents. */
    method CommitWhenFull(docs: WalMergeDocs, startID: nat, id: nat, quiet: bool) returns (ok: bool, next: nat)
      requires Works() && docs.Valid() && startID == Committed() + 1 && Committed() < id <= |log|
      requires docs.entries == log[Committed()..id] && id <= Committed() + MAX_BATCH_SIZE
      requires id == startID || !Full(log[Committed()..id - 1], batchSize)
      modifies this`redoRead, this`redoWrite, this`shards, this`clean, this`committed, docs
      ensures Works() && |shards| == |old(shards)| && docs.groups.Keys == old(docs.groups.Keys)
      ensures Committed() == old(Committed()) || Committed() == id
      ensures committed == Fold(old(committed), log[old(Committed())..Committed()])
      ensures Elsewhere(old(clean), clean, Ids(log[old(Committed())..Committed()]))
      ensures ok ==> next == Committed() + 1 && docs.Valid() && docs.entries == log[Committed()..id]
      ensures ok ==> docs.entries == [] || !Full(docs.entries, batchSize)
      ensures ok ==> (redoRead == old(redoRead) && redoWrite == old(redoWrite)) || (!Interrupted() && Committed() == id)
      ensures quiet && (forall g | g in docs.groups :: g < |shards|) ==> ok
    {
      hide Recoverable, Full, FirstFull, Merges, LogValid, Fold, AllBlank, Elsewhere;
      ok, next := true, startID;
      FoldNothing(committed, log, Committed());
      ElsewhereItself(clean, log, Committed());
      var n := docs.MaxShardLen();
      if n >= batchSize {
        ChunkReaches(committed, log, Committed(), Attempt(), clean, shards, batchSize, id);
        NotYetFull(log, Committed(), id, batchSize);
        ok := CommitChunk(docs, startID, id, quiet);
        next := id + 1;
        assert log[id..id] == [];
      }
    }

    /** Adds one entry of the log to the merge map. */
    method Gather(docs: WalMergeDocs, id: nat)
      requires Works() && docs.Valid() && Committed() < id <= |log|
      modifies docs
      ensures docs.Valid() && docs.entries == old(docs.entries) + [log[id - 1]]
      ensures docs.groups.Keys == old(docs.groups.Keys) + {log[id - 1].group}
    {
      hide Merges, Recoverable, AllBlank;
      docs.AddDocument(Read(id));
    }

    /** Commits the entries up to maxID, in chunks in which no group has more than batchSize
        documents. */
    method WriteChunks(maxID: nat, quiet: bool) returns (done: bool)
      requires Works() && Committed() < maxID <= |log| && maxID <= Committed() + MAX_BATCH_SIZE
      requires Interrupted() ==> redoRead.value.max <= maxID
      requires GroupsExist(log, Committed(), |shards|)
      modifies this`redoRead, this`redoWrite, this`shards, this`clean, this`committed
      ensures Works() && old(Committed()) <= Committed() <= maxID && |shards| == |old(shards)|
      ensures committed == Fold(old(committed), log[old(Committed())..Committed()])
      ensures Elsewhere(old(clean), clean, Ids(log[old(Committed())..Committed()]))
      ensures done ==> Committed() == maxID && !Interrupted()
      ensures quiet ==> done
    {
      hide Recoverable, Full, FirstFull, Merges, LogValid, GroupsExist, AllBlank, Fold, Elsewhere;
      RecoverableFacts(committed, log, Committed(), Attempt(), clean, shards, batchSize);
      FoldNothing(committed, log, Committed());
      ElsewhereItself(clean, log, Committed());
      var docs := new WalMergeDocs();
      var minID := Committed() + 1;
      var startID := minID;
      while minID <= maxID
        invariant startID == Committed() + 1 && old(Committed()) + 1 <= startID <= minID <= maxID + 1
        invariant Works() && |shards| == |old(shards)|
        invariant committed == Fold(old(committed), log[old(Committed())..Committed()])
        invariant Elsewhere(old(clean), clean, Ids(log[old(Committed())..Committed()]))
        invariant Interrupted() ==> startID == old(Committed()) + 1 && redoRead.value.max <= maxID
        invariant fresh(docs) && docs.Valid() && docs.entries == log[Committed()..minID - 1]
        invariant docs.entries == [] || !Full(docs.entries, batchSize)
        invariant forall g | g in docs.groups :: g < |shards|
        invariant GroupsExist(log, Committed(), |shards|)
      {
        ghost var c, before := Committed(), clean;
        done, startID := Take(docs, startID, minID, quiet);
        FoldOn(old(committed), log, old(Committed()), c, Committed());
        ElsewhereOn(old(clean), before, clean, log, old(Committed()), c, Committed());
        FewerExist(log, c, Committed(), |shards|);
        if !done { return; }
        minID := minID + 1;
      }
      ghost var c, before := Committed(), clean;
      done := CommitRest(docs, startID, minID - 1, quiet);
      FoldOn(old(committed), log, old(Committed()), c, Committed());
      ElsewhereOn(old(clean), before, clean, log, old(Committed()), c, Committed());
    }

    /** One more entry. */
    method Take(docs: WalMergeDocs, startID: nat, id: nat, quiet: bool) returns (ok: bool, next: nat)
      requires Works() && docs.Valid() && startID == Committed() + 1 && Committed() < id <= |log|
      requires docs.entries == log[Committed()..id - 1] && id <= Committed() + MAX_BATCH_SIZE
      requires docs.entries == [] || !Full(docs.entries, batchSize)
      requires GroupsExist(log, Committed(), |shards|)
      modifies this`redoRead, this`redoWrite, this`shards, this`clean, this`committed, docs
      ensures Works() && |shards| == |old(shards)|
      ensures docs.groups.Keys == old(docs.groups.Keys) + {log[id - 1].group} && log[id - 1].group < |shards|
      ensures Committed() == old(Committed()) || Committed() == id
      ensures committed == Fold(old(committed), log[old(Committed())..Committed()])
      ensures Elsewhere(old(clean), clean, Ids(log[old(Committed())..Committed()]))
      ensures ok ==> next == Committed() + 1 && docs.Valid() && docs.entries == log[Committed()..id]
      ensures ok ==> docs.entries == [] || !Full(docs.entries, batchSize)
      ensures ok ==> (redoRead == old(redoRead) && redoWrite == old(redoWrite)) || (!Interrupted() && Committed() == id)
      ensures quiet && old(forall g | g in docs.groups :: g < |shards|) ==> ok
    {
      hide Recoverable, Full, FirstFull, Merges, LogValid, GroupsExist, AllBlank, Fold, Elsewhere;
      NextEntry(log, Committed(), id, Committed(), |shards|);
      Gather(docs, id);
      ok, next := CommitWhenFull(docs, startID, id, quiet);
    }

    /** What was gathered since the last commit. */
    method CommitRest(docs: WalMergeDocs, startID: nat, id: nat, quiet: bool) returns (ok: bool)
      requires Works() && docs.Valid() && startID == Committed() + 1 && Committed() <= id <= |log|
      requires docs.entries == log[Committed()..id] && id <= Committed() + MAX_BATCH_SIZE
      requires docs.entries == [] || !Full(docs.entries, batchSize)
      requires Interrupted() ==> Committed() < id && redoRead.value.max <= id
      modifies this`redoRead, this`redoWrite, this`shards, this`clean, this`committed, docs
      ensures Works() && |shards| == |old(shards)| && (Committed() == old(Committed()) || Committed() == id)
      ensures committed == Fold(old(committed), log[old(Committed())..Committed()])
      ensures Elsewhere(old(clean), clean, Ids(log[old(Committed())..Committed()]))
      ensures ok ==> Committed() == id && !Interrupted()
      ensures quiet && old(forall g | g in docs.groups :: g < |shards|) ==> ok
    {
      hide Recoverable, Full, FirstFull, Merges, LogValid, AllBlank, Fold, Elsewhere;
      ok := true;
      FoldNothing(committed, log, Committed());
      ElsewhereItself(clean, log, Committed());
      var n := docs.MaxShardLen();
      if n > 0 {
        NotYetFull(log, Committed(), id, batchSize);
        ok := CommitChunk(docs, startID, id, quiet);
      }
    }

    // -------------------------------------------------------------- recovery

    /** Runs when the log is opened. Removes what an interrupted chunk inserted into the shard
        it was addressed to; everything else is left to the next attempt. */
    method Rollback(quiet: bool) returns (ok: bool)
      requires Works()
      modifies this`shards, this`wal, this`first, this`durable
      ensures Works() && (old(Valid()) ==> Valid()) && (old(Safe()) ==> Safe())
      ensures LastIndex() == old(LastIndex()) && first <= Max(Committed(), 1) && |shards| == |old(shards)|
      ensures SameCopies(old(shards), shards)
      ensures quiet ==> ok
      ensures !ok ==> old(Interrupted()) && first == old(first) && wal == old(wal)
    {
      hide Recoverable, Merges, Kept, GroupsExist, SameCopies, AllBlank, Fold;
      ghost var before := shards;
      SameAsItself(shards);
      if !Interrupted() { return true; }
      var docs := Begun();
      ok := WriteToRollback(docs, quiet);
      StillRecoverable(committed, log, Committed(), Attempt(), clean, before, shards, batchSize);
      if !ok { return; }
      var works: bool := *;
      var truncated := TruncateFront(redoRead.value.min - 1, works);
    }

    /** The entries of the chunk that was begun. */
    method Begun() returns (docs: WalMergeDocs)
      requires Works() && Interrupted()
      ensures fresh(docs) && docs.Valid() && redoRead.value.min == Committed() + 1
      ensures Committed() < redoRead.value.max <= |log| && docs.entries == log[Committed()..redoRead.value.max]
      ensures forall i | 0 <= i < |docs.entries| :: docs.entries[i].action != Insert
      ensures forall g | g in docs.groups :: g < |shards|
    {
      hide Recoverable, Merges, Kept, GroupsExist, AllBlank;
      AttemptIsNext(committed, log, Committed(), redoRead.value, clean, shards, batchSize);
      docs := new WalMergeDocs();
      var minID := redoRead.value.min;
      while minID <= redoRead.value.max
        invariant redoRead.value.min <= minID <= redoRead.value.max + 1
        invariant fresh(docs) && docs.Valid() && docs.entries == log[Committed()..minID - 1]
        invariant forall i | 0 <= i < |docs.entries| :: docs.entries[i].action != Insert
        invariant forall g | g in docs.groups :: g < |shards|
      {
        NextEntry(log, Committed(), minID, Committed(), |shards|);
        docs.AddDocument(Read(minID));
        minID := minID + 1;
      }
    }

    /** Opens the log. A shard whose recovery failed is not put into the list of those that are
        consumed, and no later attempt to open it does that: it takes a restart. */
    method Open(quiet: bool) returns (ok: bool)
      requires !listed && LogShape() && (Interrupted() ==> Works())
      modifies this`shards, this`wal, this`first, this`durable, this`listed
      ensures LogShape() && LastIndex() == old(LastIndex()) && |shards| == |old(shards)| && listed == ok
      ensures (old(Works()) ==> Works()) && (old(Valid()) ==> Valid()) && (old(Safe()) ==> Safe())
      ensures !old(Interrupted()) ==> ok && shards == old(shards) && wal == old(wal) && first == old(first)
      ensures old(Holed()) ==> Holed()
      ensures quiet ==> ok
    {
      hide Recoverable, Kept, SameCopies, Fold, AllBlank, Settled;
      ok := true;
      if Interrupted() { ok := Rollback(quiet); }
      listed := ok;
    }

    method WriteToRollback(docs: WalMergeDocs, quiet: bool) returns (ok: bool)
      requires docs.Valid() && forall i | 0 <= i < |docs.entries| :: docs.entries[i].action != Insert
      modifies this`shards
      ensures |shards| == |old(shards)| && SameCopies(old(shards), shards)
      ensures quiet && (forall g | g in docs.groups :: g < |shards|) ==> ok
    {
      hide Merges;
      docs.HasActions();
      docs.NothingInserted();
      var todo := docs.groups.Keys;
      while todo != {}
        invariant todo <= docs.groups.Keys && SameCopies(old(shards), shards)
      {
        Inhabited(todo);
        var g :| g in todo;
        ghost var mid := shards;
        ok := WriteToShardRollback(docs, g, quiet);
        forall j: nat, id | j < |shards|
          ensures Copies(shards[j], id) == Copies(old(shards)[j], id)
        {
          assert Copies(mid[j], id) == Copies(old(shards)[j], id);
          assert id in docs.groups[g] ==> docs.groups[g][id].actions[0] != Insert;
        }
        if !ok { return; }
        todo := todo - {g};
      }
      ok := true;
    }

    /** Removes what was inserted under the group g, if g names a shard. */
    method WriteToShardRollback(docs: WalMergeDocs, g: int, quiet: bool) returns (ok: bool)
      requires g in docs.groups && forall id | id in docs.groups[g] :: docs.groups[g][id].actions != []
      modifies this`shards
      ensures |shards| == |old(shards)|
      ensures forall j: nat, id | j < |shards| ::
                || Copies(shards[j], id) == Copies(old(shards)[j], id)
                || (j == g && Copies(shards[j], id) == [] && id in docs.groups[g]
                    && docs.groups[g][id].actions[0] == Insert)
      ensures ok && 0 <= g < |shards| ==>
                forall id | id in docs.groups[g] && docs.groups[g][id].actions[0] == Insert ::
                  Copies(shards[g], id) == []
      ensures quiet && g < |shards| ==> ok
    {
      if g < 0 { return true; }
      if g >= |shards| { return false; }
      var batch := BuildRollback(docs.groups[g]);
      var stored;
      stored, ok := Outcome(quiet);
      if stored {
        hide OpFor;
        forall id
          ensures Copies(ApplyBatch(shards[g], batch), id) == Applied(OpFor(batch, id), Copies(shards[g], id))
        {
        }
        shards := shards[g := ApplyBatch(shards[g], batch)];
      }
    }

    // -------------------------------------------------------------- what follows

    lemma ShapeFacts()
      requires Works()
      ensures LogShape() && shards != [] && 1 <= first <= Committed() + 1 <= LastIndex() + 1 && |log| == LastIndex()
    {
      hide Recoverable, AllBlank;
    }

    /** What may be logged: updates and deletes of a document under one group as long as they
        are pending, which is that of all shards, or the one shard where the document may be. */
    lemma LoggableIff(e: Entry)
      requires Works()
      ensures 1 <= first <= Committed() + 1 <= LastIndex() + 1
      ensures Loggable(e) <==>
                && e.action != Insert
                && (forall f | f in wal[Committed() + 1 - first..] && f.id == e.id :: f.group == e.group)
                && (e.group < -1
                    || (0 <= e.group < |shards|
                        && forall j: nat | j < |clean| && j != e.group :: Copies(clean[j], e.id) == []))
    {
      hide Recoverable, AllBlank, Replayable, Placed, Kept;
      SameNumber();
      PendingEntries();
      PendingReplayable(committed, log, Committed(), Attempt(), clean, shards, batchSize);
      ReplayableMore(log[Committed()..], e, |shards|);
      if 0 <= e.group < |shards| { PlacedIff(clean, e.id, e.group); }
    }

    /** The stream path logs nothing that could not be repeated. */
    lemma StreamLoggable(e: Entry)
      requires Works() && StreamEntry(e) && forall f | f in log :: StreamEntry(f)
      ensures 1 <= first <= Committed() + 1 <= LastIndex() + 1 && Loggable(e)
    {
      hide Recoverable, Replayable, AllBlank;
      SameNumber();
      PendingEntries();
      StreamReplayable(log[Committed()..] + [e], |shards|);
    }

    /** When nothing is pending, the shards hold exactly what the whole log says, each document
        in at most one of them. */
    lemma NothingPendingIsExact()
      requires Valid() && Pending() == 0
      ensures forall id :: Exact(shards, Find(Fold(base, log), id), id)
    {
      hide Fold, Exact, Replayable, Kept, AllBlank;
      assert log[..Committed()] == log;
      assert !Interrupted();
      SameSettles(clean, shards, Fold(base, log), log[Committed()..]);
    }

    /** At a committed point the shards equal the whole log exactly when what is pending
        changes nothing. */
    lemma ExactIff()
      requires Valid() && !Interrupted()
      ensures (forall id :: Exact(shards, Find(Fold(base, log), id), id)) <==>
                Fold(base, log[..Committed()]) == Fold(base, log)
    {
      hide Fold, ExactColumn, PlacedColumn, Replayable, Kept, FirstFull, AllBlank;
      var m, all := Fold(base, log[..Committed()]), Fold(base, log);
      SameSettles(clean, shards, m, log[Committed()..]);
      if forall id :: Exact(shards, Find(all, id), id) {
        forall id
          ensures Find(m, id) == Find(all, id)
        {
          assert Exact(shards, Find(m, id), id) && Exact(shards, Find(all, id), id);
          ExactIsUnique(Column(shards, id), Find(m, id), Find(all, id));
        }
        SameMaps(m, all);
      }
    }

    /** Consumes until nothing is pending, as long as nothing is written and nothing fails. */
    method Drain()
      requires Valid() && listed
      modifies this`redoRead, this`redoWrite, this`shards, this`clean, this`committed, this`stored, this`behind
      modifies this`wal, this`first, this`durable
      ensures Valid() && Pending() == 0 && LastIndex() == old(LastIndex())
      ensures forall id :: Exact(shards, Find(Fold(base, log), id), id)
    {
      hide Recoverable, Exact, Fold, AllBlank;
      while Pending() != 0
        invariant Valid() && LastIndex() == old(LastIndex())
        decreases Pending()
      {
        var over := *;
        var updated := ConsumeWAL(true, true, true, true, over);
      }
      NothingPendingIsExact();
    }
  }

  /** The stream path logs updates and deletes to be applied wherever a document is. */
  predicate StreamEntry(e: Entry) { e.action != Insert && e.group == NEED_UPDATE }

  /** Every run: writes, consumption that fails anywhere, syncs and stores of metadata that fail,
      crashes that lose what was not synced or stored, and recovery that fails, in any order and
      any number of times. Unless a crash lost what had been committed, draining afterwards
      leads to the log applied entry by entry; if the last recovery failed, the shard is drained
      after another restart. Nothing is lost while syncs and stores of metadata succeed. */
  method AnyRun(batchSize: int, syncs: bool, stores: bool) returns (s: IndexShard, lost: bool)
    ensures syncs && stores ==> !lost
    ensures !lost ==> s.Valid() && s.Pending() == 0
    ensures !lost ==> forall id :: Exact(s.shards, Find(Fold(map[], s.log), id), id)
  {
    hide Recoverable, Exact, Fold, Replayable, Kept, AllBlank, IndexShard.Survives, Placed;
    s := new IndexShard(batchSize);
    lost := false;
    var steps: nat := *;
    while steps > 0 && !lost
      invariant fresh(s) && s.base == map[] && (!lost ==> s.Valid())
      invariant syncs && stores ==> !lost && s.Safe()
    {
      steps := steps - 1;
      lost := AnyStep(s, syncs, stores);
    }
    if !lost && !s.listed {
      lost := Restart(s, s.LastIndex(), s.LastIndex(), true);
    }
    if !lost { s.Drain(); }
  }

  /** The process dies and starts again. */
  method Restart(s: IndexShard, keep: nat, synced: nat, quiet: bool) returns (lost: bool)
    requires s.Valid() && s.durable <= synced <= keep <= s.LastIndex() && s.first <= keep + 1
    modifies s
    ensures (!lost ==> s.Valid()) && (!lost && quiet ==> s.listed)
    ensures old(s.Safe()) ==> !lost && s.Safe()
  {
    hide Recoverable, Fold, Kept, AllBlank, IndexShard.Survives;
    lost := s.Crash(keep, synced);
    if !lost {
      s.ShapeFacts();
      var ok := s.Open(quiet);
    }
  }

  method AnyStep(s: IndexShard, syncs: bool, stores: bool) returns (lost: bool)
    requires s.Valid()
    modifies s
    ensures !lost ==> s.Valid()
    ensures syncs && stores && old(s.Safe()) ==> !lost && s.Safe()
  {
    hide Recoverable, Exact, Fold, Replayable, Kept, AllBlank, IndexShard.Survives, Placed;
    lost := false;
    s.ShapeFacts();
    if * {
      var e: Entry := *;
      if s.Loggable(e) { s.Write(e); }
    } else if * {
      var synced, stored, truncates, over: bool := *, *, *, *;
      if s.listed { var updated := s.ConsumeWAL(syncs || synced, truncates, stores || stored, false, over); }
    } else if * {
      var stored: bool := *;
      s.StoreMetadata(stored);
    } else if * {
      var keep: nat, synced: nat := *, *;
      if s.durable <= synced <= keep <= s.LastIndex() && s.first <= keep + 1 {
        lost := Restart(s, keep, synced, false);
      }
    }
  }

  /** Failed syncs unnoticed. The entry was committed, a crash takes it from the log, and the
      next entry gets its number: it is never applied. */
  method LostLogRun(batchSize: int, d: Doc) returns (s: IndexShard)
    ensures s.Works() && s.listed && s.log == [Entry("y", Update, NEED_UPDATE, d)] && s.Pending() == 0
    ensures !Exact(s.shards, Find(Fold(map[], s.log), "y"), "y")
  {
    hide Recoverable, Exact, Fold, Replayable, Kept, AllBlank, NamesBelow, Settled, SameCopies, IndexShard.Holed;
    var e1, e2 := Entry("x", Update, NEED_UPDATE, d), Entry("y", Update, NEED_UPDATE, d);
    s := CommittedUnsynced(batchSize, e1);
    LoseLog(s);
    s.Write(e2);
    var updated := s.ConsumeWAL(true, true, true, true, false);
    NotThere(s.shards, e1, e2);
  }

  /** All of the log is lost, and the shard opened again. */
  method LoseLog(s: IndexShard)
    requires s.Valid() && s.durable == 0 && s.first == 1 && s.Committed() > 0 && !s.Interrupted()
    requires s.stored == |s.shards|
    modifies s
    ensures s.LogShape() && s.Holed() && s.listed && s.log == [] && s.shards == old(s.shards)
    ensures s.Committed() == old(s.Committed()) && s.first == 1
  {
    hide Recoverable, Kept, AllBlank, NamesBelow, Settled, SameCopies, IndexShard.Survives;
    assert s.log[..0] == [] && s.shards[..s.stored] == s.shards;
    s.NoneCut();
    var lost := s.Crash(0, 0);
    var ok := s.Open(true);
  }

  /** An entry is logged and consumed while neither syncing nor truncating the log succeeds. */
  method CommittedUnsynced(batchSize: int, e: Entry) returns (s: IndexShard)
    requires StreamEntry(e)
    ensures fresh(s) && s.Valid() && s.log == [e] && s.durable == 0 && s.first == 1 && s.Committed() == 1
    ensures !s.Interrupted()
    ensures s.stored == |s.shards| && forall id :: Exact(s.shards, Find(Fold(map[], [e]), id), id)
  {
    hide Recoverable, Exact, Fold, Replayable, Kept, AllBlank;
    s := new IndexShard(batchSize);
    s.StreamLoggable(e);
    s.Write(e);
    assert s.log == [e];
    var updated := s.ConsumeWAL(false, false, true, true, false);
    s.NothingPendingIsExact();
  }

  lemma NotThere(shards: seq<Shard>, e1: Entry, e2: Entry)
    requires e1.id != e2.id && e1.action == e2.action == Update
    requires Exact(shards, Find(Fold(map[], [e1]), e2.id), e2.id)
    ensures !Exact(shards, Find(Fold(map[], [e2]), e2.id), e2.id)
  {
    hide Exact;
    assert [e1][..0] == [] && [e2][..0] == [];
    FoldAt(map[], [e1], e2.id);
    FoldAt(map[], [e2], e2.id);
    if Exact(shards, Find(Fold(map[], [e2]), e2.id), e2.id) {
      ExactTwice(shards, e2.id, Find(Fold(map[], [e1]), e2.id), Find(Fold(map[], [e2]), e2.id));
    }
  }

  lemma ExactTwice(shards: seq<Shard>, id: DocId, d1: Option<Doc>, d2: Option<Doc>)
    requires Exact(shards, d1, id) && Exact(shards, d2, id)
    ensures d1 == d2
  {
    ExactIsUnique(Column(shards, id), d1, d2);
  }

  /** The shards can equal the log while an entry is pending: writing the same document again. */
  lemma EqualWhilePending(d: Doc)
    ensures var log := [Entry("x", Update, NEED_UPDATE, d), Entry("x", Update, NEED_UPDATE, d)];
            Fold(map[], log[..1]) == Fold(map[], log)
  {
    var e := Entry("x", Update, NEED_UPDATE, d);
    var log := [e, e];
    assert log[..1] == [e] && [e][..0] == [];
    assert Fold(map[], [e]) == Fold(map[], [e][..0])["x" := d];
    assert Fold(map[], log) == Fold(map[], log[..1])["x" := d];
  }
}
