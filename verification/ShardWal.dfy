/** Merging and writing logged actions to the second-level shards of an index shard
    (pkg/core/index_shards_wal.go), on values. */
module ShardWal {
  import opened Wrappers
  import Replication

  type DocId = Replication.DocId
  type Doc = Replication.Doc

  datatype Action = Insert | Update | Delete

  /** One write-ahead log entry. group is a second-level shard, or one of the two below. */
  datatype Entry = Entry(id: DocId, action: Action, group: int, doc: Doc)

  const NEED_LATEST := -1
  const MAX_BATCH_SIZE := 10240

  /** A second-level shard: the stored copies of each document ID. The index library does
      not keep a second copy out, so neither does the model. */
  type Shard = map<DocId, seq<Doc>>

  function Copies(s: Shard, id: DocId): seq<Doc> { if id in s then s[id] else [] }

  // ---------------------------------------------------------------- batches

  /** Insert adds a copy, update replaces all copies by one, delete removes all. */
  datatype BatchOp = AddDoc(doc: Doc) | ReplaceDoc(doc: Doc) | RemoveDoc

  type Batch = map<DocId, BatchOp>

  function Applied(op: Option<BatchOp>, copies: seq<Doc>): seq<Doc> {
    match op
    case None => copies
    case Some(AddDoc(d)) => copies + [d]
    case Some(ReplaceDoc(d)) => [d]
    case Some(RemoveDoc) => []
  }

  function OpFor(b: Batch, id: DocId): Option<BatchOp> { if id in b then Some(b[id]) else None }

  /** A batch changes a shard atomically. */
  function ApplyBatch(s: Shard, b: Batch): (s': Shard)
    ensures forall id :: Copies(s', id) == Applied(OpFor(b, id), Copies(s, id))
  {
    map id | id in s.Keys + b.Keys && Applied(OpFor(b, id), Copies(s, id)) != [] :: Applied(OpFor(b, id), Copies(s, id))
  }

  // ---------------------------------------------------------------- merging actions

  /** All actions of a document in one chunk of the log, with its latest content. */
  datatype WalDocument = WalDocument(actions: seq<Action>, doc: Doc)

  /** The entries of one document, in log order. */
  function OfId(es: seq<Entry>, id: DocId): seq<Entry> {
    if es == [] then []
    else OfId(es[..|es| - 1], id) + if es[|es| - 1].id == id then [es[|es| - 1]] else []
  }

  lemma {:induction false} OfIdConcat(a: seq<Entry>, b: seq<Entry>, id: DocId)
    ensures OfId(a + b, id) == OfId(a, id) + OfId(b, id)
    decreases |b|
  {
    if b == [] {
      assert a + b == a;
    } else {
      OfIdConcat(a, b[..|b| - 1], id);
      assert (a + b)[..|a + b| - 1] == a + b[..|b| - 1];
    }
  }

  lemma {:induction false} OfIdMember(es: seq<Entry>, id: DocId)
    ensures forall e | e in OfId(es, id) :: e in es && e.id == id
    ensures forall e | e in es && e.id == id :: e in OfId(es, id)
    ensures OfId(es, id) != [] <==> exists i :: 0 <= i < |es| && es[i].id == id
    decreases |es|
  {
    if es != [] {
      OfIdMember(es[..|es| - 1], id);
      assert es == es[..|es| - 1] + [es[|es| - 1]];
      if OfId(es, id) != [] {
        assert OfId(es, id)[0] in es;
      }
    }
  }

  /** What the target writer is told about a document, from its first and last action. */
  function TargetOp(w: WalDocument): Option<BatchOp>
    requires w.actions != []
  {
    var first, last := w.actions[0], w.actions[|w.actions| - 1];
    match first
    case Insert => if last == Delete then None else Some(AddDoc(w.doc))
    case Update => if last == Delete then Some(RemoveDoc) else Some(ReplaceDoc(w.doc))
    case Delete => if last == Delete then Some(RemoveDoc) else Some(ReplaceDoc(w.doc))
  }

  /** What the other writers are told. */
  function OtherOp(w: WalDocument): Option<BatchOp>
    requires w.actions != []
  {
    if w.actions[0] == Insert then None else Some(RemoveDoc)
  }

  function MergedDoc(es: seq<Entry>): (w: WalDocument)
    requires es != []
    ensures |w.actions| == |es| && w.doc == es[|es| - 1].doc
    ensures w.actions[0] == es[0].action && w.actions[|es| - 1] == es[|es| - 1].action
  {
    WalDocument(seq(|es|, i requires 0 <= i < |es| => es[i].action), es[|es| - 1].doc)
  }

  /** The writer that gets the documents of a group; None when there is no such shard. */
  function Target(n: nat, g: int): Option<nat>
    requires n > 0
  {
    if 0 <= g < n then Some(g) else if g < 0 then Some(n - 1) else None
  }

  /** Groups whose documents may be stored in any shard, so that all are told about them. */
  predicate AllShards(g: int) { g < 0 && g != NEED_LATEST }

  /** What the entries es of one document do to its copies in shard j of n. */
  function Effect(n: nat, es: seq<Entry>, j: nat, copies: seq<Doc>): seq<Doc>
    requires n > 0
  {
    if es == [] then copies
    else if Target(n, es[0].group) == Some(j) then Applied(TargetOp(MergedDoc(es)), copies)
    else if AllShards(es[0].group) then Applied(OtherOp(MergedDoc(es)), copies)
    else copies
  }

  /** new is old after the chunk es was written completely. */
  ghost predicate Written(before: seq<Shard>, es: seq<Entry>, after: seq<Shard>) {
    && |after| == |before| > 0
    && forall j: nat, id | j < |before| ::
         Copies(after[j], id) == Effect(|before|, OfId(es, id), j, Copies(before[j], id))
  }

  ghost predicate SameCopies(a: seq<Shard>, b: seq<Shard>) {
    |a| == |b| && forall j: nat, id | j < |a| :: Copies(a[j], id) == Copies(b[j], id)
  }

  /** Within a chunk every document occurs under one shard group. Groups are written in an
      arbitrary order, so a document under two of them would not have a defined result. */
  predicate OneGroup(es: seq<Entry>) {
    forall i, j | 0 <= i < |es| && 0 <= j < |es| && es[i].id == es[j].id :: es[i].group == es[j].group
  }

  // ---------------------------------------------------------------- what the log means

  /** The documents after every action was performed in log order. */
  function Fold(m: map<DocId, Doc>, es: seq<Entry>): map<DocId, Doc> {
    if es == [] then m
    else
      var before, e := Fold(m, es[..|es| - 1]), es[|es| - 1];
      if e.action == Delete then before - {e.id} else before[e.id := e.doc]
  }

  /** Only the last action of a document decides what is stored. */
  lemma {:induction false} FoldAt(m: map<DocId, Doc>, es: seq<Entry>, id: DocId)
    ensures Find(Fold(m, es), id) ==
            var mine := OfId(es, id);
            if mine == [] then Find(m, id)
            else if mine[|mine| - 1].action == Delete then None
            else Some(mine[|mine| - 1].doc)
    decreases |es|
  {
    if es != [] { FoldAt(m, es[..|es| - 1], id); }
  }

  lemma {:induction false} FoldConcat(m: map<DocId, Doc>, a: seq<Entry>, b: seq<Entry>)
    ensures Fold(m, a + b) == Fold(Fold(m, a), b)
    decreases |b|
  {
    if b == [] {
      assert a + b == a;
    } else {
      FoldConcat(m, a, b[..|b| - 1]);
      assert (a + b)[..|a + b| - 1] == a + b[..|b| - 1];
    }
  }

  /** The copies of one document in each shard. */
  function Column(shards: seq<Shard>, id: DocId): (col: seq<seq<Doc>>)
    ensures |col| == |shards| && forall j :: 0 <= j < |shards| ==> col[j] == Copies(shards[j], id)
  {
    seq(|shards|, j requires 0 <= j < |shards| => Copies(shards[j], id))
  }

  /** The shards together hold exactly one copy of the document, or none when it does not exist. */
  ghost predicate ExactColumn(col: seq<seq<Doc>>, d: Option<Doc>) {
    match d
    case None => forall j | 0 <= j < |col| :: col[j] == []
    case Some(doc) => exists j :: 0 <= j < |col| && col[j] == [doc] && OthersEmpty(col, j)
  }

  ghost predicate OthersEmpty(col: seq<seq<Doc>>, j: int) {
    forall k | 0 <= k < |col| && k != j :: col[k] == []
  }

  ghost predicate Exact(shards: seq<Shard>, d: Option<Doc>, id: DocId) { ExactColumn(Column(shards, id), d) }

  /** The document is stored nowhere but where writers of group g look. */
  predicate PlacedColumn(col: seq<seq<Doc>>, g: int)
    requires col != []
  {
    AllShards(g) || forall j: nat | j < |col| && Target(|col|, g) != Some(j) :: col[j] == []
  }

  predicate Placed(shards: seq<Shard>, id: DocId, g: int)
    requires shards != []
  {
    PlacedColumn(Column(shards, id), g)
  }

  /** What a document is after the entries es of it. */
  function After(mine: seq<Entry>): Option<Doc>
    requires mine != []
  {
    if mine[|mine| - 1].action == Delete then None else Some(mine[|mine| - 1].doc)
  }

  ghost predicate WrittenColumn(a: seq<seq<Doc>>, mine: seq<Entry>, b: seq<seq<Doc>>) {
    |a| == |b| > 0 && forall j: nat | j < |a| :: b[j] == Effect(|a|, mine, j, a[j])
  }

  lemma WrittenColumns(before: seq<Shard>, es: seq<Entry>, after: seq<Shard>, id: DocId)
    requires Written(before, es, after)
    ensures WrittenColumn(Column(before, id), OfId(es, id), Column(after, id))
  {
    hide OfId, Effect;
  }

  /** What writing a chunk does to a document. Its entries have one group g, and it is the first
      and the last action that count. A group from 0 on is a shard, -1 the latest shard, and
      documents of any other group are put into the latest shard and taken out of all others. */
  lemma WrittenMeans(before: seq<Shard>, es: seq<Entry>, after: seq<Shard>, id: DocId, j: nat)
    requires Written(before, es, after) && j < |before|
    ensures var mine, old', new' := OfId(es, id), Copies(before[j], id), Copies(after[j], id);
            if mine == [] then new' == old'
            else
              var g, first, last := mine[0].group, mine[0].action, mine[|mine| - 1];
              if j == g || (g < 0 && j == |before| - 1) then
                if last.action == Delete then new' == if first == Insert then old' else []
                else new' == if first == Insert then old' + [last.doc] else [last.doc]
              else if g < 0 && g != -1 && first != Insert then new' == []
              else new' == old'
  {
    EffectMeans(|before|, OfId(es, id), j, Copies(before[j], id));
    hide Effect, OfId;
  }

  lemma EffectMeans(n: nat, mine: seq<Entry>, j: nat, copies: seq<Doc>)
    requires j < n
    ensures var after := Effect(n, mine, j, copies);
            if mine == [] then after == copies
            else
              var g, first, last := mine[0].group, mine[0].action, mine[|mine| - 1];
              if j == g || (g < 0 && j == n - 1) then
                if last.action == Delete then after == if first == Insert then copies else []
                else after == if first == Insert then copies + [last.doc] else [last.doc]
              else if g < 0 && g != -1 && first != Insert then after == []
              else after == copies
  {
    hide MergedDoc;
  }

  lemma MergeColumn(a: seq<seq<Doc>>, mine: seq<Entry>, b: seq<seq<Doc>>, d: Option<Doc>)
    requires WrittenColumn(a, mine, b) && mine != []
    requires Target(|a|, mine[0].group).Some? && PlacedColumn(a, mine[0].group) && ExactColumn(a, d)
    ensures ExactColumn(b, After(mine)) <==> (mine[0].action == Insert ==> d == None)
    ensures PlacedColumn(b, mine[0].group)
  {
    hide MergedDoc;
    var t := Target(|a|, mine[0].group).value;
    assert b[t] == Effect(|a|, mine, t, a[t]);
    if mine[0].action == Insert && d != None {
      StoredTwice(a, mine, b, d.value, t);
    } else if After(mine) != None {
      assert b[t] == [After(mine).value] && OthersEmpty(b, t);
    }
  }

  /** An insert of a document that is stored already leaves a wrong number of copies. */
  lemma StoredTwice(a: seq<seq<Doc>>, mine: seq<Entry>, b: seq<seq<Doc>>, doc: Doc, t: nat)
    requires WrittenColumn(a, mine, b) && mine != [] && mine[0].action == Insert
    requires Target(|a|, mine[0].group) == Some(t) && ExactColumn(a, Some(doc))
    ensures !ExactColumn(b, After(mine))
  {
    hide MergedDoc;
    var j: nat :| j < |a| && a[j] == [doc] && OthersEmpty(a, j);
    assert b[j] == Effect(|a|, mine, j, a[j]);
    assert b[t] == Effect(|a|, mine, t, a[t]);
    if After(mine) == None {
      assert b[j] == [doc];
    } else if j == t {
      assert |b[j]| == 2;
    } else {
      assert |b[j]| == 1 && |b[t]| == 1;
    }
  }

  /** Merging by first and last action gives what running the actions one after the other
      gives, exactly when a document whose first action is an insert is not stored yet. */
  lemma MergeIsSequential(before: seq<Shard>, es: seq<Entry>, after: seq<Shard>, d: Option<Doc>, id: DocId)
    requires Written(before, es, after) && OfId(es, id) != []
    requires Target(|before|, OfId(es, id)[0].group).Some? && Placed(before, id, OfId(es, id)[0].group)
    requires Exact(before, d, id)
    ensures Exact(after, After(OfId(es, id)), id) <==> (OfId(es, id)[0].action == Insert ==> d == None)
  {
    WrittenColumns(before, es, after, id);
    MergeColumn(Column(before, id), OfId(es, id), Column(after, id), d);
  }

  /** Writing a chunk a second time, as a restart after a crash does, is harmless exactly when
      the document was not net-inserted: plain inserts are not safe to replay. */
  lemma ReplayIsSafe(before: seq<Shard>, es: seq<Entry>, once: seq<Shard>, twice: seq<Shard>, d: Option<Doc>, id: DocId)
    requires Written(before, es, once) && Written(once, es, twice) && OfId(es, id) != []
    requires Target(|before|, OfId(es, id)[0].group).Some? && Placed(before, id, OfId(es, id)[0].group)
    requires Exact(before, d, id) && (OfId(es, id)[0].action == Insert ==> d == None)
    ensures Exact(twice, After(OfId(es, id)), id) <==>
            (OfId(es, id)[0].action == Insert ==> OfId(es, id)[|OfId(es, id)| - 1].action == Delete)
  {
    WrittenColumns(before, es, once, id);
    WrittenColumns(once, es, twice, id);
    MergeColumn(Column(before, id), OfId(es, id), Column(once, id), d);
    MergeColumn(Column(once, id), OfId(es, id), Column(twice, id), After(OfId(es, id)));
  }

  // ---------------------------------------------------------------- where the log is cut

  /** Every insert of the log is of a document that is not stored at that time. */
  ghost predicate FreshInserts(m: map<DocId, Doc>, es: seq<Entry>) {
    forall i | 0 <= i < |es| && es[i].action == Insert :: es[i].id !in Fold(m, es[..i])
  }

  lemma {:induction false} FirstInsertFresh(m: map<DocId, Doc>, es: seq<Entry>, id: DocId)
    requires FreshInserts(m, es) && OfId(es, id) != [] && OfId(es, id)[0].action == Insert
    ensures id !in m
    decreases |es|
  {
    var shorter := es[..|es| - 1];
    if OfId(shorter, id) == [] {
      FoldAt(m, shorter, id);
      assert es[|es| - 1].id == id;
    } else {
      forall i | 0 <= i < |shorter| && shorter[i].action == Insert
        ensures shorter[i].id !in Fold(m, shorter[..i])
      {
        assert shorter[..i] == es[..i] && shorter[i] == es[i];
      }
      FirstInsertFresh(m, shorter, id);
    }
  }

  /** Writing a log in two chunks or in one makes no difference, wherever the cut is. */
  lemma CutIsFree(s0: seq<Shard>, a: seq<Entry>, s1: seq<Shard>, b: seq<Entry>, s2: seq<Shard>, whole: seq<Shard>,
                  m: map<DocId, Doc>)
    requires Written(s0, a, s1) && Written(s1, b, s2) && Written(s0, a + b, whole)
    requires OneGroup(a + b)
    requires forall i | 0 <= i < |a + b| && (a + b)[i].action == Insert :: (a + b)[i].id !in Fold(m, (a + b)[..i])
    requires forall id :: Exact(s0, Find(m, id), id)
    ensures SameCopies(s2, whole)
  {
    forall j: nat, id | j < |s0|
      ensures Copies(s2[j], id) == Copies(whole[j], id)
    {
      WrittenColumns(s0, a, s1, id);
      WrittenColumns(s1, b, s2, id);
      WrittenColumns(s0, a + b, whole, id);
      CutOfDocument(a, b, m, id, Column(s0, id));
      assert Column(s2, id)[j] == Effect(|s0|, OfId(b, id), j, Effect(|s0|, OfId(a, id), j, Column(s0, id)[j]));
    }
  }

  lemma CutOfDocument(a: seq<Entry>, b: seq<Entry>, m: map<DocId, Doc>, id: DocId, col: seq<seq<Doc>>)
    requires OneGroup(a + b) && FreshInserts(m, a + b) && ExactColumn(col, Find(m, id))
    ensures forall j: nat | j < |col| ::
              Effect(|col|, OfId(b, id), j, Effect(|col|, OfId(a, id), j, col[j])) ==
                Effect(|col|, OfId(a + b, id), j, col[j])
  {
    OfIdConcat(a, b, id);
    var x, y := OfId(a, id), OfId(b, id);
    if x != [] && y != [] {
      OfIdMember(a + b, id);
      assert (x + y)[0] == x[0] && (x + y)[|x|] == y[0];
      assert x[0] in a + b && y[0] in a + b;
      SameGroup(a + b, x[0], y[0]);
      if y[0].action == Insert { InsertAfterDelete(m, a, b, id); }
      if x[0].action == Insert { FirstInsertFresh(m, a + b, id); }
      hide OfId, Effect;
      forall j: nat | j < |col|
        ensures Effect(|col|, y, j, Effect(|col|, x, j, col[j])) == Effect(|col|, x + y, j, col[j])
      {
        CutOfOne(|col|, x, y, j, col[j]);
      }
    } else if x == [] {
      assert x + y == y;
    } else {
      assert x + y == x;
    }
  }

  /** The shards after a chunk was written completely. */
  function WriteAll(shards: seq<Shard>, es: seq<Entry>): (after: seq<Shard>)
    requires shards != []
    ensures Written(shards, es, after)
  {
    WriteAllMember(es);
    seq(|shards|, j requires 0 <= j < |shards| =>
      map id | id in shards[j].Keys + Ids(es) && Effect(|shards|, OfId(es, id), j, Copies(shards[j], id)) != []
             :: Effect(|shards|, OfId(es, id), j, Copies(shards[j], id)))
  }

  function Ids(es: seq<Entry>): set<DocId> { set i | 0 <= i < |es| :: es[i].id }

  lemma WriteAllMember(es: seq<Entry>)
    ensures forall id | id !in Ids(es) :: OfId(es, id) == []
  {
    forall id | id !in Ids(es)
      ensures OfId(es, id) == []
    {
      OfIdMember(es, id);
    }
  }

  /** The shards do not depend on where the log is cut into chunks. */
  lemma {:induction false} CutsAreFree(states: seq<seq<Shard>>, cuts: seq<seq<Entry>>, m: map<DocId, Doc>)
    requires |states| == |cuts| + 1 && states[0] != []
    requires forall i | 0 <= i < |cuts| :: Written(states[i], cuts[i], states[i + 1])
    requires var es := Flatten(cuts);
             OneGroup(es) && forall i | 0 <= i < |es| && es[i].action == Insert :: es[i].id !in Fold(m, es[..i])
    requires forall id :: Exact(states[0], Find(m, id), id)
    ensures SameCopies(states[|cuts|], WriteAll(states[0], Flatten(cuts)))
    decreases |cuts|
  {
    var n := |cuts|;
    if n > 0 {
      var before, last := Flatten(cuts[..n - 1]), cuts[n - 1];
      assert Flatten(cuts) == before + last;
      PrefixConditions(m, before, last);
      CutsAreFree(states[..n], cuts[..n - 1], m);
      var mid := WriteAll(states[0], before);
      assert Written(states[n - 1], last, states[n]);
      SameStart(states[n - 1], mid, last, states[n]);
      CutIsFree(states[0], before, mid, last, states[n], WriteAll(states[0], before + last), m);
    } else {
      NothingToWrite(states[0]);
    }
  }

  lemma NothingToWrite(shards: seq<Shard>)
    requires shards != []
    ensures SameCopies(shards, WriteAll(shards, []))
  {
    var done := WriteAll(shards, []);
    forall j: nat, id | j < |shards|
      ensures Copies(done[j], id) == Copies(shards[j], id)
    {
      assert OfId([], id) == [];
    }
  }

  lemma SameStart(a: seq<Shard>, b: seq<Shard>, es: seq<Entry>, c: seq<Shard>)
    requires SameCopies(a, b) && Written(a, es, c)
    ensures Written(b, es, c)
  {
    hide Effect, OfId;
  }

  lemma PrefixConditions(m: map<DocId, Doc>, a: seq<Entry>, b: seq<Entry>)
    requires OneGroup(a + b) && FreshInserts(m, a + b)
    ensures OneGroup(a) && FreshInserts(m, a)
  {
    forall i | 0 <= i < |a|
      ensures (a + b)[i] == a[i] && (a + b)[..i] == a[..i]
    {
    }
    forall i, j | 0 <= i < |a| && 0 <= j < |a| && a[i].id == a[j].id
      ensures a[i].group == a[j].group
    {
      assert (a + b)[i].id == (a + b)[j].id;
    }
  }

  lemma SameGroup(es: seq<Entry>, e: Entry, f: Entry)
    requires OneGroup(es) && e in es && f in es && e.id == f.id
    ensures e.group == f.group
  {
  }

  /** An insert in the second chunk follows a delete in the first. */
  lemma InsertAfterDelete(m: map<DocId, Doc>, a: seq<Entry>, b: seq<Entry>, id: DocId)
    requires FreshInserts(m, a + b) && OfId(a, id) != [] && OfId(b, id) != [] && OfId(b, id)[0].action == Insert
    ensures OfId(a, id)[|OfId(a, id)| - 1].action == Delete
  {
    hide OfId, Fold;
    forall i | 0 <= i < |b| && b[i].action == Insert
      ensures b[i].id !in Fold(Fold(m, a), b[..i])
    {
      assert (a + b)[|a| + i] == b[i] && (a + b)[..|a| + i] == a + b[..i];
      FoldConcat(m, a, b[..i]);
    }
    FirstInsertFresh(Fold(m, a), b, id);
    FoldAt(m, a, id);
  }

  lemma CutOfOne(n: nat, x: seq<Entry>, y: seq<Entry>, j: nat, copies: seq<Doc>)
    requires n > 0 && x != [] && y != [] && x[0].group == y[0].group
    requires y[0].action == Insert ==> x[|x| - 1].action == Delete
    requires x[0].action == Insert ==> copies == []
    ensures Effect(n, y, j, Effect(n, x, j, copies)) == Effect(n, x + y, j, copies)
  {
    hide MergedDoc;
    assert (x + y)[0] == x[0] && (x + y)[|x + y| - 1] == y[|y| - 1];
  }

  /** Inserting a document twice: cutting between the inserts stores it twice, merging them
      stores it once. The condition on inserts cannot be dropped. */
  lemma RepeatedInsertDependsOnCut(d1: Doc, d2: Doc)
    ensures var a, b := [Entry("x", Insert, NEED_LATEST, d1)], [Entry("x", Insert, NEED_LATEST, d2)];
            && Effect(1, OfId(b, "x"), 0, Effect(1, OfId(a, "x"), 0, [])) == [d1, d2]
            && Effect(1, OfId(a + b, "x"), 0, []) == [d2]
  {
    var a, b := [Entry("x", Insert, NEED_LATEST, d1)], [Entry("x", Insert, NEED_LATEST, d2)];
    assert a[..0] == [] && b[..0] == [] && (a + b)[..1] == a;
    assert OfId(a, "x") == a && OfId(b, "x") == b && OfId(a + b, "x") == a + b;
  }

  // ---------------------------------------------------------------- interrupted writes

  /** Logs that can be replayed: no inserts, every document under one group all along, and
      only groups that exist. The stream path logs nothing else. */
  predicate Replayable(es: seq<Entry>, n: nat) {
    && n > 0 && OneGroup(es)
    && forall i | 0 <= i < |es| :: es[i].action != Insert && Target(n, es[i].group).Some? && es[i].group != NEED_LATEST
  }

  /** The entries es are about the document, and addressed to shard j of n. */
  predicate Reaches(n: nat, es: seq<Entry>, id: DocId, j: nat)
    requires n > 0
  {
    OfId(es, id) != [] && (AllShards(OfId(es, id)[0].group) || Target(n, OfId(es, id)[0].group) == Some(j))
  }

  /** The entries es may have been written to some shards and not to others. */
  ghost predicate Loose(clean: seq<Shard>, es: seq<Entry>, shards: seq<Shard>) {
    && |shards| == |clean| > 0
    && forall j: nat, id | j < |clean| :: Copies(shards[j], id) == Copies(clean[j], id) || Reaches(|clean|, es, id, j)
  }

  /** Completing an interrupted chunk, or a longer one that begins at the same place, has the
      result that the same chunk has without the interruption. */
  lemma RetryCompletes(clean: seq<Shard>, interrupted: seq<Entry>, shards: seq<Shard>, es: seq<Entry>, done: seq<Shard>)
    requires interrupted <= es && Replayable(es, |clean|)
    requires Loose(clean, interrupted, shards) && Written(shards, es, done)
    ensures Written(clean, es, done)
  {
    forall j: nat, id | j < |clean|
      ensures Copies(done[j], id) == Effect(|clean|, OfId(es, id), j, Copies(clean[j], id))
    {
      hide Effect, OfId;
      RetryAt(clean, interrupted, shards, es, j, id);
    }
  }

  lemma RetryAt(clean: seq<Shard>, interrupted: seq<Entry>, shards: seq<Shard>, es: seq<Entry>, j: nat, id: DocId)
    requires interrupted <= es && Replayable(es, |clean|) && Loose(clean, interrupted, shards) && j < |clean|
    ensures Effect(|clean|, OfId(es, id), j, Copies(shards[j], id)) ==
              Effect(|clean|, OfId(es, id), j, Copies(clean[j], id))
  {
    hide Effect, OfId;
    LongerHas(interrupted, es, id);
    OfIdMember(es, id);
    if Copies(shards[j], id) != Copies(clean[j], id) {
      assert OfId(es, id)[0] in es;
      OverwriteForgets(|clean|, OfId(es, id), j, Copies(shards[j], id), Copies(clean[j], id));
    }
  }

  /** An update or a delete does not depend on what the writers it addresses stored before. */
  lemma OverwriteForgets(n: nat, mine: seq<Entry>, j: nat, c1: seq<Doc>, c2: seq<Doc>)
    requires n > 0 && mine != [] && mine[0].action != Insert
    ensures AllShards(mine[0].group) || Target(n, mine[0].group) == Some(j) ==>
              Effect(n, mine, j, c1) == Effect(n, mine, j, c2)
  {
    hide MergedDoc;
  }

  lemma LongerHas(a: seq<Entry>, es: seq<Entry>, id: DocId)
    requires a <= es
    ensures OfId(a, id) != [] ==> OfId(es, id) != [] && OfId(es, id)[0] == OfId(a, id)[0]
  {
    OfIdConcat(a, es[|a|..], id);
    assert a + es[|a|..] == es;
  }

  /** Interruptions add up. */
  lemma LooseTrans(clean: seq<Shard>, interrupted: seq<Entry>, shards: seq<Shard>, es: seq<Entry>, shards': seq<Shard>)
    requires interrupted <= es && Loose(clean, interrupted, shards) && Loose(shards, es, shards')
    ensures Loose(clean, es, shards')
  {
    hide Reaches;
    forall j: nat, id | j < |clean|
      ensures Copies(shards'[j], id) == Copies(clean[j], id) || Reaches(|clean|, es, id, j)
    {
      ReachesMore(|clean|, interrupted, es, id, j);
    }
  }

  lemma ReachesMore(n: nat, a: seq<Entry>, es: seq<Entry>, id: DocId, j: nat)
    requires n > 0 && a <= es
    ensures Reaches(n, a, id, j) ==> Reaches(n, es, id, j)
  {
    hide OfId, AllShards, Target;
    LongerHas(a, es, id);
  }

  // ---------------------------------------------------------------- committed points

  /** The shards hold exactly the documents m, and every logged document is where its group says. */
  ghost predicate Settled(shards: seq<Shard>, m: map<DocId, Doc>, es: seq<Entry>) {
    && shards != []
    && (forall id :: Exact(shards, Find(m, id), id))
    && (forall i | 0 <= i < |es| :: Placed(shards, es[i].id, es[i].group))
  }

  /** Writing a chunk of updates and deletes completely leads from one settled state to the next. */
  lemma WrittenSettles(shards: seq<Shard>, m: map<DocId, Doc>, es: seq<Entry>, after: seq<Shard>, whole: seq<Entry>)
    requires Settled(shards, m, whole) && Replayable(whole, |shards|) && Written(shards, es, after)
    requires forall e | e in es :: e in whole
    ensures Settled(after, Fold(m, es), whole)
  {
    hide OfId, Effect, Fold;
    forall id
      ensures Exact(after, Find(Fold(m, es), id), id)
    {
      DocumentSettles(shards, m, es, after, whole, id);
    }
    forall i | 0 <= i < |whole|
      ensures Placed(after, whole[i].id, whole[i].group)
    {
      DocumentSettles(shards, m, es, after, whole, whole[i].id);
    }
  }

  lemma DocumentSettles(shards: seq<Shard>, m: map<DocId, Doc>, es: seq<Entry>, after: seq<Shard>, whole: seq<Entry>,
                        id: DocId)
    requires Settled(shards, m, whole) && Replayable(whole, |shards|) && Written(shards, es, after)
    requires forall e | e in es :: e in whole
    ensures Exact(after, Find(Fold(m, es), id), id)
    ensures forall i | 0 <= i < |whole| && whole[i].id == id :: Placed(after, id, whole[i].group)
  {
    hide OfId, Effect, Fold, ExactColumn, PlacedColumn;
    FoldAt(m, es, id);
    OfIdMember(es, id);
    WrittenColumns(shards, es, after, id);
    var a, b, mine := Column(shards, id), Column(after, id), OfId(es, id);
    assert Exact(shards, Find(m, id), id);
    if mine == [] {
      Untouched(a, b);
    } else {
      var e := mine[0];
      assert e in es && e in whole;
      var k :| 0 <= k < |whole| && whole[k] == e;
      assert Placed(shards, whole[k].id, whole[k].group);
      MergeColumn(a, mine, b, Find(m, id));
    }
  }

  lemma Untouched(a: seq<seq<Doc>>, b: seq<seq<Doc>>)
    requires WrittenColumn(a, [], b)
    ensures a == b
  {
  }

  lemma SameSettles(a: seq<Shard>, b: seq<Shard>, m: map<DocId, Doc>, es: seq<Entry>)
    requires Settled(a, m, es) && SameCopies(a, b)
    ensures Settled(b, m, es)
  {
    forall id
      ensures Column(a, id) == Column(b, id)
    {
    }
  }

  /** A shard without documents. */
  predicate Blank(s: Shard) { forall id | id in s :: s[id] == [] }

  predicate AllBlank(shards: seq<Shard>) { forall j | 0 <= j < |shards| :: Blank(shards[j]) }

  /** A new, empty second-level shard holds nothing yet; documents of existing ones stay where they are. */
  lemma GrownSettles(shards: seq<Shard>, extra: Shard, m: map<DocId, Doc>, es: seq<Entry>)
    requires Settled(shards, m, es) && Replayable(es, |shards|) && Blank(extra)
    ensures Settled(shards + [extra], m, es) && Replayable(es, |shards| + 1)
  {
    var grown := shards + [extra];
    forall id
      ensures Exact(grown, Find(m, id), id)
    {
      assert Exact(shards, Find(m, id), id);
      hide Exact, Placed, Replayable, Settled;
      GrownDocument(shards, extra, id, Find(m, id));
    }
    forall i | 0 <= i < |es|
      ensures Placed(grown, es[i].id, es[i].group)
    {
      assert Placed(shards, es[i].id, es[i].group) && Target(|shards|, es[i].group).Some?;
      hide Exact, Placed, Replayable, Settled;
      GrownPlace(shards, extra, es[i].id, es[i].group);
    }
  }

  lemma GrownDocument(shards: seq<Shard>, extra: Shard, id: DocId, d: Option<Doc>)
    requires Exact(shards, d, id) && Blank(extra)
    ensures Exact(shards + [extra], d, id)
  {
    var a, b := Column(shards, id), Column(shards + [extra], id);
    assert b == a + [[]];
    if d.Some? {
      var j :| 0 <= j < |a| && a[j] == [d.value] && OthersEmpty(a, j);
      assert b[j] == [d.value] && OthersEmpty(b, j);
    }
  }

  lemma GrownPlace(shards: seq<Shard>, extra: Shard, id: DocId, g: int)
    requires shards != [] && Placed(shards, id, g) && Blank(extra) && Target(|shards|, g).Some? && g != NEED_LATEST
    ensures Placed(shards + [extra], id, g)
  {
    var a, b := Column(shards, id), Column(shards + [extra], id);
    assert b == a + [[]];
  }

  /** Entries that name none of the shards from number n on. */
  predicate NamesBelow(es: seq<Entry>, n: nat) { forall i | 0 <= i < |es| :: es[i].group < n }

  /** The first n shards alone are settled exactly when the others hold nothing. */
  lemma ShrunkSettles(shards: seq<Shard>, n: nat, m: map<DocId, Doc>, es: seq<Entry>)
    requires Settled(shards, m, es) && Replayable(es, |shards|) && 0 < n <= |shards|
    ensures Settled(shards[..n], m, es) && Replayable(es, n) <==> AllBlank(shards[n..]) && NamesBelow(es, n)
  {
    if AllBlank(shards[n..]) && NamesBelow(es, n) {
      forall id
        ensures Exact(shards[..n], Find(m, id), id)
        ensures forall g | g < n && Placed(shards, id, g) :: Placed(shards[..n], id, g)
      {
        ShrunkDocument(shards, n, id, Find(m, id));
      }
    }
    if Settled(shards[..n], m, es) && Replayable(es, n) {
      forall j | n <= j < |shards|
        ensures Blank(shards[j])
      {
        forall id | id in shards[j]
          ensures shards[j][id] == []
        {
          assert Exact(shards, Find(m, id), id) && Exact(shards[..n], Find(m, id), id);
          StoredBelow(shards, n, id, Find(m, id), j);
        }
      }
    }
  }

  lemma ShrunkDocument(shards: seq<Shard>, n: nat, id: DocId, d: Option<Doc>)
    requires Exact(shards, d, id) && 0 < n <= |shards| && AllBlank(shards[n..])
    ensures Exact(shards[..n], d, id)
    ensures forall g | g < n && Placed(shards, id, g) :: Placed(shards[..n], id, g)
  {
    var a, b := Column(shards, id), Column(shards[..n], id);
    assert b == a[..n];
    forall j | n <= j < |a|
      ensures a[j] == []
    {
      assert Blank(shards[n..][j - n]);
    }
    if d.Some? {
      var j :| 0 <= j < |a| && a[j] == [d.value] && OthersEmpty(a, j);
      assert b[j] == [d.value] && OthersEmpty(b, j);
    }
  }

  lemma StoredBelow(shards: seq<Shard>, n: nat, id: DocId, d: Option<Doc>, j: nat)
    requires n <= j < |shards| && Exact(shards, d, id) && Exact(shards[..n], d, id)
    ensures Copies(shards[j], id) == []
  {
    var a, b := Column(shards, id), Column(shards[..n], id);
    assert b == a[..n] && a[j] == Copies(shards[j], id);
    if d.Some? {
      var k :| 0 <= k < |b| && b[k] == [d.value] && OthersEmpty(b, k);
      assert a[k] == [d.value];
      var l :| 0 <= l < |a| && a[l] == [d.value] && OthersEmpty(a, l);
    }
  }
}
