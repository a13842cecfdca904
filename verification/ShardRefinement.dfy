/** The shard that consumes its log chunk by chunk (pkg/core/index_shards_wal.go) does what the
    node's model of a shard does at once (pkg/core/index_document.go, pkg/core/stream.go), also
    when it is not safe, loses what it committed, and swallows entries. */
module ShardRefinement {
  import opened Wrappers
  import opened NodeDisk
  import W = ShardWal
  import C = ShardConsumer

  /** The documents that logged updates bring, in log order. */
  function Updates(es: seq<W.Entry>): (docs: seq<(W.DocId, W.Doc)>)
    ensures |docs| == |es| && forall i | 0 <= i < |es| :: docs[i] == (es[i].id, es[i].doc)
  {
    seq(|es|, i requires 0 <= i < |es| => (es[i].id, es[i].doc))
  }

  /** The entry of a document that came with the stream. */
  function Updating(id: W.DocId, doc: W.Doc): W.Entry { W.Entry(id, W.Update, C.NEED_UPDATE, doc) }

  /** Only documents of the stream were logged. */
  ghost predicate OnlyUpdates(log: seq<W.Entry>) { forall e | e in log :: e == Updating(e.id, e.doc) }

  /** The entries after the committed ones. */
  function Rest(log: seq<W.Entry>, c: nat): seq<W.Entry> { if c <= |log| then log[c..] else [] }

  function NatMinus(a: nat, b: nat): nat { if a < b then 0 else a - b }

  /** Where the chunk ends that was begun. */
  ghost function BegunTo(s: C.IndexShard): nat
    reads s
  {
    if s.Interrupted() then s.redoRead.value.max else s.Committed()
  }

  /** The shard s stands for: what it committed, what its log has beyond that, how much of it is
      on disk, and what is wrong with it. */
  ghost function AbsOf(s: C.IndexShard): Shard
    reads s
  {
    var c := s.Committed();
    Shard(s.committed, Updates(Rest(s.log, c)), s.durable - c, NatMinus(BegunTo(s), c), NatMinus(c, |s.log|),
          C.Held(s.behind) + s.gone)
  }

  /** The documents in second-level shards that the stored metadata does not know. */
  ghost function UnknownOf(s: C.IndexShard): set<W.DocId>
    requires s.stored <= |s.shards| && s.stored <= |s.clean|
    reads s
  {
    C.Held(s.shards[s.stored..]) + C.Held(s.clean[s.stored..])
  }

  lemma WorksFacts(s: C.IndexShard)
    requires s.Works()
    ensures s.Committed() <= |s.log| && s.durable <= |s.log| && |s.log| == s.LastIndex()
    ensures |s.shards| == |s.clean| && 1 <= s.stored <= |s.shards|
    ensures s.Committed() <= BegunTo(s) <= |s.log|
  {
    hide C.Recoverable, W.AllBlank;
    s.SameNumber();
    C.RecoverableFacts(s.committed, s.log, s.Committed(), s.Attempt(), s.clean, s.shards, s.batchSize);
  }

  /** A shard that can be recovered stands for a sound one, and a safe one for a safe one. */
  lemma WorksIsSound(s: C.IndexShard)
    requires s.Works()
    ensures GoodShard(AbsOf(s)) && Sound(AbsOf(s)) && |s.shards| == |s.clean| && s.stored <= |s.shards|
    ensures s.Safe() ==> Safe(AbsOf(s), UnknownOf(s))
  {
    WorksFacts(s);
    hide C.Recoverable, C.Kept, C.Held, W.AllBlank, Contents;
    C.HeldNothing(s.behind);
    assert |Updates(Rest(s.log, s.Committed()))| == |s.log| - s.Committed();
    hide Updates, Rest, C.IndexShard.LogValid, C.IndexShard.Interrupted;
    if s.Safe() {
      assert BegunTo(s) <= s.durable && s.Committed() <= s.durable;
      assert s.shards[s.stored..] == [] && s.clean[s.stored..] == [];
      C.HeldNothing([]);
      NothingBlank();
    }
  }

  lemma NothingBlank()
    ensures W.AllBlank([])
  {
  }

  /** The documents that the abstract shard's log brings are what the fold of the log says. */
  lemma {:induction false} ContentsIsFold(m: map<W.DocId, W.Doc>, es: seq<W.Entry>)
    requires OnlyUpdates(es)
    ensures Contents(m, Updates(es)) == W.Fold(m, es)
    decreases |es|
  {
    if es != [] {
      var n := |es| - 1;
      var docs := Updates(es);
      assert es[n] in es && forall e | e in es[..n] :: e in es;
      ContentsIsFold(m, es[..n]);
      assert docs[..n] == Updates(es[..n]) && docs[n] == (es[n].id, es[n].doc);
      hide Updates;
    }
  }

  /** At any time, consumed or not, interrupted or not, the shard stands for the fold of its log. */
  lemma AlwaysFold(s: C.IndexShard)
    requires s.Valid() && OnlyUpdates(s.log)
    ensures ShardDocs(AbsOf(s)) == W.Fold(s.base, s.log)
  {
    WorksFacts(s);
    hide C.Recoverable, W.AllBlank, W.Fold, Contents;
    var c := s.Committed();
    assert s.log == s.log[..c] + s.log[c..];
    W.FoldConcat(s.base, s.log[..c], s.log[c..]);
    ContentsIsFold(s.committed, s.log[c..]);
  }

  /** Between two chunks, the second-level shards hold each stored document of the abstract
      shard in exactly one copy, and nothing else. */
  lemma StoredIsExact(s: C.IndexShard)
    requires s.Works() && !s.Interrupted()
    ensures forall id :: W.Exact(s.shards, Find(AbsOf(s).stored, id), id)
  {
    hide W.Exact, W.AllBlank, W.Replayable;
    W.SameSettles(s.clean, s.shards, s.committed, s.log[s.Committed()..]);
  }

  /** Logging a document, whatever the state of the log, is what the node's shard does: the
      entry is appended, or takes the place of a committed one that was lost. */
  method Write(s: C.IndexShard, id: W.DocId, doc: W.Doc)
    requires s.LogShape()
    modifies s`log, s`wal
    ensures s.LogShape() && AbsOf(s) == Logged(old(AbsOf(s)), id, doc)
    ensures old(s.Works() && OnlyUpdates(s.log)) ==> s.Works() && OnlyUpdates(s.log)
    ensures old(s.Holed()) ==> if |s.log| < s.Committed() then s.Holed() else s.Works()
  {
    hide C.Recoverable, C.Kept, W.AllBlank, W.Fold, Updates, C.IndexShard.Loggable, C.IndexShard.Holed;
    var e := Updating(id, doc);
    MoreUpdates(s.log, s.Committed(), e);
    if s.Works() && OnlyUpdates(s.log) {
      StreamOnly(s.log, e);
      s.StreamLoggable(e);
    }
    s.Write(e);
  }

  lemma StreamOnly(log: seq<W.Entry>, e: W.Entry)
    requires OnlyUpdates(log) && e == Updating(e.id, e.doc)
    ensures OnlyUpdates(log + [e]) && C.StreamEntry(e) && forall f | f in log :: C.StreamEntry(f)
  {
  }

  lemma MoreUpdates(log: seq<W.Entry>, c: nat, e: W.Entry)
    ensures Updates(Rest(log + [e], c)) == if c <= |log| then Updates(Rest(log, c)) + [(e.id, e.doc)] else []
    ensures c > |log| ==> Updates(Rest(log, c)) == []
  {
    if c <= |log| { assert (log + [e])[c..] == log[c..] + [e]; }
  }

  /** One round of consuming, whether or not the log could be synced: however often it is
      interrupted or fails, the node's shard moves some first entries of its log over at once.
      Only documents of entries that were committed or begun can have become unknown. */
  method ConsumeWAL(s: C.IndexShard, syncs: bool, truncates: bool, stores: bool, quiet: bool, over: bool)
    returns (updated: bool)
    requires s.listed && (s.Works() || s.Holed()) && OnlyUpdates(s.log)
    modifies s`redoRead, s`redoWrite, s`shards, s`clean, s`committed, s`stored, s`behind, s`wal, s`first, s`durable
    ensures s.log == old(s.log) && (old(s.Works()) ==> s.Works())
    ensures old(s.Works()) ==> ShardConsumed(old(AbsOf(s)), AbsOf(s))
    ensures old(s.Works()) ==>
              && |s.shards| == |s.clean| && s.stored <= |s.shards|
              && old(|s.shards|) == old(|s.clean|) && old(s.stored) <= old(|s.shards|)
              && old(s.Committed()) <= BegunTo(s) <= |s.log|
              && UnknownOf(s) <= old(UnknownOf(s)) + W.Ids(s.log[old(s.Committed())..BegunTo(s)])
    ensures old(s.Holed()) ==> s.Holed() && !updated && AbsOf(s) == old(AbsOf(s)).(synced := AbsOf(s).synced)
  {
    hide C.Recoverable, C.Kept, C.Elsewhere, C.Held, W.AllBlank, W.Fold, W.Settled, W.SameCopies, Contents, Updates;
    ghost var before, c, works := AbsOf(s), s.Committed(), s.Works();
    ghost var clean, stored := s.clean, s.stored;
    if works {
      WorksFacts(s);
      WorksIsSound(s);
    } else {
      HoledFacts(s);
    }
    updated := s.ConsumeWAL(syncs, truncates, stores, quiet, over);
    if works {
      WorksFacts(s);
      WorksIsSound(s);
      MovesOver(s.log, c, s.Committed() - c, before, AbsOf(s));
      BegunFacts(s);
      UnknownGrows(s, clean, stored, c);
    } else {
      HoledFacts(s);
    }
  }

  lemma HoledFacts(s: C.IndexShard)
    requires s.Holed()
    ensures C.Held(s.behind) == {} && s.gone == {} && s.Pending() < 0
  {
    hide W.AllBlank, W.Settled, W.SameCopies, C.Held;
    C.HeldNothing(s.behind);
  }

  lemma BegunFacts(s: C.IndexShard)
    requires s.Works()
    ensures |s.shards| == |s.clean| && s.Committed() <= BegunTo(s) <= |s.log|
    ensures C.Elsewhere(s.clean, s.shards, W.Ids(s.log[s.Committed()..BegunTo(s)]))
    ensures C.Elsewhere(s.shards, s.clean, W.Ids(s.log[s.Committed()..BegunTo(s)]))
  {
    hide C.Recoverable, C.Elsewhere, W.AllBlank;
    WorksFacts(s);
    C.BegunElsewhere(s.committed, s.log, s.Committed(), s.Attempt(), s.clean, s.shards, s.batchSize);
    assert s.log[s.Committed()..s.Committed()] == [] && W.Ids([]) == {};
  }

  lemma UnknownGrows(s: C.IndexShard, clean: seq<W.Shard>, stored: nat, c: nat)
    requires s.Works() && stored <= |clean| && c <= s.Committed() <= BegunTo(s) <= |s.log|
    requires |s.shards| == |s.clean| && s.stored <= |s.shards|
    requires C.Elsewhere(clean, s.clean, W.Ids(s.log[c..s.Committed()]))
    requires C.Elsewhere(s.clean, s.shards, W.Ids(s.log[s.Committed()..BegunTo(s)]))
    requires s.stored == |s.shards| || s.stored == stored
    requires |clean| <= |s.clean| && W.AllBlank(s.clean[|clean|..])
    ensures UnknownOf(s) <= C.Held(clean[stored..]) + W.Ids(s.log[c..BegunTo(s)])
  {
    hide C.Recoverable, C.Elsewhere, C.Held, W.AllBlank, W.Ids;
    C.IdsOn(s.log, c, s.Committed(), BegunTo(s));
    if s.stored == |s.shards| {
      assert s.shards[s.stored..] == [] && s.clean[s.stored..] == [];
      C.HeldNothing([]);
      NothingBlank();
    } else {
      var done, begun := W.Ids(s.log[c..s.Committed()]), W.Ids(s.log[s.Committed()..BegunTo(s)]);
      C.HeldElsewhere(clean, s.clean, done, stored);
      assert s.clean[stored..] == s.clean[stored..|clean|] + s.clean[|clean|..];
      C.HeldBoth(s.clean[stored..|clean|], s.clean[|clean|..]);
      C.HeldNothing(s.clean[|clean|..]);
      C.HeldElsewhere(s.clean, s.shards, begun, stored);
      assert s.shards[stored..|s.clean|] == s.shards[stored..];
    }
  }

  /** Committing k more entries. */
  lemma MovesOver(log: seq<W.Entry>, c: nat, k: nat, was: Shard, now: Shard)
    requires c + k <= |log| && OnlyUpdates(log)
    requires was.wal == Updates(Rest(log, c)) && now.wal == Updates(Rest(log, c + k))
    requires was.hole == now.hole == 0 && was.behind == now.behind && was.begun <= |was.wal| && now.begun <= |now.wal|
    requires now.stored == W.Fold(was.stored, log[c..c + k]) && was.synced - k <= now.synced <= |log| - c - k
    ensures ShardConsumed(was, now)
  {
    hide W.Fold, Contents;
    var chunk := log[c..c + k];
    ContentsIsFold(was.stored, chunk);
    assert Updates(log[c..])[..k] == Updates(chunk);
    assert Updates(log[c + k..]) == Updates(log[c..])[k..];
    assert MayConsume(was, k, now.synced, now.begun);
    assert now == ConsumedTo(was, k, now.synced, now.begun);
  }

  /** A crash is a crash of the node's shard. The shard is lost exactly when that is not sound. */
  method Crash(s: C.IndexShard, keep: nat, synced: nat) returns (lost: bool)
    requires s.Works() && OnlyUpdates(s.log) && s.durable <= synced <= keep <= s.LastIndex() && s.first <= keep + 1
    modifies s`log, s`wal, s`durable, s`shards, s`clean, s`behind, s`committed, s`gone, s`listed
    ensures |old(s.shards)| == |old(s.clean)| && old(s.stored) <= |old(s.shards)|
    ensures ShardCrashed(old(AbsOf(s)), old(UnknownOf(s)), AbsOf(s))
    ensures lost <==> !Sound(AbsOf(s))
    ensures s.Works() <==> !lost
  {
    hide C.Recoverable, C.Kept, C.Held, C.Left, W.AllBlank, W.NamesBelow, W.Fold, Updates, Contents, ShardCrashed;
    hide C.IndexShard.Holed, C.IndexShard.Survives, C.IndexShard.Safe, OnlyUpdates;
    WorksFacts(s);
    WorksIsSound(s);
    ghost var was, ids, c := AbsOf(s), UnknownOf(s), s.Committed();
    ghost var sh, cl, bh, l := s.shards[s.stored..], s.clean[s.stored..], s.behind, s.log;
    CutUpdates(s.log, c, keep);
    C.HeldBoth(sh, bh);
    SurvivesWhen(s, keep);
    lost := s.Crash(keep, synced);
    LeftIs(was.stored, cl);
    assert BegunTo(s) == old(BegunTo(s));
    Crashes(was, ids, keep - c, synced - c, C.Held(cl), AbsOf(s));
  }

  /** What a crash must leave, in terms of the node's shard. */
  lemma SurvivesWhen(s: C.IndexShard, keep: nat)
    requires s.Works() && OnlyUpdates(s.log) && keep <= s.LastIndex() && s.first <= keep + 1
    ensures |s.shards| == |s.clean| && s.stored <= |s.shards| && C.Held(s.behind) == {} && s.gone == {}
    ensures s.Survives(keep) <==>
              && s.Committed() <= keep && BegunTo(s) <= keep
              && C.Held(s.shards[s.stored..]) == {} && C.Held(s.clean[s.stored..]) == {}
  {
    hide C.Recoverable, C.Held, W.AllBlank, W.NamesBelow;
    WorksFacts(s);
    C.HeldNothing(s.behind);
    C.HeldNothing(s.shards[s.stored..]);
    C.HeldNothing(s.clean[s.stored..]);
    if s.Committed() <= keep { NoneNamed(s, keep); }
  }

  lemma LeftIs(m: map<W.DocId, W.Doc>, cut: seq<W.Shard>)
    ensures C.Left(m, cut) == m - C.Held(cut)
  {
    hide C.Held;
  }

  /** Documents of the stream name no second-level shard. */
  lemma NoneNamed(s: C.IndexShard, keep: nat)
    requires s.Works() && OnlyUpdates(s.log) && keep <= |s.log| && s.first <= keep + 1 && s.Committed() <= keep
    ensures s.first <= s.Committed() + 1 && keep + 1 - s.first <= |s.wal|
    ensures W.NamesBelow(s.wal[s.Committed() + 1 - s.first..keep + 1 - s.first], s.stored)
  {
    hide C.Recoverable, W.AllBlank;
    forall i | s.Committed() + 1 - s.first <= i < keep + 1 - s.first
      ensures s.wal[i].group < s.stored
    {
      assert s.wal[i] == s.log[s.first - 1 + i] && s.log[s.first - 1 + i] in s.log;
    }
  }

  lemma Crashes(was: Shard, ids: set<W.DocId>, keep: int, synced: int, gone: set<W.DocId>, now: Shard)
    requires Sound(was) && was.synced <= synced <= keep <= |was.wal| && gone <= ids
    requires now.stored == was.stored - gone && now.wal == (if keep > 0 then was.wal[..keep] else [])
    requires now.synced == synced && now.begun == was.begun && now.hole == (if keep < 0 then -keep else 0)
    requires now.behind == was.behind + ids
    ensures ShardCrashed(was, ids, now)
  {
    assert now == CrashedTo(was, ids, keep, synced, gone);
  }

  lemma CutUpdates(log: seq<W.Entry>, c: nat, keep: nat)
    requires c <= |log| && keep <= |log|
    ensures Updates(Rest(log[..keep], c)) == if keep > c then Updates(Rest(log, c))[..keep - c] else []
    ensures OnlyUpdates(log) ==> OnlyUpdates(log[..keep])
  {
  }
}
