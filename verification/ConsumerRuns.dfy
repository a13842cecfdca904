/** Whole runs of a consuming node: what every run keeps, and the runs on which a node loses
    what it had. */
module ConsumerRuns {
  import opened Wrappers
  import opened Replication
  import opened NodeDisk
  import opened NodeInvariant
  import opened StreamConsumer

  /** A node restored from a good backup, taken at an offset although a failed step may have
      left data beyond it, reaches the same state as a node that never stopped. */
  lemma RestoredNodeConverges(h: Hash, n: nat, stream: seq<Message>, b: Backup, q: nat)
    requires b.offset <= |stream| && CleanRun(map[], StreamOps(1, stream))
    requires GoodBackup(h, n, StreamOps(1, stream), b, Pos(stream, b.offset), q)
    ensures Exact(ViewOf(h, RestoredDisk(n, b)), StreamOps(1, stream)[Pos(stream, b.offset)..])
            == ApplyAll(map[], 1, stream)
  {
    CatchUp(map[], StreamOps(1, stream), ViewOf(h, RestoredDisk(n, b)), Pos(stream, b.offset), q);
  }

  /** Every run: whatever is published, trimmed, fetched, fails, crashes, is consumed, backed up
      and restored, in any order and any number of times. A node that was not lost, did not go
      on past a save that lied, and that the stream was not trimmed away from, becomes exact
      once the rest is fetched without failures. It can be lost only if a store of metadata or
      a sync of the log consumer failed, or a message was rejected after it changed a mapping;
      and it can go on past a save that lied only if there was one. */
  method AnyRun(hash: Hash, shardNum: nat, stream: seq<Message>, syncing: bool, storing: bool, honest: bool)
    returns (c: Consumer, lost: bool, astray: bool)
    requires shardNum > 0 && CleanRun(map[], StreamOps(1, stream))
    ensures fresh(c) && c.stream == stream
    ensures syncing && storing && TidyRun(map[], StreamOps(1, stream)) ==> !lost
    ensures honest ==> !astray
    ensures !lost && !astray ==> c.Valid()
    ensures !lost && !astray && c.first <= c.applied + 1 ==>
              c.saved == |stream| && c.View() == ApplyAll(map[], 1, stream)
  {
    hide Holds, MetaFits, NodeInvariant.Guarded, Settled, CleanRun, TidyRun, Pos, StreamOps;
    c := new Consumer(hash, shardNum, stream);
    ghost var careful := syncing && storing && TidyRun(map[], StreamOps(1, stream));
    lost, astray := false, false;
    var steps: nat := *;
    while steps > 0 && !lost && !astray
      invariant fresh(c) && c.stream == stream && c.hash == hash && c.shardNum == shardNum
      invariant (careful ==> !lost) && (honest ==> !astray)
      invariant !lost && !astray ==> c.Standing() && c.applied <= c.saved && (honest ==> c.applied == c.saved)
      invariant careful ==> c.Guarded() && c.Current(c.at)
    {
      steps := steps - 1;
      if c.applied < c.saved {
        // the node does not know that its offset was saved
        if * { c.Reload(); } else { astray := true; }
      } else {
        c, lost := Anything(c, syncing, storing, honest);
      }
    }
    if lost || astray { return; }
    c.Reload();
    c.Publish(|stream| - c.published);
    if c.first <= c.applied + 1 && c.applied < |stream| {
      var ok, crashed;
      ok, crashed, lost := c.RunOnce(|stream| + 1, true, syncing, storing, true);
    }
    if c.applied == |stream| { c.FinishedIsExact(); }
  }

  /** One event in the life of a node that stands at its offset. */
  method Anything(node: Consumer, syncing: bool, storing: bool, honest: bool) returns (c: Consumer, lost: bool)
    requires node.Valid() && node.shardNum > 0 && CleanRun(map[], StreamOps(1, node.stream))
    modifies node
    ensures c == node || fresh(c)
    ensures c.stream == node.stream && c.hash == node.hash && c.shardNum == node.shardNum
    ensures !lost ==> c.Standing() && c.applied <= c.saved && (honest ==> c.applied == c.saved)
    ensures syncing && storing && old(node.Guarded() && node.Current(node.at)) ==>
              !lost && c.Guarded() && c.Current(c.at)
  {
    hide Holds, MetaFits, NodeInvariant.Guarded, Settled, Enduring, GoodBackup, RestoredDisk, CleanRun, TidyRun;
    hide Lasting, SoundAll, Pos, StreamOps;
    c, lost := node, false;
    if c.Current(c.at) { c.CurrentIsTidy(c.at); }
    if * {
      var n: nat, quiet: bool := *, *;
      var ok, crashed;
      ok, crashed, lost := c.RunOnce(n, quiet, syncing, storing, honest);
    } else if * {
      c.GuardedIsDurable();
      lost := c.Crash(c.at, c.at);
    } else if * {
      c.Background(syncing, storing, c.at, c.at);
    } else if * {
      c.DropCursor();
    } else if * {
      var n: nat := *;
      if c.published + n <= |c.stream| { c.Publish(n); }
    } else if * {
      c.Trims(false);
    } else {
      c.Drain();
      c.GuardedIsDurable();
      var b, good := c.CreateBackup();
      if b.Some? && good {
        c := new Consumer.Restore(c.hash, c.shardNum, c.stream, b.value, c.high, c.first, c.published);
      } else if b.Some? {
        // a node restored from this backup would be lost
        lost := true;
      }
    }
  }
}
