/** The buffer of the publisher's model is the buffer on disk (pkg/coordinator/publisher.go,
    pkg/coordinator/buffer/buffer.go). */
module BufferedPublisher {
  import opened Wrappers
  import D = DiskBuffer
  import P = Publisher

  /** An ID as text. */
  function Text(id: D.Bytes): (s: string)
    ensures |s| == |id|
  {
    seq(|id|, i requires 0 <= i < |id| => id[i] as char)
  }

  /** An entry as a message: its size is that of its ID and its data. */
  function MsgOf(e: D.Entry): P.Msg { P.Msg(Text(e.id), |e.id| + |e.data|) }

  function ItemsOf(queue: seq<D.Item>): (items: seq<P.Item>)
    ensures |items| == |queue|
    ensures forall i | 0 <= i < |items| :: items[i] == P.Item(queue[i].num, MsgOf(queue[i].entry))
  {
    seq(|queue|, i requires 0 <= i < |queue| => P.Item(queue[i].num, MsgOf(queue[i].entry)))
  }

  /** The buffer on disk holds what the publisher has buffered. */
  ghost predicate Backs(b: D.Buffer, s: P.State)
    reads b
  {
    b.Valid() && b.max == s.max && b.sequence == s.last && s.buffer == ItemsOf(b.queue)
  }

  /** What is buffered takes as many bytes as its IDs and data have. */
  lemma {:induction false} BytesAre(queue: seq<D.Item>)
    ensures P.Bytes(ItemsOf(queue)) == D.ItemsSize(queue)
    decreases |queue|
  {
    if queue != [] {
      var n := |queue| - 1;
      assert ItemsOf(queue)[..n] == ItemsOf(queue[..n]);
      BytesAre(queue[..n]);
    }
  }

  /** A new publisher begins with a new buffer. */
  method Open(max: nat) returns (b: D.Buffer)
    requires max > 0
    ensures fresh(b) && Backs(b, P.Start(max))
  {
    b := new D.Buffer(max);
  }

  /** Parking a message: refused for lack of room, or because the disk fails, exactly when the
      publisher refuses it. */
  method Append(b: D.Buffer, ghost s: P.State, e: D.Entry, commits: bool) returns (error: Option<D.Error>)
    requires Backs(b, s) && b.sequence + 1 < D.TWO_64 && s.publish.Parking? && s.publish.m == MsgOf(e)
    requires 0 !in e.id
    modifies b`items, b`sequence, b`count, b`bytes, b`queue
    ensures Backs(b, P.Next(s, P.Append(commits)))
    ensures error.None? <==> P.Next(s, P.Append(commits)).accepted == s.accepted + [MsgOf(e)]
    ensures error.None? <==> commits && P.Bytes(s.buffer) + |e.id| + |e.data| <= s.max
    ensures error == Some(D.Full) || error == Some(D.TooLarge) <==> P.Bytes(s.buffer) + |e.id| + |e.data| > s.max
  {
    hide D.Queue, D.Holds, D.ItemsSize, P.Bytes;
    ghost var queue := b.queue;
    D.SizesOfOne(e, 0);
    BytesAre(queue);
    error := b.Append([e], commits);
    assert [e][0] == e;
    assert ItemsOf(queue + D.Numbered([e], s.last)) == ItemsOf(queue) + [P.Item(s.last + 1, MsgOf(e))];
  }

  /** A round of the drain looks at the oldest 64 messages. */
  method Peek(b: D.Buffer, ghost s: P.State) returns (items: seq<D.Item>)
    requires Backs(b, s) && s.drain.Resting?
    ensures s.buffer != [] ==> P.Next(s, P.Peek).drain == P.Sends(ItemsOf(items), 0)
    ensures items == [] <==> s.buffer == []
  {
    items := b.Peek(64);
    assert ItemsOf(items) == s.buffer[..Min(64, |s.buffer|)];
  }

  /** What was acknowledged is removed. */
  method Remove(b: D.Buffer, ghost s: P.State, items: seq<D.Item>, acked: nat, commits: bool) returns (ok: bool)
    requires Backs(b, s) && s.drain.Removes? && s.drain.items == ItemsOf(items)
    requires 0 < s.drain.acked == acked <= |items|
    modifies b`items, b`count, b`bytes, b`queue
    ensures Backs(b, P.Next(s, P.Remove(commits))) && ok == commits
  {
    hide D.Queue, D.Holds, P.Holds, P.Next, P.Bytes, D.ItemsSize, ItemsOf;
    ghost var queue := b.queue;
    RemoveKeeps(s, commits);
    ok := b.Remove(items[acked - 1].num, commits);
    if ok {
      ghost var k :| 0 <= k <= |queue| && b.queue == queue[k..] && D.Splits(queue, k, items[acked - 1].num);
      RemoveIs(s, queue, items, k);
    }
  }

  lemma RemoveKeeps(s: P.State, commits: bool)
    requires s.drain.Removes? && 0 < s.drain.acked <= |s.drain.items|
    ensures var t := P.Next(s, P.Remove(commits));
            t.max == s.max && t.last == s.last && (!commits ==> t.buffer == s.buffer)
  {
  }

  lemma RemoveIs(s: P.State, queue: seq<D.Item>, items: seq<D.Item>, k: nat)
    requires s.buffer == ItemsOf(queue) && s.drain.Removes? && s.drain.items == ItemsOf(items)
    requires 0 < s.drain.acked <= |items| && k <= |queue| && D.Splits(queue, k, items[s.drain.acked - 1].num)
    ensures P.Next(s, P.Remove(true)).buffer == ItemsOf(queue[k..])
  {
    var upTo := items[s.drain.acked - 1].num;
    assert upTo == s.drain.items[s.drain.acked - 1].num;
    P.DropsPrefix(s.buffer, k, upTo);
    assert ItemsOf(queue[k..]) == ItemsOf(queue)[k..];
  }
}
