/** Splitting ingested documents into messages (pkg/coordinator/api.go). */
module Ingest {
  import opened Wrappers

  /** A document and the size it is taken to have in a message. */
  datatype Doc = Doc(id: string, size: nat)

  datatype Limits = Limits(docs: int, bytes: int)

  function Bytes(docs: seq<Doc>): nat {
    if docs == [] then 0 else Bytes(docs[..|docs| - 1]) + docs[|docs| - 1].size
  }

  /** A message within the limits. One document is always allowed by its number. */
  predicate Fits(batch: seq<Doc>, limits: Limits) {
    |batch| <= Max(1, limits.docs) && Bytes(batch) <= limits.bytes
  }

  ghost predicate AllFit(batches: seq<seq<Doc>>, limits: Limits) {
    forall i | 0 <= i < |batches| :: batches[i] != [] && Fits(batches[i], limits)
  }

  /** The first document of each message would not have fitted in the one before. */
  ghost predicate Tight(batches: seq<seq<Doc>>, limits: Limits) {
    forall i, j | 0 <= i < |batches| && j == i + 1 < |batches| ::
      batches[j] != [] && !Fits(batches[i] + [batches[j][0]], limits)
  }

  lemma {:induction false} BytesConcat(a: seq<Doc>, b: seq<Doc>)
    ensures Bytes(a + b) == Bytes(a) + Bytes(b)
    decreases |b|
  {
    if b == [] {
      assert a + b == a;
    } else {
      assert (a + b)[..|a + b| - 1] == a + b[..|b| - 1];
      BytesConcat(a, b[..|b| - 1]);
    }
  }

  lemma BytesMore(a: seq<Doc>, d: Doc)
    ensures Bytes(a + [d]) == Bytes(a) + d.size
  {
    assert (a + [d])[..|a|] == a;
  }

  lemma FlattenMore(batches: seq<seq<Doc>>, b: seq<Doc>)
    ensures Flatten(batches + [b]) == Flatten(batches) + b
  {
    assert (batches + [b])[..|batches|] == batches;
  }

  /** A run of documents inside a message that fits would fit as well. */
  lemma RunFits(docs: seq<Doc>, i: nat, j: nat, k: nat, l: nat, limits: Limits)
    requires i <= j <= k <= l <= |docs| && Fits(docs[i..l], limits)
    ensures Fits(docs[j..k], limits)
  {
    assert docs[i..l] == docs[i..j] + docs[j..k] + docs[k..l];
    BytesConcat(docs[i..j] + docs[j..k], docs[k..l]);
    BytesConcat(docs[i..j], docs[j..k]);
  }

  /** The documents before the message j. */
  function Before(batches: seq<seq<Doc>>, j: nat): nat
    requires j <= |batches|
  {
    |Flatten(batches[..j])|
  }

  lemma {:induction false} MessageAt(batches: seq<seq<Doc>>, j: nat)
    requires j < |batches|
    ensures Before(batches, j + 1) == Before(batches, j) + |batches[j]| <= |Flatten(batches)|
    ensures Flatten(batches)[Before(batches, j)..Before(batches, j + 1)] == batches[j]
    decreases |batches|
  {
    var n := |batches| - 1;
    assert batches[..j + 1] == batches[..j] + [batches[j]];
    FlattenMore(batches[..j], batches[j]);
    if j < n {
      MessageAt(batches[..n], j);
      assert batches[..n][..j] == batches[..j] && batches[..n][..j + 1] == batches[..j + 1];
    } else {
      assert batches[..n + 1] == batches;
    }
  }

  /** A message from o to p cannot hold a whole message from i to k and the document after it,
      when those do not fit together. */
  lemma HoldsTooMuch(docs: seq<Doc>, o: nat, i: nat, k: nat, p: nat, limits: Limits)
    requires o <= i <= k < p <= |docs| && Fits(docs[o..p], limits)
    ensures Fits(docs[i..k] + [docs[k]], limits)
  {
    assert docs[i..k + 1] == docs[i..k] + [docs[k]];
    RunFits(docs, o, i, k + 1, p, limits);
  }

  /** No split that fits gets ahead of a tight one. */
  lemma {:induction false} TightLeads(batches: seq<seq<Doc>>, other: seq<seq<Doc>>, limits: Limits, j: nat)
    requires Tight(batches, limits) && AllFit(other, limits) && Flatten(other) == Flatten(batches)
    requires j <= |other| && j < |batches|
    ensures Before(other, j) <= Before(batches, j)
    decreases j
  {
    if j > 0 {
      assert batches[j] != [] && !Fits(batches[j - 1] + [batches[j][0]], limits);
      assert Fits(other[j - 1], limits);
      hide Tight, AllFit, Fits, Flatten, Before;
      TightLeads(batches, other, limits, j - 1);
      MessageAt(batches, j - 1);
      MessageAt(batches, j);
      MessageAt(other, j - 1);
      var docs, i, k := Flatten(batches), Before(batches, j - 1), Before(batches, j);
      var o, p := Before(other, j - 1), Before(other, j);
      assert docs[k..Before(batches, j + 1)][0] == docs[k];
      if p > k { HoldsTooMuch(docs, o, i, k, p, limits); }
    }
  }

  /** A tight split uses the fewest messages. */
  lemma TightIsFewest(batches: seq<seq<Doc>>, other: seq<seq<Doc>>, limits: Limits)
    requires Tight(batches, limits) && AllFit(other, limits) && Flatten(other) == Flatten(batches)
    requires forall i | 0 <= i < |batches| :: batches[i] != []
    ensures |batches| <= |other|
  {
    var n := |other|;
    if n < |batches| {
      TightLeads(batches, other, limits, n);
      assert other[..n] == other;
      MessageAt(batches, n);
      assert false;
    }
  }

  /** The messages for the documents, or None when one of them can never fit. */
  method Split(docs: seq<Doc>, limits: Limits) returns (split: Option<seq<seq<Doc>>>)
    requires docs != []
    ensures split == None <==> exists i :: 0 <= i < |docs| && docs[i].size > limits.bytes
    ensures split.Some? ==> Flatten(split.value) == docs
    ensures split.Some? ==> forall i | 0 <= i < |split.value| ::
              split.value[i] != [] && |split.value[i]| <= Max(1, limits.docs) && Bytes(split.value[i]) <= limits.bytes
    ensures split.Some? ==>
              forall other: seq<seq<Doc>> |
                Flatten(other) == docs && forall i | 0 <= i < |other| ::
                  other[i] != [] && |other[i]| <= Max(1, limits.docs) && Bytes(other[i]) <= limits.bytes ::
                |split.value| <= |other|
    ensures split.Some? ==> AllFit(split.value, limits)
  {
    hide Flatten, Bytes, AllFit, Tight, Fits;
    var batches: seq<seq<Doc>>, current: seq<Doc>, size := [], [], 0;
    Nothing();
    var i := 0;
    while i < |docs|
      invariant 0 <= i <= |docs| && Flatten(batches) + current == docs[..i]
      invariant forall j | 0 <= j < i :: docs[j].size <= limits.bytes
      invariant size == Bytes(current) && (i > 0 ==> current != []) && (i == 0 ==> current == [])
      invariant current != [] ==> AllFit(batches + [current], limits) && Tight(batches + [current], limits)
      invariant current == [] ==> batches == []
    {
      var d := docs[i];
      if d.size > limits.bytes { return None; }
      OneMoreDoc(batches, current, d, limits);
      if |current| > 0 && (|current| >= limits.docs || size + d.size > limits.bytes) {
        FlattenMore(batches, current);
        batches, current, size := batches + [current], [], 0;
      }
      BytesMore(current, d);
      assert current == [] ==> current + [d] == [d];
      current, size := current + [d], size + d.size;
      i := i + 1;
    }
    FlattenMore(batches, current);
    batches := batches + [current];
    assert docs[..i] == docs;
    NoneEmpty(batches, limits);
    forall other: seq<seq<Doc>> |
      Flatten(other) == docs && forall i | 0 <= i < |other| ::
        other[i] != [] && |other[i]| <= Max(1, limits.docs) && Bytes(other[i]) <= limits.bytes
      ensures |batches| <= |other|
    {
      AllFitIff(other, limits);
      TightIsFewest(batches, other, limits);
    }
    AllFitIff(batches, limits);
    split := Some(batches);
  }

  lemma AllFitIff(batches: seq<seq<Doc>>, limits: Limits)
    ensures AllFit(batches, limits) <==> forall i | 0 <= i < |batches| ::
              batches[i] != [] && |batches[i]| <= Max(1, limits.docs) && Bytes(batches[i]) <= limits.bytes
  {
  }

  lemma Nothing()
    ensures Flatten<Doc>([]) == [] && Bytes([]) == 0
  {
  }

  /** Either way of adding a document keeps the messages within the limits and tight. */
  lemma OneMoreDoc(batches: seq<seq<Doc>>, current: seq<Doc>, d: Doc, limits: Limits)
    requires d.size <= limits.bytes && (current == [] ==> batches == [])
    requires current != [] ==> AllFit(batches + [current], limits) && Tight(batches + [current], limits)
    ensures var close := |current| > 0 && (|current| >= limits.docs || Bytes(current) + d.size > limits.bytes);
            var after := if close then batches + [current] + [[d]] else batches + [current + [d]];
            AllFit(after, limits) && Tight(after, limits)
  {
    hide AllFit, Tight, Fits, Bytes;
    DocFits(current, d, limits);
    DocFits([], d, limits);
    NoBytes();
    assert [] + [d] == [d];
    if |current| > 0 && (|current| >= limits.docs || Bytes(current) + d.size > limits.bytes) {
      Closes(batches + [current], d, limits);
    } else {
      Extends(batches, current, d, limits);
    }
  }

  lemma DocFits(current: seq<Doc>, d: Doc, limits: Limits)
    ensures Fits(current + [d], limits) <==>
              |current| + 1 <= Max(1, limits.docs) && Bytes(current) + d.size <= limits.bytes
  {
    BytesMore(current, d);
  }

  lemma NoBytes()
    ensures Bytes([]) == 0
  {
  }

  lemma Closes(before: seq<seq<Doc>>, d: Doc, limits: Limits)
    requires before != [] && AllFit(before, limits) && Tight(before, limits)
    requires Fits([d], limits) && !Fits(before[|before| - 1] + [d], limits)
    ensures AllFit(before + [[d]], limits) && Tight(before + [[d]], limits)
  {
    hide Fits;
    var after := before + [[d]];
    forall i, j | 0 <= i < |after| && j == i + 1 < |after|
      ensures after[j] != [] && !Fits(after[i] + [after[j][0]], limits)
    {
      if j < |before| { assert after[i] == before[i] && after[j] == before[j]; }
    }
  }

  lemma Extends(batches: seq<seq<Doc>>, current: seq<Doc>, d: Doc, limits: Limits)
    requires current == [] ==> batches == []
    requires current != [] ==> AllFit(batches + [current], limits) && Tight(batches + [current], limits)
    requires Fits(current + [d], limits)
    ensures AllFit(batches + [current + [d]], limits) && Tight(batches + [current + [d]], limits)
  {
    hide Fits;
    var before, after := batches + [current], batches + [current + [d]];
    assert forall i | 0 <= i < |batches| :: after[i] == before[i];
    forall i, j | 0 <= i < |after| && j == i + 1 < |after|
      ensures after[j] != [] && !Fits(after[i] + [after[j][0]], limits)
    {
      assert before[j] != [] && !Fits(before[i] + [before[j][0]], limits);
      assert after[j][0] == before[j][0];
    }
  }

  lemma NoneEmpty(batches: seq<seq<Doc>>, limits: Limits)
    requires AllFit(batches, limits)
    ensures forall i | 0 <= i < |batches| :: batches[i] != []
  {
  }

  datatype Reply = Accepted | TooLarge | Failed

  /** Publishes the messages in order, until one is refused. refused tells which one would be.
      What was published is a prefix of the documents, and its length is reported. */
  method Publish(docs: seq<Doc>, limits: Limits, refused: Option<nat>)
    returns (reply: Reply, published: seq<seq<Doc>>, accepted: nat)
    requires docs != []
    ensures reply == TooLarge <==> exists i :: 0 <= i < |docs| && docs[i].size > limits.bytes
    ensures reply == TooLarge ==> published == []
    ensures accepted <= |docs| && Flatten(published) == docs[..accepted] && AllFit(published, limits)
    ensures reply == Accepted ==> accepted == |docs|
    ensures reply == Failed ==> refused.Some? && |published| == refused.value && accepted < |docs|
  {
    var split := Split(docs, limits);
    if split == None { return TooLarge, [], 0; }
    var batches := split.value;
    published, accepted := [], 0;
    var i := 0;
    while i < |batches|
      invariant 0 <= i <= |batches| && published == batches[..i]
      invariant accepted == |Flatten(published)| <= |docs| && Flatten(published) == docs[..accepted]
    {
      hide Flatten, Fits;
      PrefixOf(batches, i);
      if refused == Some(i) { return Failed, published, accepted; }
      published, accepted := published + [batches[i]], accepted + |batches[i]|;
      i := i + 1;
    }
    assert batches[..i] == batches;
    reply := Accepted;
  }

  lemma PrefixOf(batches: seq<seq<Doc>>, i: nat)
    requires i < |batches|
    ensures var docs, next := Flatten(batches), batches[..i] + [batches[i]];
            && next == batches[..i + 1] && |Flatten(batches[..i])| + |batches[i]| <= |docs|
            && (Flatten(batches[..i]) == docs[..|Flatten(batches[..i])|] ==>
                  |Flatten(next)| == |Flatten(batches[..i])| + |batches[i]| && Flatten(next) == docs[..|Flatten(next)|])
  {
    FlattenMore(batches[..i], batches[i]);
    MessageAt(batches, i);
    assert batches[..i + 1] == batches[..i] + [batches[i]];
  }
}
