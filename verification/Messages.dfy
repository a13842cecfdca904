/** What messages mean for a client (pkg/streaming/apply.go): what each kind changes, and that
    documents without an ID never replace each other. */
module Messages {
  import opened Wrappers
  import opened Replication

  // ---------------------------------------------------------------- names

  /** A decimal number, read. */
  function NumberOf(s: string): int {
    if s == [] then 0 else 10 * NumberOf(s[..|s| - 1]) + (s[|s| - 1] as int - '0' as int)
  }

  lemma {:induction false} DigitsRead(n: nat)
    ensures NumberOf(Digits(n)) == n && Digits(n) != []
    ensures forall c | c in Digits(n) :: '0' <= c <= '9'
    decreases n
  {
    if n < 10 {
      assert Digits(n)[..0] == [];
    } else {
      DigitsRead(n / 10);
      DigitsRead(n % 10);
      assert Digits(n)[..|Digits(n)| - 1] == Digits(n / 10);
    }
  }

  /** The two numbers of a batch name can be told apart. */
  lemma PartsDiffer(a: string, b: string, c: string, d: string)
    requires a + "-" + b == c + "-" + d && '-' !in a && '-' !in c
    ensures a == c && b == d
  {
    var s, t := a + "-" + b, c + "-" + d;
    assert s[|a|] == '-' && t[|c|] == '-';
    assert a == s[..|a|] && c == t[..|c|] && b == s[|a| + 1..] && d == t[|c| + 1..];
  }

  /** Documents without an ID get different names exactly when they have different places in
      the stream; an ID that was given is kept. */
  lemma NamesDiffer(a: nat, i: nat, b: nat, j: nat)
    ensures DocName(a, "") == DocName(b, "") <==> a == b
    ensures BatchDocName(a, i, "") == BatchDocName(b, j, "") <==> a == b && i == j
    ensures DocName(a, "") != BatchDocName(b, j, "")
    ensures forall id | id != "" :: DocName(a, id) == id && BatchDocName(a, i, id) == id
  {
    DigitsRead(a);
    DigitsRead(b);
    DigitsRead(i);
    DigitsRead(j);
    hide Digits;
    var s, t := "seq-" + Digits(a), "seq-" + Digits(b);
    assert s[4..] == Digits(a) && t[4..] == Digits(b);
    var x, y := "seq-" + Digits(a) + "-" + Digits(i), "seq-" + Digits(b) + "-" + Digits(j);
    assert x[4..] == Digits(a) + "-" + Digits(i) && y[4..] == Digits(b) + "-" + Digits(j);
    if x == y { PartsDiffer(Digits(a), Digits(i), Digits(b), Digits(j)); }
    assert s != y by {
      assert y[4..][|Digits(b)|] == '-' && '-' !in s[4..];
    }
  }

  // ---------------------------------------------------------------- what a message changes

  lemma OneMessage(v: View, seqNo: nat, m: Message)
    ensures ApplyAll(v, seqNo, [m]) == Exact(v, OpsOf(seqNo, m))
  {
    assert [m][..0] == [] && StreamOps(seqNo, []) == [];
    assert StreamOps(seqNo, [m]) == [] + OpsOf(seqNo, m) == OpsOf(seqNo, m);
  }

  /** A message that can never be applied changes nothing; a deletion removes the index; a
      create_index is ignored where the index exists. */
  lemma IndexMessages(v: View, seqNo: nat, m: Message)
    ensures var v' := ApplyAll(v, seqNo, [m]);
            && (m.Permanent? ==> v' == v)
            && (m.DeleteIndex? ==> v' == v - {m.index})
            && (m.CreateIndex? ==> v' == if m.index in v then v else v[m.index := IndexState(m.mapping, map[])])
  {
    OneMessage(v, seqNo, m);
    if m.DeleteIndex? { OneOp(v, Drop(m.index)); }
    if m.CreateIndex? { OneOp(v, Create(m.index, m.mapping)); }
  }

  /** A mapping is merged into the one present, or into that of a new index, unless some field
      is mapped differently; then it changes no definition. The documents stay. */
  lemma SetMappingMessage(v: View, seqNo: nat, x: Name, fields: Mapping)
    ensures var v' := ApplyAll(v, seqNo, [SetMapping(x, fields)]);
            && x in v' && v' == v[x := v'[x]] && v'[x].docs == (if x in v then v[x].docs else map[])
            && var m, m' := MappingAt(v, x), v'[x].mapping;
               if exists f :: f in fields && f in m && m[f] != fields[f] then m' == m
               else
                 && m'.Keys == m.Keys + fields.Keys
                 && (forall f | f in fields :: m'[f] == fields[f]) && forall f | f in m :: m'[f] == m[f]
  {
    OneMessage(v, seqNo, SetMapping(x, fields));
    TwoOps(v, Ensure(x), Extend(x, fields));
    assert ApplyAll(v, seqNo, [SetMapping(x, fields)]) == ApplyOp(ApplyOp(v, Ensure(x)), Extend(x, fields));
    hide ApplyAll, Exact, OpsOf, StreamOps;
    var u := ApplyOp(v, Ensure(x));
    assert u[x].mapping == MappingAt(v, x) && u == v[x := u[x]];
    MergedAll(u[x].mapping, fields);
    hide Merged;
  }

  lemma MergedAll(m: Mapping, fields: Mapping)
    ensures Agrees(m, fields) <==> !exists f :: f in fields && f in m && m[f] != fields[f]
    ensures Agrees(m, fields) ==>
              && Merged(m, fields).Keys == m.Keys + fields.Keys
              && (forall f | f in fields :: Merged(m, fields)[f] == fields[f])
              && forall f | f in m :: Merged(m, fields)[f] == m[f]
  {
  }

  lemma OneOp(v: View, op: Op)
    ensures Exact(v, [op]) == ApplyOp(v, op)
  {
    assert [op][..0] == [];
  }

  lemma TwoOps(v: View, a: Op, b: Op)
    ensures Exact(v, [a, b]) == ApplyOp(ApplyOp(v, a), b)
  {
    assert [a, b][..1] == [a];
    OneOp(v, a);
  }

  /** A message with one document stores exactly that document, under its ID or, without one,
      under a name after the message, unless a field does not fit. */
  lemma DocMessage(v: View, seqNo: nat, x: Name, id: DocId, doc: Doc)
    ensures var v' := ApplyAll(v, seqNo, [DocMsg(x, id, doc)]);
            && x in v' && v' == v[x := v'[x]] && (x in v ==> v[x].mapping.Keys <= v'[x].mapping.Keys)
            && var name := if id == "" then DocName(seqNo, "") else id;
               forall k :: DocAt(v', x, k) == if k == name && Accepts(MappingAt(v, x), doc) then Some(doc)
                                              else DocAt(v, x, k)
  {
    OneMessage(v, seqNo, DocMsg(x, id, doc));
    TwoOps(v, Ensure(x), Put(x, DocName(seqNo, id), doc));
    NamesDiffer(seqNo, 0, seqNo, 0);
    var put := Put(x, DocName(seqNo, id), doc);
    assert ApplyAll(v, seqNo, [DocMsg(x, id, doc)]) == ApplyOp(ApplyOp(v, Ensure(x)), put);
    hide ApplyAll, Exact, OpsOf, StreamOps, DocName, Accepts, Learn, Seen;
    var u := ApplyOp(v, Ensure(x));
    assert u[x].mapping == MappingAt(v, x) && u == v[x := u[x]];
    assert forall k :: DocAt(u, x, k) == DocAt(v, x, k);
    PutOne(u, x, DocName(seqNo, id), doc);
    hide ApplyOp;
  }

  lemma PutOne(v: View, x: Name, id: DocId, doc: Doc)
    requires x in v
    ensures var v' := ApplyOp(v, Put(x, id, doc));
            && x in v' && v' == v[x := v'[x]] && v[x].mapping.Keys <= v'[x].mapping.Keys
            && forall k :: DocAt(v', x, k) == if k == id && Accepts(v[x].mapping, doc) then Some(doc)
                                              else DocAt(v, x, k)
  {
    hide Accepts;
  }

  // ---------------------------------------------------------------- batches

  /** The view after the first n documents of a batch. */
  ghost function AfterDocs(v: View, seqNo: nat, x: Name, docs: seq<(DocId, Doc)>, n: nat): View
    requires n <= |docs|
  {
    ApplyAll(v, seqNo, [DocsMsg(x, docs[..n])])
  }

  lemma NextDoc(v: View, seqNo: nat, x: Name, docs: seq<(DocId, Doc)>, n: nat)
    requires n < |docs|
    ensures AfterDocs(v, seqNo, x, docs, n + 1) ==
            ApplyOp(AfterDocs(v, seqNo, x, docs, n), Put(x, BatchDocName(seqNo, n, docs[n].0), docs[n].1))
  {
    hide ApplyOp, ApplyAll, BatchOps, BatchDocName;
    OneMessage(v, seqNo, DocsMsg(x, docs[..n]));
    OneMessage(v, seqNo, DocsMsg(x, docs[..n + 1]));
    LongerBatch(seqNo, x, docs, n);
  }

  lemma LongerBatch(seqNo: nat, x: Name, docs: seq<(DocId, Doc)>, n: nat)
    requires n < |docs|
    ensures var ops := BatchOps(seqNo, x, docs[..n + 1], n + 1);
            && ops != [] && ops[..|ops| - 1] == BatchOps(seqNo, x, docs[..n], n)
            && ops[|ops| - 1] == Put(x, BatchDocName(seqNo, n, docs[n].0), docs[n].1)
  {
    hide BatchDocName;
    var ops := BatchOps(seqNo, x, docs[..n + 1], n + 1);
    assert ops[n + 1] == Put(x, BatchDocName(seqNo, n, docs[n].0), docs[n].1);
  }

  lemma NoDocs(v: View, seqNo: nat, x: Name, docs: seq<(DocId, Doc)>)
    ensures var v' := AfterDocs(v, seqNo, x, docs, 0);
            x in v' && v' == v[x := v'[x]] && forall id :: DocAt(v', x, id) == DocAt(v, x, id)
  {
    OneMessage(v, seqNo, DocsMsg(x, docs[..0]));
    assert BatchOps(seqNo, x, docs[..0], 0) == [Ensure(x)];
    OneOp(v, Ensure(x));
  }

  /** Document i of the batch fits the mapping that the documents before it leave. */
  ghost predicate Fitting(v: View, seqNo: nat, x: Name, docs: seq<(DocId, Doc)>, i: nat)
    requires i < |docs|
  {
    Accepts(MappingAt(AfterDocs(v, seqNo, x, docs, i), x), docs[i].1)
  }

  /** What a batch stores: each document that fits, under its ID or under a name of its own, the
      last of them where IDs repeat. Documents that do not fit are skipped; nothing else
      changes. */
  lemma {:induction false} BatchStores(v: View, seqNo: nat, x: Name, docs: seq<(DocId, Doc)>, n: nat)
    returns (names: seq<DocId>)
    requires n <= |docs|
    ensures |names| == n && forall i | 0 <= i < n :: names[i] == BatchDocName(seqNo, i, docs[i].0)
    ensures forall i | 0 <= i < n :: docs[i].0 != "" ==> names[i] == docs[i].0
    ensures forall i, j | 0 <= i < j < n :: docs[i].0 == docs[j].0 == "" ==> names[i] != names[j]
    ensures var v' := AfterDocs(v, seqNo, x, docs, n); x in v' && v' == v[x := v'[x]]
    ensures forall i | 0 <= i < n && Fitting(v, seqNo, x, docs, i) ::
              (forall j | i < j < n && names[j] == names[i] :: !Fitting(v, seqNo, x, docs, j)) ==>
                DocAt(AfterDocs(v, seqNo, x, docs, n), x, names[i]) == Some(docs[i].1)
    ensures forall id ::
              (forall i | 0 <= i < n && names[i] == id :: !Fitting(v, seqNo, x, docs, i)) ==>
                DocAt(AfterDocs(v, seqNo, x, docs, n), x, id) == DocAt(v, x, id)
    decreases n
  {
    hide AfterDocs, ApplyOp, Fitting, BatchDocName, DocAt;
    if n == 0 {
      NoDocs(v, seqNo, x, docs);
      return [];
    }
    var k := n - 1;
    var before := BatchStores(v, seqNo, x, docs, k);
    names := before + [BatchDocName(seqNo, k, docs[k].0)];
    NextDoc(v, seqNo, x, docs, k);
    OneDoc(v, seqNo, x, docs, k);
    forall i | 0 <= i < n
      ensures BatchDocName(seqNo, i, "") == BatchDocName(seqNo, k, "") ==> i == k
    {
      NamesDiffer(seqNo, i, seqNo, k);
    }
    NamesDiffer(seqNo, k, seqNo, k);
    assert forall i | 0 <= i < k :: names[i] == before[i];
  }

  /** One more document. */
  lemma OneDoc(v: View, seqNo: nat, x: Name, docs: seq<(DocId, Doc)>, n: nat)
    requires n < |docs| && x in AfterDocs(v, seqNo, x, docs, n)
    ensures var u, v' := AfterDocs(v, seqNo, x, docs, n), AfterDocs(v, seqNo, x, docs, n + 1);
            && x in v' && v' == u[x := v'[x]]
            && forall id :: DocAt(v', x, id) == if id == BatchDocName(seqNo, n, docs[n].0)
                                                   && Fitting(v, seqNo, x, docs, n) then Some(docs[n].1)
                                                else DocAt(u, x, id)
  {
    NextDoc(v, seqNo, x, docs, n);
    hide AfterDocs, BatchDocName, Accepts, Learn;
  }

  /** The names are different, so there are as many as documents. */
  lemma {:induction false} AsMany(names: seq<DocId>)
    requires forall i, j | 0 <= i < j < |names| :: names[i] != names[j]
    ensures |set id | id in names| == |names|
    decreases |names|
  {
    if names != [] {
      var n := |names| - 1;
      AsMany(names[..n]);
      assert forall i | 0 <= i < n :: names[..n][i] == names[i];
      assert (set id | id in names) == (set id | id in names[..n]) + {names[n]};
      assert names[n] !in names[..n];
    }
  }

  /** A batch of documents without IDs, all of which fit, adds as many documents as it has, each
      under a name that nothing else in the batch has. */
  lemma UnnamedBatch(v: View, seqNo: nat, x: Name, docs: seq<(DocId, Doc)>) returns (names: seq<DocId>)
    requires x !in v && forall i | 0 <= i < |docs| :: docs[i].0 == "" && Fitting(v, seqNo, x, docs, i)
    ensures |names| == |docs| && forall i, j | 0 <= i < j < |names| :: names[i] != names[j]
    ensures var v' := ApplyAll(v, seqNo, [DocsMsg(x, docs)]);
            && x in v' && v' == v[x := v'[x]] && |v'[x].docs| == |docs|
            && forall i | 0 <= i < |docs| :: names[i] in v'[x].docs && v'[x].docs[names[i]] == docs[i].1
  {
    hide ApplyAll, Fitting, BatchDocName;
    names := BatchStores(v, seqNo, x, docs, |docs|);
    assert docs[..|docs|] == docs;
    var v' := ApplyAll(v, seqNo, [DocsMsg(x, docs)]);
    assert AfterDocs(v, seqNo, x, docs, |docs|) == v';
    forall i | 0 <= i < |docs|
      ensures DocAt(v', x, names[i]) == Some(docs[i].1)
    {
    }
    forall id | id !in names
      ensures DocAt(v', x, id) == None
    {
      assert DocAt(v, x, id) == None;
    }
    assert v'[x].docs.Keys == set id | id in names;
    AsMany(names);
  }

  // ---------------------------------------------------------------- a stream of documents

  function DocsIn(m: Message): nat { if m.DocMsg? then 1 else if m.DocsMsg? then |m.docs| else 0 }

  function CountDocs(msgs: seq<Message>): nat {
    if msgs == [] then 0 else CountDocs(msgs[..|msgs| - 1]) + DocsIn(msgs[|msgs| - 1])
  }

  /** A message of documents for index x without IDs, all of which fit. */
  ghost predicate Unnamed(v: View, seqNo: nat, x: Name, m: Message) {
    if m.DocMsg? then m.index == x && m.id == "" && Accepts(MappingAt(v, x), m.doc)
    else
      && m.DocsMsg? && m.index == x
      && forall i | 0 <= i < |m.docs| :: m.docs[i].0 == "" && Fitting(v, seqNo, x, m.docs, i)
  }

  /** The name comes from message n. */
  ghost predicate NameFrom(id: DocId, n: nat) {
    id == DocName(n, "") || exists i: nat :: id == BatchDocName(n, i, "")
  }

  lemma OtherNames(id: DocId, a: nat, b: nat)
    requires NameFrom(id, a) && NameFrom(id, b)
    ensures a == b
  {
    var i: nat :| id == DocName(a, "") || id == BatchDocName(a, i, "");
    var j: nat :| id == DocName(b, "") || id == BatchDocName(b, j, "");
    NamesDiffer(a, i, b, j);
    NamesDiffer(b, j, a, i);
  }

  /** One message adds its documents and replaces none. */
  lemma AddsDocs(v: View, seqNo: nat, x: Name, m: Message)
    requires Unnamed(v, seqNo, x, m)
    requires forall id :: DocAt(v, x, id).Some? ==> !NameFrom(id, seqNo)
    ensures var v' := ApplyAll(v, seqNo, [m]);
            && x in v' && |KeysOf(v', x)| == |KeysOf(v, x)| + DocsIn(m)
            && (forall id | DocAt(v, x, id).Some? :: DocAt(v', x, id) == DocAt(v, x, id))
            && forall id | DocAt(v', x, id).Some? :: DocAt(v, x, id).Some? || NameFrom(id, seqNo)
  {
    hide ApplyAll, Fitting, BatchDocName, DocName, Accepts;
    var v' := ApplyAll(v, seqNo, [m]);
    var names: seq<DocId>;
    if m.DocMsg? {
      DocMessage(v, seqNo, x, "", m.doc);
      names := [DocName(seqNo, "")];
      assert NameFrom(names[0], seqNo);
    } else {
      names := BatchStores(v, seqNo, x, m.docs, |m.docs|);
      assert m.docs[..|m.docs|] == m.docs;
      assert AfterDocs(v, seqNo, x, m.docs, |m.docs|) == v';
      forall i | 0 <= i < |names|
        ensures NameFrom(names[i], seqNo)
      {
        assert names[i] == BatchDocName(seqNo, i, "");
      }
    }
    hide NameFrom;
    KeysGrow(v, v', x, names);
  }

  function KeysOf(v: View, x: Name): set<DocId> { if x in v then v[x].docs.Keys else {} }

  lemma KeysGrow(v: View, v': View, x: Name, names: seq<DocId>)
    requires forall i, j | 0 <= i < j < |names| :: names[i] != names[j]
    requires forall i | 0 <= i < |names| :: DocAt(v, x, names[i]) == None && DocAt(v', x, names[i]).Some?
    requires forall id | id !in names :: DocAt(v', x, id) == DocAt(v, x, id)
    ensures |KeysOf(v', x)| == |KeysOf(v, x)| + |names|
  {
    hide KeysOf, DocAt;
    var added := set id | id in names;
    AsMany(names);
    forall id
      ensures id in KeysOf(v', x) <==> id in KeysOf(v, x) || id in names
      ensures id in names ==> id !in KeysOf(v, x)
    {
      KeyIs(v, x, id);
      KeyIs(v', x, id);
      if id in names {
        var i :| 0 <= i < |names| && names[i] == id;
      }
    }
    SizesAdd(KeysOf(v, x), added, KeysOf(v', x));
  }

  lemma SizesAdd(a: set<DocId>, b: set<DocId>, c: set<DocId>)
    requires a !! b && forall id :: id in c <==> id in a || id in b
    ensures |c| == |a| + |b|
  {
    assert c == a + b;
  }

  lemma KeyIs(v: View, x: Name, id: DocId)
    ensures id in KeysOf(v, x) <==> DocAt(v, x, id).Some?
  {
  }

  /** A stream of documents without IDs: whatever the messages and however they are batched, the
      index has as many documents as were sent, each named after the message that brought it. */
  lemma {:induction false} AllStored(first: nat, msgs: seq<Message>, x: Name)
    requires forall n: nat | n < |msgs| :: Unnamed(ApplyAll(map[], first, msgs[..n]), first + n, x, msgs[n])
    ensures var v := ApplyAll(map[], first, msgs);
            && (msgs != [] ==> x in v) && |KeysOf(v, x)| == CountDocs(msgs)
            && forall id | DocAt(v, x, id).Some? :: exists n :: first <= n < first + |msgs| && NameFrom(id, n)
    decreases |msgs|
  {
    hide *;
    if msgs == [] {
      NoMessages(first, x);
    } else {
      var n := |msgs| - 1;
      var before := msgs[..n];
      forall i: nat | i < n
        ensures before[i] == msgs[i] && before[..i] == msgs[..i]
      {
      }
      AllStored(first, before, x);
      LastMessage(first, msgs);
      LastCount(msgs);
      LastAdds(ApplyAll(map[], first, before), first, n, x, msgs[n]);
    }
  }

  lemma NoMessages(first: nat, x: Name)
    ensures CountDocs([]) == 0 && KeysOf(ApplyAll(map[], first, []), x) == {}
    ensures forall id :: DocAt(ApplyAll(map[], first, []), x, id) == None
  {
  }

  lemma LastCount(msgs: seq<Message>)
    requires msgs != []
    ensures CountDocs(msgs) == CountDocs(msgs[..|msgs| - 1]) + DocsIn(msgs[|msgs| - 1])
  {
  }

  /** Message n comes after documents of earlier messages. */
  lemma LastAdds(v: View, first: nat, n: nat, x: Name, m: Message)
    requires Unnamed(v, first + n, x, m)
    requires forall id | DocAt(v, x, id).Some? :: exists k :: first <= k < first + n && NameFrom(id, k)
    ensures var v' := ApplyAll(v, first + n, [m]);
            && x in v' && |KeysOf(v', x)| == |KeysOf(v, x)| + DocsIn(m)
            && (forall id | DocAt(v, x, id).Some? :: DocAt(v', x, id) == DocAt(v, x, id))
            && forall id | DocAt(v', x, id).Some? :: exists k :: first <= k < first + n + 1 && NameFrom(id, k)
  {
    hide Unnamed, NameFrom, DocsIn, KeysOf, ApplyAll, DocAt;
    forall id | DocAt(v, x, id).Some?
      ensures !NameFrom(id, first + n)
    {
      var k :| first <= k < first + n && NameFrom(id, k);
      if NameFrom(id, first + n) { OtherNames(id, k, first + n); }
    }
    AddsDocs(v, first + n, x, m);
  }

  /** No document ever replaces an earlier one. */
  lemma {:induction false} NothingReplaced(first: nat, msgs: seq<Message>, x: Name, k: nat)
    requires k <= |msgs|
    requires forall n: nat | n < |msgs| :: Unnamed(ApplyAll(map[], first, msgs[..n]), first + n, x, msgs[n])
    ensures forall id | DocAt(ApplyAll(map[], first, msgs[..k]), x, id).Some? ::
              DocAt(ApplyAll(map[], first, msgs), x, id) == DocAt(ApplyAll(map[], first, msgs[..k]), x, id)
    decreases |msgs|
  {
    hide *;
    assert msgs[..|msgs|] == msgs;
    if k < |msgs| {
      var n := |msgs| - 1;
      var before := msgs[..n];
      forall i: nat | i <= n
        ensures before[..i] == msgs[..i] && (i < n ==> before[i] == msgs[i])
      {
      }
      NothingReplaced(first, before, x, k);
      AllStored(first, before, x);
      LastMessage(first, msgs);
      LastAdds(ApplyAll(map[], first, before), first, n, x, msgs[n]);
    }
  }

  lemma LastMessage(first: nat, msgs: seq<Message>)
    requires msgs != []
    ensures var n := |msgs| - 1;
            ApplyAll(map[], first, msgs) == ApplyAll(ApplyAll(map[], first, msgs[..n]), first + n, [msgs[n]])
  {
    hide ApplyOp, OpsOf, Exact;
    var n := |msgs| - 1;
    assert StreamOps(first, msgs) == StreamOps(first, msgs[..n]) + OpsOf(first + n, msgs[n]);
    hide StreamOps;
    ExactConcat(map[], StreamOps(first, msgs[..n]), OpsOf(first + n, msgs[n]));
    OneMessage(ApplyAll(map[], first, msgs[..n]), first + n, msgs[n]);
  }
}
