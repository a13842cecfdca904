/** What a stream of messages means (pkg/streaming/apply.go), independent of crashes and
    redelivery, and the theory of nodes that are somewhere "between" two positions of it.

    A message is taken apart into operations, each of which the applier performs as a whole:
    a batch of documents may stop between two documents, but never inside one. */
module Replication {
  import opened Wrappers

  type Name = string
  type Field = string
  type DocId = string

  datatype Kind = Text | Keyword | Numeric | Bool | Date | Time

  /** The definition of one mapped field; options is the format of a date, for example. */
  datatype Prop = Prop(kind: Kind, options: string)

  /** What a JSON scalar looks like: a string that is no date, a date, a number or a boolean. */
  datatype Look = Word | Moment(layout: string) | Number | Flag

  /** readable has the definitions, beyond those that follow from its look, under which the
      scalar can be read: a word may be a number, a number may be a time. */
  datatype Scalar = Scalar(look: Look, text: string, readable: set<Prop>)

  /** A document field: one scalar, or an array of them. */
  datatype Value = Value(first: Scalar, more: seq<Scalar>) {
    /** The definition the node gives the field when it is not mapped yet. */
    function Natural(): Prop {
      match first.look
      case Word => Prop(Text, "")
      case Moment(layout) => Prop(Date, layout)
      case Number => Prop(Numeric, "")
      case Flag => Prop(Bool, "")
    }

    function All(): seq<Scalar> { [first] + more }
  }

  type Mapping = map<Field, Prop>
  type Doc = map<Field, Value>

  datatype IndexState = IndexState(mapping: Mapping, docs: map<DocId, Doc>)

  /** What a client of the node can observe: the indexes with their mapping and documents. */
  type View = map<Name, IndexState>

  datatype Message =
    | DocMsg(index: Name, id: DocId, doc: Doc)
    | DocsMsg(index: Name, docs: seq<(DocId, Doc)>)
    | CreateIndex(index: Name, mapping: Mapping)
    | DeleteIndex(index: Name)
    | SetMapping(index: Name, fields: Mapping)
    | Permanent  // undecodable, unknown kind or operation, bad index name, bad body

  datatype Op =
    | Ensure(index: Name)
    | Put(index: Name, id: DocId, doc: Doc)
    | Create(index: Name, mapping: Mapping)
    | Drop(index: Name)
    | Extend(index: Name, fields: Mapping)

  // ---------------------------------------------------------------- one operation

  /** Whether a scalar can be converted: anything to a string, numbers and booleans to each other. */
  predicate FitsOne(p: Prop, s: Scalar) {
    match p.kind
    case Text => true
    case Keyword => true
    case Numeric => s.look == Number || s.look == Flag || p in s.readable
    case Bool => s.look == Number || s.look == Flag || p in s.readable
    case _ => p in s.readable || (s.look.Moment? && p == Prop(Date, s.look.layout))
  }

  /** Every element of an array must fit. An array of mixed values need not fit its own
      definition, which its first element decides. */
  predicate Fits(p: Prop, v: Value) { FitsOne(p, v.first) && forall s | s in v.more :: FitsOne(p, s) }

  /** The definition a field is checked against: the mapped one, or the one it is given. */
  function DefinitionOf(m: Mapping, f: Field, v: Value): Prop { if f in m then m[f] else v.Natural() }

  predicate Accepts(m: Mapping, doc: Doc) {
    forall f | f in doc :: Fits(DefinitionOf(m, f, doc[f]), doc[f])
  }

  /** Dynamic mapping: the first definition of a field wins. */
  function Learn(m: Mapping, doc: Doc): Mapping {
    m + map f | f in doc && f !in m :: doc[f].Natural()
  }

  predicate Agrees(m: Mapping, fields: Mapping) {
    forall f | f in fields && f in m :: m[f] == fields[f]
  }

  function Merged(m: Mapping, fields: Mapping): Mapping { fields + m }

  /** A rejected document leaves the field behind for which it was rejected, if that was not mapped. */
  function ApplyOp(v: View, op: Op): View {
    match op
    case Ensure(x) => if x in v then v else v[x := IndexState(map[], map[])]
    case Put(x, id, doc) =>
      if x in v && Accepts(v[x].mapping, doc)
      then v[x := IndexState(Learn(v[x].mapping, doc), v[x].docs[id := doc])]
      else if x in v then v[x := v[x].(mapping := Seen(v[x].mapping, Naturals(doc), BadFields(v[x].mapping, doc)))]
      else v
    case Create(x, m) => if x in v then v else v[x := IndexState(m, map[])]
    case Drop(x) => v - {x}
    case Extend(x, fields) =>
      if x in v && Agrees(v[x].mapping, fields)
      then v[x := v[x].(mapping := Merged(v[x].mapping, fields))]
      else v
  }

  predicate Sub(a: Mapping, b: Mapping) {
    forall f | f in a :: f in b && a[f] == b[f]
  }

  function Naturals(doc: Doc): Mapping { map f | f in doc :: doc[f].Natural() }

  /** The fields for which a document, or a mapping, is rejected. */
  function BadFields(m: Mapping, doc: Doc): set<Field> {
    set f | f in doc && !Fits(DefinitionOf(m, f, doc[f]), doc[f])
  }

  function Conflicts(m: Mapping, fields: Mapping): set<Field> {
    set f | f in fields && f in m && m[f] != fields[f]
  }

  /** m with the definitions of the fields seen that it lacks. */
  function Seen(m: Mapping, defs: Mapping, seen: set<Field>): Mapping {
    m + map f | f in seen && f in defs && f !in m :: defs[f]
  }

  /** The fields are visited in map order until the first bad one. */
  ghost predicate StopsAfter(defs: Mapping, bad: set<Field>, seen: set<Field>, last: Field) {
    seen <= defs.Keys && last in seen && last in bad && forall f | f in seen && f in bad :: f == last
  }

  /** What a rejected document or mapping leaves behind. */
  ghost predicate LeftBehind(m: Mapping, defs: Mapping, bad: set<Field>, m': Mapping) {
    exists seen, last :: StopsAfter(defs, bad, seen, last) && m' == Seen(m, defs, seen)
  }

  lemma NothingLeft(m: Mapping, defs: Mapping, bad: set<Field>, m': Mapping)
    requires LeftBehind(m, defs, bad, m') && defs.Keys <= m.Keys
    ensures m' == m
  {
  }

  /** The outcomes one operation may have on a node. Only a rejected document or mapping
      leaves a choice. */
  ghost predicate OpStep(v: View, op: Op, v': View) {
    match op
    case Put(x, id, doc) =>
      if x in v && !Accepts(v[x].mapping, doc)
      then x in v' && v' == v[x := v'[x]] && v'[x].docs == v[x].docs
           && LeftBehind(v[x].mapping, Naturals(doc), BadFields(v[x].mapping, doc), v'[x].mapping)
      else v' == ApplyOp(v, op)
    case Extend(x, fields) =>
      if x in v && !Agrees(v[x].mapping, fields)
      then x in v' && v' == v[x := v'[x]] && v'[x].docs == v[x].docs
           && LeftBehind(v[x].mapping, fields, Conflicts(v[x].mapping, fields), v'[x].mapping)
      else v' == ApplyOp(v, op)
    case _ => v' == ApplyOp(v, op)
  }

  /** Every field that is not mapped is the only one that can stop the visit. */
  predicate Decided(m: Mapping, defs: Mapping, bad: set<Field>) {
    forall f, g | f in defs && f !in m && g in bad :: f == g
  }

  /** The operation is accepted; or it is rejected, and what it leaves behind does not depend
      on the order in which its fields are visited. */
  ghost predicate Clean(v: View, op: Op) {
    match op
    case Put(x, _, doc) =>
      x in v && (Accepts(v[x].mapping, doc) || Decided(v[x].mapping, Naturals(doc), BadFields(v[x].mapping, doc)))
    case Extend(x, fields) =>
      x in v && (Agrees(v[x].mapping, fields) || Decided(v[x].mapping, fields, Conflicts(v[x].mapping, fields)))
    case _ => true
  }

  /** The operation is accepted, or it is rejected and brings no field that is not mapped
      yet, so that rejecting it leaves nothing behind. */
  predicate Tidy(v: View, op: Op) {
    match op
    case Put(x, _, doc) => x in v && (Accepts(v[x].mapping, doc) || doc.Keys <= v[x].mapping.Keys)
    case Extend(x, fields) => x in v && (Agrees(v[x].mapping, fields) || fields.Keys <= v[x].mapping.Keys)
    case _ => true
  }

  // ---------------------------------------------------------------- runs

  /** Every operation applied once, in order. */
  function Exact(v0: View, ops: seq<Op>): View {
    if ops == [] then v0 else ApplyOp(Exact(v0, ops[..|ops| - 1]), ops[|ops| - 1])
  }

  ghost predicate CleanRun(v0: View, ops: seq<Op>) {
    forall k: nat | k < |ops| :: Clean(At(v0, ops, k), ops[k])
  }

  ghost predicate TidyRun(v0: View, ops: seq<Op>) {
    forall k: nat | k < |ops| :: Tidy(At(v0, ops, k), ops[k])
  }

  /** The exact view after the first k operations. */
  function At(v0: View, ops: seq<Op>, k: nat): View
    requires k <= |ops|
  {
    Exact(v0, ops[..k])
  }

  lemma AtNext(v0: View, ops: seq<Op>, k: nat)
    requires k < |ops|
    ensures At(v0, ops, k + 1) == ApplyOp(At(v0, ops, k), ops[k])
  {
    assert ops[..k + 1][..k] == ops[..k];
  }

  lemma {:induction false} ExactConcat(v0: View, a: seq<Op>, b: seq<Op>)
    ensures Exact(v0, a + b) == Exact(Exact(v0, a), b)
    decreases |b|
  {
    if b == [] {
      assert a + b == a;
    } else {
      ExactConcat(v0, a, b[..|b| - 1]);
      assert (a + b)[..|a + b| - 1] == a + b[..|b| - 1];
    }
  }

  lemma ExactFirst(v0: View, op: Op, rest: seq<Op>)
    ensures Exact(v0, [op] + rest) == Exact(ApplyOp(v0, op), rest)
  {
    ExactConcat(v0, [op], rest);
    assert [op][..0] == [];
  }

  predicate NoDrop(ops: seq<Op>, x: Name, p: nat, q: nat)
    requires p <= q <= |ops|
  {
    forall i | p <= i < q :: ops[i] != Drop(x)
  }

  /** Operation i stores document id of index x. */
  predicate Stores(v0: View, ops: seq<Op>, i: nat, x: Name, id: DocId)
    requires i < |ops|
  {
    && ops[i].Put? && ops[i].index == x && ops[i].id == id
    && x in At(v0, ops, i) && Accepts(At(v0, ops, i)[x].mapping, ops[i].doc)
  }

  predicate Stored(v0: View, ops: seq<Op>, x: Name, id: DocId, p: nat, q: nat)
    requires p <= q <= |ops|
  {
    exists i: nat :: p <= i < q && Stores(v0, ops, i, x, id)
  }

  function DocAt(v: View, x: Name, id: DocId): Option<Doc> {
    if x in v && id in v[x].docs then Some(v[x].docs[id]) else None
  }

  function MappingAt(v: View, x: Name): Mapping {
    if x in v then v[x].mapping else map[]
  }

  // ---------------------------------------------------------------- between two positions

  /** Operation b creates index x. */
  predicate Born(v0: View, ops: seq<Op>, b: nat, x: Name)
    requires b < |ops|
  {
    x !in At(v0, ops, b) && x in At(v0, ops, b + 1)
  }

  ghost function ShapeOf(v: View, x: Name): Option<Mapping> {
    if x in v then Some(v[x].mapping) else None
  }

  /** Index x, which has the mapping m or does not exist, lacks nothing that the first p
      operations define and has nothing that the first q operations do not. */
  predicate ShapeAt(v0: View, ops: seq<Op>, m: Option<Mapping>, p: nat, q: nat, x: Name)
    requires p <= q <= |ops|
  {
    var defs := if m.Some? then m.value else map[];
    && (x in At(v0, ops, p) ==> m.Some?)
    && (m.Some? ==> x in At(v0, ops, q))
    && Sub(MappingAt(At(v0, ops, p), x), defs)
    && Sub(defs, MappingAt(At(v0, ops, q), x))
    && (forall b: nat | p <= b < q && Born(v0, ops, b, x) && m.Some? :: Sub(MappingAt(At(v0, ops, b + 1), x), defs))
  }

  /** Index x of the node v is between positions p and q: it lacks nothing of the first p
      operations, holds nothing that is not part of the first q, and only documents that
      operations p..q store may differ from the exact ones. */
  ghost predicate BetweenAt(v0: View, ops: seq<Op>, v: View, p: nat, q: nat, x: Name)
    requires p <= q <= |ops|
  {
    && ShapeAt(v0, ops, ShapeOf(v, x), p, q, x)
    && (forall id | !Stored(v0, ops, x, id, p, q) :: DocAt(v, x, id) == DocAt(At(v0, ops, p), x, id))
  }

  /** The node v is between positions p and q. An index that is deleted on the way may be
      in any state: the deletion will wipe it. */
  ghost predicate Between(v0: View, ops: seq<Op>, v: View, p: nat, q: nat) {
    p <= q <= |ops| && forall x | NoDrop(ops, x, p, q) :: BetweenAt(v0, ops, v, p, q, x)
  }

  /** Without a deletion an index only gains, and documents that are not stored stay. */
  lemma {:induction false} Grows(v0: View, ops: seq<Op>, x: Name, p: nat, q: nat)
    requires p <= q <= |ops| && NoDrop(ops, x, p, q)
    ensures x in At(v0, ops, p) ==> x in At(v0, ops, q)
    ensures Sub(MappingAt(At(v0, ops, p), x), MappingAt(At(v0, ops, q), x))
    ensures forall id | !Stored(v0, ops, x, id, p, q) :: DocAt(At(v0, ops, q), x, id) == DocAt(At(v0, ops, p), x, id)
    decreases q - p
  {
    if p < q {
      Grows(v0, ops, x, p, q - 1);
      AtNext(v0, ops, q - 1);
      OneGrows(At(v0, ops, q - 1), ops[q - 1], x);
      hide ApplyOp, At;
      SubTrans(MappingAt(At(v0, ops, p), x), MappingAt(At(v0, ops, q - 1), x), MappingAt(At(v0, ops, q), x));
      forall id | !Stored(v0, ops, x, id, p, q)
        ensures DocAt(At(v0, ops, q), x, id) == DocAt(At(v0, ops, p), x, id)
      {
        assert !Stored(v0, ops, x, id, p, q - 1);
        assert !Stores(v0, ops, q - 1, x, id);
      }
    }
  }

  /** One operation that is no deletion. */
  lemma OneGrows(v: View, op: Op, x: Name)
    requires op != Drop(x)
    ensures var v' := ApplyOp(v, op);
            && (x in v ==> x in v') && Sub(MappingAt(v, x), MappingAt(v', x))
            && forall id :: DocAt(v', x, id) == DocAt(v, x, id)
                            || (op.Put? && op.index == x && op.id == id && x in v && Accepts(v[x].mapping, op.doc))
  {
  }

  /** An exact node is between any earlier position and its own. */
  lemma ExactIsBetween(v0: View, ops: seq<Op>, p: nat, q: nat)
    requires p <= q <= |ops|
    ensures Between(v0, ops, At(v0, ops, q), p, q)
  {
    forall x | NoDrop(ops, x, p, q)
      ensures BetweenAt(v0, ops, At(v0, ops, q), p, q, x)
    {
      Grows(v0, ops, x, p, q);
      forall b: nat | p <= b < q && Born(v0, ops, b, x)
        ensures Sub(MappingAt(At(v0, ops, b + 1), x), MappingAt(At(v0, ops, q), x))
      {
        Grows(v0, ops, x, b + 1, q);
      }
    }
  }

  /** A node that caught up is exact. */
  lemma CaughtUp(v0: View, ops: seq<Op>, v: View, q: nat)
    requires Between(v0, ops, v, q, q)
    ensures v == At(v0, ops, q)
  {
    var e := At(v0, ops, q);
    forall x
      ensures x in v <==> x in e
      ensures x in v ==> v[x] == e[x]
    {
      assert NoDrop(ops, x, q, q);
      assert BetweenAt(v0, ops, v, q, q, x);
      if x in v {
        assert v[x].mapping == e[x].mapping;
        forall id
          ensures id in v[x].docs <==> id in e[x].docs
          ensures id in v[x].docs ==> v[x].docs[id] == e[x].docs[id]
        {
          assert DocAt(v, x, id) == DocAt(e, x, id);
        }
        assert v[x].docs == e[x].docs;
      }
    }
    assert v.Keys == e.Keys;
  }

  /** Going back to an earlier position, as a restart does. */
  lemma Lower(v0: View, ops: seq<Op>, v: View, n: nat, p: nat, q: nat)
    requires n <= p && Between(v0, ops, v, p, q)
    ensures Between(v0, ops, v, n, q)
  {
    forall x | NoDrop(ops, x, n, q)
      ensures BetweenAt(v0, ops, v, n, q, x)
    {
      assert NoDrop(ops, x, p, q);
      assert BetweenAt(v0, ops, v, p, q, x);
      Grows(v0, ops, x, n, p);
      forall b: nat | n <= b < q && Born(v0, ops, b, x) && x in v
        ensures Sub(MappingAt(At(v0, ops, b + 1), x), MappingAt(v, x))
      {
        if b < p { Grows(v0, ops, x, b + 1, p); }
      }
      forall id | !Stored(v0, ops, x, id, n, q)
        ensures DocAt(v, x, id) == DocAt(At(v0, ops, n), x, id)
      {
        assert !Stored(v0, ops, x, id, p, q);
        assert !Stored(v0, ops, x, id, n, p);
      }
    }
  }

  lemma ShapeWiden(v0: View, ops: seq<Op>, m: Option<Mapping>, p: nat, q: nat, q': nat, x: Name)
    requires p <= q <= q' <= |ops| && NoDrop(ops, x, p, q') && ShapeAt(v0, ops, m, p, q, x)
    ensures ShapeAt(v0, ops, m, p, q', x)
  {
    Grows(v0, ops, x, q, q');
    if m.Some? {
      forall b: nat | p <= b < q' && Born(v0, ops, b, x)
        ensures Sub(MappingAt(At(v0, ops, b + 1), x), m.value)
      {
        if q <= b { Grows(v0, ops, x, q, b); }
      }
    }
  }

  /** Moving the upper position on. */
  lemma Widen(v0: View, ops: seq<Op>, v: View, p: nat, q: nat, q': nat)
    requires Between(v0, ops, v, p, q) && q <= q' <= |ops|
    ensures Between(v0, ops, v, p, q')
  {
    forall x | NoDrop(ops, x, p, q')
      ensures BetweenAt(v0, ops, v, p, q', x)
    {
      assert NoDrop(ops, x, p, q);
      assert BetweenAt(v0, ops, v, p, q, x);
      ShapeWiden(v0, ops, ShapeOf(v, x), p, q, q', x);
      hide ShapeAt;
      forall id | !Stored(v0, ops, x, id, p, q')
        ensures DocAt(v, x, id) == DocAt(At(v0, ops, p), x, id)
      {
        assert !Stored(v0, ops, x, id, p, q);
      }
    }
  }

  /** Applying operation p to a node that is between p and q, whatever it already did before,
      accepts exactly what the exact run accepts and brings the node between p + 1 and q. */
  lemma StepBetween(v0: View, ops: seq<Op>, v: View, v': View, p: nat, q: nat)
    requires CleanRun(v0, ops) && p < q && Between(v0, ops, v, p, q)
    requires OpStep(v, ops[p], v')
    ensures Between(v0, ops, v', p + 1, q)
  {
    var p' := p + 1;
    forall x | NoDrop(ops, x, p', q)
      ensures BetweenAt(v0, ops, v', p', q, x)
    {
      AtNext(v0, ops, p);
      if ops[p] == Drop(x) {
        DropBetween(v0, ops, v, v', p, q, x);
      } else {
        assert NoDrop(ops, x, p, q);
        assert BetweenAt(v0, ops, v, p, q, x);
        assert Clean(At(v0, ops, p), ops[p]);
        if ops[p].index != x {
          OtherBetween(v0, ops, v, v', p, q, x);
        } else {
          assert Clean(At(v0, ops, p), ops[p]);
          match ops[p] {
            case Ensure(_) => BirthBetween(v0, ops, v, v', p, q, x);
            case Create(_, _) => BirthBetween(v0, ops, v, v', p, q, x);
            case Put(_, _, _) => PutBetween(v0, ops, v, v', p, q, x);
            case Extend(_, _) => ExtendBetween(v0, ops, v, v', p, q, x);
          }
        }
      }
    }
  }

  /** Replaying does what the exact run does, also when that rejects an operation. */
  lemma ApplyBetween(v0: View, ops: seq<Op>, v: View, p: nat, q: nat)
    requires CleanRun(v0, ops) && p < q && Between(v0, ops, v, p, q)
    ensures Between(v0, ops, ApplyOp(v, ops[p]), p + 1, q)
  {
    var op, x, v', p' := ops[p], ops[p].index, ApplyOp(v, ops[p]), p + 1;
    assert Clean(At(v0, ops, p), op);
    if NoDrop(ops, x, p, q) {
      assert BetweenAt(v0, ops, v, p, q, x);
      CleanBetween(v0, ops, v, p, q, x);
      ApplyOpIsStep(v, op);
      StepBetween(v0, ops, v, v', p, q);
    } else {
      forall y | NoDrop(ops, y, p', q)
        ensures BetweenAt(v0, ops, v', p', q, y)
      {
        AtNext(v0, ops, p);
        if op == Drop(y) {
          DropBetween(v0, ops, v, v', p, q, y);
        } else {
          assert y != x && BetweenAt(v0, ops, v, p, q, y);
          ApplyOther(v0, ops, v, p, q, y);
        }
      }
    }
  }

  lemma ApplyOther(v0: View, ops: seq<Op>, v: View, p: nat, q: nat, x: Name)
    requires p < q <= |ops| && NoDrop(ops, x, p, q) && BetweenAt(v0, ops, v, p, q, x)
    requires ops[p].index != x && Clean(At(v0, ops, p), ops[p])
    ensures BetweenAt(v0, ops, ApplyOp(v, ops[p]), p + 1, q, x)
  {
    var v' := ApplyOp(v, ops[p]);
    assert (x in v <==> x in v') && (x in v ==> v[x] == v'[x]);
    hide ApplyOp, OpStep, Clean, At, DocAt, Stored;
    AtNext(v0, ops, p);
    ApplyOpIsStep(At(v0, ops, p), ops[p]);
    OtherUntouched(At(v0, ops, p), ops[p], At(v0, ops, p + 1), x);
    forall id | !Stored(v0, ops, x, id, p + 1, q)
      ensures DocAt(v', x, id) == DocAt(At(v0, ops, p + 1), x, id)
    {
      StoredNext(v0, ops, x, id, p, q);
      assert DocAt(v, x, id) == DocAt(At(v0, ops, p), x, id);
    }
  }

  /** What operation p does to an index that will be deleted does not matter. */
  lemma SkipBetween(v0: View, ops: seq<Op>, v: View, v': View, p: nat, q: nat)
    requires CleanRun(v0, ops) && p < q && Between(v0, ops, v, p, q)
    requires !NoDrop(ops, ops[p].index, p, q) && !ops[p].Drop?
    requires forall y | y != ops[p].index :: (y in v <==> y in v') && (y in v ==> v[y] == v'[y])
    ensures Between(v0, ops, v', p + 1, q)
  {
    var x, p' := ops[p].index, p + 1;
    forall y | NoDrop(ops, y, p', q)
      ensures BetweenAt(v0, ops, v', p', q, y)
    {
      assert NoDrop(ops, y, p, q);
      assert y != x && BetweenAt(v0, ops, v, p, q, y);
      assert Clean(At(v0, ops, p), ops[p]);
      hide BetweenAt, Between, CleanRun, Clean, ApplyOp, At;
      ApplyOther(v0, ops, v, p, q, y);
      UntouchedBy(v, ops[p], y);
      SameIndex(v0, ops, ApplyOp(v, ops[p]), v', p', q, y);
    }
  }

  lemma UntouchedBy(v: View, op: Op, y: Name)
    requires op.index != y
    ensures var v' := ApplyOp(v, op); (y in v <==> y in v') && (y in v ==> v[y] == v'[y])
  {
  }

  lemma SameIndex(v0: View, ops: seq<Op>, v: View, v': View, p: nat, q: nat, x: Name)
    requires p <= q <= |ops| && BetweenAt(v0, ops, v, p, q, x)
    requires (x in v <==> x in v') && (x in v ==> v[x] == v'[x])
    ensures BetweenAt(v0, ops, v', p, q, x)
  {
    hide ShapeAt;
    assert ShapeOf(v', x) == ShapeOf(v, x);
    forall id | !Stored(v0, ops, x, id, p, q)
      ensures DocAt(v', x, id) == DocAt(At(v0, ops, p), x, id)
    {
      assert DocAt(v', x, id) == DocAt(v, x, id);
    }
  }

  /** What is clean in the exact run is clean on a node between p and q, and what is tidy is tidy. */
  lemma CleanBetween(v0: View, ops: seq<Op>, v: View, p: nat, q: nat, x: Name)
    requires p < q <= |ops| && NoDrop(ops, x, p, q) && BetweenAt(v0, ops, v, p, q, x)
    requires ops[p].index == x && Clean(At(v0, ops, p), ops[p])
    ensures Clean(v, ops[p]) && (Tidy(At(v0, ops, p), ops[p]) ==> Tidy(v, ops[p]))
  {
    var op := ops[p];
    AtNext(v0, ops, p);
    Grows(v0, ops, x, p + 1, q);
    if op.Put? {
      PutAccepted(v0, ops, v, p, q, x);
      var e, m, doc := At(v0, ops, p)[x].mapping, v[x].mapping, op.doc;
      if !Accepts(e, doc) { RejectedAlike(e, m, MappingAt(At(v0, ops, q), x), doc); }
    } else if op.Extend? {
      ExtendAlike(At(v0, ops, p)[x].mapping, v[x].mapping, MappingAt(At(v0, ops, q), x), op.fields);
    }
  }

  lemma ExtendAlike(e: Mapping, m: Mapping, f: Mapping, fields: Mapping)
    requires Sub(e, m) && Sub(m, f)
    requires if Agrees(e, fields) then Sub(Merged(e, fields), f) else Decided(e, fields, Conflicts(e, fields))
    ensures if Agrees(e, fields) then Agrees(m, fields) else fields.Keys <= m.Keys
  {
    if Agrees(e, fields) {
      forall k | k in fields && k in m
        ensures m[k] == fields[k]
      {
        assert k in Merged(e, fields);
      }
    } else {
      ConflictMapsAll(e, fields);
    }
  }

  lemma DropBetween(v0: View, ops: seq<Op>, v: View, v': View, p: nat, q: nat, x: Name)
    requires p < q <= |ops| && NoDrop(ops, x, p + 1, q)
    requires ops[p] == Drop(x) && OpStep(v, ops[p], v')
    ensures BetweenAt(v0, ops, v', p + 1, q, x)
  {
    AtNext(v0, ops, p);
  }

  lemma StoredNext(v0: View, ops: seq<Op>, x: Name, id: DocId, p: nat, q: nat)
    requires p < q <= |ops|
    ensures Stored(v0, ops, x, id, p, q) <==> Stores(v0, ops, p, x, id) || Stored(v0, ops, x, id, p + 1, q)
  {
  }

  /** Operations on one index leave the others alone. */
  lemma OtherUntouched(v: View, op: Op, v': View, x: Name)
    requires op.index != x && OpStep(v, op, v')
    ensures x in v <==> x in v'
    ensures x in v ==> v[x] == v'[x]
    ensures MappingAt(v, x) == MappingAt(v', x)
    ensures forall id :: DocAt(v, x, id) == DocAt(v', x, id)
  {
  }

  /** A clean operation has the outcome of the exact run. */
  lemma ApplyOpIsStep(v: View, op: Op)
    requires Clean(v, op)
    ensures OpStep(v, op, ApplyOp(v, op))
  {
    if op.index in v {
      assert v == v[op.index := v[op.index]];
      var m := v[op.index].mapping;
      if op.Put? && !Accepts(m, op.doc) {
        var last :| last in op.doc && !Fits(DefinitionOf(m, last, op.doc[last]), op.doc[last]);
        DecidedLeaves(m, Naturals(op.doc), BadFields(m, op.doc), last);
      } else if op.Extend? && !Agrees(m, op.fields) {
        var last :| last in op.fields && last in m && m[last] != op.fields[last];
        DecidedLeaves(m, op.fields, Conflicts(m, op.fields), last);
        assert Seen(m, op.fields, Conflicts(m, op.fields)) == m;
      }
    }
  }

  lemma DecidedLeaves(m: Mapping, defs: Mapping, bad: set<Field>, last: Field)
    requires Decided(m, defs, bad) && last in bad && bad <= defs.Keys
    ensures LeftBehind(m, defs, bad, Seen(m, defs, bad))
  {
    assert StopsAfter(defs, bad, {last}, last);
    assert Seen(m, defs, {last}) == Seen(m, defs, bad);
  }

  /** Whatever stops the visit, a decided rejection leaves the same behind. */
  lemma DecidedIsOne(m: Mapping, defs: Mapping, bad: set<Field>, m': Mapping)
    requires Decided(m, defs, bad) && LeftBehind(m, defs, bad, m')
    ensures m' == Seen(m, defs, bad)
  {
    var seen, last :| StopsAfter(defs, bad, seen, last) && m' == Seen(m, defs, seen);
    forall f
      ensures f in Seen(m, defs, seen) <==> f in Seen(m, defs, bad)
    {
    }
  }

  lemma OtherBetween(v0: View, ops: seq<Op>, v: View, v': View, p: nat, q: nat, x: Name)
    requires p < q <= |ops| && NoDrop(ops, x, p, q)
    requires BetweenAt(v0, ops, v, p, q, x)
    requires ops[p].index != x && OpStep(v, ops[p], v') && Clean(At(v0, ops, p), ops[p])
    ensures BetweenAt(v0, ops, v', p + 1, q, x)
  {
    hide ApplyOp, OpStep, Clean, At, DocAt, MappingAt, Stored;
    AtNext(v0, ops, p);
    ApplyOpIsStep(At(v0, ops, p), ops[p]);
    OtherUntouched(At(v0, ops, p), ops[p], At(v0, ops, p + 1), x);
    OtherUntouched(v, ops[p], v', x);
    forall id | !Stored(v0, ops, x, id, p + 1, q)
      ensures DocAt(v', x, id) == DocAt(At(v0, ops, p + 1), x, id)
    {
      StoredNext(v0, ops, x, id, p, q);
    }
  }

  lemma BirthBetween(v0: View, ops: seq<Op>, v: View, v': View, p: nat, q: nat, x: Name)
    requires p < q <= |ops| && NoDrop(ops, x, p, q)
    requires BetweenAt(v0, ops, v, p, q, x)
    requires (ops[p].Ensure? || ops[p].Create?) && ops[p].index == x && OpStep(v, ops[p], v')
    ensures BetweenAt(v0, ops, v', p + 1, q, x)
  {
    AtNext(v0, ops, p);
    Grows(v0, ops, x, p + 1, q);
    assert x in At(v0, ops, p + 1) && x in v';
    if x in v {
      assert v' == v;
      if x !in At(v0, ops, p) { assert Born(v0, ops, p, x); }
    } else {
      assert v'[x] == At(v0, ops, p + 1)[x];
    }
    forall b: nat | p + 1 <= b < q
      ensures !Born(v0, ops, b, x)
    {
      Grows(v0, ops, x, p + 1, b);
    }
    forall id | !Stored(v0, ops, x, id, p + 1, q)
      ensures DocAt(v', x, id) == DocAt(At(v0, ops, p + 1), x, id)
    {
      StoredNext(v0, ops, x, id, p, q);
      assert DocAt(v, x, id) == DocAt(At(v0, ops, p), x, id);
    }
  }

  /** A node between p and q accepts the document of operation p if and only if the exact run does. */
  lemma PutAccepted(v0: View, ops: seq<Op>, v: View, p: nat, q: nat, x: Name)
    requires p < q <= |ops| && NoDrop(ops, x, p, q)
    requires BetweenAt(v0, ops, v, p, q, x)
    requires ops[p].Put? && ops[p].index == x && Clean(At(v0, ops, p), ops[p])
    ensures Accepts(v[x].mapping, ops[p].doc) <==> Accepts(At(v0, ops, p)[x].mapping, ops[p].doc)
  {
    var m, e := v[x].mapping, At(v0, ops, p)[x].mapping;
    var doc := ops[p].doc;
    AtNext(v0, ops, p);
    Grows(v0, ops, x, p + 1, q);
    if Accepts(e, doc) {
      forall k | k in doc
        ensures Fits(DefinitionOf(m, k, doc[k]), doc[k])
      {
        assert k in Learn(e, doc);
      }
    } else {
      RejectedAlike(e, m, MappingAt(At(v0, ops, q), x), doc);
      var k :| k in BadFields(e, doc);
      assert k in BadFields(m, doc);
    }
  }

  /** A mapping that has more, up to what the rejection itself leaves behind, is no help. */
  lemma RejectedAlike(e: Mapping, m: Mapping, f: Mapping, doc: Doc)
    requires Sub(e, m) && Sub(m, f) && Sub(Seen(e, Naturals(doc), BadFields(e, doc)), f)
    requires Decided(e, Naturals(doc), BadFields(e, doc)) && !Accepts(e, doc)
    ensures BadFields(e, doc) != {} && BadFields(m, doc) == BadFields(e, doc)
    ensures Decided(m, Naturals(doc), BadFields(m, doc))
  {
    var defs, bad := Naturals(doc), BadFields(e, doc);
    var b :| b in doc && !Fits(DefinitionOf(e, b, doc[b]), doc[b]);
    assert b in bad;
    forall k | k in doc
      ensures DefinitionOf(m, k, doc[k]) == DefinitionOf(e, k, doc[k])
    {
      if k !in e {
        assert k in defs && k == b;
        assert k in Seen(e, defs, bad);
      }
    }
  }

  lemma PutBetween(v0: View, ops: seq<Op>, v: View, v': View, p: nat, q: nat, x: Name)
    requires p < q <= |ops| && NoDrop(ops, x, p, q)
    requires BetweenAt(v0, ops, v, p, q, x)
    requires ops[p].Put? && ops[p].index == x && OpStep(v, ops[p], v')
    requires Clean(At(v0, ops, p), ops[p])
    ensures BetweenAt(v0, ops, v', p + 1, q, x)
  {
    hide Decided, BadFields, Seen, Fits, Learn, LeftBehind;
    PutAccepted(v0, ops, v, p, q, x);
    AtNext(v0, ops, p);
    Grows(v0, ops, x, p + 1, q);
    PutMapping(MappingAt(At(v0, ops, p), x), v[x].mapping, MappingAt(At(v0, ops, q), x), ops[p].doc, v'[x].mapping);
    forall b: nat | p + 1 <= b < q
      ensures !Born(v0, ops, b, x)
    {
      Grows(v0, ops, x, p + 1, b);
    }
    forall id | !Stored(v0, ops, x, id, p + 1, q)
      ensures DocAt(v', x, id) == DocAt(At(v0, ops, p + 1), x, id)
    {
      StoredNext(v0, ops, x, id, p, q);
    }
  }

  lemma PutMapping(e: Mapping, m: Mapping, f: Mapping, doc: Doc, m': Mapping)
    requires Sub(e, m) && Sub(m, f)
    requires Accepts(m, doc) <==> Accepts(e, doc)
    requires Accepts(e, doc) ==> Sub(Learn(e, doc), f) && m' == Learn(m, doc)
    requires !Accepts(e, doc) ==>
               && Decided(e, Naturals(doc), BadFields(e, doc)) && Sub(Seen(e, Naturals(doc), BadFields(e, doc)), f)
               && LeftBehind(m, Naturals(doc), BadFields(m, doc), m')
    ensures Sub(if Accepts(e, doc) then Learn(e, doc) else Seen(e, Naturals(doc), BadFields(e, doc)), m') && Sub(m', f)
  {
    if Accepts(e, doc) {
      forall k | k in m'
        ensures k in f && m'[k] == f[k]
      {
        if k !in m { assert k in Learn(e, doc); }
      }
    } else {
      RejectedAlike(e, m, f, doc);
      DecidedIsOne(m, Naturals(doc), BadFields(m, doc), m');
    }
  }

  lemma ExtendMapping(e: Mapping, m: Mapping, f: Mapping, fields: Mapping, m': Mapping)
    requires Sub(e, m) && Sub(m, f)
    requires Agrees(e, fields) ==> Sub(Merged(e, fields), f)
    requires !Agrees(e, fields) ==> Decided(e, fields, Conflicts(e, fields))
    requires Agrees(m, fields) ==> m' == Merged(m, fields)
    requires !Agrees(m, fields) ==> LeftBehind(m, fields, Conflicts(m, fields), m')
    ensures Agrees(m, fields) <==> Agrees(e, fields)
    ensures Sub(if Agrees(e, fields) then Merged(e, fields) else e, m') && Sub(m', f)
  {
    if Agrees(e, fields) {
      forall k | k in fields && k in m
        ensures m[k] == fields[k]
      {
        assert k in Merged(e, fields);
      }
      forall k | k in m'
        ensures k in f && m'[k] == f[k]
      {
        if k !in m { assert k in Merged(e, fields); }
      }
    } else {
      ConflictMapsAll(e, fields);
      NothingLeft(m, fields, Conflicts(m, fields), m');
    }
  }

  /** Only mapped fields conflict, so a decided conflict leaves no field unmapped. */
  lemma ConflictMapsAll(e: Mapping, fields: Mapping)
    requires !Agrees(e, fields) && Decided(e, fields, Conflicts(e, fields))
    ensures fields.Keys <= e.Keys
  {
    var g :| g in fields && g in e && e[g] != fields[g];
    assert g in Conflicts(e, fields);
  }

  lemma ExtendBetween(v0: View, ops: seq<Op>, v: View, v': View, p: nat, q: nat, x: Name)
    requires p < q <= |ops| && NoDrop(ops, x, p, q)
    requires BetweenAt(v0, ops, v, p, q, x)
    requires ops[p].Extend? && ops[p].index == x && OpStep(v, ops[p], v')
    requires Clean(At(v0, ops, p), ops[p])
    ensures BetweenAt(v0, ops, v', p + 1, q, x)
  {
    var e, e' := At(v0, ops, p), At(v0, ops, p + 1);
    AtNext(v0, ops, p);
    Grows(v0, ops, x, p + 1, q);
    ExtendMapping(e[x].mapping, v[x].mapping, MappingAt(At(v0, ops, q), x), ops[p].fields, v'[x].mapping);
    assert v'[x].docs == v[x].docs && e'[x].docs == e[x].docs;
    forall b: nat | p + 1 <= b < q
      ensures !Born(v0, ops, b, x)
    {
      Grows(v0, ops, x, p + 1, b);
    }
    forall id | !Stored(v0, ops, x, id, p + 1, q)
      ensures DocAt(v', x, id) == DocAt(e', x, id)
    {
      StoredNext(v0, ops, x, id, p, q);
      assert DocAt(v, x, id) == DocAt(e, x, id);
    }
  }

  /** An operation that fails for a passing reason: after it extended the mapping and before
      the document reached the log, or after it forgot an index and before the index was gone
      from the stored metadata. It will be tried again. */
  ghost predicate HalfStep(v: View, op: Op, v': View) {
    var x := op.index;
    || v' == v
    || (op.Drop? && v' == v - {x})
    || (&& (op.Put? || op.Extend?) && x in v && x in v' && v' == v[x := v'[x]] && v'[x].docs == v[x].docs
        && Sub(v[x].mapping, v'[x].mapping)
        && if op.Put? then Accepts(v[x].mapping, op.doc) && Sub(v'[x].mapping, Learn(v[x].mapping, op.doc))
           else Agrees(v[x].mapping, op.fields) && Sub(v'[x].mapping, Merged(v[x].mapping, op.fields)))
  }

  lemma SubTrans(a: Mapping, b: Mapping, c: Mapping)
    requires Sub(a, b) && Sub(b, c)
    ensures Sub(a, c)
  {
  }

  /** A failed attempt keeps the node between the same positions. */
  lemma HalfBetween(v0: View, ops: seq<Op>, v: View, v': View, p: nat, q: nat)
    requires CleanRun(v0, ops) && p < q && Between(v0, ops, v, p, q)
    requires HalfStep(v, ops[p], v')
    ensures Between(v0, ops, v', p, q)
  {
    forall x | NoDrop(ops, x, p, q)
      ensures BetweenAt(v0, ops, v', p, q, x)
    {
      assert BetweenAt(v0, ops, v, p, q, x);
      if v' != v && ops[p].index == x && !ops[p].Drop? {
        assert Clean(At(v0, ops, p), ops[p]);
        AtNext(v0, ops, p);
        Grows(v0, ops, x, p + 1, q);
        HalfMapping(v0, ops, v, v', p, q, x);
        forall id | !Stored(v0, ops, x, id, p, q)
          ensures DocAt(v', x, id) == DocAt(At(v0, ops, p), x, id)
        {
          assert DocAt(v', x, id) == DocAt(v, x, id);
        }
        forall b: nat | p <= b < q && Born(v0, ops, b, x) && x in v'
          ensures Sub(MappingAt(At(v0, ops, b + 1), x), MappingAt(v', x))
        {
          SubTrans(MappingAt(At(v0, ops, b + 1), x), MappingAt(v, x), MappingAt(v', x));
        }
        SubTrans(MappingAt(At(v0, ops, p), x), MappingAt(v, x), MappingAt(v', x));
      } else if v' != v {
        assert x in v <==> x in v';
        assert x in v ==> v[x] == v'[x];
        assert forall id :: DocAt(v', x, id) == DocAt(v, x, id);
      }
    }
  }

  lemma HalfMapping(v0: View, ops: seq<Op>, v: View, v': View, p: nat, q: nat, x: Name)
    requires p < q <= |ops| && NoDrop(ops, x, p, q) && BetweenAt(v0, ops, v, p, q, x)
    requires ops[p].index == x && Clean(At(v0, ops, p), ops[p])
    requires HalfStep(v, ops[p], v') && v' != v && !ops[p].Drop?
    ensures Sub(MappingAt(v', x), MappingAt(At(v0, ops, q), x))
  {
    var op, e, m, f := ops[p], At(v0, ops, p)[x].mapping, v[x].mapping, MappingAt(At(v0, ops, q), x);
    AtNext(v0, ops, p);
    Grows(v0, ops, x, p + 1, q);
    if op.Put? {
      PutAccepted(v0, ops, v, p, q, x);
      PutMapping(e, m, f, op.doc, Learn(m, op.doc));
      SubTrans(v'[x].mapping, Learn(m, op.doc), f);
    } else {
      ExtendMapping(e, m, f, op.fields, Merged(m, op.fields));
      SubTrans(v'[x].mapping, Merged(m, op.fields), f);
    }
  }

  /** Replaying operations p..q on a node that is between p and q makes it exact. */
  lemma {:induction false} ReplayConverges(v0: View, ops: seq<Op>, v: View, p: nat, q: nat)
    requires CleanRun(v0, ops) && Between(v0, ops, v, p, q)
    ensures Exact(v, ops[p..q]) == At(v0, ops, q)
    decreases q - p
  {
    assert p <= q <= |ops|;
    if p == q {
      hide CleanRun, Between, ApplyOp, At;
      assert ops[p..q] == [];
      CaughtUp(v0, ops, v, q);
    } else {
      hide CleanRun, Between, ApplyOp, Exact, At;
      var v' := ApplyOp(v, ops[p]);
      ApplyBetween(v0, ops, v, p, q);
      ReplayConverges(v0, ops, v', p + 1, q);
      assert ops[p..q] == [ops[p]] + ops[p + 1..q];
      ExactFirst(v, ops[p], ops[p + 1..q]);
    }
  }

  /** A node that is between two positions and applies everything after the first one ends
      up like a node that applied every operation once, in order. */
  lemma CatchUp(v0: View, ops: seq<Op>, v: View, p: nat, q: nat)
    requires CleanRun(v0, ops) && Between(v0, ops, v, p, q)
    ensures Exact(v, ops[p..]) == Exact(v0, ops)
  {
    Widen(v0, ops, v, p, q, |ops|);
    ReplayConverges(v0, ops, v, p, |ops|);
    assert ops[p..|ops|] == ops[p..] && ops[..|ops|] == ops;
  }

  // ---------------------------------------------------------------- messages

  function Digits(n: nat): string {
    if n < 10 then [['0', '1', '2', '3', '4', '5', '6', '7', '8', '9'][n]]
    else Digits(n / 10) + Digits(n % 10)
  }

  /** A document without an ID is named after its place in the stream. */
  function DocName(seqNo: nat, id: DocId): DocId {
    if id == "" then "seq-" + Digits(seqNo) else id
  }

  function BatchDocName(seqNo: nat, pos: nat, id: DocId): DocId {
    if id == "" then "seq-" + Digits(seqNo) + "-" + Digits(pos) else id
  }

  /** The operations of the first n documents of a batch. */
  function BatchOps(seqNo: nat, index: Name, docs: seq<(DocId, Doc)>, n: nat): (ops: seq<Op>)
    requires n <= |docs|
    ensures |ops| == n + 1
  {
    [Ensure(index)] + seq(n, (i: nat) requires i < n => Put(index, BatchDocName(seqNo, i, docs[i].0), docs[i].1))
  }

  function OpsOf(seqNo: nat, m: Message): seq<Op> {
    match m
    case DocMsg(x, id, doc) => [Ensure(x), Put(x, DocName(seqNo, id), doc)]
    case DocsMsg(x, docs) => BatchOps(seqNo, x, docs, |docs|)
    case CreateIndex(x, mapping) => [Create(x, mapping)]
    case DeleteIndex(x) => [Drop(x)]
    case SetMapping(x, fields) => [Ensure(x), Extend(x, fields)]
    case Permanent => []
  }

  /** The operations of messages msgs, the first of which has sequence number first. */
  function StreamOps(first: nat, msgs: seq<Message>): seq<Op> {
    if msgs == [] then []
    else StreamOps(first, msgs[..|msgs| - 1]) + OpsOf(first + |msgs| - 1, msgs[|msgs| - 1])
  }

  /** Applying messages once, in order. */
  ghost function ApplyAll(v: View, first: nat, msgs: seq<Message>): View {
    Exact(v, StreamOps(first, msgs))
  }

  /** A contiguous block of messages applied a second time right after itself changes
      nothing, although creation and mappings are first-wins, documents are last-wins and
      deletion clears. */
  lemma BlockIdempotent(v0: View, first: nat, msgs: seq<Message>)
    requires CleanRun(v0, StreamOps(first, msgs))
    ensures ApplyAll(ApplyAll(v0, first, msgs), first, msgs) == ApplyAll(v0, first, msgs)
  {
    var ops := StreamOps(first, msgs);
    assert ops[..|ops|] == ops;
    ExactIsBetween(v0, ops, 0, |ops|);
    ReplayConverges(v0, ops, Exact(v0, ops), 0, |ops|);
    assert ops[0..|ops|] == ops;
  }

  /** Any earlier tail of a block may also be repeated: restarting at position n after
      having reached the end leads to the same state. */
  lemma TailIdempotent(v0: View, first: nat, msgs: seq<Message>, n: nat)
    requires n <= |StreamOps(first, msgs)| && CleanRun(v0, StreamOps(first, msgs))
    ensures Exact(ApplyAll(v0, first, msgs), StreamOps(first, msgs)[n..]) == ApplyAll(v0, first, msgs)
  {
    var ops := StreamOps(first, msgs);
    assert ops[..|ops|] == ops;
    ExactIsBetween(v0, ops, n, |ops|);
    ReplayConverges(v0, ops, Exact(v0, ops), n, |ops|);
    assert ops[n..|ops|] == ops[n..];
  }

  /** Every outcome of an operation is that of the exact run, exactly when the operation is clean. */
  lemma CleanIsDeterministic(v: View, op: Op)
    requires op.index in v
    ensures Clean(v, op) <==> forall v': View | OpStep(v, op, v') :: v' == ApplyOp(v, op)
  {
    var x, m := op.index, v[op.index].mapping;
    RejectingIff(m, op);
    if Rejecting(m, op) != {} {
      OneOutcomeIff(v, op);
      if Clean(v, op) {
        ApplyOpIsStep(v, op);
      } else {
        hide OpStep, ApplyOp, Clean;
        var one: View, two: View :| OpStep(v, op, one) && OpStep(v, op, two) && one != two;
        assert one != ApplyOp(v, op) || two != ApplyOp(v, op);
      }
    }
  }

  function Definitions(op: Op): Mapping {
    if op.Put? then Naturals(op.doc) else if op.Extend? then op.fields else map[]
  }

  function Rejecting(m: Mapping, op: Op): set<Field> {
    if op.Put? then BadFields(m, op.doc) else if op.Extend? then Conflicts(m, op.fields) else {}
  }

  lemma RejectingIff(m: Mapping, op: Op)
    ensures Rejecting(m, op) <= Definitions(op).Keys
    ensures op.Put? ==> (Rejecting(m, op) == {} <==> Accepts(m, op.doc))
    ensures op.Extend? ==> (Rejecting(m, op) == {} <==> Agrees(m, op.fields))
  {
    if op.Put? && !Accepts(m, op.doc) {
      var f :| f in op.doc && !Fits(DefinitionOf(m, f, op.doc[f]), op.doc[f]);
      assert f in Rejecting(m, op);
    } else if op.Extend? && !Agrees(m, op.fields) {
      var f :| f in op.fields && f in m && m[f] != op.fields[f];
      assert f in Rejecting(m, op);
    }
  }

  /** The view after an operation on index x was rejected and left the mapping m behind. */
  function Rejected(v: View, x: Name, m: Mapping): (v': View)
    requires x in v
    ensures x in v' && v' == v[x := v'[x]] && v'[x].docs == v[x].docs && v'[x].mapping == m
  {
    v[x := v[x].(mapping := m)]
  }

  /** All nodes come out of an operation alike. */
  ghost predicate OneOutcome(v: View, op: Op) {
    forall one: View, two: View | OpStep(v, op, one) && OpStep(v, op, two) :: one == two
  }

  /** A rejected operation has one outcome exactly when it is clean: every field that is not
      mapped is the only one that it is rejected for. */
  lemma OneOutcomeIff(v: View, op: Op)
    requires op.index in v && Rejecting(v[op.index].mapping, op) != {}
    ensures OneOutcome(v, op) <==> Decided(v[op.index].mapping, Definitions(op), Rejecting(v[op.index].mapping, op))
    ensures OneOutcome(v, op) <==> Clean(v, op)
  {
    var x, m, defs, bad := op.index, v[op.index].mapping, Definitions(op), Rejecting(v[op.index].mapping, op);
    RejectingIff(m, op);
    assert Clean(v, op) <==> Decided(m, defs, bad);
    hide Definitions, Rejecting, Accepts, Agrees, Seen, Clean;
    if Decided(m, defs, bad) {
      forall one: View, two: View | OpStep(v, op, one) && OpStep(v, op, two)
        ensures one == two
      {
        RejectedStep(v, op, one);
        RejectedStep(v, op, two);
        DecidedIsOne(m, defs, bad, one[x].mapping);
        DecidedIsOne(m, defs, bad, two[x].mapping);
      }
    } else {
      var f, g :| f in defs && f !in m && g in bad && f != g;
      var one, two := TwoLeft(m, defs, bad, f, g);
      IsOutcome(v, op, one);
      IsOutcome(v, op, two);
      assert Rejected(v, x, one)[x].mapping != Rejected(v, x, two)[x].mapping;
    }
  }

  /** A rejected operation changes the mapping only. */
  lemma RejectedStep(v: View, op: Op, v': View)
    requires op.index in v && Rejecting(v[op.index].mapping, op) != {} && OpStep(v, op, v')
    ensures op.index in v' && v' == Rejected(v, op.index, v'[op.index].mapping)
    ensures LeftBehind(v[op.index].mapping, Definitions(op), Rejecting(v[op.index].mapping, op), v'[op.index].mapping)
  {
    RejectingIff(v[op.index].mapping, op);
  }

  lemma IsOutcome(v: View, op: Op, m: Mapping)
    requires op.index in v && Rejecting(v[op.index].mapping, op) != {}
    requires LeftBehind(v[op.index].mapping, Definitions(op), Rejecting(v[op.index].mapping, op), m)
    ensures OpStep(v, op, Rejected(v, op.index, m))
  {
    RejectingIff(v[op.index].mapping, op);
  }

  lemma TwoLeft(m: Mapping, defs: Mapping, bad: set<Field>, f: Field, g: Field) returns (one: Mapping, two: Mapping)
    requires f in defs && f !in m && g in defs && g in bad && f != g
    ensures LeftBehind(m, defs, bad, one) && LeftBehind(m, defs, bad, two) && one != two
  {
    var seen := if f in bad then {f} else {f, g};
    one, two := Seen(m, defs, seen), Seen(m, defs, {g});
    assert StopsAfter(defs, bad, seen, if f in bad then f else g);
    assert StopsAfter(defs, bad, {g}, g);
    assert f in one && f !in two;
  }

  /** Documents are last-wins: the stored document is the one of the last operation that
      stored it since the index was last deleted. */
  lemma LastStoreWins(v0: View, ops: seq<Op>, x: Name, id: DocId, i: nat, q: nat)
    requires i < q <= |ops| && Stores(v0, ops, i, x, id)
    requires NoDrop(ops, x, i + 1, q) && !Stored(v0, ops, x, id, i + 1, q)
    ensures DocAt(At(v0, ops, q), x, id) == Some(ops[i].doc)
  {
    AtNext(v0, ops, i);
    Grows(v0, ops, x, i + 1, q);
  }

  /** Deletion clears: only documents stored after it exist. */
  lemma DropClears(v0: View, ops: seq<Op>, x: Name, id: DocId, i: nat, q: nat)
    requires i < q <= |ops| && ops[i] == Drop(x)
    requires NoDrop(ops, x, i + 1, q) && !Stored(v0, ops, x, id, i + 1, q)
    ensures DocAt(At(v0, ops, q), x, id) == None
  {
    AtNext(v0, ops, i);
    Grows(v0, ops, x, i + 1, q);
  }

  /** Definitions are first-wins: a field that is mapped keeps its definition until the index is deleted. */
  lemma FirstDefinitionWins(v0: View, ops: seq<Op>, x: Name, f: Field, p: nat, q: nat)
    requires p <= q <= |ops| && NoDrop(ops, x, p, q) && f in MappingAt(At(v0, ops, p), x)
    ensures f in MappingAt(At(v0, ops, q), x)
    ensures MappingAt(At(v0, ops, q), x)[f] == MappingAt(At(v0, ops, p), x)[f]
  {
    Grows(v0, ops, x, p, q);
  }

  /** Two outcomes of an operation after which a later document is stored differently. */
  ghost predicate Diverges(v: View, op: Op, one: View, two: View, later: Op, id: DocId) {
    && OpStep(v, op, one) && OpStep(v, op, two)
    && DocAt(ApplyOp(one, later), op.index, id) != DocAt(ApplyOp(two, later), op.index, id)
  }

  /** Whenever an operation has more than one outcome, some later document is stored by one
      node and rejected by another. */
  lemma DivergesIff(v: View, op: Op)
    requires op.index in v
    ensures (exists one: View, two: View, later: Op, id: DocId :: Diverges(v, op, one, two, later, id)) <==>
              !OneOutcome(v, op)
  {
    var x := op.index;
    if !OneOutcome(v, op) {
      var one: View, two: View :| OpStep(v, op, one) && OpStep(v, op, two) && one != two;
      var m, defs := v[x].mapping, Definitions(op);
      assert one[x].mapping != two[x].mapping;
      var s1, l1 :| StopsAfter(defs, Rejecting(m, op), s1, l1) && one[x].mapping == Seen(m, defs, s1);
      var s2, l2 :| StopsAfter(defs, Rejecting(m, op), s2, l2) && two[x].mapping == Seen(m, defs, s2);
      Difference(m, defs, s1, s2);
      var k :| && k in defs && k !in m && (k in one[x].mapping <==> k !in two[x].mapping)
               && (k in one[x].mapping ==> one[x].mapping[k] == defs[k])
               && (k in two[x].mapping ==> two[x].mapping[k] == defs[k]);
      if k in one[x].mapping {
        TellsApart(v, x, two, one, k);
      } else {
        TellsApart(v, x, one, two, k);
      }
      var later := Telling(v, x, k, defs[k]);
      assert Diverges(v, op, one, two, later, later.id);
    }
  }

  lemma Difference(m: Mapping, defs: Mapping, s1: set<Field>, s2: set<Field>)
    ensures var a, b := Seen(m, defs, s1), Seen(m, defs, s2);
            || a == b
            || exists k :: k in defs && k !in m && (k in a <==> k !in b)
                           && (k in a ==> a[k] == defs[k]) && (k in b ==> b[k] == defs[k])
  {
    var a, b := Seen(m, defs, s1), Seen(m, defs, s2);
    if a.Keys == b.Keys {
      assert forall f | f in a :: a[f] == b[f];
    } else {
      var k :| (k in a) != (k in b);
      assert k in defs && k !in m && (k in a <==> k !in b);
    }
  }

  /** A document of one field k that is not stored yet. Where k is mapped to p it is rejected and
      where k is not mapped it is accepted, or the other way round: a word that cannot be read
      under p; or, as everything can be converted to a string, a number followed by a word. */
  function Telling(v: View, x: Name, k: Field, p: Prop): (op: Op)
    ensures op.Put? && op.index == x
  {
    var there := DocAt(v, x, "");
    var word := Scalar(Word, (if there.Some? && k in there.value then TextOf(there.value[k]) else "") + "x", {});
    Put(x, "", map[k := if p.kind.Text? || p.kind.Keyword? then Value(Scalar(Number, "1", {}), [word])
                        else Value(word, [])])
  }

  function TextOf(v: Value): string { v.first.text + if v.more == [] then "" else v.more[0].text }

  /** The node that maps k to p and the one that does not map it store different documents. */
  lemma TellsApart(v: View, x: Name, without: View, with: View, k: Field)
    requires x in v && x in without && x in with && without[x].docs == v[x].docs && with[x].docs == v[x].docs
    requires k !in without[x].mapping && k in with[x].mapping
    ensures var later := Telling(v, x, k, with[x].mapping[k]);
            DocAt(ApplyOp(without, later), x, later.id) != DocAt(ApplyOp(with, later), x, later.id)
  {
    hide ApplyOp;
    var p := with[x].mapping[k];
    var later := Telling(v, x, k, p);
    var value := later.doc[k];
    PutsOne(without, x, k, value);
    PutsOne(with, x, k, value);
    NotStoredYet(v, x, k, p);
    if p.kind.Text? || p.kind.Keyword? { assert value.more[0] in value.more; }
  }

  lemma NotStoredYet(v: View, x: Name, k: Field, p: Prop)
    ensures var later := Telling(v, x, k, p);
            k in later.doc && later.doc == map[k := later.doc[k]] && DocAt(v, x, later.id) != Some(later.doc)
  {
    var later := Telling(v, x, k, p);
    var there, value := DocAt(v, x, later.id), later.doc[k];
    if there.Some? && k in there.value {
      var word := if value.more == [] then value.first else value.more[0];
      assert |word.text| == |TextOf(there.value[k])| + 1;
    }
  }

  /** Two plain documents, a number and then a word, do the same for a text field. */
  lemma PlainTellsApart(v: View, x: Name, without: View, with: View, k: Field, digits: string, letters: string)
    requires x in v && x in without && x in with && without[x].docs == v[x].docs && with[x].docs == v[x].docs
    requires k !in without[x].mapping && k in with[x].mapping
    requires with[x].mapping[k].kind.Text? || with[x].mapping[k].kind.Keyword?
    ensures var number := Put(x, "", map[k := Value(Scalar(Number, digits, {}), [])]);
            var word := Put(x, "", map[k := Value(Scalar(Word, letters, {}), [])]);
            DocAt(Exact(without, [number, word]), x, "") != DocAt(Exact(with, [number, word]), x, "")
  {
    hide ApplyOp, Exact;
    var n, w := Value(Scalar(Number, digits, {}), []), Value(Scalar(Word, letters, {}), []);
    var number, word := Put(x, "", map[k := n]), Put(x, "", map[k := w]);
    PutsOne(without, x, k, n);
    PutsOne(with, x, k, n);
    PutsOne(ApplyOp(without, number), x, k, w);
    PutsOne(ApplyOp(with, number), x, k, w);
    ExactTwo(without, number, word);
    ExactTwo(with, number, word);
    assert number.doc[k] != word.doc[k];
  }

  lemma ExactTwo(v: View, a: Op, b: Op)
    ensures Exact(v, [a, b]) == ApplyOp(ApplyOp(v, a), b)
  {
    hide ApplyOp;
    assert [a, b][..1] == [a] && [a][..0] == [];
    assert Exact(v, [a]) == ApplyOp(v, a);
  }

  /** A document of one field. */
  lemma PutsOne(v: View, x: Name, k: Field, value: Value)
    requires x in v
    ensures var p, v' := DefinitionOf(v[x].mapping, k, value), ApplyOp(v, Put(x, "", map[k := value]));
            && x in v' && k in v'[x].mapping && v'[x].mapping[k] == p
            && DocAt(v', x, "") == if Fits(p, value) then Some(map[k := value]) else DocAt(v, x, "")
  {
    var m, doc := v[x].mapping, map[k := value];
    assert Accepts(m, doc) <==> Fits(DefinitionOf(m, k, value), value) by { assert k in doc; }
    assert k in Learn(m, doc);
    if !Accepts(m, doc) { assert k in BadFields(m, doc); }
  }

  /** A document that is rejected for one field and brings another, unmapped one: nodes differ. */
  lemma RejectedDocumentDiverges(v: View, x: Name, id: DocId, doc: Doc, bad: Field, other: Field)
    requires x in v && bad in doc && !Fits(DefinitionOf(v[x].mapping, bad, doc[bad]), doc[bad])
    requires other in doc && other !in v[x].mapping && other != bad
    ensures exists one: View, two: View, later: Op, key: DocId :: Diverges(v, Put(x, id, doc), one, two, later, key)
  {
    var op := Put(x, id, doc);
    assert bad in Rejecting(v[x].mapping, op) && other in Definitions(op);
    OneOutcomeIff(v, op);
    DivergesIff(v, op);
  }
}
