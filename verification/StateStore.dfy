/** The coordinator's compare-and-swap store: its contract for one key
    (pkg/coordinator/state/state.go) and the store in memory (pkg/coordinator/state/mem.go). */
module StateStore {
  import opened Wrappers

  datatype Entry<V> = Entry(value: V, revision: nat)

  datatype Op<V> = Get | Create(value: V) | Update(value: V, expected: nat) | Delete

  datatype Answer<V> = Found(entry: Entry<V>) | NotFound | Written(revision: nat) | Conflict | Deleted | Failed

  /** One key of the store. high is a revision that no later write repeats. */
  datatype Cell<V> = Cell(entry: Option<Entry<V>>, high: nat)

  /** The contract: op takes the cell from a to b in one step and answers so. Revisions grow
      with every write. */
  ghost predicate Atomic<V>(a: Cell<V>, op: Op<V>, answer: Answer<V>, b: Cell<V>) {
    match op
    case Get =>
      b == a && answer == if a.entry.Some? then Found(a.entry.value) else NotFound
    case Create(v) =>
      if a.entry.Some? then b == a && answer == Conflict
      else answer.Written? && a.high < answer.revision && b == Cell(Some(Entry(v, answer.revision)), answer.revision)
    case Update(v, expected) =>
      if a.entry.None? then b == a && answer == NotFound
      else if a.entry.value.revision != expected then b == a && answer == Conflict
      else answer.Written? && a.high < answer.revision && b == Cell(Some(Entry(v, answer.revision)), answer.revision)
    case Delete =>
      answer == Deleted && if a.entry.None? then b == a else b.entry == None && a.high <= b.high
  }

  /** The revision stored is no newer than high. */
  predicate CellOk<V>(c: Cell<V>) { c.entry.Some? ==> c.entry.value.revision <= c.high }

  lemma AtomicGrows<V>(a: Cell<V>, op: Op<V>, answer: Answer<V>, b: Cell<V>)
    requires CellOk(a) && Atomic(a, op, answer, b)
    ensures CellOk(b) && a.high <= b.high
    ensures b.entry != a.entry && b.entry.Some? ==> b.entry.value.revision > a.high
  {
  }

  /** Cells one operation apart each: a revision that was replaced or deleted is never stored again,
  so an update that expects
      it never succeeds, even after the key was deleted and created again. */
  lemma {:induction false} StaleNeverSucceeds<V>(cells: seq<Cell<V>>, ops: seq<Op<V>>, answers: seq<Answer<V>>, i: nat,
                                                 j: nat, stale: nat)
    requires |cells| == |ops| + 1 && |answers| == |ops| && CellOk(cells[0]) && i <= j < |ops|
    requires forall i, j | 0 <= i < |ops| && j == i + 1 :: Atomic(cells[i], ops[i], answers[i], cells[j])
    requires stale <= cells[i].high && (cells[i].entry.Some? ==> cells[i].entry.value.revision != stale)
    ensures CellOk(cells[j]) && stale <= cells[j].high
            && (cells[j].entry.Some? ==> cells[j].entry.value.revision != stale)
    ensures ops[j].Update? && ops[j].expected == stale ==>
              cells[j + 1] == cells[j] && (answers[j] == Conflict || answers[j] == NotFound)
    decreases j
  {
    RevisionsOk(cells, ops, answers, j);
    if i < j {
      StaleNeverSucceeds(cells, ops, answers, i, j - 1, stale);
      assert Atomic(cells[j - 1], ops[j - 1], answers[j - 1], cells[j]);
      AtomicGrows(cells[j - 1], ops[j - 1], answers[j - 1], cells[j]);
    }
    assert Atomic(cells[j], ops[j], answers[j], cells[j + 1]);
  }

  lemma {:induction false} RevisionsOk<V>(cells: seq<Cell<V>>, ops: seq<Op<V>>, answers: seq<Answer<V>>, j: nat)
    requires |cells| == |ops| + 1 && |answers| == |ops| && CellOk(cells[0]) && j < |cells|
    requires forall i, j | 0 <= i < |ops| && j == i + 1 :: Atomic(cells[i], ops[i], answers[i], cells[j])
    ensures CellOk(cells[j])
    decreases j
  {
    if j > 0 {
      RevisionsOk(cells, ops, answers, j - 1);
      AtomicGrows(cells[j - 1], ops[j - 1], answers[j - 1], cells[j]);
    }
  }

  // ---------------------------------------------------------------- the store in memory

  type Key = string

  class Mem<V(==)> {
    var entries: map<Key, Entry<V>>
    var rev: nat

    ghost predicate Valid()
      reads this
    {
      forall k | k in entries :: entries[k].revision <= rev
    }

    /** What is stored under k. One counter numbers the writes of all keys. */
    ghost function CellOf(k: Key): (c: Cell<V>)
      reads this
    {
      Cell(if k in entries then Some(entries[k]) else None, rev)
    }

    constructor ()
      ensures Valid() && forall k :: CellOf(k) == Cell(None, 0)
    {
      entries, rev := map[], 0;
    }

    /** Each operation performs one atomic step on its key and touches no other key. */
    method Do(key: Key, op: Op<V>) returns (answer: Answer<V>)
      requires Valid()
      modifies this
      ensures Valid() && Atomic(old(CellOf(key)), op, answer, CellOf(key))
      ensures forall k | k != key :: CellOf(k).entry == old(CellOf(k)).entry
      ensures forall k :: CellOk(CellOf(k))
    {
      match op {
        case Get =>
          if key !in entries { return NotFound; }
          answer := Found(entries[key]);
        case Create(v) =>
          if key in entries { return Conflict; }
          rev := rev + 1;
          entries := entries[key := Entry(v, rev)];
          answer := Written(rev);
        case Update(v, expected) =>
          if key !in entries { return NotFound; }
          if entries[key].revision != expected { return Conflict; }
          rev := rev + 1;
          entries := entries[key := Entry(v, rev)];
          answer := Written(rev);
        case Delete =>
          entries := entries - {key};
          answer := Deleted;
      }
    }
  }
}
