/** The bounded first-in first-out buffer on disk (pkg/coordinator/buffer/buffer.go), down to
    the bytes of its keys and values. */
module DiskBuffer {
  import opened Wrappers

  type byte = x: int | 0 <= x < 256

  type Bytes = seq<byte>

  datatype Entry = Entry(id: Bytes, data: Bytes)

  datatype Item = Item(num: nat, entry: Entry)

  datatype Error = HasNul | TooLarge | Full | Disk

  datatype Stats = Stats(count: nat, bytes: nat, max: nat)

  const TWO_64: nat := 0x1_0000_0000_0000_0000

  // ---------------------------------------------------------------- keys

  /** n as width bytes, most significant first. */
  function BigEndian(n: nat, width: nat): (k: Bytes)
    ensures |k| == width
  {
    if width == 0 then [] else BigEndian(n / 256, width - 1) + [n % 256]
  }

  function Number(k: Bytes): nat {
    if k == [] then 0 else 256 * Number(k[..|k| - 1]) + k[|k| - 1]
  }

  function EncodeKey(n: nat): Bytes { BigEndian(n, 8) }

  function Pow256(k: nat): nat { if k == 0 then 1 else 256 * Pow256(k - 1) }

  lemma {:induction false} NumberOfBigEndian(n: nat, width: nat)
    requires n < Pow256(width)
    ensures Number(BigEndian(n, width)) == n
    decreases width
  {
    if width > 0 {
      NumberOfBigEndian(n / 256, width - 1);
      assert BigEndian(n, width)[..width - 1] == BigEndian(n / 256, width - 1);
    }
  }

  lemma KeyRoundTrip(n: nat)
    requires n < TWO_64
    ensures Number(EncodeKey(n)) == n
  {
    assert Pow256(8) == TWO_64;
    NumberOfBigEndian(n, 8);
  }

  /** The order in which the database keeps keys. */
  predicate Before(a: Bytes, b: Bytes) {
    if b == [] then false
    else if a == [] then true
    else a[0] < b[0] || (a[0] == b[0] && Before(a[1..], b[1..]))
  }

  /** Between keys of one length, the last byte decides when all others are the same. */
  lemma {:induction false} BeforeFromTheEnd(a: Bytes, b: Bytes)
    requires |a| == |b| > 0
    ensures var x, y := a[..|a| - 1], b[..|b| - 1];
            Before(a, b) <==> Before(x, y) || (x == y && a[|a| - 1] < b[|b| - 1])
    decreases |a|
  {
    var x, y := a[..|a| - 1], b[..|b| - 1];
    if |a| > 1 {
      BeforeFromTheEnd(a[1..], b[1..]);
      assert a[1..][..|a| - 2] == x[1..] && b[1..][..|b| - 2] == y[1..];
      assert x == y <==> a[0] == b[0] && x[1..] == y[1..] by {
        if a[0] == b[0] && x[1..] == y[1..] {
          assert x == [a[0]] + x[1..] && y == [b[0]] + y[1..];
        }
      }
    }
  }

  /** The byte order of keys is the order of the numbers. */
  lemma {:induction false} KeyOrder(a: Bytes, b: Bytes)
    requires |a| == |b|
    ensures Before(a, b) <==> Number(a) < Number(b)
    decreases |a|
  {
    if a != [] {
      var x, y := a[..|a| - 1], b[..|b| - 1];
      BeforeFromTheEnd(a, b);
      KeyOrder(x, y);
      KeyOrder(y, x);
      BeforeIsTotal(x, y);
    }
  }

  lemma {:induction false} BeforeIsTotal(a: Bytes, b: Bytes)
    ensures Before(a, b) || Before(b, a) || a == b
    decreases |a|
  {
    if a != [] && b != [] {
      BeforeIsTotal(a[1..], b[1..]);
      if a[1..] == b[1..] && a[0] == b[0] { assert a == [a[0]] + a[1..] && b == [b[0]] + b[1..]; }
    }
  }

  lemma NumberOrder(m: nat, n: nat)
    requires m < TWO_64 && n < TWO_64
    ensures Before(EncodeKey(m), EncodeKey(n)) <==> m < n
    ensures EncodeKey(m) == EncodeKey(n) <==> m == n
  {
    KeyRoundTrip(m);
    KeyRoundTrip(n);
    KeyOrder(EncodeKey(m), EncodeKey(n));
  }

  // ---------------------------------------------------------------- values

  const NUL: byte := 0

  function EncodeValue(e: Entry): Bytes { e.id + [NUL] + e.data }

  /** The position of the first NUL, or the length. */
  function FirstNul(v: Bytes): (i: nat)
    ensures i <= |v| && (forall j | 0 <= j < i :: v[j] != NUL) && (i < |v| ==> v[i] == NUL)
  {
    if v == [] || v[0] == NUL then 0 else 1 + FirstNul(v[1..])
  }

  function DecodeValue(v: Bytes): Entry {
    var i := FirstNul(v);
    if i == |v| then Entry(v, []) else Entry(v[..i], v[i + 1..])
  }

  /** Decoding undoes encoding exactly for the entries that Append lets through. */
  lemma ValueRoundTrip(e: Entry)
    ensures DecodeValue(EncodeValue(e)) == e <==> NUL !in e.id
  {
    var v, i := EncodeValue(e), FirstNul(EncodeValue(e));
    assert v[|e.id|] == NUL && v[..|e.id|] == e.id && v[|e.id| + 1..] == e.data;
    assert forall j | 0 <= j < |e.id| :: v[j] == e.id[j];
    if NUL in e.id {
      assert |DecodeValue(v).id| == i < |e.id|;
    } else {
      assert i == |e.id|;
    }
  }

  function Size(e: Entry): nat { |e.id| + |e.data| }

  function TotalSize(entries: seq<Entry>): nat {
    if entries == [] then 0 else TotalSize(entries[..|entries| - 1]) + Size(entries[|entries| - 1])
  }

  function ItemsSize(items: seq<Item>): nat {
    if items == [] then 0 else ItemsSize(items[..|items| - 1]) + Size(items[|items| - 1].entry)
  }

  lemma {:induction false} SizesAdd(a: seq<Item>, b: seq<Item>)
    ensures ItemsSize(a + b) == ItemsSize(a) + ItemsSize(b)
    decreases |b|
  {
    if b == [] {
      assert a + b == a;
    } else {
      assert (a + b)[..|a + b| - 1] == a + b[..|b| - 1];
      SizesAdd(a, b[..|b| - 1]);
    }
  }

  /** The entries with the numbers that follow last. */
  function Numbered(entries: seq<Entry>, last: nat): (items: seq<Item>)
    ensures |items| == |entries|
    ensures forall i | 0 <= i < |items| :: items[i] == Item(last + 1 + i, entries[i])
  {
    seq(|entries|, i requires 0 <= i < |entries| => Item(last + 1 + i, entries[i]))
  }

  lemma {:induction false} NumberedSize(entries: seq<Entry>, last: nat)
    ensures ItemsSize(Numbered(entries, last)) == TotalSize(entries)
    decreases |entries|
  {
    if entries != [] {
      var n := |entries| - 1;
      assert Numbered(entries, last)[..n] == Numbered(entries[..n], last);
      NumberedSize(entries[..n], last);
    }
  }

  /** One entry has the size of its ID and data, and sizes add up. */
  lemma SizesOfOne(e: Entry, num: nat)
    ensures TotalSize([]) == ItemsSize([]) == 0
    ensures TotalSize([e]) == ItemsSize([Item(num, e)]) == |e.id| + |e.data|
  {
    assert [e][..0] == [] && [Item(num, e)][..0] == [];
  }

  /** The first entry that cannot be stored has that fault. */
  ghost predicate Refused(entries: seq<Entry>, max: nat, error: Error) {
    exists i :: 0 <= i < |entries| && (forall j | 0 <= j < i :: Acceptable(entries[j], max)) &&
                if 0 in entries[i].id then error == HasNul
                else error == TooLarge && |entries[i].id| + |entries[i].data| > max
  }

  /** An append is refused for the first entry with a NUL in its ID or of too large a size. */
  lemma RefusedFor(entries: seq<Entry>, max: nat, error: Error, i: nat)
    requires i < |entries| && (0 in entries[i].id || |entries[i].id| + |entries[i].data| > max)
    requires forall j | 0 <= j < i :: 0 !in entries[j].id && |entries[j].id| + |entries[j].data| <= max
    ensures Refused(entries, max, error) <==> error == if 0 in entries[i].id then HasNul else TooLarge
  {
    hide Size;
    forall j | 0 <= j < i
      ensures Acceptable(entries[j], max)
    {
      SizeIs(entries[j]);
    }
    SizeIs(entries[i]);
    assert !Acceptable(entries[i], max);
  }

  lemma SizeIs(e: Entry)
    ensures Size(e) == |e.id| + |e.data|
  {
  }

  predicate Acceptable(e: Entry, max: nat) { NUL !in e.id && Size(e) <= max }

  // ---------------------------------------------------------------- the table

  type Table = map<Bytes, Bytes>

  /** The table holds exactly the items, under their numbers. */
  ghost predicate Holds(table: Table, items: seq<Item>) {
    && (forall i | 0 <= i < |items| ::
          EncodeKey(items[i].num) in table && table[EncodeKey(items[i].num)] == EncodeValue(items[i].entry))
    && (forall k | k in table :: exists i :: 0 <= i < |items| && k == EncodeKey(items[i].num))
  }

  /** Items numbered without gaps up to last, all acceptable. */
  ghost predicate Queue(items: seq<Item>, last: nat) {
    && |items| <= last < TWO_64
    && (forall i | 0 <= i < |items| :: items[i].num == last - |items| + 1 + i)
    && (forall i | 0 <= i < |items| :: NUL !in items[i].entry.id)
  }

  lemma PutLast(table: Table, items: seq<Item>, last: nat, e: Entry)
    requires Holds(table, items) && Queue(items, last) && last + 1 < TWO_64 && NUL !in e.id
    ensures Holds(table[EncodeKey(last + 1) := EncodeValue(e)], items + [Item(last + 1, e)])
    ensures Queue(items + [Item(last + 1, e)], last + 1)
  {
    hide EncodeKey, EncodeValue;
    var longer := items + [Item(last + 1, e)];
    forall i | 0 <= i < |items|
      ensures EncodeKey(items[i].num) != EncodeKey(last + 1)
    {
      NumberOrder(items[i].num, last + 1);
    }
    forall k | k in table
      ensures exists i :: 0 <= i < |longer| && k == EncodeKey(longer[i].num)
    {
      var i :| 0 <= i < |items| && k == EncodeKey(items[i].num);
      assert k == EncodeKey(longer[i].num);
    }
    assert EncodeKey(last + 1) == EncodeKey(longer[|items|].num);
  }

  lemma DropFirst(table: Table, items: seq<Item>, last: nat)
    requires Holds(table, items) && Queue(items, last) && items != []
    ensures Holds(table - {EncodeKey(items[0].num)}, items[1..]) && Queue(items[1..], last)
  {
    hide EncodeKey, EncodeValue;
    forall i | 0 < i < |items|
      ensures EncodeKey(items[i].num) != EncodeKey(items[0].num)
      ensures items[i] == items[1..][i - 1]
    {
      NumberOrder(items[0].num, items[i].num);
    }
    forall k | k in table && k != EncodeKey(items[0].num)
      ensures exists i :: 0 <= i < |items[1..]| && k == EncodeKey(items[1..][i].num)
    {
      var i :| 0 <= i < |items| && k == EncodeKey(items[i].num);
      assert items[1..][i - 1] == items[i];
    }
  }

  /** The least key beyond the given one, or the least of all. */
  ghost predicate IsNext(table: Table, after: Option<Bytes>, k: Bytes) {
    && k in table && (after.Some? ==> Before(after.value, k))
    && forall other | other in table && other != k && (after.Some? ==> Before(after.value, other)) :: Before(k, other)
  }

  ghost predicate NothingBeyond(table: Table, after: Option<Bytes>) {
    forall k | k in table :: after.Some? && !Before(after.value, k)
  }

  ghost predicate Sought(table: Table, after: Option<Bytes>, k: Option<Bytes>) {
    if k.Some? then IsNext(table, after, k.value) else NothingBeyond(table, after)
  }

  /** The cursor visits the items in queue order. */
  lemma NextItem(table: Table, items: seq<Item>, last: nat, i: nat, after: Option<Bytes>, k: Option<Bytes>)
    requires Holds(table, items) && Queue(items, last) && i <= |items|
    requires after == (if i == 0 then None else Some(EncodeKey(items[i - 1].num))) && Sought(table, after, k)
    ensures k == if i < |items| then Some(EncodeKey(items[i].num)) else None
  {
    hide EncodeKey, EncodeValue, Before;
    forall j, m | 0 <= j < |items| && 0 <= m < |items|
      ensures Before(EncodeKey(items[j].num), EncodeKey(items[m].num)) <==> j < m
      ensures EncodeKey(items[j].num) == EncodeKey(items[m].num) <==> j == m
    {
      NumberOrder(items[j].num, items[m].num);
    }
    if i < |items| {
      assert IsNext(table, after, EncodeKey(items[i].num));
    }
  }

  lemma {:induction false} BeforeIsOrder(a: Bytes, b: Bytes, c: Bytes)
    ensures Before(a, b) && Before(b, c) ==> Before(a, c)
    ensures !Before(a, a)
    decreases |a|
  {
    if a != [] { BeforeIsOrder(a[1..], if b == [] then [] else b[1..], if c == [] then [] else c[1..]); }
  }

  /** Moves the database cursor. */
  method Seek(table: Table, after: Option<Bytes>) returns (k: Option<Bytes>)
    ensures Sought(table, after, k)
  {
    k := None;
    var todo := table.Keys;
    while todo != {}
      invariant todo <= table.Keys
      invariant k.Some? ==> k.value !in todo && IsNext(map x | x in table && x !in todo :: table[x], after, k.value)
      invariant k.None? ==>
                  forall other | other in table && other !in todo :: after.Some? && !Before(after.value, other)
    {
      var next :| next in todo;
      todo := todo - {next};
      if after.None? || Before(after.value, next) {
        if k.Some? { BeforeIsTotal(next, k.value); }
        if k.None? || Before(next, k.value) {
          forall other | other in table && other !in todo && k.Some?
            ensures Before(next, k.value) && Before(k.value, other) ==> Before(next, other)
          {
            BeforeIsOrder(next, k.value, other);
          }
          k := Some(next);
        }
      }
    }
    assert (map x | x in table && x !in todo :: table[x]) == table;
  }

  // ---------------------------------------------------------------- the buffer

  class Buffer {
    const max: nat
    var items: Table
    /** The last number given to an item. */
    var sequence: nat
    var count: nat
    var bytes: nat
    /** The items, oldest first. */
    ghost var queue: seq<Item>

    ghost predicate Valid()
      reads this
    {
      && Queue(queue, sequence) && Holds(items, queue)
      && count == |queue| && bytes == ItemsSize(queue) <= max
    }

    constructor (max: nat)
      requires max > 0
      ensures Valid() && queue == [] && sequence == 0 && this.max == max
    {
      this.max := max;
      items, sequence, count, bytes := map[], 0, 0, 0;
      queue := [];
    }

    /** The total size of the entries, or why one of them is refused. */
    method Check(entries: seq<Entry>) returns (error: Option<Error>, total: nat)
      ensures error.None? <==> forall e | e in entries :: 0 !in e.id && |e.id| + |e.data| <= max
      ensures error.None? ==> total == TotalSize(entries)
      ensures error.Some? ==> Refused(entries, max, error.value)
    {
      total := 0;
      var i := 0;
      while i < |entries|
        invariant 0 <= i <= |entries| && total == TotalSize(entries[..i])
        invariant forall j | 0 <= j < i :: Acceptable(entries[j], max)
      {
        var e := entries[i];
        assert e in entries;
        if NUL in e.id { return Some(HasNul), 0; }
        if Size(e) > max { return Some(TooLarge), 0; }
        assert entries[..i + 1][..i] == entries[..i];
        total := total + Size(e);
        i := i + 1;
      }
      assert entries[..i] == entries;
      error := None;
    }

    /** Adds the entries in order, all or none. commits says whether the database accepts the
        transaction. Numbers do not run out: 2^64 appends are out of reach. */
    method Append(entries: seq<Entry>, commits: bool) returns (error: Option<Error>)
      requires Valid() && sequence + |entries| < TWO_64
      modifies this`items, this`sequence, this`count, this`bytes, this`queue
      ensures Valid()
      ensures error.None? ==>
                queue == old(queue) + Numbered(entries, old(sequence)) && sequence == old(sequence) + |entries|
      ensures error.Some? ==> unchanged(this)
      ensures error.None? <==>
                && commits && (forall e | e in entries :: 0 !in e.id && |e.id| + |e.data| <= max)
                && ItemsSize(old(queue)) + TotalSize(entries) <= max
      ensures error == Some(Full) <==>
                && (forall e | e in entries :: 0 !in e.id && |e.id| + |e.data| <= max)
                && ItemsSize(old(queue)) + TotalSize(entries) > max
      ensures error == Some(HasNul) || error == Some(TooLarge) <==>
                exists e :: e in entries && (0 in e.id || |e.id| + |e.data| > max)
      ensures error == Some(HasNul) || error == Some(TooLarge) ==> Refused(entries, max, error.value)
    {
      hide Queue, Holds, EncodeKey, EncodeValue, ItemsSize, TotalSize, Size, Refused;
      var total;
      error, total := Check(entries);
      if error.Some? { return; }
      if bytes + total > max { return Some(Full); }
      var table, last, i := items, sequence, 0;
      ghost var added := Numbered(entries, sequence);
      assert queue + added[..0] == queue;
      while i < |entries|
        invariant 0 <= i <= |entries| && last == sequence + i
        invariant Queue(queue + added[..i], last) && Holds(table, queue + added[..i])
        modifies {}
      {
        assert entries[i] in entries;
        assert queue + added[..i + 1] == queue + added[..i] + [Item(last + 1, entries[i])];
        PutLast(table, queue + added[..i], last, entries[i]);
        table := table[EncodeKey(last + 1) := EncodeValue(entries[i])];
        last := last + 1;
        i := i + 1;
      }
      if !commits { return Some(Disk); }
      assert added[..i] == added;
      NumberedSize(entries, sequence);
      SizesAdd(queue, added);
      queue := queue + added;
      items, sequence := table, last;
      bytes, count := bytes + total, count + |entries|;
    }

    /** Up to n of the oldest items. */
    method Peek(n: int) returns (out: seq<Item>)
      requires Valid()
      ensures out == queue[..Max(0, Min(n, |queue|))]
    {
      hide Queue, Holds, EncodeKey, EncodeValue, Sought;
      out := [];
      var k := Seek(items, None);
      NextItem(items, queue, sequence, 0, None, k);
      while k.Some? && |out| < n
        invariant |out| <= |queue| && out == queue[..|out|] && (n < 0 ==> out == []) && (n >= 0 ==> |out| <= n)
        invariant k == if |out| < |queue| then Some(EncodeKey(queue[|out|].num)) else None
        decreases n - |out|
      {
        ItemAt(items, queue, sequence, |out|);
        out := out + [Item(Number(k.value), DecodeValue(items[k.value]))];
        ghost var after := k;
        k := Seek(items, k);
        NextItem(items, queue, sequence, |out|, after, k);
      }
    }

    /** Deletes the items with numbers up to upTo. */
    method Remove(upTo: nat, commits: bool) returns (ok: bool)
      requires Valid()
      modifies this`items, this`count, this`bytes, this`queue
      ensures Valid()
      ensures !ok ==> unchanged(this)
      ensures ok ==> exists k :: 0 <= k <= |old(queue)| && queue == old(queue)[k..] && Splits(old(queue), k, upTo)
      ensures ok <==> commits
    {
      hide Queue, Holds, EncodeKey, EncodeValue, Sought, Splits, ItemsSize;
      var table, removed, freed := items, 0, 0;
      var k := Seek(table, None);
      NextItem(items, queue, sequence, 0, None, k);
      NothingFreed(queue);
      while k.Some? && Number(k.value) <= upTo
        invariant 0 <= removed <= |queue|
        invariant Queue(queue[removed..], sequence) && Holds(table, queue[removed..])
        invariant freed == ItemsSize(queue[..removed])
        invariant k == if removed < |queue| then Some(EncodeKey(queue[removed].num)) else None
        invariant removed > 0 ==> queue[removed - 1].num <= upTo
        decreases |queue| - removed
        modifies {}
      {
        ItemAt(table, queue[removed..], sequence, 0);
        OneMore(queue, removed);
        DropFirst(table, queue[removed..], sequence);
        freed := freed + Size(DecodeValue(table[k.value]));
        table := table - {k.value};
        removed := removed + 1;
        k := Seek(table, None);
        NextItem(table, queue[removed..], sequence, 0, None, k);
      }
      if !commits { return false; }
      if removed < |queue| { ItemAt(table, queue[removed..], sequence, 0); }
      SplitAt(queue, sequence, removed, upTo);
      ok := true;
      queue := queue[removed..];
      items := table;
      if removed == 0 { return; }
      bytes, count := bytes - freed, count - removed;
    }

    /** Reads the counters, which always tell the contents. */
    method GetStats() returns (s: Stats)
      requires Valid()
      ensures s == Stats(|queue|, ItemsSize(queue), max) && s.bytes <= s.max
    {
      s := Stats(count, bytes, max);
    }
  }

  /** Exactly the first k items have numbers up to upTo. */
  ghost predicate Splits(items: seq<Item>, k: nat, upTo: nat) {
    && (forall i | 0 <= i < k && i < |items| :: items[i].num <= upTo)
    && (forall i | k <= i < |items| :: items[i].num > upTo)
  }

  /** The items that remain are those with later numbers. */
  lemma SplitsIff(items: seq<Item>, k: nat, upTo: nat)
    requires k <= |items|
    ensures Splits(items, k, upTo) <==>
              && (forall it | it in items[..k] :: it.num <= upTo) && forall it | it in items[k..] :: it.num > upTo
  {
  }

  lemma SplitAt(items: seq<Item>, last: nat, k: nat, upTo: nat)
    requires Queue(items, last) && k <= |items|
    requires (k > 0 ==> items[k - 1].num <= upTo) && (k < |items| ==> items[k].num > upTo)
    ensures Splits(items, k, upTo) && ItemsSize(items) == ItemsSize(items[..k]) + ItemsSize(items[k..])
    ensures k == 0 ==> ItemsSize(items[..k]) == 0
  {
    assert items == items[..k] + items[k..];
    SizesAdd(items[..k], items[k..]);
  }

  lemma NothingFreed(items: seq<Item>)
    ensures ItemsSize(items[..0]) == 0 && items[0..] == items
  {
  }

  lemma OneMore(items: seq<Item>, k: nat)
    requires k < |items|
    ensures items[k..][0] == items[k] && items[k..][1..] == items[k + 1..]
    ensures ItemsSize(items[..k + 1]) == ItemsSize(items[..k]) + Size(items[k].entry)
  {
    assert items[..k + 1][..k] == items[..k];
  }

  lemma ItemAt(table: Table, items: seq<Item>, last: nat, i: nat)
    requires Holds(table, items) && Queue(items, last) && i < |items|
    ensures var k := EncodeKey(items[i].num);
            k in table && Number(k) == items[i].num && DecodeValue(table[k]) == items[i].entry
  {
    hide EncodeKey, EncodeValue;
    KeyRoundTrip(items[i].num);
    ValueRoundTrip(items[i].entry);
  }
}
