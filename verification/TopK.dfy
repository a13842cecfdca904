/** Merging the results of several shard readers (pkg/bluge/search/search.go). */
module TopK {
  import opened Wrappers

  /** A match. rank stands for its place in the sort order; equal ranks are ties. */
  datatype Match = Match(id: string, rank: int)

  ghost predicate Sorted(s: seq<Match>) {
    forall i, j | 0 <= i < j < |s| :: s[i].rank <= s[j].rank
  }

  /** No match of rest comes before one of first. */
  ghost predicate Precede(first: seq<Match>, rest: seq<Match>) {
    forall i, j | 0 <= i < |first| && 0 <= j < |rest| :: first[i].rank <= rest[j].rank
  }

  // ---------------------------------------------------------------- counting

  function CountBefore(s: seq<Match>, rank: int): nat {
    if s == [] then 0 else CountBefore(s[..|s| - 1], rank) + if s[|s| - 1].rank < rank then 1 else 0
  }

  lemma {:induction false} CountConcat(a: seq<Match>, b: seq<Match>, rank: int)
    ensures CountBefore(a + b, rank) == CountBefore(a, rank) + CountBefore(b, rank)
    decreases |b|
  {
    if b == [] {
      assert a + b == a;
    } else {
      assert (a + b)[..|a + b| - 1] == a + b[..|b| - 1];
      CountConcat(a, b[..|b| - 1], rank);
    }
  }

  lemma {:induction false} CountAtMost(s: seq<Match>, i: nat, rank: int)
    requires i <= |s| && forall j | i <= j < |s| :: s[j].rank >= rank
    ensures CountBefore(s, rank) <= i
    decreases |s|
  {
    if i < |s| {
      CountAtMost(s[..|s| - 1], i, rank);
    } else if s != [] {
      CountAtMost(s[..|s| - 1], i - 1, rank);
    }
  }

  lemma {:induction false} CountAll(s: seq<Match>, rank: int)
    requires forall j | 0 <= j < |s| :: s[j].rank < rank
    ensures CountBefore(s, rank) == |s|
    decreases |s|
  {
    if s != [] { CountAll(s[..|s| - 1], rank); }
  }

  lemma CountAtLeast(s: seq<Match>, i: nat, rank: int)
    requires i <= |s| && forall j | 0 <= j < i :: s[j].rank < rank
    ensures CountBefore(s, rank) >= i
  {
    assert s == s[..i] + s[i..];
    CountConcat(s[..i], s[i..], rank);
    CountAll(s[..i], rank);
  }

  lemma TakeOne(s: seq<Match>, x: Match) returns (left: seq<Match>, right: seq<Match>)
    requires x in multiset(s)
    ensures s == left + [x] + right && multiset(s) == multiset(left + right) + multiset{x}
  {
    var i :| 0 <= i < |s| && s[i] == x;
    left, right := s[..i], s[i + 1..];
    assert s == left + [x] + right;
  }

  lemma Cancel(a: multiset<Match>, b: multiset<Match>, x: Match)
    requires a + multiset{x} == b + multiset{x}
    ensures a == b
  {
    forall y: Match
      ensures a[y] == b[y]
    {
      assert (a + multiset{x})[y] == (b + multiset{x})[y];
    }
  }

  lemma CountOne(x: Match, rank: int)
    ensures CountBefore([x], rank) == if x.rank < rank then 1 else 0
  {
    assert [x][..0] == [];
  }

  /** The count does not depend on the order. */
  lemma {:induction false} CountSame(a: seq<Match>, b: seq<Match>, rank: int)
    requires multiset(a) == multiset(b)
    ensures CountBefore(a, rank) == CountBefore(b, rank)
    decreases |a|
  {
    hide CountBefore;
    if a == [] {
      assert |multiset(b)| == |b|;
    } else {
      var n, x := |a| - 1, a[|a| - 1];
      assert a == a[..n] + [x];
      var left, right := TakeOne(b, x);
      Cancel(multiset(a[..n]), multiset(left + right), x);
      CountSame(a[..n], left + right, rank);
      CountConcat(a[..n], [x], rank);
      CountConcat(left + [x], right, rank);
      CountConcat(left, [x], rank);
      CountConcat(left, right, rank);
      CountOne(x, rank);
    }
  }

  // ---------------------------------------------------------------- the heap

  /** The order of container/heap on the first n elements. */
  ghost predicate IsHeap(docs: seq<Match>, n: nat) {
    n <= |docs| && forall i, k | 0 <= i < k < n && (k == 2 * i + 1 || k == 2 * i + 2) :: docs[i].rank <= docs[k].rank
  }

  lemma {:induction false} RootIsLeast(docs: seq<Match>, n: nat, k: nat)
    requires IsHeap(docs, n) && k < n
    ensures docs[0].rank <= docs[k].rank
    decreases k
  {
    if k > 0 {
      RootIsLeast(docs, n, (k - 1) / 2);
      assert k == 2 * ((k - 1) / 2) + 1 || k == 2 * ((k - 1) / 2) + 2;
    }
  }

  function Swapped(docs: seq<Match>, i: nat, j: nat): (after: seq<Match>)
    requires i < |docs| && j < |docs|
    ensures |after| == |docs| && multiset(after) == multiset(docs)
    ensures after[i] == docs[j] && after[j] == docs[i] && forall k | 0 <= k < |docs| && k != i && k != j ::
              after[k] == docs[k]
  {
    docs[i := docs[j]][j := docs[i]]
  }

  /** Only the element j may come before its parent; its children do not come before its parent. */
  ghost predicate HeapButUp(docs: seq<Match>, j: nat) {
    && j < |docs|
    && (forall i, k | 0 <= i < k < |docs| && k != j && (k == 2 * i + 1 || k == 2 * i + 2) ::
          docs[i].rank <= docs[k].rank)
    && (forall i, k | 0 <= i < j < k < |docs| && (j == 2 * i + 1 || j == 2 * i + 2)
        && (k == 2 * j + 1 || k == 2 * j + 2) ::
          docs[i].rank <= docs[k].rank)
  }

  /** Only the element i may come after its children; they do not come before its parent. */
  ghost predicate HeapButDown(docs: seq<Match>, i: nat, n: nat) {
    && i < n <= |docs|
    && (forall h, k | 0 <= h < k < n && h != i && (k == 2 * h + 1 || k == 2 * h + 2) :: docs[h].rank <= docs[k].rank)
    && (forall h, k | 0 <= h < i < k < n && (i == 2 * h + 1 || i == 2 * h + 2) && (k == 2 * i + 1 || k == 2 * i + 2) ::
          docs[h].rank <= docs[k].rank)
  }

  lemma SwapsUp(docs: seq<Match>, j: nat)
    requires HeapButUp(docs, j) && j > 0 && docs[j].rank < docs[(j - 1) / 2].rank
    ensures HeapButUp(Swapped(docs, (j - 1) / 2, j), (j - 1) / 2)
  {
    var p := (j - 1) / 2;
    assert j == 2 * p + 1 || j == 2 * p + 2;
  }

  lemma SwapsDown(docs: seq<Match>, i: nat, n: nat, j: nat)
    requires HeapButDown(docs, i, n) && j < n && (j == 2 * i + 1 || j == 2 * i + 2) && docs[j].rank < docs[i].rank
    requires 2 * i + 1 < n ==> docs[j].rank <= docs[2 * i + 1].rank
    requires 2 * i + 2 < n ==> docs[j].rank <= docs[2 * i + 2].rank
    ensures HeapButDown(Swapped(docs, i, j), j, n)
  {
    hide Swapped;
    var after := Swapped(docs, i, j);
    forall h, k | 0 <= h < k < n && h != j && (k == 2 * h + 1 || k == 2 * h + 2)
      ensures after[h].rank <= after[k].rank
    {
      if h == i {
        assert after[h] == docs[j];
      } else if k == i {
        assert docs[h].rank <= docs[j].rank;
      } else {
        assert k != j && docs[h].rank <= docs[k].rank;
      }
    }
    forall k | j < k < n && (k == 2 * j + 1 || k == 2 * j + 2)
      ensures after[i].rank <= after[k].rank
    {
      assert docs[j].rank <= docs[k].rank;
    }
  }

  class DocumentList {
    var from: int
    var size: int
    var len: int
    var next: int
    var docs: seq<Match>
    /** The matches taken out so far. */
    ghost var taken: seq<Match>

    /** What was taken out is in order and comes before what is left. */
    ghost predicate InOrder()
      reads this
    {
      IsHeap(docs, |docs|) && Sorted(taken) && Precede(taken, docs)
    }

    constructor (from: int, size: int)
      ensures this.from == from && this.size == size && len == 0 && next == 0 && docs == [] && taken == [] && InOrder()
    {
      this.from, this.size, len, next, docs, taken := from, size, 0, 0, [], [];
    }

    method Push(doc: Match)
      requires IsHeap(docs, |docs|)
      modifies this`docs
      ensures IsHeap(docs, |docs|) && multiset(docs) == old(multiset(docs)) + multiset{doc}
    {
      docs := docs + [doc];
      var j := |docs| - 1;
      while j > 0 && docs[j].rank < docs[(j - 1) / 2].rank
        invariant 0 <= j && HeapButUp(docs, j) && multiset(docs) == old(multiset(docs)) + multiset{doc}
        decreases j
      {
        SwapsUp(docs, j);
        docs := Swapped(docs, (j - 1) / 2, j);
        j := (j - 1) / 2;
      }
      forall i, k | 0 <= i < k < |docs| && (k == 2 * i + 1 || k == 2 * i + 2)
        ensures docs[i].rank <= docs[k].rank
      {
        if k == j { assert i == (j - 1) / 2; }
      }
    }

    /** Skips the first matches. */
    method Done()
      requires InOrder() && taken == []
      modifies this`docs, this`len, this`taken
      ensures InOrder() && multiset(taken) + multiset(docs) == old(multiset(docs)) && len == |docs|
      ensures |taken| == Min(Max(0, from), |old(docs)|)
    {
      hide IsHeap, Sorted, Precede;
      var all := |docs|;
      var i := 0;
      while i < from && i < all
        invariant 0 <= i <= Max(0, from) && i <= all && |taken| == i && |docs| == all - i
        invariant InOrder() && multiset(taken) + multiset(docs) == old(multiset(docs))
      {
        var doc := Take();
        i := i + 1;
      }
      len := |docs|;
    }

    method Next() returns (doc: Option<Match>)
      requires InOrder() && 0 <= next && len - next == |docs|
      modifies this`docs, this`next, this`taken
      ensures InOrder() && multiset(taken) + multiset(docs) == old(multiset(taken) + multiset(docs))
      ensures doc == None <==> old(next) >= size || old(docs) == []
      ensures doc == None ==> next == old(next) && docs == old(docs) && taken == old(taken)
      ensures doc.Some? ==> next == old(next) + 1 && |docs| == |old(docs)| - 1 && taken == old(taken) + [doc.value]
    {
      if next >= size || next >= len { return None; }
      var d := Take();
      next := next + 1;
      doc := Some(d);
    }

    method Take() returns (doc: Match)
      requires InOrder() && docs != []
      modifies this`docs, this`taken
      ensures InOrder() && multiset(taken) + multiset(docs) == old(multiset(taken) + multiset(docs))
      ensures |docs| == |old(docs)| - 1 && taken == old(taken) + [doc]
    {
      ghost var before := docs;
      doc := Pop();
      Taken(before, docs, taken, doc);
      taken := taken + [doc];
    }

    /** Takes out a match that no other one comes before. */
    method Pop() returns (doc: Match)
      requires IsHeap(docs, |docs|) && docs != []
      modifies this`docs
      ensures IsHeap(docs, |docs|) && old(multiset(docs)) == multiset(docs) + multiset{doc}
      ensures |docs| == old(|docs|) - 1 && forall k | 0 <= k < |docs| :: doc.rank <= docs[k].rank
    {
      hide IsHeap, HeapButDown, Swapped;
      var n := |docs| - 1;
      ghost var before := docs;
      RootIsFirst(docs);
      if n > 0 { RootReplaced(docs); }
      docs := Swapped(docs, 0, n);
      doc := docs[n];
      Down(n);
      assert docs[n..][0] == doc;
      StillAfter(before, docs[..n], docs[n], docs);
      HeapPrefix(docs, n);
      docs := docs[..n];
    }

    /** Restores the heap order of the first n elements, of which only the first may be wrong. */
    method Down(n: nat)
      requires n < |docs| && (n > 0 ==> HeapButDown(docs, 0, n))
      modifies this`docs
      ensures |docs| == |old(docs)| && multiset(docs) == old(multiset(docs)) && docs[n..] == old(docs)[n..]
              && IsHeap(docs, n)
    {
      var i := 0;
      if n == 0 { return; }
      hide IsHeap, HeapButDown, Swapped;
      while 2 * i + 1 < n
        invariant i < n && HeapButDown(docs, i, n)
        invariant |docs| == |old(docs)| && multiset(docs) == old(multiset(docs)) && docs[n..] == old(docs)[n..]
        decreases n - i
      {
        var j := 2 * i + 1;
        if 2 * i + 2 < n && docs[2 * i + 2].rank < docs[2 * i + 1].rank { j := 2 * i + 2; }
        if docs[j].rank >= docs[i].rank {
          SiftedDown(docs, i, n);
          return;
        }
        SwapsDown(docs, i, n, j);
        SwapKeepsTail(docs, i, j, n);
        docs := Swapped(docs, i, j);
        i := j;
      }
      SiftedDown(docs, i, n);
    }
  }

  lemma SwapKeepsTail(docs: seq<Match>, i: nat, j: nat, n: nat)
    requires i < n <= |docs| && j < n
    ensures Swapped(docs, i, j)[n..] == docs[n..]
  {
  }

  lemma RootIsFirst(docs: seq<Match>)
    requires IsHeap(docs, |docs|) && docs != []
    ensures forall k | 0 <= k < |docs| :: docs[0].rank <= docs[k].rank
  {
    forall k | 0 <= k < |docs|
      ensures docs[0].rank <= docs[k].rank
    {
      RootIsLeast(docs, |docs|, k);
    }
  }

  lemma RootReplaced(docs: seq<Match>)
    requires IsHeap(docs, |docs|) && |docs| > 1
    ensures HeapButDown(Swapped(docs, 0, |docs| - 1), 0, |docs| - 1)
  {
  }

  lemma HeapPrefix(docs: seq<Match>, n: nat)
    requires IsHeap(docs, n)
    ensures IsHeap(docs[..n], n)
  {
  }

  lemma StillAfter(before: seq<Match>, rest: seq<Match>, doc: Match, after: seq<Match>)
    requires before != [] && doc == before[0] && forall k | 0 <= k < |before| :: before[0].rank <= before[k].rank
    requires multiset(after) == multiset(before) && after != [] && rest == after[..|after| - 1]
             && after[|after| - 1] == doc
    ensures multiset(before) == multiset(rest) + multiset{doc}
    ensures forall k | 0 <= k < |rest| :: doc.rank <= rest[k].rank
  {
    assert after == rest + [doc];
    forall k | 0 <= k < |rest|
      ensures doc.rank <= rest[k].rank
    {
      assert after[k] in multiset(after);
      assert rest[k] in multiset(before);
    }
  }

  lemma SiftedDown(docs: seq<Match>, i: nat, n: nat)
    requires HeapButDown(docs, i, n)
    requires 2 * i + 1 < n ==> docs[i].rank <= docs[2 * i + 1].rank
    requires 2 * i + 2 < n ==> docs[i].rank <= docs[2 * i + 2].rank
    ensures IsHeap(docs, n)
  {
  }

  lemma Taken(before: seq<Match>, docs: seq<Match>, taken: seq<Match>, doc: Match)
    requires multiset(before) == multiset(docs) + multiset{doc} && Sorted(taken) && Precede(taken, before)
    requires forall k | 0 <= k < |docs| :: doc.rank <= docs[k].rank
    ensures Sorted(taken + [doc]) && Precede(taken + [doc], docs)
  {
    assert doc in multiset(before);
    assert doc in before;
    forall j | 0 <= j < |docs|
      ensures docs[j] in before
    {
      assert docs[j] in multiset(before);
    }
  }

  // ---------------------------------------------------------------- the page

  /** What a reader finds: the matches it returns, and the others. */
  datatype Reader = Reader(top: seq<Match>, rest: seq<Match>)

  /** A reader asked for k matches returns its first k, in order, or all. */
  ghost predicate ReaderOk(r: Reader, k: nat) {
    && Sorted(r.top) && |r.top| <= k && Precede(r.top, r.rest)
    && (r.rest != [] ==> |r.top| == k)
  }

  /** Any reader that sorts its matches and returns the first k of them. */
  lemma SortedReader(matches: seq<Match>, k: nat)
    requires forall i, j | 0 <= i < j < |matches| :: matches[i].rank <= matches[j].rank
    ensures ReaderOk(Reader(matches[..Min(k, |matches|)], matches[Min(k, |matches|)..]), k)
  {
  }

  /** Nothing of a reader is left out. */
  lemma {:induction false} AllMatches(readers: seq<Reader>, i: nat)
    requires i < |readers|
    ensures multiset(readers[i].top) <= multiset(Tops(readers))
    ensures multiset(readers[i].rest) <= multiset(Rests(readers))
    decreases |readers|
  {
    if i < |readers| - 1 { AllMatches(readers[..|readers| - 1], i); }
  }

  function Tops(readers: seq<Reader>): seq<Match> {
    if readers == [] then [] else Tops(readers[..|readers| - 1]) + readers[|readers| - 1].top
  }

  function Rests(readers: seq<Reader>): seq<Match> {
    if readers == [] then [] else Rests(readers[..|readers| - 1]) + readers[|readers| - 1].rest
  }

  ghost predicate PageWith(all: multiset<Match>, from: nat, size: nat, before: seq<Match>, page: seq<Match>,
                           rest: seq<Match>) {
    && multiset(before) + multiset(page) + multiset(rest) == all
    && Sorted(before + page) && Precede(before + page, rest)
    && |before| == Min(from, |all|) && |page| == Min(size, |all| - |before|)
  }

  /** The page of size matches that follow the first from ones. */
  ghost predicate IsPage(all: multiset<Match>, from: nat, size: nat, page: seq<Match>) {
    exists before, rest :: PageWith(all, from, size, before, page, rest)
  }

  /** Such a page is, up to ties, a slice of any sorted arrangement of all matches. */
  lemma PageIsSlice(order: seq<Match>, from: nat, size: nat, page: seq<Match>)
    requires Sorted(order) && IsPage(multiset(order), from, size, page)
    ensures |page| == Min(size, Max(0, |order| - from)) && multiset(page) <= multiset(order)
    ensures forall i | 0 <= i < |page| :: page[i].rank == order[from + i].rank
  {
    var before, rest :| PageWith(multiset(order), from, size, before, page, rest);
    var all := before + page + rest;
    assert multiset(all) == multiset(order);
    forall i | 0 <= i < |before + page|
      ensures (before + page)[i].rank == order[i].rank
    {
      SameRank(before + page, rest, order, i);
    }
    forall i | 0 <= i < |page|
      ensures page[i].rank == order[from + i].rank
    {
      assert (before + page)[from + i] == page[i];
    }
  }

  lemma SameRank(first: seq<Match>, rest: seq<Match>, order: seq<Match>, i: nat)
    requires Sorted(first) && Precede(first, rest) && Sorted(order) && multiset(first + rest) == multiset(order)
             && i < |first|
    ensures |order| == |first| + |rest| && first[i].rank == order[i].rank
  {
    var all := first + rest;
    assert |multiset(all)| == |multiset(order)|;
    hide CountBefore;
    if first[i].rank < order[i].rank {
      var rank := order[i].rank;
      CountSame(all, order, rank);
      CountAtLeast(all, i + 1, rank);
      CountAtMost(order, i, rank);
    } else if order[i].rank < first[i].rank {
      var rank := first[i].rank;
      CountSame(all, order, rank);
      CountAtLeast(order, i + 1, rank);
      CountAtMost(all, i, rank);
    }
  }

  lemma {:induction false} CountTop(readers: seq<Reader>, i: nat, rank: int)
    requires i < |readers|
    ensures CountBefore(readers[i].top, rank) <= CountBefore(Tops(readers), rank)
    decreases |readers|
  {
    hide CountBefore;
    var n := |readers| - 1;
    CountConcat(Tops(readers[..n]), readers[n].top, rank);
    if i < n { CountTop(readers[..n], i, rank); }
  }

  lemma {:induction false} TopLength(readers: seq<Reader>, i: nat)
    requires i < |readers|
    ensures |readers[i].top| <= |Tops(readers)|
    decreases |readers|
  {
    if i < |readers| - 1 { TopLength(readers[..|readers| - 1], i); }
  }

  /** A match that a reader kept back does not come before any of the first k taken: k others
      come before it. */
  lemma KeptBackFollows(readers: seq<Reader>, k: nat, taken: seq<Match>, docs: seq<Match>, i: nat, j: nat)
    requires i < |readers| && j < |readers[i].rest| && ReaderOk(readers[i], k)
    requires multiset(taken + docs) == multiset(Tops(readers)) && Sorted(taken) && Precede(taken, docs) && |taken| <= k
    ensures forall t | 0 <= t < |taken| :: taken[t].rank <= readers[i].rest[j].rank
  {
    var u, n := readers[i].rest[j], |taken|;
    if n > 0 && u.rank < taken[n - 1].rank {
      var rank := taken[n - 1].rank;
      hide CountBefore;
      CountAll(readers[i].top, rank);
      CountTop(readers, i, rank);
      CountSame(taken + docs, Tops(readers), rank);
      CountAtMost(taken + docs, n - 1, rank);
      assert false;
    }
  }

  lemma {:induction false} RestIn(readers: seq<Reader>, m: nat) returns (i: nat, j: nat)
    requires m < |Rests(readers)|
    ensures i < |readers| && j < |readers[i].rest| && Rests(readers)[m] == readers[i].rest[j]
    decreases |readers|
  {
    var n := |readers| - 1;
    var before := Rests(readers[..n]);
    if m < |before| {
      i, j := RestIn(readers[..n], m);
    } else {
      i, j := n, m - |before|;
    }
  }

  /** The merge is right although each reader returns its first matches only. */
  lemma MergeIsPage(readers: seq<Reader>, from: nat, size: nat, before: seq<Match>, page: seq<Match>, docs: seq<Match>)
    requires forall i | 0 <= i < |readers| :: ReaderOk(readers[i], from + size)
    requires multiset(before + page) + multiset(docs) == multiset(Tops(readers))
    requires Sorted(before + page) && Precede(before + page, docs)
    requires |before| == Min(from, |Tops(readers)|) && |page| == Min(size, |Tops(readers)| - |before|)
    ensures IsPage(multiset(Tops(readers) + Rests(readers)), from, size, page)
  {
    hide Sorted, Precede, ReaderOk, Tops, Rests;
    var taken, rest := before + page, docs + Rests(readers);
    NothingBefore(readers, from + size, taken, docs);
    var all := multiset(Tops(readers) + Rests(readers));
    assert |all| == |Tops(readers)| + |Rests(readers)|;
    if Rests(readers) != [] { FullTop(readers, from + size); }
    assert multiset(before) + multiset(page) + multiset(rest) == all;
    assert PageWith(all, from, size, before, page, rest);
  }

  lemma FullTop(readers: seq<Reader>, k: nat)
    requires Rests(readers) != [] && forall i | 0 <= i < |readers| :: ReaderOk(readers[i], k)
    ensures |Tops(readers)| >= k
  {
    var i, j := RestIn(readers, 0);
    TopLength(readers, i);
  }

  lemma NothingBefore(readers: seq<Reader>, k: nat, taken: seq<Match>, docs: seq<Match>)
    requires forall i | 0 <= i < |readers| :: ReaderOk(readers[i], k)
    requires multiset(taken + docs) == multiset(Tops(readers)) && Sorted(taken) && Precede(taken, docs) && |taken| <= k
    ensures Precede(taken, docs + Rests(readers))
  {
    var rest := docs + Rests(readers);
    forall t, m | 0 <= t < |taken| && 0 <= m < |rest|
      ensures taken[t].rank <= rest[m].rank
    {
      if m >= |docs| {
        var i, j := RestIn(readers, m - |docs|);
        hide ReaderOk, Tops, Rests;
        KeptBackFollows(readers, k, taken, docs, i, j);
      }
    }
  }

  /** Merges the matches of the readers, arriving in any order. */
  method MultiSearch(readers: seq<Reader>, from: nat, size: nat, arrivals: seq<Match>) returns (list: DocumentList)
    requires multiset(arrivals) == multiset(Tops(readers))
    ensures fresh(list) && list.InOrder() && list.size == size && list.next == 0 && list.len == |list.docs|
    ensures multiset(list.taken) + multiset(list.docs) == multiset(Tops(readers))
    ensures |list.taken| == Min(from, |Tops(readers)|)
  {
    hide IsHeap, Sorted, Precede;
    list := new DocumentList(from, size);
    Receive(list, arrivals);
    var i := 0;
    while i < |readers|
      invariant 0 <= i <= |readers| && list.size >= size
      modifies list`size
    {
      if |readers[i].top| > list.size { list.size := |readers[i].top|; }
      i := i + 1;
    }
    assert |multiset(list.docs)| == |multiset(Tops(readers))|;
    list.Done();
    if list.size > size { list.size := size; }
  }

  method Receive(list: DocumentList, arrivals: seq<Match>)
    requires list.InOrder() && list.taken == [] && list.docs == []
    modifies list`docs
    ensures list.InOrder() && multiset(list.docs) == multiset(arrivals)
  {
    hide IsHeap, Sorted, Precede;
    var i := 0;
    while i < |arrivals|
      invariant 0 <= i <= |arrivals| && list.InOrder() && multiset(list.docs) == multiset(arrivals[..i])
      modifies list`docs
    {
      list.Push(arrivals[i]);
      NothingTaken(list.docs);
      assert arrivals[..i + 1] == arrivals[..i] + [arrivals[i]];
      i := i + 1;
    }
    assert arrivals[..i] == arrivals;
  }

  /** What a caller reads is the page of all matches of all readers, when each reader returns its
      first from + size: it has the ranks of that slice of every sorted arrangement of them. */
  method Search(readers: seq<Reader>, from: nat, size: nat, arrivals: seq<Match>) returns (page: seq<Match>)
    requires forall i | 0 <= i < |readers| :: ReaderOk(readers[i], from + size)
    requires multiset(arrivals) == multiset(Tops(readers))
    ensures IsPage(multiset(Tops(readers) + Rests(readers)), from, size, page)
    ensures forall order: seq<Match> |
              && multiset(order) == multiset(Tops(readers) + Rests(readers))
              && (forall i, j | 0 <= i < j < |order| :: order[i].rank <= order[j].rank) ::
              && multiset(page) <= multiset(order) && |page| == Min(size, Max(0, |order| - from))
              && forall i | 0 <= i < |page| :: page[i].rank == order[from + i].rank
  {
    hide IsPage, ReaderOk, Tops, Rests, Sorted, Precede, IsHeap;
    var list := MultiSearch(readers, from, size, arrivals);
    ghost var before := list.taken;
    page := ReadAll(list);
    assert multiset(before + page) + multiset(list.docs) == multiset(Tops(readers));
    SameSize(before + page, list.docs, Tops(readers));
    MergeIsPage(readers, from, size, before, page, list.docs);
    forall order: seq<Match> |
      && multiset(order) == multiset(Tops(readers) + Rests(readers))
      && (forall i, j | 0 <= i < j < |order| :: order[i].rank <= order[j].rank)
      ensures && multiset(page) <= multiset(order) && |page| == Min(size, Max(0, |order| - from))
              && forall i | 0 <= i < |page| :: page[i].rank == order[from + i].rank
    {
      InOrderIsSorted(order);
      PageIsSlice(order, from, size, page);
    }
  }

  lemma InOrderIsSorted(order: seq<Match>)
    ensures Sorted(order) <==> forall i, j | 0 <= i < j < |order| :: order[i].rank <= order[j].rank
  {
  }

  /** Reads until the end. */
  method ReadAll(list: DocumentList) returns (page: seq<Match>)
    requires list.InOrder() && list.next == 0 && list.len == |list.docs| && list.size >= 0
    modifies list`docs, list`next, list`taken
    ensures list.InOrder() && list.taken == old(list.taken) + page
    ensures multiset(list.taken) + multiset(list.docs) == old(multiset(list.taken) + multiset(list.docs))
    ensures |page| == Min(list.size, |old(list.docs)|) && |list.docs| == |old(list.docs)| - |page|
  {
    hide IsHeap, Sorted, Precede;
    page := [];
    while true
      invariant list.InOrder() && list.next == |page| && |list.docs| == |old(list.docs)| - |page|
                && list.len == |old(list.docs)|
      invariant multiset(list.taken) + multiset(list.docs) == old(multiset(list.taken) + multiset(list.docs))
      invariant list.taken == old(list.taken) + page && |page| <= list.size
      decreases |list.docs|
      modifies list`docs, list`next, list`taken
    {
      var doc := list.Next();
      if doc == None { break; }
      assert old(list.taken) + page + [doc.value] == old(list.taken) + (page + [doc.value]);
      page := page + [doc.value];
    }
  }

  lemma SameSize(a: seq<Match>, b: seq<Match>, c: seq<Match>)
    requires multiset(a) + multiset(b) == multiset(c)
    ensures |a| + |b| == |c|
  {
    assert multiset(a + b) == multiset(c);
    assert |multiset(a + b)| == |a + b| && |multiset(c)| == |c|;
  }

  lemma NothingTaken(docs: seq<Match>)
    ensures Sorted([]) && Precede([], docs)
  {
  }
}
