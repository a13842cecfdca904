/** Retention of stored backups (pkg/coordinator/backups.go). */
module Backups {
  import opened Wrappers

  type Name = string

  datatype Status = Uploaded | Verified | Bad

  datatype Record = Record(name: Name, status: Status)

  // ---------------------------------------------------------------- what the records say

  /** The newest record with a status; records come newest first. */
  function First(rs: seq<Record>, st: Status): Option<Record> {
    if rs == [] then None else if rs[0].status == st then Some(rs[0]) else First(rs[1..], st)
  }

  /** The backup to recover a node from. */
  function Latest(rs: seq<Record>): Option<Record> {
    if First(rs, Verified).Some? then First(rs, Verified) else First(rs, Uploaded)
  }

  function Usable(rs: seq<Record>): seq<Record> {
    if rs == [] then [] else (if rs[0].status != Bad then [rs[0]] else []) + Usable(rs[1..])
  }

  /** The newest n usable records. */
  function Newest(rs: seq<Record>, n: int): seq<Record> { Usable(rs)[..Max(0, Min(n, |Usable(rs)|))] }

  function Names(rs: seq<Record>): set<Name> { set i | 0 <= i < |rs| :: rs[i].name }

  /** What Prune keeps. */
  function Keep(rs: seq<Record>, retention: int): set<Name> {
    Names(Newest(rs, retention)) + if First(rs, Verified).Some? then {First(rs, Verified).value.name} else {}
  }

  function Without(rs: seq<Record>, names: set<Name>): seq<Record> {
    if rs == [] then [] else (if rs[0].name in names then [] else [rs[0]]) + Without(rs[1..], names)
  }

  lemma {:induction false} FirstIs(rs: seq<Record>, st: Status)
    ensures First(rs, st).Some? ==> First(rs, st).value in rs && First(rs, st).value.status == st
    ensures First(rs, st).None? <==> forall r | r in rs :: r.status != st
  {
    if rs != [] { FirstIs(rs[1..], st); }
  }

  lemma {:induction false} UsableAre(rs: seq<Record>)
    ensures forall r :: r in Usable(rs) <==> r in rs && r.status != Bad
  {
    if rs != [] {
      UsableAre(rs[1..]);
      assert rs == [rs[0]] + rs[1..];
    }
  }

  lemma {:induction false} UsableConcat(a: seq<Record>, b: seq<Record>)
    ensures Usable(a + b) == Usable(a) + Usable(b)
    decreases |a|
  {
    if a == [] {
      assert a + b == b;
    } else {
      var head := if a[0].status != Bad then [a[0]] else [];
      assert (a + b)[0] == a[0] && (a + b)[1..] == a[1..] + b;
      UsableConcat(a[1..], b);
      assert Usable(a + b) == head + Usable(a[1..] + b) && Usable(a) == head + Usable(a[1..]);
      assert head + (Usable(a[1..]) + Usable(b)) == head + Usable(a[1..]) + Usable(b);
    }
  }

  lemma UsableCons(r: Record, rest: seq<Record>)
    ensures Usable([r] + rest) == (if r.status != Bad then [r] else []) + Usable(rest)
  {
    assert ([r] + rest)[1..] == rest;
  }

  lemma {:induction false} FirstWithout(rs: seq<Record>, st: Status, names: set<Name>)
    requires First(rs, st).Some? ==> First(rs, st).value.name !in names
    ensures First(Without(rs, names), st) == First(rs, st)
  {
    if rs != [] {
      var rest := Without(rs[1..], names);
      assert ([rs[0]] + rest)[1..] == rest && [] + rest == rest;
      if rs[0].status != st { FirstWithout(rs[1..], st, names); }
    }
  }

  lemma NewestCons(r: Record, rest: seq<Record>, n: int)
    ensures Newest([r] + rest, n) == if r.status == Bad || n <= 0 then Newest(rest, n) else [r] + Newest(rest, n - 1)
  {
    UsableCons(r, rest);
    assert n <= 0 ==> Newest(rest, n) == [];
  }

  /** Removing records that are not among the newest n usable ones leaves those. */
  lemma {:induction false} NewestWithout(rs: seq<Record>, n: nat, names: set<Name>)
    requires Names(Newest(rs, n)) !! names
    ensures Newest(Without(rs, names), n) == Newest(rs, n)
    decreases |rs|
  {
    hide Newest, Usable, Names;
    if n == 0 {
      NewestNone(rs);
      NewestNone(Without(rs, names));
    } else if rs != [] {
      var r, rest, left := rs[0], rs[1..], Without(rs[1..], names);
      assert rs == [r] + rest;
      NewestCons(r, rest, n);
      NewestCons(r, left, n);
      if r.status == Bad {
        NewestWithout(rest, n, names);
        assert Without(rs, names) == left || Without(rs, names) == [r] + left;
      } else {
        NamesCons(r, Newest(rest, n - 1));
        NewestWithout(rest, n - 1, names);
        assert Without(rs, names) == [r] + left;
      }
    }
  }

  lemma NewestNone(rs: seq<Record>)
    ensures Newest(rs, 0) == []
  {
  }

  lemma NamesCons(r: Record, rs: seq<Record>)
    ensures Names([r] + rs) == {r.name} + Names(rs)
  {
    forall i | 0 <= i < |rs|
      ensures rs[i].name in Names([r] + rs)
    {
      assert ([r] + rs)[i + 1] == rs[i];
    }
    assert ([r] + rs)[0] == r;
  }

  /** Without a verified record, the one to recover from is the newest usable one. */
  lemma {:induction false} NewestIsLatest(rs: seq<Record>)
    requires First(rs, Verified).None?
    ensures First(rs, Uploaded) == if Usable(rs) == [] then None else Some(Usable(rs)[0])
  {
    if rs != [] { NewestIsLatest(rs[1..]); }
  }

  /** A caller can tell when pruning is safe. */
  predicate Safe(rs: seq<Record>, retention: int) {
    retention >= 1 || First(rs, Verified).Some? || Usable(rs) == []
  }

  /** What pruning is about to remove. */
  function Doomed(rs: seq<Record>, retention: int): set<Name> {
    if Usable(rs) == [] then {} else Names(rs) - Keep(rs, retention)
  }

  /** Whatever subset of the doomed records is removed, because other deletes fail, the backup
      to recover from is the same when pruning is safe, and so are the newest ones. */
  lemma PruneKeeps(rs: seq<Record>, retention: int, removed: set<Name>)
    requires removed <= Doomed(rs, retention)
    ensures Safe(rs, retention) ==> Latest(Without(rs, removed)) == Latest(rs)
    ensures Safe(rs, retention) && Latest(rs).Some? ==> Latest(rs).value.name !in Doomed(rs, retention)
    ensures retention >= 0 ==> Newest(Without(rs, removed), retention) == Newest(rs, retention)
    ensures Usable(rs) == [] ==> Without(rs, removed) == rs
  {
    if Usable(rs) == [] {
      WithoutNone(rs);
    } else if Safe(rs, retention) {
      if First(rs, Verified).None? {
        NewestIsLatest(rs);
        assert Newest(rs, retention)[0] == Usable(rs)[0];
        assert Usable(rs)[0].name in Names(Newest(rs, retention));
        FirstWithout(rs, Uploaded, removed);
      }
      FirstWithout(rs, Verified, removed);
    }
    if retention >= 0 {
      NewestWithout(rs, retention, removed);
    }
  }

  lemma {:induction false} FirstAt(rs: seq<Record>, st: Status)
    ensures First(rs, st).None? <==> forall i | 0 <= i < |rs| :: rs[i].status != st
    ensures First(rs, st).Some? ==>
              exists i :: 0 <= i < |rs| && First(rs, st) == Some(rs[i]) && rs[i].status == st
                          && forall j | 0 <= j < i :: rs[j].status != st
  {
    if rs != [] && rs[0].status != st {
      FirstAt(rs[1..], st);
      if First(rs, st).Some? {
        var rest := rs[1..];
        var i :| 0 <= i < |rest| && First(rest, st) == Some(rest[i]) && rest[i].status == st
                 && forall j | 0 <= j < i :: rest[j].status != st;
        assert First(rs, st) == Some(rs[i + 1]);
        assert forall j | 0 < j < i + 1 :: rs[j] == rest[j - 1];
      } else {
        assert forall i | 0 < i < |rs| :: rs[i] == rs[1..][i - 1];
      }
    }
  }

  lemma LatestIs(rs: seq<Record>)
    ensures Latest(rs) == None <==> forall i | 0 <= i < |rs| :: rs[i].status == Bad
    ensures Latest(rs).Some? ==>
              exists i :: 0 <= i < |rs| && Latest(rs) == Some(rs[i]) &&
                          (if rs[i].status == Verified then forall j | 0 <= j < i :: rs[j].status != Verified
                           else
                             && rs[i].status == Uploaded && (forall j | 0 <= j < |rs| :: rs[j].status != Verified)
                             && forall j | 0 <= j < i :: rs[j].status != Uploaded)
  {
    FirstAt(rs, Verified);
    FirstAt(rs, Uploaded);
    hide First;
  }

  /** How many of the first n records are usable. */
  function UsableBefore(rs: seq<Record>, n: nat): nat
    requires n <= |rs|
  {
    |set j | 0 <= j < n && rs[j].status != Bad|
  }

  lemma {:induction false} UsableCount(rs: seq<Record>, n: nat)
    requires n <= |rs|
    ensures |Usable(rs[..n])| == UsableBefore(rs, n)
    decreases n
  {
    if n > 0 {
      UsableCount(rs, n - 1);
      OneMore(rs, n - 1, 0);
      var before := set j | 0 <= j < n - 1 && rs[j].status != Bad;
      assert (set j | 0 <= j < n && rs[j].status != Bad)
             == if rs[n - 1].status != Bad then before + {n - 1} else before;
    }
  }

  /** A record is among the newest n usable ones exactly when it is usable and fewer than n
      newer ones are. */
  lemma NewestIff(rs: seq<Record>, n: int, i: nat)
    requires i < |rs| && Unique(rs)
    ensures rs[i].name in Names(Newest(rs, n)) <==>
              rs[i].status != Bad && UsableBefore(rs, i) < n
  {
    UsableCount(rs, i);
    assert rs[..i] + [rs[i]] + rs[i + 1..] == rs;
    UsableConcat(rs[..i] + [rs[i]], rs[i + 1..]);
    UsableConcat(rs[..i], [rs[i]]);
    UsableAre(rs[..i]);
    UsableAre(rs[i + 1..]);
    UniqueAt(rs, i);
    assert Usable([rs[i]]) == if rs[i].status != Bad then [rs[i]] else [];
    hide Usable, Unique;
    var r, before, after := rs[i], Usable(rs[..i]), Usable(rs[i + 1..]);
    forall u | u in before || u in after
      ensures u.name != r.name
    {
    }
    InMiddle(before, r, after, n, Newest(rs, n), r.status != Bad);
  }

  lemma InMiddle(before: seq<Record>, r: Record, after: seq<Record>, n: int, newest: seq<Record>, usable: bool)
    requires var all := before + (if usable then [r] else []) + after; newest == all[..Max(0, Min(n, |all|))]
    requires forall u | u in before || u in after :: u.name != r.name
    ensures r.name in Names(newest) <==> usable && |before| < n
  {
    var all := before + (if usable then [r] else []) + after;
    if r.name in Names(newest) {
      var j :| 0 <= j < |newest| && newest[j].name == r.name;
      assert newest[j] == all[j];
    }
    if usable && |before| < n { assert newest[|before|] == r; }
  }

  /** What pruning keeps, record by record: everything when nothing is usable, else the newest
      usable ones up to the retention, and the newest verified one. */
  lemma KeptIff(rs: seq<Record>, retention: int, i: nat)
    requires i < |rs| && Unique(rs)
    ensures rs[i].name !in Doomed(rs, retention) <==>
              || (forall j | 0 <= j < |rs| :: rs[j].status == Bad)
              || (rs[i].status != Bad && UsableBefore(rs, i) < retention)
              || (rs[i].status == Verified && forall j | 0 <= j < i :: rs[j].status != Verified)
  {
    NewestIff(rs, retention, i);
    FirstAt(rs, Verified);
    UsableAre(rs);
    assert Usable(rs) == [] <==> forall j | 0 <= j < |rs| :: rs[j].status == Bad by {
      if Usable(rs) != [] {
        assert Usable(rs)[0] in rs;
      } else {
        assert forall j | 0 <= j < |rs| && rs[j].status != Bad :: rs[j] in rs;
      }
    }
    hide Newest, Usable, First;
    if First(rs, Verified).Some? {
      var k :| 0 <= k < |rs| && First(rs, Verified) == Some(rs[k]) && rs[k].status == Verified
               && forall j | 0 <= j < k :: rs[j].status != Verified;
      assert rs[i].name == rs[k].name <==> i == k;
    }
  }

  lemma LatestIsKnown(rs: seq<Record>)
    ensures Latest(rs).Some? ==> Latest(rs).value.name in Names(rs)
  {
    FirstIs(rs, Verified);
    FirstIs(rs, Uploaded);
    assert forall r | r in rs :: exists i :: 0 <= i < |rs| && rs[i].name == r.name;
  }

  lemma {:induction false} WithoutNone(rs: seq<Record>)
    ensures Without(rs, {}) == rs
  {
    if rs != [] { WithoutNone(rs[1..]); }
  }

  /** When no delete fails, the backup to recover from is the same exactly when pruning is safe:
      with no retention and nothing verified it is removed. */
  lemma PruneKeepsIff(rs: seq<Record>, retention: int)
    ensures Latest(Without(rs, Doomed(rs, retention))) == Latest(rs) <==> Safe(rs, retention)
  {
    if Safe(rs, retention) {
      PruneKeeps(rs, retention, Doomed(rs, retention));
    } else {
      NewestIsLatest(rs);
      FirstIs(rs, Uploaded);
      assert Keep(rs, retention) == {};
      var left := Without(rs, Doomed(rs, retention));
      assert Doomed(rs, retention) == Names(rs);
      AllGone(rs, Names(rs));
      assert left == [];
    }
  }

  lemma {:induction false} AllGone(rs: seq<Record>, names: set<Name>)
    requires Names(rs) <= names
    ensures Without(rs, names) == []
  {
    if rs != [] {
      assert rs[0].name in Names(rs);
      forall name | name in Names(rs[1..])
        ensures name in names
      {
        var i :| 0 <= i < |rs[1..]| && rs[1..][i].name == name;
        assert rs[i + 1].name == name;
      }
      AllGone(rs[1..], names);
    }
  }

  lemma {:induction false} WithoutConcat(a: seq<Record>, b: seq<Record>, names: set<Name>)
    ensures Without(a + b, names) == Without(a, names) + Without(b, names)
    decreases |a|
  {
    if a == [] {
      assert a + b == b;
    } else {
      var head := if a[0].name in names then [] else [a[0]];
      assert (a + b)[0] == a[0] && (a + b)[1..] == a[1..] + b;
      WithoutConcat(a[1..], b, names);
      assert Without(a + b, names) == head + Without(a[1..] + b, names)
             && Without(a, names) == head + Without(a[1..], names);
      assert head + (Without(a[1..], names) + Without(b, names)) == head + Without(a[1..], names) + Without(b, names);
    }
  }

  lemma {:induction false} WithoutAbsent(rs: seq<Record>, name: Name)
    requires forall i | 0 <= i < |rs| :: rs[i].name != name
    ensures Without(rs, {name}) == rs
  {
    if rs != [] { WithoutAbsent(rs[1..], name); }
  }

  lemma {:induction false} WithoutAre(rs: seq<Record>, names: set<Name>)
    ensures forall r :: r in Without(rs, names) <==> r in rs && r.name !in names
  {
    if rs != [] {
      WithoutAre(rs[1..], names);
      assert rs == [rs[0]] + rs[1..];
    }
  }

  lemma NamesMore(rs: seq<Record>, i: nat)
    requires i < |rs|
    ensures Names(rs[..i + 1]) == Names(rs[..i]) + {rs[i].name}
  {
    assert rs[..i + 1] == rs[..i] + [rs[i]];
    NamesConcat(rs[..i], rs[i]);
  }

  lemma NamesConcat(rs: seq<Record>, r: Record)
    ensures Names(rs + [r]) == Names(rs) + {r.name}
  {
    assert (rs + [r])[|rs|] == r;
    assert forall i | 0 <= i < |rs| :: (rs + [r])[i] == rs[i];
  }

  /** The first loop of Prune. */
  lemma OneMore(rs: seq<Record>, i: nat, n: int)
    requires i < |rs|
    ensures var us := Usable(rs[..i]);
            && |Usable(rs[..i + 1])| == |us| + (if rs[i].status != Bad then 1 else 0)
            && Names(Newest(rs[..i + 1], n)) ==
               Names(Newest(rs[..i], n)) + if rs[i].status != Bad && |us| + 1 <= n then {rs[i].name} else {}
  {
    var us := Usable(rs[..i]);
    assert rs[..i + 1] == rs[..i] + [rs[i]];
    UsableConcat(rs[..i], [rs[i]]);
    assert Usable([rs[i]]) == if rs[i].status != Bad then [rs[i]] else [];
    if rs[i].status != Bad && |us| + 1 <= n {
      assert Newest(rs[..i + 1], n) == Newest(rs[..i], n) + [rs[i]];
      NamesConcat(Newest(rs[..i], n), rs[i]);
    } else {
      assert Newest(rs[..i + 1], n) == Newest(rs[..i], n);
    }
  }

  ghost predicate Unique(rs: seq<Record>) { forall i, j | 0 <= i < j < |rs| :: rs[i].name != rs[j].name }

  lemma UniqueAt(rs: seq<Record>, i: nat)
    requires i < |rs| && Unique(rs)
    ensures forall j | 0 <= j < i :: rs[..i][j].name != rs[i].name
    ensures var rest := rs[i + 1..]; forall j | 0 <= j < |rest| :: rest[j].name != rs[i].name
    ensures Unique(rs[i + 1..])
  {
  }

  /** The second loop of Prune, with gone the names removed from the state. */
  lemma OneLess(rs: seq<Record>, i: nat, gone: set<Name>)
    requires i < |rs| && Unique(rs)
    ensures var before := Without(rs[..i], gone) + rs[i..];
            Without(rs[..i + 1], gone) + rs[i + 1..] == if rs[i].name in gone then Without(before, {rs[i].name})
                                                        else before
  {
    UniqueAt(rs, i);
    hide Unique, Without;
    var r, done, rest := rs[i], Without(rs[..i], gone), rs[i + 1..];
    assert rs[..i + 1] == rs[..i] + [r] && rs[i..] == [r] + rest;
    WithoutConcat(rs[..i], [r], gone);
    WithoutOne(r, gone);
    if r.name in gone {
      forall j | 0 <= j < |done|
        ensures done[j].name != r.name
      {
        WithoutAre(rs[..i], gone);
        assert done[j] in done;
      }
      ForgetsOne(done, r, rest);
    } else {
      assert done + [r] + rest == done + ([r] + rest);
    }
  }

  lemma ForgetsOne(before: seq<Record>, r: Record, rest: seq<Record>)
    requires forall j | 0 <= j < |before| :: before[j].name != r.name
    requires forall j | 0 <= j < |rest| :: rest[j].name != r.name
    ensures Without(before + ([r] + rest), {r.name}) == before + rest
  {
    hide Without;
    WithoutConcat(before, [r] + rest, {r.name});
    WithoutConcat([r], rest, {r.name});
    WithoutOne(r, {r.name});
    WithoutAbsent(before, r.name);
    WithoutAbsent(rest, r.name);
    assert [] + rest == rest;
  }

  lemma WithoutOne(r: Record, names: set<Name>)
    ensures Without([r], names) == if r.name in names then [] else [r]
  {
    assert Without([r][1..], names) == [];
  }

  lemma NothingYet(rs: seq<Record>, names: set<Name>)
    ensures Without(rs[..0], names) == [] && Names(rs[..0]) == {} && [] + rs[0..] == rs
  {
  }

  lemma UniqueCons(r: Record, rest: seq<Record>)
    requires Unique(rest) && forall j | 0 <= j < |rest| :: rest[j].name != r.name
    ensures Unique([r] + rest)
  {
  }

  lemma {:induction false} StillUnique(rs: seq<Record>, names: set<Name>)
    requires Unique(rs)
    ensures Unique(Without(rs, names))
  {
    if rs != [] {
      UniqueAt(rs, 0);
      hide Unique;
      StillUnique(rs[1..], names);
      WithoutAre(rs[1..], names);
      var rest := Without(rs[1..], names);
      forall j | 0 <= j < |rest|
        ensures rest[j].name != rs[0].name
      {
        assert rest[j] in rest;
      }
      UniqueCons(rs[0], rest);
      assert Without(rs, names) == rest || Without(rs, names) == [rs[0]] + rest;
    }
  }

  // ---------------------------------------------------------------- the stores

  /** Objects that backups are stored under. */
  predicate Archive(n: Name) { "zincsearch-" <= n && |n| >= 4 && n[|n| - 4..] == ".tgz" }

  /** What goes wrong while pruning: deletes of objects or of records that fail, failed deletes
      that removed the object all the same, and whether the objects cannot be listed. */
  datatype Faults = Faults(objects: set<Name>, gone: set<Name>, records: set<Name>, listing: bool)

  class Store {
    const retention: int
    const grace: int
    /** Newest first; names are unique. */
    var records: seq<Record>
    /** The stored objects and when they were written. */
    var objects: map<Name, int>

    ghost predicate Valid()
      reads this
    {
      Unique(records)
    }

    constructor (retention: int, grace: int, records: seq<Record>, objects: map<Name, int>)
      requires forall i, j | 0 <= i < j < |records| :: records[i].name != records[j].name
      ensures Valid() && this.records == records && this.objects == objects && this.retention == retention
              && this.grace == grace
    {
      this.retention, this.grace, this.records, this.objects := retention, grace, records, objects;
    }

    /** The newest verified record, or else the newest one that is not known to be bad. */
    method LatestUsable() returns (r: Option<Record>)
      ensures r == Latest(records)
      ensures r == None <==> forall i | 0 <= i < |records| :: records[i].status == Bad
      ensures r.Some? ==>
                exists i :: 0 <= i < |records| && r == Some(records[i]) &&
                            (if records[i].status == Verified
                             then forall j | 0 <= j < i :: records[j].status != Verified
                             else
                               && records[i].status == Uploaded
                               && (forall j | 0 <= j < |records| :: records[j].status != Verified)
                               && forall j | 0 <= j < i :: records[j].status != Uploaded)
    {
      LatestIs(records);
      var fallback: Option<Record> := None;
      var i := 0;
      while i < |records|
        invariant 0 <= i <= |records|
        invariant First(records, Verified) == First(records[i..], Verified)
        invariant First(records, Uploaded) == if fallback.Some? then fallback else First(records[i..], Uploaded)
      {
        assert records[i..][1..] == records[i + 1..];
        match records[i].status {
          case Verified => return Some(records[i]);
          case Uploaded => if fallback == None { fallback := Some(records[i]); }
          case Bad =>
        }
        i := i + 1;
      }
      r := fallback;
    }

    /** The names to keep, and how many records are usable. */
    method Choose() returns (keep: set<Name>, usable: nat)
      ensures usable == |Usable(records)| && keep == Keep(records, retention)
    {
      keep, usable := {}, 0;
      var i := 0;
      while i < |records|
        invariant 0 <= i <= |records|
        invariant usable == |Usable(records[..i])| && keep == Names(Newest(records[..i], retention))
      {
        OneMore(records, i, retention);
        if records[i].status != Bad {
          usable := usable + 1;
          if usable <= retention { keep := keep + {records[i].name}; }
        }
        i := i + 1;
      }
      assert records[..i] == records;
      i := 0;
      while i < |records|
        invariant 0 <= i <= |records|
        invariant First(records, Verified) == First(records[i..], Verified)
        invariant keep == Names(Newest(records, retention))
      {
        assert records[i..][1..] == records[i + 1..];
        if records[i].status == Verified {
          keep := keep + {records[i].name};
          return;
        }
        i := i + 1;
      }
    }

    /** Removes what is not kept, as far as the deletes succeed: with a usable backup, all records
        but the newest usable ones up to the retention and the newest verified one; their
        objects; and archives that no record knows and that are older than the grace period. */
    method Prune(now: int, f: Faults) returns (ok: bool)
      requires Valid()
      modifies this
      ensures Valid()
      ensures forall i | 0 <= i < |old(records)| ::
                var r := old(records)[i];
                r in records <==>
                  || (forall j | 0 <= j < |old(records)| :: old(records)[j].status == Bad)
                  || (r.status != Bad && UsableBefore(old(records), i) < retention)
                  || (r.status == Verified && forall j | 0 <= j < i :: old(records)[j].status != Verified)
                  || r.name in f.objects || r.name in f.records
      ensures records == Without(old(records), old(Doomed(records, retention)) - f.objects - f.records)
      ensures ok <==> old(Doomed(records, retention)) !! f.objects + f.records
      ensures forall n ::
                n in objects <==>
                  && n in old(objects)
                  && !(n in old(Doomed(records, retention)) && (n !in f.objects || n in f.gone))
                  && !(&& (exists i :: 0 <= i < |old(records)| && old(records)[i].status != Bad) && grace > 0
                       && !f.listing
                       && (forall i | 0 <= i < |old(records)| :: old(records)[i].name != n)
                       && "zincsearch-" <= n && |n| >= 4 && n[|n| - 4..] == ".tgz"
                       && now - old(objects)[n] > grace && (n !in f.objects || n in f.gone))
      ensures forall n | n in objects :: n in old(objects) && objects[n] == old(objects)[n]
      ensures Safe(old(records), retention) ==>
                && Latest(records) == old(Latest(records))
                && (Latest(records).Some? && Latest(records).value.name in old(objects) ==>
                      Latest(records).value.name in objects)
      ensures retention >= 0 ==> Newest(records, retention) == old(Newest(records, retention))
    {
      ghost var rs, os := records, objects;
      assert Unique(rs);
      DoomedKnown(rs, retention);
      hide *;
      ok := DropDoomed(now, f);
      RemainsIff(rs, retention, Doomed(rs, retention) - f.objects - f.records, f);
      ObjectsIff(rs, Doomed(rs, retention), os, now, grace, f);
    }

    method DropDoomed(now: int, f: Faults) returns (ok: bool)
      requires Valid()
      modifies this
      ensures Valid()
      ensures var doomed := old(Doomed(records, retention));
              && records == Without(old(records), doomed - f.objects - f.records)
              && (ok <==> doomed !! f.objects + f.records)
      ensures forall n ::
                n in objects <==>
                  Remains(old(records), old(Doomed(records, retention)), old(objects), n, now, grace, f)
      ensures forall n | n in objects :: n in old(objects) && objects[n] == old(objects)[n]
      ensures Safe(old(records), retention) ==>
                && Latest(records) == old(Latest(records))
                && (Latest(records).Some? && Latest(records).value.name in old(objects) ==>
                      Latest(records).value.name in objects)
      ensures retention >= 0 ==> Newest(records, retention) == old(Newest(records, retention))
    {
      ghost var lost := Doomed(records, retention) - f.objects - f.records;
      PruneKeeps(records, retention, lost);
      LatestIsKnown(records);
      hide Newest, Keep, Without, Names, Latest, Unique;
      var keep, usable := Choose();
      ok := true;
      if usable == 0 {
        WithoutNone(records);
        assert {} - f.objects - f.records == {};
        HandleOrphans(records, false, now, f);
        return;
      }
      var recs := records;
      ghost var gone := Names(recs) - keep - f.objects - f.records;
      ok := DeleteAllBut(keep, f);
      StillUnique(recs, gone);
      HandleOrphans(recs, true, now, f);
    }

    /** Removes the records that are not kept, and their objects. */
    method DeleteAllBut(keep: set<Name>, f: Faults) returns (ok: bool)
      requires Valid()
      modifies this`records, this`objects
      ensures var doomed := Names(old(records)) - keep;
              && records == Without(old(records), doomed - f.objects - f.records)
              && (ok <==> doomed !! f.objects + f.records)
              && Pruned(old(records), doomed, f, old(objects), objects)
    {
      hide Without, Names, Unique, Pruned;
      var recs := records;
      ghost var doomed, start := Names(recs) - keep, objects;
      ghost var gone := doomed - f.objects - f.records;
      NothingYet(recs, gone);
      NothingPruned(doomed, f, objects);
      assert recs[..0] == [];
      ok := true;
      var i := 0;
      while i < |recs|
        invariant 0 <= i <= |recs| && records == Without(recs[..i], gone) + recs[i..]
        invariant ok <==> Names(recs[..i]) * doomed !! f.objects + f.records
        invariant Pruned(recs[..i], doomed, f, start, objects)
      {
        var r := recs[i];
        OneLess(recs, i, gone);
        NamesMore(recs, i);
        PrunesOne(recs, i, doomed, f, start, objects);
        if r.name !in keep {
          if r.name !in f.objects || r.name in f.gone { objects := objects - {r.name}; }
          if r.name in f.objects {
            ok := false;
          } else if r.name in f.records {
            ok := false;
          } else {
            records := Forget(records, r.name);
          }
        }
        i := i + 1;
      }
      assert recs[..i] == recs && recs[i..] == [];
      assert Names(recs) * doomed == doomed;
    }

    /** Deletes the archives that no record knows and that are old enough. */
    method HandleOrphans(recs: seq<Record>, mayDelete: bool, now: int, f: Faults)
      modifies this`objects
      ensures forall n ::
                n in objects <==>
                  n in old(objects)
                  && !(mayDelete && recs != [] && grace > 0 && Orphan(recs, old(objects), n, now, grace, f))
      ensures forall n | n in objects :: objects[n] == old(objects)[n]
    {
      if f.listing { return; }
      var may := mayDelete && |recs| > 0 && grace > 0;
      var known := Names(recs);
      var todo := objects.Keys;
      while todo != {}
        invariant todo <= old(objects).Keys
        invariant forall n ::
                    n in objects <==>
                      n in old(objects) && (n in todo || !(may && Orphan(recs, old(objects), n, now, grace, f)))
        invariant forall n | n in objects :: objects[n] == old(objects)[n]
      {
        var n :| n in todo;
        todo := todo - {n};
        if n !in known && Archive(n) && may && now - objects[n] > grace {
          if n !in f.objects || n in f.gone { objects := objects - {n}; }
        }
      }
    }
  }

  /** The records that remain, one by one. */
  lemma RemainsIff(rs: seq<Record>, retention: int, gone: set<Name>, f: Faults)
    requires Unique(rs) && gone == Doomed(rs, retention) - f.objects - f.records
    ensures forall i | 0 <= i < |rs| ::
              rs[i] in Without(rs, gone) <==>
                || (forall j | 0 <= j < |rs| :: rs[j].status == Bad)
                || (rs[i].status != Bad && UsableBefore(rs, i) < retention)
                || (rs[i].status == Verified && forall j | 0 <= j < i :: rs[j].status != Verified)
                || rs[i].name in f.objects || rs[i].name in f.records
  {
    hide Doomed, Without, Unique;
    WithoutAre(rs, gone);
    forall i | 0 <= i < |rs|
      ensures rs[i] in Without(rs, gone) <==> rs[i].name !in gone
      ensures rs[i].name !in Doomed(rs, retention) <==>
                || (forall j | 0 <= j < |rs| :: rs[j].status == Bad)
                || (rs[i].status != Bad && UsableBefore(rs, i) < retention)
                || (rs[i].status == Verified && forall j | 0 <= j < i :: rs[j].status != Verified)
    {
      KeptIff(rs, retention, i);
    }
  }

  /** The record is taken out of the state. */
  function Forget(rs: seq<Record>, name: Name): seq<Record> { Without(rs, {name}) }

  /** The object of a record to be removed is deleted. */
  ghost predicate RemovedWith(rs: seq<Record>, doomed: set<Name>, n: Name, f: Faults) {
    n in doomed && n in Names(rs) && (n !in f.objects || n in f.gone)
  }

  /** Of the objects at the start, those of the doomed records among rs are deleted. */
  ghost predicate Pruned(rs: seq<Record>, doomed: set<Name>, f: Faults, start: map<Name, int>,
                         objects: map<Name, int>) {
    && (forall n :: n in objects <==> n in start && !RemovedWith(rs, doomed, n, f))
    && forall n | n in objects :: objects[n] == start[n]
  }

  lemma DoomedKnown(rs: seq<Record>, retention: int)
    ensures Doomed(rs, retention) <= Names(rs)
  {
  }

  /** The object is there after pruning. */
  ghost predicate Remains(rs: seq<Record>, doomed: set<Name>, objects: map<Name, int>, n: Name, now: int, grace: int,
                          f: Faults) {
    && n in objects && !RemovedWith(rs, doomed, n, f)
    && !(Usable(rs) != [] && grace > 0 && Orphan(rs, objects, n, now, grace, f))
  }

  /** Which objects remain, one by one: not those of doomed records, and no old archives that no
      record knows. */
  lemma ObjectsIff(rs: seq<Record>, doomed: set<Name>, objects: map<Name, int>, now: int, grace: int, f: Faults)
    requires doomed <= Names(rs)
    ensures forall n ::
              Remains(rs, doomed, objects, n, now, grace, f) <==>
                && n in objects
                && !(n in doomed && (n !in f.objects || n in f.gone))
                && !(&& (exists i :: 0 <= i < |rs| && rs[i].status != Bad) && grace > 0 && !f.listing
                     && (forall i | 0 <= i < |rs| :: rs[i].name != n)
                     && "zincsearch-" <= n && |n| >= 4 && n[|n| - 4..] == ".tgz"
                     && now - objects[n] > grace && (n !in f.objects || n in f.gone))
  {
    UsableAre(rs);
    assert Usable(rs) != [] <==> exists i :: 0 <= i < |rs| && rs[i].status != Bad by {
      if Usable(rs) != [] { assert Usable(rs)[0] in rs; }
      if i :| 0 <= i < |rs| && rs[i].status != Bad { assert rs[i] in Usable(rs); }
    }
    hide Usable;
  }

  lemma NothingPruned(doomed: set<Name>, f: Faults, objects: map<Name, int>)
    ensures Pruned([], doomed, f, objects, objects)
  {
  }

  lemma PrunesOne(rs: seq<Record>, i: nat, doomed: set<Name>, f: Faults, start: map<Name, int>, objects: map<Name, int>)
    requires i < |rs| && Pruned(rs[..i], doomed, f, start, objects)
    ensures rs[i].name in Names(rs)
    ensures var n := rs[i].name;
            Pruned(rs[..i + 1], doomed, f, start, if n in doomed && (n !in f.objects || n in f.gone) then objects - {n}
                                                  else objects)
  {
    NamesMore(rs, i);
    assert rs[i].name in Names(rs);
    hide Names;
  }

  /** An old object that no record knows, and that can be deleted. */
  predicate Orphan(rs: seq<Record>, objects: map<Name, int>, n: Name, now: int, grace: int, f: Faults) {
    n in objects && n !in Names(rs) && Archive(n) && now - objects[n] > grace && !f.listing
    && (n !in f.objects || n in f.gone)
  }
}
