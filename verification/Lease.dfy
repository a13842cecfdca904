/** The lease that elects one coordinator instance (pkg/coordinator/state/state.go). */
module Lease {
  import opened Wrappers
  import opened StateStore

  type Holder = string

  datatype Record = Record(holder: Holder, expires: nat)

  /** The zero time, which a release writes. */
  const NEVER: nat := 0

  /** Whether a holder may take the lease over a stored record. */
  predicate MayTake(current: Record, holder: Holder, now: nat) { current.holder == holder || now >= current.expires }

  // ---------------------------------------------------------------- one instance

  class Lease {
    const store: Mem<Record>
    const key: Key
    const holder: Holder
    const ttl: nat

    constructor (store: Mem<Record>, key: Key, holder: Holder, ttl: nat)
      ensures this.store == store && this.key == key && this.holder == holder && this.ttl == ttl
    {
      this.store, this.key, this.holder, this.ttl := store, key, holder, ttl;
    }

    /** Takes the lease when it is free or expired, and renews it at any time when this holder
        has it. start and now are what the clock says at the first and at the second look. */
    method Acquire(start: nat, now: nat) returns (owned: bool)
      requires store.Valid()
      modifies store
      ensures store.Valid()
      ensures var before := old(store.CellOf(key)).entry;
              owned <==>
                before.None? || before.value.value.holder == holder || now >= before.value.value.expires
      ensures var after := store.CellOf(key).entry;
              if owned then after.Some? && after.value.value == Record(holder, start + ttl)
              else after == old(store.CellOf(key)).entry
      ensures forall k | k != key :: store.CellOf(k).entry == old(store.CellOf(k)).entry
    {
      var mine := Record(holder, start + ttl);
      var found := store.Do(key, Get);
      if found == NotFound {
        var created := store.Do(key, Create(mine));
        return created != Conflict;
      }
      var current := found.entry;
      if current.value.holder != holder && now < current.value.expires { return false; }
      var updated := store.Do(key, Update(mine, current.revision));
      return updated != Conflict && updated != NotFound;
    }

    /** Gives the lease up, if this holder owns it. */
    method Release()
      requires store.Valid()
      modifies store
      ensures store.Valid()
      ensures var before, after := old(store.CellOf(key)).entry, store.CellOf(key).entry;
              if before.Some? && before.value.value.holder == holder
              then after.Some? && after.value.value == Record(holder, NEVER)
              else after == before
      ensures forall k | k != key :: store.CellOf(k).entry == old(store.CellOf(k)).entry
    {
      var found := store.Do(key, Get);
      if found == NotFound || found.entry.value.holder != holder { return; }
      var updated := store.Do(key, Update(found.entry.value.(expires := NEVER), found.entry.revision));
    }
  }

  // ---------------------------------------------------------------- many instances

  /** Where an instance is in Acquire or Release. mine is what it wants to store. */
  datatype Stage =
    | Idle
    | Began(mine: Record)
    | Missing(mine: Record)
    | Got(mine: Record, current: Entry<Record>)
    | Passed(mine: Record, current: Entry<Record>)
    | Releasing
    | Owned(current: Entry<Record>)

  /** claims tells for each holder until when it may believe that it owns the lease: it stored
      that expiry, and released nothing since. */
  datatype State = State(cell: Cell<Record>, clock: nat, stages: map<Holder, Stage>, claims: map<Holder, nat>)

  datatype Event =
    | Tick(now: nat)
    | Acquire(h: Holder)
    | Release(h: Holder)
    | Look(h: Holder)
    | Check(h: Holder)
    | Store(h: Holder, revision: nat, applied: bool)
    | GiveUp(h: Holder)

  function StageOf(s: State, h: Holder): Stage { if h in s.stages then s.stages[h] else Idle }

  /** Whether a compare-and-swap of the holder h changes the stored record now. */
  predicate Swaps(s: State, h: Holder) {
    match StageOf(s, h)
    case Missing(_) => s.cell.entry.None?
    case Passed(_, current) => s.cell.entry.Some? && s.cell.entry.value.revision == current.revision
    case Owned(current) => s.cell.entry.Some? && s.cell.entry.value.revision == current.revision
    case _ => false
  }

  /** What it stores. */
  function Wanted(s: State, h: Holder): Record {
    match StageOf(s, h)
    case Missing(mine) => mine
    case Passed(mine, _) => mine
    case Owned(current) => current.value.(expires := NEVER)
    case _ => Record(h, NEVER)
  }

  /** A step. ttl gives the time to live of each holder's lease. GiveUp is an error of the store
      on the way, Store with applied a compare-and-swap that took effect whether or not its
      answer arrived. */
  function Next(ttl: Holder -> nat, s: State, e: Event): State {
    match e
    case Tick(now) => if now >= s.clock then s.(clock := now) else s
    case Acquire(h) =>
      if StageOf(s, h).Idle? then s.(stages := s.stages[h := Began(Record(h, s.clock + ttl(h)))]) else s
    case Release(h) =>
      if StageOf(s, h).Idle? then s.(stages := s.stages[h := Releasing]) else s
    case Look(h) =>
      (match StageOf(s, h)
       case Began(mine) =>
         s.(stages := s.stages[h := if s.cell.entry.None? then Missing(mine) else Got(mine, s.cell.entry.value)])
       case Releasing =>
         s.(stages := s.stages[h := if s.cell.entry.None? || s.cell.entry.value.value.holder != h then Idle
                                    else Owned(s.cell.entry.value)])
       case _ => s)
    case Check(h) =>
      (match StageOf(s, h)
       case Got(mine, current) =>
         s.(stages := s.stages[h := if MayTake(current.value, h, s.clock) then Passed(mine, current) else Idle])
       case _ => s)
    case Store(h, revision, applied) =>
      if !Swaps(s, h) then
        if StageOf(s, h).Missing? || StageOf(s, h).Passed? || StageOf(s, h).Owned?
        then s.(stages := s.stages[h := Idle])
        else s
      else if revision <= s.cell.high then s
      else if !applied then s.(stages := s.stages[h := Idle])
      else s.(cell := Cell(Some(Entry(Wanted(s, h), revision)), revision),
              stages := s.stages[h := Idle],
              claims := if StageOf(s, h).Owned? then s.claims - {h} else s.claims[h := Wanted(s, h).expires])
    case GiveUp(h) => s.(stages := s.stages[h := Idle])
  }

  ghost function Run(ttl: Holder -> nat, s: State, events: seq<Event>): State {
    if events == [] then s else Next(ttl, Run(ttl, s, events[..|events| - 1]), events[|events| - 1])
  }

  function Start(): State { State(Cell(None, 0), 0, map[], map[]) }

  /** The stored record changes by atomic operations of the store only. */
  lemma StoreIsAtomic(ttl: Holder -> nat, s: State, h: Holder, revision: nat)
    requires Swaps(s, h) && s.cell.high < revision
    ensures Atomic(s.cell, if StageOf(s, h).Missing? then Create(Wanted(s, h))
                           else Update(Wanted(s, h), StageOf(s, h).current.revision),
                   Written(revision), Next(ttl, s, Store(h, revision, true)).cell)
  {
  }

  // ---------------------------------------------------------------- the invariant

  /** A revision stands for one record. */
  ghost predicate Read(cell: Cell<Record>, e: Entry<Record>) {
    e.revision <= cell.high && (cell.entry.Some? && cell.entry.value.revision == e.revision ==> cell.entry.value == e)
  }

  /** The instance writes its own name, never an earlier expiry than it claims, and passed the
      check only over its own record or one that has expired. */
  ghost predicate StageOk(ttl: Holder -> nat, s: State, h: Holder) {
    match StageOf(s, h)
    case Idle => true
    case Releasing => true
    case Began(mine) => MineOk(ttl, s, h, mine)
    case Missing(mine) => MineOk(ttl, s, h, mine)
    case Got(mine, current) => MineOk(ttl, s, h, mine) && Read(s.cell, current)
    case Passed(mine, current) => MineOk(ttl, s, h, mine) && Read(s.cell, current) && MayTake(current.value, h, s.clock)
    case Owned(current) => Read(s.cell, current) && current.value.holder == h
  }

  ghost predicate MineOk(ttl: Holder -> nat, s: State, h: Holder, mine: Record) {
    mine.holder == h && mine.expires <= s.clock + ttl(h) && (h in s.claims ==> s.claims[h] <= mine.expires)
  }

  /** Only the stored holder has a claim that is still running, and it is the stored expiry. */
  ghost predicate ClaimOk(ttl: Holder -> nat, s: State, h: Holder) {
    h in s.claims ==>
      && s.claims[h] <= s.clock + ttl(h)
      && s.cell.entry.Some?
      && if s.cell.entry.value.value.holder == h then s.cell.entry.value.value.expires == s.claims[h]
         else s.claims[h] <= s.clock
  }

  /** Whoever is stored with a lease that was not released has that claim. */
  ghost predicate StoredOk(s: State) {
    s.cell.entry.Some? ==> s.cell.entry.value.value.expires == NEVER || s.cell.entry.value.value.holder in s.claims
  }

  ghost predicate Holds(ttl: Holder -> nat, s: State) {
    && CellOk(s.cell) && StoredOk(s)
    && (forall h :: StageOk(ttl, s, h)) && (forall h :: ClaimOk(ttl, s, h))
  }

  lemma StepHolds(ttl: Holder -> nat, s: State, e: Event)
    requires Holds(ttl, s)
    ensures Holds(ttl, Next(ttl, s, e))
  {
    var t := Next(ttl, s, e);
    assert StoredOk(t) by { StoredKeeps(ttl, s, e); }
    hide StoredOk;
    forall h
      ensures StageOk(ttl, t, h) && ClaimOk(ttl, t, h)
    {
      if e.Store? { StoreKeeps(ttl, s, e, h); } else { OtherKeeps(ttl, s, e, h); }
    }
  }

  lemma StoredKeeps(ttl: Holder -> nat, s: State, e: Event)
    requires Holds(ttl, s)
    ensures StoredOk(Next(ttl, s, e))
  {
    if e.Store? { assert StageOk(ttl, s, e.h); }
  }

  lemma StoreKeeps(ttl: Holder -> nat, s: State, e: Event, h: Holder)
    requires e.Store? && CellOk(s.cell)
    requires StageOk(ttl, s, h) && ClaimOk(ttl, s, h) && StageOk(ttl, s, e.h) && ClaimOk(ttl, s, e.h)
    ensures var t := Next(ttl, s, e); CellOk(t.cell) && StageOk(ttl, t, h) && ClaimOk(ttl, t, h)
  {
    if Swaps(s, e.h) && s.cell.high < e.revision && e.applied {
      SwapKeeps(ttl, s, e, h);
    } else {
      var t := Next(ttl, s, e);
      assert t.cell == s.cell && t.claims == s.claims && t.clock == s.clock;
      hide CellOk, Read, MayTake;
      assert StageOf(t, h) == StageOf(s, h) || StageOf(t, h) == Idle;
    }
  }

  lemma SwapKeeps(ttl: Holder -> nat, s: State, e: Event, h: Holder)
    requires e.Store? && CellOk(s.cell) && Swaps(s, e.h) && s.cell.high < e.revision && e.applied
    requires StageOk(ttl, s, h) && ClaimOk(ttl, s, h) && StageOk(ttl, s, e.h) && ClaimOk(ttl, s, e.h)
    ensures var t := Next(ttl, s, e); CellOk(t.cell) && StageOk(ttl, t, h) && ClaimOk(ttl, t, h)
  {
    var t := Next(ttl, s, e);
    assert t.cell == Cell(Some(Entry(Wanted(s, e.h), e.revision)), e.revision) && Wanted(s, e.h).holder == e.h;
    if h != e.h {
      assert StageOf(t, h) == StageOf(s, h) && t.clock == s.clock;
      assert h in t.claims <==> h in s.claims;
      if h in s.claims { OthersExpired(ttl, s, e.h, h); }
    } else {
      assert StageOf(t, h) == Idle;
    }
  }

  /** Where a compare-and-swap may succeed, nobody else's claim is still running. */
  lemma OthersExpired(ttl: Holder -> nat, s: State, taker: Holder, h: Holder)
    requires Swaps(s, taker) && StageOk(ttl, s, taker) && ClaimOk(ttl, s, h) && h != taker && h in s.claims
    ensures s.claims[h] <= s.clock
  {
    match StageOf(s, taker) {
      case Missing(_) =>
      case Passed(_, current) =>
        assert s.cell.entry == Some(current) && MayTake(current.value, taker, s.clock);
      case Owned(current) =>
        assert s.cell.entry == Some(current);
      case _ =>
    }
  }

  lemma OtherKeeps(ttl: Holder -> nat, s: State, e: Event, h: Holder)
    requires !e.Store? && CellOk(s.cell) && StageOk(ttl, s, h) && ClaimOk(ttl, s, h)
    ensures var t := Next(ttl, s, e); CellOk(t.cell) && StageOk(ttl, t, h) && ClaimOk(ttl, t, h)
  {
    hide CellOk, Read;
    var t := Next(ttl, s, e);
    assert t.cell == s.cell && t.claims == s.claims && t.clock >= s.clock;
    if e.Tick? {
      assert StageOf(t, h) == StageOf(s, h);
    } else if e.Look? && e.h == h && s.cell.entry.Some? {
      ReadNow(s.cell);
    } else if e.h != h {
      assert StageOf(t, h) == StageOf(s, h) && t.clock == s.clock;
    }
  }

  lemma ReadNow(cell: Cell<Record>)
    requires CellOk(cell) && cell.entry.Some?
    ensures Read(cell, cell.entry.value)
  {
  }

  lemma {:induction false} RunHolds(ttl: Holder -> nat, s: State, events: seq<Event>)
    requires Holds(ttl, s)
    ensures Holds(ttl, Run(ttl, s, events))
    decreases |events|
  {
    if events != [] {
      RunHolds(ttl, s, events[..|events| - 1]);
      StepHolds(ttl, Run(ttl, s, events[..|events| - 1]), events[|events| - 1]);
    }
  }

  // ---------------------------------------------------------------- what follows

  /** The lease that is stored. */
  function Stored(s: State): Option<Record> {
    if s.cell.entry.Some? then Some(s.cell.entry.value.value) else None
  }

  /** A lease that h has is not replaced by another holder's before it expires. */
  lemma StepExcludes(ttl: Holder -> nat, s: State, e: Event, h: Holder, until: nat)
    requires Holds(ttl, s) && Stored(s).Some? && Stored(s).value.holder == h && until <= Stored(s).value.expires
    ensures var t := Next(ttl, s, e);
            && Stored(t).Some? && s.clock <= t.clock
            && (t.clock >= until || Stored(t) == Some(Record(h, NEVER))
                || (Stored(t).value.holder == h && until <= Stored(t).value.expires))
  {
    assert ClaimOk(ttl, s, h);
    if e.Store? && Swaps(s, e.h) {
      assert StageOk(ttl, s, e.h);
      if StageOf(s, e.h).Passed? { assert s.cell.entry == Some(StageOf(s, e.h).current); }
      if StageOf(s, e.h).Owned? { assert s.cell.entry == Some(StageOf(s, e.h).current); }
    }
    hide Read, StageOk, CellOk;
  }

  lemma {:induction false} RunExcludes(ttl: Holder -> nat, s: State, events: seq<Event>, h: Holder, until: nat)
    requires Holds(ttl, s) && Stored(s).Some? && Stored(s).value.holder == h && until <= Stored(s).value.expires
    requires forall i | 0 <= i <= |events| :: Stored(Run(ttl, s, events[..i])) != Some(Record(h, NEVER))
    ensures var t := Run(ttl, s, events);
            && Stored(t).Some?
            && (t.clock >= until || (Stored(t).value.holder == h && until <= Stored(t).value.expires))
    decreases |events|
  {
    hide Next, Holds, Stored;
    if events != [] {
      var n := |events| - 1;
      var before := events[..n];
      forall i | 0 <= i <= n
        ensures before[..i] == events[..i]
      {
      }
      RunExcludes(ttl, s, before, h, until);
      RunHolds(ttl, s, before);
      var u := Run(ttl, s, before);
      assert events[..|events|] == events;
      if u.clock >= until {
        TimeGoesOn(ttl, u, events[n]);
      } else {
        StepExcludes(ttl, u, events[n], h, until);
      }
    }
  }

  /** The clock does not go back, and the record is never deleted. */
  lemma TimeGoesOn(ttl: Holder -> nat, s: State, e: Event)
    ensures s.clock <= Next(ttl, s, e).clock && (Stored(s).Some? ==> Stored(Next(ttl, s, e)).Some?)
  {
  }

  /** Exclusion: if the stored lease is h's at one moment, with the expiry E, and another
      holder's at a later moment, then it is E by then, unless h released the lease in between;
      for every interleaving of the looks, checks and compare-and-swaps of any number of
      instances under one clock. */
  lemma Exclusion(ttl: Holder -> nat, before: seq<Event>, after: seq<Event>, h: Holder, other: Holder)
    requires var s := Run(ttl, Start(), before);
             && Stored(s).Some? && Stored(s).value.holder == h && other != h
             && (forall i | 0 <= i <= |after| :: Stored(Run(ttl, s, after[..i])) != Some(Record(h, NEVER)))
             && var t := Run(ttl, s, after); Stored(t).Some? && Stored(t).value.holder == other
    ensures var s := Run(ttl, Start(), before); Run(ttl, s, after).clock >= Stored(s).value.expires
  {
    hide Holds, Next, Stored;
    StartHolds(ttl);
    RunHolds(ttl, Start(), before);
    var s := Run(ttl, Start(), before);
    RunExcludes(ttl, s, after, h, Stored(s).value.expires);
  }

  lemma StartHolds(ttl: Holder -> nat)
    ensures Holds(ttl, Start())
  {
  }

  /** The steps of an Acquire that nobody interrupts. */
  ghost function Acquired(ttl: Holder -> nat, s: State, h: Holder, revision: nat): State {
    Next(ttl, Next(ttl, Next(ttl, Next(ttl, s, Acquire(h)), Look(h)), Check(h)), Store(h, revision, true))
  }

  /** An instance that nobody interrupts gets the lease exactly when it is free, its own or
      expired, and changes nothing otherwise. */
  lemma AloneAcquires(ttl: Holder -> nat, s: State, h: Holder, revision: nat)
    requires Holds(ttl, s) && StageOf(s, h).Idle? && s.cell.high < revision
    ensures var t := Acquired(ttl, s, h, revision);
            && StageOf(t, h).Idle? && t.clock == s.clock
            && if Stored(s).None? || Stored(s).value.holder == h || s.clock >= Stored(s).value.expires
               then t.cell.entry == Some(Entry(Record(h, s.clock + ttl(h)), revision)) && h in t.claims
               else t.cell == s.cell && t.claims == s.claims
  {
    hide Holds;
    var s1 := Next(ttl, s, Acquire(h));
    assert StageOf(s1, h) == Began(Record(h, s.clock + ttl(h)));
    var s2 := Next(ttl, s1, Look(h));
    var s3 := Next(ttl, s2, Check(h));
    assert s3.cell == s.cell;
  }

  /** A Release that nobody interrupts gives up exactly this holder's own lease, so that any
      other instance can take it at once. */
  lemma AloneReleases(ttl: Holder -> nat, s: State, h: Holder, revision: nat)
    requires Holds(ttl, s) && StageOf(s, h).Idle? && s.cell.high < revision
    ensures var t := Next(ttl, Next(ttl, Next(ttl, s, Release(h)), Look(h)), Store(h, revision, true));
            && StageOf(t, h).Idle? && t.clock == s.clock
            && if Stored(s).Some? && Stored(s).value.holder == h
               then t.cell.entry == Some(Entry(Record(h, NEVER), revision)) && h !in t.claims
               else t.cell == s.cell && t.claims == s.claims
  {
    hide Holds;
    assert StageOf(Next(ttl, s, Release(h)), h) == Releasing;
  }

  // ---------------------------------------------------------------- renewal

  /** While h does nothing and its lease has not expired, the lease stays as it is. */
  lemma {:induction false} Stays(ttl: Holder -> nat, s: State, events: seq<Event>, h: Holder)
    requires Holds(ttl, s) && Stored(s).Some? && Stored(s).value.holder == h && StageOf(s, h).Idle?
    requires forall i | 0 <= i < |events| :: events[i].Tick? || events[i].h != h
    requires Run(ttl, s, events).clock < Stored(s).value.expires
    ensures var t := Run(ttl, s, events); t.cell == s.cell && StageOf(t, h).Idle? && s.clock <= t.clock
    decreases |events|
  {
    hide Next, Holds, StageOf;
    if events != [] {
      var n := |events| - 1;
      var before := events[..n];
      forall i | 0 <= i < n
        ensures before[i] == events[i]
      {
      }
      TimeGoesOn(ttl, Run(ttl, s, before), events[n]);
      Stays(ttl, s, before, h);
      RunHolds(ttl, s, before);
      OneStays(ttl, Run(ttl, s, before), events[n], h);
    }
  }

  lemma OneStays(ttl: Holder -> nat, s: State, e: Event, h: Holder)
    requires Holds(ttl, s) && Stored(s).Some? && Stored(s).value.holder == h && StageOf(s, h).Idle?
    requires (e.Tick? || e.h != h) && Next(ttl, s, e).clock < Stored(s).value.expires
    ensures var t := Next(ttl, s, e); t.cell == s.cell && StageOf(t, h).Idle? && s.clock <= t.clock
  {
    if e.Store? { assert StageOk(ttl, s, e.h); }
    hide StageOk, ClaimOk;
  }

  /** What the others do, and then an Acquire of h. */
  datatype Round = Round(others: seq<Event>, revision: nat)

  ghost function AfterRounds(ttl: Holder -> nat, s: State, h: Holder, rounds: seq<Round>): State {
    if rounds == [] then s
    else
      var r := rounds[|rounds| - 1];
      Acquired(ttl, Run(ttl, AfterRounds(ttl, s, h, rounds[..|rounds| - 1]), r.others), h, r.revision)
  }

  /** Meanwhile h does nothing else, and it acquires again before its lease expires. */
  ghost predicate InTime(ttl: Holder -> nat, s: State, h: Holder, r: Round) {
    && (forall i | 0 <= i < |r.others| :: r.others[i].Tick? || r.others[i].h != h)
    && Run(ttl, s, r.others).clock < s.clock + ttl(h) && Run(ttl, s, r.others).cell.high < r.revision
  }

  lemma InTimeIff(ttl: Holder -> nat, s: State, h: Holder, others: seq<Event>, revision: nat)
    requires Run(ttl, s, others).cell.high < revision
    ensures InTime(ttl, s, h, Round(others, revision)) <==>
              && (forall e | e in others :: e.Tick? || e.h != h)
              && Run(ttl, s, others).clock < s.clock + ttl(h)
  {
  }

  /** A holder that renews its lease in less than its time to live keeps it, whatever the others
      do: each of its Acquires succeeds, however many there are. */
  lemma {:induction false} RenewalKeeps(ttl: Holder -> nat, s: State, h: Holder, rounds: seq<Round>)
    requires Holds(ttl, s) && StageOf(s, h).Idle? && Stored(s) == Some(Record(h, s.clock + ttl(h)))
    requires forall k | 0 <= k < |rounds| :: InTime(ttl, AfterRounds(ttl, s, h, rounds[..k]), h, rounds[k])
    ensures var t := AfterRounds(ttl, s, h, rounds);
            Holds(ttl, t) && StageOf(t, h).Idle? && Stored(t) == Some(Record(h, t.clock + ttl(h)))
    decreases |rounds|
  {
    hide Next, Holds, Run, Acquired, StageOf, Stored, InTime;
    if rounds != [] {
      var n := |rounds| - 1;
      var before := rounds[..n];
      forall k | 0 <= k < n
        ensures before[k] == rounds[k] && before[..k] == rounds[..k]
      {
      }
      RenewalKeeps(ttl, s, h, before);
      assert InTime(ttl, AfterRounds(ttl, s, h, before), h, rounds[n]);
      OneRenewal(ttl, AfterRounds(ttl, s, h, before), h, rounds[n]);
    }
  }

  lemma OneRenewal(ttl: Holder -> nat, s: State, h: Holder, r: Round)
    requires Holds(ttl, s) && StageOf(s, h).Idle? && Stored(s) == Some(Record(h, s.clock + ttl(h)))
    requires InTime(ttl, s, h, r)
    ensures var t := Acquired(ttl, Run(ttl, s, r.others), h, r.revision);
            Holds(ttl, t) && StageOf(t, h).Idle? && Stored(t) == Some(Record(h, t.clock + ttl(h)))
  {
    hide Next, Holds, Run, Acquired, StageOf;
    Stays(ttl, s, r.others, h);
    RunHolds(ttl, s, r.others);
    var u := Run(ttl, s, r.others);
    AloneAcquires(ttl, u, h, r.revision);
    AcquiredHolds(ttl, u, h, r.revision);
  }

  lemma AcquiredHolds(ttl: Holder -> nat, s: State, h: Holder, revision: nat)
    requires Holds(ttl, s)
    ensures Holds(ttl, Acquired(ttl, s, h, revision))
  {
    hide Holds, Next;
    StepHolds(ttl, s, Acquire(h));
    StepHolds(ttl, Next(ttl, s, Acquire(h)), Look(h));
    StepHolds(ttl, Next(ttl, Next(ttl, s, Acquire(h)), Look(h)), Check(h));
    StepHolds(ttl, Next(ttl, Next(ttl, Next(ttl, s, Acquire(h)), Look(h)), Check(h)), Store(h, revision, true));
  }
}
