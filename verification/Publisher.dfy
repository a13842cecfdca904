/** Publishing in order through a stream and a disk buffer (pkg/coordinator/publisher.go), as
    a state machine over the steps of publish and drain, which run concurrently. */
module Publisher {
  import opened Wrappers

  type Id = string

  datatype Msg = Msg(id: Id, size: nat)

  datatype Item = Item(num: nat, msg: Msg)

  /** What became of a message sent to the stream. */
  datatype Outcome = Acked | AckLost | NotSent

  /** publish runs under a mutex: one message at a time is checked, sent directly, or parked.
      stored tells that a direct send reached the stream without an acknowledgement. */
  datatype Publish = Idle | Checking(m: Msg) | Sending(m: Msg) | Parking(m: Msg, stored: bool)

  /** drain holds the items it peeked at and counts the acknowledged ones. */
  datatype Drain = Resting | Sends(items: seq<Item>, acked: nat) | Removes(items: seq<Item>, acked: nat)

  /** The last five fields are history: taken lists the messages in the order in which they
      entered the stream or the buffer; accepted those whose publisher was told so; unsure
      the IDs of those in the stream whose publisher was told otherwise, or nothing. */
  datatype State = State(
    stream: seq<Msg>, buffer: seq<Item>, last: nat, max: nat, publish: Publish, drain: Drain,
    used: set<Id>, taken: seq<Msg>, accepted: seq<Msg>, rejected: set<Id>, unsure: set<Id>)

  datatype Event =
    | Begin(m: Msg)
    | Check(connected: bool)
    | Send(outcome: Outcome)
    | Append(diskOk: bool)
    | Peek
    | DrainSend(outcome: Outcome)
    | Remove(diskOk: bool)
    | Restart

  const PEEK := 64

  // ---------------------------------------------------------------- steps

  predicate Stored(stream: seq<Msg>, id: Id) { exists i :: 0 <= i < |stream| && stream[i].id == id }

  /** The stream keeps the first copy of each message ID. */
  function Delivered(stream: seq<Msg>, m: Msg): seq<Msg> {
    if Stored(stream, m.id) then stream else stream + [m]
  }

  function After(stream: seq<Msg>, m: Msg, outcome: Outcome): seq<Msg> {
    if outcome == NotSent then stream else Delivered(stream, m)
  }

  function Bytes(items: seq<Item>): nat {
    if items == [] then 0 else Bytes(items[..|items| - 1]) + items[|items| - 1].msg.size
  }

  function Fits(s: State, m: Msg): bool { m.size <= s.max && Bytes(s.buffer) + m.size <= s.max }

  /** The items with numbers beyond upTo. */
  function Dropped(items: seq<Item>, upTo: nat): seq<Item> {
    if items != [] && items[0].num <= upTo then Dropped(items[1..], upTo) else items
  }

  function Next(s: State, e: Event): State {
    match e
    case Begin(m) =>
      if s.publish.Idle? && m.id !in s.used then s.(publish := Checking(m), used := s.used + {m.id}) else s
    case Check(connected) =>
      if !s.publish.Checking? then s
      else if s.buffer == [] && connected then s.(publish := Sending(s.publish.m))
      else s.(publish := Parking(s.publish.m, false))
    case Send(outcome) =>
      if !s.publish.Sending? then s
      else
        var m := s.publish.m;
        var t := s.(stream := After(s.stream, m, outcome),
                    taken := if outcome == NotSent then s.taken else s.taken + [m]);
        if outcome == Acked then t.(publish := Idle, accepted := s.accepted + [m])
        else t.(publish := Parking(m, outcome == AckLost))
    case Append(diskOk) =>
      if !s.publish.Parking? then s
      else
        var m := s.publish.m;
        if diskOk && Fits(s, m) then
          s.(publish := Idle, accepted := s.accepted + [m], buffer := s.buffer + [Item(s.last + 1, m)],
             last := s.last + 1,
             taken := if s.publish.stored then s.taken else s.taken + [m])
        else
          s.(publish := Idle, rejected := s.rejected + {m.id},
             unsure := if s.publish.stored then s.unsure + {m.id} else s.unsure)
    case Peek =>
      if s.drain.Resting? && s.buffer != [] then s.(drain := Sends(s.buffer[..Min(PEEK, |s.buffer|)], 0)) else s
    case DrainSend(outcome) =>
      if !s.drain.Sends? || s.drain.acked >= |s.drain.items| then s
      else
        var items, n := s.drain.items, s.drain.acked;
        var t := s.(stream := After(s.stream, items[n].msg, outcome));
        if outcome == Acked then t.(drain := if n + 1 < |items| then Sends(items, n + 1) else Removes(items, n + 1))
        else if n > 0 then t.(drain := Removes(items, n))
        else t.(drain := Resting)
    case Remove(diskOk) =>
      if !s.drain.Removes? || s.drain.acked == 0 || s.drain.acked > |s.drain.items| then s
      else s.(drain := Resting,
              buffer := if diskOk then Dropped(s.buffer, s.drain.items[s.drain.acked - 1].num) else s.buffer)
    case Restart =>
      s.(publish := Idle, drain := Resting,
         unsure := if s.publish.Parking? && s.publish.stored then s.unsure + {s.publish.m.id} else s.unsure)
  }

  ghost function Run(s: State, events: seq<Event>): State {
    if events == [] then s else Next(Run(s, events[..|events| - 1]), events[|events| - 1])
  }

  function Start(max: nat): State {
    State([], [], 0, max, Idle, Resting, {}, [], [], {}, {})
  }

  // ---------------------------------------------------------------- the invariant

  function Messages(items: seq<Item>): (ms: seq<Msg>)
    ensures |ms| == |items| && forall i | 0 <= i < |items| :: ms[i] == items[i].msg
  {
    seq(|items|, i requires 0 <= i < |items| => items[i].msg)
  }

  ghost predicate Unique(ms: seq<Msg>) {
    forall i, j | 0 <= i < j < |ms| :: ms[i].id != ms[j].id
  }

  /** The stream is a prefix of what was taken, the buffer a suffix, and together they cover it. */
  ghost predicate Ordered(stream: seq<Msg>, buffer: seq<Item>, taken: seq<Msg>) {
    && |stream| <= |taken| && stream == taken[..|stream|]
    && |buffer| <= |taken| && Messages(buffer) == taken[|taken| - |buffer|..]
    && |taken| - |buffer| <= |stream|
  }

  ghost predicate Numbered(buffer: seq<Item>, last: nat) {
    |buffer| <= last && forall i | 0 <= i < |buffer| :: buffer[i].num == last - |buffer| + 1 + i
  }

  /** The message in hand is new, or the newest one taken, with nothing in the buffer. */
  ghost predicate PublishOk(publish: Publish, buffer: seq<Item>, stream: seq<Msg>, taken: seq<Msg>) {
    match publish
    case Idle => true
    case Checking(m) => !Stored(taken, m.id)
    case Sending(m) => !Stored(taken, m.id) && buffer == []
    case Parking(m, stored) =>
      if stored then buffer == [] && taken != [] && taken[|taken| - 1] == m && |stream| == |taken|
      else !Stored(taken, m.id)
  }

  /** No ID is used twice. */
  ghost predicate IdsOk(publish: Publish, used: set<Id>, taken: seq<Msg>, rejected: set<Id>, unsure: set<Id>) {
    && (!publish.Idle? ==> publish.m.id in used && publish.m.id !in rejected && publish.m.id !in unsure)
    && (forall i | 0 <= i < |taken| :: taken[i].id in used)
    && rejected <= used && unsure <= used
  }

  /** The drain's items are the oldest of the buffer, and the acknowledged ones are in the stream. */
  ghost predicate DrainOk(drain: Drain, buffer: seq<Item>, ahead: int) {
    drain.Resting? ||
    (&& 0 < |drain.items| <= |buffer| && drain.items == buffer[..|drain.items|]
     && drain.acked <= |drain.items| && (drain.Removes? ==> drain.acked > 0)
     && (drain.Sends? ==> drain.acked < |drain.items|)
     && drain.acked <= ahead)
  }

  /** The message that is in the stream and not answered yet. */
  ghost function InHand(publish: Publish): set<Id> {
    if publish.Parking? && publish.stored then {publish.m.id} else {}
  }

  function Except(ms: seq<Msg>, ids: set<Id>): seq<Msg> {
    if ms == [] then []
    else Except(ms[..|ms| - 1], ids) + if ms[|ms| - 1].id in ids then [] else [ms[|ms| - 1]]
  }

  ghost predicate Answered(stream: seq<Msg>, taken: seq<Msg>, accepted: seq<Msg>, rejected: set<Id>, unsure: set<Id>,
                           inHand: set<Id>) {
    && accepted == Except(taken, unsure + inHand)
    && (forall id | id in unsure :: Stored(stream, id))
    && (forall id | id in rejected :: Stored(taken, id) <==> id in unsure)
  }

  /** How many of the buffered messages are in the stream. */
  ghost function Ahead(s: State): int { |s.stream| - (|s.taken| - |s.buffer|) }

  ghost predicate Holds(s: State) {
    && Unique(s.taken) && Ordered(s.stream, s.buffer, s.taken) && Numbered(s.buffer, s.last)
    && PublishOk(s.publish, s.buffer, s.stream, s.taken) && DrainOk(s.drain, s.buffer, Ahead(s))
    && IdsOk(s.publish, s.used, s.taken, s.rejected, s.unsure)
    && Answered(s.stream, s.taken, s.accepted, s.rejected, s.unsure, InHand(s.publish))
    && Bytes(s.buffer) <= s.max
  }

  lemma {:induction false} ExceptNew(ms: seq<Msg>, ids: set<Id>, id: Id)
    requires !Stored(ms, id)
    ensures Except(ms, ids + {id}) == Except(ms, ids)
    decreases |ms|
  {
    if ms != [] {
      var shorter := ms[..|ms| - 1];
      assert ms[|ms| - 1].id != id;
      assert forall i | 0 <= i < |shorter| :: shorter[i] == ms[i];
      ExceptNew(shorter, ids, id);
    }
  }

  lemma ExceptLast(ms: seq<Msg>, ids: set<Id>, m: Msg)
    ensures Except(ms + [m], ids) == Except(ms, ids) + if m.id in ids then [] else [m]
  {
    assert (ms + [m])[..|ms|] == ms;
  }

  // ---------------------------------------------------------------- every step keeps it

  lemma StartHolds(max: nat)
    ensures Holds(Start(max))
  {
    var s := Start(max);
    assert Unique([]) && Ordered([], [], []) && Numbered([], 0) by {
      assert Messages([]) == [];
    }
    assert Answered([], [], [], {}, {}, {}) by {
      assert Except([], {} + {}) == [];
    }
    assert InHand(Idle) == {} && Bytes([]) == 0;
    hide Unique, Ordered, Numbered, Answered, Bytes, InHand;
  }

  lemma StepHolds(s: State, e: Event)
    requires Holds(s)
    ensures Holds(Next(s, e))
  {
    hide Holds;
    match e
    case Begin(m) => BeginHolds(s, m);
    case Check(connected) => CheckHolds(s, connected);
    case Send(outcome) => if s.publish.Sending? { SendHolds(s, outcome); }
    case Append(diskOk) => if s.publish.Parking? { AppendHolds(s, diskOk); }
    case Peek => PeekHolds(s);
    case DrainSend(outcome) => if s.drain.Sends? { DrainSendHolds(s, outcome); }
    case Remove(diskOk) => if s.drain.Removes? { RemoveHolds(s, diskOk); }
    case Restart => RestartHolds(s);
  }

  lemma BeginHolds(s: State, m: Msg)
    requires Holds(s)
    ensures Holds(Next(s, Begin(m)))
  {
    hide Unique, Ordered, Numbered, Except, DrainOk;
    if s.publish.Idle? && m.id !in s.used { assert !Stored(s.taken, m.id); }
  }

  lemma CheckHolds(s: State, connected: bool)
    requires Holds(s)
    ensures Holds(Next(s, Check(connected)))
  {
    hide Unique, Ordered, Numbered, Answered, DrainOk, Stored;
  }

  lemma PeekHolds(s: State)
    requires Holds(s)
    ensures Holds(Next(s, Peek))
  {
    hide Unique, Numbered, Answered, Stored, PublishOk, IdsOk;
  }

  lemma UniqueMore(ms: seq<Msg>, m: Msg)
    requires Unique(ms) && !Stored(ms, m.id)
    ensures Unique(ms + [m])
  {
  }

  /** Adding a new message to what was taken. */
  lemma TakeNew(s: State, m: Msg)
    requires Unique(s.taken) && !Stored(s.taken, m.id)
    requires Answered(s.stream, s.taken, s.accepted, s.rejected, s.unsure, {})
    requires m.id !in s.unsure && m.id !in s.rejected
    ensures Unique(s.taken + [m]) && forall id :: Stored(s.taken + [m], id) <==> Stored(s.taken, id) || id == m.id
    ensures Except(s.taken + [m], s.unsure) == s.accepted + [m]
    ensures Except(s.taken + [m], s.unsure + {m.id}) == s.accepted
    ensures forall id | id in s.rejected :: Stored(s.taken + [m], id) <==> id in s.unsure
  {
    hide Except, Stored, Unique;
    UniqueMore(s.taken, m);
    ExceptLast(s.taken, s.unsure, m);
    ExceptLast(s.taken, s.unsure + {m.id}, m);
    ExceptNew(s.taken, s.unsure, m.id);
    StoredMore(s.taken, m);
    assert s.unsure + {} == s.unsure;
  }

  lemma SendHolds(s: State, outcome: Outcome)
    requires Holds(s) && s.publish.Sending?
    ensures Holds(Next(s, Send(outcome)))
  {
    hide Unique, Except, Bytes, Numbered, Messages, Stored, Ordered;
    var m := s.publish.m;
    if outcome != NotSent {
      NothingBuffered(s.stream, s.taken, m);
      TakeNew(s, m);
      assert s.unsure + {} == s.unsure;
    }
  }

  lemma NothingBuffered(stream: seq<Msg>, taken: seq<Msg>, m: Msg)
    requires Ordered(stream, [], taken)
    ensures stream == taken && Ordered(stream + [m], [], taken + [m])
  {
  }

  lemma StoredMore(ms: seq<Msg>, m: Msg)
    ensures forall id :: Stored(ms + [m], id) <==> Stored(ms, id) || id == m.id
  {
    forall id
      ensures Stored(ms + [m], id) <==> Stored(ms, id) || id == m.id
    {
      assert (ms + [m])[|ms|].id == m.id;
      if i :| 0 <= i < |ms| && ms[i].id == id { assert (ms + [m])[i].id == id; }
    }
  }

  lemma AppendHolds(s: State, diskOk: bool)
    requires Holds(s) && s.publish.Parking?
    ensures Holds(Next(s, Append(diskOk)))
  {
    hide Holds;
    if diskOk && Fits(s, s.publish.m) { AppendTakes(s); } else { AppendRefuses(s, diskOk); }
  }

  lemma AppendRefuses(s: State, diskOk: bool)
    requires Holds(s) && s.publish.Parking? && !(diskOk && Fits(s, s.publish.m))
    ensures Holds(Next(s, Append(diskOk)))
  {
    hide Unique, Except, DrainOk, Numbered, Bytes, Messages, Ordered, Fits;
    var t := Next(s, Append(diskOk));
    assert s.unsure + InHand(s.publish) == t.unsure + InHand(t.publish);
    if s.publish.stored { StreamIsTaken(s.stream, s.buffer, s.taken); }
  }

  lemma AppendTakes(s: State)
    requires Holds(s) && s.publish.Parking? && Fits(s, s.publish.m)
    ensures Holds(Next(s, Append(true)))
  {
    hide Unique, Except, Numbered, Bytes, Messages, Ordered, Stored;
    var m, t := s.publish.m, Next(s, Append(true));
    assert t.buffer[..|s.buffer|] == s.buffer;
    NewItem(s.stream, s.buffer, s.taken, s.last, m, s.publish.stored);
    if s.publish.stored {
      NewestAnswered(s);
    } else {
      assert s.unsure + {} == s.unsure;
      TakeNew(s, m);
    }
  }

  lemma NewItem(stream: seq<Msg>, buffer: seq<Item>, taken: seq<Msg>, last: nat, m: Msg, stored: bool)
    requires Ordered(stream, buffer, taken) && Numbered(buffer, last)
    requires stored ==> buffer == [] && taken != [] && taken[|taken| - 1] == m && |stream| == |taken|
    ensures Ordered(stream, buffer + [Item(last + 1, m)], if stored then taken else taken + [m])
    ensures Numbered(buffer + [Item(last + 1, m)], last + 1)
    ensures Bytes(buffer + [Item(last + 1, m)]) == Bytes(buffer) + m.size
  {
    hide Bytes;
    LongerOrdered(stream, buffer, taken, last, m);
    OneMoreByte(buffer, Item(last + 1, m));
    if stored { assert Messages([Item(last + 1, m)]) == [m] && buffer + [Item(last + 1, m)] == [Item(last + 1, m)]; }
  }

  lemma OneMoreByte(buffer: seq<Item>, it: Item)
    ensures Bytes(buffer + [it]) == Bytes(buffer) + it.msg.size
  {
    assert (buffer + [it])[..|buffer|] == buffer;
  }

  lemma LongerOrdered(stream: seq<Msg>, buffer: seq<Item>, taken: seq<Msg>, last: nat, m: Msg)
    requires Ordered(stream, buffer, taken)
    ensures Ordered(stream, buffer + [Item(last + 1, m)], taken + [m])
  {
    assert Messages(buffer + [Item(last + 1, m)]) == Messages(buffer) + [m];
  }

  /** The newest message taken becomes an accepted one. */
  lemma NewestAnswered(s: State)
    requires Unique(s.taken) && s.taken != []
    requires var m := s.taken[|s.taken| - 1];
             m.id !in s.unsure && Answered(s.stream, s.taken, s.accepted, s.rejected, s.unsure, {m.id})
    ensures Answered(s.stream, s.taken, s.accepted + [s.taken[|s.taken| - 1]], s.rejected, s.unsure, {})
  {
    var before, m := s.taken[..|s.taken| - 1], s.taken[|s.taken| - 1];
    assert s.taken == before + [m];
    assert forall i | 0 <= i < |before| :: before[i] == s.taken[i];
    ExceptLast(before, s.unsure, m);
    ExceptLast(before, s.unsure + {m.id}, m);
    ExceptNew(before, s.unsure, m.id);
    assert s.unsure + {} == s.unsure;
  }

  lemma DrainSendHolds(s: State, outcome: Outcome)
    requires Holds(s) && s.drain.Sends?
    ensures Holds(Next(s, DrainSend(outcome)))
  {
    hide Unique, Ordered, Delivered, Except, Bytes, Numbered, Messages, Stored, IdsOk, After;
    assert s.publish.Parking? ==> !s.publish.stored;
    SendsNext(s.stream, s.buffer, s.taken, s.drain.acked, outcome);
  }

  /** The next item to send is already in the stream, or is the one that follows it. */
  lemma SendsNext(stream: seq<Msg>, buffer: seq<Item>, taken: seq<Msg>, n: nat, outcome: Outcome)
    requires Unique(taken) && Ordered(stream, buffer, taken)
    requires n < |buffer| && |taken| - |buffer| + n <= |stream|
    ensures var stream' := After(stream, buffer[n].msg, outcome);
            && Ordered(stream', buffer, taken) && |stream| <= |stream'|
            && (forall id :: Stored(stream, id) ==> Stored(stream', id))
            && (outcome != NotSent ==> |taken| - |buffer| + n < |stream'|)
  {
    var m, at := buffer[n].msg, |taken| - |buffer| + n;
    assert Messages(buffer)[n] == m && taken[at] == m;
    if outcome != NotSent {
      if at < |stream| {
        assert stream[at] == m;
      } else {
        assert !Stored(stream, m.id);
        assert stream + [m] == taken[..at + 1];
        StoredMore(stream, m);
      }
    }
  }

  lemma {:induction false} DropsPrefix(items: seq<Item>, k: nat, upTo: nat)
    requires k <= |items| && (forall i | 0 <= i < |items| :: items[i].num <= upTo <==> i < k)
    ensures Dropped(items, upTo) == items[k..]
    decreases k
  {
    if k > 0 { DropsPrefix(items[1..], k - 1, upTo); }
  }

  lemma {:induction false} BytesOfSuffix(items: seq<Item>, k: nat)
    requires k <= |items|
    ensures Bytes(items[k..]) <= Bytes(items)
    decreases |items|
  {
    if k < |items| {
      var n := |items| - 1;
      BytesOfSuffix(items[..n], k);
      assert items[k..][..n - k] == items[..n][k..];
    }
  }

  lemma RemoveHolds(s: State, diskOk: bool)
    requires Holds(s) && s.drain.Removes?
    ensures Holds(Next(s, Remove(diskOk)))
    ensures diskOk ==> Next(s, Remove(diskOk)).buffer == s.buffer[s.drain.acked..]
  {
    hide Unique, Dropped, Except, Bytes, Stored, Ordered, Numbered, Answered, IdsOk;
    RemovesPrefix(s.buffer, s.last, s.drain.items, s.drain.acked);
    SuffixOrdered(s.stream, s.buffer, s.taken, s.drain.acked);
    SuffixNumbered(s.buffer, s.last, s.drain.acked);
    assert s.publish.Parking? ==> !s.publish.stored;
  }

  lemma RemovesPrefix(buffer: seq<Item>, last: nat, items: seq<Item>, k: nat)
    requires Numbered(buffer, last)
    requires 0 < k <= |items| <= |buffer| && items == buffer[..|items|]
    ensures Dropped(buffer, items[k - 1].num) == buffer[k..]
  {
    DropsPrefix(buffer, k, items[k - 1].num);
  }

  lemma SuffixOrdered(stream: seq<Msg>, buffer: seq<Item>, taken: seq<Msg>, k: nat)
    requires Ordered(stream, buffer, taken) && k <= |buffer| && |taken| - |buffer| + k <= |stream|
    ensures Ordered(stream, buffer[k..], taken)
  {
    assert Messages(buffer[k..]) == Messages(buffer)[k..];
  }

  lemma SuffixNumbered(buffer: seq<Item>, last: nat, k: nat)
    requires Numbered(buffer, last) && k <= |buffer|
    ensures Numbered(buffer[k..], last) && Bytes(buffer[k..]) <= Bytes(buffer)
  {
    BytesOfSuffix(buffer, k);
  }

  lemma RestartHolds(s: State)
    requires Holds(s)
    ensures Holds(Next(s, Restart))
  {
    hide Unique, Except, Bytes, Ordered, Numbered, Stored;
    var t := Next(s, Restart);
    assert t.unsure + InHand(t.publish) == s.unsure + InHand(s.publish);
    if s.publish.Parking? && s.publish.stored { StreamIsTaken(s.stream, s.buffer, s.taken); }
  }

  lemma StreamIsTaken(stream: seq<Msg>, buffer: seq<Item>, taken: seq<Msg>)
    requires Ordered(stream, buffer, taken) && |stream| == |taken| > 0
    ensures stream == taken && Stored(stream, taken[|taken| - 1].id)
  {
  }

  lemma {:induction false} RunHolds(max: nat, events: seq<Event>)
    ensures Holds(Run(Start(max), events))
    decreases |events|
  {
    if events == [] {
      StartHolds(max);
    } else {
      RunHolds(max, events[..|events| - 1]);
      StepHolds(Run(Start(max), events[..|events| - 1]), events[|events| - 1]);
    }
  }

  // ---------------------------------------------------------------- what follows

  /** The buffered messages that are not in the stream. */
  function Waiting(s: State): seq<Msg> { NotStored(Messages(s.buffer), s.stream) }

  function NotStored(ms: seq<Msg>, stream: seq<Msg>): seq<Msg> {
    if ms == [] then []
    else NotStored(ms[..|ms| - 1], stream) + if Stored(stream, ms[|ms| - 1].id) then [] else [ms[|ms| - 1]]
  }

  lemma LongerSuffix(ms: seq<Msg>, k: nat)
    requires k < |ms|
    ensures ms[k..] == ms[..|ms| - 1][k..] + [ms[|ms| - 1]]
  {
  }

  lemma {:induction false} NotStoredSuffix(ms: seq<Msg>, stream: seq<Msg>, k: nat)
    requires k <= |ms| && forall i | 0 <= i < |ms| :: Stored(stream, ms[i].id) <==> i < k
    ensures NotStored(ms, stream) == ms[k..]
    decreases |ms|
  {
    hide Stored;
    if ms != [] {
      var n := |ms| - 1;
      var before := ms[..n];
      forall i | 0 <= i < n
        ensures before[i] == ms[i]
      {
      }
      assert NotStored(ms, stream) == NotStored(before, stream) + if n < k then [] else [ms[n]];
      hide NotStored;
      NotStoredSuffix(before, stream, if k < n then k else n);
      if k <= n { LongerSuffix(ms, k); }
    }
  }

  lemma {:induction false} SameMax(max: nat, events: seq<Event>)
    ensures Run(Start(max), events).max == max
    decreases |events|
  {
    hide Next;
    if events != [] {
      SameMax(max, events[..|events| - 1]);
      SameMessage(Run(Start(max), events[..|events| - 1]), events[|events| - 1]);
    }
  }

  /** Every run, however publishing, draining, lost acknowledgements, failures and restarts
      interleave: the stream followed by the buffered messages not yet in it is what was taken,
      in order and without duplicates, and the accepted messages are what was taken but for the
      messages whose fate their publisher was not told. */
  lemma NothingLostOrOvertaken(max: nat, events: seq<Event>)
    ensures var s := Run(Start(max), events);
            && s.stream + Waiting(s) == s.taken && Bytes(s.buffer) <= max
            && (forall i, j | 0 <= i < j < |s.taken| :: s.taken[i].id != s.taken[j].id)
            && s.accepted == Except(s.taken, s.unsure + InHand(s.publish))
            && (forall id | id in s.rejected :: Stored(s.stream + Waiting(s), id) <==> id in s.unsure)
  {
    hide Run, Start, Next, Bytes;
    RunHolds(max, events);
    SameMax(max, events);
    var s := Run(Start(max), events);
    var rest := |s.taken| - |s.buffer|;
    var k := |s.stream| - rest;
    forall i | 0 <= i < |s.buffer|
      ensures Stored(s.stream, Messages(s.buffer)[i].id) <==> i < k
    {
      assert Messages(s.buffer)[i] == s.taken[rest + i];
      if i < k { assert s.stream[rest + i] == s.taken[rest + i]; }
    }
    NotStoredSuffix(Messages(s.buffer), s.stream, k);
  }

  /** A step leaves a message in the stream without telling its publisher in exactly one way:
      the direct send's acknowledgement was lost, and then the process restarts or the buffer
      does not take the message, which it always does unless the disk fails or the message is
      larger than the whole buffer. */
  lemma UnsureIff(s: State, e: Event)
    requires Holds(s)
    ensures Next(s, e).unsure != s.unsure <==>
            && s.publish.Parking? && s.publish.stored
            && (e.Restart? || (e.Append? && (!e.diskOk || s.publish.m.size > s.max)))
    ensures Next(s, e).unsure == s.unsure || Next(s, e).unsure == s.unsure + {s.publish.m.id}
  {
    if s.publish.Parking? && s.publish.stored {
      assert s.publish.m.id !in s.unsure;
      assert Bytes(s.buffer) == 0;
    }
  }

  /** A step refuses a message in exactly one way: it is to be parked, and the disk fails or
      what is buffered leaves no room for it. */
  lemma RejectsIff(s: State, e: Event)
    requires Holds(s)
    ensures Next(s, e).rejected != s.rejected <==>
            && s.publish.Parking? && e.Append?
            && (!e.diskOk || Bytes(s.buffer) + s.publish.m.size > s.max)
    ensures s.publish.Parking? && e.Append? && e.diskOk && Bytes(s.buffer) + s.publish.m.size <= s.max ==>
              var t, m := Next(s, e), s.publish.m;
              t.publish.Idle? && t.accepted == s.accepted + [m] && t.buffer == s.buffer + [Item(s.last + 1, m)]
  {
    hide Unique, Ordered, Numbered, Answered, Except, Bytes, DrainOk;
  }

  /** The drain only makes room. */
  lemma {:induction false} DrainMakesRoom(s: State, events: seq<Event>)
    requires Holds(s) && forall i | 0 <= i < |events| :: events[i].Peek? || events[i].DrainSend? || events[i].Remove?
    ensures var t := Run(s, events);
            && Holds(t) && t.publish == s.publish && t.max == s.max && Bytes(t.buffer) <= Bytes(s.buffer)
            && t.accepted == s.accepted && t.rejected == s.rejected
    decreases |events|
  {
    hide Next, Holds, Bytes;
    if events != [] {
      var n := |events| - 1;
      var before := events[..n];
      forall i | 0 <= i < n
        ensures before[i] == events[i]
      {
      }
      DrainMakesRoom(s, before);
      var u := Run(s, before);
      StepHolds(u, events[n]);
      OneMakesRoom(u, events[n]);
    }
  }

  lemma OneMakesRoom(s: State, e: Event)
    requires Holds(s) && (e.Peek? || e.DrainSend? || e.Remove?)
    ensures var t := Next(s, e);
            && t.publish == s.publish && t.max == s.max && Bytes(t.buffer) <= Bytes(s.buffer)
            && t.accepted == s.accepted && t.rejected == s.rejected
  {
    if e.Remove? && s.drain.Removes? && e.diskOk {
      RemoveHolds(s, true);
      BytesOfSuffix(s.buffer, s.drain.acked);
    }
    hide Unique, Ordered, Numbered, Answered, Except, Bytes, Dropped;
  }

  /** A restart keeps what is in the stream and on disk, and nothing else is under way then. */
  lemma RestartForgets(s: State)
    ensures var t := Next(s, Restart);
            && t.publish.Idle? && t.drain.Resting? && t.stream == s.stream && t.buffer == s.buffer
            && t.last == s.last && t.accepted == s.accepted && t.rejected == s.rejected && t.taken == s.taken
  {
  }

  /** What a publisher is told, whatever is buffered and whatever the drain does meanwhile: the
      message is accepted exactly when nothing was buffered and the stream acknowledged it, or
      there is room for it in the buffer and the disk works. */
  lemma PublishAnswer(s: State, connected: bool, outcome: Outcome, meanwhile: seq<Event>, diskOk: bool)
    requires Holds(s) && s.publish.Checking?
    requires forall i | 0 <= i < |meanwhile| ::
               meanwhile[i].Peek? || meanwhile[i].DrainSend? || meanwhile[i].Remove?
    ensures var m := s.publish.m;
            var u := Run(Next(Next(s, Check(connected)), Send(outcome)), meanwhile);
            var t := Next(u, Append(diskOk));
            && t.publish.Idle? && Bytes(u.buffer) <= Bytes(s.buffer)
            && if (s.buffer == [] && connected && outcome == Acked) || (diskOk && Bytes(u.buffer) + m.size <= s.max)
               then t.accepted == s.accepted + [m] && t.rejected == s.rejected
               else t.accepted == s.accepted && t.rejected == s.rejected + {m.id}
  {
    hide Holds, Run;
    StepHolds(s, Check(connected));
    StepHolds(Next(s, Check(connected)), Send(outcome));
    DrainMakesRoom(Next(Next(s, Check(connected)), Send(outcome)), meanwhile);
    hide Bytes;
  }

  /** Steps of a process that is not restarted, whose disk works and whose messages fit. */
  predicate Smooth(e: Event, max: nat) { !e.Restart? && e != Append(false) && (e.Begin? ==> e.m.size <= max) }

  lemma {:induction false} NoneUnsure(max: nat, events: seq<Event>)
    requires forall i | 0 <= i < |events| :: Smooth(events[i], max)
    ensures var s := Run(Start(max), events);
            s.unsure == {} && s.max == max && (!s.publish.Idle? ==> s.publish.m.size <= max)
    decreases |events|
  {
    hide Next, Holds, Smooth;
    if events != [] {
      var n := |events| - 1;
      assert Smooth(events[n], max) && forall i | 0 <= i < n :: events[..n][i] == events[i];
      NoneUnsure(max, events[..n]);
      RunHolds(max, events[..n]);
      SmoothStep(max, Run(Start(max), events[..n]), events[n]);
    }
  }

  lemma SmoothStep(max: nat, s: State, e: Event)
    requires Holds(s) && Smooth(e, max) && s.unsure == {} && s.max == max
             && (!s.publish.Idle? ==> s.publish.m.size <= max)
    ensures var t := Next(s, e); t.unsure == {} && t.max == max && (!t.publish.Idle? ==> t.publish.m.size <= max)
  {
    hide Next, Holds;
    UnsureIff(s, e);
    SameMessage(s, e);
  }

  lemma SameMessage(s: State, e: Event)
    ensures var t := Next(s, e);
            t.max == s.max && (t.publish.Idle? || e == Begin(t.publish.m)
                               || (!s.publish.Idle? && t.publish.m == s.publish.m))
  {
  }

  /** Where the process is not restarted, the disk works and the messages fit, none is left
      unsure, so the stream and what waits hold exactly the accepted messages whenever no
      publish is under way. */
  lemma AcceptedExactly(max: nat, events: seq<Event>)
    requires forall i | 0 <= i < |events| ::
               !events[i].Restart? && events[i] != Append(false) && (events[i].Begin? ==> events[i].m.size <= max)
    requires Run(Start(max), events).publish.Idle?
    ensures var s := Run(Start(max), events); s.stream + Waiting(s) == s.accepted
  {
    hide Holds, Waiting, Except, Unique, Next;
    var s := Run(Start(max), events);
    NothingLostOrOvertaken(max, events);
    NoneUnsure(max, events);
    assert s.unsure + InHand(s.publish) == {};
    ExceptNone(s.taken);
  }

  lemma {:induction false} ExceptNone(ms: seq<Msg>)
    ensures Except(ms, {}) == ms
    decreases |ms|
  {
    if ms != [] {
      ExceptNone(ms[..|ms| - 1]);
      assert ms == ms[..|ms| - 1] + [ms[|ms| - 1]];
    }
  }

  /** With nothing in the buffer, a message that fits is accepted whatever becomes of the direct
      send, also while the drain runs in between. */
  lemma FirstIsAccepted(s: State, connected: bool, outcome: Outcome, e: Event)
    requires Holds(s) && s.publish.Checking? && s.buffer == [] && s.publish.m.size <= s.max
    requires e.Peek? || e.DrainSend? || e.Remove?
    ensures var t := Next(Next(Next(Next(s, Check(connected)), Send(outcome)), e), Append(true));
            t.publish == Idle && t.accepted == s.accepted + [s.publish.m] && t.rejected == s.rejected
            && t.unsure == s.unsure
  {
    assert s.drain.Resting?;
    hide Unique, Ordered, Numbered, Answered, IdsOk, Except;
    var s2 := Next(Next(s, Check(connected)), Send(outcome));
    assert s2.buffer == [] && s2.drain == Resting;
    assert Next(s2, e) == s2;
  }

  /** The restriction to messages that fit is needed: one larger than the buffer can be in the
      stream although its publisher was told that nothing was accepted. */
  lemma OversizedMayLeak(m: Msg, max: nat)
    requires m.size > max
    ensures var s := Run(Start(max), [Begin(m), Check(true), Send(AckLost), Append(true)]);
            s.rejected == {m.id} && s.stream == [m] && s.accepted == []
  {
    var events := [Begin(m), Check(true), Send(AckLost), Append(true)];
    var s0 := Start(max);
    assert events[..3][..2] == [Begin(m), Check(true)] && events[..3][..2][..1] == [Begin(m)] && [Begin(m)][..0] == [];
    var s1 := Next(s0, Begin(m));
    assert Run(s0, [Begin(m)]) == s1;
    var s2 := Next(s1, Check(true));
    assert Run(s0, [Begin(m), Check(true)]) == s2;
    var s3 := Next(s2, Send(AckLost));
    assert Run(s0, events[..3]) == s3;
  }

  /** While nothing is published and the stream is reachable, draining empties the buffer, and
      then the stream holds everything that was taken. */
  method DrainAll(s: State) returns (t: State)
    requires Holds(s) && s.publish.Idle?
    ensures Holds(t) && t.buffer == [] && t.drain.Resting? && t.stream == s.taken && t.taken == s.taken
    ensures t.accepted == s.accepted && t.rejected == s.rejected && t.unsure == s.unsure
  {
    hide Holds;
    t := FinishRound(s);
    while t.buffer != []
      invariant Holds(t) && t.publish.Idle? && t.drain.Resting? && t.taken == s.taken
      invariant t.accepted == s.accepted && t.rejected == s.rejected && t.unsure == s.unsure
      decreases |t.buffer|
    {
      StepHolds(t, Peek);
      t := Next(t, Peek);
      t := FinishRound(t);
    }
    EverythingSent(t);
  }

  method FinishRound(s: State) returns (t: State)
    requires Holds(s) && s.publish.Idle?
    ensures Holds(t) && t.publish.Idle? && t.drain.Resting? && t.taken == s.taken
    ensures t.accepted == s.accepted && t.rejected == s.rejected && t.unsure == s.unsure
    ensures |t.buffer| <= |s.buffer| && (!s.drain.Resting? ==> |t.buffer| < |s.buffer|)
  {
    hide Holds, Next;
    t := s;
    while t.drain.Sends?
      invariant Holds(t) && t == s.(stream := t.stream, drain := t.drain) && (t.drain.Resting? <==> s.drain.Resting?)
      decreases if t.drain.Sends? then |t.drain.items| - t.drain.acked else 0
    {
      StepHolds(t, DrainSend(Acked));
      SendStep(t);
      t := Next(t, DrainSend(Acked));
    }
    if t.drain.Removes? {
      RemoveHolds(t, true);
      RemoveStep(t);
      t := Next(t, Remove(true));
    }
  }

  lemma SendStep(t: State)
    requires Holds(t) && t.drain.Sends?
    ensures var u := Next(t, DrainSend(Acked));
            && u == t.(stream := u.stream, drain := u.drain) && !u.drain.Resting?
            && (u.drain.Sends? ==> |u.drain.items| - u.drain.acked < |t.drain.items| - t.drain.acked)
            && t.drain.acked < |t.drain.items|
  {
    hide Unique, Ordered, Answered, Numbered, Bytes, IdsOk, PublishOk;
  }

  lemma RemoveStep(t: State)
    requires Holds(t) && t.drain.Removes?
    ensures 0 < t.drain.acked <= |t.buffer|
    ensures var u := Next(t, Remove(true)); u == t.(buffer := u.buffer, drain := Resting)
  {
    hide Unique, Ordered, Answered, Numbered, Bytes, IdsOk, PublishOk;
  }

  lemma EverythingSent(s: State)
    requires Holds(s) && s.buffer == []
    ensures s.stream == s.taken
  {
  }
}
