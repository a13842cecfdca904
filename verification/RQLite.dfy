/** The coordinator's store on rqlite (pkg/coordinator/state/rqlite.go): operations made of
    several SQL statements, run by several clients at once on the row of one key. */
module RQLite {
  import opened Wrappers
  import opened StateStore

  type Value = string

  type Operation = Op<Value>

  /** A deleted key stays as a tombstone. */
  datatype Row = Row(value: Value, revision: nat, deleted: bool)

  /** Which statement a client runs next. */
  datatype Stage = First | Tombstone | Revive(revision: nat) | Recheck

  /** A pending call. from is where the history was when it began, known the row's revision
      then; decided what the call will answer, once that is fixed. The ticket names the call. */
  datatype Call = Call(ticket: nat, op: Operation, stage: Stage, from: nat, known: nat, decided: Option<Answer<Value>>)

  /** An atomic operation, performed for a call. */
  datatype Record = Record(ticket: nat, op: Operation, answer: Answer<Value>, after: Cell<Value>)

  /** A call that returned. recheckLost tells that the query after a failed update got no answer. */
  datatype Return = Return(ticket: nat, op: Operation, answer: Answer<Value>, from: nat, upTo: nat, known: nat,
                           recheckLost: bool)

  datatype State = State(row: Option<Row>, clients: seq<Option<Call>>, history: seq<Record>, results: seq<Return>,
                         calls: nat)

  /** A statement may be lost before or after it takes effect. */
  datatype Delivery = Answered | AnswerLost | NotRun

  datatype Event = Begin(client: nat, op: Operation) | Statement(client: nat, delivery: Delivery)

  function Revision(row: Option<Row>): nat { if row.Some? then row.value.revision else 0 }

  predicate Live(row: Option<Row>) { row.Some? && !row.value.deleted }

  function CellOf(row: Option<Row>): Cell<Value> {
    Cell(if Live(row) then Some(Entry(row.value.value, row.value.revision)) else None, Revision(row))
  }

  // ---------------------------------------------------------------- statements

  /** The row after the client's next statement. */
  function RowAfter(row: Option<Row>, call: Call): Option<Row> {
    match call.op
    case Get => row
    case Create(v) =>
      if call.stage == First && row.None? then Some(Row(v, 1, false))
      else if call.stage.Revive? && row.Some? && row.value.deleted && row.value.revision == call.stage.revision
      then Some(Row(v, call.stage.revision + 1, false))
      else row
    case Update(v, expected) =>
      if call.stage == First && Live(row) && row.value.revision == expected
      then Some(Row(v, expected + 1, false))
      else row
    case Delete =>
      if call.stage == First && Live(row) then Some(Row("", row.value.revision + 1, true)) else row
  }

  datatype Reaction = Continue(stage: Stage) | Answers(answer: Answer<Value>)

  /** What the client does with the statement's answer. */
  function React(row: Option<Row>, call: Call): Reaction {
    match call.op
    case Get => Answers(if Live(row) then Found(Entry(row.value.value, row.value.revision)) else NotFound)
    case Create(v) =>
      if call.stage == First then if row.None? then Answers(Written(1)) else Continue(Tombstone)
      else if call.stage == Tombstone then
        if row.Some? && row.value.deleted then Continue(Revive(row.value.revision)) else Answers(Conflict)
      else if RowAfter(row, call) != row then Answers(Written(Revision(row) + 1))
      else Answers(Conflict)
    case Update(v, expected) =>
      if call.stage == First then
        if RowAfter(row, call) != row then Answers(Written(expected + 1)) else Continue(Recheck)
      else Answers(if Live(row) then Conflict else NotFound)
    case Delete => Answers(Deleted)
  }

  /** Clients that read the tombstone which somebody else revives at this moment. */
  predicate Loses(c: Option<Call>, revision: nat) {
    c.Some? && c.value.stage == Revive(revision) && c.value.decided == None
  }

  function Decided(clients: seq<Option<Call>>, revision: nat): (after: seq<Option<Call>>)
    ensures |after| == |clients|
    ensures forall i | 0 <= i < |clients| ::
              after[i] == if Loses(clients[i], revision) then Some(clients[i].value.(decided := Some(Conflict)))
                          else clients[i]
  {
    seq(|clients|, i requires 0 <= i < |clients| =>
      if Loses(clients[i], revision) then Some(clients[i].value.(decided := Some(Conflict))) else clients[i])
  }

  /** Losing clients fail at the moment the key is alive again. */
  function LostRaces(clients: seq<Option<Call>>, revision: nat, after: Cell<Value>): seq<Record> {
    if clients == [] then []
    else
      var c := clients[|clients| - 1];
      LostRaces(clients[..|clients| - 1], revision, after) +
      if Loses(c, revision) then [Record(c.value.ticket, c.value.op, Conflict, after)] else []
  }

  /** The atomic operations performed by a statement: none, the call's own, or its own and
      those of the clients that it defeats. others has no entry for the call itself. */
  function Performed(row: Option<Row>, call: Call, others: seq<Option<Call>>): seq<Record> {
    var row', r := RowAfter(row, call), React(row, call);
    if r.Continue? || call.decided.Some?
       || (call.stage == Recheck && call.op.Update? && Live(row) && Revision(row) == call.op.expected) then []
    else if call.stage.Revive? && row' == row then []
    else
      [Record(call.ticket, call.op, r.answer, CellOf(row'))] +
      if call.stage.Revive? then LostRaces(others, call.stage.revision, CellOf(row')) else []
  }

  function Next(s: State, e: Event): State {
    match e
    case Begin(i, op) =>
      if i >= |s.clients| || s.clients[i].Some? then s
      else s.(clients := s.clients[i := Some(Call(s.calls, op, First, |s.history|, Revision(s.row), None))],
              calls := s.calls + 1)
    case Statement(i, delivery) =>
      if i >= |s.clients| || s.clients[i].None? then s
      else
        var call := s.clients[i].value;
        var others := s.clients[i := None];
        if delivery == NotRun then Returned(s.(clients := others), call, NoAnswer(call), true)
        else
          var ran := s.(row := RowAfter(s.row, call), history := s.history + Performed(s.row, call, others),
                        clients := if call.stage.Revive? && RowAfter(s.row, call) != s.row
                                   then Decided(others, call.stage.revision) else others);
          var r := React(s.row, call);
          if delivery == AnswerLost then Returned(ran, call, NoAnswer(call), true)
          else if r.Continue? then ran.(clients := ran.clients[i := Some(call.(stage := r.stage))])
          else Returned(ran, call, r.answer, false)
  }

  /** A lost answer is an error, except that after a failed update it counts as a conflict. */
  function NoAnswer(call: Call): Answer<Value> { if call.stage == Recheck then Conflict else Failed }

  function Returned(s: State, call: Call, answer: Answer<Value>, lost: bool): State {
    var unsure := lost && call.stage == Recheck;
    s.(results := s.results + [Return(call.ticket, call.op, answer, call.from, |s.history|, call.known, unsure)])
  }

  function Start(clients: nat): State {
    State(None, seq(clients, i => None), [], [], 0)
  }

  ghost function Run(s: State, events: seq<Event>): State {
    if events == [] then s else Next(Run(s, events[..|events| - 1]), events[|events| - 1])
  }

  // ---------------------------------------------------------------- the invariant

  function Before(history: seq<Record>, i: nat): Cell<Value>
    requires i <= |history|
  {
    if i == 0 then Cell(None, 0) else history[i - 1].after
  }

  /** The history is a run of atomic operations that number the writes without gaps. */
  ghost predicate Sequential(history: seq<Record>) {
    forall i: nat | i < |history| :: StepAt(history, i)
  }

  ghost predicate StepAt(history: seq<Record>, i: nat)
    requires i < |history|
  {
    var a, r := Before(history, i), history[i];
    Atomic(a, r.op, r.answer, r.after) && r.after.high <= a.high + 1
  }

  ghost predicate Recorded(history: seq<Record>, ticket: nat) {
    exists i :: 0 <= i < |history| && history[i].ticket == ticket
  }

  /** The call was performed at one moment between from and upTo, with this answer. */
  ghost predicate PerformedIn(history: seq<Record>, ticket: nat, op: Operation, answer: Answer<Value>, from: nat,
                              upTo: nat) {
    exists i ::
      from <= i < upTo && i < |history| && history[i].ticket == ticket && history[i].op == op
      && history[i].answer == answer
  }

  ghost predicate StageOk(call: Call) {
    match call.stage
    case First => true
    case Tombstone => call.op.Create?
    case Revive(_) => call.op.Create?
    case Recheck => call.op.Update?
  }

  /** What an update knows that expects a revision which the key had when it began. */
  ghost predicate Passed(row: Option<Row>, expected: nat) {
    expected <= Revision(row) && (Live(row) ==> expected < Revision(row))
  }

  ghost predicate RowFits(call: Call, row: Option<Row>) {
    && call.known <= Revision(row)
    && (call.stage == Tombstone ==> row.Some?)
    && (call.stage.Revive? ==> row.Some? && if call.decided.Some? then Revision(row) > call.stage.revision
                                           else row.value.deleted && row.value.revision == call.stage.revision)
    && (call.stage == Recheck && call.op.Update? && call.op.expected <= call.known ==> Passed(row, call.op.expected))
  }

  ghost predicate CallOk(call: Call, row: Option<Row>, history: seq<Record>) {
    && call.from <= |history| && call.known == Before(history, call.from).high && StageOk(call) && RowFits(call, row)
    && match call.decided
       case None => !Recorded(history, call.ticket)
       case Some(a) =>
         call.stage.Revive? && a == Conflict
         && PerformedIn(history, call.ticket, call.op, Conflict, call.from, |history|)
  }

  /** An update that expected a revision newer than the key had when it began, failed, and
      found that revision when it looked again. */
  ghost predicate TooEarly(r: Return, history: seq<Record>)
    requires r.upTo <= |history|
  {
    && r.op.Update? && r.answer == Conflict && r.op.expected > r.known
    && var cell := Before(history, r.upTo); cell.entry.Some? && cell.entry.value.revision == r.op.expected
  }

  /** A call that returned an answer other than an error was performed in between. */
  ghost predicate ReturnOk(r: Return, history: seq<Record>) {
    && r.from <= r.upTo <= |history| && r.known == Before(history, r.from).high
    && (r.answer == Failed || (r.recheckLost && r.answer == Conflict) || TooEarly(r, history)
        || PerformedIn(history, r.ticket, r.op, r.answer, r.from, r.upTo))
  }

  ghost predicate TicketsOk(clients: seq<Option<Call>>, history: seq<Record>, calls: nat) {
    && (forall i | 0 <= i < |clients| && clients[i].Some? :: clients[i].value.ticket < calls)
    && Distinct(clients)
    && (forall i | 0 <= i < |history| :: history[i].ticket < calls)
    && (forall i, j | 0 <= i < j < |history| :: history[i].ticket != history[j].ticket)
  }

  ghost predicate CallsOk(clients: seq<Option<Call>>, row: Option<Row>, history: seq<Record>) {
    forall i | 0 <= i < |clients| && clients[i].Some? :: CallOk(clients[i].value, row, history)
  }

  ghost predicate ResultsOk(results: seq<Return>, history: seq<Record>) {
    forall i | 0 <= i < |results| :: ReturnOk(results[i], history)
  }

  ghost predicate Holds(s: State) {
    && (s.row.Some? ==> s.row.value.revision > 0)
    && Sequential(s.history) && Before(s.history, |s.history|) == CellOf(s.row)
    && CallsOk(s.clients, s.row, s.history)
    && TicketsOk(s.clients, s.history, s.calls)
    && ResultsOk(s.results, s.history)
  }

  // ---------------------------------------------------------------- every statement keeps it

  /** The rows of a key only move forward. */
  predicate Forward(row: Option<Row>, row': Option<Row>) {
    row' == row || (row'.Some? && Revision(row) < Revision(row'))
  }

  /** The first record performs the change, the others see its result. */
  ghost predicate Leads(a: Cell<Value>, records: seq<Record>, b: Cell<Value>) {
    && (records == [] ==> a == b) && b.high <= a.high + 1
    && forall i | 0 <= i < |records| ::
         records[i].after == b && Atomic(if i == 0 then a else b, records[i].op, records[i].answer, b)
  }

  lemma HistoryGrows(history: seq<Record>, records: seq<Record>, b: Cell<Value>)
    requires Sequential(history) && Leads(Before(history, |history|), records, b)
    ensures Sequential(history + records) && Before(history + records, |history + records|) == b
  {
    hide Atomic;
    var longer := history + records;
    forall i: nat | i < |longer|
      ensures StepAt(longer, i)
    {
      if i < |history| {
        assert StepAt(history, i);
        assert longer[i] == history[i] && Before(longer, i) == Before(history, i);
      } else {
        assert longer[i] == records[i - |history|];
        assert Before(longer, i) == if i == |history| then Before(history, |history|) else b;
      }
    }
  }

  /** The statement that fixes a call's answer performs the call atomically. */
  lemma OwnRecord(row: Option<Row>, call: Call)
    requires (row.Some? ==> row.value.revision > 0) && StageOk(call) && RowFits(call, row) && call.decided.None?
    requires React(row, call).Answers?
    requires !(call.stage == Recheck && Live(row) && Revision(row) == call.op.expected)
    ensures Atomic(CellOf(row), call.op, React(row, call).answer, CellOf(RowAfter(row, call)))
    ensures call.stage.Revive? ==> RowAfter(row, call) != row && Live(RowAfter(row, call))
  {
  }

  lemma RowMoves(row: Option<Row>, call: Call)
    requires StageOk(call)
    ensures Forward(row, RowAfter(row, call))
    ensures row.Some? && row.value.revision > 0 ==> RowAfter(row, call).Some? && RowAfter(row, call).value.revision > 0
    ensures row.None? && RowAfter(row, call).Some? ==> RowAfter(row, call).value.revision > 0
    ensures row.Some? && row.value.deleted && RowAfter(row, call) != row ==> call.stage == Revive(row.value.revision)
    ensures React(row, call).Continue? || (call.decided.Some? && RowFits(call, row) && call.stage.Revive?) ==>
              RowAfter(row, call) == row
  {
  }

  ghost predicate LoserOf(clients: seq<Option<Call>>, revision: nat, ticket: nat, op: Operation) {
    exists i ::
      0 <= i < |clients| && Loses(clients[i], revision) && clients[i].value.ticket == ticket
      && clients[i].value.op == op
  }

  lemma LoserMore(clients: seq<Option<Call>>, n: nat, revision: nat, ticket: nat, op: Operation)
    requires n <= |clients| && LoserOf(clients[..n], revision, ticket, op)
    ensures LoserOf(clients, revision, ticket, op)
  {
    var i :| 0 <= i < n && Loses(clients[..n][i], revision) && clients[..n][i].value.ticket == ticket
      && clients[..n][i].value.op == op;
    assert clients[i] == clients[..n][i];
  }

  /** Every record is one of a loser. */
  lemma {:induction false} LostRacesAre(clients: seq<Option<Call>>, revision: nat, after: Cell<Value>, k: nat)
    requires k < |LostRaces(clients, revision, after)|
    ensures var rec := LostRaces(clients, revision, after)[k];
            rec.after == after && rec.answer == Conflict && LoserOf(clients, revision, rec.ticket, rec.op)
    decreases |clients|
  {
    hide LoserOf;
    var n := |clients| - 1;
    var before := LostRaces(clients[..n], revision, after);
    var rec := LostRaces(clients, revision, after)[k];
    if k < |before| {
      LostRacesAre(clients[..n], revision, after, k);
      LoserMore(clients, n, revision, rec.ticket, rec.op);
    } else {
      LastLoses(clients, revision);
    }
  }

  lemma LastLoses(clients: seq<Option<Call>>, revision: nat)
    requires clients != []
    ensures var c := clients[|clients| - 1];
            Loses(c, revision) ==> LoserOf(clients, revision, c.value.ticket, c.value.op)
  {
  }

  /** Every loser has its record. */
  lemma {:induction false} LoserHas(clients: seq<Option<Call>>, revision: nat, after: Cell<Value>, i: nat)
    returns (k: nat)
    requires i < |clients| && Loses(clients[i], revision)
    ensures var rs := LostRaces(clients, revision, after);
            k < |rs| && rs[k] == Record(clients[i].value.ticket, clients[i].value.op, Conflict, after)
    decreases |clients|
  {
    var n := |clients| - 1;
    if i < n {
      assert clients[..n][i] == clients[i];
      k := LoserHas(clients[..n], revision, after, i);
    } else {
      k := |LostRaces(clients[..n], revision, after)|;
    }
  }

  lemma {:induction false} LostRacesDistinct(clients: seq<Option<Call>>, revision: nat, after: Cell<Value>, i: nat,
                                             j: nat)
    requires Distinct(clients) && i < j < |LostRaces(clients, revision, after)|
    ensures LostRaces(clients, revision, after)[i].ticket != LostRaces(clients, revision, after)[j].ticket
    decreases |clients|
  {
    var n := |clients| - 1;
    var before := LostRaces(clients[..n], revision, after);
    assert Distinct(clients[..n]) by {
      assert forall m | 0 <= m < n :: clients[..n][m] == clients[m];
    }
    if j < |before| {
      LostRacesDistinct(clients[..n], revision, after, i, j);
    } else {
      LostRacesAre(clients[..n], revision, after, i);
      var m :| 0 <= m < n && Loses(clients[..n][m], revision) && clients[..n][m].value.ticket == before[i].ticket;
      assert clients[..n][m] == clients[m];
    }
  }

  ghost predicate Distinct(clients: seq<Option<Call>>) {
    forall i, j | 0 <= i < j < |clients| && clients[i].Some? && clients[j].Some? ::
      clients[i].value.ticket != clients[j].value.ticket
  }

  lemma PerformedLeads(s: State, call: Call, others: seq<Option<Call>>)
    requires (s.row.Some? ==> s.row.value.revision > 0) && CallOk(call, s.row, s.history)
             && CallsOk(others, s.row, s.history)
    ensures Leads(CellOf(s.row), Performed(s.row, call, others), CellOf(RowAfter(s.row, call)))
  {
    hide Sequential, Recorded, PerformedIn;
    RowMoves(s.row, call);
    var rs := Performed(s.row, call, others);
    if rs != [] {
      OwnRecord(s.row, call);
      if call.stage.Revive? {
        var after := CellOf(RowAfter(s.row, call));
        forall i | 0 < i < |rs|
          ensures rs[i].after == after && Atomic(after, rs[i].op, rs[i].answer, after)
        {
          assert rs[i] == LostRaces(others, call.stage.revision, after)[i - 1];
          LostRacesAre(others, call.stage.revision, after, i - 1);
        }
      }
    } else {
      assert RowAfter(s.row, call) == s.row;
    }
  }

  lemma StillPerformed(history: seq<Record>, records: seq<Record>, ticket: nat, op: Operation, answer: Answer<Value>,
                       from: nat, upTo: nat, upTo': nat)
    requires PerformedIn(history, ticket, op, answer, from, upTo) && upTo <= upTo'
    ensures PerformedIn(history + records, ticket, op, answer, from, upTo')
  {
    var i :| from <= i < upTo && i < |history| && history[i].ticket == ticket && history[i].op == op
      && history[i].answer == answer;
    assert (history + records)[i] == history[i];
  }

  lemma RecordedMore(history: seq<Record>, records: seq<Record>, ticket: nat)
    ensures Recorded(history + records, ticket) <==> Recorded(history, ticket) || Recorded(records, ticket)
  {
    var longer := history + records;
    if i :| 0 <= i < |longer| && longer[i].ticket == ticket {
      if i < |history| { assert history[i] == longer[i]; } else { assert records[i - |history|] == longer[i]; }
    }
    if i :| 0 <= i < |history| && history[i].ticket == ticket { assert longer[i] == history[i]; }
    if i :| 0 <= i < |records| && records[i].ticket == ticket { assert longer[|history| + i] == records[i]; }
  }

  /** Which calls a statement performs. */
  lemma PerformedFor(row: Option<Row>, call: Call, others: seq<Option<Call>>, k: nat)
    requires k < |Performed(row, call, others)|
    ensures var t := Performed(row, call, others)[k].ticket;
            || t == call.ticket
            || (call.stage.Revive? && RowAfter(row, call) != row
                && LoserOf(others, call.stage.revision, t, Performed(row, call, others)[k].op))
  {
    if k > 0 {
      var after := CellOf(RowAfter(row, call));
      LostRacesAre(others, call.stage.revision, after, k - 1);
      assert Performed(row, call, others)[k] == LostRaces(others, call.stage.revision, after)[k - 1];
    }
  }

  /** The row another client looked at has moved on in a way that its next statement notices. */
  lemma OtherRow(c: Call, row: Option<Row>, call: Call)
    requires StageOk(call) && RowFits(c, row) && (row.Some? ==> row.value.revision > 0)
    ensures var row' := RowAfter(row, call);
            if call.stage.Revive? && row' != row && Loses(Some(c), call.stage.revision)
            then RowFits(c.(decided := Some(Conflict)), row') else RowFits(c, row')
  {
    RowMoves(row, call);
  }

  /** What another client waits for stays true; if it lost a race, its answer is now fixed. */
  lemma OtherCall(s: State, call: Call, others: seq<Option<Call>>, i: nat)
    requires (s.row.Some? ==> s.row.value.revision > 0) && CallOk(call, s.row, s.history)
    requires i < |others| && others[i].Some? && others[i].value.ticket != call.ticket
             && CallOk(others[i].value, s.row, s.history)
    requires forall j | 0 <= j < |others| && others[j].Some? && j != i ::
               others[j].value.ticket != others[i].value.ticket
    ensures var row', records := RowAfter(s.row, call), Performed(s.row, call, others);
            var after := if call.stage.Revive? && row' != s.row then Decided(others, call.stage.revision) else others;
            CallOk(after[i].value, row', s.history + records)
  {
    var c, row', records := others[i].value, RowAfter(s.row, call), Performed(s.row, call, others);
    var race := call.stage.Revive? && row' != s.row;
    OtherRow(c, s.row, call);
    if race && Loses(others[i], call.stage.revision) {
      hide RowFits, Recorded;
      LoserRecorded(s, call, others, i);
    } else {
      hide RowFits, RowAfter, Performed, Loses;
      if c.decided.Some? {
        StillPerformed(s.history, records, c.ticket, c.op, Conflict, c.from, |s.history|, |s.history + records|);
      } else {
        NotPerformed(s, call, others, i);
        RecordedMore(s.history, records, c.ticket);
      }
    }
  }

  lemma LoserRecorded(s: State, call: Call, others: seq<Option<Call>>, i: nat)
    requires CallOk(call, s.row, s.history) && call.stage.Revive? && RowAfter(s.row, call) != s.row
    requires i < |others| && Loses(others[i], call.stage.revision) && others[i].value.from <= |s.history|
    ensures var c, records := others[i].value, Performed(s.row, call, others);
            PerformedIn(s.history + records, c.ticket, c.op, Conflict, c.from, |s.history + records|)
  {
    hide Recorded, PerformedIn, LostRaces;
    var c, records, after := others[i].value, Performed(s.row, call, others), CellOf(RowAfter(s.row, call));
    var rs := LostRaces(others, call.stage.revision, after);
    var k := LoserHas(others, call.stage.revision, after, i);
    assert records[1..] == rs;
    assert records[1 + k] == rs[k];
    assert (s.history + records)[|s.history| + 1 + k] == rs[k];
    PerformedAt(s.history + records, |s.history| + 1 + k, c.from, |s.history + records|);
  }

  lemma PerformedAt(history: seq<Record>, i: nat, from: nat, upTo: nat)
    requires from <= i < upTo <= |history|
    ensures PerformedIn(history, history[i].ticket, history[i].op, history[i].answer, from, upTo)
  {
  }

  lemma NotPerformed(s: State, call: Call, others: seq<Option<Call>>, i: nat)
    requires i < |others| && others[i].Some? && others[i].value.ticket != call.ticket
    requires forall j | 0 <= j < |others| && others[j].Some? && j != i ::
               others[j].value.ticket != others[i].value.ticket
    requires !(call.stage.Revive? && RowAfter(s.row, call) != s.row && Loses(others[i], call.stage.revision))
    ensures !Recorded(Performed(s.row, call, others), others[i].value.ticket)
  {
    hide Performed;
    forall k | 0 <= k < |Performed(s.row, call, others)|
      ensures Performed(s.row, call, others)[k].ticket != others[i].value.ticket
    {
      PerformedFor(s.row, call, others, k);
    }
  }

  /** Tickets stay apart. */
  lemma TicketsStay(s: State, call: Call, others: seq<Option<Call>>)
    requires TicketsOk(others, s.history, s.calls) && call.ticket < s.calls
    requires CallOk(call, s.row, s.history) && CallsOk(others, s.row, s.history)
    requires forall i | 0 <= i < |others| && others[i].Some? :: others[i].value.ticket != call.ticket
    ensures TicketsOk(others, s.history + Performed(s.row, call, others), s.calls)
  {
    hide RowAfter, React, RowFits, Performed, CallOk;
    var records := Performed(s.row, call, others);
    forall i | 0 <= i < |records|
      ensures records[i].ticket < s.calls && !Recorded(s.history, records[i].ticket)
    {
      PerformedNew(s, call, others, i);
    }
    PerformedDistinct(s.row, call, others);
    var longer := s.history + records;
    forall i, j | 0 <= i < j < |longer|
      ensures longer[i].ticket != longer[j].ticket
    {
      if j >= |s.history| {
        assert longer[j] == records[j - |s.history|];
        if i < |s.history| {
          assert s.history[i] == longer[i];
        } else {
          assert longer[i] == records[i - |s.history|];
        }
      }
    }
  }

  lemma PerformedNew(s: State, call: Call, others: seq<Option<Call>>, k: nat)
    requires k < |Performed(s.row, call, others)| && call.ticket < s.calls && TicketsOk(others, s.history, s.calls)
    requires CallOk(call, s.row, s.history) && CallsOk(others, s.row, s.history)
    ensures var t := Performed(s.row, call, others)[k].ticket; t < s.calls && !Recorded(s.history, t)
  {
    hide RowAfter, React, RowFits, Recorded;
    PerformedFor(s.row, call, others, k);
    assert call.decided.None?;
  }

  lemma PerformedDistinct(row: Option<Row>, call: Call, others: seq<Option<Call>>)
    requires Distinct(others)
    requires forall i | 0 <= i < |others| && others[i].Some? :: others[i].value.ticket != call.ticket
    ensures var rs := Performed(row, call, others);
            forall i, j | 0 <= i < j < |rs| :: rs[i].ticket != rs[j].ticket
  {
    hide RowAfter, React;
    var rs := Performed(row, call, others);
    if |rs| > 1 {
      var after := CellOf(RowAfter(row, call));
      var lost := LostRaces(others, call.stage.revision, after);
      assert rs[1..] == lost;
      forall i, j | 0 <= i < j < |rs|
        ensures rs[i].ticket != rs[j].ticket
      {
        assert rs[j] == lost[j - 1];
        LostRacesAre(others, call.stage.revision, after, j - 1);
        if i > 0 {
          assert rs[i] == lost[i - 1];
          LostRacesDistinct(others, call.stage.revision, after, i - 1, j - 1);
        }
      }
    }
  }

  /** The call itself goes on, or returns with the answer that was recorded for it. */
  lemma OwnCall(s: State, call: Call, others: seq<Option<Call>>)
    requires Before(s.history, |s.history|) == CellOf(s.row)
    requires (s.row.Some? ==> s.row.value.revision > 0) && CallOk(call, s.row, s.history)
    ensures var r, row', records := React(s.row, call), RowAfter(s.row, call), Performed(s.row, call, others);
            match r
            case Continue(stage) =>
              records == [] && row' == s.row && CallOk(call.(stage := stage), row', s.history + records)
            case Answers(answer) =>
              ReturnOk(Return(call.ticket, call.op, answer, call.from, |s.history + records|, call.known, false),
                       s.history + records)
  {
    var r, records := React(s.row, call), Performed(s.row, call, others);
    hide Recorded, LostRaces;
    if r.Continue? {
      assert s.history + records == s.history;
    } else if call.decided.Some? {
      StillPerformed(s.history, records, call.ticket, call.op, Conflict, call.from, |s.history|, |s.history + records|);
    } else if records != [] {
      assert (s.history + records)[|s.history|] == records[0];
      PerformedAt(s.history + records, |s.history|, call.from, |s.history + records|);
    }
  }

  lemma ReturnStays(r: Return, history: seq<Record>, records: seq<Record>)
    requires ReturnOk(r, history)
    ensures ReturnOk(r, history + records)
  {
    hide PerformedIn;
    if PerformedIn(history, r.ticket, r.op, r.answer, r.from, r.upTo) {
      StillPerformed(history, records, r.ticket, r.op, r.answer, r.from, r.upTo, r.upTo);
    }
  }

  lemma ResultsStay(results: seq<Return>, history: seq<Record>, records: seq<Record>, last: Return)
    requires ResultsOk(results, history) && ReturnOk(last, history + records)
    ensures ResultsOk(results + [last], history + records) && ResultsOk(results, history + records)
  {
    hide ReturnOk;
    forall i | 0 <= i < |results|
      ensures ReturnOk(results[i], history + records)
    {
      ReturnStays(results[i], history, records);
    }
  }

  lemma OthersOk(clients: seq<Option<Call>>, i: nat, row: Option<Row>, history: seq<Record>, calls: nat)
    requires i < |clients| && clients[i].Some? && CallsOk(clients, row, history) && TicketsOk(clients, history, calls)
    ensures var others := clients[i := None];
            && CallsOk(others, row, history) && TicketsOk(others, history, calls)
            && CallOk(clients[i].value, row, history) && clients[i].value.ticket < calls
            && forall j | 0 <= j < |others| && others[j].Some? :: others[j].value.ticket != clients[i].value.ticket
  {
    hide CallOk;
  }

  /** After a statement, the other clients. */
  lemma OtherCalls(s: State, call: Call, others: seq<Option<Call>>)
    requires (s.row.Some? ==> s.row.value.revision > 0) && CallOk(call, s.row, s.history)
             && CallsOk(others, s.row, s.history)
    requires TicketsOk(others, s.history, s.calls) && call.ticket < s.calls
    requires forall j | 0 <= j < |others| && others[j].Some? :: others[j].value.ticket != call.ticket
    ensures var row', records := RowAfter(s.row, call), Performed(s.row, call, others);
            var after := if call.stage.Revive? && row' != s.row then Decided(others, call.stage.revision) else others;
            CallsOk(after, row', s.history + records) && TicketsOk(after, s.history + records, s.calls)
  {
    var row', records := RowAfter(s.row, call), Performed(s.row, call, others);
    var after := if call.stage.Revive? && row' != s.row then Decided(others, call.stage.revision) else others;
    hide CallOk, RowAfter, Performed, Loses;
    forall i | 0 <= i < |after| && after[i].Some?
      ensures CallOk(after[i].value, row', s.history + records)
    {
      assert others[i].Some?;
      OtherCall(s, call, others, i);
    }
    TicketsStay(s, call, others);
    assert forall i | 0 <= i < |after| && after[i].Some? ::
             others[i].Some? && after[i].value.ticket == others[i].value.ticket;
  }

  lemma BeginHolds(s: State, i: nat, op: Operation)
    requires Holds(s)
    ensures Holds(Next(s, Begin(i, op)))
  {
    if i < |s.clients| && s.clients[i].None? {
      hide Sequential, ResultsOk, ReturnOk;
      var call := Call(s.calls, op, First, |s.history|, Revision(s.row), None);
      assert !Recorded(s.history, s.calls);
      assert CallOk(call, s.row, s.history);
      hide CallOk;
    }
  }

  lemma StatementHolds(s: State, i: nat, delivery: Delivery)
    requires Holds(s)
    ensures Holds(Next(s, Statement(i, delivery)))
  {
    if i < |s.clients| && s.clients[i].Some? {
      hide CallsOk, TicketsOk, CallOk, RowAfter, Performed, React, Sequential, ResultsOk, Decided, Before;
      var call, others := s.clients[i].value, s.clients[i := None];
      OthersOk(s.clients, i, s.row, s.history, s.calls);
      if delivery == NotRun {
        assert s.history + [] == s.history;
        LostReturn(call, |s.history|, s.history);
        ResultsStay(s.results, s.history, [], Return(call.ticket, call.op, NoAnswer(call), call.from, |s.history|,
                                                     call.known, call.stage == Recheck));
      } else {
        RanHolds(s, call, others);
        var records := Performed(s.row, call, others);
        LostReturn(call, |s.history + records|, s.history + records);
        ResultsStay(s.results, s.history, records,
                    Return(call.ticket, call.op, NoAnswer(call), call.from, |s.history + records|, call.known,
                           call.stage == Recheck));
        if delivery == Answered { AnsweredHolds(s, i, call, others); }
      }
    }
  }

  lemma LostReturn(call: Call, upTo: nat, history: seq<Record>)
    requires call.from <= upTo <= |history| && call.known == Before(history, call.from).high
    ensures ReturnOk(Return(call.ticket, call.op, NoAnswer(call), call.from, upTo, call.known, call.stage == Recheck),
                     history)
  {
  }

  lemma RanHolds(s: State, call: Call, others: seq<Option<Call>>)
    requires (s.row.Some? ==> s.row.value.revision > 0) && CallOk(call, s.row, s.history)
             && CallsOk(others, s.row, s.history)
    requires Sequential(s.history) && Before(s.history, |s.history|) == CellOf(s.row)
    requires TicketsOk(others, s.history, s.calls) && call.ticket < s.calls
    requires forall j | 0 <= j < |others| && others[j].Some? :: others[j].value.ticket != call.ticket
    ensures var row', records := RowAfter(s.row, call), Performed(s.row, call, others);
            var after := if call.stage.Revive? && row' != s.row then Decided(others, call.stage.revision) else others;
            && (row'.Some? ==> row'.value.revision > 0)
            && Sequential(s.history + records) && Before(s.history + records, |s.history + records|) == CellOf(row')
            && CallsOk(after, row', s.history + records) && TicketsOk(after, s.history + records, s.calls)
  {
    OtherCalls(s, call, others);
    PerformedLeads(s, call, others);
    assert StageOk(call);
    RowMoves(s.row, call);
    hide CallsOk, TicketsOk, CallOk, RowAfter, Performed, Sequential, Leads;
    HistoryGrows(s.history, Performed(s.row, call, others), CellOf(RowAfter(s.row, call)));
  }

  lemma AnsweredHolds(s: State, i: nat, call: Call, others: seq<Option<Call>>)
    requires Holds(s) && i < |s.clients| && s.clients[i] == Some(call) && others == s.clients[i := None]
    ensures Holds(Next(s, Statement(i, Answered)))
  {
    hide TicketsOk, CallOk, Performed, Sequential, ResultsOk, Decided, Before, CallsOk, RowAfter, React;
    OthersOk(s.clients, i, s.row, s.history, s.calls);
    RanHolds(s, call, others);
    OwnCall(s, call, others);
    var r, records := React(s.row, call), Performed(s.row, call, others);
    if r.Answers? {
      ResultsStay(s.results, s.history, records,
                  Return(call.ticket, call.op, r.answer, call.from, |s.history + records|, call.known, false));
    } else {
      assert s.history + records == s.history && s.results + [] == s.results;
      BackIn(s, i, call, others, call.(stage := r.stage));
    }
  }

  lemma BackIn(s: State, i: nat, call: Call, others: seq<Option<Call>>, later: Call)
    requires TicketsOk(s.clients, s.history, s.calls) && CallsOk(s.clients, s.row, s.history)
    requires i < |s.clients| && s.clients[i] == Some(call) && others == s.clients[i := None]
    requires later.ticket == call.ticket && CallOk(later, s.row, s.history)
    ensures TicketsOk(others[i := Some(later)], s.history, s.calls)
            && CallsOk(others[i := Some(later)], s.row, s.history)
  {
    hide CallOk;
  }

  lemma {:induction false} RunHolds(clients: nat, events: seq<Event>)
    ensures Holds(Run(Start(clients), events))
    decreases |events|
  {
    if events != [] {
      var before, e := Run(Start(clients), events[..|events| - 1]), events[|events| - 1];
      RunHolds(clients, events[..|events| - 1]);
      match e
      case Begin(i, op) => BeginHolds(before, i, op);
      case Statement(i, delivery) => StatementHolds(before, i, delivery);
    }
  }

  // ---------------------------------------------------------------- what follows

  /** At some moment between from and upTo, the key existed with another revision. */
  ghost predicate ConflictedIn(history: seq<Record>, expected: nat, from: nat, upTo: nat) {
    exists k :: from <= k <= upTo && k <= |history| &&
      var cell := Before(history, k); cell.entry.Some? && cell.entry.value.revision != expected
  }

  /** What a client can check before it updates: the key exists, or it expects a revision
      other than the one that creating the key would give. */
  ghost predicate Safe(r: Return, history: seq<Record>)
    requires r.from <= |history|
  {
    r.op.Update? ==> Before(history, r.from).entry.Some? || r.op.expected != r.known + 1
  }

  /** Between a moment when the key is missing and one when it exists, it was created, with the
      revision that followed. */
  lemma {:induction false} CreatedBetween(history: seq<Record>, from: nat, upTo: nat) returns (k: nat)
    requires Sequential(history) && from <= upTo <= |history|
    requires Before(history, from).entry.None? && Before(history, upTo).entry.Some?
    ensures from < k <= upTo
    ensures var cell := Before(history, k);
            cell.entry.Some? && cell.entry.value.revision == Before(history, from).high + 1
    decreases upTo - from
  {
    CreatedAt(history, from);
    hide Sequential;
    assert Before(history, from + 1) == history[from].after;
    if history[from].after.entry.Some? {
      k := from + 1;
    } else {
      k := CreatedBetween(history, from + 1, upTo);
    }
  }

  lemma CreatedAt(history: seq<Record>, i: nat)
    requires Sequential(history) && i < |history| && Before(history, i).entry.None?
    ensures var a, b := Before(history, i), history[i].after;
            if b.entry.None? then b.high == a.high else b.entry.value.revision == a.high + 1
  {
    assert StepAt(history, i);
  }

  /** Every run of any number of clients: there is one order of atomic operations of the store
      that leads to the stored row, each call is in it at most once, at a moment between its
      beginning and its end, and returned the answer it has there; the only others are errors,
      updates whose second look was lost, and updates that would create a conflict at some
      moment in between, or that are not safe. */
  lemma Linearizes(clients: nat, events: seq<Event>)
    ensures var s := Run(Start(clients), events);
            && Sequential(s.history) && Before(s.history, |s.history|) == CellOf(s.row)
            && (forall i, j | 0 <= i < j < |s.history| :: s.history[i].ticket != s.history[j].ticket)
            && forall n | 0 <= n < |s.results| ::
                 var r := s.results[n];
                 r.from <= r.upTo <= |s.history| &&
                 (&& r.answer != Failed && !r.recheckLost
                  && (r.op.Update? ==> Before(s.history, r.from).entry.Some? || r.op.expected != r.known + 1) ==>
                   || PerformedIn(s.history, r.ticket, r.op, r.answer, r.from, r.upTo)
                   || (r.op.Update? && r.answer == Conflict
                       && exists k :: && r.from <= k <= r.upTo
                                      && var e := Before(s.history, k).entry;
                                         e.Some? && e.value.revision != r.op.expected))
  {
    RunHolds(clients, events);
    var s := Run(Start(clients), events);
    forall n | 0 <= n < |s.results|
      ensures var r := s.results[n];
              r.from <= r.upTo <= |s.history| &&
              (&& r.answer != Failed && !r.recheckLost
               && (r.op.Update? ==> Before(s.history, r.from).entry.Some? || r.op.expected != r.known + 1) ==>
                || PerformedIn(s.history, r.ticket, r.op, r.answer, r.from, r.upTo)
                || (r.op.Update? && r.answer == Conflict
                    && exists k :: && r.from <= k <= r.upTo
                                   && var e := Before(s.history, k).entry;
                                      e.Some? && e.value.revision != r.op.expected))
    {
      hide Run, CallsOk, TicketsOk, Sequential, PerformedIn, TooEarly;
      var r := s.results[n];
      assert ReturnOk(r, s.history);
      if TooEarly(r, s.history) && Safe(r, s.history) {
        TooEarlyConflicted(r, s.history);
        hide Before;
      }
    }
  }

  lemma TooEarlyConflicted(r: Return, history: seq<Record>)
    requires Sequential(history) && ReturnOk(r, history) && TooEarly(r, history) && Safe(r, history)
    ensures ConflictedIn(history, r.op.expected, r.from, r.upTo)
  {
    var cell := Before(history, r.from);
    if cell.entry.Some? {
      CellsOk(history, r.from);
    } else {
      var k := CreatedBetween(history, r.from, r.upTo);
    }
  }

  lemma {:induction false} CellsOk(history: seq<Record>, i: nat)
    requires Sequential(history) && i <= |history|
    ensures CellOk(Before(history, i))
    decreases i
  {
    if i > 0 {
      CellsOk(history, i - 1);
      assert StepAt(history, i - 1);
      AtomicGrows(Before(history, i - 1), history[i - 1].op, history[i - 1].answer, history[i - 1].after);
    }
  }

  /** One answered statement. */
  lemma StatementAnswered(s: State, i: nat, call: Call)
    requires i < |s.clients| && s.clients[i] == Some(call) && call.decided == None
    ensures var t, r, records := Next(s, Statement(i, Answered)), React(s.row, call),
            Performed(s.row, call, s.clients[i := None]);
            && t.row == RowAfter(s.row, call) && t.history == s.history + records && |t.clients| == |s.clients|
            && (forall k | 0 <= k < |s.clients| && k != i
                && (s.clients[k].None? || !s.clients[k].value.stage.Revive?) :: t.clients[k] == s.clients[k])
            && (r.Continue? ==> t.clients[i] == Some(call.(stage := r.stage)) && t.results == s.results)
            && (r.Answers? ==>
                  t.results == s.results + [Return(call.ticket, call.op, r.answer, call.from, |s.history + records|,
                                                   call.known, false)])
  {
    hide RowAfter, React, Performed;
  }

  lemma Begins(s: State, i: nat, op: Operation)
    requires i < |s.clients| && s.clients[i] == None
    ensures Next(s, Begin(i, op)) ==
            s.(clients := s.clients[i := Some(Call(s.calls, op, First, |s.history|, Revision(s.row), None))],
               calls := s.calls + 1)
  {
  }

  lemma RunOne(s: State, events: seq<Event>, e: Event)
    ensures Run(s, events + [e]) == Next(Run(s, events), e)
  {
    assert (events + [e])[..|events|] == events;
  }

  /** A client creates a missing key: everybody sees the revision that follows. */
  lemma Creates(s: State, j: nat, i: nat, w: Value) returns (events: seq<Event>)
    requires j < |s.clients| && s.clients[j] == None && !Live(s.row) && i < |s.clients| && i != j
    requires s.clients[i].Some? && s.clients[i].value.stage == Recheck
    requires forall k | 0 <= k < |s.clients| && s.clients[k].Some? :: StageOk(s.clients[k].value)
    ensures var t := Run(s, events);
            && t.row == Some(Row(w, Revision(s.row) + 1, false)) && |t.clients| == |s.clients|
            && t.clients[i] == s.clients[i]
            && |s.history| < |t.history| && t.history[..|s.history|] == s.history
            && forall n | |s.history| <= n < |t.history| ::
                 t.history[n].after == CellOf(t.row) && t.history[n].op.Create?
  {
    hide Next, Run, RowAfter, React, Performed, CellOf, StageOk;
    var call := Call(s.calls, Create(w), First, |s.history|, Revision(s.row), None);
    var t := Next(s, Begin(j, Create(w)));
    Begins(s, j, Create(w));
    events := [Begin(j, Create(w))];
    RunNone(s);
    RunOne(s, [], Begin(j, Create(w)));
    assert forall k | 0 <= k < |t.clients| && t.clients[k].Some? :: StageOk(t.clients[k].value) by { StageFirst(call); }
    assert [] + [Begin(j, Create(w))] == events;
    var n := 0;
    var stages := if s.row.None? then [First] else [First, Tombstone, Revive(Revision(s.row))];
    while n < |stages| - 1
      invariant 0 <= n <= |stages| - 1
      invariant t == Run(s, events) && t.row == s.row && t.history == s.history && |t.clients| == |s.clients|
      invariant t.clients[j] == Some(call.(stage := stages[n])) && t.clients[i] == s.clients[i]
      invariant forall k | 0 <= k < |t.clients| && t.clients[k].Some? :: StageOk(t.clients[k].value)
    {
      var c := call.(stage := stages[n]);
      NotYetCreated(t.row, c, t.clients[j := None]);
      StatementAnswered(t, j, c);
      StageKeeps(t, j, c);
      RunOne(s, events, Statement(j, Answered));
      t, events := Next(t, Statement(j, Answered)), events + [Statement(j, Answered)];
      n := n + 1;
    }
    var c := call.(stage := stages[n]);
    StatementAnswered(t, j, c);
    CreateRecords(t, j, c);
    RunOne(s, events, Statement(j, Answered));
    events := events + [Statement(j, Answered)];
  }

  lemma StageFirst(call: Call)
    requires call.stage == First
    ensures StageOk(call)
  {
  }

  lemma NotYetCreated(row: Option<Row>, call: Call, others: seq<Option<Call>>)
    requires call.op.Create? && row.Some? && row.value.deleted && (call.stage == First || call.stage == Tombstone)
    ensures React(row, call) == Continue(if call.stage == First then Tombstone else Revive(row.value.revision))
    ensures RowAfter(row, call) == row && Performed(row, call, others) == []
  {
  }

  lemma UpdateMisses(row: Option<Row>, call: Call, others: seq<Option<Call>>)
    requires call.op.Update? && call.stage == First && !Live(row)
    ensures React(row, call) == Continue(Recheck) && RowAfter(row, call) == row && Performed(row, call, others) == []
  {
  }

  lemma UpdateFindsIt(row: Option<Row>, call: Call, others: seq<Option<Call>>)
    requires call.op.Update? && call.stage == Recheck && Live(row) && Revision(row) == call.op.expected
    ensures React(row, call) == Answers(Conflict) && RowAfter(row, call) == row && Performed(row, call, others) == []
  {
  }

  lemma RunNone(s: State)
    ensures Run(s, []) == s
  {
  }

  lemma StageKeeps(s: State, j: nat, call: Call)
    requires j < |s.clients| && s.clients[j] == Some(call) && call.decided == None && React(s.row, call).Continue?
    requires forall k | 0 <= k < |s.clients| && s.clients[k].Some? :: StageOk(s.clients[k].value)
    ensures var t := Next(s, Statement(j, Answered));
            forall k | 0 <= k < |t.clients| && t.clients[k].Some? :: StageOk(t.clients[k].value)
  {
  }

  /** The records of the statement that creates the key. */
  lemma CreateRecords(s: State, j: nat, call: Call)
    requires j < |s.clients| && s.clients[j] == Some(call) && call.decided == None && call.op.Create? && !Live(s.row)
    requires call.stage == if s.row.None? then First else Revive(Revision(s.row))
    requires forall k | 0 <= k < |s.clients| && s.clients[k].Some? :: StageOk(s.clients[k].value)
    ensures var row', records := RowAfter(s.row, call), Performed(s.row, call, s.clients[j := None]);
            && row' == Some(Row(call.op.value, Revision(s.row) + 1, false)) && records != []
            && forall n | 0 <= n < |records| :: records[n].after == CellOf(row') && records[n].op.Create?
  {
    var row', others := RowAfter(s.row, call), s.clients[j := None];
    var records := Performed(s.row, call, others);
    forall n | 0 < n < |records|
      ensures records[n].after == CellOf(row') && records[n].op.Create?
    {
      assert records[n] == LostRaces(others, call.stage.revision, CellOf(row'))[n - 1];
      LostRacesAre(others, call.stage.revision, CellOf(row'), n - 1);
    }
  }

  /** The condition is needed: an update that is not safe can be overtaken by a creation so that
      it answers with a conflict, though at no moment in between the contract allows that. */
  lemma UnsafeFails(s: State, i: nat, j: nat, v: Value, w: Value) returns (events: seq<Event>)
    requires Holds(s) && i < |s.clients| && j < |s.clients| && i != j && s.clients[i].None? && s.clients[j].None?
             && !Live(s.row)
    ensures var op, end := Update(v, Revision(s.row) + 1), Run(s, events);
            && end.results != []
            && var r := end.results[|end.results| - 1];
               && r.op == op && r.answer == Conflict && !r.recheckLost && r.from <= r.upTo <= |end.history|
               && !Safe(r, end.history)
               && !PerformedIn(end.history, r.ticket, op, Conflict, r.from, r.upTo)
               && forall k | r.from <= k <= r.upTo ::
                    !Atomic(Before(end.history, k), op, Conflict, Before(end.history, k))
  {
    hide Holds, Next, Run, LostRaces, CallOk, RowAfter, React, Performed, PerformedIn, Atomic, Safe;
    var op := Update(v, Revision(s.row) + 1);
    var call := Call(s.calls, op, First, |s.history|, Revision(s.row), None);
    StagesAreOk(s);
    Begins(s, i, op);
    var t1 := Next(s, Begin(i, op));
    UpdateMisses(t1.row, call, t1.clients[i := None]);
    StatementAnswered(t1, i, call);
    StageKeeps(t1, i, call);
    var t2 := Next(t1, Statement(i, Answered));
    assert t2.row == s.row && t2.history == s.history && t2.clients[i] == Some(call.(stage := Recheck));
    var more := Creates(t2, j, i, w);
    var t3 := Run(t2, more);
    call := call.(stage := Recheck);
    UpdateFindsIt(t3.row, call, t3.clients[i := None]);
    StatementAnswered(t3, i, call);
    RunOne(t2, more, Statement(i, Answered));
    RunOne(s, [], Begin(i, op));
    RunOne(s, [Begin(i, op)], Statement(i, Answered));
    RunNone(s);
    assert [] + [Begin(i, op)] == [Begin(i, op)]
           && [Begin(i, op)] + [Statement(i, Answered)] == [Begin(i, op), Statement(i, Answered)];
    RunConcat(s, [Begin(i, op), Statement(i, Answered)], more + [Statement(i, Answered)]);
    events := [Begin(i, op), Statement(i, Answered)] + (more + [Statement(i, Answered)]);
    var end := Run(s, events);
    var r := Return(call.ticket, op, Conflict, call.from, |t3.history|, call.known, false);
    assert end.history == t3.history && end.results == t3.results + [r];
    OnlyCreated(s.history, end.history, r, CellOf(s.row), CellOf(t3.row));
  }

  lemma StagesAreOk(s: State)
    requires Holds(s)
    ensures forall k | 0 <= k < |s.clients| && s.clients[k].Some? :: StageOk(s.clients[k].value)
    ensures Before(s.history, |s.history|) == CellOf(s.row)
  {
  }

  lemma OnlyCreated(before: seq<Record>, history: seq<Record>, r: Return, missing: Cell<Value>, created: Cell<Value>)
    requires |before| < |history| && history[..|before|] == before && Before(before, |before|) == missing
             && missing.entry.None?
    requires forall n | |before| <= n < |history| :: history[n].after == created && history[n].op.Create?
    requires created.entry.Some? && r.op.Update? && r.op.expected == created.entry.value.revision == r.known + 1
    requires r.from == |before| && r.upTo == |history|
    ensures !Safe(r, history) && !PerformedIn(history, r.ticket, r.op, Conflict, r.from, r.upTo)
    ensures forall k | r.from <= k <= r.upTo :: !Atomic(Before(history, k), r.op, Conflict, Before(history, k))
  {
    assert Before(history, |before|) == missing;
  }

  lemma {:induction false} RunConcat(s: State, a: seq<Event>, b: seq<Event>)
    ensures Run(s, a + b) == Run(Run(s, a), b)
    decreases |b|
  {
    hide Next;
    if b == [] {
      assert a + b == a;
    } else {
      assert (a + b)[..|a + b| - 1] == a + b[..|b| - 1];
      RunConcat(s, a, b[..|b| - 1]);
    }
  }

  /** Every revision that a client was told is at most the stored one, so an update that expects
      it later is safe. */
  lemma {:induction false} ToldRevisionsAreSafe(clients: nat, events: seq<Event>, n: nat)
    requires var s := Run(Start(clients), events);
             n < |s.results| && (s.results[n].answer.Written? || s.results[n].answer.Found?)
    ensures var s := Run(Start(clients), events);
            var told := if s.results[n].answer.Written? then s.results[n].answer.revision
                        else s.results[n].answer.entry.revision;
            told <= Revision(s.row)
  {
    hide Run, CallsOk, TicketsOk, Sequential, Atomic;
    var s := Run(Start(clients), events);
    var r := s.results[n];
    RunHolds(clients, events);
    assert ReturnOk(r, s.history);
    var k :| r.from <= k < r.upTo && k < |s.history| && s.history[k].ticket == r.ticket && s.history[k].op == r.op
      && s.history[k].answer == r.answer;
    ToldAt(s.history, k);
    HighsGrow(s.history, k, |s.history|);
  }

  lemma ToldAt(history: seq<Record>, k: nat)
    requires Sequential(history) && k < |history|
    ensures history[k].answer.Written? ==> history[k].answer.revision <= history[k].after.high
    ensures history[k].answer.Found? ==> history[k].answer.entry.revision <= history[k].after.high
  {
    CellsOk(history, k);
    assert StepAt(history, k);
  }

  lemma {:induction false} HighsGrow(history: seq<Record>, i: nat, j: nat)
    requires Sequential(history) && i <= j <= |history|
    ensures Before(history, i).high <= Before(history, j).high
    ensures i < j ==> history[i].after.high <= Before(history, j).high
    decreases j - i
  {
    if i < j {
      CellsOk(history, i);
      assert StepAt(history, i);
      AtomicGrows(Before(history, i), history[i].op, history[i].answer, history[i].after);
      hide Atomic, Sequential;
      assert Before(history, i + 1) == history[i].after;
      HighsGrow(history, i + 1, j);
    }
  }

  /** A revision that the key had before it was changed, or deleted and created again, is never
      the stored one again, so no statement that expects it changes the row. */
  lemma {:induction false} StaleForever(s: State, events: seq<Event>, stale: nat)
    requires Holds(s) && Passed(s.row, stale)
    ensures var t := Run(s, events);
            Holds(t) && Passed(t.row, stale) &&
            forall call: Call | call.op.Update? && call.op.expected == stale :: RowAfter(t.row, call) == t.row
    decreases |events|
  {
    hide Next, Holds;
    if events != [] {
      var t, e := Run(s, events[..|events| - 1]), events[|events| - 1];
      StaleForever(s, events[..|events| - 1], stale);
      PassedStays(t, e, stale);
      match e {
        case Begin(i, op) => BeginHolds(t, i, op);
        case Statement(i, delivery) => StatementHolds(t, i, delivery);
      }
    }
  }

  lemma PassedStays(s: State, e: Event, stale: nat)
    requires Holds(s) && Passed(s.row, stale)
    ensures Passed(Next(s, e).row, stale)
  {
    hide Sequential, TicketsOk, ResultsOk, Decided, Performed, RowAfter, React, Recorded, RowFits;
    if e.Statement? && e.client < |s.clients| && s.clients[e.client].Some? {
      var call := s.clients[e.client].value;
      assert CallOk(call, s.row, s.history);
      RowMoves(s.row, call);
    }
  }

  /** An operation that nobody interrupts: the statements one after the other. */
  method Perform(row: Option<Row>, op: Operation) returns (row': Option<Row>, answer: Answer<Value>)
    requires row.Some? ==> row.value.revision > 0
    ensures row'.Some? ==> row'.value.revision > 0
    ensures Atomic(CellOf(row), op, answer, CellOf(row')) && answer != Failed
  {
    var call := Call(0, op, First, 0, Revision(row), None);
    var r := React(row, call);
    row' := RowAfter(row, call);
    while r.Continue?
      invariant row'.Some? ==> row'.value.revision > 0
      invariant call.op == op && call.decided == None && StageOk(call)
      invariant match r
                case Continue(stage) =>
                  && row' == row && StageOk(call.(stage := stage))
                  && (call.stage == First || call.stage == Tombstone)
                  && (call.stage == First ==> stage == Tombstone || stage == Recheck)
                  && (call.stage == Tombstone ==> stage.Revive?) && RowFits(call.(stage := stage), row)
                  && (op.Update? ==> !(Live(row) && row.value.revision == op.expected))
                case Answers(a) => Atomic(CellOf(row), op, a, CellOf(row')) && a != Failed
      decreases if r.Answers? then 0 else if call.stage == First then 2 else 1
    {
      call := call.(stage := r.stage);
      r := React(row', call);
      row' := RowAfter(row', call);
    }
    answer := r.answer;
  }

  /** Looking again can go wrong: when the second query of an update is lost, it reports a
      conflict even for a key that never existed. */
  lemma LostRecheckMisreports(v: Value)
    ensures var s := Run(Start(1), [Begin(0, Update(v, 0)), Statement(0, Answered), Statement(0, NotRun)]);
            s.row == None && s.results == [Return(0, Update(v, 0), Conflict, 0, 0, 0, true)]
  {
    var s0, op := Start(1), Update(v, 0);
    RunNone(s0);
    RunOne(s0, [], Begin(0, op));
    RunOne(s0, [Begin(0, op)], Statement(0, Answered));
    RunOne(s0, [Begin(0, op), Statement(0, Answered)], Statement(0, NotRun));
    assert [] + [Begin(0, op)] == [Begin(0, op)];
    assert [Begin(0, op)] + [Statement(0, Answered)] == [Begin(0, op), Statement(0, Answered)];
    assert [Begin(0, op), Statement(0, Answered)] + [Statement(0, NotRun)] ==
             [Begin(0, op), Statement(0, Answered), Statement(0, NotRun)];
    hide Run;
    var s1 := Next(s0, Begin(0, op));
    assert s1.clients[0] == Some(Call(0, op, First, 0, 0, None));
    var s2 := Next(s1, Statement(0, Answered));
    assert s2.clients[0] == Some(Call(0, op, Recheck, 0, 0, None));
  }
}
