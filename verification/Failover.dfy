/** Who is master: node states (pkg/coordinator/monitor.go) and failover
    (pkg/coordinator/failover.go). */
module Failover {
  import opened Wrappers
  import opened StateStore

  type Name = string

  // ---------------------------------------------------------------- node states

  datatype NodeState = Unknown | Up | Lagging | Degraded | Suspect | Down | NeedsRestore

  /** What a node reports. stuck: its data is behind or ahead of what the stream holds. */
  datatype StreamStatus = StreamStatus(lastApplied: nat, lag: nat, connected: bool, stuck: bool, paused: bool)

  datatype NodeStatus = NodeStatus(name: Name, state: NodeState, failures: nat, seen: bool, stream: StreamStatus)

  datatype Config = Config(failThreshold: int, maxLag: nat, cooldown: int)

  function Classify(s: NodeStatus, cfg: Config): NodeState {
    if s.failures >= cfg.failThreshold then Down
    else if s.failures > 0 then Suspect
    else if !s.seen then Unknown
    else if s.stream.stuck then NeedsRestore
    else if !s.stream.connected then Degraded
    else if s.stream.lag > cfg.maxLag then Lagging
    else Up
  }

  /** One poll of a node: its answer, or none. */
  function Polled(s: NodeStatus, answer: Option<StreamStatus>, cfg: Config): NodeStatus {
    var t := match answer
             case None => s.(failures := s.failures + 1)
             case Some(stream) => s.(failures := 0, seen := true, stream := stream);
    t.(state := Classify(t, cfg))
  }

  function AllPolled(s: NodeStatus, answers: seq<Option<StreamStatus>>, cfg: Config): NodeStatus {
    if answers == [] then s
    else Polled(AllPolled(s, answers[..|answers| - 1], cfg), answers[|answers| - 1], cfg)
  }

  ghost predicate LastFailed(answers: seq<Option<StreamStatus>>, n: nat) {
    n <= |answers| && forall i | |answers| - n <= i < |answers| :: answers[i] == None
  }

  lemma {:induction false} FailuresCount(s: NodeStatus, answers: seq<Option<StreamStatus>>, cfg: Config, n: nat)
    requires s.failures == 0
    ensures AllPolled(s, answers, cfg).failures >= n <==> LastFailed(answers, n)
    decreases |answers|
  {
    if answers != [] {
      var before, last := answers[..|answers| - 1], answers[|answers| - 1];
      if n > 0 { FailuresCount(s, before, cfg, n - 1); }
      assert forall i | 0 <= i < |before| :: before[i] == answers[i];
      if n > 0 && LastFailed(answers, n) { assert answers[|answers| - 1] == None; }
    }
  }

  /** A node is called down exactly when the last FailThreshold polls went unanswered, and
      suspect when the last one did but not so many. Otherwise its last answer decides: data
      that the stream cannot continue, then no connection, then lag; else it is up. */
  lemma DownIff(s: NodeStatus, answers: seq<Option<StreamStatus>>, cfg: Config)
    requires s.failures == 0 && answers != [] && cfg.failThreshold > 0
    ensures var t, last := AllPolled(s, answers, cfg), answers[|answers| - 1];
            && t.name == s.name
            && (t.state == Down <==>
                  && cfg.failThreshold <= |answers|
                  && forall i | |answers| - cfg.failThreshold <= i < |answers| :: answers[i].None?)
            && (t.state == Suspect <==> last.None? && t.state != Down)
            && (t.state == NeedsRestore <==> last.Some? && last.value.stuck)
            && (t.state == Degraded <==> last.Some? && !last.value.stuck && !last.value.connected)
            && (t.state == Lagging <==>
                  last.Some? && !last.value.stuck && last.value.connected && last.value.lag > cfg.maxLag)
            && (t.state == Up <==>
                  last.Some? && !last.value.stuck && last.value.connected && last.value.lag <= cfg.maxLag)
            && (last.Some? ==> t.stream == last.value)
  {
    FailuresCount(s, answers, cfg, cfg.failThreshold);
    SameNode(s, answers[..|answers| - 1], cfg);
  }

  lemma {:induction false} SameNode(s: NodeStatus, answers: seq<Option<StreamStatus>>, cfg: Config)
    ensures AllPolled(s, answers, cfg).name == s.name
    decreases |answers|
  {
    if answers != [] { SameNode(s, answers[..|answers| - 1], cfg); }
  }

  // ---------------------------------------------------------------- one instance

  datatype Cluster = Cluster(master: Name, epoch: nat, changedAt: int)

  datatype Promotion = Promotion(epoch: nat, from: Name, to: Name, at: int)

  predicate Eligible(s: NodeStatus, master: Name) { s.name != master && s.state == Up }

  /** The freshest node that can take over, the first of them in configuration order. */
  ghost predicate Freshest(statuses: seq<NodeStatus>, master: Name, i: nat) {
    && i < |statuses| && Eligible(statuses[i], master)
    && forall j | 0 <= j < |statuses| && Eligible(statuses[j], master) ::
         statuses[j].stream.lastApplied <= statuses[i].stream.lastApplied &&
         (statuses[j].stream.lastApplied == statuses[i].stream.lastApplied ==> i <= j)
  }

  method PickCandidate(statuses: seq<NodeStatus>, master: Name) returns (candidate: Option<nat>)
    ensures candidate.Some? ==> Freshest(statuses, master, candidate.value)
    ensures candidate.Some? ==>
              candidate.value < |statuses| && statuses[candidate.value].name != master
              && statuses[candidate.value].state == Up
    ensures candidate.None? ==> forall j | 0 <= j < |statuses| :: statuses[j].name == master || statuses[j].state != Up
  {
    candidate := None;
    var freshest: nat := 0;
    var i := 0;
    while i < |statuses|
      invariant 0 <= i <= |statuses|
      invariant candidate.Some? ==> candidate.value < i && Freshest(statuses[..i], master, candidate.value) &&
                                    freshest == statuses[candidate.value].stream.lastApplied
      invariant candidate.None? ==> forall j | 0 <= j < i :: !Eligible(statuses[j], master)
    {
      var s := statuses[i];
      if Eligible(s, master) && (candidate == None || s.stream.lastApplied > freshest) {
        candidate, freshest := Some(i), s.stream.lastApplied;
      }
      i := i + 1;
    }
    assert statuses[..i] == statuses;
  }

  lemma FreshestIs(statuses: seq<NodeStatus>, master: Name, i: nat)
    requires Freshest(statuses, master, i)
    ensures i < |statuses| && statuses[i].name != master && statuses[i].state == Up
    ensures forall j | 0 <= j < |statuses| && statuses[j].name != master && statuses[j].state == Up ::
              statuses[j].stream.lastApplied < statuses[i].stream.lastApplied ||
              (statuses[j].stream.lastApplied == statuses[i].stream.lastApplied && i <= j)
  {
    forall j | 0 <= j < |statuses| && statuses[j].name != master && statuses[j].state == Up
      ensures Eligible(statuses[j], master)
    {
    }
  }

  datatype Verdict = Nothing | Promoted(to: Name) | UnknownMaster | Refused

  class Coordinator {
    const order: seq<Name>
    const cfg: Config
    const store: Mem<Cluster>
    const clusterKey: Key
    /** What the nodes last reported, in configuration order. */
    var statuses: seq<NodeStatus>
    var cluster: Option<Cluster>
    /** The promotions, stored under their epochs. */
    var history: map<nat, Promotion>

    ghost predicate Valid()
      reads this, store
    {
      && store.Valid() && order != [] && (forall i, j | 0 <= i < j < |order| :: order[i] != order[j])
      && |statuses| == |order| && forall i | 0 <= i < |order| :: statuses[i].name == order[i]
    }

    ghost function Stored(): Option<Entry<Cluster>>
      reads store
    {
      store.CellOf(clusterKey).entry
    }

    constructor (order: seq<Name>, cfg: Config, store: Mem<Cluster>, clusterKey: Key, stream: StreamStatus)
      requires store.Valid() && order != [] && forall i, j | 0 <= i < j < |order| :: order[i] != order[j]
      ensures Valid() && this.order == order && this.cfg == cfg && this.store == store && history == map[]
      ensures forall i | 0 <= i < |order| ::
                statuses[i].state == Unknown && statuses[i].failures == 0 && !statuses[i].seen
    {
      this.order, this.cfg, this.store, this.clusterKey := order, cfg, store, clusterKey;
      statuses := seq(|order|, i requires 0 <= i < |order| => NodeStatus(order[i], Unknown, 0, false, stream));
      cluster, history := None, map[];
    }

    /** The stored decision. The first instance creates it, with the first node as master. */
    method LoadCluster(now: int) returns (found: Option<Entry<Cluster>>)
      requires Valid()
      modifies store
      ensures Valid() && Stored().Some?
      ensures old(Stored()).Some? ==> Stored() == old(Stored())
      ensures old(Stored()).None? ==> Stored().value.value == Cluster(order[0], 1, now)
      ensures found == if Stored().value.value.master in order then Stored() else None
    {
      var r := store.Do(clusterKey, Get);
      if r.Found? {
        return if r.entry.value.master in order then Some(r.entry) else None;
      }
      var first := Cluster(order[0], 1, now);
      var created := store.Do(clusterKey, Create(first));
      found := Some(Entry(first, created.revision));
    }

    /** Asks every node for its state; None stands for no answer. */
    method PollOnce(answers: seq<Option<StreamStatus>>)
      requires Valid() && |answers| == |order|
      modifies this`statuses
      ensures Valid()
      ensures forall i | 0 <= i < |order| :: statuses[i] == Polled(old(statuses)[i], answers[i], cfg)
    {
      var i := 0;
      while i < |order|
        invariant 0 <= i <= |order| == |statuses| && Valid()
        invariant forall j | 0 <= j < i :: statuses[j] == Polled(old(statuses)[j], answers[j], cfg)
        invariant forall j | i <= j < |order| :: statuses[j] == old(statuses)[j]
      {
        statuses := statuses[i := Polled(statuses[i], answers[i], cfg)];
        i := i + 1;
      }
    }

    /** What the node of that name last reported. */
    function StateOf(name: Name, i: nat): NodeState
      reads this`statuses
      decreases |statuses| - i
    {
      if i >= |statuses| then Unknown else if statuses[i].name == name then statuses[i].state else StateOf(name, i + 1)
    }

    lemma {:induction false} StateAt(i: nat, k: nat)
      requires i <= k < |statuses| && forall j | i <= j < k :: statuses[j].name != statuses[k].name
      ensures StateOf(statuses[k].name, i) == statuses[k].state
      decreases k - i
    {
      if i < k { StateAt(i + 1, k); }
    }

    /** The state of the node is that of the one status with its name. */
    lemma NamedState(name: Name)
      requires Valid() && name in order
      ensures exists k :: 0 <= k < |statuses| && statuses[k].name == name && statuses[k].state == StateOf(name, 0)
      ensures forall k | 0 <= k < |statuses| && statuses[k].name == name :: statuses[k].state == StateOf(name, 0)
    {
      forall k | 0 <= k < |statuses| && statuses[k].name == name
        ensures statuses[k].state == StateOf(name, 0)
      {
        assert order[k] == name;
        StateAt(0, k);
      }
      var k :| 0 <= k < |order| && order[k] == name;
      assert statuses[k].name == name;
    }

    /** Stores the next decision; keeps the history. Nobody else writes in between. */
    method StoreNext(current: Entry<Cluster>, to: Name, now: int)
      requires Valid() && Stored() == Some(current)
      modifies this`cluster, this`history, store
      ensures Valid() && Stored().Some? && cluster == Some(Stored().value.value)
      ensures Stored().value.value == Cluster(to, current.value.epoch + 1, now)
      ensures var next := current.value.epoch + 1;
              history == if next in old(history) then old(history)
                         else old(history)[next := Promotion(next, current.value.master, to, now)]
    {
      var next := Cluster(to, current.value.epoch + 1, now);
      var updated := store.Do(clusterKey, Update(next, current.revision));
      cluster := Some(next);
      if next.epoch !in history {
        history := history[next.epoch := Promotion(next.epoch, current.value.master, to, now)];
      }
    }

    /** Promotes the freshest replica that is up, the first one among equals, exactly when the
        master is down or has to be restored, the last change is long enough ago, and there is
        such a replica. load, check and store are what the clock says when the decision is
        loaded, checked and stored. */
    method FailoverOnce(load: int, check: int, stored: int) returns (v: Verdict)
      requires Valid()
      modifies this`cluster, this`history, store
      ensures Valid() && Stored().Some?
      ensures var before := if old(Stored()).Some? then old(Stored()).value.value else Cluster(order[0], 1, load);
              && (v == UnknownMaster <==> before.master !in order)
              && (v.Promoted? <==>
                    && (exists i :: 0 <= i < |statuses| && statuses[i].name == before.master
                                    && (statuses[i].state == Down || statuses[i].state == NeedsRestore))
                    && check - before.changedAt >= cfg.cooldown
                    && exists i :: 0 <= i < |statuses| && statuses[i].name != before.master && statuses[i].state == Up)
              && (v.Promoted? ==>
                    && Stored().value.value == Cluster(v.to, before.epoch + 1, stored) && v.to != before.master
                    && (exists i: nat ::
                          && i < |statuses| && statuses[i].name == v.to && statuses[i].state == Up
                          && forall j | 0 <= j < |statuses| && statuses[j].name != before.master
                                        && statuses[j].state == Up ::
                               statuses[j].stream.lastApplied < statuses[i].stream.lastApplied ||
                               (statuses[j].stream.lastApplied == statuses[i].stream.lastApplied && i <= j))
                    && history == if before.epoch + 1 in old(history) then old(history)
                                  else old(history)[before.epoch + 1 :=
                                                      Promotion(before.epoch + 1, before.master, v.to, stored)])
              && (!v.Promoted? ==> Stored().value.value == before && history == old(history) && v != Refused)
              && (before.master in order ==> cluster == Some(Stored().value.value))
    {
      hide StateOf, Freshest, Eligible;
      var found := LoadCluster(load);
      if found.None? { return UnknownMaster; }
      var cl := found.value.value;
      cluster := Some(cl);
      var state := StateOf(cl.master, 0);
      NamedState(cl.master);
      if state != Down && state != NeedsRestore { return Nothing; }
      if check - cl.changedAt < cfg.cooldown { return Nothing; }
      var candidate := PickCandidate(statuses, cl.master);
      if candidate.None? { return Nothing; }
      FreshestIs(statuses, cl.master, candidate.value);
      StoreNext(found.value, statuses[candidate.value].name, stored);
      v := Promoted(statuses[candidate.value].name);
    }

    /** Makes a node the master by hand, unless it is unknown, or what it last reported says
        that it cannot be reached or restored. */
    method Promote(name: Name, load: int, stored: int) returns (v: Verdict)
      requires Valid()
      modifies this`cluster, this`history, store
      ensures Valid()
      ensures v == Refused <==>
                || name !in order
                || exists i :: 0 <= i < |statuses| && statuses[i].name == name
                               && (statuses[i].state == Down || statuses[i].state == Suspect
                                   || statuses[i].state == Unknown || statuses[i].state == NeedsRestore)
      ensures var before := if old(Stored()).Some? then old(Stored()).value.value else Cluster(order[0], 1, load);
              && (v.Promoted? <==> v != Refused && before.master in order && before.master != name)
              && (v.Promoted? ==>
                    && Stored().Some? && Stored().value.value == Cluster(name, before.epoch + 1, stored) && v.to == name
                    && history == if before.epoch + 1 in old(history) then old(history)
                                  else old(history)[before.epoch + 1 :=
                                                      Promotion(before.epoch + 1, before.master, name, stored)])
              && (!v.Promoted? ==> history == old(history))
              && (v == Refused ==> Stored() == old(Stored()))
              && (v == Nothing ==> before.master == name && Stored().Some? && Stored().value.value == before)
    {
      if name !in order { return Refused; }
      var state := StateOf(name, 0);
      NamedState(name);
      if state == Down || state == Suspect || state == Unknown || state == NeedsRestore { return Refused; }
      var found := LoadCluster(load);
      if found.None? { return UnknownMaster; }
      if found.value.value.master == name { return Nothing; }
      StoreNext(found.value, name, stored);
      v := Promoted(name);
    }
  }

  // ---------------------------------------------------------------- many instances

  /** Where an instance is. auto: the failover, which keeps the cooldown, not a promotion by hand. */
  datatype Stage =
    | Idle
    | Loading
    | Creating(first: Cluster)
    | Loaded(current: Entry<Cluster>)
    | Chosen(current: Entry<Cluster>, to: Name, auto: bool)
    | Swapping(current: Entry<Cluster>, next: Cluster, auto: bool)
    | Recording(previous: Cluster, next: Cluster)

  datatype Decision = Decision(cluster: Cluster, auto: bool)

  /** chain lists every decision ever stored, in order. Views are what the instances last saw. */
  datatype State = State(cell: Cell<Cluster>, clock: int, stages: map<nat, Stage>, views: map<nat, Cluster>,
                         history: map<nat, Promotion>, chain: seq<Decision>)

  datatype Event =
    | Tick(now: int)
    | Load(i: nat)
    | Look(i: nat, first: Name)
    | Insert(i: nat, revision: nat, applied: bool, answered: bool)
    | Choose(i: nat, to: Name, auto: bool)
    | Prepare(i: nat)
    | Swap(i: nat, revision: nat, applied: bool, answered: bool)
    | Record(i: nat, applied: bool)
    | GiveUp(i: nat)

  function StageOf(s: State, i: nat): Stage { if i in s.stages then s.stages[i] else Idle }

  function At(s: State, i: nat, stage: Stage): State { s.(stages := s.stages[i := stage]) }

  /** A step of one of the instances. A write that is applied may go unanswered. */
  function Next(cfg: Config, s: State, e: Event): State {
    match e
    case Tick(now) => if now >= s.clock then s.(clock := now) else s
    case GiveUp(i) => At(s, i, Idle)
    case Load(i) => if StageOf(s, i).Idle? then At(s, i, Loading) else s
    case Look(i, first) =>
      if !StageOf(s, i).Loading? then s
      else if s.cell.entry.None? then At(s, i, Creating(Cluster(first, 1, s.clock)))
      else At(s, i, Loaded(s.cell.entry.value)).(views := s.views[i := s.cell.entry.value.value])
    case Insert(i, revision, applied, answered) =>
      if !StageOf(s, i).Creating? then s
      else if s.cell.entry.Some? then At(s, i, if answered then Loading else Idle)
      else if !applied || revision <= s.cell.high then At(s, i, Idle)
      else
        var first := StageOf(s, i).first;
        var t := s.(cell := Cell(Some(Entry(first, revision)), revision), chain := s.chain + [Decision(first, false)]);
        if answered then At(t, i, Loaded(Entry(first, revision))).(views := s.views[i := first]) else At(t, i, Idle)
    case Choose(i, to, auto) =>
      if !StageOf(s, i).Loaded? then s
      else
        var current := StageOf(s, i).current;
        if to == current.value.master || (auto && s.clock - current.value.changedAt < cfg.cooldown) then At(s, i, Idle)
        else At(s, i, Chosen(current, to, auto))
    case Prepare(i) =>
      (match StageOf(s, i)
       case Chosen(current, to, auto) =>
         At(s, i, Swapping(current, Cluster(to, current.value.epoch + 1, s.clock), auto))
       case _ => s)
    case Swap(i, revision, applied, answered) =>
      (match StageOf(s, i)
       case Swapping(current, next, auto) =>
         if s.cell.entry.None? || s.cell.entry.value.revision != current.revision
         then At(s, i, if answered then Loading else Idle)
         else if !applied || revision <= s.cell.high then At(s, i, Idle)
         else
           var t := s.(cell := Cell(Some(Entry(next, revision)), revision), chain := s.chain + [Decision(next, auto)]);
           if answered then At(t, i, Recording(current.value, next)).(views := s.views[i := next]) else At(t, i, Idle)
       case _ => s)
    case Record(i, applied) =>
      (match StageOf(s, i)
       case Recording(previous, next) =>
         var t := At(s, i, Idle);
         if applied && next.epoch !in s.history
         then
           var promotion := Promotion(next.epoch, previous.master, next.master, next.changedAt);
           t.(history := s.history[next.epoch := promotion])
         else t
       case _ => s)
  }

  ghost function Run(cfg: Config, s: State, events: seq<Event>): State {
    if events == [] then s else Next(cfg, Run(cfg, s, events[..|events| - 1]), events[|events| - 1])
  }

  function Start(clock: int): State { State(Cell(None, 0), clock, map[], map[], map[], []) }

  // ---------------------------------------------------------------- the invariant

  /** The decision was stored at some time. */
  ghost predicate InChain(chain: seq<Decision>, c: Cluster) {
    0 < c.epoch <= |chain| && chain[c.epoch - 1].cluster == c
  }

  /** Epochs count 1, 2, 3, ...; times do not go back; every failover waits for the cooldown
      and changes the master. */
  ghost predicate ChainOk(cfg: Config, chain: seq<Decision>) {
    && (forall k | 0 <= k < |chain| :: chain[k].cluster.epoch == k + 1)
    && (forall j, k | 0 <= j < |chain| && k == j + 1 < |chain| :: Follows(cfg, chain[j].cluster, chain[k]))
  }

  ghost predicate Follows(cfg: Config, previous: Cluster, d: Decision) {
    && previous.changedAt <= d.cluster.changedAt && previous.master != d.cluster.master
    && (d.auto ==> d.cluster.changedAt - previous.changedAt >= cfg.cooldown)
  }

  ghost predicate CellFits(cell: Cell<Cluster>, chain: seq<Decision>, clock: int) {
    && CellOk(cell)
    && (cell.entry.None? <==> chain == [])
    && (cell.entry.Some? ==> cell.entry.value.value == chain[|chain| - 1].cluster)
    && forall k | 0 <= k < |chain| :: chain[k].cluster.changedAt <= clock
  }

  ghost predicate Read(cell: Cell<Cluster>, chain: seq<Decision>, e: Entry<Cluster>) {
    && e.revision <= cell.high && InChain(chain, e.value)
    && (cell.entry.Some? && cell.entry.value.revision == e.revision ==> cell.entry.value == e)
  }

  ghost predicate StageOk(cfg: Config, stage: Stage, cell: Cell<Cluster>, chain: seq<Decision>, clock: int) {
    match stage
    case Idle => true
    case Loading => true
    case Creating(first) => first.epoch == 1 && first.changedAt <= clock
    case Loaded(current) => Read(cell, chain, current)
    case Chosen(current, to, auto) =>
      && Read(cell, chain, current) && to != current.value.master
      && (auto ==> clock - current.value.changedAt >= cfg.cooldown)
    case Swapping(current, next, auto) =>
      && Read(cell, chain, current) && next.epoch == current.value.epoch + 1
      && next.changedAt <= clock && Follows(cfg, current.value, Decision(next, auto))
    case Recording(previous, next) =>
      InChain(chain, previous) && InChain(chain, next) && next.epoch == previous.epoch + 1
  }

  ghost predicate HistoryOk(history: map<nat, Promotion>, chain: seq<Decision>) {
    forall n | n in history :: PromotionOk(n, history[n], chain)
  }

  ghost predicate PromotionOk(n: nat, p: Promotion, chain: seq<Decision>) {
    && 1 < n <= |chain|
    && p == Promotion(n, chain[n - 2].cluster.master, chain[n - 1].cluster.master, chain[n - 1].cluster.changedAt)
  }

  ghost predicate Holds(cfg: Config, s: State) {
    && ChainOk(cfg, s.chain) && CellFits(s.cell, s.chain, s.clock) && HistoryOk(s.history, s.chain)
    && (forall i :: StageOk(cfg, StageOf(s, i), s.cell, s.chain, s.clock))
    && (forall i | i in s.views :: InChain(s.chain, s.views[i]))
  }

  lemma InLonger(chain: seq<Decision>, d: Decision, c: Cluster)
    requires InChain(chain, c)
    ensures InChain(chain + [d], c)
  {
  }

  /** A decision is added to the chain. */
  lemma ChainExtends(cfg: Config, s: State, d: Decision, revision: nat)
    requires ChainOk(cfg, s.chain) && CellFits(s.cell, s.chain, s.clock) && HistoryOk(s.history, s.chain)
             && s.cell.high < revision
    requires d.cluster.epoch == |s.chain| + 1 && d.cluster.changedAt <= s.clock
    requires s.chain != [] ==> Follows(cfg, s.chain[|s.chain| - 1].cluster, d)
    ensures var chain := s.chain + [d];
            && ChainOk(cfg, chain) && CellFits(Cell(Some(Entry(d.cluster, revision)), revision), chain, s.clock)
            && HistoryOk(s.history, chain) && InChain(chain, d.cluster)
  {
    hide Follows;
    var chain := s.chain + [d];
    forall n | n in s.history
      ensures PromotionOk(n, s.history[n], chain)
    {
      assert PromotionOk(n, s.history[n], s.chain);
    }
    forall j, k | 0 <= j < |chain| && k == j + 1 < |chain|
      ensures Follows(cfg, chain[j].cluster, chain[k])
    {
      if k < |s.chain| { assert Follows(cfg, s.chain[j].cluster, s.chain[k]); }
    }
  }

  lemma StepHolds(cfg: Config, s: State, e: Event)
    requires Holds(cfg, s)
    ensures Holds(cfg, Next(cfg, s, e))
  {
    match e
    case Insert(i, revision, applied, answered) => InsertHolds(cfg, s, e);
    case Swap(i, revision, applied, answered) => SwapHolds(cfg, s, e);
    case Record(i, applied) => RecordHolds(cfg, s, e);
    case Tick(now) => LookHolds(cfg, s, e);
    case GiveUp(i) => LookHolds(cfg, s, e);
    case Load(i) => LookHolds(cfg, s, e);
    case Look(i, first) => LookHolds(cfg, s, e);
    case Choose(i, to, auto) => LookHolds(cfg, s, e);
    case Prepare(i) => LookHolds(cfg, s, e);
  }

  /** Steps that store nothing. */
  lemma LookHolds(cfg: Config, s: State, e: Event)
    requires Holds(cfg, s) && !e.Insert? && !e.Swap? && !e.Record?
    ensures Holds(cfg, Next(cfg, s, e))
  {
    hide ChainOk, HistoryOk;
    var t := Next(cfg, s, e);
    if s.cell.entry.Some? { StoredIsLast(cfg, s); }
    forall i
      ensures StageOk(cfg, StageOf(t, i), t.cell, t.chain, t.clock)
    {
      assert StageOk(cfg, StageOf(s, i), s.cell, s.chain, s.clock);
    }
  }

  lemma StoredIsLast(cfg: Config, s: State)
    requires ChainOk(cfg, s.chain) && CellFits(s.cell, s.chain, s.clock) && s.cell.entry.Some?
    ensures InChain(s.chain, s.cell.entry.value.value) && Read(s.cell, s.chain, s.cell.entry.value)
    ensures s.cell.entry.value.value.epoch == |s.chain|
  {
  }

  /** What the others wait for stays true when a decision is added. */
  lemma OthersHold(cfg: Config, s: State, d: Decision, revision: nat, stage: Stage)
    requires StageOk(cfg, stage, s.cell, s.chain, s.clock) && s.cell.high < revision
    ensures StageOk(cfg, stage, Cell(Some(Entry(d.cluster, revision)), revision), s.chain + [d], s.clock)
  {
    hide Follows;
  }

  lemma Stores(cfg: Config, s: State, i: nat, d: Decision, revision: nat, stage: Stage, views: map<nat, Cluster>)
    requires Holds(cfg, s) && s.cell.high < revision
    requires d.cluster.epoch == |s.chain| + 1 && d.cluster.changedAt <= s.clock
    requires s.chain != [] ==> Follows(cfg, s.chain[|s.chain| - 1].cluster, d)
    requires StageOk(cfg, stage, Cell(Some(Entry(d.cluster, revision)), revision), s.chain + [d], s.clock)
    requires views == s.views || views == s.views[i := d.cluster]
    ensures var t := s.(cell := Cell(Some(Entry(d.cluster, revision)), revision), chain := s.chain + [d],
                        views := views);
            Holds(cfg, At(t, i, stage))
  {
    ChainExtends(cfg, s, d, revision);
    hide ChainOk, CellFits, HistoryOk, StageOk, InChain;
    var t := At(s.(cell := Cell(Some(Entry(d.cluster, revision)), revision), chain := s.chain + [d], views := views), i,
                stage);
    forall j
      ensures StageOk(cfg, StageOf(t, j), t.cell, t.chain, t.clock)
    {
      if j != i {
        assert StageOf(t, j) == StageOf(s, j);
        OthersHold(cfg, s, d, revision, StageOf(s, j));
      }
    }
    forall j | j in views
      ensures InChain(t.chain, views[j])
    {
      if j in s.views { InLonger(s.chain, d, s.views[j]); }
    }
  }

  /** A step of one instance that does not touch the store. */
  lemma MovesOn(cfg: Config, s: State, i: nat, stage: Stage)
    requires Holds(cfg, s) && StageOk(cfg, stage, s.cell, s.chain, s.clock)
    ensures Holds(cfg, At(s, i, stage))
  {
    hide ChainOk, CellFits, HistoryOk, StageOk;
    forall j
      ensures StageOk(cfg, StageOf(At(s, i, stage), j), s.cell, s.chain, s.clock)
    {
      if j != i { assert StageOf(At(s, i, stage), j) == StageOf(s, j); }
    }
  }

  lemma InsertHolds(cfg: Config, s: State, e: Event)
    requires Holds(cfg, s) && e.Insert?
    ensures Holds(cfg, Next(cfg, s, e))
  {
    assert StageOk(cfg, StageOf(s, e.i), s.cell, s.chain, s.clock);
    hide ChainOk, HistoryOk, Holds;
    if StageOf(s, e.i).Creating? {
      MovesOn(cfg, s, e.i, Idle);
      MovesOn(cfg, s, e.i, Loading);
      if s.cell.entry.None? && e.applied && s.cell.high < e.revision {
        assert s.chain == [] by { NothingStored(cfg, s); }
        var first := StageOf(s, e.i).first;
        Stores(cfg, s, e.i, Decision(first, false), e.revision, Idle, s.views);
        Stores(cfg, s, e.i, Decision(first, false), e.revision, Loaded(Entry(first, e.revision)),
               s.views[e.i := first]);
      }
    }
  }

  lemma NothingStored(cfg: Config, s: State)
    requires Holds(cfg, s) && s.cell.entry.None?
    ensures s.chain == []
  {
  }

  lemma SwapHolds(cfg: Config, s: State, e: Event)
    requires Holds(cfg, s) && e.Swap?
    ensures Holds(cfg, Next(cfg, s, e))
  {
    assert StageOk(cfg, StageOf(s, e.i), s.cell, s.chain, s.clock);
    if s.cell.entry.Some? { StoredIsLast(cfg, s); }
    hide ChainOk, HistoryOk, Holds, CellFits, Follows;
    if StageOf(s, e.i).Swapping? {
      MovesOn(cfg, s, e.i, Idle);
      MovesOn(cfg, s, e.i, Loading);
      var current, next, auto := StageOf(s, e.i).current, StageOf(s, e.i).next, StageOf(s, e.i).auto;
      if s.cell.entry.Some? && s.cell.entry.value.revision == current.revision && e.applied
         && s.cell.high < e.revision {
        assert s.chain[|s.chain| - 1].cluster == current.value;
        Stores(cfg, s, e.i, Decision(next, auto), e.revision, Idle, s.views);
        Stores(cfg, s, e.i, Decision(next, auto), e.revision, Recording(current.value, next), s.views[e.i := next]);
      }
    }
  }

  lemma RecordHolds(cfg: Config, s: State, e: Event)
    requires Holds(cfg, s) && e.Record?
    ensures Holds(cfg, Next(cfg, s, e))
  {
    assert StageOk(cfg, StageOf(s, e.i), s.cell, s.chain, s.clock);
    MovesOn(cfg, s, e.i, Idle);
    if StageOf(s, e.i).Recording? {
      var previous, next := StageOf(s, e.i).previous, StageOf(s, e.i).next;
      Recorded(s.history, s.chain, previous, next);
      hide ChainOk, CellFits, HistoryOk, StageOk, InChain;
      var idle, t := At(s, e.i, Idle), Next(cfg, s, e);
      assert forall j :: StageOf(t, j) == StageOf(idle, j);
    }
  }

  lemma Recorded(history: map<nat, Promotion>, chain: seq<Decision>, previous: Cluster, next: Cluster)
    requires HistoryOk(history, chain) && InChain(chain, previous) && InChain(chain, next)
             && next.epoch == previous.epoch + 1
    ensures HistoryOk(history[next.epoch := Promotion(next.epoch, previous.master, next.master, next.changedAt)], chain)
  {
  }

  lemma {:induction false} RunHolds(cfg: Config, clock: int, events: seq<Event>)
    ensures Holds(cfg, Run(cfg, Start(clock), events))
    decreases |events|
  {
    hide Next;
    if events != [] {
      RunHolds(cfg, clock, events[..|events| - 1]);
      StepHolds(cfg, Run(cfg, Start(clock), events[..|events| - 1]), events[|events| - 1]);
    }
  }

  // ---------------------------------------------------------------- what follows

  /** Every run of any number of instances, whether or not they believe that they lead: the
      stored decisions form one chain with the epochs 1, 2, 3, ...; a failover comes no earlier
      than the cooldown after the decision before it and names another master; what is stored
      is the newest decision. */
  lemma OneChain(cfg: Config, clock: int, events: seq<Event>)
    ensures var s := Run(cfg, Start(clock), events);
            && (forall k | 0 <= k < |s.chain| :: s.chain[k].cluster.epoch == k + 1)
            && (forall j, k | 0 <= j < |s.chain| && k == j + 1 < |s.chain| ::
                  && s.chain[j].cluster.master != s.chain[k].cluster.master
                  && (s.chain[k].auto ==> s.chain[k].cluster.changedAt >= s.chain[j].cluster.changedAt + cfg.cooldown))
            && (if s.chain == [] then s.cell.entry.None?
                else s.cell.entry.Some? && s.cell.entry.value.value == s.chain[|s.chain| - 1].cluster)
  {
    hide Run, Next;
    RunHolds(cfg, clock, events);
    var s := Run(cfg, Start(clock), events);
    assert ChainOk(cfg, s.chain) && CellFits(s.cell, s.chain, s.clock);
    forall j, k | 0 <= j < |s.chain| && k == j + 1 < |s.chain|
      ensures s.chain[j].cluster.master != s.chain[k].cluster.master
      ensures s.chain[k].auto ==> s.chain[k].cluster.changedAt >= s.chain[j].cluster.changedAt + cfg.cooldown
    {
      assert Follows(cfg, s.chain[j].cluster, s.chain[k]);
    }
  }

  /** Two instances that see the same epoch see the same master, at any two moments of a run. */
  lemma SameEpochSameView(cfg: Config, clock: int, events: seq<Event>, n: nat, i: nat, j: nat)
    requires n <= |events|
    requires var early, late := Run(cfg, Start(clock), events[..n]), Run(cfg, Start(clock), events);
             i in early.views && j in late.views && early.views[i].epoch == late.views[j].epoch
    ensures Run(cfg, Start(clock), events[..n]).views[i] == Run(cfg, Start(clock), events).views[j]
  {
    hide Run, Next;
    RunHolds(cfg, clock, events[..n]);
    RunHolds(cfg, clock, events);
    ChainGrows(cfg, clock, events, n);
    var early, late := Run(cfg, Start(clock), events[..n]), Run(cfg, Start(clock), events);
    assert InChain(early.chain, early.views[i]) && InChain(late.chain, late.views[j]);
  }

  lemma {:induction false} ChainGrows(cfg: Config, clock: int, events: seq<Event>, n: nat)
    requires n <= |events|
    ensures Run(cfg, Start(clock), events[..n]).chain <= Run(cfg, Start(clock), events).chain
    decreases |events|
  {
    if n < |events| {
      ChainGrows(cfg, clock, events[..|events| - 1], n);
      assert events[..|events| - 1][..n] == events[..n];
      OneGrows(cfg, Run(cfg, Start(clock), events[..|events| - 1]), events[|events| - 1]);
    } else {
      assert events[..n] == events;
    }
  }

  lemma OneGrows(cfg: Config, s: State, e: Event)
    ensures s.chain <= Next(cfg, s, e).chain
  {
  }

  /** The history is part of the chain: entries of consecutive epochs link, and an entry tells
      the decision of its epoch and the one before. */
  lemma HistoryLinks(cfg: Config, clock: int, events: seq<Event>, n: nat)
    requires n in Run(cfg, Start(clock), events).history
    ensures var s := Run(cfg, Start(clock), events);
            && 1 < n <= |s.chain| && s.history[n].epoch == n
            && s.history[n].from == s.chain[n - 2].cluster.master && s.history[n].to == s.chain[n - 1].cluster.master
            && (n + 1 in s.history ==> s.history[n + 1].from == s.history[n].to)
  {
    hide Run, Next;
    RunHolds(cfg, clock, events);
    var s := Run(cfg, Start(clock), events);
    assert PromotionOk(n, s.history[n], s.chain);
    if n + 1 in s.history { assert PromotionOk(n + 1, s.history[n + 1], s.chain); }
  }

  /** An instance that nobody interrupts stores the decision it makes, unless that would come
      before the cooldown, and records it. */
  lemma AloneDecides(cfg: Config, s: State, i: nat, to: Name, auto: bool, revision: nat)
    requires Holds(cfg, s) && StageOf(s, i).Idle? && s.cell.entry.Some? && s.cell.high < revision
    requires to != s.cell.entry.value.value.master
    ensures var cl := s.cell.entry.value.value;
            var loaded := Next(cfg, Next(cfg, s, Load(i)), Look(i, to));
            var swapped := Next(cfg, Next(cfg, Next(cfg, loaded, Choose(i, to, auto)), Prepare(i)),
                                Swap(i, revision, true, true));
            var t := Next(cfg, swapped, Record(i, true));
            && StageOf(t, i).Idle?
            && if auto && s.clock - cl.changedAt < cfg.cooldown then t.cell == s.cell && t.chain == s.chain
               else
                 && t.cell.entry == Some(Entry(Cluster(to, cl.epoch + 1, s.clock), revision))
                 && cl.epoch + 1 in t.history && t.history[cl.epoch + 1].from == cl.master
                 && t.history[cl.epoch + 1].to == to
  {
    NotRecordedYet(cfg, s);
    hide Holds, Next, StageOf;
    var loaded := Next(cfg, Next(cfg, s, Load(i)), Look(i, to));
    LoadsAlone(cfg, s, i, to);
    ChoosesAlone(cfg, loaded, i, to, auto);
    var chosen := Next(cfg, Next(cfg, loaded, Choose(i, to, auto)), Prepare(i));
    SwapsAlone(cfg, chosen, i, revision);
  }

  /** With no decision stored, such an instance stores the first one. */
  lemma AloneCreates(cfg: Config, s: State, i: nat, first: Name, revision: nat)
    requires StageOf(s, i).Idle? && s.cell.entry.None? && s.cell.high < revision
    ensures var t := Next(cfg, Next(cfg, Next(cfg, s, Load(i)), Look(i, first)), Insert(i, revision, true, true));
            var c := Cluster(first, 1, s.clock);
            && StageOf(t, i) == Loaded(Entry(c, revision)) && t.cell.entry == Some(Entry(c, revision))
            && i in t.views && t.views[i] == c
  {
  }

  /** An instance that another one forestalled, and that is told so, adopts the stored decision. */
  lemma LoserAdopts(cfg: Config, s: State, i: nat, first: Name, e: Event)
    requires s.cell.entry.Some?
    requires || (StageOf(s, i).Creating? && e.Insert? && e.i == i && e.answered)
             || (StageOf(s, i).Swapping? && StageOf(s, i).current.revision != s.cell.entry.value.revision
                 && e.Swap? && e.i == i && e.answered)
    ensures var t := Next(cfg, Next(cfg, s, e), Look(i, first));
            && t.cell == s.cell && t.chain == s.chain && StageOf(t, i) == Loaded(s.cell.entry.value)
            && i in t.views && t.views[i] == s.cell.entry.value.value
  {
  }

  lemma LoadsAlone(cfg: Config, s: State, i: nat, first: Name)
    requires StageOf(s, i).Idle? && s.cell.entry.Some?
    ensures var t := Next(cfg, Next(cfg, s, Load(i)), Look(i, first));
            && StageOf(t, i) == Loaded(s.cell.entry.value)
            && t.cell == s.cell && t.clock == s.clock && t.chain == s.chain && t.history == s.history
  {
  }

  lemma ChoosesAlone(cfg: Config, s: State, i: nat, to: Name, auto: bool)
    requires StageOf(s, i).Loaded? && to != StageOf(s, i).current.value.master
    ensures var current, t := StageOf(s, i).current, Next(cfg, Next(cfg, s, Choose(i, to, auto)), Prepare(i));
            && t.cell == s.cell && t.clock == s.clock && t.chain == s.chain && t.history == s.history
            && StageOf(t, i) == if auto && s.clock - current.value.changedAt < cfg.cooldown then Idle
                                else Swapping(current, Cluster(to, current.value.epoch + 1, s.clock), auto)
  {
  }

  lemma SwapsAlone(cfg: Config, s: State, i: nat, revision: nat)
    requires s.cell.high < revision && s.cell.entry.Some?
    requires StageOf(s, i).Idle? || (StageOf(s, i).Swapping? && StageOf(s, i).current == s.cell.entry.value)
    ensures var stage, t := StageOf(s, i), Next(cfg, Next(cfg, s, Swap(i, revision, true, true)), Record(i, true));
            && StageOf(t, i).Idle?
            && if stage.Idle? then t.cell == s.cell && t.chain == s.chain
               else
                 && t.cell.entry == Some(Entry(stage.next, revision)) && stage.next.epoch in t.history
                 && t.history[stage.next.epoch] ==
                    if stage.next.epoch in s.history then s.history[stage.next.epoch]
                    else Promotion(stage.next.epoch, stage.current.value.master, stage.next.master,
                                   stage.next.changedAt)
  {
  }

  lemma NotRecordedYet(cfg: Config, s: State)
    requires Holds(cfg, s) && s.cell.entry.Some?
    ensures s.cell.entry.value.value.epoch + 1 !in s.history
  {
    var n := s.cell.entry.value.value.epoch + 1;
    StoredIsLast(cfg, s);
    forall m | m in s.history
      ensures m <= |s.chain|
    {
      assert PromotionOk(m, s.history[m], s.chain);
    }
  }
}
