/**
 * The one-slot agent registry and everything that races for it: takeovers, executed
 * proposals, heartbeats, health checks and manual deactivations, interleaved at every
 * await. A registration outside any takeover needs no event of its own: what it does to
 * the slot is what an executed proposal does, or nothing.
 */
module AgentRegistry {
  import opened Wrappers

  const HEARTBEAT_TIMEOUT_SECONDS := 300

  // ---------------------------------------------------------------- The registry as a value

  datatype Record = Record(tee: string, active: bool, lastHeartbeat: int)

  /**
   * Every record ever installed, oldest first. The current agent is the last one; older
   * records are still referred to by handlers that read them before an await.
   */
  type Records = seq<Record>

  predicate HasActive(r: Records) { r != [] && r[|r| - 1].active }

  /** The current agent carries this id. */
  predicate Matches(r: Records, tee: string) { r != [] && r[|r| - 1].tee == tee }

  function Register(r: Records, tee: string, now: int): Records {
    if HasActive(r) then r else r + [Record(tee, true, now)]
  }

  function Deactivate(r: Records, tee: string): Records {
    if Matches(r, tee) then r[|r| - 1 := r[|r| - 1].(active := false)] else r
  }

  function Beat(r: Records, tee: string, timestamp: int): Records {
    if Matches(r, tee) && HasActive(r) then r[|r| - 1 := r[|r| - 1].(lastHeartbeat := timestamp)] else r
  }

  /** `checkHeartbeat`: overdue and still active. */
  predicate Overdue(r: Records, now: int) {
    HasActive(r) && (now - r[|r| - 1].lastHeartbeat) / 1000 > HEARTBEAT_TIMEOUT_SECONDS
  }

  // ---------------------------------------------------------------- The registry, spelled out

  /** Only the newest record differs, and only in these two fields. */
  predicate OnlyNewest(r: Records, r': Records, active: bool, heartbeat: int) {
    && r != [] && |r'| == |r| && r'[..|r| - 1] == r[..|r| - 1]
    && r'[|r| - 1].tee == r[|r| - 1].tee
    && r'[|r| - 1].active == active && r'[|r| - 1].lastHeartbeat == heartbeat
  }

  /** Registering installs an active record with this id and time unless somebody is active. */
  lemma RegisterWrites(r: Records, tee: string, now: int)
    ensures r != [] && r[|r| - 1].active ==> Register(r, tee, now) == r
    ensures r == [] || !r[|r| - 1].active ==>
      var r' := Register(r, tee, now);
      && |r'| == |r| + 1 && r'[..|r|] == r
      && r'[|r|].tee == tee && r'[|r|].active && r'[|r|].lastHeartbeat == now
  {
  }

  /** A beat moves the heartbeat of the active agent with this id to its timestamp, and nothing else. */
  lemma BeatWrites(r: Records, tee: string, timestamp: int)
    ensures r != [] && r[|r| - 1].tee == tee && r[|r| - 1].active ==>
      OnlyNewest(r, Beat(r, tee, timestamp), true, timestamp)
    ensures r == [] || r[|r| - 1].tee != tee || !r[|r| - 1].active ==> Beat(r, tee, timestamp) == r
  {
  }

  /** Deactivating turns off the agent with this id, and nothing else. */
  lemma DeactivateWrites(r: Records, tee: string)
    ensures r != [] && r[|r| - 1].tee == tee ==>
      OnlyNewest(r, Deactivate(r, tee), false, r[|r| - 1].lastHeartbeat)
    ensures r == [] || r[|r| - 1].tee != tee ==> Deactivate(r, tee) == r
  {
  }

  /** Overdue means active and silent for 301 seconds at least: more than 300 whole ones. */
  predicate Silent(r: Records, now: int) {
    r != [] && r[|r| - 1].active && now - r[|r| - 1].lastHeartbeat >= 301_000
  }

  /** The active agent has this id. */
  predicate IsActive(r: Records, tee: string) {
    r != [] && r[|r| - 1].active && r[|r| - 1].tee == tee
  }

  lemma OverdueMeansSilent(r: Records, now: int)
    ensures Overdue(r, now) <==> Silent(r, now)
  {
  }

  // ---------------------------------------------------------------- The registry as an object

  /** What `checkHeartbeat` reports; the age is in whole seconds. */
  datatype HeartbeatCheck = HeartbeatCheck(isActive: bool, secondsSince: int, shouldDeactivate: bool)

  class AgentRecord {
    const teeInstanceId: string
    var isActive: bool
    var lastHeartbeat: int

    constructor (tee: string, now: int)
      ensures teeInstanceId == tee && isActive && lastHeartbeat == now
    {
      teeInstanceId := tee;
      isActive, lastHeartbeat := true, now;
    }
  }

  class LocalRegistryClient {
    var currentAgent: AgentRecord?
    ghost var ever: seq<AgentRecord>

    /** Records are distinct objects and the slot holds the newest. */
    ghost predicate Valid()
      reads this, ever
    {
      && (forall i, j :: 0 <= i < j < |ever| ==> ever[i] != ever[j])
      && currentAgent == (if ever == [] then null else ever[|ever| - 1])
    }

    ghost function Contents(): Records
      reads this, ever
    {
      seq(|ever|, i requires 0 <= i < |ever| reads this, ever =>
        Record(ever[i].teeInstanceId, ever[i].isActive, ever[i].lastHeartbeat))
    }

    constructor ()
      ensures Valid() && Contents() == []
    {
      currentAgent := null;
      ever := [];
    }

    method RegisterAgent(tee: string, now: int) returns (success: bool)
      requires Valid()
      modifies this
      ensures Valid() && Contents() == Register(old(Contents()), tee, now)
      ensures success <==> !HasActive(old(Contents()))
      ensures forall a :: a in ever ==> a in old(ever) || fresh(a)
    {
      if currentAgent != null && currentAgent.isActive {
        return false;
      }
      currentAgent := new AgentRecord(tee, now);
      ever := ever + [currentAgent];
      success := true;
    }

    method Heartbeat(tee: string, timestamp: int) returns (success: bool)
      requires Valid()
      modifies ever
      ensures Valid() && Contents() == Beat(old(Contents()), tee, timestamp)
      ensures success <==> Matches(old(Contents()), tee) && HasActive(old(Contents()))
    {
      if currentAgent == null || currentAgent.teeInstanceId != tee || !currentAgent.isActive {
        return false;
      }
      currentAgent.lastHeartbeat := timestamp;
      success := true;
    }

    method CheckHeartbeat(now: int) returns (check: Option<HeartbeatCheck>)
      requires Valid()
      ensures check.None? <==> Contents() == []
      ensures check.Some? ==>
        && check.value.isActive == HasActive(Contents())
        && 1000 * check.value.secondsSince <= now - Contents()[|Contents()| - 1].lastHeartbeat
           < 1000 * (check.value.secondsSince + 1)
        && (check.value.shouldDeactivate <==> check.value.secondsSince > HEARTBEAT_TIMEOUT_SECONDS)
      ensures Overdue(Contents(), now) <==> check.Some? && check.value.shouldDeactivate && check.value.isActive
    {
      if currentAgent == null {
        return None;
      }
      var secondsSince := (now - currentAgent.lastHeartbeat) / 1000;
      check := Some(HeartbeatCheck(currentAgent.isActive, secondsSince, secondsSince > HEARTBEAT_TIMEOUT_SECONDS));
    }

    method DeactivateAgent(tee: string) returns (success: bool)
      requires Valid()
      modifies ever
      ensures Valid() && Contents() == Deactivate(old(Contents()), tee)
      ensures success <==> Matches(old(Contents()), tee)
    {
      if currentAgent == null || currentAgent.teeInstanceId != tee {
        return false;
      }
      currentAgent.isActive := false;
      success := true;
    }
  }

  // ---------------------------------------------------------------- Handlers, suspended at their awaits

  /** What a registration handler answers. */
  datatype Answer = Installed(record: nat) | AlreadyActive | Refused

  datatype Handler =
    // handleRegistrationRequest with auto-approval, on behalf of a takeover
    | RegisterCalled(owner: nat, tee: string)
    | RegisterRead(owner: nat, tee: string, seen: Option<nat>)
    | RegisterAnswered(owner: nat, tee: string, answer: Answer)
    // executeRegistration of a passed proposal
    | ExecuteCalled(tee: string)
    // processHeartbeat
    | BeatCalled(tee: string, timestamp: int)
    | BeatChecked(tee: string, timestamp: int, registered: bool)
    // checkHealth
    | HealthCalled
    | HealthChecked(due: bool)
    | HealthRead(seen: Option<nat>)
    // POST /agent/deactivate
    | DeactivateCalled(tee: string)
    | DeactivateRead(tee: string, seen: Option<nat>)
    | Finished

  const MAX_ATTEMPTS := 3

  /** `attemptTakeover`, suspended at its awaits. */
  datatype Phase =
    | Checking(attempt: nat)
    | Requesting(attempt: nat)
    | Waiting(attempt: nat, handler: nat)
    | Recovering(handler: nat)
    | Success(handler: nat)
    | LostRace
    | Failed

  datatype Takeover = Takeover(tee: string, phase: Phase)

  /** Real changes of the slot: an installation, and an active record turned inactive. */
  datatype Change = Activated(record: nat) | Deactivated(record: nat)

  datatype System = System(records: Records, handlers: seq<Handler>, takeovers: seq<Takeover>, log: seq<Change>)

  ghost const Initial: System := System([], [], [], [])

  function Current(r: Records): Option<nat> {
    if r == [] then None else Some(|r| - 1)
  }

  function Install(s: System, tee: string, now: int): System {
    if HasActive(s.records) then s
    else s.(records := Register(s.records, tee, now), log := s.log + [Activated(|s.records|)])
  }

  function TurnOff(s: System, tee: string): System {
    s.(records := Deactivate(s.records, tee),
       log := if Matches(s.records, tee) && HasActive(s.records) then s.log + [Deactivated(|s.records| - 1)] else s.log)
  }

  function SetHandler(s: System, h: nat, state: Handler): System
    requires h < |s.handlers|
  {
    s.(handlers := s.handlers[h := state])
  }

  /** Does the record a handler read before its await exist and read as active now? */
  predicate SeenActive(s: System, seen: Option<nat>) {
    seen.Some? && seen.value < |s.records| && s.records[seen.value].active
  }

  function RetryOrFail(attempt: nat): Phase {
    if attempt < MAX_ATTEMPTS then Checking(attempt + 1) else Failed
  }

  /** One handler runs to its next await. `verdict` stands for attestation and code-hash checks. */
  function RunHandler(s: System, h: nat, now: int, verdict: bool): System
    requires h < |s.handlers|
  {
    match s.handlers[h]
    case RegisterCalled(o, tee) => SetHandler(s, h, RegisterRead(o, tee, Current(s.records)))
    case RegisterRead(o, tee, seen) =>
      if SeenActive(s, seen) then SetHandler(s, h, RegisterAnswered(o, tee, AlreadyActive))
      else if !verdict then SetHandler(s, h, RegisterAnswered(o, tee, Refused))
      else if HasActive(s.records) then SetHandler(s, h, RegisterAnswered(o, tee, AlreadyActive))
      else SetHandler(Install(s, tee, now), h, RegisterAnswered(o, tee, Installed(|s.records|)))
    case RegisterAnswered(o, tee, a) => s
    case ExecuteCalled(tee) => SetHandler(Install(s, tee, now), h, Finished)
    case BeatCalled(tee, t) =>
      SetHandler(s, h, BeatChecked(tee, t, Matches(s.records, tee) && HasActive(s.records)))
    case BeatChecked(tee, t, registered) =>
      SetHandler(if registered && verdict then s.(records := Beat(s.records, tee, t)) else s, h, Finished)
    case HealthCalled => SetHandler(s, h, HealthChecked(Overdue(s.records, now)))
    case HealthChecked(due) => SetHandler(s, h, if due then HealthRead(Current(s.records)) else Finished)
    case HealthRead(seen) =>
      var off := if seen.Some? && seen.value < |s.records| then TurnOff(s, s.records[seen.value].tee) else s;
      SetHandler(off, h, Finished)
    case DeactivateCalled(tee) => SetHandler(s, h, DeactivateRead(tee, Current(s.records)))
    case DeactivateRead(tee, seen) =>
      var same := seen.Some? && seen.value < |s.records| && s.records[seen.value].tee == tee;
      SetHandler(if same then TurnOff(s, tee) else s, h, Finished)
    case Finished => s
  }

  /** What the network and the database recovery do for a takeover at its await. */
  datatype Reply = Arrives | IsLost

  function SetPhase(s: System, c: nat, p: Phase): System
    requires c < |s.takeovers|
  {
    s.(takeovers := s.takeovers[c := s.takeovers[c].(phase := p)])
  }

  /** One takeover runs to its next await. An unreachable registry reads as nobody active. */
  function RunTakeover(s: System, c: nat, reply: Reply): System
    requires c < |s.takeovers|
  {
    match s.takeovers[c].phase
    case Checking(n) =>
      SetPhase(s, c, if reply == Arrives && HasActive(s.records) then LostRace else Requesting(n))
    case Requesting(n) =>
      if reply == IsLost then SetPhase(s, c, RetryOrFail(n))
      else SetPhase(s.(handlers := s.handlers + [RegisterCalled(c, s.takeovers[c].tee)]), c, Waiting(n, |s.handlers|))
    case Waiting(n, h) =>
      if reply == IsLost then SetPhase(s, c, RetryOrFail(n))
      else if h < |s.handlers| && s.handlers[h].RegisterAnswered? then
        (match s.handlers[h].answer
         case Installed(_) => SetPhase(s, c, Recovering(h))
         case AlreadyActive => SetPhase(s, c, LostRace)
         case Refused => SetPhase(s, c, RetryOrFail(n)))
      else s
    case Recovering(h) => SetPhase(s, c, if reply == Arrives then Success(h) else Failed)
    case Success(h) => s
    case LostRace => s
    case Failed => s
  }

  datatype Event =
    | StartTakeover(tee: string)
    | StartHandler(handler: Handler)
    | StepHandler(h: nat, now: int, verdict: bool)
    | StepTakeover(c: nat, reply: Reply)

  ghost predicate Possible(s: System, e: Event) {
    match e
    case StartTakeover(tee) => true
    case StartHandler(h) =>
      h.ExecuteCalled? || h.BeatCalled? || h.HealthCalled? || h.DeactivateCalled?
    case StepHandler(h, now, verdict) => h < |s.handlers|
    case StepTakeover(c, reply) => c < |s.takeovers|
  }

  ghost function Next(s: System, e: Event): System
    requires Possible(s, e)
  {
    match e
    case StartTakeover(tee) => s.(takeovers := s.takeovers + [Takeover(tee, Checking(1))])
    case StartHandler(h) => s.(handlers := s.handlers + [h])
    case StepHandler(h, now, verdict) => RunHandler(s, h, now, verdict)
    case StepTakeover(c, reply) => RunTakeover(s, c, reply)
  }

  ghost predicate IsRun(states: seq<System>, events: seq<Event>) {
    && |states| == |events| + 1
    && states[0] == Initial
    && forall k :: 0 <= k < |events| ==>
         Possible(states[k], events[k]) && states[k + 1] == Next(states[k], events[k])
  }

  // ---------------------------------------------------------------- One agent per epoch

  /** The log alternates: record 0 on, record 0 off, record 1 on, record 1 off, ... */
  ghost predicate Alternates(log: seq<Change>) {
    forall i :: 0 <= i < |log| ==> log[i] == if i % 2 == 0 then Activated(i / 2) else Deactivated(i / 2)
  }

  /** Only the newest record can be active, and it is while the log awaits its deactivation. */
  ghost predicate OneActive(r: Records, log: seq<Change>) {
    && Alternates(log)
    && |r| == (|log| + 1) / 2
    && (forall i :: 0 <= i < |r| ==> (r[i].active <==> i == |r| - 1 && |log| % 2 == 1))
  }

  lemma InstallKeeps(s: System, tee: string, now: int)
    requires OneActive(s.records, s.log)
    ensures OneActive(Install(s, tee, now).records, Install(s, tee, now).log)
  {
  }

  lemma TurnOffKeeps(s: System, tee: string)
    requires OneActive(s.records, s.log)
    ensures OneActive(TurnOff(s, tee).records, TurnOff(s, tee).log)
  {
  }

  lemma BeatKeeps(s: System, tee: string, timestamp: int)
    requires OneActive(s.records, s.log)
    ensures OneActive(Beat(s.records, tee, timestamp), s.log)
  {
  }

  ghost predicate InstalledBy(s: System, h: nat)
    requires h < |s.handlers|
  {
    s.handlers[h].RegisterAnswered? && s.handlers[h].answer.Installed?
  }

  /** Each installed record was installed for one handler. */
  ghost predicate OneHandlerEach(s: System) {
    && (forall h :: 0 <= h < |s.handlers| && InstalledBy(s, h) ==> s.handlers[h].answer.record < |s.records|)
    && (forall g, h :: 0 <= g < h < |s.handlers| && InstalledBy(s, g) && InstalledBy(s, h) ==>
          s.handlers[g].answer.record != s.handlers[h].answer.record)
  }

  ghost predicate Serves(h: Handler, c: nat) {
    (h.RegisterCalled? || h.RegisterRead? || h.RegisterAnswered?) && h.owner == c
  }

  /** A takeover past its registration holds an installing handler of its own. */
  ghost predicate Backed(s: System, c: nat)
    requires c < |s.takeovers|
  {
    match s.takeovers[c].phase
    case Waiting(n, h) => h < |s.handlers| && Serves(s.handlers[h], c)
    case Recovering(h) => h < |s.handlers| && Serves(s.handlers[h], c) && InstalledBy(s, h)
    case Success(h) => h < |s.handlers| && Serves(s.handlers[h], c) && InstalledBy(s, h)
    case _ => true
  }

  ghost predicate OwnHandler(s: System) {
    forall c :: 0 <= c < |s.takeovers| ==> Backed(s, c)
  }

  /** The record a successful takeover installed. */
  ghost function RecordOf(s: System, c: nat): nat
    requires c < |s.takeovers| && Backed(s, c) && s.takeovers[c].phase.Success?
  {
    s.handlers[s.takeovers[c].phase.handler].answer.record
  }

  ghost predicate Safe(s: System) {
    OneActive(s.records, s.log) && OneHandlerEach(s) && OwnHandler(s)
  }

  lemma HandlerKeepsSlot(s: System, h: nat, now: int, verdict: bool)
    requires OneActive(s.records, s.log) && h < |s.handlers|
    ensures var t := RunHandler(s, h, now, verdict); OneActive(t.records, t.log)
  {
    hide OneActive, Install, TurnOff, Beat;
    match s.handlers[h]
    case RegisterRead(o, tee, seen) => InstallKeeps(s, tee, now);
    case ExecuteCalled(tee) => InstallKeeps(s, tee, now);
    case BeatChecked(tee, t, registered) => BeatKeeps(s, tee, t);
    case HealthRead(seen) =>
      if seen.Some? && seen.value < |s.records| {
        TurnOffKeeps(s, s.records[seen.value].tee);
      }
    case DeactivateRead(tee, seen) => TurnOffKeeps(s, tee);
    case _ =>
  }

  /** What one step of handler `h` does to the answers given. */
  ghost predicate AnswersKept(s: System, h: nat, t: System)
    requires h < |s.handlers|
  {
    && t.takeovers == s.takeovers && |t.handlers| == |s.handlers| && |t.records| >= |s.records|
    && (forall g :: 0 <= g < |s.handlers| && g != h ==> t.handlers[g] == s.handlers[g])
    && (s.handlers[h].RegisterAnswered? ==> t.handlers[h] == s.handlers[h])
    && (forall c: nat {:trigger Serves(t.handlers[h], c)} :: Serves(s.handlers[h], c) ==> Serves(t.handlers[h], c))
    && (!InstalledBy(s, h) && InstalledBy(t, h) ==>
          t.handlers[h].answer.record == |s.records| && |t.records| == |s.records| + 1)
  }

  lemma HandlerKeepsAnswers(s: System, h: nat, now: int, verdict: bool)
    requires h < |s.handlers|
    ensures AnswersKept(s, h, RunHandler(s, h, now, verdict))
  {
  }

  /** A handler's step neither loses an answer nor installs for anybody else. */
  lemma AnswersKeepOwners(s: System, h: nat, t: System)
    requires OneHandlerEach(s) && OwnHandler(s) && h < |s.handlers| && AnswersKept(s, h, t)
    ensures OneHandlerEach(t) && OwnHandler(t)
  {
    forall c | 0 <= c < |t.takeovers| ensures Backed(t, c) {
      assert Backed(s, c);
    }
  }

  lemma TakeoverKeepsSafe(s: System, c: nat, reply: Reply)
    requires Safe(s) && c < |s.takeovers|
    ensures Safe(RunTakeover(s, c, reply))
  {
    hide OneActive;
    var t := RunTakeover(s, c, reply);
    assert t.records == s.records && t.log == s.log && s.handlers <= t.handlers;
    forall d | 0 <= d < |t.takeovers| ensures Backed(t, d) {
      assert Backed(s, d);
    }
  }

  lemma NewHandler(s: System, h: Handler)
    requires Safe(s) && !h.RegisterAnswered?
    ensures Safe(s.(handlers := s.handlers + [h]))
  {
    var t := s.(handlers := s.handlers + [h]);
    forall c | 0 <= c < |t.takeovers| ensures Backed(t, c) {
      assert Backed(s, c);
    }
  }

  lemma NewTakeover(s: System, tee: string)
    requires Safe(s)
    ensures Safe(s.(takeovers := s.takeovers + [Takeover(tee, Checking(1))]))
  {
    var t := s.(takeovers := s.takeovers + [Takeover(tee, Checking(1))]);
    forall c | 0 <= c < |t.takeovers| ensures Backed(t, c) {
      assert c < |s.takeovers| ==> Backed(s, c);
    }
  }

  lemma NextIsSafe(s: System, e: Event)
    requires Safe(s) && Possible(s, e)
    ensures Safe(Next(s, e))
  {
    match e
    case StartTakeover(tee) => NewTakeover(s, tee);
    case StartHandler(h) => NewHandler(s, h);
    case StepHandler(h, now, verdict) =>
      HandlerKeepsSlot(s, h, now, verdict);
      HandlerKeepsAnswers(s, h, now, verdict);
      AnswersKeepOwners(s, h, RunHandler(s, h, now, verdict));
    case StepTakeover(c, reply) => TakeoverKeepsSafe(s, c, reply);
  }

  lemma {:induction false} RunIsSafe(states: seq<System>, events: seq<Event>, k: nat)
    requires IsRun(states, events) && k < |states|
    ensures Safe(states[k])
  {
    if k == 0 {
    } else {
      RunIsSafe(states, events, k - 1);
      NextIsSafe(states[k - 1], events[k - 1]);
    }
  }

  function Count(log: seq<Change>, on: bool): nat {
    if log == [] then 0
    else Count(log[..|log| - 1], on) + if log[|log| - 1].Activated? == on then 1 else 0
  }

  lemma {:induction false} AlternationCounts(log: seq<Change>)
    requires Alternates(log)
    ensures Count(log, true) == (|log| + 1) / 2 && Count(log, false) == |log| / 2
  {
    if log == [] {
    } else {
      AlternationCounts(log[..|log| - 1]);
    }
  }

  /**
   * One agent per epoch: under every interleaving, registrations exceed deactivations by
   * one while an agent is active and by none otherwise, and no two records are active.
   */
  lemma OneAgentPerEpoch(states: seq<System>, events: seq<Event>, k: nat)
    requires IsRun(states, events) && k < |states|
    ensures var s := states[k];
      && Count(s.log, true) == Count(s.log, false) + (if HasActive(s.records) then 1 else 0)
      && Count(s.log, true) == |s.records|
      && forall i :: 0 <= i < |s.records| - 1 ==> !s.records[i].active
  {
    RunIsSafe(states, events, k);
    AlternationCounts(states[k].log);
  }

  /**
   * Two takeovers that both succeed registered different records, and the earlier record
   * was deactivated before the later one was registered.
   */
  lemma TakeoversAreSeparated(states: seq<System>, events: seq<Event>, k: nat, c: nat, d: nat)
    returns (on: nat, off: nat, next: nat)
    requires IsRun(states, events) && k < |states|
    requires c < |states[k].takeovers| && d < |states[k].takeovers| && c != d
    requires states[k].takeovers[c].phase.Success? && states[k].takeovers[d].phase.Success?
    ensures Backed(states[k], c) && Backed(states[k], d)
    ensures var s := states[k];
      var i, j := RecordOf(s, c), RecordOf(s, d);
      && i != j
      && on < off < next < |s.log|
      && s.log[on] == Activated(if i < j then i else j)
      && s.log[off] == Deactivated(if i < j then i else j)
      && s.log[next] == Activated(if i < j then j else i)
  {
    var s := states[k];
    RunIsSafe(states, events, k);
    assert Backed(s, c) && Backed(s, d);
    var i, j := RecordOf(s, c), RecordOf(s, d);
    var first, second := if i < j then i else j, if i < j then j else i;
    on, off, next := 2 * first, 2 * first + 1, 2 * second;
  }

  // ---------------------------------------------------------------- What the handlers do

  /** The handler an event steps. */
  predicate StepsHandler(e: Event, h: nat) { e.StepHandler? && e.h == h }

  lemma RunTouchesOne(s: System, d: nat, now: int, verdict: bool, h: nat)
    requires d < |s.handlers| && h < |s.handlers| && h != d
    ensures h < |RunHandler(s, d, now, verdict).handlers|
    ensures RunHandler(s, d, now, verdict).handlers[h] == s.handlers[h]
  {
  }

  lemma TakeoverTouchesNone(s: System, c: nat, reply: Reply, h: nat)
    requires c < |s.takeovers| && h < |s.handlers|
    ensures h < |RunTakeover(s, c, reply).handlers| && RunTakeover(s, c, reply).handlers[h] == s.handlers[h]
  {
  }

  lemma HandlerWaits(s: System, e: Event, h: nat)
    requires Possible(s, e) && h < |s.handlers| && !StepsHandler(e, h)
    ensures h < |Next(s, e).handlers| && Next(s, e).handlers[h] == s.handlers[h]
  {
    hide RunHandler, RunTakeover;
    match e
    case StepHandler(d, now, verdict) => RunTouchesOne(s, d, now, verdict, h);
    case StepTakeover(c, reply) => TakeoverTouchesNone(s, c, reply, h);
    case _ =>
  }

  lemma {:induction false} HandlerWaitsOverRun(states: seq<System>, events: seq<Event>, j: nat, k: nat, h: nat)
    requires IsRun(states, events) && j <= k < |states| && h < |states[j].handlers|
    requires forall e :: j <= e < k ==> !StepsHandler(events[e], h)
    ensures h < |states[k].handlers| && states[k].handlers[h] == states[j].handlers[h]
  {
    if j == k {
    } else {
      HandlerWaitsOverRun(states, events, j, k - 1, h);
      HandlerWaits(states[k - 1], events[k - 1], h);
    }
  }

  /** The records with the newest one turned off. */
  function Off(r: Records): Records {
    if r == [] then r else r[..|r| - 1] + [Record(r[|r| - 1].tee, false, r[|r| - 1].lastHeartbeat)]
  }

  /** Both slots hold an agent with the same id. */
  predicate SameAgent(r: Records, r': Records) {
    r != [] && r' != [] && r[|r| - 1].tee == r'[|r'| - 1].tee
  }

  /** The three steps of a health check, from what it finds when it is called. */
  lemma HealthSteps(s: System, h: nat, now: int, verdict: bool)
    requires h < |s.handlers|
    ensures s.handlers[h] == HealthCalled ==>
      var t := RunHandler(s, h, now, verdict);
      t == s.(handlers := t.handlers) && h < |t.handlers| && t.handlers[h] == HealthChecked(Silent(s.records, now))
    ensures s.handlers[h].HealthChecked? ==>
      var t := RunHandler(s, h, now, verdict);
      && t == s.(handlers := t.handlers) && h < |t.handlers|
      && t.handlers[h] == (if !s.handlers[h].due then Finished
                           else HealthRead(if s.records == [] then None else Some(|s.records| - 1)))
    ensures s.handlers[h].HealthRead? ==>
      var t, seen := RunHandler(s, h, now, verdict), s.handlers[h].seen;
      && h < |t.handlers| && t.handlers[h] == Finished
      && var hit := seen.Some? && seen.value < |s.records|
                   && s.records[|s.records| - 1].tee == s.records[seen.value].tee;
         && t.records == (if hit then Off(s.records) else s.records)
  {
    OverdueMeansSilent(s.records, now);
    hide Silent, Overdue;
  }

  /** No record is lost and none changes its id. */
  predicate KeepsIds(r: Records, r': Records) {
    |r| <= |r'| && forall i :: 0 <= i < |r| ==> r'[i].tee == r[i].tee
  }

  lemma HandlerKeepsIds(s: System, h: nat, now: int, verdict: bool)
    requires h < |s.handlers|
    ensures KeepsIds(s.records, RunHandler(s, h, now, verdict).records)
  {
  }

  lemma NextKeepsIds(s: System, e: Event)
    requires Possible(s, e)
    ensures KeepsIds(s.records, Next(s, e).records)
  {
    hide RunHandler;
    if e.StepHandler? {
      HandlerKeepsIds(s, e.h, e.now, e.verdict);
    }
  }

  lemma KeepsIdsTransitive(a: Records, b: Records, c: Records)
    requires KeepsIds(a, b) && KeepsIds(b, c)
    ensures KeepsIds(a, c)
  {
  }

  lemma {:induction false} RecordsStay(states: seq<System>, events: seq<Event>, j: nat, k: nat)
    requires IsRun(states, events) && j <= k < |states|
    ensures KeepsIds(states[j].records, states[k].records)
  {
    if j == k {
    } else {
      hide KeepsIds;
      RecordsStay(states, events, j, k - 1);
      NextKeepsIds(states[k - 1], events[k - 1]);
      KeepsIdsTransitive(states[j].records, states[k - 1].records, states[k].records);
    }
  }

  lemma FinishedDoesNothing(s: System, h: nat, now: int, verdict: bool)
    requires h < |s.handlers|
    ensures s.handlers[h] == Finished ==> RunHandler(s, h, now, verdict) == s
  {
  }

  /**
   * A health check over a run, whatever happens between its three steps. It turns off the
   * current agent at its end exactly when the agent that was current at its call was active
   * and had been silent for more than 300 whole seconds, and the agent it read in the middle
   * has the id of the one current at the end.
   */
  lemma HealthCheckExactly(states: seq<System>, events: seq<Event>, h: nat, i: nat, j: nat, k: nat)
    requires IsRun(states, events) && i < j < k < |events|
    requires h < |states[i].handlers| && states[i].handlers[h] == HealthCalled
    requires StepsHandler(events[i], h) && StepsHandler(events[j], h) && StepsHandler(events[k], h)
    requires forall e :: i < e < k && e != j ==> !StepsHandler(events[e], h)
    ensures var called, read, acts := states[i].records, states[j].records, states[k].records;
      states[k + 1].records ==
        if Silent(called, events[i].now) && SameAgent(read, acts) then Off(acts) else acts
  {
    assert states[i + 1] == Next(states[i], events[i]) && states[j + 1] == Next(states[j], events[j]);
    assert states[k + 1] == Next(states[k], events[k]);
    RecordsStay(states, events, i, j);
    RecordsStay(states, events, j, k);
    hide RunHandler, Off;
    HealthSteps(states[i], h, events[i].now, events[i].verdict);
    HandlerWaitsOverRun(states, events, i + 1, j, h);
    HealthSteps(states[j], h, events[j].now, events[j].verdict);
    HandlerWaitsOverRun(states, events, j + 1, k, h);
    HealthSteps(states[k], h, events[k].now, events[k].verdict);
    FinishedDoesNothing(states[k], h, events[k].now, events[k].verdict);
  }

  /** With nothing in between, the silent agent and no other is turned off. */
  lemma UndisturbedHealthCheck(s: System, h: nat, now: int)
    requires h < |s.handlers| && s.handlers[h] == HealthCalled
    ensures var t := RunHandler(RunHandler(RunHandler(s, h, now, true), h, now, true), h, now, true);
      && (Silent(s.records, now) ==> OnlyNewest(s.records, t.records, false, s.records[|s.records| - 1].lastHeartbeat))
      && (!Silent(s.records, now) ==> t.records == s.records)
  {
    hide RunHandler;
    HealthSteps(s, h, now, true);
    var t := RunHandler(s, h, now, true);
    HealthSteps(t, h, now, true);
    HealthSteps(RunHandler(t, h, now, true), h, now, true);
    FinishedDoesNothing(RunHandler(t, h, now, true), h, now, true);
  }

  /** The two steps of a heartbeat. */
  lemma BeatSteps(s: System, h: nat, now: int, verdict: bool)
    requires h < |s.handlers|
    ensures s.handlers[h].BeatCalled? ==>
      var t, tee := RunHandler(s, h, now, verdict), s.handlers[h].tee;
      && t == s.(handlers := t.handlers) && h < |t.handlers|
      && t.handlers[h] == BeatChecked(tee, s.handlers[h].timestamp, IsActive(s.records, tee))
    ensures s.handlers[h].BeatChecked? ==>
      var t, tee := RunHandler(s, h, now, verdict), s.handlers[h].tee;
      && (s.handlers[h].registered && verdict && IsActive(s.records, tee) ==>
            OnlyNewest(s.records, t.records, true, s.handlers[h].timestamp))
      && (!s.handlers[h].registered || !verdict || !IsActive(s.records, tee) ==> t.records == s.records)
  {
    if s.handlers[h].BeatChecked? {
      BeatWrites(s.records, s.handlers[h].tee, s.handlers[h].timestamp);
      hide OnlyNewest, Beat;
    }
  }

  /**
   * A heartbeat over a run, whatever happens between its two steps: it moves the heartbeat of
   * the current agent to its own timestamp exactly when the agent it names is active at both
   * steps and its attestation holds.
   */
  lemma HeartbeatExactly(states: seq<System>, events: seq<Event>, h: nat, i: nat, k: nat)
    requires IsRun(states, events) && i < k < |events|
    requires h < |states[i].handlers| && states[i].handlers[h].BeatCalled?
    requires StepsHandler(events[i], h) && StepsHandler(events[k], h)
    requires forall e :: i < e < k ==> !StepsHandler(events[e], h)
    ensures var called, acts, beat := states[i].records, states[k].records, states[i].handlers[h];
      if IsActive(called, beat.tee) && IsActive(acts, beat.tee) && events[k].verdict
      then OnlyNewest(acts, states[k + 1].records, true, beat.timestamp)
      else states[k + 1].records == acts
  {
    assert states[i + 1] == Next(states[i], events[i]) && states[k + 1] == Next(states[k], events[k]);
    hide RunHandler, OnlyNewest;
    BeatSteps(states[i], h, events[i].now, events[i].verdict);
    HandlerWaitsOverRun(states, events, i + 1, k, h);
    BeatSteps(states[k], h, events[k].now, events[k].verdict);
  }

  /** The two steps of a registration. */
  lemma RegistrationSteps(s: System, h: nat, now: int, verdict: bool)
    requires h < |s.handlers|
    ensures s.handlers[h].RegisterCalled? ==>
      var t, seen := RunHandler(s, h, now, verdict), if s.records == [] then None else Some(|s.records| - 1);
      && t == s.(handlers := t.handlers) && h < |t.handlers|
      && t.handlers[h] == RegisterRead(s.handlers[h].owner, s.handlers[h].tee, seen)
    ensures s.handlers[h].RegisterRead? ==>
      var t, busy := RunHandler(s, h, now, verdict), SeenActive(s, s.handlers[h].seen);
      var done := !busy && verdict && !HasActive(s.records);
      && h < |t.handlers|
      && t.handlers[h] == RegisterAnswered(s.handlers[h].owner, s.handlers[h].tee,
           if done then Installed(|s.records|) else if busy || verdict then AlreadyActive else Refused)
      && t.records == s.records + if done then [Record(s.handlers[h].tee, true, now)] else []
  {
  }

  /**
   * A registration over a run, whatever happens between its two steps. It adds one active
   * record, under its own id and with the time of its end, exactly when its attestation holds
   * and nobody is active at its end. The agent it saw at its call, if still active, is a refusal
   * before the attestation is looked at.
   */
  lemma RegistrationExactly(states: seq<System>, events: seq<Event>, h: nat, i: nat, k: nat)
    requires IsRun(states, events) && i < k < |events|
    requires h < |states[i].handlers| && states[i].handlers[h].RegisterCalled?
    requires StepsHandler(events[i], h) && StepsHandler(events[k], h)
    requires forall e :: i < e < k ==> !StepsHandler(events[e], h)
    ensures h < |states[k + 1].handlers| && states[k + 1].handlers[h].RegisterAnswered?
    ensures var seen, acts, r := |states[i].records|, states[k].records, states[k + 1].records;
      var answer := states[k + 1].handlers[h].answer;
      && r == acts + (if answer.Installed? then [Record(states[i].handlers[h].tee, true, events[k].now)] else [])
      && (answer == Installed(|acts|) <==> events[k].verdict && !HasActive(acts))
      && (answer == Refused <==> !events[k].verdict && !(HasActive(acts) && seen == |acts|))
      && (answer == AlreadyActive <==> HasActive(acts) && (events[k].verdict || seen == |acts|))
  {
    assert states[i + 1] == Next(states[i], events[i]) && states[k + 1] == Next(states[k], events[k]);
    RecordsStay(states, events, i, k);
    RunIsSafe(states, events, k);
    hide RunHandler, OneHandlerEach, OwnHandler;
    RegistrationSteps(states[i], h, events[i].now, events[i].verdict);
    HandlerWaitsOverRun(states, events, i + 1, k, h);
    RegistrationSteps(states[k], h, events[k].now, events[k].verdict);
  }

  /** The two steps of a deactivation on request. */
  lemma DeactivationSteps(s: System, h: nat, now: int, verdict: bool)
    requires h < |s.handlers|
    ensures s.handlers[h].DeactivateCalled? ==>
      var t, seen := RunHandler(s, h, now, verdict), if s.records == [] then None else Some(|s.records| - 1);
      && t == s.(handlers := t.handlers) && h < |t.handlers|
      && t.handlers[h] == DeactivateRead(s.handlers[h].tee, seen)
    ensures s.handlers[h].DeactivateRead? ==>
      var t, tee, seen := RunHandler(s, h, now, verdict), s.handlers[h].tee, s.handlers[h].seen;
      var named := seen.Some? && seen.value < |s.records| && s.records[seen.value].tee == tee;
      t.records == if named && s.records[|s.records| - 1].tee == tee then Off(s.records) else s.records
  {
  }

  /** A deactivation over a run turns off the agent it names, if that is current at both steps. */
  lemma DeactivationExactly(states: seq<System>, events: seq<Event>, h: nat, i: nat, k: nat)
    requires IsRun(states, events) && i < k < |events|
    requires h < |states[i].handlers| && states[i].handlers[h].DeactivateCalled?
    requires StepsHandler(events[i], h) && StepsHandler(events[k], h)
    requires forall e :: i < e < k ==> !StepsHandler(events[e], h)
    ensures var called, acts, tee := states[i].records, states[k].records, states[i].handlers[h].tee;
      states[k + 1].records ==
        if SameAgent(called, acts) && acts[|acts| - 1].tee == tee then Off(acts) else acts
  {
    assert states[i + 1] == Next(states[i], events[i]) && states[k + 1] == Next(states[k], events[k]);
    RecordsStay(states, events, i, k);
    hide RunHandler, Off;
    DeactivationSteps(states[i], h, events[i].now, events[i].verdict);
    HandlerWaitsOverRun(states, events, i + 1, k, h);
    DeactivationSteps(states[k], h, events[k].now, events[k].verdict);
  }

  /** An executed proposal installs the agent it names unless somebody is active. */
  lemma ExecutionInstalls(s: System, h: nat, now: int, verdict: bool)
    requires h < |s.handlers| && s.handlers[h].ExecuteCalled?
    ensures RunHandler(s, h, now, verdict).records
         == s.records + if HasActive(s.records) then [] else [Record(s.handlers[h].tee, true, now)]
  {
  }

  /**
   * A takeover with nothing in between. Seeing an agent it has lost the race; so has it when it
   * could not see the agent but its registration was answered. With nobody active it is
   * registered if its attestation holds and then succeeds with its database; otherwise it
   * tries again, three times in all.
   */
  lemma UndisturbedTakeover(s: System, c: nat, check: Reply, now: int, verdict: bool, recovery: Reply)
    requires c < |s.takeovers| && s.takeovers[c].phase.Checking?
    ensures check == Arrives && HasActive(s.records) ==>
      RunTakeover(s, c, check) == s.(takeovers := s.takeovers[c := Takeover(s.takeovers[c].tee, LostRace)])
    ensures check == IsLost || !HasActive(s.records) ==>
      var h, n, tee := |s.handlers|, s.takeovers[c].phase.attempt, s.takeovers[c].tee;
      var asked := RunTakeover(RunTakeover(s, c, check), c, Arrives);
      && c < |asked.takeovers| && |asked.handlers| == h + 1
      && var answered := RunHandler(RunHandler(asked, h, now, verdict), h, now, verdict);
      && c < |answered.takeovers|
      && var t := RunTakeover(answered, c, Arrives);
      && c < |t.takeovers|
      && t.records == s.records + (if !HasActive(s.records) && verdict then [Record(tee, true, now)] else [])
      && (HasActive(s.records) ==> t.takeovers[c].phase == LostRace)
      && (!HasActive(s.records) && !verdict ==>
            t.takeovers[c].phase == if n < 3 then Checking(n + 1) else Failed)
      && (!HasActive(s.records) && verdict ==>
            RunTakeover(t, c, recovery).takeovers[c].phase == if recovery == Arrives then Success(h) else Failed)
  {
    if check == IsLost || !HasActive(s.records) {
      var h := |s.handlers|;
      var asked := RunTakeover(RunTakeover(s, c, check), c, Arrives);
      assert asked.records == s.records && asked.handlers == s.handlers + [RegisterCalled(c, s.takeovers[c].tee)];
      assert asked.takeovers == s.takeovers[c := s.takeovers[c].(phase := Waiting(s.takeovers[c].phase.attempt, h))];
      RegistrationSteps(asked, h, now, verdict);
      RegistrationSteps(RunHandler(asked, h, now, verdict), h, now, verdict);
      HandlerKeepsAnswers(asked, h, now, verdict);
      HandlerKeepsAnswers(RunHandler(asked, h, now, verdict), h, now, verdict);
      hide RunHandler;
    }
  }

  /** A lost reply to a request for registration costs one of the three attempts. */
  lemma LostReply(s: System, c: nat)
    requires c < |s.takeovers| && (s.takeovers[c].phase.Requesting? || s.takeovers[c].phase.Waiting?)
    ensures var n, t := s.takeovers[c].phase.attempt, RunTakeover(s, c, IsLost);
      && t == s.(takeovers := t.takeovers)
      && t.takeovers == s.takeovers[c := Takeover(s.takeovers[c].tee, if n < 3 then Checking(n + 1) else Failed)]
  {
  }

  /** One more event of a run. */
  lemma Extend(states: seq<System>, events: seq<Event>, e: Event) returns (longer: seq<System>, more: seq<Event>)
    requires IsRun(states, events) && Possible(states[|events|], e)
    ensures IsRun(longer, more) && more == events + [e]
    ensures longer == states + [Next(states[|events|], e)]
  {
    hide Possible, Next;
    longer, more := states + [Next(states[|events|], e)], events + [e];
  }

  /** The first agent is overdue, is deactivated after the check was made, and has a successor. */
  lemma SuccessorInstalled() returns (states: seq<System>, events: seq<Event>)
    ensures IsRun(states, events)
    ensures states[|events|] == System(
      [Record("a", false, 0), Record("b", true, 400_000)],
      [Finished, HealthChecked(true), Finished, Finished], [],
      [Activated(0), Deactivated(0), Activated(1)])
  {
    states, events := [Initial], [];
    assert IsRun(states, events);
    hide IsRun;
    states, events := Extend(states, events, StartHandler(ExecuteCalled("a")));
    states, events := Extend(states, events, StepHandler(0, 0, true));
    states, events := Extend(states, events, StartHandler(HealthCalled));
    states, events := Extend(states, events, StepHandler(1, 400_000, true));
    states, events := Extend(states, events, StartHandler(DeactivateCalled("a")));
    states, events := Extend(states, events, StepHandler(2, 400_000, true));
    states, events := Extend(states, events, StepHandler(2, 400_000, true));
    states, events := Extend(states, events, StartHandler(ExecuteCalled("b")));
    states, events := Extend(states, events, StepHandler(3, 400_000, true));
  }

  /**
   * A health check that was due for one agent can turn off its healthy successor: the check
   * reads the current agent again after its verdict.
   */
  lemma HealthCheckCanHitSuccessor() returns (states: seq<System>, events: seq<Event>)
    ensures IsRun(states, events) && events != []
    ensures var r, r' := states[|events| - 1].records, states[|events|].records;
      && |r| == 2 && r[1] == Record("b", true, 400_000)
      && events[|events| - 1] == StepHandler(1, 400_000, true) && !Silent(r, 400_000)
      && r' == Off(r)
  {
    states, events := SuccessorInstalled();
    states, events := Extend(states, events, StepHandler(1, 400_000, true));
    states, events := Extend(states, events, StepHandler(1, 400_000, true));
  }
}
