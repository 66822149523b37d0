/** Backup agents: their priority, the position they are told, and failover along the list. */
module BackupAgents {
  import opened Wrappers

  datatype Agent = Agent(endpoint: string, registeredAt: int, lastHeartbeat: int, streak: nat)

  type Agents = map<string, Agent>

  const GRACE_MS := 2_100_000

  /** `a` comes no later than `b` in order of priority: longer streak first, then older. */
  predicate NoLater(a: Agent, b: Agent) {
    a.streak > b.streak || (a.streak == b.streak && a.registeredAt <= b.registeredAt)
  }

  /** A longer streak outranks any date; with equal streaks the older registration comes first. */
  lemma RankMeans(a: Agent, b: Agent)
    ensures NoLater(a, b) <==>
      a.streak >= b.streak && (a.streak == b.streak ==> a.registeredAt <= b.registeredAt)
  {
  }

  predicate SameRank(a: Agent, b: Agent) {
    a.streak == b.streak && a.registeredAt == b.registeredAt
  }

  /** The agents that come no later than `id`. */
  function Ahead(agents: Agents, id: string): set<string>
    requires id in agents
  {
    set k | k in agents && NoLater(agents[k], agents[id])
  }

  lemma AheadMeans(agents: Agents, id: string)
    requires id in agents
    ensures Ahead(agents, id) == set k | k in agents &&
      (agents[k].streak > agents[id].streak ||
       (agents[k].streak == agents[id].streak && agents[k].registeredAt <= agents[id].registeredAt))
  {
  }

  /** Re-registering keeps the streak and the date of first registration. */
  function Registered(agents: Agents, id: string, endpoint: string, now: int): Agents {
    agents[id := if id in agents then agents[id].(endpoint := endpoint, lastHeartbeat := now)
                 else Agent(endpoint, now, now, 0)]
  }

  /** A heartbeat may name a new endpoint; an empty one counts as none. */
  function Beaten(agents: Agents, id: string, endpoint: Option<string>, now: int): Agents
    requires id in agents
  {
    var a := agents[id];
    var named := if endpoint.Some? && endpoint.value != "" then endpoint.value else a.endpoint;
    agents[id := Agent(named, a.registeredAt, now, if now - a.lastHeartbeat <= GRACE_MS then a.streak + 1 else 0)]
  }

  /**
   * Registering again moves nobody in the order of priority; a newcomer, whose clock is
   * not behind any registration, comes last.
   */
  lemma RegisteringKeepsOrder(agents: Agents, id: string, endpoint: string, now: int)
    ensures var after := Registered(agents, id, endpoint, now);
      if id in agents then forall k :: k in agents ==> k in after && Ahead(after, k) == Ahead(agents, k)
      else (forall k :: k in agents ==> agents[k].registeredAt <= now) ==> Ahead(after, id) == agents.Keys + {id}
  {
  }

  /** Registering names the endpoint, counts as a heartbeat and changes no other agent. */
  lemma RegistrationWrites(agents: Agents, id: string, endpoint: string, now: int)
    ensures var after := Registered(agents, id, endpoint, now);
      && after.Keys == agents.Keys + {id} && after - {id} == agents - {id}
      && after[id].endpoint == endpoint && after[id].lastHeartbeat == now
      && (id in agents ==> after[id].streak == agents[id].streak && after[id].registeredAt == agents[id].registeredAt)
      && (id !in agents ==> after[id].streak == 0 && after[id].registeredAt == now)
  {
  }

  /**
   * A heartbeat is dated now, takes over an endpoint that is named, grows the streak by one
   * if it comes within 35 minutes of the last one and ends it otherwise, and changes no
   * other agent and no date of registration.
   */
  lemma HeartbeatWrites(agents: Agents, id: string, endpoint: Option<string>, now: int)
    requires id in agents
    ensures var a, after := agents[id], Beaten(agents, id, endpoint, now);
      && after.Keys == agents.Keys && after - {id} == agents - {id}
      && after[id].lastHeartbeat == now && after[id].registeredAt == a.registeredAt
      && (forall e :: e != "" && endpoint == Some(e) ==> after[id].endpoint == e)
      && (endpoint == None || endpoint == Some("") ==> after[id].endpoint == a.endpoint)
      && (now - a.lastHeartbeat <= 35 * 60 * 1000 ==> after[id].streak == a.streak + 1)
      && (now - a.lastHeartbeat > 35 * 60 * 1000 ==> after[id].streak == 0)
  {
  }

  class BackupTable {
    var agents: Agents

    constructor ()
      ensures agents == map[]
    {
      agents := map[];
    }

    method RegisterBackupAgent(id: string, endpoint: string, now: int) returns (position: nat)
      modifies this
      ensures agents == Registered(old(agents), id, endpoint, now)
      ensures id in agents
      ensures position == |set k | k in agents &&
        (agents[k].streak > agents[id].streak ||
         (agents[k].streak == agents[id].streak && agents[k].registeredAt <= agents[id].registeredAt))|
      ensures id !in old(agents) && (forall k :: k in old(agents) ==> old(agents)[k].registeredAt <= now) ==>
        position == |agents|
    {
      RegisteringKeepsOrder(agents, id, endpoint, now);
      hide Ahead, NoLater;
      if id in agents {
        agents := agents[id := agents[id].(endpoint := endpoint, lastHeartbeat := now)];
      } else {
        agents := agents[id := Agent(endpoint, now, now, 0)];
      }
      position := |Ahead(agents, id)|;
      AheadMeans(agents, id);
      assert agents.Keys == old(agents).Keys + {id} && |agents| == |agents.Keys|;
    }

    method Heartbeat(id: string, endpoint: Option<string>, now: int) returns (known: bool)
      modifies this
      ensures known <==> id in old(agents)
      ensures agents == if known then Beaten(old(agents), id, endpoint, now) else old(agents)
    {
      if id !in agents {
        return false;
      }
      var onTime := now - agents[id].lastHeartbeat <= GRACE_MS;
      var streak := if onTime then agents[id].streak + 1 else 0;
      if endpoint.Some? && endpoint.value != "" {
        agents := agents[id := agents[id].(lastHeartbeat := now, endpoint := endpoint.value, streak := streak)];
      } else {
        agents := agents[id := agents[id].(lastHeartbeat := now, streak := streak)];
      }
      known := true;
    }
  }

  // ---------------------------------------------------------------- Heartbeats in a row

  datatype Beat = Beat(endpoint: Option<string>, now: int)

  function Beats(agents: Agents, id: string, beats: seq<Beat>): (after: Agents)
    requires id in agents
    ensures after.Keys == agents.Keys
  {
    if beats == [] then agents
    else
      var n := |beats| - 1;
      Beaten(Beats(agents, id, beats[..n]), id, beats[n].endpoint, beats[n].now)
  }

  /** Heartbeat `i` comes within the grace window of the one before it. */
  predicate OnTime(agents: Agents, id: string, beats: seq<Beat>, i: nat)
    requires id in agents && i < |beats|
  {
    beats[i].now - (if i == 0 then agents[id].lastHeartbeat else beats[i - 1].now) <= GRACE_MS
  }

  lemma LastBeat(agents: Agents, id: string, beats: seq<Beat>)
    requires id in agents
    ensures Beats(agents, id, beats)[id].lastHeartbeat
         == if beats == [] then agents[id].lastHeartbeat else beats[|beats| - 1].now
  {
  }

  /** The streak counts the heartbeats since the last late one, or adds all of them when none was late. */
  lemma {:induction false} StreakOfRun(agents: Agents, id: string, beats: seq<Beat>, k: nat)
    requires id in agents && k <= |beats|
    requires forall i :: k <= i < |beats| ==> OnTime(agents, id, beats, i)
    requires k > 0 ==> !OnTime(agents, id, beats, k - 1)
    ensures Beats(agents, id, beats)[id].streak == (if k == 0 then agents[id].streak else 0) + |beats| - k
  {
    if beats == [] {
    } else {
      var n := |beats| - 1;
      LastBeat(agents, id, beats[..n]);
      if k <= n {
        forall i | k <= i < n
          ensures OnTime(agents, id, beats[..n], i)
        {
          assert OnTime(agents, id, beats, i);
        }
        StreakOfRun(agents, id, beats[..n], k);
        assert OnTime(agents, id, beats, n);
      }
    }
  }

  // ---------------------------------------------------------------- The list

  /** A listing `getBackupAgents` may return; the order among equals is left to the database. */
  ghost predicate PriorityList(agents: Agents, list: seq<string>) {
    && (forall i :: 0 <= i < |list| ==> list[i] in agents)
    && (forall k :: k in agents ==> k in list)
    && (forall i, j :: 0 <= i < j < |list| ==> list[i] != list[j])
    && (forall i, j :: 0 <= i < j < |list| ==> NoLater(agents[list[i]], agents[list[j]]))
  }

  /** Along the list streaks never grow, and among equal streaks no agent follows a younger one. */
  lemma ListIsByStreakThenAge(agents: Agents, list: seq<string>)
    requires forall i :: 0 <= i < |list| ==> list[i] in agents
    requires forall k :: k in agents ==> k in list
    requires forall i, j :: 0 <= i < j < |list| ==> list[i] != list[j]
    ensures PriorityList(agents, list) <==> forall i, j :: 0 <= i < j < |list| ==>
      && agents[list[i]].streak >= agents[list[j]].streak
      && (agents[list[i]].streak == agents[list[j]].streak ==>
            agents[list[i]].registeredAt <= agents[list[j]].registeredAt)
  {
    hide NoLater;
    forall i, j | 0 <= i < j < |list|
      ensures NoLater(agents[list[i]], agents[list[j]]) <==>
        && agents[list[i]].streak >= agents[list[j]].streak
        && (agents[list[i]].streak == agents[list[j]].streak ==>
              agents[list[i]].registeredAt <= agents[list[j]].registeredAt)
    {
      RankMeans(agents[list[i]], agents[list[j]]);
    }
  }

  /** Those that come no later than `id` are a prefix of the list. */
  lemma {:induction false} AheadIsPrefix(agents: Agents, list: seq<string>, id: string, n: nat) returns (q: nat)
    requires PriorityList(agents, list) && id in agents && n <= |list|
    ensures q <= n
    ensures forall i :: 0 <= i < q ==> NoLater(agents[list[i]], agents[id])
    ensures forall i :: q <= i < n ==> !NoLater(agents[list[i]], agents[id])
    decreases n
  {
    if n == 0 {
      q := 0;
    } else {
      q := AheadIsPrefix(agents, list, id, n - 1);
      if q == n - 1 && NoLater(agents[list[n - 1]], agents[id]) {
        q := n;
      }
      assert q < n - 1 ==> NoLater(agents[list[q]], agents[list[n - 1]]);
    }
  }

  lemma {:induction false} PrefixSize(list: seq<string>, q: nat)
    requires q <= |list| && forall i, j :: 0 <= i < j < |list| ==> list[i] != list[j]
    ensures |set i | 0 <= i < q :: list[i]| == q
  {
    if q == 0 {
    } else {
      PrefixSize(list, q - 1);
      assert (set i | 0 <= i < q :: list[i]) == (set i | 0 <= i < q - 1 :: list[i]) + {list[q - 1]};
    }
  }

  /**
   * The position told to an agent is its place in the list, counted from one; among
   * equals it is the last place of the group.
   */
  lemma PositionIsPlace(agents: Agents, list: seq<string>, id: string)
    requires PriorityList(agents, list) && id in agents
    ensures var p := |Ahead(agents, id)|;
      && 1 <= p <= |list|
      && SameRank(agents[list[p - 1]], agents[id])
      && (p < |list| ==> !SameRank(agents[list[p]], agents[id]) && NoLater(agents[id], agents[list[p]]))
      && ((forall k :: k in agents && k != id ==> !SameRank(agents[k], agents[id])) ==> list[p - 1] == id)
  {
    var q := AheadIsPrefix(agents, list, id, |list|);
    PrefixSize(list, q);
    var prefix := set i | 0 <= i < q :: list[i];
    forall k ensures k in prefix <==> k in Ahead(agents, id) {
      if k in agents {
        var i :| 0 <= i < |list| && list[i] == k;
      }
    }
    assert prefix == Ahead(agents, id);
    var place :| 0 <= place < |list| && list[place] == id;
    assert place < q;
    assert place < q - 1 ==> NoLater(agents[list[place]], agents[list[q - 1]]);
  }

  // ---------------------------------------------------------------- Failover

  /** What contacting one backup came to. */
  datatype Contact = Unreachable | StatusRefused | NotReady | ProposalRefused | ProposalAccepted

  /** `attemptOrderedFailover`: the first backup on the list that answers and is accepted. */
  method AttemptOrderedFailover(backups: seq<string>, contacts: seq<Contact>) returns (r: Option<nat>)
    requires |contacts| == |backups|
    ensures r.None? <==> forall i :: 0 <= i < |backups| ==> contacts[i] != ProposalAccepted
    ensures r.Some? ==> r.value < |backups| && contacts[r.value] == ProposalAccepted
    ensures r.Some? ==> forall i :: 0 <= i < r.value ==> contacts[i] != ProposalAccepted
  {
    if |backups| == 0 {
      return None;
    }
    for i := 0 to |backups|
      invariant forall j :: 0 <= j < i ==> contacts[j] != ProposalAccepted
    {
      if contacts[i] == Unreachable || contacts[i] == StatusRefused || contacts[i] == NotReady {
        continue;
      }
      if contacts[i] == ProposalAccepted {
        return Some(i);
      }
    }
    r := None;
  }

  /** Along the priority list the backup chosen outranks every other that would have been accepted. */
  method FailoverByPriority(table: BackupTable, list: seq<string>, contacts: seq<Contact>) returns (r: Option<string>)
    requires PriorityList(table.agents, list) && |contacts| == |list|
    ensures r.None? <==> forall i :: 0 <= i < |list| ==> contacts[i] != ProposalAccepted
    ensures r.Some? ==> exists n :: 0 <= n < |list| && list[n] == r.value && contacts[n] == ProposalAccepted
    ensures r.Some? ==> r.value in table.agents
    ensures r.Some? ==> forall i :: 0 <= i < |list| && contacts[i] == ProposalAccepted ==>
      NoLater(table.agents[r.value], table.agents[list[i]])
  {
    var n := AttemptOrderedFailover(list, contacts);
    r := if n.Some? then Some(list[n.value]) else None;
  }
}
