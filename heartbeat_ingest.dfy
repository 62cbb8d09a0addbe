/** The heartbeat ingest loop: every decoded heartbeat replaces its agent's
    record in the liveness registry. */
module HeartbeatIngest {
  import opened Common
  import opened Messages
  import opened Agents

  /** The record a heartbeat stores for its agent. */
  function InfoOf(h: HeartbeatMessage): (a: AgentInfo)
    ensures a.AgentId == h.AgentId && a.LastSeen == h.LastSeen && a.CurrentDownloads == h.CurrentDownloads
  {
    AgentInfo(h.AgentId, h.LastSeen, h.CurrentDownloads)
  }

  /** The registry after the heartbeats `hs`, applied in order. */
  function Upserted(agents: map<string, AgentInfo>, hs: seq<HeartbeatMessage>): map<string, AgentInfo>
    decreases |hs|
  {
    if hs == [] then agents
    else
      var h := hs[|hs| - 1];
      Upserted(agents, hs[..|hs| - 1])[h.AgentId := InfoOf(h)]
  }

  /** The ids the heartbeats in `hs` name. */
  function Named(hs: seq<HeartbeatMessage>): (ids: set<string>)
    ensures forall i :: 0 <= i < |hs| ==> hs[i].AgentId in ids
    ensures forall id :: id in ids ==> exists i :: 0 <= i < |hs| && hs[i].AgentId == id
  {
    set i | 0 <= i < |hs| :: hs[i].AgentId
  }

  /** Heartbeats register their agents and never drop one: an agent, once
      seen, stays in the registry. */
  lemma {:induction false} UpsertedKeys(agents: map<string, AgentInfo>, hs: seq<HeartbeatMessage>)
    ensures Upserted(agents, hs).Keys == agents.Keys + Named(hs)
    decreases |hs|
  {
    if hs != [] {
      var init := hs[..|hs| - 1];
      UpsertedKeys(agents, init);
      assert Named(hs) == Named(init) + {hs[|hs| - 1].AgentId} by {
        forall id | id in Named(hs) ensures id in Named(init) + {hs[|hs| - 1].AgentId} {
          var i :| 0 <= i < |hs| && hs[i].AgentId == id;
          if i < |hs| - 1 {
            assert init[i] == hs[i];
          }
        }
        forall id | id in Named(init) ensures id in Named(hs) {
          var i :| 0 <= i < |init| && init[i].AgentId == id;
          assert hs[i] == init[i];
        }
      }
    }
  }

  /** An agent no heartbeat names keeps its record. */
  lemma {:induction false} UpsertedKeepsUnnamed(agents: map<string, AgentInfo>, hs: seq<HeartbeatMessage>, id: string)
    requires id in agents
    requires forall i :: 0 <= i < |hs| ==> hs[i].AgentId != id
    ensures id in Upserted(agents, hs) && Upserted(agents, hs)[id] == agents[id]
    decreases |hs|
  {
    if hs != [] {
      var init := hs[..|hs| - 1];
      assert forall i :: 0 <= i < |init| ==> init[i] == hs[i];
      UpsertedKeepsUnnamed(agents, init, id);
    }
  }

  /** An agent holds exactly what its last heartbeat said: the registry keeps
      no maximum, so a heartbeat consumed later wins even if it is older. */
  lemma {:induction false} UpsertedHoldsLast(agents: map<string, AgentInfo>, hs: seq<HeartbeatMessage>, i: nat)
    requires i < |hs|
    requires forall j :: i < j < |hs| ==> hs[j].AgentId != hs[i].AgentId
    ensures hs[i].AgentId in Upserted(agents, hs)
    ensures Upserted(agents, hs)[hs[i].AgentId] == InfoOf(hs[i])
    decreases |hs|
  {
    if i < |hs| - 1 {
      var init := hs[..|hs| - 1];
      assert forall j :: i < j < |init| ==> init[j] == hs[j];
      UpsertedHoldsLast(agents, init, i);
    }
  }

  /** A heartbeat older than the one already stored still replaces it. */
  lemma OlderHeartbeatOverwrites(agents: map<string, AgentInfo>, newer: HeartbeatMessage, older: HeartbeatMessage)
    requires newer.AgentId == older.AgentId && older.LastSeen < newer.LastSeen
    ensures Upserted(agents, [newer, older])[newer.AgentId].LastSeen < newer.LastSeen
  {
    var hs := [newer, older];
    assert hs[..1] == [newer] && [newer][..0] == [];
  }

  /** The consume loop over already-received heartbeat records. */
  method ConsumeHeartbeats(agentStore: AgentStore, records: seq<Polled<HeartbeatMessage>>)
    returns (exit: LoopExit)
    requires agentStore.Valid()
    modifies agentStore
    ensures agentStore.Valid()
    ensures exit == Exit(records)
    ensures agentStore.agents == Upserted(old(agentStore.agents), Accepted(records))
  {
    var i := 0;
    ghost var done: seq<HeartbeatMessage> := [];
    while i < |records|
      invariant 0 <= i <= |records|
      invariant agentStore.Valid()
      invariant done + Accepted(records[i..]) == Accepted(records)
      invariant agentStore.agents == Upserted(old(agentStore.agents), done)
      invariant forall j :: 0 <= j < i ==> !records[j].BadJson?
    {
      var r := records[i];
      if r.BadJson? {
        assert records[i..][0] == r;
        assert Accepted(records[i..]) == [];
        assert done == Accepted(records);
        ExitAtFirstBad(records, i);
        exit := Crashed(i);
        return;
      }
      AcceptedAt(records, i);
      ConcatAssoc(done, AcceptedFrom(r), Accepted(records[i + 1..]));
      if r.Decoded? {
        var msg := r.msg;
        agentStore.UpsertAgent(msg.AgentId, msg.LastSeen, msg.CurrentDownloads);
        assert (done + [msg])[..|done|] == done;
      } else {
        assert done + [] == done;
      }
      done := done + AcceptedFrom(r);
      i := i + 1;
    }
    assert records[i..] == [];
    assert done + [] == done;
    ExitAtFirstBad(records, i);
    exit := Stopped;
  }
}
