/** The agent liveness registry: the latest heartbeat of every agent, and the
    read-time "available" view over it. */
module Agents {
  import opened Common

  /** What the registry holds for one agent. */
  datatype AgentInfo = AgentInfo(AgentId: string, LastSeen: Time, CurrentDownloads: int)

  /** Strict lexicographic order on strings by code point: characters
      compared left to right, a proper prefix first. */
  predicate Precedes(a: string, b: string)
  {
    if b == [] then false
    else if a == [] then true
    else if a[0] != b[0] then a[0] < b[0]
    else Precedes(a[1..], b[1..])
  }

  lemma {:induction false} PrecedesIrreflexive(a: string)
    ensures !Precedes(a, a)
  {
    if a != [] {
      PrecedesIrreflexive(a[1..]);
    }
  }

  lemma {:induction false} PrecedesTransitive(a: string, b: string, c: string)
    requires Precedes(a, b) && Precedes(b, c)
    ensures Precedes(a, c)
  {
    if a != [] && a[0] == b[0] && b[0] == c[0] {
      PrecedesTransitive(a[1..], b[1..], c[1..]);
    }
  }

  lemma {:induction false} PrecedesTotal(a: string, b: string)
    requires a != b
    ensures Precedes(a, b) || Precedes(b, a)
  {
    if a != [] && b != [] && a[0] == b[0] {
      assert a == [a[0]] + a[1..] && b == [b[0]] + b[1..];
      PrecedesTotal(a[1..], b[1..]);
    }
  }

  /** The least id of a non-empty set. */
  ghost function Least(ids: set<string>): (k: string)
    requires ids != {}
    ensures k in ids
    ensures forall j :: j in ids && j != k ==> Precedes(k, j)
    decreases ids
  {
    var x :| x in ids;
    var rest := ids - {x};
    if rest == {} then
      assert ids == {x};
      x
    else
      var y := Least(rest);
      if Precedes(x, y) then
        forall j | j in rest && j != y ensures Precedes(x, j) {
          PrecedesTransitive(x, y, j);
        }
        x
      else
        PrecedesTotal(x, y);
        y
  }

  /** The ids of a set in ascending order. */
  ghost function Ascending(ids: set<string>): (r: seq<string>)
    ensures |r| == |ids|
    ensures forall i :: 0 <= i < |r| ==> r[i] in ids
    ensures forall i, j :: 0 <= i < j < |r| ==> Precedes(r[i], r[j])
    decreases ids
  {
    if ids == {} then []
    else
      var k := Least(ids);
      var tail := Ascending(ids - {k});
      var r := [k] + tail;
      assert forall i :: 1 <= i < |r| ==> r[i] == tail[i - 1] && r[i] in ids - {k};
      r
  }

  /** Listing the ids leaves none out. */
  lemma {:induction false} AscendingListsAll(ids: set<string>, k: string)
    requires k in ids
    ensures k in Ascending(ids)
    decreases ids
  {
    var n := Least(ids);
    if k != n {
      AscendingListsAll(ids - {n}, k);
    }
  }

  /** The agents whose last heartbeat is no older than `cutoff`. */
  ghost function LiveIds(agents: map<string, AgentInfo>, cutoff: Time): (ids: set<string>)
  {
    set k | k in agents && agents[k].LastSeen >= cutoff
  }

  class AgentStore {
    var agents: map<string, AgentInfo>

    /** Every record is stored under its own id. */
    ghost predicate Valid()
      reads this
    {
      forall k :: k in agents ==> agents[k].AgentId == k
    }

    constructor ()
      ensures Valid() && agents == map[]
    {
      agents := map[];
    }

    /** Replaces the whole record of `agentId`; no field of an earlier record survives. */
    method UpsertAgent(agentId: string, lastSeen: Time, currentDownloads: int)
      requires Valid()
      modifies this
      ensures Valid()
      ensures agents == old(agents)[agentId := AgentInfo(agentId, lastSeen, currentDownloads)]
    {
      agents := agents[agentId := AgentInfo(agentId, lastSeen, currentDownloads)];
    }

    /** The agents seen at or after `now - maxAge`, in ascending id order. */
    ghost function GetAvailableAgents(maxAge: Duration, now: Time): (r: seq<AgentInfo>)
      requires Valid()
      reads this
      ensures forall i :: 0 <= i < |r| ==> r[i].AgentId in agents && agents[r[i].AgentId] == r[i]
      ensures forall i :: 0 <= i < |r| ==> r[i].LastSeen >= now - maxAge
      ensures forall k :: k in agents && agents[k].LastSeen >= now - maxAge ==> agents[k] in r
      ensures forall i, j :: 0 <= i < j < |r| ==> Precedes(r[i].AgentId, r[j].AgentId)
      ensures forall i, j :: 0 <= i < j < |r| ==> r[i].AgentId != r[j].AgentId
    {
      var cutoff := now - maxAge;
      var live := LiveIds(agents, cutoff);
      var ids := Ascending(live);
      var r := ValuesAt(agents, ids);
      forall k | k in agents && agents[k].LastSeen >= cutoff ensures agents[k] in r {
        AscendingListsAll(live, k);
        var i :| 0 <= i < |ids| && ids[i] == k;
        assert r[i] == agents[k];
      }
      forall i, j | 0 <= i < j < |r| ensures r[i].AgentId != r[j].AgentId {
        PrecedesIrreflexive(ids[i]);
      }
      r
    }
  }
}
