/** The job registry: an in-memory dictionary from download id to the
    job's record, filled by the submission path and updated by the progress
    ingest loop. */
module Downloads {
  import opened Common
  import opened DownloadStates

  /** The fields a progress update carries into the registry. */
  datatype Progress = Progress(
    TotalBytes: Option<int>,
    DownloadedBytes: int,
    BytesPerSecond: real,
    Status: string,
    AgentId: Option<string>,
    Message: Option<string>)

  /** The statuses on which a job's completion time is (re-)stamped. */
  predicate IsTerminal(status: string) {
    status == "Completed" || status == "Failed"
  }

  /** The partial-field merge of a progress update into an existing record,
      made at time `now`. */
  function Merge(existing: DownloadState, p: Progress, now: Time): (r: DownloadState)
    // identity and submission data are never touched
    ensures r.DownloadId == existing.DownloadId && r.Url == existing.Url
    ensures r.EnqueuedAt == existing.EnqueuedAt
    // always overwritten, whatever the current status
    ensures r.DownloadedBytes == p.DownloadedBytes && r.BytesPerSecond == p.BytesPerSecond
    ensures r.Status == p.Status
    // overwritten only by a non-null value
    ensures r.TotalBytes == (if p.TotalBytes.Some? then p.TotalBytes.value else existing.TotalBytes)
    ensures r.AgentId == (if p.AgentId.Some? then p.AgentId else existing.AgentId)
    ensures r.ErrorMessage == (if p.Message.Some? then p.Message else existing.ErrorMessage)
    // stamped on every terminal status, kept otherwise
    ensures IsTerminal(p.Status) ==> r.CompletedAt == Some(now)
    ensures !IsTerminal(p.Status) ==> r.CompletedAt == existing.CompletedAt
  {
    existing.(
      TotalBytes := p.TotalBytes.GetOr(existing.TotalBytes),
      DownloadedBytes := p.DownloadedBytes,
      BytesPerSecond := p.BytesPerSecond,
      Status := p.Status,
      AgentId := if p.AgentId.Some? then p.AgentId else existing.AgentId,
      ErrorMessage := if p.Message.Some? then p.Message else existing.ErrorMessage,
      CompletedAt := if IsTerminal(p.Status) then Some(now) else existing.CompletedAt)
  }

  /** Applying the same update again (a redelivery) changes nothing but the
      completion stamp, which takes the later time. */
  lemma MergeRedelivered(s: DownloadState, p: Progress, first: Time, again: Time)
    ensures Merge(Merge(s, p, first), p, again) == Merge(s, p, again)
  {
  }

  /** An update that carries every optional field, and does not move the
      status from terminal to non-terminal, wipes out the effect of any
      earlier one. */
  lemma MergeLastWins(s: DownloadState, p: Progress, q: Progress, t1: Time, t2: Time)
    requires q.TotalBytes.Some? && q.AgentId.Some? && q.Message.Some?
    requires IsTerminal(q.Status) || !IsTerminal(p.Status)
    ensures Merge(Merge(s, p, t1), q, t2) == Merge(s, q, t2)
  {
  }

  /** Once known, the agent and the error message are never forgotten. */
  lemma MergeKeepsKnownValues(s: DownloadState, p: Progress, now: Time)
    ensures s.AgentId.Some? ==> Merge(s, p, now).AgentId.Some?
    ensures s.ErrorMessage.Some? ==> Merge(s, p, now).ErrorMessage.Some?
    ensures s.CompletedAt.Some? ==> Merge(s, p, now).CompletedAt.Some?
  {
  }

  /** Every record is stored under its own id. */
  ghost predicate Keyed(m: map<string, DownloadState>) {
    forall k :: k in m ==> m[k].DownloadId == k
  }

  /** The id of a most recently enqueued job. */
  ghost function Newest(m: map<string, DownloadState>): (k: string)
    requires m != map[]
    ensures k in m
    ensures forall j :: j in m ==> m[j].EnqueuedAt <= m[k].EnqueuedAt
    decreases m.Keys
  {
    var x :| x in m;
    var rest := m - {x};
    assert forall j :: j in m ==> j == x || j in rest;
    if rest == map[] then
      x
    else
      var y := Newest(rest);
      if m[x].EnqueuedAt >= m[y].EnqueuedAt then x else y
  }

  /** All ids of `m`, each once, most recently enqueued first. */
  ghost function NewestFirst(m: map<string, DownloadState>): (ids: seq<string>)
    ensures |ids| == |m|
    ensures forall i :: 0 <= i < |ids| ==> ids[i] in m
    ensures forall i, j :: 0 <= i < j < |ids| ==> ids[i] != ids[j]
    ensures forall i, j :: 0 <= i < j < |ids| ==> m[ids[i]].EnqueuedAt >= m[ids[j]].EnqueuedAt
    decreases m.Keys
  {
    if m == map[] then []
    else
      var k := Newest(m);
      var rest := m - {k};
      assert rest.Keys == m.Keys - {k};
      assert |rest| == |m| - 1;
      var tail := NewestFirst(rest);
      var ids := [k] + tail;
      assert forall i :: 1 <= i < |ids| ==> ids[i] == tail[i - 1] && ids[i] in rest;
      ids
  }

  /** Listing the ids leaves none out. */
  lemma {:induction false} NewestFirstListsAll(m: map<string, DownloadState>, k: string)
    requires k in m
    ensures k in NewestFirst(m)
    decreases m.Keys
  {
    var n := Newest(m);
    var rest := m - {n};
    assert rest.Keys == m.Keys - {n};
    if k != n {
      NewestFirstListsAll(rest, k);
    }
  }

  class DownloadStore {
    var downloads: map<string, DownloadState>

    ghost predicate Valid()
      reads this
    {
      Keyed(downloads)
    }

    constructor ()
      ensures Valid() && downloads == map[]
    {
      downloads := map[];
    }

    /** Stores `state` under its id; a record already there is replaced. */
    method Add(state: DownloadState)
      requires Valid()
      modifies this
      ensures Valid()
      ensures downloads == old(downloads)[state.DownloadId := state]
    {
      downloads := downloads[state.DownloadId := state];
    }

    /** The record stored under `downloadId`, or null. */
    function Get(downloadId: string): (r: Option<DownloadState>)
      reads this
      ensures r.Some? <==> downloadId in downloads
      ensures r.Some? ==> r.value == downloads[downloadId]
      ensures Valid() && r.Some? ==> r.value.DownloadId == downloadId
    {
      if downloadId in downloads then Some(downloads[downloadId]) else None
    }

    /** Every stored record exactly once, most recently enqueued first. */
    ghost function GetAll(): (r: seq<DownloadState>)
      reads this
      ensures |r| == |downloads|
      ensures forall i :: 0 <= i < |r| ==> r[i] in downloads.Values
      ensures forall k :: k in downloads ==> downloads[k] in r
      ensures forall i, j :: 0 <= i < j < |r| ==> r[i].EnqueuedAt >= r[j].EnqueuedAt
      ensures Valid() ==> forall i, j :: 0 <= i < j < |r| ==> r[i].DownloadId != r[j].DownloadId
    {
      var ids := NewestFirst(downloads);
      var r := ValuesAt(downloads, ids);
      assert forall k :: k in downloads ==> downloads[k] in r by {
        forall k | k in downloads ensures downloads[k] in r {
          NewestFirstListsAll(downloads, k);
          var i :| 0 <= i < |ids| && ids[i] == k;
          assert r[i] == downloads[k];
        }
      }
      r
    }

    /** Merges a progress update into the record of `downloadId` at time
        `now`; an unknown id is ignored. */
    method UpdateProgress(downloadId: string, totalBytes: Option<int>, downloadedBytes: int,
                          bytesPerSecond: real, status: string, agentId: Option<string>,
                          message: Option<string>, now: Time)
      requires Valid()
      modifies this
      ensures Valid()
      ensures downloads.Keys == old(downloads).Keys
      ensures downloadId !in old(downloads) ==> downloads == old(downloads)
      ensures downloadId in old(downloads) ==>
        downloads == old(downloads)[downloadId := Merge(old(downloads)[downloadId],
          Progress(totalBytes, downloadedBytes, bytesPerSecond, status, agentId, message), now)]
    {
      if downloadId !in downloads {
        return;
      }
      var existing := downloads[downloadId];
      var updated := Merge(existing, Progress(totalBytes, downloadedBytes, bytesPerSecond, status, agentId, message), now);
      downloads := downloads[downloadId := updated];
    }
  }
}
