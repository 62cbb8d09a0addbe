/** The progress ingest loop: every decoded progress message is merged into
    the job registry and then handed to the broadcast hub. */
module ProgressIngest {
  import opened Common
  import opened Messages
  import opened DownloadStates
  import opened Downloads
  import opened Broadcasting

  /** The fields of a message that the loop passes to the registry. */
  function ProgressOf(m: ProgressMessage): (p: Progress)
    ensures p.TotalBytes == m.TotalBytes && p.DownloadedBytes == m.DownloadedBytes
    ensures p.BytesPerSecond == m.BytesPerSecond && p.Status == m.Status
    ensures p.AgentId == m.AgentId && p.Message == m.Message
  {
    Progress(m.TotalBytes, m.DownloadedBytes, m.BytesPerSecond, m.Status, m.AgentId, m.Message)
  }

  /** The registry after one message handled at time `now`. */
  function Apply(downloads: map<string, DownloadState>, m: ProgressMessage, now: Time): (r: map<string, DownloadState>)
    ensures r.Keys == downloads.Keys
    ensures forall k :: k in downloads && k != m.DownloadId ==> r[k] == downloads[k]
    ensures m.DownloadId in downloads ==> r[m.DownloadId] == Merge(downloads[m.DownloadId], ProgressOf(m), now)
  {
    if m.DownloadId in downloads then downloads[m.DownloadId := Merge(downloads[m.DownloadId], ProgressOf(m), now)]
    else downloads
  }

  /** The registry after the loop has consumed `rs`, record `i` being handled
      at time `clock[i]`. */
  function Replay(downloads: map<string, DownloadState>, rs: seq<Polled<ProgressMessage>>, clock: seq<Time>): map<string, DownloadState>
    requires |clock| == |rs|
    decreases |rs|
  {
    if rs == [] then downloads
    else match rs[0]
      case BadJson => downloads
      case Decoded(m) => Replay(Apply(downloads, m, clock[0]), rs[1..], clock[1..])
      case _ => Replay(downloads, rs[1..], clock[1..])
  }

  /** The hub's queues after broadcasting `ms` in order. */
  function DeliveredAll(queues: Queues, ms: seq<ProgressMessage>): Queues
    decreases |ms|
  {
    if ms == [] then queues else Delivered(DeliveredAll(queues, ms[..|ms| - 1]), ms[|ms| - 1])
  }

  /** Broadcasting a sequence appends exactly that sequence to every queue
      and adds or removes no subscriber. */
  lemma {:induction false} DeliveredAllAppends(queues: Queues, ms: seq<ProgressMessage>)
    ensures DeliveredAll(queues, ms).Keys == queues.Keys
    ensures forall id :: id in queues ==> DeliveredAll(queues, ms)[id] == queues[id] + ms
    decreases |ms|
  {
    if ms != [] {
      var init := ms[..|ms| - 1];
      DeliveredAllAppends(queues, init);
      assert init + [ms[|ms| - 1]] == ms;
    }
  }

  /** The progress ingest loop never creates or removes a job: messages for
      unknown ids are dropped. */
  lemma {:induction false} ReplayKeepsJobs(downloads: map<string, DownloadState>, rs: seq<Polled<ProgressMessage>>, clock: seq<Time>)
    requires |clock| == |rs|
    ensures Replay(downloads, rs, clock).Keys == downloads.Keys
    decreases |rs|
  {
    if rs != [] && !rs[0].BadJson? {
      var next := if rs[0].Decoded? then Apply(downloads, rs[0].msg, clock[0]) else downloads;
      ReplayKeepsJobs(next, rs[1..], clock[1..]);
    }
  }

  /** A job that no acted-on message names keeps its record. */
  lemma {:induction false} ReplayKeepsUnnamed(downloads: map<string, DownloadState>, rs: seq<Polled<ProgressMessage>>,
                                               clock: seq<Time>, id: string)
    requires |clock| == |rs|
    requires id in downloads
    requires forall m :: m in Accepted(rs) ==> m.DownloadId != id
    ensures id in Replay(downloads, rs, clock) && Replay(downloads, rs, clock)[id] == downloads[id]
    decreases |rs|
  {
    if rs != [] && !rs[0].BadJson? {
      var next := if rs[0].Decoded? then Apply(downloads, rs[0].msg, clock[0]) else downloads;
      assert forall m :: m in Accepted(rs[1..]) ==> m in Accepted(rs);
      ReplayKeepsUnnamed(next, rs[1..], clock[1..], id);
    }
  }

  /** Every record stays stored under its own id. */
  lemma {:induction false} ReplayKeepsKeyed(downloads: map<string, DownloadState>, rs: seq<Polled<ProgressMessage>>, clock: seq<Time>)
    requires |clock| == |rs|
    requires Keyed(downloads)
    ensures Keyed(Replay(downloads, rs, clock))
    decreases |rs|
  {
    if rs != [] && !rs[0].BadJson? {
      var next := if rs[0].Decoded? then Apply(downloads, rs[0].msg, clock[0]) else downloads;
      ReplayKeepsKeyed(next, rs[1..], clock[1..]);
    }
  }

  /** Consuming one more decoded record after a run with no undecodable
      record applies that message to the registry the run left. */
  lemma {:induction false} ReplaySnoc(downloads: map<string, DownloadState>, rs: seq<Polled<ProgressMessage>>,
                                      clock: seq<Time>, m: ProgressMessage, t: Time)
    requires |clock| == |rs|
    requires forall i :: 0 <= i < |rs| ==> !rs[i].BadJson?
    ensures Replay(downloads, rs + [Decoded(m)], clock + [t]) == Apply(Replay(downloads, rs, clock), m, t)
    decreases |rs|
  {
    var all, times := rs + [Decoded(m)], clock + [t];
    if rs == [] {
      assert all[1..] == [] && times[1..] == [];
    } else {
      assert all[0] == rs[0] && all[1..] == rs[1..] + [Decoded(m)];
      assert times[0] == clock[0] && times[1..] == clock[1..] + [t];
      var next := if rs[0].Decoded? then Apply(downloads, rs[0].msg, clock[0]) else downloads;
      assert forall i :: 0 <= i < |rs[1..]| ==> rs[1..][i] == rs[i + 1];
      ReplaySnoc(next, rs[1..], clock[1..], m, t);
    }
  }

  /** A message delivered twice in a row (at-least-once delivery) leaves the
      registry as one delivery at the later time would. */
  lemma ReplayRedelivery(downloads: map<string, DownloadState>, m: ProgressMessage, t1: Time, t2: Time)
    ensures Replay(downloads, [Decoded(m), Decoded(m)], [t1, t2]) == Replay(downloads, [Decoded(m)], [t2])
  {
    var once := Apply(downloads, m, t1);
    var one: seq<Polled<ProgressMessage>> := [Decoded(m)];
    assert [Decoded(m), Decoded(m)][1..] == one && [t1, t2][1..] == [t2];
    assert one[1..] == [] && [t2][1..] == [];
    assert Replay(once, one, [t2]) == Apply(once, m, t2);
    assert Replay(downloads, one, [t2]) == Apply(downloads, m, t2);
    if m.DownloadId in downloads {
      MergeRedelivered(downloads[m.DownloadId], ProgressOf(m), t1, t2);
      assert Apply(once, m, t2) == Apply(downloads, m, t2);
    }
  }

  /** The registry shows the message's overwritten fields for its job. */
  ghost predicate Reflects(downloads: map<string, DownloadState>, m: ProgressMessage)
  {
    m.DownloadId in downloads ==>
      && downloads[m.DownloadId].DownloadedBytes == m.DownloadedBytes
      && downloads[m.DownloadId].BytesPerSecond == m.BytesPerSecond
      && downloads[m.DownloadId].Status == m.Status
  }

  /** The registry replay from index `i` on, one record at a time. */
  lemma ReplayAt(downloads: map<string, DownloadState>, rs: seq<Polled<ProgressMessage>>, clock: seq<Time>, i: nat)
    requires |clock| == |rs| && i < |rs| && !rs[i].BadJson?
    ensures Replay(downloads, rs[i..], clock[i..])
         == Replay(if rs[i].Decoded? then Apply(downloads, rs[i].msg, clock[i]) else downloads, rs[i + 1..], clock[i + 1..])
  {
    assert rs[i..][0] == rs[i] && rs[i..][1..] == rs[i + 1..];
    assert clock[i..][0] == clock[i] && clock[i..][1..] == clock[i + 1..];
  }

  /** Broadcasting what one record contributes extends the broadcast history
      by that record's message, if any. */
  lemma DeliveredAllStep(queues: Queues, done: seq<ProgressMessage>, r: Polled<ProgressMessage>)
    ensures DeliveredAll(queues, done + AcceptedFrom(r))
         == if r.Decoded? then Delivered(DeliveredAll(queues, done), r.msg) else DeliveredAll(queues, done)
  {
    var next := done + AcceptedFrom(r);
    if r.Decoded? {
      assert next[..|next| - 1] == done;
    } else {
      assert next == done;
    }
  }

  /** After a message is applied, the registry shows it. */
  lemma ApplyReflects(downloads: map<string, DownloadState>, m: ProgressMessage, now: Time)
    ensures Reflects(Apply(downloads, m, now), m)
  {
  }

  /** One turn of the loop on a record that does not crash it: a decoded
      message is merged into the registry at time `now`, and only then
      broadcast; anything else is skipped. `atBroadcast` holds the registry
      as it was when the message was broadcast. */
  method HandleRecord(store: DownloadStore, hub: ProgressBroadcaster, r: Polled<ProgressMessage>, now: Time)
    returns (ghost atBroadcast: seq<map<string, DownloadState>>)
    requires store.Valid() && !r.BadJson?
    modifies store, hub
    ensures store.Valid()
    ensures store.downloads == (if r.Decoded? then Apply(old(store.downloads), r.msg, now) else old(store.downloads))
    ensures hub.subscribers == (if r.Decoded? then Delivered(old(hub.subscribers), r.msg) else old(hub.subscribers))
    ensures atBroadcast == (if r.Decoded? then [store.downloads] else [])
  {
    atBroadcast := [];
    if r.Decoded? {
      var msg := r.msg;
      store.UpdateProgress(msg.DownloadId, msg.TotalBytes, msg.DownloadedBytes, msg.BytesPerSecond,
                           msg.Status, msg.AgentId, msg.Message, now);
      atBroadcast := [store.downloads];
      hub.Broadcast(msg);
    }
  }

  /** Registry snapshots taken at each broadcast: each has the job set
      `jobs` and already shows the message broadcast at that point. */
  ghost predicate SnapshotsReflect(snapshots: seq<map<string, DownloadState>>, ms: seq<ProgressMessage>, jobs: set<string>)
  {
    |snapshots| == |ms| &&
    forall k :: 0 <= k < |snapshots| ==> snapshots[k].Keys == jobs && Reflects(snapshots[k], ms[k])
  }

  lemma SnapshotsExtend(snapshots: seq<map<string, DownloadState>>, ms: seq<ProgressMessage>, jobs: set<string>,
                        seen: seq<map<string, DownloadState>>, r: Polled<ProgressMessage>)
    requires SnapshotsReflect(snapshots, ms, jobs)
    requires r.Decoded? ==> |seen| == 1 && seen[0].Keys == jobs && Reflects(seen[0], r.msg)
    requires !r.Decoded? ==> seen == []
    ensures SnapshotsReflect(snapshots + seen, ms + AcceptedFrom(r), jobs)
  {
  }

  /** The consume loop over already-received records. Record `i` is handled
      at time `clock[i]`. `atBroadcast[k]` is the registry at the moment the
      k-th accepted message is broadcast: it already reflects that message. */
  method ConsumeProgress(store: DownloadStore, hub: ProgressBroadcaster,
                         records: seq<Polled<ProgressMessage>>, clock: seq<Time>)
    returns (exit: LoopExit, ghost atBroadcast: seq<map<string, DownloadState>>)
    requires |clock| == |records|
    requires store.Valid()
    modifies store, hub
    ensures store.Valid()
    ensures exit == Exit(records)
    ensures store.downloads == Replay(old(store.downloads), records, clock)
    ensures hub.subscribers == DeliveredAll(old(hub.subscribers), Accepted(records))
    ensures |atBroadcast| == |Accepted(records)|
    ensures forall k :: 0 <= k < |atBroadcast| ==>
      atBroadcast[k].Keys == old(store.downloads).Keys && Reflects(atBroadcast[k], Accepted(records)[k])
  {
    ghost var registry0, queues0 := store.downloads, hub.subscribers;
    ghost var all := Accepted(records);
    ghost var final := Replay(registry0, records, clock);
    var i := 0;
    ghost var done: seq<ProgressMessage> := [];
    atBroadcast := [];
    while i < |records|
      invariant 0 <= i <= |records|
      invariant store.Valid()
      invariant Replay(store.downloads, records[i..], clock[i..]) == final
      invariant store.downloads.Keys == registry0.Keys
      invariant done + Accepted(records[i..]) == all
      invariant hub.subscribers == DeliveredAll(queues0, done)
      invariant forall j :: 0 <= j < i ==> !records[j].BadJson?
      invariant SnapshotsReflect(atBroadcast, done, registry0.Keys)
    {
      var r := records[i];
      if r.BadJson? {
        assert records[i..][0] == r;
        assert Accepted(records[i..]) == [];
        assert done == all;
        ExitAtFirstBad(records, i);
        exit := Crashed(i);
        return;
      }
      ReplayAt(store.downloads, records, clock, i);
      AcceptedAt(records, i);
      if r.Decoded? {
        ApplyReflects(store.downloads, r.msg, clock[i]);
      }
      DeliveredAllStep(queues0, done, r);
      var seen := HandleRecord(store, hub, r, clock[i]);
      SnapshotsExtend(atBroadcast, done, registry0.Keys, seen, r);
      atBroadcast := atBroadcast + seen;
      ghost var rest := Accepted(records[i + 1..]);
      ConcatAssoc(done, AcceptedFrom(r), rest);
      done := done + AcceptedFrom(r);
      i := i + 1;
    }
    assert records[i..] == [] && clock[i..] == [];
    assert done + [] == done;
    ExitAtFirstBad(records, i);
    exit := Stopped;
  }
}
