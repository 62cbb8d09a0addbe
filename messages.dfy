/** The three wire messages carried by the bus (queue, progress, heartbeat),
    and what one poll of a consumer hands to an ingest loop. */
module Messages {
  import opened Common

  /** A job placed on the queue channel by the submission path. */
  datatype QueueMessage = QueueMessage(DownloadId: string, Url: string, EnqueuedAt: Time)

  /** A progress report for one job. `AgentId` is declared non-nullable on the
      dispatcher side, but deserialisation does not enforce that, and the store
      treats it as nullable, so it is optional here. The `Timestamp` field is
      never read by the dispatcher and is not part of this model. */
  datatype ProgressMessage = ProgressMessage(
    DownloadId: string,
    AgentId: Option<string>,
    TotalBytes: Option<int>,
    DownloadedBytes: int,
    BytesPerSecond: real,
    Status: string,
    Message: Option<string>)

  /** A liveness report of one agent. */
  datatype HeartbeatMessage = HeartbeatMessage(AgentId: string, LastSeen: Time, CurrentDownloads: int)

  /** What one turn of a consume loop gets from the bus:
      - ConsumeFailed: `Consume` threw a `ConsumeException` (logged, loop goes on);
      - NoValue: the record or its value is null (skipped);
      - NullJson: the value deserialises to null, i.e. the JSON text `null` (skipped);
      - BadJson: the value is not valid JSON for the message type, so the
        deserialiser throws an exception that nothing in the loop catches;
      - Decoded(msg): a message. */
  datatype Polled<M> = ConsumeFailed | NoValue | NullJson | BadJson | Decoded(msg: M)

  /** How a consume loop ends: `Stopped` when its input is exhausted (standing
      for the shutdown signal), `Crashed(at)` when the record at index `at`
      raised an exception the loop does not catch. */
  datatype LoopExit = Stopped | Crashed(at: nat)

  /** The messages a consume loop acts on, in consumption order: the decoded
      ones, up to the first record that crashes the loop. */
  function Accepted<M>(rs: seq<Polled<M>>): (ms: seq<M>)
    ensures |ms| <= |rs|
    ensures forall m :: m in ms ==> Decoded(m) in rs
  {
    if rs == [] then []
    else match rs[0]
      case BadJson => []
      case Decoded(m) => [m] + Accepted(rs[1..])
      case _ => Accepted(rs[1..])
  }

  /** What one record contributes to the accepted messages. */
  function AcceptedFrom<M>(r: Polled<M>): (ms: seq<M>)
    ensures |ms| <= 1
  {
    if r.Decoded? then [r.msg] else []
  }

  /** The accepted messages from index `i` on, one record at a time. */
  lemma AcceptedAt<M>(rs: seq<Polled<M>>, i: nat)
    requires i < |rs| && !rs[i].BadJson?
    ensures Accepted(rs[i..]) == AcceptedFrom(rs[i]) + Accepted(rs[i + 1..])
  {
    assert rs[i..][0] == rs[i] && rs[i..][1..] == rs[i + 1..];
  }

  /** Where a consume loop over `rs` stops. */
  function Exit<M>(rs: seq<Polled<M>>): (e: LoopExit)
    ensures e.Crashed? ==> e.at < |rs| && rs[e.at].BadJson?
    ensures e.Crashed? ==> forall i :: 0 <= i < e.at ==> !rs[i].BadJson?
    ensures e.Stopped? ==> forall i :: 0 <= i < |rs| ==> !rs[i].BadJson?
  {
    if rs == [] then Stopped
    else if rs[0].BadJson? then Crashed(0)
    else match Exit(rs[1..])
      case Stopped => Stopped
      case Crashed(i) => Crashed(i + 1)
  }

  /** A loop stops at the first undecodable record, and only there. */
  lemma {:induction false} ExitAtFirstBad<M>(rs: seq<Polled<M>>, i: nat)
    requires i <= |rs|
    requires forall j :: 0 <= j < i ==> !rs[j].BadJson?
    ensures i < |rs| && rs[i].BadJson? ==> Exit(rs) == Crashed(i)
    ensures i == |rs| ==> Exit(rs) == Stopped
  {
    if rs != [] && i > 0 {
      assert forall j :: 0 <= j < i - 1 ==> rs[1..][j] == rs[j + 1];
      ExitAtFirstBad(rs[1..], i - 1);
    }
  }

  /** Records after the one that crashes the loop are never acted on. */
  lemma {:induction false} NothingAcceptedAfterCrash<M>(rs: seq<Polled<M>>, tail: seq<Polled<M>>)
    requires Exit(rs).Crashed?
    ensures Accepted(rs + tail) == Accepted(rs)
    ensures Exit(rs + tail) == Exit(rs)
  {
    assert rs != [];
    if rs[0].BadJson? {
      assert (rs + tail)[0] == rs[0];
    } else {
      assert (rs + tail)[1..] == rs[1..] + tail;
      NothingAcceptedAfterCrash(rs[1..], tail);
    }
  }

  /** The indices, from `i` on, of the records a loop acts on: every decoded
      record before the first undecodable one, in increasing order. */
  function AcceptedIndices<M>(rs: seq<Polled<M>>, i: nat): (idx: seq<nat>)
    requires i <= |rs|
    ensures forall k :: 0 <= k < |idx| ==> i <= idx[k] < |rs| && rs[idx[k]].Decoded?
    ensures forall k :: 0 < k < |idx| ==> idx[k - 1] < idx[k]
    ensures forall j :: i <= j < |rs| && rs[j].Decoded? && (forall l :: i <= l < j ==> !rs[l].BadJson?) ==> j in idx
    decreases |rs| - i
  {
    if i == |rs| || rs[i].BadJson? then []
    else if rs[i].Decoded? then [i] + AcceptedIndices(rs, i + 1)
    else AcceptedIndices(rs, i + 1)
  }

  /** The accepted messages are the messages of those records, in the order
      of their records: a subsequence of the decoded messages. */
  lemma {:induction false} AcceptedInOrder<M>(rs: seq<Polled<M>>, i: nat)
    requires i <= |rs|
    ensures |Accepted(rs[i..])| == |AcceptedIndices(rs, i)|
    ensures forall k :: 0 <= k < |AcceptedIndices(rs, i)| ==> Accepted(rs[i..])[k] == rs[AcceptedIndices(rs, i)[k]].msg
    decreases |rs| - i
  {
    if i < |rs| {
      if rs[i].BadJson? {
        assert rs[i..][0] == rs[i];
      } else {
        AcceptedAt(rs, i);
        AcceptedInOrder(rs, i + 1);
      }
    }
  }

  /** A run that does not crash can be followed by more records: the loop
      acts on the messages of both, in order. */
  lemma {:induction false} AcceptedAppend<M>(rs: seq<Polled<M>>, tail: seq<Polled<M>>)
    requires Exit(rs).Stopped?
    ensures Accepted(rs + tail) == Accepted(rs) + Accepted(tail)
    ensures Exit(tail).Stopped? ==> Exit(rs + tail).Stopped?
    ensures Exit(tail).Crashed? ==> Exit(rs + tail) == Crashed(|rs| + Exit(tail).at)
  {
    if rs == [] {
      assert rs + tail == tail;
    } else {
      assert (rs + tail)[0] == rs[0] && (rs + tail)[1..] == rs[1..] + tail;
      AcceptedAppend(rs[1..], tail);
      if rs[0].Decoded? {
        ConcatAssoc([rs[0].msg], Accepted(rs[1..]), Accepted(tail));
      }
    }
  }

  /** A loop that crashes at record `c` has acted on exactly what a loop
      over the records before `c` acts on, and that shorter run stops
      normally: every decoded record before the crash is acted on. */
  lemma AcceptedBeforeCrash<M>(rs: seq<Polled<M>>, c: nat)
    requires Exit(rs) == Crashed(c)
    ensures Exit(rs[..c]).Stopped?
    ensures Accepted(rs) == Accepted(rs[..c])
    ensures forall j :: 0 <= j < c && rs[j].Decoded? ==> rs[j].msg in Accepted(rs)
  {
    ExitAtFirstBad(rs[..c], c);
    assert rs == rs[..c] + rs[c..];
    AcceptedAppend(rs[..c], rs[c..]);
    assert rs[c..][0].BadJson?;
    assert Accepted(rs[..c]) + [] == Accepted(rs[..c]);
    forall j | 0 <= j < c && rs[j].Decoded?
      ensures rs[j].msg in Accepted(rs)
    {
      assert rs[..c][j] == rs[j];
      AcceptedWithoutCrash(rs[..c], rs[j].msg);
    }
  }

  /** With no undecodable record, every decoded message is acted on, and only those. */
  lemma {:induction false} AcceptedWithoutCrash<M>(rs: seq<Polled<M>>, m: M)
    requires Exit(rs).Stopped?
    ensures m in Accepted(rs) <==> Decoded(m) in rs
  {
    if rs != [] {
      AcceptedWithoutCrash(rs[1..], m);
      assert rs == [rs[0]] + rs[1..];
    }
  }
}
