/** How the pieces fit together: the agent's reports as the dispatcher's
    registry and the browser's list take them in. */
module Pipeline {
  import opened Common
  import opened Messages
  import opened DownloadStates
  import opened Downloads
  import opened ProgressIngest
  import opened Worker
  import opened ClientDownloads

  /** A record as the list endpoint serialises it for the browser,
      including the derived percentage. */
  function ClientView(s: DownloadState): (c: ClientDownload)
    ensures c.downloadId == s.DownloadId && c.url == s.Url && c.status == s.Status
    ensures c.enqueuedAt == s.EnqueuedAt && c.completedAt == s.CompletedAt
    ensures c.totalBytes == s.TotalBytes && c.downloadedBytes == s.DownloadedBytes
    ensures c.bytesPerSecond == s.BytesPerSecond
    ensures c.agentId == s.AgentId && c.errorMessage == s.ErrorMessage
    ensures c.percentComplete == PercentComplete(s)
  {
    ClientDownload(s.DownloadId, s.Url, s.Status, s.EnqueuedAt, s.TotalBytes, s.DownloadedBytes,
                   s.BytesPerSecond, s.AgentId, s.ErrorMessage, s.CompletedAt, PercentComplete(s))
  }

  /** The event the progress stream sends for a broadcast message: every
      field but the timestamp. */
  function EventOf(m: ProgressMessage): (ev: ProgressEvent)
    ensures ev.downloadId == m.DownloadId && ev.agentId == m.AgentId && ev.totalBytes == m.TotalBytes
    ensures ev.downloadedBytes == m.DownloadedBytes && ev.bytesPerSecond == m.BytesPerSecond
    ensures ev.status == m.Status && ev.message == m.Message
  {
    ProgressEvent(m.DownloadId, m.AgentId, m.TotalBytes, m.DownloadedBytes, m.BytesPerSecond, m.Status, m.Message)
  }

  /** For a message with a positive total, the browser's merge of the
      streamed event into its copy of a record gives the copy of the
      registry's merged record, except for the completion time, which the
      browser never updates. */
  lemma ClientTracksServer(s: DownloadState, m: ProgressMessage, now: Time)
    requires m.TotalBytes.Some? && m.TotalBytes.value > 0
    ensures MergeEvent(ClientView(s), EventOf(m)) == ClientView(Merge(s, ProgressOf(m), now)).(completedAt := s.CompletedAt)
  {
  }

  /** Without a total in the message the two views part: the browser keeps
      its percentage, while the registry recomputes it from the new count
      against the total it already has. */
  lemma ClientKeepsPercentWithoutTotal(s: DownloadState, m: ProgressMessage, now: Time)
    requires m.TotalBytes.None? && s.TotalBytes > 0
    requires 0 <= s.DownloadedBytes < m.DownloadedBytes <= s.TotalBytes
    ensures MergeEvent(ClientView(s), EventOf(m)).percentComplete == PercentComplete(s)
    ensures PercentComplete(Merge(s, ProgressOf(m), now)) > PercentComplete(s)
  {
    var after := Merge(s, ProgressOf(m), now);
    PercentBelowTotal(s);
    PercentBelowTotal(after);
    var t := s.TotalBytes as real;
    assert 100.0 * s.DownloadedBytes as real < 100.0 * m.DownloadedBytes as real;
    assert 100.0 * s.DownloadedBytes as real / t < 100.0 * m.DownloadedBytes as real / t by {
      RatioStrict(100.0 * s.DownloadedBytes as real, 100.0 * m.DownloadedBytes as real, t);
    }
  }

  lemma RatioStrict(a: real, b: real, t: real)
    requires a < b && t > 0.0
    ensures a / t < b / t
  {
    assert a / t * t == a && b / t * t == b;
  }

  /** The first report of a fetch and a failure report both carry a total of
      0, not "unknown", so the registry forgets the total it had and shows
      0%. A failure also stamps the completion time and records the
      exception's message. */
  lemma ZeroTotalReportsResetRegistry(s: DownloadState, agentId: string, message: string, now: Time)
    ensures var after := Merge(s, ProgressOf(Started(agentId, s.DownloadId)), now);
      && after.TotalBytes == 0 && after.DownloadedBytes == 0 && PercentComplete(after) == 0.0
      && after.Status == "Downloading" && after.AgentId == Some(agentId)
      && after.CompletedAt == s.CompletedAt && after.ErrorMessage == s.ErrorMessage
    ensures var after := Merge(s, ProgressOf(Failed(agentId, s.DownloadId, message)), now);
      && after.TotalBytes == 0 && after.DownloadedBytes == 0 && PercentComplete(after) == 0.0
      && after.Status == "Failed" && after.CompletedAt == Some(now) && after.ErrorMessage == Some(message)
  {
  }

  /** A failure report after some progress leaves the browser showing the
      old percentage while the registry shows 0%. */
  lemma FailureAfterProgressViewsDisagree(s: DownloadState, agentId: string, message: string, now: Time)
    requires 0 < s.DownloadedBytes && 0 < s.TotalBytes
    ensures var m := Failed(agentId, s.DownloadId, message);
      && PercentComplete(Merge(s, ProgressOf(m), now)) == 0.0
      && MergeEvent(ClientView(s), EventOf(m)).percentComplete == PercentComplete(s)
      && PercentComplete(s) > 0.0
  {
    var t := s.TotalBytes as real;
    var d := 100.0 * s.DownloadedBytes as real;
    assert d / t * t == d;
    assert d / t > 0.0;
  }

  /** The progress records the agent's reports become on the bus. */
  function AsRecords(ms: seq<ProgressMessage>): (rs: seq<Polled<ProgressMessage>>)
    ensures |rs| == |ms|
    ensures forall i :: 0 <= i < |ms| ==> rs[i] == Decoded(ms[i])
  {
    seq(|ms|, i requires 0 <= i < |ms| => Decoded(ms[i]))
  }

  /** End to end: when a fetch whose headers report a success reads its
      whole body, and some bytes arrive and the Content-Length, if any, is
      positive and no larger than what was read, then once the ingest loop
      has consumed all of that job's reports, the registry shows the job
      Completed, at 100%, with every byte read and a completion time. */
  lemma {:induction false} CompletedFetchReachesFull(downloads: map<string, DownloadState>, id: string, agentId: string,
                                                    interval: int, resp: Response, clock: seq<Time>)
    requires id in downloads
    requires resp.Answered? && IsSuccess(resp.statusCode) && ReadsEnd(resp.body)
    requires BytesRead(resp.body) > 0
    requires resp.contentLength.Some? ==> 0 < resp.contentLength.value <= BytesRead(resp.body)
    requires |clock| == |JobReports(agentId, interval, id, resp)|
    ensures var after := Replay(downloads, AsRecords(JobReports(agentId, interval, id, resp)), clock);
      && id in after
      && after[id].Status == "Completed"
      && after[id].DownloadedBytes == BytesRead(resp.body)
      && PercentComplete(after[id]) == 100.0
      && after[id].CompletedAt.Some?
  {
    var ms := JobReports(agentId, interval, id, resp);
    JobReportsShape(agentId, interval, id, resp);
    SuccessfulFetchReports(agentId, interval, id, resp);
    var n := |ms| - 1;
    var last := ms[n];
    var rs := AsRecords(ms);
    var init, initClock := AsRecords(ms[..n]), clock[..n];
    assert rs == init + [Decoded(last)];
    assert clock == initClock + [clock[n]];
    ReplaySnoc(downloads, init, initClock, last, clock[n]);
    var before := Replay(downloads, init, initClock);
    ReplayKeepsJobs(downloads, init, initClock);
    assert last.DownloadId == id;
    var after := Merge(before[id], ProgressOf(last), clock[n]);
    assert Replay(downloads, rs, clock)[id] == after;
    assert after.TotalBytes == resp.contentLength.GetOr(BytesRead(resp.body));
  }
}
