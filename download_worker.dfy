/** The agent's download worker: it takes jobs off the queue one at a time,
    fetches each over HTTP and reports progress on the progress channel. */
module Worker {
  import opened Common
  import opened Messages

  /** The progress throttle used when none is configured, in milliseconds. */
  const DefaultProgressIntervalMs: int := 200

  /** One read of the response body: `Read(count, atMs)` returns `count`
      bytes when the download stopwatch shows `atMs` milliseconds (a zero
      count is the end of the stream); `ReadFails(message)` throws. */
  datatype Step = Read(count: nat, atMs: real) | ReadFails(message: string)

  /** What a GET of a job's URL yields. `TransportFails` is an exception
      before any response arrives. `Answered` carries the status code, the
      message `EnsureSuccessStatusCode` throws for it when it is not a
      success, the Content-Length header, and the body's reads; a body whose
      reads run out ends as a zero read at `endAtMs`. */
  datatype Response =
    | TransportFails(message: string)
    | Answered(statusCode: int, statusError: string, contentLength: Option<int>, body: seq<Step>, endAtMs: real)

  /** An intermediate report made during the read loop. */
  datatype Tick = Tick(downloaded: int, rate: real, atMs: real)

  /** How the read loop ends: at the end of the stream (at time `atMs`), or
      with an exception. */
  datatype PassEnd = EndOfStream(atMs: real) | Broken(message: string)

  /** The outcome of the read loop: the reports it made, the byte count it
      reached and how it ended. */
  datatype Pass = Pass(ticks: seq<Tick>, downloaded: int, end: PassEnd)

  /** The statuses `EnsureSuccessStatusCode` lets through. */
  predicate IsSuccess(statusCode: int) {
    200 <= statusCode <= 299
  }

  /** Bytes per second after `downloaded` bytes in `atMs` milliseconds; 0
      when no time has elapsed. */
  function Rate(downloaded: int, atMs: real): (r: real)
    ensures atMs > 0.0 ==> r * atMs == downloaded as real * 1000.0
    ensures atMs <= 0.0 ==> r == 0.0
    ensures atMs > 0.0 && downloaded >= 0 ==> r >= 0.0
  {
    if atMs > 0.0 then downloaded as real * 1000.0 / atMs else 0.0
  }

  /** Whether a report is due: the whole milliseconds elapsed since the last
      report have reached the interval. Since the interval is a whole number
      of milliseconds, that is the case exactly when the interval has
      elapsed. */
  predicate Due(atMs: real, lastSendMs: real, interval: int): (due: bool)
    ensures due <==> atMs >= lastSendMs + interval as real
  {
    (atMs - lastSendMs).Floor >= interval
  }

  /** The read loop over `body`, having read `downloaded` bytes so far, the
      last report having been made at `lastSendMs`. */
  function Transfer(body: seq<Step>, endAtMs: real, interval: int, downloaded: int, lastSendMs: real): Pass
    decreases |body|
  {
    if body == [] then Pass([], downloaded, EndOfStream(endAtMs))
    else match body[0]
      case ReadFails(m) => Pass([], downloaded, Broken(m))
      case Read(n, at) =>
        if n == 0 then Pass([], downloaded, EndOfStream(at))
        else
          var d := downloaded + n;
          if Due(at, lastSendMs, interval) then
            var rest := Transfer(body[1..], endAtMs, interval, d, at);
            rest.(ticks := [Tick(d, Rate(d, at), at)] + rest.ticks)
          else Transfer(body[1..], endAtMs, interval, d, lastSendMs)
  }

  /** The bytes the reads of `body` return before the stream ends or fails:
      the sum of the read counts up to the first zero read. */
  function BytesRead(body: seq<Step>): (n: nat)
    decreases |body|
  {
    if body == [] || body[0].ReadFails? || body[0].count == 0 then 0
    else body[0].count + BytesRead(body[1..])
  }

  /** Whether the reads of `body` end without an exception. */
  predicate ReadsEnd(body: seq<Step>)
    decreases |body|
  {
    body == [] || (body[0].Read? && (body[0].count == 0 || ReadsEnd(body[1..])))
  }

  /** The read loop counts every byte returned before the end, and ends
      normally exactly when no read throws before the end. */
  lemma {:induction false} TransferCounts(body: seq<Step>, endAtMs: real, interval: int, downloaded: int, lastSendMs: real)
    ensures Transfer(body, endAtMs, interval, downloaded, lastSendMs).downloaded == downloaded + BytesRead(body)
    ensures Transfer(body, endAtMs, interval, downloaded, lastSendMs).end.EndOfStream? <==> ReadsEnd(body)
    decreases |body|
  {
    if body != [] && body[0].Read? && body[0].count != 0 {
      var at := body[0].atMs;
      var d := downloaded + body[0].count;
      TransferCounts(body[1..], endAtMs, interval, d, at);
      TransferCounts(body[1..], endAtMs, interval, d, lastSendMs);
    }
  }

  /** One read that returns bytes: the count grows, and a report is made
      if one is due. */
  lemma TransferOneRead(body: seq<Step>, endAtMs: real, interval: int, downloaded: int, lastSendMs: real)
    requires body != [] && body[0].Read? && body[0].count != 0
    ensures var here := Transfer(body, endAtMs, interval, downloaded, lastSendMs);
      var d := downloaded + body[0].count;
      var at := body[0].atMs;
      var due := Due(at, lastSendMs, interval);
      var rest := Transfer(body[1..], endAtMs, interval, d, if due then at else lastSendMs);
      && here.downloaded == rest.downloaded && here.end == rest.end
      && here.ticks == (if due then [Tick(d, Rate(d, at), at)] else []) + rest.ticks
  {
    var d := downloaded + body[0].count;
    var rest := Transfer(body[1..], endAtMs, interval, d, lastSendMs);
    assert [] + rest.ticks == rest.ticks;
  }

  /** The converse of throttling: a read that returns bytes once the
      interval has elapsed since the last report is reported at once, with
      the count and the rate at that read. */
  lemma ReportAfterInterval(body: seq<Step>, endAtMs: real, interval: int, downloaded: int, lastSendMs: real)
    requires body != [] && body[0].Read? && body[0].count != 0
    requires body[0].atMs >= lastSendMs + interval as real
    ensures var p := Transfer(body, endAtMs, interval, downloaded, lastSendMs);
      var d := downloaded + body[0].count;
      p.ticks != [] && p.ticks[0] == Tick(d, Rate(d, body[0].atMs), body[0].atMs)
  {
    TransferOneRead(body, endAtMs, interval, downloaded, lastSendMs);
  }

  /** Throttling of reports `ticks` made after a point where `downloaded`
      bytes had been read and the last report had been made at `lastSendMs`,
      the pass ending with `final` bytes: the first comes at least `interval`
      ms after that last report, each later one at least `interval` ms after
      the one before, and the counts they carry strictly increase, stay above
      `downloaded` and never pass `final`. */
  ghost predicate Throttled(ticks: seq<Tick>, downloaded: int, final: int, lastSendMs: real, interval: int)
  {
    && (|ticks| > 0 ==> ticks[0].atMs >= lastSendMs + interval as real)
    && (forall k :: 0 < k < |ticks| ==> ticks[k].atMs >= ticks[k - 1].atMs + interval as real)
    && (forall k :: 0 <= k < |ticks| ==> downloaded < ticks[k].downloaded <= final)
    && (forall k :: 0 < k < |ticks| ==> ticks[k - 1].downloaded < ticks[k].downloaded)
  }

  lemma ThrottledCons(t: Tick, ticks: seq<Tick>, downloaded: int, final: int, lastSendMs: real, interval: int)
    requires Throttled(ticks, t.downloaded, final, t.atMs, interval)
    requires t.atMs >= lastSendMs + interval as real && downloaded < t.downloaded <= final
    ensures Throttled([t] + ticks, downloaded, final, lastSendMs, interval)
  {
    var all := [t] + ticks;
    assert forall k :: 0 < k < |all| ==> all[k] == ticks[k - 1];
  }

  lemma ThrottledFromLower(ticks: seq<Tick>, d: int, downloaded: int, final: int, lastSendMs: real, interval: int)
    requires Throttled(ticks, d, final, lastSendMs, interval) && downloaded < d
    ensures Throttled(ticks, downloaded, final, lastSendMs, interval)
  {
  }

  /** Reports are throttled, and the counts they carry increase. */
  lemma {:induction false} TicksThrottled(body: seq<Step>, endAtMs: real, interval: int, downloaded: int, lastSendMs: real)
    ensures var p := Transfer(body, endAtMs, interval, downloaded, lastSendMs);
      Throttled(p.ticks, downloaded, p.downloaded, lastSendMs, interval)
    decreases |body|
  {
    var here := Transfer(body, endAtMs, interval, downloaded, lastSendMs);
    if body == [] || body[0].ReadFails? || body[0].count == 0 {
      assert here.ticks == [];
    } else {
      var at := body[0].atMs;
      var d := downloaded + body[0].count;
      TransferOneRead(body, endAtMs, interval, downloaded, lastSendMs);
      if Due(at, lastSendMs, interval) {
        var rest := Transfer(body[1..], endAtMs, interval, d, at);
        TicksThrottled(body[1..], endAtMs, interval, d, at);
        TransferCounts(body[1..], endAtMs, interval, d, at);
        ThrottledCons(Tick(d, Rate(d, at), at), rest.ticks, downloaded, rest.downloaded, lastSendMs, interval);
      } else {
        var rest := Transfer(body[1..], endAtMs, interval, d, lastSendMs);
        TicksThrottled(body[1..], endAtMs, interval, d, lastSendMs);
        assert here.ticks == rest.ticks && here.downloaded == rest.downloaded;
        ThrottledFromLower(rest.ticks, d, downloaded, rest.downloaded, lastSendMs, interval);
      }
    }
  }

  /** A report of the agent `agentId` about job `downloadId`. */
  function Report(agentId: string, downloadId: string, totalBytes: Option<int>, downloaded: int,
                  rate: real, status: string, message: Option<string>): (m: ProgressMessage)
    ensures m.DownloadId == downloadId && m.AgentId == Some(agentId) && m.Status == status
    ensures m.TotalBytes == totalBytes && m.DownloadedBytes == downloaded
    ensures m.BytesPerSecond == rate && m.Message == message
  {
    ProgressMessage(downloadId, Some(agentId), totalBytes, downloaded, rate, status, message)
  }

  /** The first report of a fetch whose headers arrived. */
  function Started(agentId: string, downloadId: string): (m: ProgressMessage)
    ensures m.DownloadId == downloadId && m.AgentId == Some(agentId) && m.Status == "Downloading"
    ensures m.TotalBytes == Some(0) && m.DownloadedBytes == 0 && m.BytesPerSecond == 0.0 && m.Message == None
  {
    Report(agentId, downloadId, Some(0), 0, 0.0, "Downloading", None)
  }

  /** The report made when a job fails with `message`. */
  function Failed(agentId: string, downloadId: string, message: string): (m: ProgressMessage)
    ensures m.DownloadId == downloadId && m.AgentId == Some(agentId) && m.Status == "Failed"
    ensures m.TotalBytes == Some(0) && m.DownloadedBytes == 0 && m.BytesPerSecond == 0.0
    ensures m.Message == Some(message)
  {
    Report(agentId, downloadId, Some(0), 0, 0.0, "Failed", Some(message))
  }

  /** The reports made for the ticks of a read loop. */
  function TickReports(agentId: string, downloadId: string, totalBytes: Option<int>, ticks: seq<Tick>): (ms: seq<ProgressMessage>)
    ensures |ms| == |ticks|
    ensures forall k :: 0 <= k < |ticks| ==>
      ms[k] == Report(agentId, downloadId, totalBytes, ticks[k].downloaded, ticks[k].rate, "Downloading", None)
  {
    seq(|ticks|, k requires 0 <= k < |ticks| =>
      Report(agentId, downloadId, totalBytes, ticks[k].downloaded, ticks[k].rate, "Downloading", None))
  }

  lemma TickReportsAppend(agentId: string, downloadId: string, totalBytes: Option<int>, ticks: seq<Tick>, t: Tick)
    ensures TickReports(agentId, downloadId, totalBytes, ticks + [t])
         == TickReports(agentId, downloadId, totalBytes, ticks) + [Report(agentId, downloadId, totalBytes, t.downloaded, t.rate, "Downloading", None)]
  {
  }

  /** What a fetch does before it returns or throws: the reports it sends,
      and the message of the exception it throws, if any. */
  datatype Attempt = Attempt(sent: seq<ProgressMessage>, failure: Option<string>)

  /** The fetch of one job: the reports `DownloadWithProgressAsync` sends
      and the exception it ends with, if any. */
  function Fetch(agentId: string, interval: int, downloadId: string, resp: Response): (a: Attempt)
    ensures forall k :: 0 <= k < |a.sent| ==> a.sent[k].DownloadId == downloadId && a.sent[k].AgentId == Some(agentId)
    ensures a.failure.None? <==> resp.Answered? && IsSuccess(resp.statusCode) && ReadsEnd(resp.body)
    ensures a.failure.None? ==> a.sent != [] && a.sent[|a.sent| - 1].Status == "Completed"
  {
    match resp
    case TransportFails(m) => Attempt([], Some(m))
    case Answered(code, statusError, contentLength, body, endAtMs) =>
      if !IsSuccess(code) then Attempt([], Some(statusError))
      else
        TransferCounts(body, endAtMs, interval, 0, 0.0);
        var p := Transfer(body, endAtMs, interval, 0, 0.0);
        var reports := [Started(agentId, downloadId)] + TickReports(agentId, downloadId, contentLength, p.ticks);
        match p.end
        case EndOfStream(at) =>
          var total := contentLength.GetOr(p.downloaded);
          Attempt(reports + [Report(agentId, downloadId, Some(total), p.downloaded, Rate(p.downloaded, at), "Completed", None)], None)
        case Broken(m) => Attempt(reports, Some(m))
  }

  /** A fetch with a success status, by how its read loop ends. */
  lemma FetchAnswered(agentId: string, interval: int, downloadId: string, resp: Response)
    requires resp.Answered? && IsSuccess(resp.statusCode)
    ensures var p := Transfer(resp.body, resp.endAtMs, interval, 0, 0.0);
      var reports := [Started(agentId, downloadId)] + TickReports(agentId, downloadId, resp.contentLength, p.ticks);
      && (p.end.Broken? ==> Fetch(agentId, interval, downloadId, resp) == Attempt(reports, Some(p.end.message)))
      && (p.end.EndOfStream? ==>
            Fetch(agentId, interval, downloadId, resp) == Attempt(reports + [Report(agentId, downloadId, Some(resp.contentLength.GetOr(p.downloaded)), p.downloaded,
                                         Rate(p.downloaded, p.end.atMs), "Completed", None)], None))
  {
  }

  /** Every report one job produces: those of the fetch, then a Failed
      report if it threw. */
  function JobReports(agentId: string, interval: int, downloadId: string, resp: Response): seq<ProgressMessage>
  {
    var a := Fetch(agentId, interval, downloadId, resp);
    a.sent + if a.failure.Some? then [Failed(agentId, downloadId, a.failure.value)] else []
  }

  /** The shape of a job's reports: at least one; all about that job and
      from that agent; all but the last are Downloading; the last is
      Completed or Failed. */
  lemma JobReportsShape(agentId: string, interval: int, downloadId: string, resp: Response)
    ensures var ms := JobReports(agentId, interval, downloadId, resp);
      && |ms| >= 1
      && (forall k :: 0 <= k < |ms| ==> ms[k].DownloadId == downloadId && ms[k].AgentId == Some(agentId))
      && (forall k :: 0 <= k < |ms| - 1 ==> ms[k].Status == "Downloading")
      && (ms[|ms| - 1].Status == "Completed" || ms[|ms| - 1].Status == "Failed")
  {
  }

  /** A fetch that fails before its body is read (no response, or a status
      that is not a success) sends exactly one report: Failed, with zero
      counts and the exception's message. */
  lemma {:induction false} EarlyFailureReportsOnce(agentId: string, interval: int, downloadId: string, resp: Response)
    requires resp.TransportFails? || !IsSuccess(resp.statusCode)
    ensures JobReports(agentId, interval, downloadId, resp)
         == [Report(agentId, downloadId, Some(0), 0, 0.0, "Failed",
                    Some(if resp.TransportFails? then resp.message else resp.statusError))]
  {
  }

  /** A fetch with a success status starts with a Downloading report of zero
      total, zero bytes and zero rate, and ends with Completed carrying all
      bytes read and the Content-Length (or, without one, the bytes read) when
      no read throws, or with Failed carrying the exception's message and zero
      counts when one does. */
  lemma {:induction false} SuccessfulFetchReports(agentId: string, interval: int, downloadId: string, resp: Response)
    requires resp.Answered? && IsSuccess(resp.statusCode)
    ensures var ms := JobReports(agentId, interval, downloadId, resp);
      && |ms| >= 2
      && ms[0] == Report(agentId, downloadId, Some(0), 0, 0.0, "Downloading", None)
      && (ReadsEnd(resp.body) ==>
            && ms[|ms| - 1].Status == "Completed"
            && ms[|ms| - 1].DownloadedBytes == BytesRead(resp.body)
            && ms[|ms| - 1].TotalBytes == Some(resp.contentLength.GetOr(BytesRead(resp.body)))
            && ms[|ms| - 1].Message == None)
      && (!ReadsEnd(resp.body) ==>
            && ms[|ms| - 1].Status == "Failed"
            && ms[|ms| - 1].TotalBytes == Some(0) && ms[|ms| - 1].DownloadedBytes == 0
            && ms[|ms| - 1].BytesPerSecond == 0.0
            && ms[|ms| - 1].Message == Some(Transfer(resp.body, resp.endAtMs, interval, 0, 0.0).end.message))
  {
    TransferCounts(resp.body, resp.endAtMs, interval, 0, 0.0);
  }

  /** The reports the worker sends for the queue records `records`, the
      record at index `i` being fetched with response `responses[i]`. */
  function RunReports(agentId: string, interval: int, records: seq<Polled<QueueMessage>>, responses: seq<Response>): (ms: seq<ProgressMessage>)
    requires |responses| == |records|
    ensures forall k :: 0 <= k < |ms| ==> ms[k].AgentId == Some(agentId)
    decreases |records|
  {
    if records == [] then []
    else match records[0]
      case BadJson => []
      case Decoded(q) =>
        JobReportsShape(agentId, interval, q.DownloadId, responses[0]);
        JobReports(agentId, interval, q.DownloadId, responses[0]) + RunReports(agentId, interval, records[1..], responses[1..])
      case _ => RunReports(agentId, interval, records[1..], responses[1..])
  }

  /** Whether the reports `ms` keep each job together: a Downloading report
      is always followed by another report about the same job. */
  predicate JobsContiguous(ms: seq<ProgressMessage>)
  {
    forall k :: 0 <= k < |ms| && ms[k].Status == "Downloading" ==>
      k + 1 < |ms| && ms[k + 1].DownloadId == ms[k].DownloadId
  }

  /** Jobs run one at a time: no report of another job comes between a
      job's first report and its Completed or Failed one. */
  lemma {:induction false} JobsInSequence(agentId: string, interval: int, records: seq<Polled<QueueMessage>>,
                                          responses: seq<Response>)
    requires |responses| == |records|
    ensures JobsContiguous(RunReports(agentId, interval, records, responses))
    decreases |records|
  {
    if records != [] && !records[0].BadJson? {
      var rest := RunReports(agentId, interval, records[1..], responses[1..]);
      JobsInSequence(agentId, interval, records[1..], responses[1..]);
      if records[0].Decoded? {
        var id := records[0].msg.DownloadId;
        var job := JobReports(agentId, interval, id, responses[0]);
        JobReportsShape(agentId, interval, id, responses[0]);
        var ms := job + rest;
        assert RunReports(agentId, interval, records, responses) == ms;
        forall k | 0 <= k < |ms| && ms[k].Status == "Downloading"
          ensures k + 1 < |ms| && ms[k + 1].DownloadId == ms[k].DownloadId
        {
          if k < |job| {
            assert ms[k] == job[k];
            assert k < |job| - 1;
            assert ms[k + 1] == job[k + 1];
          } else {
            var j := k - |job|;
            assert rest[j] == ms[k];
            assert ms[k + 1] == rest[j + 1];
          }
        }
      } else {
        assert RunReports(agentId, interval, records, responses) == rest;
      }
    }
  }

  class DownloadWorker {
    const agentId: string
    const progressIntervalMs: int
    /** The number of jobs in progress, reported in heartbeats. */
    var currentDownloads: int
    /** Every report produced so far, in order. */
    var sent: seq<ProgressMessage>

    /** `agentId` is drawn by the host from the machine name and a random
        suffix; it is a parameter here. */
    constructor (agentId: string, progressIntervalMs: int)
      ensures this.agentId == agentId && this.progressIntervalMs == progressIntervalMs
      ensures currentDownloads == 0 && sent == []
    {
      this.agentId := agentId;
      this.progressIntervalMs := progressIntervalMs;
      currentDownloads := 0;
      sent := [];
    }

    /** Produces one report of this agent. */
    method SendProgress(downloadId: string, totalBytes: Option<int>, downloaded: int, rate: real,
                        status: string, message: Option<string>)
      modifies this
      ensures sent == old(sent) + [Report(agentId, downloadId, totalBytes, downloaded, rate, status, message)]
      ensures currentDownloads == old(currentDownloads)
    {
      sent := sent + [ProgressMessage(downloadId, Some(agentId), totalBytes, downloaded, rate, status, message)];
    }

    /** The read loop of a fetch whose headers arrived: reads `body` to its
        end, reporting at most once per interval, and returns the byte count
        reached and how the loop ended. */
    method ReadBody(downloadId: string, totalBytes: Option<int>, body: seq<Step>, endAtMs: real)
      returns (downloaded: int, end: PassEnd)
      modifies this
      ensures currentDownloads == old(currentDownloads)
      ensures var p := Transfer(body, endAtMs, progressIntervalMs, 0, 0.0);
        && sent == old(sent) + TickReports(agentId, downloadId, totalBytes, p.ticks)
        && downloaded == p.downloaded && end == p.end
    {
      downloaded := 0;
      var lastSend := 0.0;
      var i := 0;
      ghost var whole := Transfer(body, endAtMs, progressIntervalMs, 0, 0.0);
      ghost var ticks: seq<Tick> := [];
      while i < |body|
        invariant 0 <= i <= |body|
        invariant currentDownloads == old(currentDownloads)
        invariant sent == old(sent) + TickReports(agentId, downloadId, totalBytes, ticks)
        invariant var rest := Transfer(body[i..], endAtMs, progressIntervalMs, downloaded, lastSend);
          ticks + rest.ticks == whole.ticks && rest.downloaded == whole.downloaded && rest.end == whole.end
      {
        assert body[i..][0] == body[i] && body[i..][1..] == body[i + 1..];
        match body[i]
        case ReadFails(m) =>
          assert Transfer(body[i..], endAtMs, progressIntervalMs, downloaded, lastSend) == Pass([], downloaded, Broken(m));
          assert ticks + [] == ticks;
          return downloaded, Broken(m);
        case Read(n, at) =>
          if n == 0 {
            assert Transfer(body[i..], endAtMs, progressIntervalMs, downloaded, lastSend) == Pass([], downloaded, EndOfStream(at));
            assert ticks + [] == ticks;
            return downloaded, EndOfStream(at);
          }
          TransferOneRead(body[i..], endAtMs, progressIntervalMs, downloaded, lastSend);
          downloaded := downloaded + n;
          if Due(at, lastSend, progressIntervalMs) {
            var rate := Rate(downloaded, at);
            SendProgress(downloadId, totalBytes, downloaded, rate, "Downloading", None);
            var tick := Tick(downloaded, rate, at);
            TickReportsAppend(agentId, downloadId, totalBytes, ticks, tick);
            ConcatAssoc(ticks, [tick], Transfer(body[i + 1..], endAtMs, progressIntervalMs, downloaded, at).ticks);
            ticks := ticks + [tick];
            lastSend := at;
          } else {
            assert [] + Transfer(body[i + 1..], endAtMs, progressIntervalMs, downloaded, lastSend).ticks
                == Transfer(body[i + 1..], endAtMs, progressIntervalMs, downloaded, lastSend).ticks;
          }
        i := i + 1;
      }
      assert body[i..] == [];
      assert ticks + [] == ticks;
      end := EndOfStream(endAtMs);
    }

    /** Fetches one job: returns the message of the exception it throws, if
        any, after sending the reports made before it. */
    method DownloadWithProgress(downloadId: string, resp: Response) returns (failure: Option<string>)
      modifies this
      ensures currentDownloads == old(currentDownloads)
      ensures sent == old(sent) + Fetch(agentId, progressIntervalMs, downloadId, resp).sent
      ensures failure == Fetch(agentId, progressIntervalMs, downloadId, resp).failure
    {
      if resp.TransportFails? {
        return Some(resp.message);
      }
      if !IsSuccess(resp.statusCode) {
        return Some(resp.statusError);
      }
      FetchAnswered(agentId, progressIntervalMs, downloadId, resp);
      var totalBytes := resp.contentLength;
      SendProgress(downloadId, Some(0), 0, 0.0, "Downloading", None);
      var downloaded, end := ReadBody(downloadId, totalBytes, resp.body, resp.endAtMs);
      if end.Broken? {
        return Some(end.message);
      }
      var finalRate := Rate(downloaded, end.atMs);
      SendProgress(downloadId, Some(totalBytes.GetOr(downloaded)), downloaded, finalRate, "Completed", None);
      return None;
    }

    /** Runs one job: the counter is raised for its duration and restored
        on every exit, and an exception becomes a Failed report. */
    method ProcessDownload(q: QueueMessage, resp: Response)
      modifies this
      ensures currentDownloads == old(currentDownloads)
      ensures sent == old(sent) + JobReports(agentId, progressIntervalMs, q.DownloadId, resp)
    {
      currentDownloads := currentDownloads + 1;
      var failure := DownloadWithProgress(q.DownloadId, resp);
      if failure.Some? {
        SendProgress(q.DownloadId, Some(0), 0, 0.0, "Failed", failure);
      }
      currentDownloads := currentDownloads - 1;
    }

    /** The consume loop over already-received queue records; the job of
        record `i` is fetched with response `responses[i]`. Each job is
        finished before the next record is looked at. */
    method Run(records: seq<Polled<QueueMessage>>, responses: seq<Response>) returns (exit: LoopExit)
      requires |responses| == |records|
      modifies this
      ensures currentDownloads == old(currentDownloads)
      ensures exit == Exit(records)
      ensures sent == old(sent) + RunReports(agentId, progressIntervalMs, records, responses)
    {
      var i := 0;
      ghost var done: seq<ProgressMessage> := [];
      while i < |records|
        invariant 0 <= i <= |records|
        invariant currentDownloads == old(currentDownloads)
        invariant sent == old(sent) + done
        invariant done + RunReports(agentId, progressIntervalMs, records[i..], responses[i..])
               == RunReports(agentId, progressIntervalMs, records, responses)
        invariant forall j :: 0 <= j < i ==> !records[j].BadJson?
      {
        var r := records[i];
        assert records[i..][0] == r && records[i..][1..] == records[i + 1..];
        assert responses[i..][0] == responses[i] && responses[i..][1..] == responses[i + 1..];
        if r.BadJson? {
          assert done == RunReports(agentId, progressIntervalMs, records, responses);
          ExitAtFirstBad(records, i);
          exit := Crashed(i);
          return;
        }
        if r.Decoded? {
          ghost var job := JobReports(agentId, progressIntervalMs, r.msg.DownloadId, responses[i]);
          ProcessDownload(r.msg, responses[i]);
          done := done + job;
        }
        i := i + 1;
      }
      assert records[i..] == [] && responses[i..] == [];
      assert done + [] == done;
      ExitAtFirstBad(records, i);
      exit := Stopped;
    }
  }
}
