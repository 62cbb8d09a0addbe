/** The browser's view of the download list: the list fetched from the
    dispatcher, kept up to date by the progress events of the event stream. */
module ClientDownloads {
  import opened Common

  /** A job as the list shows it. */
  datatype ClientDownload = ClientDownload(
    downloadId: string,
    url: string,
    status: string,
    enqueuedAt: Time,
    totalBytes: int,
    downloadedBytes: int,
    bytesPerSecond: real,
    agentId: Option<string>,
    errorMessage: Option<string>,
    completedAt: Option<Time>,
    percentComplete: real)

  /** A progress event as the event stream carries it. */
  datatype ProgressEvent = ProgressEvent(
    downloadId: string,
    agentId: Option<string>,
    totalBytes: Option<int>,
    downloadedBytes: int,
    bytesPerSecond: real,
    status: string,
    message: Option<string>)

  /** The data of one stream message: an event, or text that does not parse. */
  datatype Parsed = Unparseable | Parsed(ev: ProgressEvent)

  /** The merge of an event into the entry it names. */
  function MergeEvent(d: ClientDownload, ev: ProgressEvent): (r: ClientDownload)
    // identity, submission data and completion time are never touched
    ensures r.downloadId == d.downloadId && r.url == d.url && r.enqueuedAt == d.enqueuedAt
    ensures r.completedAt == d.completedAt
    // always overwritten
    ensures r.downloadedBytes == ev.downloadedBytes && r.bytesPerSecond == ev.bytesPerSecond
    ensures r.status == ev.status
    // overwritten only by a non-null value
    ensures r.totalBytes == (if ev.totalBytes.Some? then ev.totalBytes.value else d.totalBytes)
    ensures r.agentId == (if ev.agentId.Some? then ev.agentId else d.agentId)
    ensures r.errorMessage == (if ev.message.Some? then ev.message else d.errorMessage)
    // recomputed from the event alone when it carries a positive total, kept otherwise
    ensures ev.totalBytes.Some? && ev.totalBytes.value > 0 ==>
      r.percentComplete <= 100.0 &&
      r.percentComplete * ev.totalBytes.value as real <= 100.0 * ev.downloadedBytes as real &&
      (r.percentComplete == 100.0 || r.percentComplete * ev.totalBytes.value as real == 100.0 * ev.downloadedBytes as real)
    ensures ev.totalBytes.Some? && ev.totalBytes.value > 0 && ev.downloadedBytes >= ev.totalBytes.value ==>
      r.percentComplete == 100.0
    ensures !(ev.totalBytes.Some? && ev.totalBytes.value > 0) ==> r.percentComplete == d.percentComplete
  {
    var total := ev.totalBytes.GetOr(0);
    d.(
      totalBytes := ev.totalBytes.GetOr(d.totalBytes),
      downloadedBytes := ev.downloadedBytes,
      bytesPerSecond := ev.bytesPerSecond,
      status := ev.status,
      agentId := if ev.agentId.Some? then ev.agentId else d.agentId,
      errorMessage := if ev.message.Some? then ev.message else d.errorMessage,
      percentComplete :=
        if total > 0 then MinReal(100.0, 100.0 * ev.downloadedBytes as real / total as real)
        else d.percentComplete)
  }

  /** The list after an event: every entry with the event's id is merged,
      in place; the others, and the length and order of the list, stay. */
  function ApplyEvent(list: seq<ClientDownload>, ev: ProgressEvent): (r: seq<ClientDownload>)
    ensures |r| == |list|
    ensures forall i :: 0 <= i < |list| && list[i].downloadId == ev.downloadId ==> r[i] == MergeEvent(list[i], ev)
    ensures forall i :: 0 <= i < |list| && list[i].downloadId != ev.downloadId ==> r[i] == list[i]
    ensures forall i :: 0 <= i < |list| ==> r[i].downloadId == list[i].downloadId
  {
    seq(|list|, i requires 0 <= i < |list| =>
      if list[i].downloadId == ev.downloadId then MergeEvent(list[i], ev) else list[i])
  }

  /** An event for a job that is not in the list changes nothing. */
  lemma ApplyUnknownEvent(list: seq<ClientDownload>, ev: ProgressEvent)
    requires forall i :: 0 <= i < |list| ==> list[i].downloadId != ev.downloadId
    ensures ApplyEvent(list, ev) == list
  {
  }

  /** Merging the same event twice is merging it once. */
  lemma MergeEventIdempotent(d: ClientDownload, ev: ProgressEvent)
    ensures MergeEvent(MergeEvent(d, ev), ev) == MergeEvent(d, ev)
  {
  }

  /** A redelivered event leaves the list as one delivery does. */
  lemma {:induction false} ApplyEventIdempotent(list: seq<ClientDownload>, ev: ProgressEvent)
    ensures ApplyEvent(ApplyEvent(list, ev), ev) == ApplyEvent(list, ev)
  {
    var once := ApplyEvent(list, ev);
    forall i | 0 <= i < |list| && list[i].downloadId == ev.downloadId
      ensures ApplyEvent(once, ev)[i] == once[i]
    {
      MergeEventIdempotent(list[i], ev);
    }
  }

  /** Events about different jobs commute. */
  lemma ApplyEventsCommute(list: seq<ClientDownload>, e1: ProgressEvent, e2: ProgressEvent)
    requires e1.downloadId != e2.downloadId
    ensures ApplyEvent(ApplyEvent(list, e1), e2) == ApplyEvent(ApplyEvent(list, e2), e1)
  {
  }

  /** What one stream message does to the list: an event is applied, text
      that does not parse is ignored. */
  function OnMessage(list: seq<ClientDownload>, data: Parsed): (r: seq<ClientDownload>)
    ensures data.Unparseable? ==> r == list
    ensures data.Parsed? ==> r == ApplyEvent(list, data.ev)
  {
    match data
    case Unparseable => list
    case Parsed(ev) => ApplyEvent(list, ev)
  }

  /** The hook's state: the list and the last load error. */
  class DownloadsView {
    var downloads: seq<ClientDownload>
    var error: Option<string>

    constructor ()
      ensures downloads == [] && error == None
    {
      downloads := [];
      error := None;
    }

    /** A stream message arrives. */
    method Receive(data: Parsed)
      modifies this
      ensures downloads == OnMessage(old(downloads), data)
      ensures error == old(error)
    {
      if data.Parsed? {
        downloads := ApplyEvent(downloads, data.ev);
      }
    }

    /** A reload finishes: a fetched list replaces the current one and
        clears the error; a failed fetch keeps the list and records its
        message. */
    method Refresh(fetched: FetchOutcome)
      modifies this
      ensures fetched.Loaded? ==> downloads == fetched.list && error == None
      ensures fetched.LoadFailed? ==> downloads == old(downloads) && error == Some(fetched.message)
    {
      match fetched
      case Loaded(list) =>
        downloads := list;
        error := None;
      case LoadFailed(message) =>
        error := Some(message);
    }
  }

  /** The outcome of fetching the list. */
  datatype FetchOutcome = Loaded(list: seq<ClientDownload>) | LoadFailed(message: string)
}
