/** The dispatcher's record of one download job and its derived percentage. */
module DownloadStates {
  import opened Common

  /** One job as the dispatcher knows it. `Status` is one of "Queued",
      "Downloading", "Completed" or "Failed" by convention only: the record
      accepts any text. */
  datatype DownloadState = DownloadState(
    DownloadId: string,
    Url: string,
    Status: string,
    EnqueuedAt: Time,
    TotalBytes: int,
    DownloadedBytes: int,
    BytesPerSecond: real,
    AgentId: Option<string>,
    ErrorMessage: Option<string>,
    CompletedAt: Option<Time>)

  /** The record built from its four positional fields, every other field
      taking its declared default. */
  function NewDownloadState(id: string, url: string, status: string, enqueuedAt: Time): (s: DownloadState)
    ensures s.DownloadId == id && s.Url == url && s.Status == status && s.EnqueuedAt == enqueuedAt
    ensures s.TotalBytes == 0 && s.DownloadedBytes == 0 && s.BytesPerSecond == 0.0
    ensures s.AgentId.None? && s.ErrorMessage.None? && s.CompletedAt.None?
    ensures PercentComplete(s) == 0.0
  {
    DownloadState(id, url, status, enqueuedAt, 0, 0, 0.0, None, None, None)
  }

  /** 100 * downloaded / total, capped at 100, or 0 while the total is unknown. */
  function PercentComplete(s: DownloadState): (p: real)
    ensures s.TotalBytes <= 0 ==> p == 0.0
    ensures p <= 100.0
    ensures s.DownloadedBytes >= s.TotalBytes > 0 ==> p == 100.0
    ensures s.TotalBytes > 0 && s.DownloadedBytes >= 0 ==> p >= 0.0
  {
    if s.TotalBytes > 0 then
      MinReal(100.0, 100.0 * s.DownloadedBytes as real / s.TotalBytes as real)
    else 0.0
  }

  /** Below the total, the percentage is the exact uncapped ratio. */
  lemma PercentBelowTotal(s: DownloadState)
    requires 0 <= s.DownloadedBytes <= s.TotalBytes && s.TotalBytes > 0
    ensures PercentComplete(s) == 100.0 * s.DownloadedBytes as real / s.TotalBytes as real
  {
    RatioAtMostOne(s.DownloadedBytes as real, s.TotalBytes as real);
  }

  /** For a known total, more bytes never mean a smaller percentage. */
  lemma {:induction false} PercentMonotone(s: DownloadState, more: int)
    requires s.TotalBytes > 0
    requires 0 <= s.DownloadedBytes <= more
    ensures PercentComplete(s) <= PercentComplete(s.(DownloadedBytes := more))
  {
    var t := s.TotalBytes as real;
    var d, e := s.DownloadedBytes as real, more as real;
    RatioMonotone(100.0 * d, 100.0 * e, t);
  }

  lemma RatioAtMostOne(d: real, t: real)
    requires 0.0 <= d <= t && t > 0.0
    ensures 100.0 * d / t <= 100.0
  {
    assert 100.0 * d / t * t == 100.0 * d;
  }

  lemma RatioMonotone(a: real, b: real, t: real)
    requires a <= b && t > 0.0
    ensures a / t <= b / t
  {
    assert a / t * t == a && b / t * t == b;
  }
}
