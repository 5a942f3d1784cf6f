/**
 * The check every streaming request makes on the server's response before
 * reading it (VoiceTutor.tsx lines 100-115, ParaphraseTools.tsx lines 52-54
 * and 134-136): a response that is not ok or has no body ends the request
 * with an error, and VoiceTutor picks a notice for two statuses.
 */
module Gate {
  import opened Wrappers

  /** What the client sees of a response: its status, and its body as the
      chunks the reader would deliver, if it has one. */
  datatype Response = Response(status: int, body: Option<seq<string>>)

  /** The `ok` flag of a fetch response: a status in the 2xx range. */
  predicate Ok(status: int)
  {
    200 <= status <= 299
  }

  /** The notices VoiceTutor shows before failing. */
  datatype Notice = RateLimited | PaymentRequired

  datatype Verdict = Proceed(chunks: seq<string>) | Fail(notice: Option<Notice>)

  /** The gate: proceed to read the body, or fail, naming a notice for the
      statuses that have one. */
  function Admit(resp: Response): (v: Verdict)
    ensures v.Proceed? <==> Ok(resp.status) && resp.body.Some?
    ensures v.Proceed? ==> v.chunks == resp.body.value
    ensures v.Fail? ==> (v.notice == Some(RateLimited) <==> resp.status == 429)
    ensures v.Fail? ==> (v.notice == Some(PaymentRequired) <==> resp.status == 402)
  {
    if Ok(resp.status) && resp.body.Some? then Proceed(resp.body.value)
    else if resp.status == 429 then Fail(Some(RateLimited))
    else if resp.status == 402 then Fail(Some(PaymentRequired))
    else Fail(None)
  }

  /** A notice is shown exactly for statuses 429 and 402, whatever the body,
      and always together with a failure. */
  lemma NoticeMeansFailure(resp: Response)
    ensures Admit(resp).Fail? && Admit(resp).notice.Some? <==> resp.status == 429 || resp.status == 402
  {
  }
}
