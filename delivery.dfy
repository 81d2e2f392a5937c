/**
  The outcome classification at the end of `send_email`: the Gmail call either goes
  through, or raises an `HttpError` whose status decides between a quota stop and a
  plain failure.
 */
module Delivery {

  /** What the Gmail API did with a message. */
  datatype TransportReply = Accepted | HttpError(status: int)

  /** What `send_email` returns: `True`, `"QUOTA_ERROR"` or `False`. */
  datatype SendResult = Sent | QuotaError | Failed

  /** A quota signal is an HTTP 403 or 429; every other HTTP error is a plain failure. */
  predicate IsQuotaStatus(status: int) {
    status == 403 || status == 429
  }

  function Classify(reply: TransportReply): (r: SendResult)
    ensures r == Sent <==> reply.Accepted?
    ensures r == QuotaError <==> reply.HttpError? && IsQuotaStatus(reply.status)
    ensures r == Failed <==> reply.HttpError? && !IsQuotaStatus(reply.status)
  {
    match reply
    case Accepted => Sent
    case HttpError(status) => if IsQuotaStatus(status) then QuotaError else Failed
  }
}
