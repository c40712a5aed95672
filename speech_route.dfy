/**
 * The Next.js route `POST /api/speech/generate`: it validates `text` and
 * forwards it to the backend's `/generate-speech`, passing the backend's
 * answer back unchanged once it has logged whether that answer has `audio`.
 */
module SpeechRoute {
  import opened Wrappers
  import opened JsValues

  const InvalidTextMessage := "Invalid input. Please provide text to synthesize."
  const FallbackMessage := "Failed to generate speech"

  /**
   * One request. `backend` is what `axios.post` to `/generate-speech` yields;
   * it is consulted only when the handler gets as far as forwarding.
   */
  function HandlePost(request: RequestBody, backend: BackendReply): (h: Handled)
    // A missing, falsy, non-string or blank `text` is a 400, and nothing is forwarded.
    ensures h.status == 400 <==>
              request.Parsed? && Property(request.value, "text").Some?
              && !IsNonBlankString(Property(request.value, "text").value)
    ensures h.status == 400 ==> h.body == ErrorBody(InvalidTextMessage) && h.forwarded == None
    // A valid `text` is forwarded as exactly `{ text }`, untrimmed.
    ensures h.forwarded.Some? <==>
              request.Parsed? && Property(request.value, "text").Some?
              && IsNonBlankString(Property(request.value, "text").value)
    ensures h.forwarded.Some? ==>
              h.forwarded == Some(Object(map["text" := request.value.props["text"]]))
    // The backend's data comes back unchanged, unless it is `null` (or `undefined`):
    // logging `response.data.audio` then throws a TypeError, answered with a 500.
    ensures h.forwarded.Some? && backend.Data? && !(backend.data.Null? || backend.data.Undefined?) ==>
              h.status == 200 && h.body == backend.data
    ensures h.forwarded.Some? && backend.Data? && (backend.data.Null? || backend.data.Undefined?) ==>
              h.status == 500 && h.body == ErrorBody(MessageOf(PropertyReadTypeError, FallbackMessage))
    // Anything else thrown becomes a 500 `{ error }` as well.
    ensures h.forwarded.Some? && backend.Failed? ==>
              h.status == 500 && h.body == ErrorBody(MessageOf(backend.error, FallbackMessage))
    ensures request.Unparsable? ==>
              h == Handled(None, 500, ErrorBody(MessageOf(request.error, FallbackMessage)))
    // A `null` body cannot be destructured; the TypeError is caught like any other.
    ensures request.Parsed? && Property(request.value, "text").None? ==>
              h == Handled(None, 500, ErrorBody(MessageOf(DestructureTypeError, FallbackMessage)))
    ensures h.status in {200, 400, 500}
  {
    match request
    case Unparsable(e) => Handled(None, 500, ErrorBody(MessageOf(e, FallbackMessage)))
    case Parsed(body) =>
      match Property(body, "text")
      case None => Handled(None, 500, ErrorBody(MessageOf(DestructureTypeError, FallbackMessage)))
      case Some(text) =>
        if !IsNonBlankString(text) then
          Handled(None, 400, ErrorBody(InvalidTextMessage))
        else
          var forwarded := Object(map["text" := text]);
          match backend
          case Data(d) =>
            if Property(d, "audio").None? then
              Handled(Some(forwarded), 500, ErrorBody(MessageOf(PropertyReadTypeError, FallbackMessage)))
            else
              Handled(Some(forwarded), 200, d)
          case Failed(e) => Handled(Some(forwarded), 500, ErrorBody(MessageOf(e, FallbackMessage)))
  }
}
