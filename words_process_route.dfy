/**
 * The Next.js route `POST /api/words/process`: it checks that `words` is a
 * non-empty array and forwards it to the backend's `/process-words`.
 */
module WordsProcessRoute {
  import opened Wrappers
  import opened JsValues

  const InvalidWordsMessage := "Invalid input. Please provide an array of words."
  const FallbackMessage := "Failed to process words"

  function HandlePost(request: RequestBody, backend: BackendReply): (h: Handled)
    // Missing, non-array or empty `words` is a 400.
    ensures request.Parsed? && Property(request.value, "words").Some?
            && !IsNonEmptyArray(Property(request.value, "words").value) ==>
              h == Handled(None, 400, ErrorBody(InvalidWordsMessage))
    // Any non-empty array is forwarded as exactly `{ words }`, whatever its elements are.
    ensures h.forwarded.Some? <==>
              request.Parsed? && request.value.Object? && "words" in request.value.props
              && IsNonEmptyArray(request.value.props["words"])
    ensures h.forwarded.Some? ==> h.forwarded.value == Object(map["words" := request.value.props["words"]])
    ensures h.forwarded.Some? && backend.Data? ==> h.status == 200 && h.body == backend.data
    ensures h.forwarded.Some? && backend.Failed? ==>
              h.status == 500 && h.body == ErrorBody(MessageOf(backend.error, FallbackMessage))
    // A `null` body cannot be destructured; the TypeError is caught like any other.
    ensures request.Parsed? && Property(request.value, "words").None? ==>
              h == Handled(None, 500, ErrorBody(MessageOf(DestructureTypeError, FallbackMessage)))
    ensures request.Unparsable? ==>
              h == Handled(None, 500, ErrorBody(MessageOf(request.error, FallbackMessage)))
    ensures h.status in {200, 400, 500}
  {
    match request
    case Unparsable(e) => Handled(None, 500, ErrorBody(MessageOf(e, FallbackMessage)))
    case Parsed(body) =>
      match Property(body, "words")
      case None => Handled(None, 500, ErrorBody(MessageOf(DestructureTypeError, FallbackMessage)))
      case Some(words) =>
        if !IsNonEmptyArray(words) then
          Handled(None, 400, ErrorBody(InvalidWordsMessage))
        else
          var forwarded := Object(map["words" := words]);
          match backend
          case Data(d) => Handled(Some(forwarded), 200, d)
          case Failed(e) => Handled(Some(forwarded), 500, ErrorBody(MessageOf(e, FallbackMessage)))
  }

  /** Element types are not checked: an array of non-strings is forwarded as it is. */
  lemma ElementsUnchecked(elems: seq<JsValue>, backend: BackendReply)
    requires elems != []
    ensures HandlePost(Parsed(Object(map["words" := Array(elems)])), backend).forwarded
            == Some(Object(map["words" := Array(elems)]))
  {
  }
}
