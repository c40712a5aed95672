/**
 * The Next.js route `POST /api/wordlist/save`: it validates `name`, then
 * `words`, and forwards both to the backend's `/save-wordlist`.
 */
module WordListSaveRoute {
  import opened Wrappers
  import opened JsValues

  const InvalidNameMessage := "Invalid input. Please provide a name for the word list."
  const InvalidWordsMessage := "Invalid input. Please provide an array of words."
  const FallbackMessage := "Failed to save word list"

  function HandlePost(request: RequestBody, backend: BackendReply): (h: Handled)
    // A missing, non-string or blank `name` is a 400; it is checked before `words`.
    ensures request.Parsed? && Property(request.value, "name").Some?
            && !IsNonBlankString(Property(request.value, "name").value) ==>
              h == Handled(None, 400, ErrorBody(InvalidNameMessage))
    // With a valid name, missing, non-array or empty `words` is a 400.
    ensures request.Parsed? && Property(request.value, "name").Some?
            && IsNonBlankString(Property(request.value, "name").value)
            && !IsNonEmptyArray(Property(request.value, "words").value) ==>
              h == Handled(None, 400, ErrorBody(InvalidWordsMessage))
    // Only both checks passing forwards, and the body is exactly `{ name, words }`: no trim, no userId.
    ensures h.forwarded.Some? <==>
              request.Parsed? && request.value.Object?
              && "name" in request.value.props && IsNonBlankString(request.value.props["name"])
              && "words" in request.value.props && IsNonEmptyArray(request.value.props["words"])
    ensures h.forwarded.Some? ==>
              h.forwarded.value == Object(map["name" := request.value.props["name"],
                                               "words" := request.value.props["words"]])
    ensures h.forwarded.Some? && backend.Data? ==> h.status == 200 && h.body == backend.data
    ensures h.forwarded.Some? && backend.Failed? ==>
              h.status == 500 && h.body == ErrorBody(MessageOf(backend.error, FallbackMessage))
    // A `null` body cannot be destructured; the TypeError is caught like any other.
    ensures request.Parsed? && Property(request.value, "name").None? ==>
              h == Handled(None, 500, ErrorBody(MessageOf(DestructureTypeError, FallbackMessage)))
    ensures request.Unparsable? ==>
              h == Handled(None, 500, ErrorBody(MessageOf(request.error, FallbackMessage)))
    ensures h.status in {200, 400, 500}
  {
    match request
    case Unparsable(e) => Handled(None, 500, ErrorBody(MessageOf(e, FallbackMessage)))
    case Parsed(body) =>
      match Property(body, "name")
      case None => Handled(None, 500, ErrorBody(MessageOf(DestructureTypeError, FallbackMessage)))
      case Some(name) =>
        var words := Property(body, "words").value;
        if !IsNonBlankString(name) then
          Handled(None, 400, ErrorBody(InvalidNameMessage))
        else if !IsNonEmptyArray(words) then
          Handled(None, 400, ErrorBody(InvalidWordsMessage))
        else
          var forwarded := Object(map["name" := name, "words" := words]);
          match backend
          case Data(d) => Handled(Some(forwarded), 200, d)
          case Failed(e) => Handled(Some(forwarded), 500, ErrorBody(MessageOf(e, FallbackMessage)))
  }
}
