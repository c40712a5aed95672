# ai-eword-learning, modelled in Dafny

The application helps someone learn English vocabulary. The learner types words
into the input page. A Next.js route passes them to a FastAPI backend, which asks
a language model (Amazon Bedrock) for each word's phonetics, meaning and three
example sentences. If the model cannot be used, the backend builds an answer of the same
shape from built-in mock data. The pages then show one word card at a time. The learn
page shows every example; the review page shuffles the deck and hides the meaning
and the examples until they are asked for. Each example marks its target word as
`**word**`. The pages strip the markers from the text they send to speech and
highlight the marked word in what they display. Speech comes from Amazon Polly,
behind a file cache keyed by the MD5 of the text. A DynamoDB table stores named
word lists.

The model covers these parts, one module each:

- **Encodings**: UTF-8, hex digests and base64. The cache depends on them.
- **Speech**: the cache directory, `/generate-speech`, `/cache-stats` and `/clear-cache`.
- **WordProcessing**: `/process-words`, meaning the shaping of the model's JSON answer into words, and the mock fallback.
- **WordListStore**: the word-list table behind `/save-wordlist`, `/get-wordlist/{id}` and `/get-wordlists`.
- **JsText** and **JsValues**: JavaScript white space and `trim`, JSON request values, truthiness and destructuring.
- **SpeechRoute**, **WordListSaveRoute** and **WordsProcessRoute**: the three Next.js routes that validate a request before forwarding it.
- **InputPage**: the tokenizer and the submit handler.
- **Markers**: the `**` stripping and highlighting.
- **Deck**: the pager shared by the learn and review pages.
- **LearnPage** and **ReviewPage**: the two card pages, with their loading, their views and their buttons.

Things the program does step by step are written as classes with fields,
`modifies` clauses and loops:

- the cache directory and Polly's request log;
- the DynamoDB table;
- the pages' component state;
- the backend loops, and the in-place sort of the review deck.

Each of these methods is proved against a function of its inputs or of the old
state. The properties that matter are proved as lemmas about those functions.

Things outside the program enter as parameters:

- Polly and Bedrock are oracles: a reply function, or the reply itself.
- MD5 is a function the cache is given.
- The clock value, the fresh list id and the random exchanges of the shuffle are method arguments.
- The contents of `localStorage` are the `Stored` value a page loads.
- The backend's answer to a route is a `BackendReply`.

## Model

| member | source | states |
|---|---|---|
| Encodings.Utf8Injective | backend/app/main.py:223 | Different texts have different UTF-8 encodings (`text.encode('utf-8')`). |
| Encodings.EncodeCharPrefixFree | backend/app/main.py:223 | One character's UTF-8 encoding is never a proper prefix of another's, so the first character and the rest are recovered. |
| Encodings.HexInjective | backend/app/main.py:223 | The `hexdigest()` text determines the digest bytes. |
| Encodings.Hex | backend/app/main.py:223 | A hex digest has two characters per byte, all in `0-9a-f`. |
| Encodings.Base64 | backend/app/main.py:235 | The base64 text of the cached bytes is empty exactly when the file is empty, so an empty file reads back as a falsy `''`. |
| Encodings.Base64Length | backend/app/main.py:286 | The base64 text has four characters per started group of three bytes. |
| Speech.SamePathIff | backend/app/main.py:218-224 | Two texts get the same cache file exactly when MD5 gives their UTF-8 bytes the same digest. |
| Speech.CachePath | backend/app/main.py:218-224 | A cache file name is the 2-characters-per-byte hex digest plus `.mp3`. `SamePathIff`, `SharedPathMeansSameText` and `CachedFileIsCounted` state what the name determines. |
| Speech.SharedPathMeansSameText | backend/app/main.py:218-224 | A shared cache file means the texts are identical, or MD5 collides on two different byte strings; nothing is trimmed or normalised first. |
| Speech.CachedFileIsCounted | backend/app/main.py:218-224 | A cache file is named `<hex>.mp3`, so saving it adds exactly that file to the files `glob("*.mp3")` sees. |
| Speech.AudioCache.GetCachedAudio | backend/app/main.py:226-236 | Gives a value exactly when the text's file exists, even an empty one, and that value is the base64 of the file's bytes. |
| Speech.AudioCache.SaveAudioToCache | backend/app/main.py:238-245 | Writes or overwrites the text's file with the bytes and the time of the write; no other file changes. |
| Speech.TotalSizeAdd | backend/app/main.py:112 | Adding a file the sum does not yet include adds its size to `sum(st_size ...)`. |
| Speech.TotalSizeRemove | backend/app/main.py:112 | Removing a file takes its size off the total. |
| Speech.Summarise | backend/app/main.py:109-122 | A single pass gives the total size, and the oldest and newest creation times: each is None exactly when there are no files, each is attained by a file and bounds every file. |
| Speech.AudioCache.Stats | backend/app/main.py:102-131 | Reports `audio_cache`, the number of `.mp3` files, their total size, and their oldest and newest creation times (None when there are none, and oldest ≤ newest); other files are ignored. |
| Speech.AudioCache.ClearCache | backend/app/main.py:137-155 | Removes every `.mp3` file and no other, and reports how many there were. |
| Speech.ClearThenStats | backend/app/main.py:102-155 | A stats call after clearing reports no files, size 0 and no timestamps. |
| Speech.Polly.SynthesizeSpeech | backend/app/main.py:270-276 | Every call is logged, and the reply is the oracle's answer for the text and the call number. |
| Speech.AudioCache.GenerateSpeech | backend/app/main.py:247-300 | A non-empty cache hit answers `cached: true` without calling Polly. Otherwise Polly is called exactly once. An `AudioStream` is cached and returned as base64 with `cached: false`. A missing stream or a raised exception leaves the cache unchanged and gives the error answer. |
| Speech.RepeatedRequestIsCached | backend/app/main.py:247-300 | When a first request synthesises non-empty audio, a second request for the same text is served from the cache with the same audio, and Polly is called only once. |
| WordProcessing.Status | backend/app/main.py:184-216 | A failure's status is 400 exactly for an empty word list, and 500 for every other failure. |
| WordProcessing.Detail | backend/app/main.py:184-216 | The detail is `请提供至少一个单词` for no words. With no usable entry it is `处理单词时出错: 500: 处理单词失败，请稍后再试`, the inner HTTPException re-wrapped by the outer handler. A library exception's message is not modelled. |
| WordProcessing.ShapeExample | backend/app/main.py:197-202 | pydantic accepts an example exactly when it is a dict with string `en` and `zh`, and the result holds just those two strings. |
| WordProcessing.ShapeExamples | backend/app/main.py:197-202 | A list of examples is accepted exactly when every element is, and the result is the elements in order. |
| WordProcessing.ShapeEntry | backend/app/main.py:195-207 | An entry is skipped exactly when it is a dict missing one of the four keys (KeyError). It is kept exactly when all four keys have the right types, as the word with those fields. Anything else raises. |
| WordProcessing.Survivors | backend/app/main.py:192-207 | The reference for the shaping loop: never more words than entries. `SurvivorsNoneIff`, `SurvivorsInOrder` and `SurvivorsAllKept` state its content. |
| WordProcessing.SurvivorsNoneIff | backend/app/main.py:195-207 | The shaping loop raises exactly when some entry raises. |
| WordProcessing.SurvivorsInOrder | backend/app/main.py:195-207 | The surviving words are the kept entries, in the model's order and at increasing positions; every entry left out was skipped. |
| WordProcessing.SurvivorsAllKept | backend/app/main.py:195-207 | When every entry is kept, one word comes out per entry, in order. |
| WordProcessing.CollectSurvivors | backend/app/main.py:192-207 | The loop gives exactly the survivors, or stops at the first entry that raises. |
| WordProcessing.Outcome | backend/app/main.py:194-216 | The answer is processed exactly when the result is a dict whose `words` is a list, no entry raises and at least one survives; it then holds the survivors. Every other failure is a 500. |
| WordProcessing.Template | backend/app/main.py:407-412 | The mock entry for an unknown word has three examples, each containing `**word**`. |
| WordProcessing.GlossOf | backend/app/main.py:397-412 | The mock gloss is looked up with the lower-cased word: the `MOCK_DATA` entry when there is one, else the template. |
| WordProcessing.Lower | backend/app/main.py:396 | Lower-casing keeps the length and maps `A`-`Z` to `a`-`z`, leaving every other character alone. |
| WordProcessing.EntryOf | backend/app/main.py:399-412 | A mock entry is a dict with exactly the four keys, and its `word` is the input spelling. |
| WordProcessing.EntryKept | backend/app/main.py:399-412 | A dict built from a gloss survives shaping as the word with that gloss. |
| WordProcessing.MockEntryKept | backend/app/main.py:393-416 | Every mock entry survives shaping, with the word spelled as given. |
| WordProcessing.MockAnswerProcessed | backend/app/main.py:393-416 | For a non-empty word list the mock answer is processed, with one word per input word, in order and without de-duplication. |
| WordProcessing.MockFallback | backend/app/main.py:393-416 | The fallback loop builds exactly the mock answer, one entry per word. |
| WordProcessing.ProcessWords | backend/app/main.py:179-216 | An empty list is refused with 400 before the model is asked. Otherwise the answer is the outcome of the model's JSON, or of the mock answer when the model is unusable. |
| WordListStore.UserIdOf | backend/app/main.py:512 | An omitted `userId` is saved as `default-user`; a given one is saved as given. |
| WordListStore.StoredItemOf | backend/app/main.py:505-515 | The saved item has the same `now` as `createdAt` and `updatedAt`, the input's name and the resolved user. |
| WordListStore.WordRoundTrip | backend/app/main.py:511 | A word stored with `word.dict()` reads back as the same word. |
| WordListStore.SavedListReadsBack | backend/app/main.py:505-528 | A saved item read back gives the list `save_wordlist` returned. |
| WordListStore.ReadExamples | backend/app/main.py:612-616 | One example per stored example, in order, with a missing `en` or `zh` read as `''`. |
| WordListStore.ReadWords | backend/app/main.py:610-623 | One word per stored word, in order, with missing attributes read as `''` or `[]`. |
| WordListStore.ReadList | backend/app/main.py:606-633 | The list read from an item matches the item, with missing attributes read as defaults. |
| WordListStore.WordListTable.SaveWordList | backend/app/main.py:490-528 | Puts the item under the fresh id, replacing any item with that id, and returns the input with that id and one timestamp twice. |
| WordListStore.WordListTable.GetWordList | backend/app/main.py:586-638 | A missing id gives 404 `单词列表不存在: <id>`. A present one gives the list read from its item. |
| WordListStore.WordListTable.GetWordLists | backend/app/main.py:533-584 | The user's lists: each item whose `userId` is the one asked for, each id once and no other; every list is read from its item. |
| WordListStore.SaveThenGet | backend/app/main.py:490-638 | A list read back right after saving it is the list the save returned. |
| JsText.Trim | src/app/input/page.tsx:16 | `trim()` gives `''` exactly for all-white-space text. The result has no white space at its ends. Text with none at its ends is unchanged. |
| JsText.TrimIsSlice | src/app/input/page.tsx:16 | `trim()` removes white space only, and only at the two ends. |
| JsValues.Property | src/app/api/speech/generate/route.ts:12 | For the names the routes read (`text`, `name`, `words`, `audio`), reading a property of `null` or `undefined` throws. An object gives its own property, or `undefined` when it has none. Any other value gives `undefined`. |
| JsValues.IsNonBlankString | src/app/api/speech/generate/route.ts:14 | The check `!(!v \|\| typeof v !== 'string' \|\| v.trim() === '')` holds exactly for a string that is not all white space. |
| JsValues.MessageOf | src/app/api/speech/generate/route.ts:42-44 | The message of an `Error`, and otherwise the route's fallback text. |
| SpeechRoute.HandlePost | src/app/api/speech/generate/route.ts:5-53 | A missing, non-string or blank `text` is a 400 and nothing is forwarded. A valid one is forwarded as exactly `{ text }` and the backend's data comes back unchanged, unless it is `null`. Logging `response.data.audio` on `null` throws, and the answer is a 500. A thrown error, an unparsable body or a `null` body gives a 500 `{ error }`. |
| WordListSaveRoute.HandlePost | src/app/api/wordlist/save/route.ts:5-41 | A 400 for an invalid `name`, checked before `words`, then a 400 for a missing or empty `words` array. Otherwise `{ name, words }` is forwarded and the reply passed through; errors give a 500. |
| WordsProcessRoute.HandlePost | src/app/api/words/process/route.ts:5-35 | A 400 unless `words` is a non-empty array. Otherwise `{ words }` is forwarded and the reply passed through; errors give a 500. |
| WordsProcessRoute.ElementsUnchecked | src/app/api/words/process/route.ts:9 | The elements are not checked: any non-empty array is forwarded as it is. |
| InputPage.Pieces | src/app/input/page.tsx:23 | `split(/[\s,\n]+/)` gives at least one piece, and no piece holds a separator. |
| InputPage.PiecesNoSepPrefix | src/app/input/page.tsx:23 | Text without a separator at the start of the input belongs to the first piece. |
| InputPage.SeparatorEndsPiece | src/app/input/page.tsx:23 | A separator ends a piece: the separator-free text before it is a piece of its own, and the rest is split after the separator run. |
| InputPage.PiecesOfWord | src/app/input/page.tsx:23 | Text without a separator is one piece. |
| InputPage.TrimAll | src/app/input/page.tsx:24 | `map(trim)` keeps the count and trims each piece. |
| InputPage.NonEmpty | src/app/input/page.tsx:25 | `filter(w => w.length > 0)` keeps only non-empty words and never adds any. |
| InputPage.NonEmptyAppend | src/app/input/page.tsx:25 | Filtering distributes over concatenation: each element is kept or dropped on its own, in order. |
| InputPage.NonEmptySingle | src/app/input/page.tsx:25 | One element is kept exactly when it is non-empty. |
| InputPage.Tokens | src/app/input/page.tsx:22-25 | The tokenizer chain gives non-empty words only. Its content is stated by the lemmas below. |
| InputPage.TokensArePieces | src/app/input/page.tsx:22-25 | `map(trim)` changes no piece, so the words are the non-empty pieces. |
| InputPage.TokensDropLeadingSep | src/app/input/page.tsx:22-25 | A leading separator contributes no word. |
| InputPage.TokensOfWord | src/app/input/page.tsx:22-25 | A non-empty text without separators is exactly one word. |
| InputPage.TokensSplitAfterWord | src/app/input/page.tsx:22-25 | The words of a separator-free text, a separator and the rest are that text's word followed by the rest's words. |
| InputPage.TokensSplitAtSeparator | src/app/input/page.tsx:21-25 | Every separator splits: the words of `a`, a separator, then `b` are the words of `a` followed by the words of `b`. |
| InputPage.TokensSound | src/app/input/page.tsx:22-25 | Every token is non-empty and has no white space or comma. Written out together, the tokens are the input with its separators deleted: nothing is reordered, case-folded or de-duplicated. |
| InputPage.NoTokensIff | src/app/input/page.tsx:22-30 | No token comes out exactly when the input contains nothing but separators. |
| InputPage.BlankHasNoTokens | src/app/input/page.tsx:16-30 | Blank input gives no tokens, so the first check only refuses what the second would. |
| InputPage.SeparatorsOnlyPassFirstCheck | src/app/input/page.tsx:16-30 | `", ,"` passes the blank check but gives no tokens, so the second check refuses it. |
| InputPage.CheckInput | src/app/input/page.tsx:16-30 | The two checks pass exactly when there is a token, and the tokens are what gets posted. |
| InputPage.InputForm.SetInput | src/app/input/page.tsx:68 | Typing replaces the text and changes nothing else. |
| InputPage.InputForm.HandleSubmit | src/app/input/page.tsx:13-51 | With no tokens it sets the error and posts nothing. Otherwise it posts exactly the tokens once and ends loading. On success it clears the error and goes to the learn page; on failure it sets the request error. |
| Markers.Strip | src/app/learn/page.tsx:194 | `replace(/\*\*/g, '')` never lengthens the text and keeps a non-`*` first character. Its content is stated by `StripKeepsPlain`, `StripStarRun` and the other Strip lemmas. |
| Markers.StripHasNoMarker | src/app/learn/page.tsx:194 | The text sent to speech never contains `**`. |
| Markers.StripIdempotent | src/app/learn/page.tsx:194 | Stripping again changes nothing. |
| Markers.StripUnmarked | src/app/learn/page.tsx:194 | Text without `**` is sent to speech as written. |
| Markers.StripKeepsLetters | src/app/learn/page.tsx:194 | Only `*` characters are removed: every other character survives, in order. |
| Markers.StripKeepsPlain | src/app/learn/page.tsx:194 | A character other than `*` is sent to speech as it is, before the rest of the text. |
| Markers.StripStarRun | src/app/learn/page.tsx:194 | A maximal run of k stars keeps k % 2 of them, since `**` is removed two at a time from the left: `a***b` is spoken as `a*b`. |
| Markers.Highlight | src/app/learn/page.tsx:195 | The left-to-right `<strong>` replacement keeps a first character that is not `*`. Its content is stated by `HighlightMarked`, `HighlightKeepsUnmatched`, `MatchIsMarked`, `HighlightNoMarkedWord`, `HighlightStarFreePrefix`, `HighlightUnmarked` and `FourStarsUnchanged`. |
| Markers.MatchIsMarked | src/app/learn/page.tsx:195 | The pattern matches only a marked word: its capture x is non-empty and holds no `*`, and the text starts with `**x**`. |
| Markers.HighlightKeepsUnmatched | src/app/learn/page.tsx:195 | Where no marked word `**x**` starts, the character is kept and the scan moves on by one, even for a `*`. With `HighlightMarked` this fixes the display of every text. |
| Markers.HighlightNoMarkedWord | src/app/learn/page.tsx:195 | Text in which no stretch is a marked word `**x**` is displayed unchanged, so an unclosed `**` such as `a**b` is kept. |
| Markers.HighlightMarked | src/app/learn/page.tsx:195 | Each `**x**`, with x non-empty and without `*`, becomes `<strong class="...">x</strong>`, and the scan resumes after it. |
| Markers.HighlightStarFreePrefix | src/app/learn/page.tsx:195 | Text before the first `*` is displayed as it is. |
| Markers.HighlightUnmarked | src/app/learn/page.tsx:195 | Text without `**` is displayed unchanged. |
| Markers.FourStarsUnchanged | src/app/learn/page.tsx:195 | `****` captures nothing and is displayed as it is. |
| Markers.Render | src/app/review/page.tsx:205-208 | An example's spoken text has no marker and loses no letter; the translation is shown unchanged; marker-free text is spoken and shown as written. |
| Deck.NextIndex | src/app/learn/page.tsx:103-107 | Next moves forward by one exactly when not on the last card, and otherwise changes nothing; it never leaves the deck. |
| Deck.PreviousIndex | src/app/learn/page.tsx:109-113 | Previous moves back by one exactly when not on the first card, and otherwise changes nothing. |
| Deck.DisabledIffNoOp | src/app/learn/page.tsx:203-217 | On a card, each button is disabled exactly when pressing it would change nothing. |
| Deck.WalkStaysInDeck | src/app/learn/page.tsx:20-113 | From a card, any sequence of Next and Previous presses stays within `0 .. words.length - 1`. |
| Deck.NextRepeated | src/app/learn/page.tsx:103-107 | Pressing Next k times moves forward k cards and then stays on the last. |
| Deck.PreviousRepeated | src/app/learn/page.tsx:109-113 | Pressing Previous k times moves back k cards and then stays on the first. |
| LearnPage.LearnView | src/app/learn/page.tsx:115-217 | Loading comes first, then the error. The no-words view shows exactly when `words[currentIndex]` is undefined. Otherwise the card shows the current word, its position `currentIndex + 1` out of `words.length`, its highlighted examples and the disabled buttons. |
| LearnPage.LearnSession.Load | src/app/learn/page.tsx:25-44 | Missing data or unparsable JSON sets the matching error; parsed words are taken as they are. Loading ends in every case. |
| LearnPage.LearnSession.HandleNext | src/app/learn/page.tsx:103-107 | The index becomes `NextIndex` of the old one, nothing else changes, and the bounds invariant holds. |
| LearnPage.LearnSession.HandlePrevious | src/app/learn/page.tsx:109-113 | The index becomes `PreviousIndex` of the old one, nothing else changes, and the bounds invariant holds. |
| LearnPage.Browse | src/app/learn/page.tsx:25-113 | After loading non-empty words and any presses, the page shows a card: the one the walk of the presses predicts. |
| ReviewPage.Step | src/app/review/page.tsx:88-102 | A move that changes the index hides the meaning and the examples. A move at a bound changes nothing. A reveal button sets only its own flag and does not move the card. |
| ReviewPage.ReplayFollowsWalk | src/app/review/page.tsx:88-102 | Over any button sequence, the index follows the Previous and Next presses alone. |
| ReviewPage.ReplayStaysInDeck | src/app/review/page.tsx:20-102 | Over any button sequence, the index stays on a card. |
| ReviewPage.MeaningNeedsItsButton | src/app/review/page.tsx:165-176 | A hidden meaning stays hidden unless its button is pressed. |
| ReviewPage.ExamplesNeedTheirButton | src/app/review/page.tsx:189-197 | Hidden examples stay hidden unless their button is pressed. |
| ReviewPage.RevealsOnly | src/app/review/page.tsx:165-197 | Without a Previous or Next press the card stays put, and each flag ends up set exactly when it was already set or its button was pressed. |
| ReviewPage.Swap | src/app/review/page.tsx:40 | One exchange of the sort keeps the length and the multiset. |
| ReviewPage.ShufflePermutes | src/app/review/page.tsx:38-41 | The shuffled deck holds exactly the stored words, each as often as it was stored. |
| ReviewPage.ShuffledCopy | src/app/review/page.tsx:40 | Sorting the copy in place by the given exchanges gives the shuffle, with the same multiset. |
| ReviewPage.ReviewView | src/app/review/page.tsx:104-233 | Screens in the same order as the learn page. The card shows its position `currentIndex + 1` out of `words.length`. The meaning and the examples show exactly when their flags are set. The examples are highlighted with `text-accent`. The buttons are disabled exactly when pressing them would change nothing. |
| ReviewPage.ReviewSession.Load | src/app/review/page.tsx:27-48 | Missing data or unparsable JSON sets the matching error. Parsed words become the shuffled deck with the same multiset. Loading ends in every case. |
| ReviewPage.ReviewSession.HandleNext | src/app/review/page.tsx:88-94 | The card becomes `Step` of the old card with Next; the words do not change. |
| ReviewPage.ReviewSession.HandlePrevious | src/app/review/page.tsx:96-102 | The card becomes `Step` of the old card with Previous; the words do not change. |
| ReviewPage.ReviewSession.ShowMeaning | src/app/review/page.tsx:168 | The card becomes `Step` of the old card with the meaning reveal; the bounds invariant holds. |
| ReviewPage.ReviewSession.ShowExamples | src/app/review/page.tsx:193 | The card becomes `Step` of the old card with the examples reveal; the bounds invariant holds. |

## Left out

- Reading and writing files, and their I/O errors, are not modelled. The cache directory is a map from file name to bytes and creation time.
- The `except` branches of `/cache-stats` and `/clear-cache` are left out: no map operation can fail.
- `total_size_mb`, a rounded float, is left out.
- Timestamps are integers and `now` is an opaque string. ISO formatting is not modelled.
- Requests are handled one at a time. Concurrent requests racing on the same cache file or table are not modelled.
- MD5 is a parameter of the cache, not an implementation, so collisions are stated as a possibility rather than ruled out.
- Polly's and Bedrock's request parameters, voice and prompt text are left out. Their replies are oracles.
- `call_bedrock_claude`'s JSON decoding is left out. Its result enters as an already-parsed value or as "unusable".
- WordListStore.SaveThenGet: the read-after-write holds for the map only. `get_item` at `backend/app/main.py:600` passes no `ConsistentRead`, so DynamoDB may answer from a replica that has not seen the save yet. The `UserIdIndex` query behind `/get-wordlists` is never strongly consistent either.
- DynamoDB is a map from id to item. The `UserIdIndex` query is the set of items with that user. Table creation, client errors, their 500 answers and result pagination are not modelled.
- An explicit `null` `userId` in a save request is not distinguished from a string.
- WordProcessing.ShapeEntry: pydantic's coercions are not modelled. A number or a bool in a string field is treated as a validation error, and any extra keys are ignored.
- WordProcessing.Detail: a library exception's message (TypeError, ValidationError) is not modelled, so the detail is None there.
- WordProcessing.Lower: only `A`-`Z` is lower-cased, so as a function it differs from Python's `lower()` on other letters. The lookup it serves is exact all the same. The only characters outside `A`-`Z` that Python lower-cases into ASCII are U+0130 (to `i` plus a combining dot) and U+212A (to `k`). No `MOCK_DATA` key contains `i` or `k`. The template uses the word as given, not its lower-cased form.
- Characters are Unicode scalar values. Lone surrogates, which a JavaScript string can hold, are not modelled.
- JsValues.DestructureTypeError and JsValues.PropertyReadTypeError: the TypeError messages are placeholders, not the JavaScript engine's wording. The `error` string of those 500 answers is therefore not the one the routes send.
- The re-wrapped detail `处理单词时出错: 500: 处理单词失败，请稍后再试` assumes `str(HTTPException)` reads `status: detail`. That comes from the web framework, which is not part of this model.
- A JSON value in `localStorage` that is not an array of words is not modelled: a page loads Missing, Unparsable or a list of words.
- `localStorage` writes, router navigation, audio playback, the `speechSynthesis` fallback, `console` logging and the backend's `logging.info`/`logging.error` calls are not modelled. The input form records that it navigated; the pages model only the text they send to speech.
- ReviewPage.Shuffle: the random comparator is replaced by the exchanges the sort makes. Any order the sort can produce is some sequence of exchanges, so only "a rearrangement" is stated, not a distribution.
- The learning-record routes and the pass-through proxy routes (`/api/cache-stats`, `/api/clear-cache`, `/api/wordlist/get`, which serves both the GET of a user's lists and the POST for one list, `/api/test-speech`) are not modelled. The backend endpoints the learning-record routes call do not exist in `backend/app/main.py`.
- `/test-speech` and `/`, two fixed-answer backend endpoints, are left out.
- The history page, the landing page and the layout are left out.
