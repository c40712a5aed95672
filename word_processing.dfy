/**
 * The backend's `POST /process-words`: the provider's JSON answer is shaped
 * into `Word` records, entry by entry, and when the provider cannot be used
 * `call_bedrock_claude` builds a mock answer instead.
 */
module WordProcessing {
  import opened Wrappers
  import opened Words

  /** A value produced by `json.loads`, as Python holds it. */
  datatype Py =
    | PyNone
    | PyBool(b: bool)
    | PyNumber(n: real)
    | PyStr(s: string)
    | PyList(items: seq<Py>)
    | PyDict(entries: map<string, Py>)

  /**
   * What `call_bedrock_claude` obtained from the provider: the completion text
   * parsed as JSON, or nothing usable (the client raised, or the completion was
   * not JSON), in which case it falls back to the mock answer.
   */
  datatype BedrockReply = Completion(value: Py) | Unusable

  /** Why a request fails. */
  datatype Failure =
    | NoWordsGiven   // the request's `words` is empty: 400 before the provider is asked
    | NoneUsable     // no provider entry survived: the inner 500, re-raised by the outer handler
    | Raised         // a TypeError or pydantic ValidationError from the provider's JSON: 500

  datatype ProcessResult = Processed(words: seq<Word>) | Failed(failure: Failure)

  const NoWordsDetail := "请提供至少一个单词"
  const OuterPrefix := "处理单词时出错: "
  const NoneUsableDetail := "处理单词失败，请稍后再试"

  /** The HTTP status of a failure. */
  function Status(f: Failure): (code: int)
    ensures code == 400 <==> f == NoWordsGiven
    ensures code == 400 || code == 500
  {
    if f == NoWordsGiven then 400 else 500
  }

  /**
   * The `detail` of a failure when it is fully determined by the code. The
   * inner 500 is caught by `except Exception` and re-raised with
   * `str(e)`, which for an `HTTPException` reads "status: detail". A
   * `Raised` detail is the prefix followed by a library message (None).
   */
  function Detail(f: Failure): (d: Option<string>)
    ensures d.None? <==> f == Raised
    ensures f == NoWordsGiven ==> d == Some(NoWordsDetail)
    ensures f == NoneUsable ==> d == Some(OuterPrefix + "500: " + NoneUsableDetail)
  {
    match f
    case NoWordsGiven => Some(NoWordsDetail)
    case NoneUsable => Some(OuterPrefix + "500: " + NoneUsableDetail)
    case Raised => None
  }

  /** The four keys `Word(...)` reads from a provider entry. */
  const WordKeys: set<string> := {"word", "phonetic", "meaning", "examples"}

  /** `needle in haystack` for Python strings. */
  predicate Contains(haystack: string, needle: string)
    decreases |haystack|
  {
    |needle| <= |haystack| && (haystack[..|needle|] == needle || Contains(haystack[1..], needle))
  }

  lemma {:induction false} ContainsInfix(a: string, needle: string, b: string)
    ensures Contains(a + needle + b, needle)
    decreases |a|
  {
    var h := a + needle + b;
    if a == [] {
      assert h[..|needle|] == needle;
    } else {
      ContainsInfix(a[1..], needle, b);
      assert h[1..] == a[1..] + needle + b;
    }
  }

  /** pydantic's `Example` from one element of `examples`: a dict with string `en` and `zh`. */
  function ShapeExample(v: Py): (r: Option<Example>)
    ensures r.Some? <==> v.PyDict? && "en" in v.entries && "zh" in v.entries
                         && v.entries["en"].PyStr? && v.entries["zh"].PyStr?
    ensures r.Some? ==> r.value == Example(v.entries["en"].s, v.entries["zh"].s)
  {
    if v.PyDict? && "en" in v.entries && "zh" in v.entries
       && v.entries["en"].PyStr? && v.entries["zh"].PyStr?
    then Some(Example(v.entries["en"].s, v.entries["zh"].s))
    else None
  }

  /** pydantic's `List[Example]`: valid only when every element is. */
  function ShapeExamples(vs: seq<Py>): (r: Option<seq<Example>>)
    ensures r.Some? <==> forall i :: 0 <= i < |vs| ==> ShapeExample(vs[i]).Some?
    ensures r.Some? ==> |r.value| == |vs|
                        && forall i :: 0 <= i < |vs| ==> r.value[i] == ShapeExample(vs[i]).value
  {
    if vs == [] then Some([])
    else match (ShapeExample(vs[0]), ShapeExamples(vs[1..]))
      case (Some(e), Some(es)) => Some([e] + es)
      case _ => None
  }

  /**
   * One iteration of the shaping loop. A dict lacking one of the four keys
   * raises KeyError, which is caught and the entry skipped; a value that is
   * not a dict cannot be subscripted with a string (TypeError), and a dict
   * whose values do not fit the `Word` model fails validation; both escape
   * the loop.
   */
  function ShapeEntry(v: Py): (s: Step)
    ensures s.Skip? <==> v.PyDict? && !(WordKeys <= v.entries.Keys)
    ensures s.Keep? <==>
              v.PyDict? && WordKeys <= v.entries.Keys
              && v.entries["word"].PyStr? && v.entries["phonetic"].PyStr? && v.entries["meaning"].PyStr?
              && v.entries["examples"].PyList? && ShapeExamples(v.entries["examples"].items).Some?
    ensures s.Keep? ==>
              s.word == Word(v.entries["word"].s, v.entries["phonetic"].s, v.entries["meaning"].s,
                             ShapeExamples(v.entries["examples"].items).value)
  {
    match v
    case PyDict(m) =>
      if !(WordKeys <= m.Keys) then Skip
      else if m["word"].PyStr? && m["phonetic"].PyStr? && m["meaning"].PyStr? && m["examples"].PyList? then
        match ShapeExamples(m["examples"].items)
        case Some(es) => Keep(Word(m["word"].s, m["phonetic"].s, m["meaning"].s, es))
        case None => Raise
      else Raise
    case _ => Raise
  }

  datatype Step = Keep(word: Word) | Skip | Raise

  /**
   * The words the loop has collected after visiting `es` in order, or None
   * once an entry has raised.
   */
  function Survivors(es: seq<Py>): (r: Option<seq<Word>>)
    ensures r.Some? ==> |r.value| <= |es|
  {
    if es == [] then Some([])
    else
      match Survivors(es[..|es| - 1])
      case None => None
      case Some(ws) =>
        match ShapeEntry(es[|es| - 1])
        case Keep(w) => Some(ws + [w])
        case Skip => Some(ws)
        case Raise => None
  }

  /** The loop raises exactly when some entry raises. */
  lemma {:induction false} SurvivorsNoneIff(es: seq<Py>)
    ensures Survivors(es).None? <==> exists i :: 0 <= i < |es| && ShapeEntry(es[i]).Raise?
  {
    if es != [] {
      var init := es[..|es| - 1];
      SurvivorsNoneIff(init);
      if exists i :: 0 <= i < |init| && ShapeEntry(init[i]).Raise? {
        var i :| 0 <= i < |init| && ShapeEntry(init[i]).Raise?;
        assert es[i] == init[i];
      }
      if exists i :: 0 <= i < |es| && ShapeEntry(es[i]).Raise? {
        var i :| 0 <= i < |es| && ShapeEntry(es[i]).Raise?;
        if i < |init| { assert init[i] == es[i]; }
      }
    }
  }

  /**
   * The survivors are the kept entries, in the provider's order: `idx` lists
   * the positions they came from, increasing, and every entry left out of it
   * was skipped for a missing key.
   */
  lemma {:induction false} SurvivorsInOrder(es: seq<Py>) returns (idx: seq<int>)
    requires Survivors(es).Some?
    ensures |idx| == |Survivors(es).value|
    ensures forall k :: 0 <= k < |idx| ==> 0 <= idx[k] < |es|
    ensures forall k, l :: 0 <= k < l < |idx| ==> idx[k] < idx[l]
    ensures forall k :: 0 <= k < |idx| ==> ShapeEntry(es[idx[k]]) == Keep(Survivors(es).value[k])
    ensures forall j :: 0 <= j < |es| && j !in idx ==> ShapeEntry(es[j]).Skip?
  {
    if es == [] {
      idx := [];
    } else {
      var n := |es| - 1;
      var init := es[..n];
      var pre := SurvivorsInOrder(init);
      assert forall j :: 0 <= j < n ==> es[j] == init[j];
      if ShapeEntry(es[n]).Keep? {
        idx := pre + [n];
      } else {
        idx := pre;
      }
    }
  }

  /** When no entry is skipped and none raises, every entry survives, in order. */
  lemma {:induction false} SurvivorsAllKept(es: seq<Py>)
    requires forall i :: 0 <= i < |es| ==> ShapeEntry(es[i]).Keep?
    ensures Survivors(es).Some?
    ensures |Survivors(es).value| == |es|
    ensures forall i :: 0 <= i < |es| ==> Survivors(es).value[i] == ShapeEntry(es[i]).word
  {
    if es != [] {
      var init := es[..|es| - 1];
      assert forall i :: 0 <= i < |init| ==> init[i] == es[i];
      SurvivorsAllKept(init);
    }
  }

  /**
   * The response `process_words` gives for the provider's JSON `result`.
   * `"words" in result` is a key test on a dict, an element test on a list
   * and a substring test on a string, and raises TypeError on anything else;
   * a list or string that passes it then raises on `result["words"]`.
   */
  function Outcome(result: Py): (r: ProcessResult)
    ensures r.Processed? <==>
              result.PyDict? && "words" in result.entries && result.entries["words"].PyList?
              && Survivors(result.entries["words"].items).Some?
              && Survivors(result.entries["words"].items).value != []
    ensures r.Processed? ==> r.words == Survivors(result.entries["words"].items).value
    ensures r.Failed? ==> Status(r.failure) == 500
  {
    match result
    case PyDict(m) =>
      if "words" in m && m["words"].PyList? then
        match Survivors(m["words"].items)
        case None => Failed(Raised)
        case Some(ws) => if ws == [] then Failed(NoneUsable) else Processed(ws)
      else Failed(NoneUsable)
    case PyList(items) => if PyStr("words") in items then Failed(Raised) else Failed(NoneUsable)
    case PyStr(s) => if Contains(s, "words") then Failed(Raised) else Failed(NoneUsable)
    case _ => Failed(Raised)
  }

  // ---------------------------------------------------------------- mock answer

  /** The phonetic, meaning and examples `MOCK_DATA` holds for a word. */
  datatype Gloss = Gloss(phonetic: string, meaning: string, examples: seq<Example>)

  const MockData: map<string, Gloss> := map[
    "apple" := Gloss("/ˈæp.əl/", "苹果", [
      Example("I eat an **apple** every day.", "我每天吃一个苹果。"),
      Example("She cut the **apple** into slices.", "她把苹果切成片。"),
      Example("The **apple** tree produced a lot of fruit this year.", "今年这棵苹果树结了很多果。")]),
    "banana" := Gloss("/bəˈnɑː.nə/", "香蕉", [
      Example("Monkeys love to eat **bananas**.", "猴子喜欢吃香蕉。"),
      Example("I added a **banana** to my smoothie.", "我在冰沙中加了一根香蕉。"),
      Example("The **banana** was perfectly ripe.", "这根香蕉熟得恰到好处。")]),
    "orange" := Gloss("/ˈɒr.ɪndʒ/", "橙子", [
      Example("I squeezed an **orange** to make juice.", "我挤了一个橙子来制作果汁。"),
      Example("The **orange** is a citrus fruit.", "橙子是一种柑橘类水果。"),
      Example("She peeled the **orange** carefully.", "她小心地剥橙子皮。")])
  ]

  /** `str.lower()` on the letters that matter here, `A`-`Z`. */
  function Lower(w: string): (r: string)
    ensures |r| == |w|
    ensures forall i :: 0 <= i < |w| ==> r[i] == if 'A' <= w[i] <= 'Z' then (w[i] as int + 32) as char else w[i]
  {
    if w == [] then []
    else [if 'A' <= w[0] <= 'Z' then (w[0] as int + 32) as char else w[0]] + Lower(w[1..])
  }

  /** The gloss of a word that `MOCK_DATA` does not know. */
  function Template(w: string): (g: Gloss)
    ensures |g.examples| == 3
    ensures forall i :: 0 <= i < 3 ==> Contains(g.examples[i].en, "**" + w + "**")
  {
    var g := Gloss("/ˈmɒk/", w + "的中文含义", [
      Example("This is an example with " + ("**" + w + "**") + ".", "这是一个包含" + w + "的例句。"),
      Example("She used the " + ("**" + w + "**") + " effectively.", "她有效地使用了" + w + "。"),
      Example("Learning about " + ("**" + w + "**") + " is interesting.", "学习关于" + w + "的知识很有趣。")]);
    ContainsInfix("This is an example with ", "**" + w + "**", ".");
    ContainsInfix("She used the ", "**" + w + "**", " effectively.");
    ContainsInfix("Learning about ", "**" + w + "**", " is interesting.");
    g
  }

  /** The gloss the mock answer gives `w`: looked up by its lower-cased form, spelled as given. */
  function GlossOf(w: string): (g: Gloss)
    ensures Lower(w) in MockData ==> g == MockData[Lower(w)]
    ensures Lower(w) !in MockData ==> g == Template(w)
  {
    if Lower(w) in MockData then MockData[Lower(w)] else Template(w)
  }

  function ExampleValue(e: Example): Py {
    PyDict(map["en" := PyStr(e.en), "zh" := PyStr(e.zh)])
  }

  /** The dict the mock answer holds for a word `w` with gloss `g`. */
  function EntryOf(w: string, g: Gloss): (v: Py)
    ensures v.PyDict? && v.entries.Keys == WordKeys && v.entries["word"] == PyStr(w)
  {
    PyDict(map[
      "word" := PyStr(w),
      "phonetic" := PyStr(g.phonetic),
      "meaning" := PyStr(g.meaning),
      "examples" := PyList(seq(|g.examples|, i requires 0 <= i < |g.examples| => ExampleValue(g.examples[i])))])
  }

  /** The dict the mock answer holds for `w`. */
  function MockEntry(w: string): Py {
    EntryOf(w, GlossOf(w))
  }

  /** The mock answer as a value: `{"words": [...]}`, one entry per input word. */
  function MockResult(words: seq<string>): Py {
    PyDict(map["words" := PyList(seq(|words|, i requires 0 <= i < |words| => MockEntry(words[i])))])
  }

  /** A dict built from a gloss survives shaping as the word with that gloss. */
  lemma EntryKept(w: string, g: Gloss)
    ensures ShapeEntry(EntryOf(w, g)) == Keep(Word(w, g.phonetic, g.meaning, g.examples))
  {
    var vs := seq(|g.examples|, i requires 0 <= i < |g.examples| => ExampleValue(g.examples[i]));
    assert EntryOf(w, g).entries["examples"] == PyList(vs);
    assert forall i :: 0 <= i < |vs| ==> ShapeExample(vs[i]) == Some(g.examples[i]);
    assert ShapeExamples(vs).value == g.examples;
  }

  /** Every mock entry survives shaping, with the word spelled as given and its gloss. */
  lemma MockEntryKept(w: string)
    ensures ShapeEntry(MockEntry(w)) == Keep(Word(w, GlossOf(w).phonetic, GlossOf(w).meaning, GlossOf(w).examples))
  {
    EntryKept(w, GlossOf(w));
  }

  /**
   * The fallback yields exactly one processed word per input word, in input
   * order and with the input spelling, with no de-duplication.
   */
  lemma MockAnswerProcessed(words: seq<string>)
    requires words != []
    ensures Outcome(MockResult(words)).Processed?
    ensures |Outcome(MockResult(words)).words| == |words|
    ensures forall i :: 0 <= i < |words| ==>
              Outcome(MockResult(words)).words[i]
              == Word(words[i], GlossOf(words[i]).phonetic, GlossOf(words[i]).meaning, GlossOf(words[i]).examples)
  {
    var es := MockResult(words).entries["words"].items;
    forall i | 0 <= i < |es|
      ensures ShapeEntry(es[i]) == Keep(Word(words[i], GlossOf(words[i]).phonetic, GlossOf(words[i]).meaning, GlossOf(words[i]).examples))
    {
      MockEntryKept(words[i]);
    }
    SurvivorsAllKept(es);
  }

  /** The mock fallback loop of `call_bedrock_claude`: one appended entry per word. */
  method MockFallback(words: seq<string>) returns (result: Py)
    ensures result == MockResult(words)
  {
    var entries: seq<Py> := [];
    for i := 0 to |words|
      invariant |entries| == i
      invariant forall k :: 0 <= k < i ==> entries[k] == MockEntry(words[k])
    {
      entries := entries + [MockEntry(words[i])];
    }
    assert entries == seq(|words|, i requires 0 <= i < |words| => MockEntry(words[i]));
    result := PyDict(map["words" := PyList(entries)]);
  }

  // ---------------------------------------------------------------- the endpoint

  /**
   * The shaping loop of `process_words`: entries are visited in order, kept
   * words appended, skipped ones dropped, and the first entry that raises
   * ends the loop.
   */
  method CollectSurvivors(items: seq<Py>) returns (r: Option<seq<Word>>)
    ensures r == Survivors(items)
  {
    var processed: seq<Word> := [];
    var i := 0;
    while i < |items|
      invariant 0 <= i <= |items|
      invariant Survivors(items[..i]) == Some(processed)
    {
      assert items[..i + 1][..i] == items[..i];
      match ShapeEntry(items[i]) {
        case Keep(w) => processed := processed + [w];
        case Skip =>
        case Raise =>
          assert items[i] == items[..i + 1][i];
          SurvivorsNoneIff(items);
          return None;
      }
      i := i + 1;
    }
    assert items[..i] == items;
    r := Some(processed);
  }

  /**
   * `process_words`. `reply` is what the provider would answer; it is not
   * consulted when `words` is empty, which is refused first.
   */
  method ProcessWords(words: seq<string>, reply: BedrockReply) returns (r: ProcessResult)
    ensures words == [] ==> r == Failed(NoWordsGiven)
    ensures words != [] && reply.Completion? ==> r == Outcome(reply.value)
    ensures words != [] && reply.Unusable? ==> r == Outcome(MockResult(words))
  {
    if words == [] {
      return Failed(NoWordsGiven);
    }
    var result: Py;
    if reply.Completion? {
      result := reply.value;
    } else {
      result := MockFallback(words);
    }
    if !(result.PyDict? && "words" in result.entries && result.entries["words"].PyList?) {
      r := Outcome(result);
      return;
    }
    var survivors := CollectSurvivors(result.entries["words"].items);
    match survivors
    case None => r := Failed(Raised);
    case Some(ws) => r := if ws == [] then Failed(NoneUsable) else Processed(ws);
  }
}
