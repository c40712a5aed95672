/**
 * The backend's word-list endpoints over the `WordLists` table:
 * `/save-wordlist` puts an item, `/get-wordlist/{id}` reads one back and
 * `/get-wordlists` lists a user's items, every missing attribute read as `''`
 * or `[]`.
 */
module WordListStore {
  import opened Wrappers
  import opened Words

  const DefaultUser := "default-user"
  const NotFoundPrefix := "单词列表不存在: "

  /** An example as stored: either attribute may be absent from the item. */
  datatype StoredExample = StoredExample(en: Option<string>, zh: Option<string>)

  /** A word as stored (`word.dict()`), each attribute possibly absent. */
  datatype StoredWord = StoredWord(
    word: Option<string>, phonetic: Option<string>, meaning: Option<string>,
    examples: Option<seq<StoredExample>>)

  /** An item of the table other than its key `id`. */
  datatype StoredItem = StoredItem(
    name: Option<string>, words: Option<seq<StoredWord>>, userId: Option<string>,
    createdAt: Option<string>, updatedAt: Option<string>)

  /** The body of `/save-wordlist`; `userId` None means the field was omitted. */
  datatype WordListInput = WordListInput(name: string, words: seq<Word>, userId: Option<string>)

  /** A word list as the endpoints return it. */
  datatype WordList = WordList(
    id: string, name: string, words: seq<Word>, userId: string, createdAt: string, updatedAt: string)

  datatype GetReply = Found(list: WordList) | NotFound(status: int, detail: string)

  /** The user an input is saved for: pydantic's default when omitted. */
  function UserIdOf(input: WordListInput): (u: string)
    ensures input.userId.None? ==> u == DefaultUser
    ensures input.userId.Some? ==> u == input.userId.value
  {
    input.userId.GetOr(DefaultUser)
  }

  function StoredExampleOf(e: Example): StoredExample {
    StoredExample(Some(e.en), Some(e.zh))
  }

  function StoredWordOf(w: Word): StoredWord {
    StoredWord(Some(w.word), Some(w.phonetic), Some(w.meaning),
               Some(seq(|w.examples|, i requires 0 <= i < |w.examples| => StoredExampleOf(w.examples[i]))))
  }

  /** The item `save_wordlist` puts: both timestamps are the same `now`. */
  function StoredItemOf(input: WordListInput, now: string): (item: StoredItem)
    ensures item.createdAt == item.updatedAt == Some(now)
    ensures item.userId == Some(UserIdOf(input)) && item.name == Some(input.name)
  {
    StoredItem(Some(input.name),
               Some(seq(|input.words|, i requires 0 <= i < |input.words| => StoredWordOf(input.words[i]))),
               Some(UserIdOf(input)), Some(now), Some(now))
  }

  /** `Example(en=d.get('en', ''), zh=d.get('zh', ''))`. */
  function ExampleOf(s: StoredExample): Example {
    Example(s.en.GetOr(""), s.zh.GetOr(""))
  }

  /** `Word(...)` from a stored word, absent attributes read as `''` and `[]`. */
  function WordOf(s: StoredWord): Word {
    var es := s.examples.GetOr([]);
    Word(s.word.GetOr(""), s.phonetic.GetOr(""), s.meaning.GetOr(""),
         seq(|es|, i requires 0 <= i < |es| => ExampleOf(es[i])))
  }

  /** The list the read endpoints build from the item stored under `id`. */
  function ListOf(id: string, item: StoredItem): WordList {
    var ws := item.words.GetOr([]);
    WordList(id, item.name.GetOr(""), seq(|ws|, i requires 0 <= i < |ws| => WordOf(ws[i])),
             item.userId.GetOr(""), item.createdAt.GetOr(""), item.updatedAt.GetOr(""))
  }

  /** A stored word reads back as the word that was stored. */
  lemma WordRoundTrip(w: Word)
    ensures WordOf(StoredWordOf(w)) == w
  {
    var es := StoredWordOf(w).examples.value;
    assert seq(|es|, i requires 0 <= i < |es| => ExampleOf(es[i])) == w.examples;
  }

  /**
   * What `save_wordlist` returns is what a later `get_wordlist` of the same id
   * reads back: the name, the words, the user and one timestamp twice.
   */
  lemma {:induction false} SavedListReadsBack(input: WordListInput, id: string, now: string)
    ensures ListOf(id, StoredItemOf(input, now))
            == WordList(id, input.name, input.words, UserIdOf(input), now, now)
  {
    var ws := StoredItemOf(input, now).words.value;
    forall i | 0 <= i < |ws| ensures WordOf(ws[i]) == input.words[i] {
      WordRoundTrip(input.words[i]);
    }
    assert seq(|ws|, i requires 0 <= i < |ws| => WordOf(ws[i])) == input.words;
  }

  /** The inner loop of the readers: one `Example` per stored example, in order. */
  method ReadExamples(stored: seq<StoredExample>) returns (es: seq<Example>)
    ensures |es| == |stored|
    ensures forall i :: 0 <= i < |stored| ==> es[i] == ExampleOf(stored[i])
  {
    es := [];
    for i := 0 to |stored|
      invariant |es| == i
      invariant forall k :: 0 <= k < i ==> es[k] == ExampleOf(stored[k])
    {
      es := es + [Example(stored[i].en.GetOr(""), stored[i].zh.GetOr(""))];
    }
  }

  /** The outer loop of the readers: one `Word` per stored word, in order. */
  method ReadWords(stored: seq<StoredWord>) returns (ws: seq<Word>)
    ensures |ws| == |stored|
    ensures forall i :: 0 <= i < |stored| ==> ws[i] == WordOf(stored[i])
  {
    ws := [];
    for i := 0 to |stored|
      invariant |ws| == i
      invariant forall k :: 0 <= k < i ==> ws[k] == WordOf(stored[k])
    {
      var s := stored[i];
      var examples := ReadExamples(s.examples.GetOr([]));
      ws := ws + [Word(s.word.GetOr(""), s.phonetic.GetOr(""), s.meaning.GetOr(""), examples)];
    }
  }

  /** One item read into a list, as both read endpoints do. */
  method ReadList(id: string, item: StoredItem) returns (l: WordList)
    ensures l == ListOf(id, item)
  {
    var words := ReadWords(item.words.GetOr([]));
    l := WordList(id, item.name.GetOr(""), words, item.userId.GetOr(""),
                  item.createdAt.GetOr(""), item.updatedAt.GetOr(""));
  }

  /** The ids of the lists in `r`. */
  function Ids(r: seq<WordList>): set<string> {
    set k | 0 <= k < |r| :: r[k].id
  }

  lemma IdsAppend(r: seq<WordList>, l: WordList)
    ensures Ids(r + [l]) == Ids(r) + {l.id}
  {
    var t := r + [l];
    forall x | x in Ids(t) ensures x in Ids(r) + {l.id} {
      var k :| 0 <= k < |t| && t[k].id == x;
      if k < |r| { assert r[k] == t[k]; }
    }
    forall x | x in Ids(r) ensures x in Ids(t) {
      var k :| 0 <= k < |r| && r[k].id == x;
      assert t[k] == r[k];
    }
    assert t[|r|] == l;
  }

  /** The `WordLists` table, keyed by `id`. */
  class WordListTable {
    var items: map<string, StoredItem>

    constructor (items: map<string, StoredItem>)
      ensures this.items == items
    {
      this.items := items;
    }

    /**
     * `save_wordlist`. `listId` is the fresh `uuid4()` and `now` the
     * `datetime.now()` of the call; `put_item` replaces any item with that id.
     */
    method SaveWordList(input: WordListInput, listId: string, now: string) returns (r: WordList)
      modifies this
      ensures items == old(items)[listId := StoredItemOf(input, now)]
      ensures r == WordList(listId, input.name, input.words, UserIdOf(input), now, now)
    {
      items := items[listId := StoredItemOf(input, now)];
      r := WordList(listId, input.name, input.words, UserIdOf(input), now, now);
    }

    /** `get_wordlist`: a 404 naming the id when it is absent, re-raised unchanged. */
    method GetWordList(listId: string) returns (r: GetReply)
      ensures listId !in items <==> r.NotFound?
      ensures r.NotFound? ==> r.status == 404 && r.detail == NotFoundPrefix + listId
      ensures r.Found? ==> r.list == ListOf(listId, items[listId])
    {
      if listId !in items {
        return NotFound(404, NotFoundPrefix + listId);
      }
      var l := ReadList(listId, items[listId]);
      r := Found(l);
    }

    /** The ids the `UserIdIndex` query yields for `userId`. */
    ghost function OwnedBy(userId: string): set<string>
      reads this
    {
      set id | id in items && items[id].userId == Some(userId)
    }

    /**
     * `get_wordlists`: one list per item whose `userId` is the one asked for,
     * each id once; the index has no sort key, so the order is unspecified.
     */
    method GetWordLists(userId: string) returns (r: seq<WordList>)
      ensures Ids(r) == OwnedBy(userId)
      ensures forall k, l :: 0 <= k < l < |r| ==> r[k].id != r[l].id
      ensures forall k :: 0 <= k < |r| ==> r[k].id in items && r[k] == ListOf(r[k].id, items[r[k].id])
      ensures forall k :: 0 <= k < |r| ==> r[k].userId == userId
    {
      var todo := items.Keys;
      ghost var seen: set<string> := {};
      r := [];
      while todo != {}
        invariant seen !! todo && seen + todo == items.Keys
        invariant Ids(r) == set id | id in seen && items[id].userId == Some(userId)
        invariant forall k, l :: 0 <= k < l < |r| ==> r[k].id != r[l].id
        invariant forall k :: 0 <= k < |r| ==> r[k].id in seen && r[k] == ListOf(r[k].id, items[r[k].id])
        invariant forall k :: 0 <= k < |r| ==> items[r[k].id].userId == Some(userId)
        decreases todo
      {
        var id :| id in todo;
        if items[id].userId == Some(userId) {
          var l := ReadList(id, items[id]);
          IdsAppend(r, l);
          r := r + [l];
        }
        seen := seen + {id};
        todo := todo - {id};
      }
    }
  }

  /** A list read back right after it is saved is the list the save returned. */
  method SaveThenGet(table: WordListTable, input: WordListInput, listId: string, now: string)
      returns (saved: WordList, got: GetReply)
    modifies table
    ensures got == Found(saved)
    ensures saved.createdAt == saved.updatedAt == now && saved.userId == UserIdOf(input)
  {
    saved := table.SaveWordList(input, listId, now);
    got := table.GetWordList(listId);
    SavedListReadsBack(input, listId, now);
  }
}
