/**
 * The flash-card deck shared by the learn and review pages: the stored words
 * it is built from, and a current index into them that the Previous and Next
 * buttons move by one, never past either end.
 */
module Deck {
  import opened Words

  const MissingMessage := "没有找到单词数据，请先输入单词"
  const ParseErrorMessage := "加载单词数据时出错"

  /**
   * What `localStorage.getItem('processedWords')` gives the pages, parsed:
   * `Missing` for null or the empty string, `Unparsable` when `JSON.parse` throws.
   */
  datatype Stored = Missing | Unparsable | Parsed(words: seq<Word>)

  datatype Move = Next | Previous

  /** The index is on a card of a deck of `count` cards. */
  predicate InDeck(index: int, count: int) {
    0 <= index < count
  }

  /** `handleNext`: forward by one unless on the last card. */
  function NextIndex(index: int, count: int): (r: int)
    ensures r == index + 1 <==> index < count - 1
    ensures r != index + 1 ==> r == index
    ensures InDeck(index, count) ==> InDeck(r, count)
  {
    if index < count - 1 then index + 1 else index
  }

  /** `handlePrevious`: back by one unless on the first card. */
  function PreviousIndex(index: int): (r: int)
    ensures r == index - 1 <==> index > 0
    ensures r != index - 1 ==> r == index
    ensures 0 <= index ==> 0 <= r <= index
  {
    if index > 0 then index - 1 else index
  }

  function MoveIndex(index: int, count: int, m: Move): int {
    match m
    case Next => NextIndex(index, count)
    case Previous => PreviousIndex(index)
  }

  /** The index after the buttons are pressed in the order given. */
  function Walk(index: int, count: int, moves: seq<Move>): int
    decreases |moves|
  {
    if moves == [] then index else Walk(MoveIndex(index, count, moves[0]), count, moves[1..])
  }

  /** The disabled attributes of the two buttons. */
  predicate PreviousDisabled(index: int) {
    index == 0
  }

  predicate NextDisabled(index: int, count: int) {
    index == count - 1
  }

  /** On a card, a button is disabled exactly when pressing it would change nothing. */
  lemma DisabledIffNoOp(index: int, count: int)
    requires InDeck(index, count)
    ensures PreviousDisabled(index) <==> PreviousIndex(index) == index
    ensures NextDisabled(index, count) <==> NextIndex(index, count) == index
  {
  }

  /** Starting on a card, no sequence of presses leaves the deck. */
  lemma {:induction false} WalkStaysInDeck(index: int, count: int, moves: seq<Move>)
    requires InDeck(index, count)
    ensures InDeck(Walk(index, count, moves), count)
    decreases |moves|
  {
    if moves != [] {
      WalkStaysInDeck(MoveIndex(index, count, moves[0]), count, moves[1..]);
    }
  }

  function Repeat(m: Move, k: nat): (r: seq<Move>)
    ensures |r| == k && forall i :: 0 <= i < k ==> r[i] == m
  {
    seq(k, _ => m)
  }

  /** Pressing Next `k` times walks forward `k` cards and then stays on the last one. */
  lemma {:induction false} NextRepeated(index: int, count: int, k: nat)
    requires InDeck(index, count)
    ensures Walk(index, count, Repeat(Next, k)) == if index + k < count then index + k else count - 1
    decreases k
  {
    if k > 0 {
      assert Repeat(Next, k)[1..] == Repeat(Next, k - 1);
      NextRepeated(NextIndex(index, count), count, k - 1);
    }
  }

  /** Pressing Previous `k` times walks back `k` cards and then stays on the first one. */
  lemma {:induction false} PreviousRepeated(index: int, count: int, k: nat)
    requires InDeck(index, count)
    ensures Walk(index, count, Repeat(Previous, k)) == if index >= k then index - k else 0
    decreases k
  {
    if k > 0 {
      assert Repeat(Previous, k)[1..] == Repeat(Previous, k - 1);
      PreviousRepeated(PreviousIndex(index), count, k - 1);
    }
  }
}
