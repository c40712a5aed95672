/**
 * The learn page: it loads the processed words the input page stored, shows
 * one card at a time with every example highlighted, and pages through them.
 */
module LearnPage {
  import opened Words
  import opened Deck
  import opened Markers

  /** The screen the page renders. */
  datatype View =
    | Loading
    | ErrorView(message: string)
    | NoWords
    | CardView(word: Word, position: int, total: int, examples: seq<RenderedExample>,
               previousDisabled: bool, nextDisabled: bool)

  /**
   * The page's render: the loading and error screens first, then the no-words
   * screen when `words[currentIndex]` is undefined, else the current card.
   */
  function LearnView(isLoading: bool, error: string, words: seq<Word>, index: int): (v: View)
    ensures isLoading <==> v.Loading?
    ensures !isLoading && error != "" ==> v == ErrorView(error)
    ensures !isLoading && error == "" ==> (v.NoWords? <==> !InDeck(index, |words|))
    ensures v.CardView? ==> v.word == words[index] && v.total == |words| && v.position == index + 1 && 1 <= v.position <= v.total
    ensures v.CardView? ==> v.examples == RenderAll(words[index].examples, LearnClass)
    ensures v.CardView? ==>
              (v.previousDisabled <==> PreviousIndex(index) == index)
              && (v.nextDisabled <==> NextIndex(index, |words|) == index)
  {
    if isLoading then Loading
    else if error != "" then ErrorView(error)
    else if !InDeck(index, |words|) then NoWords
    else
      DisabledIffNoOp(index, |words|);
      CardView(words[index], index + 1, |words|, RenderAll(words[index].examples, LearnClass),
               PreviousDisabled(index), NextDisabled(index, |words|))
  }

  /** The page's state. */
  class LearnSession {
    var words: seq<Word>
    var currentIndex: int
    var isLoading: bool
    var error: string

    /**
     * The index is on a card, or 0 with no cards; nothing is loaded or wrong
     * while loading.
     */
    ghost predicate Valid()
      reads this
    {
      (if words == [] then currentIndex == 0 else InDeck(currentIndex, |words|))
      && (isLoading ==> words == [] && error == "")
    }

    function View(): View
      reads this
    {
      LearnView(isLoading, error, words, currentIndex)
    }

    /** The state on mount, before the effect has run. */
    constructor ()
      ensures Valid() && isLoading && words == [] && currentIndex == 0 && error == ""
      ensures View() == Loading
    {
      words := [];
      currentIndex := 0;
      isLoading := true;
      error := "";
    }

    /** The mount effect: it ends loading, with the words or with an error. */
    method Load(stored: Stored)
      requires Valid() && isLoading
      modifies this
      ensures Valid() && !isLoading && currentIndex == old(currentIndex)
      ensures stored.Missing? ==> error == MissingMessage && words == []
      ensures stored.Unparsable? ==> error == ParseErrorMessage && words == []
      ensures stored.Parsed? ==> error == "" && words == stored.words
    {
      if stored.Missing? {
        error := MissingMessage;
      } else if stored.Unparsable? {
        error := ParseErrorMessage;
      } else {
        words := stored.words;
      }
      isLoading := false;
    }

    method HandleNext()
      requires Valid()
      modifies this
      ensures Valid() && currentIndex == NextIndex(old(currentIndex), |words|)
      ensures words == old(words) && isLoading == old(isLoading) && error == old(error)
    {
      if currentIndex < |words| - 1 {
        currentIndex := currentIndex + 1;
      }
    }

    method HandlePrevious()
      requires Valid()
      modifies this
      ensures Valid() && currentIndex == PreviousIndex(old(currentIndex))
      ensures words == old(words) && isLoading == old(isLoading) && error == old(error)
    {
      if currentIndex > 0 {
        currentIndex := currentIndex - 1;
      }
    }
  }

  /** Loaded words, then presses: the page always shows a card, and the one `Walk` predicts. */
  method Browse(stored: seq<Word>, moves: seq<Move>) returns (session: LearnSession)
    requires stored != []
    ensures fresh(session) && session.words == stored
    ensures session.currentIndex == Walk(0, |stored|, moves)
    ensures session.View().CardView? && session.View().word == stored[Walk(0, |stored|, moves)]
  {
    session := new LearnSession();
    session.Load(Parsed(stored));
    for i := 0 to |moves|
      invariant session.Valid() && !session.isLoading && session.error == "" && session.words == stored
      invariant Walk(0, |stored|, moves) == Walk(session.currentIndex, |stored|, moves[i..])
    {
      assert moves[i..][1..] == moves[i + 1..];
      if moves[i].Next? {
        session.HandleNext();
      } else {
        session.HandlePrevious();
      }
    }
    assert moves[|moves|..] == [];
  }
}
