/**
 * The review page: the stored words in a shuffled order, one card at a time
 * with its meaning and its examples hidden until asked for.
 */
module ReviewPage {
  import opened Wrappers
  import opened Words
  import opened Deck
  import opened Markers

  /** A button of the review card. */
  datatype Action = Press(move: Move) | RevealMeaning | RevealExamples

  /** The current index and the two reveal flags. */
  datatype Card = Card(index: int, showMeaning: bool, showExamples: bool)

  /**
   * One button press on a deck of `count` cards: a move that changes the index
   * hides the meaning and the examples again, a move at a bound changes
   * nothing, and a reveal button only sets its own flag.
   */
  function Step(c: Card, count: int, a: Action): (d: Card)
    ensures a.Press? ==> d.index == MoveIndex(c.index, count, a.move)
    ensures !a.Press? ==> d.index == c.index
    ensures d.index != c.index ==> !d.showMeaning && !d.showExamples
    ensures a.Press? && d.index == c.index ==> d == c
    ensures a.RevealMeaning? ==> d == c.(showMeaning := true)
    ensures a.RevealExamples? ==> d == c.(showExamples := true)
  {
    match a
    case Press(Next) =>
      if c.index < count - 1 then Card(c.index + 1, false, false) else c
    case Press(Previous) =>
      if c.index > 0 then Card(c.index - 1, false, false) else c
    case RevealMeaning => c.(showMeaning := true)
    case RevealExamples => c.(showExamples := true)
  }

  /** The card after the buttons are pressed in the order given. */
  function Replay(c: Card, count: int, actions: seq<Action>): Card
    decreases |actions|
  {
    if actions == [] then c else Replay(Step(c, count, actions[0]), count, actions[1..])
  }

  /** The Previous and Next presses among `actions`, in order. */
  function Moves(actions: seq<Action>): seq<Move> {
    if actions == [] then []
    else if actions[0].Press? then [actions[0].move] + Moves(actions[1..])
    else Moves(actions[1..])
  }

  /** The reveal buttons never move the card: the index follows the presses alone. */
  lemma {:induction false} ReplayFollowsWalk(c: Card, count: int, actions: seq<Action>)
    ensures Replay(c, count, actions).index == Walk(c.index, count, Moves(actions))
    decreases |actions|
  {
    if actions != [] {
      var d := Step(c, count, actions[0]);
      ReplayFollowsWalk(d, count, actions[1..]);
      if actions[0].Press? {
        assert Moves(actions)[1..] == Moves(actions[1..]);
      }
    }
  }

  /** Starting on a card, the index stays on one whatever is pressed. */
  lemma ReplayStaysInDeck(c: Card, count: int, actions: seq<Action>)
    requires InDeck(c.index, count)
    ensures InDeck(Replay(c, count, actions).index, count)
  {
    ReplayFollowsWalk(c, count, actions);
    WalkStaysInDeck(c.index, count, Moves(actions));
  }

  /** The meaning is shown only after its button is pressed: no other press sets the flag. */
  lemma {:induction false} MeaningNeedsItsButton(c: Card, count: int, actions: seq<Action>)
    requires !c.showMeaning
    requires forall k :: 0 <= k < |actions| ==> !actions[k].RevealMeaning?
    ensures !Replay(c, count, actions).showMeaning
    decreases |actions|
  {
    if actions != [] {
      assert !actions[0].RevealMeaning?;
      MeaningNeedsItsButton(Step(c, count, actions[0]), count, actions[1..]);
    }
  }

  /** The examples are shown only after their button is pressed. */
  lemma {:induction false} ExamplesNeedTheirButton(c: Card, count: int, actions: seq<Action>)
    requires !c.showExamples
    requires forall k :: 0 <= k < |actions| ==> !actions[k].RevealExamples?
    ensures !Replay(c, count, actions).showExamples
    decreases |actions|
  {
    if actions != [] {
      assert !actions[0].RevealExamples?;
      ExamplesNeedTheirButton(Step(c, count, actions[0]), count, actions[1..]);
    }
  }

  /**
   * Without a Previous or Next press the card stays put, and each flag ends up
   * set exactly when it was already set or its button was pressed.
   */
  lemma {:induction false} RevealsOnly(c: Card, count: int, actions: seq<Action>)
    requires forall k :: 0 <= k < |actions| ==> !actions[k].Press?
    ensures Replay(c, count, actions)
            == Card(c.index,
                    c.showMeaning || exists k :: 0 <= k < |actions| && actions[k].RevealMeaning?,
                    c.showExamples || exists k :: 0 <= k < |actions| && actions[k].RevealExamples?)
    decreases |actions|
  {
    if actions != [] {
      var rest := actions[1..];
      assert forall k :: 0 <= k < |rest| ==> rest[k] == actions[k + 1];
      RevealsOnly(Step(c, count, actions[0]), count, rest);
      assert (exists k :: 0 <= k < |actions| && actions[k].RevealMeaning?)
             <==> actions[0].RevealMeaning? || exists k :: 0 <= k < |rest| && rest[k].RevealMeaning?;
      assert (exists k :: 0 <= k < |actions| && actions[k].RevealExamples?)
             <==> actions[0].RevealExamples? || exists k :: 0 <= k < |rest| && rest[k].RevealExamples?;
    }
  }

  /** `s` with the elements at `i` and `j` exchanged; a pair off the end exchanges nothing. */
  function Swap(s: seq<Word>, p: (nat, nat)): (r: seq<Word>)
    ensures multiset(r) == multiset(s) && |r| == |s|
  {
    if p.0 < |s| && p.1 < |s| then s[p.0 := s[p.1]][p.1 := s[p.0]] else s
  }

  /**
   * The order `[...parsedWords].sort(() => Math.random() - 0.5)` leaves: the
   * random comparator is modelled by the exchanges the sort performs, in order.
   */
  function Shuffle(s: seq<Word>, swaps: seq<(nat, nat)>): seq<Word>
    decreases |swaps|
  {
    if swaps == [] then s else Swap(Shuffle(s, swaps[..|swaps| - 1]), swaps[|swaps| - 1])
  }

  /** The review deck holds exactly the stored words, each as often as it was stored. */
  lemma {:induction false} ShufflePermutes(s: seq<Word>, swaps: seq<(nat, nat)>)
    ensures multiset(Shuffle(s, swaps)) == multiset(s) && |Shuffle(s, swaps)| == |s|
    decreases |swaps|
  {
    if swaps != [] {
      ShufflePermutes(s, swaps[..|swaps| - 1]);
    }
  }

  /** The copy `[...parsedWords]`, sorted in place by the exchanges `swaps`. */
  method ShuffledCopy(words: seq<Word>, swaps: seq<(nat, nat)>) returns (deck: seq<Word>)
    ensures deck == Shuffle(words, swaps)
    ensures multiset(deck) == multiset(words) && |deck| == |words|
  {
    var a := new Word[|words|](i requires 0 <= i < |words| => words[i]);
    assert a[..] == words;
    for k := 0 to |swaps|
      invariant a[..] == Shuffle(words, swaps[..k])
    {
      var (i, j) := swaps[k];
      assert swaps[..k + 1][..k] == swaps[..k];
      if i < a.Length && j < a.Length {
        a[i], a[j] := a[j], a[i];
      }
    }
    assert swaps[..|swaps|] == swaps;
    deck := a[..];
    ShufflePermutes(words, swaps);
  }

  /** The screen the page renders; the meaning and the examples are `None` while hidden. */
  datatype View =
    | Loading
    | ErrorView(message: string)
    | NoWords
    | CardView(word: Word, position: int, total: int, meaning: Option<string>,
               examples: Option<seq<RenderedExample>>, previousDisabled: bool, nextDisabled: bool)

  function ReviewView(isLoading: bool, error: string, words: seq<Word>, c: Card): (v: View)
    ensures isLoading <==> v.Loading?
    ensures !isLoading && error != "" ==> v == ErrorView(error)
    ensures !isLoading && error == "" ==> (v.NoWords? <==> !InDeck(c.index, |words|))
    ensures v.CardView? ==> v.word == words[c.index] && v.total == |words| && v.position == c.index + 1 && 1 <= v.position <= v.total
    ensures v.CardView? ==> (v.meaning.Some? <==> c.showMeaning) && (v.examples.Some? <==> c.showExamples)
    ensures v.CardView? && c.showMeaning ==> v.meaning == Some(words[c.index].meaning)
    ensures v.CardView? && c.showExamples ==> v.examples == Some(RenderAll(words[c.index].examples, ReviewClass))
    ensures v.CardView? ==>
              (v.previousDisabled <==> PreviousIndex(c.index) == c.index)
              && (v.nextDisabled <==> NextIndex(c.index, |words|) == c.index)
  {
    if isLoading then Loading
    else if error != "" then ErrorView(error)
    else if !InDeck(c.index, |words|) then NoWords
    else
      var w := words[c.index];
      DisabledIffNoOp(c.index, |words|);
      CardView(w, c.index + 1, |words|,
               if c.showMeaning then Some(w.meaning) else None,
               if c.showExamples then Some(RenderAll(w.examples, ReviewClass)) else None,
               PreviousDisabled(c.index), NextDisabled(c.index, |words|))
  }

  /** The page's state. */
  class ReviewSession {
    var words: seq<Word>
    var currentIndex: int
    var showMeaning: bool
    var showExamples: bool
    var isLoading: bool
    var error: string

    ghost predicate Valid()
      reads this
    {
      (if words == [] then currentIndex == 0 else InDeck(currentIndex, |words|))
      && (isLoading ==> words == [] && error == "")
    }

    function CurrentCard(): Card
      reads this
    {
      Card(currentIndex, showMeaning, showExamples)
    }

    function View(): View
      reads this
    {
      ReviewView(isLoading, error, words, CurrentCard())
    }

    constructor ()
      ensures Valid() && isLoading && words == [] && error == ""
      ensures CurrentCard() == Card(0, false, false) && View() == Loading
    {
      words := [];
      currentIndex := 0;
      showMeaning := false;
      showExamples := false;
      isLoading := true;
      error := "";
    }

    /** The mount effect; `swaps` are the exchanges the random sort makes. */
    method Load(stored: Stored, swaps: seq<(nat, nat)>)
      requires Valid() && isLoading
      modifies this
      ensures Valid() && !isLoading && CurrentCard() == old(CurrentCard())
      ensures stored.Missing? ==> error == MissingMessage && words == []
      ensures stored.Unparsable? ==> error == ParseErrorMessage && words == []
      ensures stored.Parsed? ==> error == "" && words == Shuffle(stored.words, swaps)
      ensures stored.Parsed? ==> multiset(words) == multiset(stored.words)
    {
      if stored.Missing? {
        error := MissingMessage;
      } else if stored.Unparsable? {
        error := ParseErrorMessage;
      } else {
        words := ShuffledCopy(stored.words, swaps);
      }
      isLoading := false;
    }

    method HandleNext()
      requires Valid()
      modifies this
      ensures Valid() && CurrentCard() == Step(old(CurrentCard()), |words|, Press(Next))
      ensures words == old(words) && isLoading == old(isLoading) && error == old(error)
    {
      if currentIndex < |words| - 1 {
        currentIndex := currentIndex + 1;
        showMeaning := false;
        showExamples := false;
      }
    }

    method HandlePrevious()
      requires Valid()
      modifies this
      ensures Valid() && CurrentCard() == Step(old(CurrentCard()), |words|, Press(Previous))
      ensures words == old(words) && isLoading == old(isLoading) && error == old(error)
    {
      if currentIndex > 0 {
        currentIndex := currentIndex - 1;
        showMeaning := false;
        showExamples := false;
      }
    }

    /** The "显示中文含义" button. */
    method ShowMeaning()
      requires Valid()
      modifies this
      ensures Valid() && CurrentCard() == Step(old(CurrentCard()), |words|, RevealMeaning)
      ensures words == old(words) && isLoading == old(isLoading) && error == old(error)
    {
      showMeaning := true;
    }

    /** The "显示例句" button. */
    method ShowExamples()
      requires Valid()
      modifies this
      ensures Valid() && CurrentCard() == Step(old(CurrentCard()), |words|, RevealExamples)
      ensures words == old(words) && isLoading == old(isLoading) && error == old(error)
    {
      showExamples := true;
    }
  }
}
