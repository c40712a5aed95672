/**
 * The word-entry page: its tokenizer, which turns the text area into the
 * list of words sent to `/api/words/process`, and its submit handler.
 */
module InputPage {
  import opened JsText

  const EmptyInputMessage := "请输入至少一个单词"
  const RequestFailedMessage := "处理单词时出错，请稍后再试"

  /** A character of the class `[\s,\n]`: JavaScript white space or a comma. */
  predicate IsSep(c: char) {
    IsJsSpace(c) || c == ','
  }

  predicate NoSep(s: string) {
    forall j :: 0 <= j < |s| ==> !IsSep(s[j])
  }

  predicate AllSep(s: string) {
    forall j :: 0 <= j < |s| ==> IsSep(s[j])
  }

  /** `s` with its leading run of separators removed. */
  function DropSeps(s: string): (r: string)
    ensures |r| <= |s| && r == s[|s| - |r|..]
    ensures r == [] || !IsSep(r[0])
    ensures AllSep(s[..|s| - |r|])
  {
    if s != [] && IsSep(s[0]) then DropSeps(s[1..]) else s
  }

  /**
   * `s.split(/[\s,\n]+/)`: the text between maximal runs of separators. A
   * leading run gives an empty first piece, a trailing run an empty last
   * piece, and the empty string splits into one empty piece.
   */
  function Pieces(s: string): (p: seq<string>)
    ensures |p| >= 1
    ensures forall i :: 0 <= i < |p| ==> NoSep(p[i])
    decreases |s|
  {
    if s == [] then [[]]
    else if IsSep(s[0]) then [[]] + Pieces(DropSeps(s))
    else
      var p := Pieces(s[1..]);
      [[s[0]] + p[0]] + p[1..]
  }

  /** `.map(word => word.trim())`. */
  function TrimAll(ps: seq<string>): (r: seq<string>)
    ensures |r| == |ps|
    ensures forall i :: 0 <= i < |ps| ==> r[i] == Trim(ps[i])
  {
    if ps == [] then [] else [Trim(ps[0])] + TrimAll(ps[1..])
  }

  /** `.filter(word => word.length > 0)`. */
  function NonEmpty(ps: seq<string>): (r: seq<string>)
    ensures |r| <= |ps|
    ensures forall i :: 0 <= i < |r| ==> r[i] != []
  {
    if ps == [] then []
    else if ps[0] == [] then NonEmpty(ps[1..])
    else [ps[0]] + NonEmpty(ps[1..])
  }

  /** The words the page submits for the text `s`. */
  function Tokens(s: string): (r: seq<string>)
    ensures forall i :: 0 <= i < |r| ==> r[i] != []
  {
    NonEmpty(TrimAll(Pieces(s)))
  }

  /** `s` with every separator character deleted. */
  function RemoveSeps(s: string): (r: string)
    ensures NoSep(r)
  {
    if s == [] then []
    else if IsSep(s[0]) then RemoveSeps(s[1..])
    else [s[0]] + RemoveSeps(s[1..])
  }

  /** The pieces written one after the other. */
  function Concat(ps: seq<string>): string {
    if ps == [] then [] else ps[0] + Concat(ps[1..])
  }

  lemma {:induction false} RemoveSepsDropped(s: string)
    ensures RemoveSeps(DropSeps(s)) == RemoveSeps(s)
  {
    if s != [] && IsSep(s[0]) {
      RemoveSepsDropped(s[1..]);
    }
  }

  /** A piece has no white space at either end, so `trim` returns it unchanged. */
  lemma {:induction false} TrimAllOfPieces(ps: seq<string>)
    requires forall i :: 0 <= i < |ps| ==> NoSep(ps[i])
    ensures TrimAll(ps) == ps
  {
    forall i | 0 <= i < |ps| ensures Trim(ps[i]) == ps[i] {
      var p := ps[i];
      assert p == [] || (!IsJsSpace(p[0]) && !IsJsSpace(p[|p| - 1])) by {
        if p != [] { assert !IsSep(p[0]) && !IsSep(p[|p| - 1]); }
      }
    }
  }

  /** Splitting loses exactly the separator characters. */
  lemma {:induction false} PiecesConcat(s: string)
    ensures Concat(Pieces(s)) == RemoveSeps(s)
    decreases |s|
  {
    if s == [] {
    } else if IsSep(s[0]) {
      PiecesConcat(DropSeps(s));
      RemoveSepsDropped(s);
      assert Concat(Pieces(s)) == [] + Concat(Pieces(DropSeps(s))) by {
        assert ([[]] + Pieces(DropSeps(s)))[1..] == Pieces(DropSeps(s));
      }
    } else {
      var p := Pieces(s[1..]);
      PiecesConcat(s[1..]);
      var q := [[s[0]] + p[0]] + p[1..];
      assert q[1..] == p[1..];
      assert Concat(p) == p[0] + Concat(p[1..]);
      calc {
        Concat(q);
        ([s[0]] + p[0]) + Concat(p[1..]);
        [s[0]] + (p[0] + Concat(p[1..]));
        [s[0]] + RemoveSeps(s[1..]);
      }
    }
  }

  /** Dropping empty pieces changes nothing once they are written together. */
  lemma {:induction false} NonEmptyConcat(ps: seq<string>)
    ensures Concat(NonEmpty(ps)) == Concat(ps)
  {
    if ps != [] {
      NonEmptyConcat(ps[1..]);
      if ps[0] != [] {
        assert ([ps[0]] + NonEmpty(ps[1..]))[1..] == NonEmpty(ps[1..]);
      } else {
        assert Concat(ps) == [] + Concat(ps[1..]);
      }
    }
  }

  /** Filtering keeps only words that were there, so they have no separator either. */
  lemma {:induction false} NonEmptyNoSep(ps: seq<string>)
    requires forall i :: 0 <= i < |ps| ==> NoSep(ps[i])
    ensures forall i :: 0 <= i < |NonEmpty(ps)| ==> NoSep(NonEmpty(ps)[i])
  {
    if ps != [] {
      assert forall i :: 1 <= i < |ps| ==> ps[1..][i - 1] == ps[i];
      NonEmptyNoSep(ps[1..]);
    }
  }

  /** A string is empty exactly when its characters, written out, are. */
  lemma {:induction false} ConcatEmpty(ps: seq<string>)
    ensures Concat(ps) == [] <==> forall i :: 0 <= i < |ps| ==> ps[i] == []
  {
    if ps != [] {
      ConcatEmpty(ps[1..]);
      assert forall i :: 1 <= i < |ps| ==> ps[i] == ps[1..][i - 1];
    }
  }

  lemma {:induction false} RemoveSepsEmpty(s: string)
    ensures RemoveSeps(s) == [] <==> AllSep(s)
  {
    if s != [] {
      RemoveSepsEmpty(s[1..]);
      assert forall j :: 1 <= j < |s| ==> s[j] == s[1..][j - 1];
    }
  }

  /**
   * Every word is non-empty and holds no white space or comma, and the words
   * written one after the other are the input with its separators deleted:
   * nothing else is dropped, reordered, case-folded or de-duplicated.
   */
  lemma TokensSound(s: string)
    ensures forall i :: 0 <= i < |Tokens(s)| ==> Tokens(s)[i] != [] && NoSep(Tokens(s)[i])
    ensures Concat(Tokens(s)) == RemoveSeps(s)
  {
    var p := Pieces(s);
    TrimAllOfPieces(p);
    NonEmptyNoSep(p);
    NonEmptyConcat(p);
    PiecesConcat(s);
  }

  /** `filter` keeps each element or drops it on its own: filtering distributes over `+`. */
  lemma {:induction false} NonEmptyAppend(a: seq<string>, b: seq<string>)
    ensures NonEmpty(a + b) == NonEmpty(a) + NonEmpty(b)
  {
    if a != [] {
      assert (a + b)[0] == a[0] && (a + b)[1..] == a[1..] + b;
      NonEmptyAppend(a[1..], b);
    } else {
      assert a + b == b;
    }
  }

  /** One element is kept exactly when it is non-empty. */
  lemma NonEmptySingle(w: string)
    ensures NonEmpty([w]) == if w == [] then [] else [w]
  {
    assert [w][1..] == [];
  }

  /** A separator-free prefix belongs to the first piece. */
  lemma {:induction false} PiecesNoSepPrefix(a: string, t: string)
    requires NoSep(a)
    ensures Pieces(a + t) == [a + Pieces(t)[0]] + Pieces(t)[1..]
    decreases |a|
  {
    var p := Pieces(t);
    if a == [] {
      assert a + t == t && a + p[0] == p[0];
      assert [p[0]] + p[1..] == p;
    } else {
      var s := a + t;
      assert s[0] == a[0] && s[1..] == a[1..] + t;
      assert NoSep(a[1..]) by {
        forall j | 0 <= j < |a[1..]| ensures !IsSep(a[1..][j]) {
          assert a[1..][j] == a[j + 1];
        }
      }
      PiecesNoSepPrefix(a[1..], t);
      assert [a[0]] + (a[1..] + p[0]) == a + p[0];
    }
  }

  /** A separator ends the piece before it: the text up to it is a piece of its own. */
  lemma SeparatorEndsPiece(a: string, c: char, b: string)
    requires NoSep(a) && IsSep(c)
    ensures Pieces(a + [c] + b) == [a] + Pieces(DropSeps([c] + b))
  {
    assert a + [c] + b == a + ([c] + b);
    PiecesNoSepPrefix(a, [c] + b);
    assert ([c] + b)[0] == c;
    var q := Pieces([c] + b);
    assert q == [[]] + Pieces(DropSeps([c] + b));
    assert a + q[0] == a;
  }

  /** A word without separators is one piece. */
  lemma PiecesOfWord(a: string)
    requires NoSep(a)
    ensures Pieces(a) == [a]
  {
    assert a + [] == a;
    PiecesNoSepPrefix(a, []);
  }

  /** The tokens are the non-empty pieces: `trim` leaves every piece as it is. */
  lemma TokensArePieces(s: string)
    ensures Tokens(s) == NonEmpty(Pieces(s))
  {
    TrimAllOfPieces(Pieces(s));
  }

  /** A leading separator contributes no word. */
  lemma TokensDropLeadingSep(s: string)
    requires s != [] && IsSep(s[0])
    ensures Tokens(s) == Tokens(s[1..])
  {
    TokensArePieces(s);
    TokensArePieces(s[1..]);
    assert NonEmpty(Pieces(s)) == NonEmpty(Pieces(DropSeps(s))) by {
      assert ([[]] + Pieces(DropSeps(s)))[1..] == Pieces(DropSeps(s));
    }
    var t := s[1..];
    if t != [] && IsSep(t[0]) {
      assert NonEmpty(Pieces(t)) == NonEmpty(Pieces(DropSeps(t))) by {
        assert ([[]] + Pieces(DropSeps(t)))[1..] == Pieces(DropSeps(t));
      }
    }
  }

  /** A separator-free word on its own is the single token. */
  lemma TokensOfWord(a: string)
    requires a != [] && NoSep(a)
    ensures Tokens(a) == [a]
  {
    TokensArePieces(a);
    PiecesOfWord(a);
    NonEmptySingle(a);
  }

  /** The split where the text before the separator is a single word (or nothing). */
  lemma TokensSplitAfterWord(a: string, c: char, b: string)
    requires NoSep(a) && IsSep(c)
    ensures Tokens(a + [c] + b) == Tokens(a) + Tokens(b)
  {
    var t := [c] + b;
    var rest := Pieces(DropSeps(t));
    SeparatorEndsPiece(a, c, b);
    TokensArePieces(a + [c] + b);
    NonEmptyAppend([a], rest);
    assert t[0] == c && t[1..] == b;
    TokensArePieces(t);
    assert Pieces(t) == [[]] + rest;
    assert NonEmpty(Pieces(t)) == NonEmpty(rest) by {
      assert ([[]] + rest)[1..] == rest;
    }
    TokensDropLeadingSep(t);
    TokensArePieces(a);
    PiecesOfWord(a);
  }

  /**
   * Every separator splits: the words of `a`, a separator, then `b` are the
   * words of `a` followed by the words of `b`.
   */
  lemma {:induction false} TokensSplitAtSeparator(a: string, c: char, b: string)
    requires IsSep(c)
    ensures Tokens(a + [c] + b) == Tokens(a) + Tokens(b)
    decreases |a|
  {
    if NoSep(a) {
      TokensSplitAfterWord(a, c, b);
    } else {
      // Split `a` itself at one of its separators `d` and use the smaller cases.
      var i :| 0 <= i < |a| && IsSep(a[i]);
      var x, d, y := a[..i], a[i], a[i + 1..];
      assert a == x + [d] + y;
      assert a + [c] + b == x + [d] + (y + [c] + b);
      calc {
        Tokens(a + [c] + b);
        Tokens(x + [d] + (y + [c] + b));
        { TokensSplitAtSeparator(x, d, y + [c] + b); }
        Tokens(x) + Tokens(y + [c] + b);
        { TokensSplitAtSeparator(y, c, b); }
        Tokens(x) + (Tokens(y) + Tokens(b));
        { TokensSplitAtSeparator(x, d, y); }
        Tokens(a) + Tokens(b);
      }
    }
  }

  /** No word comes out exactly when the input is made of separators only. */
  lemma NoTokensIff(s: string)
    ensures Tokens(s) == [] <==> AllSep(s)
  {
    var p := Pieces(s);
    TokensSound(s);
    ConcatEmpty(Tokens(s));
    RemoveSepsEmpty(s);
    if Tokens(s) != [] {
      assert Tokens(s)[0] != [];
    }
  }

  /** Blank input holds no word. */
  lemma BlankHasNoTokens(s: string)
    requires AllSpace(s)
    ensures Tokens(s) == []
  {
    assert AllSep(s);
    NoTokensIff(s);
  }

  /**
   * `", ,"` is not white space, so it passes the first check, but it holds no
   * word, so the second check refuses it.
   */
  lemma SeparatorsOnlyPassFirstCheck()
    ensures Trim(", ,") != [] && Tokens(", ,") == []
  {
    assert !IsJsSpace(", ,"[0]);
    assert AllSep(", ,");
    NoTokensIff(", ,");
  }

  /**
   * The two checks of `handleSubmit` before it posts: blank text is refused,
   * then text with no word in it. `words` is what would be posted.
   */
  method CheckInput(text: string) returns (ok: bool, words: seq<string>)
    ensures ok <==> Tokens(text) != []
    ensures ok ==> words == Tokens(text)
  {
    if Trim(text) == [] {
      BlankHasNoTokens(text);
      return false, [];
    }
    words := Tokens(text);
    ok := words != [];
  }

  /** The form's state; `requests` records each body posted to `/api/words/process`. */
  class InputForm {
    var inputText: string
    var isLoading: bool
    var error: string
    var requests: seq<seq<string>>
    var navigatedToLearn: bool

    constructor ()
      ensures inputText == "" && !isLoading && error == "" && requests == [] && !navigatedToLearn
    {
      inputText := "";
      isLoading := false;
      error := "";
      requests := [];
      navigatedToLearn := false;
    }

    /** `onChange` of the text area. */
    method SetInput(text: string)
      modifies this
      ensures inputText == text
      ensures isLoading == old(isLoading) && error == old(error)
      ensures requests == old(requests) && navigatedToLearn == old(navigatedToLearn)
    {
      inputText := text;
    }

    /**
     * `handleSubmit`. `postSucceeds` says whether the post (and storing its
     * answer) completes without throwing; it only matters once a request is made.
     */
    method HandleSubmit(postSucceeds: bool)
      modifies this
      ensures inputText == old(inputText)
      // Blank input, or input with no word in it, sets the error and sends nothing.
      ensures Tokens(inputText) == [] ==>
                error == EmptyInputMessage && requests == old(requests)
                && isLoading == old(isLoading) && navigatedToLearn == old(navigatedToLearn)
      // Otherwise exactly the tokens are posted, once, and loading ends either way.
      ensures Tokens(inputText) != [] ==>
                requests == old(requests) + [Tokens(inputText)] && !isLoading
                && error == (if postSucceeds then "" else RequestFailedMessage)
                && navigatedToLearn == (old(navigatedToLearn) || postSucceeds)
    {
      var ok, words := CheckInput(inputText);
      if !ok {
        error := EmptyInputMessage;
        return;
      }
      isLoading := true;
      error := "";
      requests := requests + [words];
      if postSucceeds {
        navigatedToLearn := true;
      } else {
        error := RequestFailedMessage;
      }
      isLoading := false;
    }
  }
}
