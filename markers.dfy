/**
 * The two string transforms the learn and review pages apply to an example
 * sentence `en`, whose target word is marked `**word**`: removing the markers
 * for the text sent to speech, and turning each marked word into a
 * `<strong>` element for display.
 */
module Markers {
  import opened Words

  const LearnClass := "text-primary"
  const ReviewClass := "text-accent"
  const CloseTag := "</strong>"

  function OpenTag(cls: string): string {
    "<strong class=\"" + cls + "\">"
  }

  /** The word x as the examples mark it, `**x**`. */
  function Marked(x: string): string {
    "**" + x + "**"
  }

  /** The replacement `<strong class="cls">x</strong>` of a marked word x. */
  function Strong(cls: string, x: string): string {
    OpenTag(cls) + x + CloseTag
  }

  /** `s` holds no `*` at all. */
  predicate NoStar(s: string) {
    forall i :: 0 <= i < |s| ==> s[i] != '*'
  }

  // `s` holds no two adjacent `*`, so the pattern `\*\*` finds nothing in it.
  predicate NoDoubleStar(s: string) {
    forall i :: 0 <= i < |s| - 1 ==> !(s[i] == '*' && s[i + 1] == '*')
  }

  /** `s` with its `*` characters deleted. */
  function Unstarred(s: string): (r: string)
    ensures NoStar(r) && |r| <= |s|
  {
    if s == [] then [] else (if s[0] == '*' then [] else [s[0]]) + Unstarred(s[1..])
  }

  // `s.replace(/\*\*/g, '')`: every `**` found scanning from the left is
  // removed, and the scan resumes after it, so `***` leaves one `*`.
  function Strip(s: string): (r: string)
    ensures |r| <= |s|
    ensures s != [] && s[0] != '*' ==> r != [] && r[0] == s[0]
  {
    if |s| >= 2 && s[0] == '*' && s[1] == '*' then Strip(s[2..])
    else if s == [] then []
    else [s[0]] + Strip(s[1..])
  }

  /** The text sent to speech never holds `**`: a `*` it keeps is followed by a letter that is not `*`. */
  lemma {:induction false} StripHasNoMarker(s: string)
    ensures NoDoubleStar(Strip(s))
    decreases |s|
  {
    if |s| >= 2 && s[0] == '*' && s[1] == '*' {
      StripHasNoMarker(s[2..]);
    } else if s != [] {
      var t := Strip(s[1..]);
      StripHasNoMarker(s[1..]);
      var r := [s[0]] + t;
      forall i | 0 <= i < |r| - 1 ensures !(r[i] == '*' && r[i + 1] == '*') {
        if i == 0 {
          if s[0] == '*' {
            assert |s| == 1 || s[1] != '*';
            if |s| > 1 { assert t[0] == s[1]; }
          }
        } else {
          assert r[i] == t[i - 1] && r[i + 1] == t[i];
        }
      }
    }
  }

  /** Text without markers is left as it is. */
  lemma {:induction false} StripUnmarked(s: string)
    requires NoDoubleStar(s)
    ensures Strip(s) == s
    decreases |s|
  {
    if s != [] {
      assert NoDoubleStar(s[1..]) by {
        forall i | 0 <= i < |s[1..]| - 1 ensures !(s[1..][i] == '*' && s[1..][i + 1] == '*') {
          assert s[1..][i] == s[i + 1] && s[1..][i + 1] == s[i + 2];
        }
      }
      StripUnmarked(s[1..]);
    }
  }

  /** Stripping twice is stripping once. */
  lemma StripIdempotent(s: string)
    ensures Strip(Strip(s)) == Strip(s)
  {
    StripHasNoMarker(s);
    StripUnmarked(Strip(s));
  }

  /** Only `*` characters are removed: every other character survives, in order. */
  lemma {:induction false} StripKeepsLetters(s: string)
    ensures Unstarred(Strip(s)) == Unstarred(s)
    decreases |s|
  {
    if |s| >= 2 && s[0] == '*' && s[1] == '*' {
      StripKeepsLetters(s[2..]);
      assert Unstarred(s) == Unstarred(s[1..]);
      assert s[1..][1..] == s[2..];
    } else if s != [] {
      StripKeepsLetters(s[1..]);
      var t := Strip(s[1..]);
      assert ([s[0]] + t)[1..] == t;
    }
  }

  /** `k` stars in a row. */
  function Stars(k: nat): (r: string)
    ensures |r| == k
  {
    if k == 0 then [] else "*" + Stars(k - 1)
  }

  /** A character other than `*` is sent to speech as it is. */
  lemma StripKeepsPlain(c: char, t: string)
    requires c != '*'
    ensures Strip([c] + t) == [c] + Strip(t)
  {
    assert ([c] + t)[1..] == t;
  }

  /**
   * A maximal run of k stars keeps k % 2 of them: the scan removes them two
   * at a time, so `***b` is spoken as `*b`.
   */
  lemma {:induction false} StripStarRun(k: nat, b: string)
    requires b == [] || b[0] != '*'
    ensures Strip(Stars(k) + b) == Stars(k % 2) + Strip(b)
    decreases k
  {
    var s := Stars(k) + b;
    if k == 0 {
      assert s == b;
    } else if k == 1 {
      assert s == ['*'] + b;
      assert s[1..] == b;
      assert !(|s| >= 2 && s[1] == '*');
    } else {
      assert Stars(k) == "**" + Stars(k - 2);
      assert s[0] == '*' && s[1] == '*';
      assert s[2..] == Stars(k - 2) + b;
      StripStarRun(k - 2, b);
    }
  }

  /** The length of the run of non-`*` characters `s` starts with. */
  function StarFreeRun(s: string): (n: nat)
    ensures n <= |s|
  {
    if s == [] || s[0] == '*' then 0 else 1 + StarFreeRun(s[1..])
  }

  // Where `/\*\*([^*]+)\*\*/` matches at the start of `s`: the length of the
  // captured text, which the `[^*]+` makes the whole star-free run after the
  // opening marker.
  function MatchAt(s: string): (m: Match)
    ensures m.Captured? ==> 1 <= m.n && m.n + 4 <= |s|
  {
    if |s| >= 2 && s[0] == '*' && s[1] == '*' then
      var n := StarFreeRun(s[2..]);
      if n >= 1 && n + 4 <= |s| && s[n + 2] == '*' && s[n + 3] == '*' then Captured(n) else NoMatch
    else NoMatch
  }

  /** The outcome of trying the pattern at one position: no match, or a match capturing `n` characters. */
  datatype Match = NoMatch | Captured(n: nat)

  // `s.replace(/\*\*([^*]+)\*\*/g, '<strong class="cls">$1</strong>')`: the
  // regular expression is tried at each position from the left; a match is
  // replaced and the scan resumes after it, otherwise one character is kept.
  function Highlight(s: string, cls: string): (r: string)
    ensures s != [] && s[0] != '*' ==> r != [] && r[0] == s[0]
    decreases |s|
  {
    if s == [] then []
    else
      match MatchAt(s)
      case Captured(n) => Strong(cls, s[2..n + 2]) + Highlight(s[n + 4..], cls)
      case NoMatch => [s[0]] + Highlight(s[1..], cls)
  }

  /** Text with no `**` in it is displayed unchanged. */
  lemma {:induction false} HighlightUnmarked(s: string, cls: string)
    requires NoDoubleStar(s)
    ensures Highlight(s, cls) == s
    decreases |s|
  {
    if s != [] {
      assert MatchAt(s).NoMatch?;
      assert NoDoubleStar(s[1..]) by {
        forall i | 0 <= i < |s[1..]| - 1 ensures !(s[1..][i] == '*' && s[1..][i + 1] == '*') {
          assert s[1..][i] == s[i + 1] && s[1..][i + 1] == s[i + 2];
        }
      }
      HighlightUnmarked(s[1..], cls);
    }
  }

  /** At a character other than `*` the pattern cannot match, so the character is kept. */
  lemma HighlightKeepsPlain(s: string, cls: string)
    requires s != [] && s[0] != '*'
    ensures Highlight(s, cls) == [s[0]] + Highlight(s[1..], cls)
  {
    assert MatchAt(s).NoMatch?;
  }

  /** Text before the first `*` is copied through. */
  lemma {:induction false} HighlightStarFreePrefix(a: string, t: string, cls: string)
    requires NoStar(a)
    ensures Highlight(a + t, cls) == a + Highlight(t, cls)
    decreases |a|
  {
    if a == [] {
      assert a + t == t;
    } else {
      var s := a + t;
      assert s[0] == a[0] && s[1..] == a[1..] + t;
      HighlightKeepsPlain(s, cls);
      HighlightStarFreePrefix(a[1..], t, cls);
      assert a + Highlight(t, cls) == [a[0]] + (a[1..] + Highlight(t, cls));
    }
  }

  /** Where the pattern matches, the capture is wrapped and the scan resumes after the closing marker. */
  lemma HighlightAtMatch(s: string, cls: string, n: nat)
    requires MatchAt(s) == Captured(n)
    ensures Highlight(s, cls) == Strong(cls, s[2..n + 2]) + Highlight(s[n + 4..], cls)
  {
  }

  /** The run `StarFreeRun` measures holds no `*`. */
  lemma {:induction false} StarFreeRunIsStarFree(t: string)
    ensures NoStar(t[..StarFreeRun(t)])
    decreases |t|
  {
    if t != [] && t[0] != '*' {
      StarFreeRunIsStarFree(t[1..]);
      var n := StarFreeRun(t);
      assert t[..n] == [t[0]] + t[1..][..n - 1];
    }
  }

  /** The pattern matches only a marked word: what it captures is non-empty, star-free and enclosed in `**`. */
  lemma MatchIsMarked(s: string, n: nat)
    requires MatchAt(s) == Captured(n)
    ensures var x := s[2..n + 2];
            x != [] && NoStar(x) && s == Marked(x) + s[n + 4..]
  {
    StarFreeRunIsStarFree(s[2..]);
    assert s[2..][..n] == s[2..n + 2];
    assert s == s[..2] + s[2..n + 2] + s[n + 2..n + 4] + s[n + 4..];
    assert s[..2] == "**" && s[n + 2..n + 4] == "**";
  }

  /** `w` is a marked word `**x**` with x non-empty and star-free, a text the pattern can match. */
  predicate IsMarkedWord(w: string) {
    |w| >= 5 && w[..2] == "**" && w[|w| - 2..] == "**" && NoStar(w[2..|w| - 2])
  }

  /** No stretch of `s` is a marked word. */
  predicate NoMarkedWord(s: string) {
    forall i, j :: 0 <= i <= j <= |s| ==> !IsMarkedWord(s[i..j])
  }

  /** Where the pattern matches, the text starts with a marked word. */
  lemma MatchStartsMarkedWord(s: string)
    ensures MatchAt(s).Captured? ==> IsMarkedWord(s[0..MatchAt(s).n + 4])
    ensures MatchAt(s).Captured? ==> IsMarkedWord(s[..MatchAt(s).n + 4])
  {
    if MatchAt(s).Captured? {
      var n := MatchAt(s).n;
      MatchIsMarked(s, n);
      var w := s[0..n + 4];
      assert w[..2] == s[..2] && w[|w| - 2..] == s[n + 2..n + 4] && w[2..|w| - 2] == s[2..n + 2];
      assert s[..n + 4] == w;
    }
  }

  /**
   * Where no marked word starts, the pattern fails and the character is kept,
   * even a `*`: `*a**b**` keeps its first `*` and then highlights `b`.
   */
  lemma HighlightKeepsUnmatched(s: string, cls: string)
    requires s != [] && forall j :: 0 <= j <= |s| ==> !IsMarkedWord(s[..j])
    ensures Highlight(s, cls) == [s[0]] + Highlight(s[1..], cls)
  {
    MatchStartsMarkedWord(s);
  }

  /**
   * Text holding no marked word is displayed unchanged, whatever stars it
   * holds: an unclosed `**`, as in `a**b`, or `****`, is kept.
   */
  lemma {:induction false} HighlightNoMarkedWord(s: string, cls: string)
    requires NoMarkedWord(s)
    ensures Highlight(s, cls) == s
    decreases |s|
  {
    if s != [] {
      MatchStartsMarkedWord(s);
      assert MatchAt(s).NoMatch?;
      assert NoMarkedWord(s[1..]) by {
        forall i, j | 0 <= i <= j <= |s[1..]| ensures !IsMarkedWord(s[1..][i..j]) {
          assert s[1..][i..j] == s[i + 1..j + 1];
        }
      }
      HighlightNoMarkedWord(s[1..], cls);
      assert s == [s[0]] + s[1..];
    }
  }

  /** `**x**` at the start of a text is a match capturing x. */
  lemma MatchesMarked(x: string, t: string)
    requires x != [] && NoStar(x)
    ensures var s := Marked(x) + t;
            MatchAt(s) == Captured(|x|) && s[2..|x| + 2] == x && s[|x| + 4..] == t
  {
    var s := Marked(x) + t;
    assert s[..2] == "**";
    assert s[2..] == x + ("**" + t);
    StarFreeRunOf(x, "**" + t);
    assert s[|x| + 2] == '*' && s[|x| + 3] == '*';
  }

  /** A marked word `**x**` (x non-empty, without `*`) becomes a `<strong>` element around x. */
  lemma HighlightMarked(x: string, t: string, cls: string)
    requires x != [] && NoStar(x)
    ensures Highlight(Marked(x) + t, cls) == Strong(cls, x) + Highlight(t, cls)
  {
    MatchesMarked(x, t);
    HighlightAtMatch(Marked(x) + t, cls, |x|);
  }

  lemma {:induction false} StarFreeRunOf(x: string, t: string)
    requires NoStar(x) && t != [] && t[0] == '*'
    ensures StarFreeRun(x + t) == |x|
    decreases |x|
  {
    if x != [] {
      assert (x + t)[1..] == x[1..] + t;
      StarFreeRunOf(x[1..], t);
    }
  }

  /** Four stars in a row capture nothing, so they are displayed as they are. */
  lemma FourStarsUnchanged(cls: string)
    ensures Highlight("****", cls) == "****"
  {
    assert MatchAt("****").NoMatch? by { assert StarFreeRun("**") == 0; }
    assert "****"[1..] == "***";
    assert MatchAt("***").NoMatch? by { assert StarFreeRun("*") == 0; }
    assert "***"[1..] == "**";
    assert MatchAt("**").NoMatch?;
    assert "**"[1..] == "*";
    assert Highlight("*", cls) == "*";
  }

  /** Marker-free text is both spoken and displayed exactly as written. */
  lemma UnmarkedUnchanged(s: string, cls: string)
    ensures NoDoubleStar(s) ==> Strip(s) == s && Highlight(s, cls) == s
  {
    if NoDoubleStar(s) {
      StripUnmarked(s);
      HighlightUnmarked(s, cls);
    }
  }

  /** What a page shows for one example: the text sent to speech, the HTML displayed and the translation. */
  datatype RenderedExample = RenderedExample(audioText: string, html: string, zh: string)

  /**
   * One example as both pages render it, `cls` being the page's class for the
   * highlighted word. The spoken text holds no marker and loses no letter.
   */
  function Render(e: Example, cls: string): (r: RenderedExample)
    ensures NoDoubleStar(r.audioText) && Unstarred(r.audioText) == Unstarred(e.en)
    ensures r.zh == e.zh
    ensures NoDoubleStar(e.en) ==> r.audioText == e.en && r.html == e.en
  {
    StripHasNoMarker(e.en);
    StripKeepsLetters(e.en);
    UnmarkedUnchanged(e.en, cls);
    RenderedExample(Strip(e.en), Highlight(e.en, cls), e.zh)
  }

  /** A word's examples rendered in order. */
  function RenderAll(es: seq<Example>, cls: string): (r: seq<RenderedExample>)
    ensures |r| == |es| && forall i :: 0 <= i < |es| ==> r[i] == Render(es[i], cls)
  {
    seq(|es|, i requires 0 <= i < |es| => Render(es[i], cls))
  }
}
