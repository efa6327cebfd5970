/**
 * The `HeroTitle` component of components/hero.tsx: a headline split into
 * words, one of which carries a coloured chip.  Hovering the chip sends it to
 * another word, with another shape, colour and offset, and hovering is
 * switched off until the chip's layout animation has finished.
 *
 * The word splitter, the initial-highlight resolver and the render rule are
 * functions.  The component's state is the class `Chip`; each of its
 * handlers is tied to a transition function on `ChipState` values, and the
 * properties of the handlers are proved about those functions.
 */
module Hero {
  import opened Wrappers
  import opened RandomInteger

  /** Number of chip outlines in `paths`. */
  const PathCount := 4
  /** Number of fill colours in `fillColors`. */
  const ColorCount := 4

  /** The offset the chip starts at, in percent: right edge of the word. */
  const InitialTop := 18
  const InitialLeft := 68

  /** A hover draws the offset from [TopFrom, TopTo) and [LeftFrom, LeftTo) percent. */
  const TopFrom := -20
  const TopTo := -5
  const LeftFrom := -30
  const LeftTo := 70

  // ---------------------------------------------------------------------------
  // Words

  /** `text.split(' ')`: the pieces between single spaces, empty pieces included. */
  function Split(text: string): (words: seq<string>)
    ensures |words| >= 1
  {
    if text == [] then [""]
    else
      var rest := Split(text[1..]);
      assert text == [text[0]] + text[1..];
      if text[0] == ' ' then [""] + rest
      else [[text[0]] + rest[0]] + rest[1..]
  }

  /** One word more than the text has spaces, and no word holds a space. */
  lemma {:induction false} SplitShape(text: string)
    ensures |Split(text)| == multiset(text)[' '] + 1
    ensures forall i :: 0 <= i < |Split(text)| ==> ' ' !in Split(text)[i]
  {
    if text != [] {
      var rest := Split(text[1..]);
      SplitShape(text[1..]);
      assert text == [text[0]] + text[1..];
      if text[0] != ' ' {
        assert ' ' !in rest[0];
      }
    }
  }

  /** `words.join(' ')`. */
  function Join(words: seq<string>): string
  {
    if |words| == 0 then ""
    else if |words| == 1 then words[0]
    else words[0] + " " + Join(words[1..])
  }

  lemma JoinExtendsFirst(c: char, words: seq<string>)
    requires |words| >= 1
    ensures Join([[c] + words[0]] + words[1..]) == [c] + Join(words)
  {
    var longer := [[c] + words[0]] + words[1..];
    if |words| > 1 {
      assert longer[1..] == words[1..];
    }
  }

  /** Joining the words with single spaces gives back the text. */
  lemma {:induction false} JoinSplit(text: string)
    ensures Join(Split(text)) == text
  {
    if text != [] {
      var rest := Split(text[1..]);
      JoinSplit(text[1..]);
      if text[0] == ' ' {
        assert Split(text) == [""] + rest;
        assert ([""] + rest)[1..] == rest;
      } else {
        JoinExtendsFirst(text[0], rest);
      }
      assert text == [text[0]] + text[1..];
    }
  }

  lemma {:induction false} SplitWord(word: string)
    requires ' ' !in word
    ensures Split(word) == [word]
  {
    if word != [] {
      SplitWord(word[1..]);
      assert word == [word[0]] + word[1..];
    }
  }

  lemma {:induction false} SplitAfterWord(word: string, rest: string)
    requires ' ' !in word
    ensures Split(word + " " + rest) == [word] + Split(rest)
  {
    var text := word + " " + rest;
    if word == [] {
      assert text == " " + rest;
      assert text[1..] == rest;
    } else {
      assert text[1..] == word[1..] + " " + rest;
      SplitAfterWord(word[1..], rest);
      assert word == [word[0]] + word[1..];
    }
  }

  /** Splitting a join of space-free words gives back the words. */
  lemma {:induction false} SplitJoin(words: seq<string>)
    requires |words| >= 1
    requires forall i :: 0 <= i < |words| ==> ' ' !in words[i]
    ensures Split(Join(words)) == words
  {
    if |words| == 1 {
      SplitWord(words[0]);
    } else {
      SplitAfterWord(words[0], Join(words[1..]));
      SplitJoin(words[1..]);
      assert words == [words[0]] + words[1..];
    }
  }

  /** `words.indexOf(word)`: the first position of `word`, or -1. */
  function IndexOf(words: seq<string>, word: string): (i: int)
    ensures -1 <= i < |words|
    ensures i == -1 <==> word !in words
    ensures 0 <= i ==> words[i] == word && forall j :: 0 <= j < i ==> words[j] != word
  {
    if words == [] then -1
    else if words[0] == word then 0
    else
      var i := IndexOf(words[1..], word);
      assert words == [words[0]] + words[1..];
      if i == -1 then -1 else i + 1
  }

  /**
   * The highlight the mount effect installs:
   * `wordToHighlight ? words.indexOf(wordToHighlight) : -1`, where an absent
   * or empty hint is falsy.
   */
  function InitialHighlight(words: seq<string>, wordToHighlight: Option<string>): (i: int)
    ensures -1 <= i < |words|
    ensures i == -1 <==>
      wordToHighlight == None || wordToHighlight.value == "" || wordToHighlight.value !in words
    ensures 0 <= i ==>
      words[i] == wordToHighlight.value && forall j :: 0 <= j < i ==> words[j] != wordToHighlight.value
  {
    match wordToHighlight
    case Some(word) => if word != "" then IndexOf(words, word) else -1
    case None => -1
  }

  /** The words of the embedding page's headline, "Motion Layout Animation Bug". */
  const PageWords: seq<string> := ["Motion", "Layout", "Animation", "Bug"]

  /** Joined with single spaces, those words are the headline. */
  lemma PageText()
    ensures Join(PageWords) == "Motion Layout Animation Bug"
  {
  }

  /** The embedding page's headline splits into its four words and highlights "Animation", the third. */
  lemma PageScenario()
    ensures Split(Join(PageWords)) == PageWords
    ensures InitialHighlight(Split(Join(PageWords)), Some("Animation")) == 2
  {
    SplitJoin(PageWords);
  }

  /** A single-word headline without a hint highlights nothing. */
  lemma SingleWordScenario()
    ensures Split("Solo") == ["Solo"]
    ensures InitialHighlight(Split("Solo"), None) == -1
  {
    SplitWord("Solo");
  }

  // ---------------------------------------------------------------------------
  // Rendering rule

  /** `wordHighlightIndex === index`: whether the word at `index` carries the chip. */
  predicate HasChip(wordHighlightIndex: Option<int>, index: int)
  {
    wordHighlightIndex == Some(index)
  }

  /** The positions, among `wordCount` words, that render the chip: at most one. */
  function ChippedWords(wordCount: nat, wordHighlightIndex: Option<int>): (r: set<int>)
    ensures |r| <= 1
    ensures forall i :: i in r <==> 0 <= i < wordCount && wordHighlightIndex == Some(i)
    ensures wordHighlightIndex == None || wordHighlightIndex == Some(-1) ==> r == {}
  {
    var r := set i | 0 <= i < wordCount && HasChip(wordHighlightIndex, i);
    if wordHighlightIndex.Some? && 0 <= wordHighlightIndex.value < wordCount then
      assert wordHighlightIndex.value in r;
      assert r == {wordHighlightIndex.value};
      r
    else
      assert r == {};
      r
  }

  // ---------------------------------------------------------------------------
  // Chip state

  /** The values of the component's state fields, with the colour as an index into `fillColors`. */
  datatype ChipState = ChipState(
    pathIndex: int,
    colorIndex: int,
    wordHighlightIndex: Option<int>,
    top: int,
    left: int,
    initialAnimationComplete: bool,
    animationInProgress: bool,
    progress: int)

  /** The five values Math.random() returns during one hover, in the order the handler draws them. */
  datatype Draws = Draws(word: Random, path: Random, color: Random, top: Random, left: Random)

  predicate OffsetInRange(s: ChipState)
  {
    TopFrom <= s.top < TopTo && LeftFrom <= s.left < LeftTo
  }

  /**
   * What every reachable state satisfies, for a headline of `wordCount`
   * words: shape and colour are table indices, the morph target is the
   * shape, a highlight is -1 or a word position, a running animation comes
   * after the first hover, and the first hover is what moves the chip off
   * its initial shape, colour and offset.
   */
  predicate Inv(s: ChipState, wordCount: nat)
  {
    && 0 <= s.pathIndex < PathCount
    && 0 <= s.colorIndex < ColorCount
    && s.progress == s.pathIndex
    && (s.wordHighlightIndex.Some? ==> -1 <= s.wordHighlightIndex.value < wordCount)
    && (s.animationInProgress ==> s.initialAnimationComplete)
    && (if s.initialAnimationComplete then OffsetInRange(s)
        else s.top == InitialTop && s.left == InitialLeft && s.pathIndex == 0 && s.colorIndex == 0)
  }

  /** Whether some word renders the chip. */
  predicate ChipShown(s: ChipState, wordCount: nat)
  {
    s.wordHighlightIndex.Some? && 0 <= s.wordHighlightIndex.value < wordCount
  }

  /** A hover reaches the handler only on a rendered chip without `pointer-events-none`. */
  predicate HoverEnabled(s: ChipState, wordCount: nat)
  {
    ChipShown(s, wordCount) && !s.animationInProgress
  }

  /** The state at mount, before the highlight effect has run (`useState(0)` for the word). */
  function Mounted(): (s: ChipState)
    ensures forall wordCount: nat :: wordCount >= 1 ==> Inv(s, wordCount) && HoverEnabled(s, wordCount)
    ensures !OffsetInRange(s) && !s.initialAnimationComplete
  {
    ChipState(0, 0, Some(0), InitialTop, InitialLeft, false, false, 0)
  }

  /** The mount effect's update of the highlight to `index`. */
  function HighlightResolved(s: ChipState, wordCount: nat, index: int): (r: ChipState)
    requires Inv(s, wordCount) && -1 <= index < wordCount
    ensures Inv(r, wordCount)
    ensures ChipShown(r, wordCount) <==> 0 <= index
    ensures r.(wordHighlightIndex := s.wordHighlightIndex) == s
  {
    s.(wordHighlightIndex := Some(index))
  }

  /**
   * `onHoverStart`: new word, shape, colour and offset, each drawn with the
   * current value excluded, committed together with both flags set.  The
   * shape and colour always change; the word changes when there is another
   * word, and becomes undefined (no chip) when there is none.
   */
  function Hovered(s: ChipState, wordCount: nat, d: Draws): (r: ChipState)
    requires Inv(s, wordCount) && HoverEnabled(s, wordCount)
    ensures Inv(r, wordCount)
    ensures 0 <= r.pathIndex < PathCount && r.pathIndex != s.pathIndex
    ensures 0 <= r.colorIndex < ColorCount && r.colorIndex != s.colorIndex
    ensures wordCount >= 2 ==>
      r.wordHighlightIndex.Some? && 0 <= r.wordHighlightIndex.value < wordCount
      && r.wordHighlightIndex != s.wordHighlightIndex
    ensures wordCount == 1 ==> r.wordHighlightIndex == None
    ensures OffsetInRange(r)
    ensures r.initialAnimationComplete && r.animationInProgress
    ensures r.progress == r.pathIndex
    ensures !HoverEnabled(r, wordCount)
  {
    var current := s.wordHighlightIndex.value;
    ExcludeCurrent(wordCount, current, d.word);
    var word := GetRandomInteger(0, wordCount, [current], d.word);
    ExcludeCurrent(PathCount, s.pathIndex, d.path);
    var path := GetRandomInteger(0, PathCount, [s.pathIndex], d.path);
    ExcludeCurrent(ColorCount, s.colorIndex, d.color);
    var color := GetRandomInteger(0, ColorCount, [s.colorIndex], d.color);
    DefaultWithoutDefined(TopFrom, TopTo, d.top);
    var top := GetRandomInteger(TopFrom, TopTo, [], d.top);
    DefaultWithoutDefined(LeftFrom, LeftTo, d.left);
    var left := GetRandomInteger(LeftFrom, LeftTo, [], d.left);
    ChipState(path.value, color.value, word, top.value, left.value, true, true, path.value)
  }

  /** Every combination the contract of `Hovered` allows is the outcome of some draws. */
  lemma HoverReaches(s: ChipState, wordCount: nat, word: Option<int>, path: int, color: int, top: int, left: int)
    returns (d: Draws)
    requires Inv(s, wordCount) && HoverEnabled(s, wordCount)
    requires wordCount >= 2 ==> word.Some? && 0 <= word.value < wordCount && word != s.wordHighlightIndex
    requires wordCount == 1 ==> word == None
    requires 0 <= path < PathCount && path != s.pathIndex
    requires 0 <= color < ColorCount && color != s.colorIndex
    requires TopFrom <= top < TopTo && LeftFrom <= left < LeftTo
    ensures Hovered(s, wordCount, d) == ChipState(path, color, word, top, left, true, true, path)
  {
    var uPath := EveryCandidateReachable(0, PathCount, [s.pathIndex], path);
    var uColor := EveryCandidateReachable(0, ColorCount, [s.colorIndex], color);
    var uWord := WordDrawReaching(wordCount, s.wordHighlightIndex.value, word);
    var uTop, uLeft := OffsetDrawsReaching(top, left);
    d := Draws(uWord, uPath, uColor, uTop, uLeft);
    HoverFromDraws(s, wordCount, d, word, path, color, top, left);
  }

  /** Draws that place the chip at offset (`top`, `left`). */
  lemma OffsetDrawsReaching(top: int, left: int) returns (uTop: Random, uLeft: Random)
    requires TopFrom <= top < TopTo && LeftFrom <= left < LeftTo
    ensures GetRandomInteger(TopFrom, TopTo, [], uTop) == Some(top)
    ensures GetRandomInteger(LeftFrom, LeftTo, [], uLeft) == Some(left)
  {
    uTop := EveryCandidateReachable(TopFrom, TopTo, [], top);
    uLeft := EveryCandidateReachable(LeftFrom, LeftTo, [], left);
  }

  /** A draw that sends the chip to `word`: another word, or nowhere when there is no other. */
  lemma WordDrawReaching(wordCount: nat, current: int, word: Option<int>) returns (u: Random)
    requires 0 <= current < wordCount
    requires wordCount >= 2 ==> word.Some? && 0 <= word.value < wordCount && word != Some(current)
    requires wordCount == 1 ==> word == None
    ensures GetRandomInteger(0, wordCount, [current], u) == word
  {
    u := Fraction(0, 1);
    if wordCount >= 2 {
      u := EveryCandidateReachable(0, wordCount, [current], word.value);
    } else {
      ExcludeCurrent(wordCount, current, u);
    }
  }

  /** A hover whose five draws yield the given values moves the chip there. */
  lemma HoverFromDraws(s: ChipState, wordCount: nat, d: Draws, word: Option<int>, path: int, color: int, top: int, left: int)
    requires Inv(s, wordCount) && HoverEnabled(s, wordCount)
    requires GetRandomInteger(0, wordCount, [s.wordHighlightIndex.value], d.word) == word
    requires GetRandomInteger(0, PathCount, [s.pathIndex], d.path) == Some(path)
    requires GetRandomInteger(0, ColorCount, [s.colorIndex], d.color) == Some(color)
    requires GetRandomInteger(TopFrom, TopTo, [], d.top) == Some(top)
    requires GetRandomInteger(LeftFrom, LeftTo, [], d.left) == Some(left)
    ensures Hovered(s, wordCount, d) == ChipState(path, color, word, top, left, true, true, path)
  {
  }

  /** The hover from the page's initial highlight (word 2 of 4, shape 0, colour 0). */
  lemma PageHoverScenario(s: ChipState, d: Draws)
    requires s == HighlightResolved(Mounted(), 4, 2)
    ensures Hovered(s, 4, d).wordHighlightIndex.value in {0, 1, 3}
    ensures Hovered(s, 4, d).pathIndex in {1, 2, 3}
    ensures Hovered(s, 4, d).colorIndex in {1, 2, 3}
  {
    var r := Hovered(s, 4, d);
    assert r.wordHighlightIndex.value != 2 && r.pathIndex != 0 && r.colorIndex != 0;
  }

  /** `onLayoutAnimationComplete`: the animation is over and hovering is enabled again. */
  function LayoutAnimationCompleted(s: ChipState, wordCount: nat): (r: ChipState)
    requires Inv(s, wordCount)
    ensures Inv(r, wordCount)
    ensures HoverEnabled(r, wordCount) <==> ChipShown(s, wordCount)
    ensures r.(animationInProgress := s.animationInProgress) == s
  {
    s.(animationInProgress := false)
  }

  /** With one word, a hover leaves no word to move the chip to, so the chip disappears. */
  lemma SingleWordChipVanishes(s: ChipState, d: Draws)
    requires Inv(s, 1) && HoverEnabled(s, 1)
    ensures ChippedWords(1, s.wordHighlightIndex) == {0}
    ensures ChippedWords(1, Hovered(s, 1, d).wordHighlightIndex) == {}
  {
    assert 0 in ChippedWords(1, s.wordHighlightIndex);
  }

  // ---------------------------------------------------------------------------
  // Event delivery

  /** What the browser delivers to the component. */
  datatype Event =
    | Hover(draws: Draws)
    | LayoutAnimationComplete
    | HighlightEffect

  /**
   * One event: a hover or a layout-animation callback reaches its handler
   * only on a rendered chip, and a hover only without `pointer-events-none`;
   * the effect sets the resolved initial highlight.
   */
  function Deliver(s: ChipState, words: seq<string>, wordToHighlight: Option<string>, e: Event): (r: ChipState)
    requires Inv(s, |words|)
    ensures Inv(r, |words|)
    ensures s.initialAnimationComplete ==> r.initialAnimationComplete
    ensures e.Hover? && !HoverEnabled(s, |words|) ==> r == s
    ensures e.Hover? && HoverEnabled(s, |words|) ==> r.animationInProgress && r.pathIndex != s.pathIndex
    ensures !e.LayoutAnimationComplete? && s.animationInProgress ==> r.animationInProgress
  {
    match e
    case Hover(d) =>
      if HoverEnabled(s, |words|) then Hovered(s, |words|, d) else s
    case LayoutAnimationComplete =>
      if ChipShown(s, |words|) then LayoutAnimationCompleted(s, |words|) else s
    case HighlightEffect =>
      HighlightResolved(s, |words|, InitialHighlight(words, wordToHighlight))
  }

  /** A sequence of events, delivered in order. */
  function Replay(s: ChipState, words: seq<string>, wordToHighlight: Option<string>, events: seq<Event>): (r: ChipState)
    requires Inv(s, |words|)
    ensures Inv(r, |words|)
    ensures s.initialAnimationComplete ==> r.initialAnimationComplete
    decreases |events|
  {
    if events == [] then s
    else Replay(Deliver(s, words, wordToHighlight, events[0]), words, wordToHighlight, events[1..])
  }

  /** While an animation runs, hovers change nothing: the debounce. */
  lemma {:induction false} Debounce(s: ChipState, words: seq<string>, wordToHighlight: Option<string>, events: seq<Event>)
    requires Inv(s, |words|) && s.animationInProgress
    requires forall i :: 0 <= i < |events| ==> events[i].Hover?
    ensures Replay(s, words, wordToHighlight, events) == s
    decreases |events|
  {
    if events != [] {
      Debounce(s, words, wordToHighlight, events[1..]);
    }
  }

  /** Once the chip has vanished, neither hovers nor animation callbacks bring it back. */
  lemma {:induction false} VanishedChipStaysGone(s: ChipState, words: seq<string>, wordToHighlight: Option<string>, events: seq<Event>)
    requires Inv(s, |words|) && !ChipShown(s, |words|)
    requires forall i :: 0 <= i < |events| ==> !events[i].HighlightEffect?
    ensures Replay(s, words, wordToHighlight, events) == s
    decreases |events|
  {
    if events != [] {
      VanishedChipStaysGone(s, words, wordToHighlight, events[1..]);
    }
  }

  // ---------------------------------------------------------------------------
  // The component

  /** The state fields of one mounted `HeroTitle`; `text` and `wordToHighlight` are its props. */
  class Chip {
    const text: string
    const wordToHighlight: Option<string>
    const words: seq<string>
    var pathIndex: int
    var colorIndex: int
    var wordHighlightIndex: Option<int>
    var offsetTop: int
    var offsetLeft: int
    var initialAnimationComplete: bool
    var animationInProgress: bool
    /** The target of the shape-morph motion value. */
    var progress: int

    function State(): ChipState
      reads this
    {
      ChipState(pathIndex, colorIndex, wordHighlightIndex, offsetTop, offsetLeft,
                initialAnimationComplete, animationInProgress, progress)
    }

    ghost predicate Valid()
      reads this
    {
      words == Split(text) && Inv(State(), |words|)
    }

    constructor (text: string, wordToHighlight: Option<string>)
      ensures Valid()
      ensures this.text == text && this.wordToHighlight == wordToHighlight
      ensures State() == Mounted()
    {
      this.text := text;
      this.wordToHighlight := wordToHighlight;
      words := Split(text);
      pathIndex := 0;
      colorIndex := 0;
      wordHighlightIndex := Some(0);
      offsetTop, offsetLeft := InitialTop, InitialLeft;
      initialAnimationComplete := false;
      animationInProgress := false;
      progress := 0;
    }

    /** The effect on `[words, wordToHighlight]`. */
    method ResolveInitialHighlight()
      requires Valid()
      modifies this
      ensures Valid()
      ensures State() == HighlightResolved(old(State()), |words|, InitialHighlight(words, wordToHighlight))
    {
      wordHighlightIndex := Some(InitialHighlight(words, wordToHighlight));
    }

    /** `onHoverStart` of the chip's invisible outline, given the five random numbers it draws. */
    method HoverStart(wordDraw: Random, pathDraw: Random, colorDraw: Random, topDraw: Random, leftDraw: Random)
      requires Valid() && HoverEnabled(State(), |words|)
      modifies this
      ensures Valid()
      ensures State() == Hovered(old(State()), |words|, Draws(wordDraw, pathDraw, colorDraw, topDraw, leftDraw))
    {
      // The handler reads the values of the render it belongs to and
      // commits all updates in one batch.
      var current := wordHighlightIndex.value;
      ExcludeCurrent(|words|, current, wordDraw);
      var randomWordIndex := GetRandomInteger(0, |words|, [current], wordDraw);
      ExcludeCurrent(PathCount, pathIndex, pathDraw);
      var randomPathIndex := GetRandomInteger(0, PathCount, [pathIndex], pathDraw);
      ExcludeCurrent(ColorCount, colorIndex, colorDraw);
      var randomColor := GetRandomInteger(0, ColorCount, [colorIndex], colorDraw);
      DefaultWithoutDefined(TopFrom, TopTo, topDraw);
      var top := GetRandomInteger(TopFrom, TopTo, [], topDraw);
      DefaultWithoutDefined(LeftFrom, LeftTo, leftDraw);
      var left := GetRandomInteger(LeftFrom, LeftTo, [], leftDraw);
      Commit(ChipState(randomPathIndex.value, randomColor.value, randomWordIndex, top.value, left.value,
                       true, true, randomPathIndex.value));
    }

    /** Applies the state updates one handler queued, as React applies a batch at once. */
    method Commit(next: ChipState)
      modifies this
      ensures State() == next
    {
      pathIndex := next.pathIndex;
      colorIndex := next.colorIndex;
      wordHighlightIndex := next.wordHighlightIndex;
      offsetTop := next.top;
      offsetLeft := next.left;
      initialAnimationComplete := next.initialAnimationComplete;
      animationInProgress := next.animationInProgress;
      progress := next.progress;
    }

    /** `onLayoutAnimationComplete` of the rendered chip. */
    method LayoutAnimationComplete()
      requires Valid() && ChipShown(State(), |words|)
      modifies this
      ensures Valid()
      ensures State() == LayoutAnimationCompleted(old(State()), |words|)
    {
      animationInProgress := false;
    }
  }
}
