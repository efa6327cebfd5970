# Hero title chip: a Dafny model

This project models the logic of the landing-page headline `HeroTitle`. The
headline is split into words, and one word carries a coloured "chip". When the
pointer touches the chip, the chip moves to another word. It also takes another
outline, another colour and another offset. While that layout animation runs,
the chip ignores further hovers. The new word, outline and colour come from an
exclusion-aware integer picker, `getRandomInteger(from, to, without)`.

The model has three modules:

- `Wrappers` holds `Option`. `None` stands for JavaScript's `undefined`.
- `RandomInteger` models the picker (utils/get-random-integer.ts), in pure functions:
  - the candidate list, `Range` filtered by `Filter`, which gives `Pool`;
  - the index the random number selects, `ChoiceIndex`;
  - the picker itself, `GetRandomInteger`.

  The value of `Math.random()` is a parameter: an exact fraction `num/den` in
  [0, 1). The index is `floor(u * len)`, computed as `(num * len) / den`.
- `Hero` models the component (components/hero.tsx):
  - The pure parts are functions: the word splitter `Split`, the initial-highlight
    resolver `InitialHighlight`, and the render rule `HasChip` / `ChippedWords`.
  - The component's state fields live in the class `Chip`. Its methods are the
    effect and the two handlers:
    - `ResolveInitialHighlight`;
    - `HoverStart`, which takes the five random numbers the handler draws;
    - `LayoutAnimationComplete`.
  - Each method is proved equal to a transition function on `ChipState` values:
    `HighlightResolved`, `Hovered` and `LayoutAnimationCompleted`.
  - `Inv` is the invariant every reachable state keeps.
  - `Deliver` and `Replay` model how the browser delivers events. A hover or an
    animation callback reaches its handler only on a rendered chip. A hover reaches
    it only while the chip is not `pointer-events-none`. On these, the debounce and
    the single-word behaviour are proved.

The picker's range bounds are named `lo` and `hi` in the model. They are the
source's `from` and `to`.

## Model

| member | source | states |
|---|---|---|
| RandomInteger.MapIndicesAt | utils/get-random-integer.ts:2-4 | position `index` of the filled-then-mapped array holds `f(index)` |
| RandomInteger.Range | utils/get-random-integer.ts:2-4 | the array built from `Array(to - from)` has `to - from` entries |
| RandomInteger.RangeAt | utils/get-random-integer.ts:2-4 | position `index` of that array holds `index + from` |
| RandomInteger.RangeMembers | utils/get-random-integer.ts:2-4 | the array holds exactly the integers `from <= x < to` |
| RandomInteger.RangeIncreasing | utils/get-random-integer.ts:2-4 | the array is strictly increasing |
| RandomInteger.Filter | utils/get-random-integer.ts:5 | filtering never lengthens a list |
| RandomInteger.FilterMembers | utils/get-random-integer.ts:5 | an element survives the filter iff it is in the list and the callback accepts it |
| RandomInteger.FilterIncreasing | utils/get-random-integer.ts:5 | filtering keeps a strictly increasing list strictly increasing |
| RandomInteger.FilterSize | utils/get-random-integer.ts:5 | on a strictly increasing list, the filter drops exactly one entry per distinct rejected value |
| RandomInteger.Pool | utils/get-random-integer.ts:2-5 | the candidates are exactly the integers of [from, to) that `without` does not include |
| RandomInteger.PoolIncreasing | utils/get-random-integer.ts:2-5 | the candidates come in increasing order |
| RandomInteger.PoolSize | utils/get-random-integer.ts:2-5 | the number of candidates is `to - from` minus the number of distinct values of `without` inside [from, to) |
| RandomInteger.ScaledBelow | utils/get-random-integer.ts:7 | `floor(u * len)` stays below `len` for a non-empty list |
| RandomInteger.ChoiceIndex | utils/get-random-integer.ts:7 | the selected index lies in [0, len) for a non-empty list, and is 0 for an empty one |
| RandomInteger.ChoiceIndexReaches | utils/get-random-integer.ts:7 | the draw `k / len` selects index `k`, so every index is selectable |
| RandomInteger.GetRandomInteger | utils/get-random-integer.ts:1-8 | the result is undefined exactly when every integer of [from, to) is excluded (including `from == to`); a defined result lies in [from, to) and is not in `without` |
| RandomInteger.PickAt | utils/get-random-integer.ts:7 | the draw k over the number of candidates returns the candidate at position `k` |
| RandomInteger.EveryCandidateReachable | utils/get-random-integer.ts:2-7 | every integer of [from, to) outside `without` is returned by some draw |
| RandomInteger.ExcludeCurrent | utils/get-random-integer.ts:1-7 | picking from [0, size) with the current index excluded gives another index when size >= 2, and undefined when size is 1 |
| RandomInteger.DefaultWithoutDefined | utils/get-random-integer.ts:1-7 | with the default `without = []` and `from < to`, the result is always a defined integer of [from, to) |
| Hero.Split | components/hero.tsx:63 | `text.split(' ')` never returns an empty array |
| Hero.SplitShape | components/hero.tsx:63 | the token count is the number of spaces plus one, and no token holds a space |
| Hero.JoinSplit | components/hero.tsx:63 | joining the tokens with single spaces gives back the text |
| Hero.SplitWord | components/hero.tsx:63 | a text without spaces is a single token |
| Hero.SplitAfterWord | components/hero.tsx:63 | a space-free word followed by a space splits off as the first token |
| Hero.SplitJoin | components/hero.tsx:63 | splitting a space-joined list of space-free words gives back the words |
| Hero.IndexOf | components/hero.tsx:85 | `indexOf` is -1 iff the word is absent; otherwise it is a position holding the word with none before it |
| Hero.InitialHighlight | components/hero.tsx:85 | the effect's value is -1 iff the hint is absent, empty or not a word; otherwise it is the first position of the hint |
| Hero.PageText | app/page.tsx:7 | the embedding page's headline is its four words joined by spaces |
| Hero.PageScenario | app/page.tsx:7 | that headline splits into its four words, and the hint "Animation" highlights position 2 |
| Hero.SingleWordScenario | components/hero.tsx:83-86 | "Solo" without a hint is one word and highlights nothing (-1) |
| Hero.ChippedWords | components/hero.tsx:90-97 | at most one word renders the chip, namely the one at `wordHighlightIndex`; for -1 or undefined, none does |
| Hero.Mounted | components/hero.tsx:66-76 | the mounted state (shape 0, colour 0, word 0, offset 18%/68%, both flags false) keeps the invariant, lets a hover through, and has its offset outside the hover ranges |
| Hero.HighlightResolved | components/hero.tsx:83-86 | the effect changes only the highlight and keeps the invariant; the chip shows iff the index is not -1 |
| Hero.Hovered | components/hero.tsx:119-137 | the new shape and colour are in range and differ from the old ones; with two or more words the new word is in range and differs, and with one word it is undefined; the offset lies in [-20, -5) x [-30, 70); both flags are set; the morph target is the new shape; a further hover is disabled |
| Hero.HoverReaches | components/hero.tsx:124-131 | every outcome the contract of `Hovered` allows is produced by some five draws |
| Hero.PageHoverScenario | components/hero.tsx:124-126 | from the page's initial state, a hover moves the chip to word 0, 1 or 3, with shape and colour among 1, 2 and 3 |
| Hero.LayoutAnimationCompleted | components/hero.tsx:103-107 | only `animationInProgress` changes, to false; hover is enabled again exactly when the chip is rendered |
| Hero.SingleWordChipVanishes | components/hero.tsx:124-132 | with a one-word headline, the chip is on word 0 before a hover and on no word after it |
| Hero.Deliver | components/hero.tsx:97-137 | every event keeps the invariant; `initialAnimationComplete` is never reset; a hover on a disabled chip changes nothing; an enabled hover starts an animation with a new shape; only the layout callback ends an animation |
| Hero.Replay | components/hero.tsx:97-137 | any event sequence keeps the invariant and never resets `initialAnimationComplete` |
| Hero.Debounce | components/hero.tsx:100-101 | while an animation runs, any number of hovers leaves the state unchanged |
| Hero.VanishedChipStaysGone | components/hero.tsx:97-107 | once no word carries the chip, hovers and layout callbacks leave the state unchanged |
| Hero.Chip.constructor | components/hero.tsx:63-79 | a new component holds the split words and the mounted state, which satisfies the invariant |
| Hero.Chip.ResolveInitialHighlight | components/hero.tsx:83-86 | the effect installs `InitialHighlight(words, wordToHighlight)` as the highlight and keeps the invariant |
| Hero.Chip.HoverStart | components/hero.tsx:119-137 | given the five draws, the handler's new field values are exactly `Hovered` of the old ones, and the invariant is kept |
| Hero.Chip.LayoutAnimationComplete | components/hero.tsx:103-107 | the callback's new field values are exactly `LayoutAnimationCompleted` of the old ones, and the invariant is kept |

## Left out

- Framer Motion variants, springs, `useSpring`, `layoutId` animation and the `onLayoutAnimationStart` callback are left out. They are rendering and timing, not logic. The motion value `progress` is kept only as the target the hover sets.
- hooks/use-polymorph.ts and the `polymorph-js` interpolation are left out. They are a foreign library, and the model keeps only the shape index they consume.
- The SVG outlines and the Tailwind colour names are left out. Only the sizes of the two tables (4 each) matter. `fillColor` is kept as an index into its table, because `fillColors.indexOf` on four distinct names is the identity on indices.
- CSS classes, JSX rendering and the `console.info` calls are left out. They are output only.
- React's scheduling of `useEffect` and `useMemo` is left out. The effect is an event (`HighlightEffect`, or the method `ResolveInitialHighlight`) that may arrive in any order with the others. The memoised `words` is a constant of the component.
- The offsets are kept as integer percents. The `%` string formatting is output only.
- `Math.random()` is a parameter, an exact fraction in [0, 1). Double-precision rounding of `Math.random() * length` is not modelled.
- RandomInteger.GetRandomInteger: uniformity of the choice is not modelled. The contract states which results are possible and that each is reachable, not their probabilities.
- RandomInteger.Range: `Array(to - from)` with `to < from` throws a `RangeError`. The model makes `from <= to` a precondition instead. Every call in the component satisfies it.
- Inputs are not checked for being integers. The picker's arguments are integers in every call the component makes.
- app/page.tsx is used only as the source of the page-headline scenario.
- The code splits on the single character `' '`, so `"".split(' ')` is `[""]` and consecutive spaces give empty words. A headline therefore always has at least one word, and the "zero words" case cannot arise. The model follows the code.
- Hero.Chip.HoverStart: it requires a rendered chip without `pointer-events-none`, because only then does the browser deliver the hover. `Deliver` models the ignored cases.
- Hero.Chip.LayoutAnimationComplete: it requires a rendered chip, because only a rendered chip produces the callback. With a single word, the chip vanishes after the first hover. The model then delivers no callback, so `animationInProgress` stays true, as `Deliver` and `VanishedChipStaysGone` state.
