# Verified models of the bundled highlighter and animation runtime, and of the minter burn

The repository holds governance scripts and, with an archived page, two JavaScript bundles. This
project models the algorithmic parts and proves what they keep:

- **highlight.js 9.15.6** (`highlight.min-D8D27.js`, one line): the mode-stack engine, the DOM event
  stream, mergeStreams and the joiner of regular expressions. Modules `Markup`, `Highlight` (the
  engine as a function on documents), `HighlightProofs`, `HighlightRoots` (when runs throw or lose
  their root), `HighlightLosses` (when they repeat or lose text), `HighlightRanking` (automatic
  detection), `HighlightSteps` (where spans lie), `HighlighterEngine` (the engine as the source writes
  it), `NodeStream`, `MergeStreams`, `MergeOrder`, `TagReading` (written tags read back),
  `HighlightBlock`, `HighlightSpans` (the highlighted text parsed as a tree), `RegexJoin`.
- **lottie 5.8.1** (`lottie.min-99657.js`, line 13): the canvas renderer's save/restore stack
  (`Canvas`), the frame scheduler (`Scheduler`), the object pools (`ShapePools`), the ARC4 generator
  (`Arc4`), matrices (`Matrices`), colour conversion (`Colour`), the arc-length search
  (`ArcLength`), playback (`Playback`) and text clustering (`TextClusters`).
- **TIP-121c**: the role commands and the access control they drive (`MinterBurn`).

Stateful code is modelled by classes and loops proved against functions on values; the properties are
lemmas about those functions or invariants of the classes.

## Assumptions

- Regular expressions are an oracle. A `Script` lists, match by match, where the expressions matched
  and which rules the lexeme satisfies; theorems hold for all scripts, and a script that no
  expressions could produce for the text is reported as such.
- JavaScript numbers are exact integers and reals. For the generator this loses nothing: the result
  of `Random` is an integer below 2^53 over a power of two, which a double holds exactly.
- The browser parses the highlighter's value, which consists of spans and escaped characters, as
  `HighlightSpans.Parse` does. Which elements are void is taken from the HTML Standard, section
  13.1.2, and not from the test the source makes.
- Elapsed times passed to `advanceTime` are not negative.
- Cosine and sine of an angle are arguments.
- Role identifiers are hashes and are taken to be distinct. `Core` at the deployed address is taken to
  behave as `contracts/core/Permissions.sol` on the access control whose text is in
  `scripts/shutdown/data/prod/RariMerkleRedeemer_flattened.sol`. Its constructor makes it a governor
  of itself; its only call to itself is the one inside `revokeOverride`.

## What turned out false

Each of these has a lemma with the input, a lemma that says exactly when it happens, or both.

- Highlighting can show a lexeme twice (`rB` with `skip` or `eB`, `rE` with `skip` or `eE`), can lose a
  character (an empty lexeme no rule claims), and can throw or leave spans open (`eW` on the root, or
  `endsParent` under it, also when the root starts another mode or itself again).
- The void test searches inside names: `abbr` counts as void, `link` does not. Of several double quotes
  in an attribute only the first is replaced. An unclosed `[` in a piece swallows the next piece of a
  joined expression, and the groups of a piece are miscounted when one is named.
- A layer without a known blend mode is painted on the canvas with the mode of what was drawn before.
- A matrix whose identity check is cached ignores numbers copied into it afterwards.
- The arc-length search answers every fraction below that of one stretch between samples with the
  curve's start.
- A segment may be entered outside its range; running out backwards costs a loop; a tick past two ends
  counts one loop; a negative loop count loops for ever.
- Two of the combining marks of Devanagari are not attached to their letter. A text that starts with a
  joining unit loses its beginning; a pending joiner glues a later emoji to the wrong cluster.
- The description of the last burn command says that nobody can ever grant MINTER_ROLE again. A
  governor can, by calling `createRole` once more; the claim holds exactly when no governor is left
  but Core itself, which its constructor made one.

## Model

| member | source | states |
|---|---|---|
| HighlightLosses.TextIsKeptIff | discord-export/Code4rena - ARCHIVE-Q3-2022 - fei-tribe-sept9 [1017461941377175623].html_Files/highlight.min-D8D27.js:2 | For every grammar, text, sequence of matches and continuation: removing the tags gives the input back if and only if no lexeme is both emitted and given back to the input and no empty lexeme falls through before the end, nested runs included; only a run that does both kinds can be right by accident |
| HighlightLosses.DetectedTextIsKeptIff | discord-export/Code4rena - ARCHIVE-Q3-2022 - fei-tribe-sept9 [1017461941377175623].html_Files/highlight.min-D8D27.js:2 | The same for automatic detection, of the candidate that wins |
| HighlightProofs.TextIsAccountedFor | discord-export/Code4rena - ARCHIVE-Q3-2022 - fei-tribe-sept9 [1017461941377175623].html_Files/highlight.min-D8D27.js:2 | By how much the shown text can differ from the input: the characters shown plus those stepped over are the input plus those repeated |
| HighlightLosses.ConservingGrammarKeepsText | discord-export/Code4rena - ARCHIVE-Q3-2022 - fei-tribe-sept9 [1017461941377175623].html_Files/highlight.min-D8D27.js:2 | A grammar without `rB`+`skip`/`eB` and `rE`+`skip`/`eE` repeats nothing, so that only empty lexemes that fall through can lose text |
| HighlightLosses.RunAvoidsIff | discord-export/Code4rena - ARCHIVE-Q3-2022 - fei-tribe-sept9 [1017461941377175623].html_Files/highlight.min-D8D27.js:2 | For every grammar: a run repeats no character, or steps over none, if and only if none of its lexemes does, read off grammar, text and matches alone |
| HighlightLosses.StepShowsOnceIff | discord-export/Code4rena - ARCHIVE-Q3-2022 - fei-tribe-sept9 [1017461941377175623].html_Files/highlight.min-D8D27.js:2 | One lexeme, whether it begins a mode, ends modes or falls through, with nested languages: it shows exactly the text it consumes if and only if it is not both emitted and given back, and is not an empty one that falls through before the end |
| HighlightLosses.AdvancesClean | discord-export/Code4rena - ARCHIVE-Q3-2022 - fei-tribe-sept9 [1017461941377175623].html_Files/highlight.min-D8D27.js:2 | With non-empty matches nothing is lost, whatever the grammar |
| HighlightRoots.SpansAreBalanced | discord-export/Code4rena - ARCHIVE-Q3-2022 - fei-tribe-sept9 [1017461941377175623].html_Files/highlight.min-D8D27.js:2 | When on every stack the lexemes can lead to the modes keep the root, no exception leaves `k`, and the final value closes every span in order, for every text and every script of matches |
| HighlightRoots.RootStaysIff | discord-export/Code4rena - ARCHIVE-Q3-2022 - fei-tribe-sept9 [1017461941377175623].html_Files/highlight.min-D8D27.js:2 | For one mode stack: no lexeme throws or ends the root, whichever end expressions it satisfies, if and only if no search runs past the root through `eW` and every mode that can be ended lies above one that does not end its parent |
| HighlightRoots.RunsAreWellIff | discord-export/Code4rena - ARCHIVE-Q3-2022 - fei-tribe-sept9 [1017461941377175623].html_Files/highlight.min-D8D27.js:2 | For a whole grammar: all runs over all texts throw nothing, close their spans and leave a chain of modes on which the language's own object is found again, if and only if that condition holds on every stack the lexemes can lead to |
| HighlightRoots.KeptRootsStay | discord-export/Code4rena - ARCHIVE-Q3-2022 - fei-tribe-sept9 [1017461941377175623].html_Files/highlight.min-D8D27.js:2 | The condition holds for grammars whose roots have no end and whose modes directly under a root do not end their parent |
| HighlightRoots.RootsThatDoNotStay | discord-export/Code4rena - ARCHIVE-Q3-2022 - fei-tribe-sept9 [1017461941377175623].html_Files/highlight.min-D8D27.js:2 | It fails for a root with `eW`, and for a child that can be ended and ends its parent, whatever the root starts next |
| HighlightProofs.SteadyRunsAreWell | discord-export/Code4rena - ARCHIVE-Q3-2022 - fei-tribe-sept9 [1017461941377175623].html_Files/highlight.min-D8D27.js:2 | On any set of stacks that is kept by every lexeme, each run throws nothing and closes its spans |
| HighlightLosses.ValueReadsBackAsText | discord-export/Code4rena - ARCHIVE-Q3-2022 - fei-tribe-sept9 [1017461941377175623].html_Files/highlight.min-D8D27.js:2 | When roots stay, the returned string, read by an independent reader of tags and entities, is a balanced document, and its text is the input if and only if nothing is repeated or dropped |
| HighlightProofs.LoopKeeps | discord-export/Code4rena - ARCHIVE-Q3-2022 - fei-tribe-sept9 [1017461941377175623].html_Files/highlight.min-D8D27.js:2 | The main loop, from any state that meets the invariant (emitted and buffered text is the consumed input, open spans are those of the classed modes above the root), ends in a faithful result |
| HighlightProofs.StepKeeps | discord-export/Code4rena - ARCHIVE-Q3-2022 - fei-tribe-sept9 [1017461941377175623].html_Files/highlight.min-D8D27.js:2 | One iteration moves the loop invariant from the old position to the new one, and an illegal lexeme is only reported when illegals are not ignored |
| HighlightProofs.HighlightedFaithful | discord-export/Code4rena - ARCHIVE-Q3-2022 - fei-tribe-sept9 [1017461941377175623].html_Files/highlight.min-D8D27.js:2 | The same for a whole call of `k`, including a continuation mode and nested sub-languages |
| HighlightProofs.BestFaithful | discord-export/Code4rena - ARCHIVE-Q3-2022 - fei-tribe-sept9 [1017461941377175623].html_Files/highlight.min-D8D27.js:2 | Automatic detection returns a faithful result whichever candidate wins |
| HighlightRanking.DetectionPicksMostRelevant | discord-export/Code4rena - ARCHIVE-Q3-2022 - fei-tribe-sept9 [1017461941377175623].html_Files/highlight.min-D8D27.js:2 | Of plain text and all candidates, the first of the most relevant is returned, and as second best the most relevant of the others |
| HighlightProofs.FlushKeeps | discord-export/Code4rena - ARCHIVE-Q3-2022 - fei-tribe-sept9 [1017461941377175623].html_Files/highlight.min-D8D27.js:2 | `l` writes the buffer out with keywords or a sub-language marked and keeps the invariant |
| HighlightProofs.BeginKeeps | discord-export/Code4rena - ARCHIVE-Q3-2022 - fei-tribe-sept9 [1017461941377175623].html_Files/highlight.min-D8D27.js:2 | Entering a mode keeps the invariant and never advances past the lexeme |
| HighlightProofs.EndKeeps | discord-export/Code4rena - ARCHIVE-Q3-2022 - fei-tribe-sept9 [1017461941377175623].html_Files/highlight.min-D8D27.js:2 | Leaving any number of modes, with a following `starts` mode, keeps the invariant |
| HighlightProofs.EndedAtIsInnermost | discord-export/Code4rena - ARCHIVE-Q3-2022 - fei-tribe-sept9 [1017461941377175623].html_Files/highlight.min-D8D27.js:2 | Which mode a lexeme ends: the innermost matching one reachable through `eW`, and from there out to the nearest mode without `endsParent` |
| HighlightProofs.ClimbIsNearest | discord-export/Code4rena - ARCHIVE-Q3-2022 - fei-tribe-sept9 [1017461941377175623].html_Files/highlight.min-D8D27.js:2 | The `endsParent` climb passes only modes that end their parent and stops at the first that does not |
| HighlightProofs.FirstBegunIsFirst | discord-export/Code4rena - ARCHIVE-Q3-2022 - fei-tribe-sept9 [1017461941377175623].html_Files/highlight.min-D8D27.js:2 | Which mode a lexeme begins: the first child, in the grammar's order, whose begin expression matches; none if and only if no child's does |
| HighlightProofs.StepStack | discord-export/Code4rena - ARCHIVE-Q3-2022 - fei-tribe-sept9 [1017461941377175623].html_Files/highlight.min-D8D27.js:2 | The mode stack after one lexeme: the first matching child is entered whatever the lexeme ends, only without one are modes ended, and only a lexeme that does neither can be illegal |
| HighlightSteps.BeginPlacesLexeme | discord-export/Code4rena - ARCHIVE-Q3-2022 - fei-tribe-sept9 [1017461941377175623].html_Files/highlight.min-D8D27.js:2 | What lies in front of and inside the span of a mode that is entered: the lexeme in front with `eB`, inside otherwise, nowhere when it is given back; with `skip` the span opens in front of everything still buffered |
| HighlightSteps.EndPlacesLexeme | discord-export/Code4rena - ARCHIVE-Q3-2022 - fei-tribe-sept9 [1017461941377175623].html_Files/highlight.min-D8D27.js:2 | What lies inside and behind the spans that are left: the lexeme inside, behind with `eE`, nowhere when it is given back |
| HighlightSteps.FlushMarksKeywords | discord-export/Code4rena - ARCHIVE-Q3-2022 - fei-tribe-sept9 [1017461941377175623].html_Files/highlight.min-D8D27.js:2 | In a mode with keywords, exactly the characters of the keywords lie in a span, each in that of its keyword's class |
| HighlightSteps.KeywordsAreMarked | discord-export/Code4rena - ARCHIVE-Q3-2022 - fei-tribe-sept9 [1017461941377175623].html_Files/highlight.min-D8D27.js:2 | The same from any position of the buffer on |
| HighlightSteps.NestedIsWrapped | discord-export/Code4rena - ARCHIVE-Q3-2022 - fei-tribe-sept9 [1017461941377175623].html_Files/highlight.min-D8D27.js:2 | What a sub-language shows lies in a span of its name, without prefix, and its relevance counts where the mode's own is positive |
| HighlightSteps.SubLanguageResumes | discord-export/Code4rena - ARCHIVE-Q3-2022 - fei-tribe-sept9 [1017461941377175623].html_Files/highlight.min-D8D27.js:2 | A sub-language goes on where it ended: after two pieces its modes are those that all its matches lead to from the language's own mode |
| HighlightSteps.EachModeCounts | discord-export/Code4rena - ARCHIVE-Q3-2022 - fei-tribe-sept9 [1017461941377175623].html_Files/highlight.min-D8D27.js:2 | Each ended mode adds its relevance once, wherever it stood, unless it is skipped or holds a sub-language |
| HighlightSteps.EachKeywordCounts | discord-export/Code4rena - ARCHIVE-Q3-2022 - fei-tribe-sept9 [1017461941377175623].html_Files/highlight.min-D8D27.js:2 | Each keyword adds its score once, and no other word does |
| HighlightSteps.EndAddsRelevance | discord-export/Code4rena - ARCHIVE-Q3-2022 - fei-tribe-sept9 [1017461941377175623].html_Files/highlight.min-D8D27.js:2 | What leaving one mode adds to the relevance, keywords and sub-language included |
| HighlightProofs.SkipWithReturnBeginRepeats | discord-export/Code4rena - ARCHIVE-Q3-2022 - fei-tribe-sept9 [1017461941377175623].html_Files/highlight.min-D8D27.js:2 | A child with both `skip` and `rB` shows its begin lexeme twice: the grammar hypothesis is needed |
| HighlightProofs.EmptyFallThroughDrops | discord-export/Code4rena - ARCHIVE-Q3-2022 - fei-tribe-sept9 [1017461941377175623].html_Files/highlight.min-D8D27.js:2 | An empty lexeme that no rule claims loses one character of the text |
| HighlightProofs.EndingTheRootThrows | discord-export/Code4rena - ARCHIVE-Q3-2022 - fei-tribe-sept9 [1017461941377175623].html_Files/highlight.min-D8D27.js:2 | A mode under the root with `endsParent` pops the root, and the next step throws |
| HighlightProofs.RestartedRootThrows | discord-export/Code4rena - ARCHIVE-Q3-2022 - fei-tribe-sept9 [1017461941377175623].html_Files/highlight.min-D8D27.js:2 | Even when the root starts itself again, the mode on the stack is another object, and a later run that continues from it throws |
| HighlighterEngine.Highlight | discord-export/Code4rena - ARCHIVE-Q3-2022 - fei-tribe-sept9 [1017461941377175623].html_Files/highlight.min-D8D27.js:2 | `k` on strings, buffer, relevance and mode stack computes the rendering of the specified document, with the same relevance and outcome (value or exception), and throws on a continuation without the language's own object |
| HighlighterEngine.Highlighter.Loop | discord-export/Code4rena - ARCHIVE-Q3-2022 - fei-tribe-sept9 [1017461941377175623].html_Files/highlight.min-D8D27.js:2 | The main loop, the last flush and the closing of spans do what the specified loop does |
| HighlighterEngine.HighlightAuto | discord-export/Code4rena - ARCHIVE-Q3-2022 - fei-tribe-sept9 [1017461941377175623].html_Files/highlight.min-D8D27.js:2 | `x` compares relevances and computes the specified best and second best result |
| HighlighterEngine.Highlighter.ProcessLexeme | discord-export/Code4rena - ARCHIVE-Q3-2022 - fei-tribe-sept9 [1017461941377175623].html_Files/highlight.min-D8D27.js:2 | `a` changes output, buffer and mode stack as the specified step does, and advances as far; it enters the first matching child, or ends modes when there is none |
| HighlighterEngine.Highlighter.Flush | discord-export/Code4rena - ARCHIVE-Q3-2022 - fei-tribe-sept9 [1017461941377175623].html_Files/highlight.min-D8D27.js:2 | `l` changes output, buffer, relevance and continuation modes as specified |
| HighlighterEngine.Highlighter.PopTo | discord-export/Code4rena - ARCHIVE-Q3-2022 - fei-tribe-sept9 [1017461941377175623].html_Files/highlight.min-D8D27.js:2 | The do-while loop closes exactly the spans of the popped modes, adds their relevance, and loses the language's own object exactly when it pops it |
| HighlighterEngine.Highlighter.FindEnded | discord-export/Code4rena - ARCHIVE-Q3-2022 - fei-tribe-sept9 [1017461941377175623].html_Files/highlight.min-D8D27.js:2 | The two loops over parents find the specified stack position |
| HighlighterEngine.Highlighter.FindBegun | discord-export/Code4rena - ARCHIVE-Q3-2022 - fei-tribe-sept9 [1017461941377175623].html_Files/highlight.min-D8D27.js:2 | The loop over the children stops at the first whose begin expression matches |
| HighlighterEngine.BuildSpanWraps | discord-export/Code4rena - ARCHIVE-Q3-2022 - fei-tribe-sept9 [1017461941377175623].html_Files/highlight.min-D8D27.js:2 | `o` writes an opening tag, the content and the closing tag |
| Markup.RenderChars | discord-export/Code4rena - ARCHIVE-Q3-2022 - fei-tribe-sept9 [1017461941377175623].html_Files/highlight.min-D8D27.js:2 | The three replacements of `y` amount to escaping character by character |
| Markup.ReadRender | discord-export/Code4rena - ARCHIVE-Q3-2022 - fei-tribe-sept9 [1017461941377175623].html_Files/highlight.min-D8D27.js:2 | Reading back what was written gives the same characters and tags |
| Markup.NestUnder | discord-export/Code4rena - ARCHIVE-Q3-2022 - fei-tribe-sept9 [1017461941377175623].html_Files/highlight.min-D8D27.js:2 | What is well nested alone stays so inside any open elements |
| Markup.WhichVoidElementsAreFound | discord-export/Code4rena - ARCHIVE-Q3-2022 - fei-tribe-sept9 [1017461941377175623].html_Files/highlight.min-D8D27.js:2 | Of the void elements of HTML the test finds exactly `br`, `hr`, `img`, `input` and `wbr` |
| NodeStream.Walk | discord-export/Code4rena - ARCHIVE-Q3-2022 - fei-tribe-sept9 [1017461941377175623].html_Files/highlight.min-D8D27.js:2 | `_` pushes the specified events and returns the start offset plus the tree's text length |
| NodeStream.StreamSorted | discord-export/Code4rena - ARCHIVE-Q3-2022 - fei-tribe-sept9 [1017461941377175623].html_Files/highlight.min-D8D27.js:2 | Offsets never decrease and stay between the start and the end of the text |
| NodeStream.StreamWellNested | discord-export/Code4rena - ARCHIVE-Q3-2022 - fei-tribe-sept9 [1017461941377175623].html_Files/highlight.min-D8D27.js:2 | Start and stop events nest, void elements opening only, and leave nothing open, when the void test is right about the tree's elements |
| NodeStream.StreamClosesIff | discord-export/Code4rena - ARCHIVE-Q3-2022 - fei-tribe-sept9 [1017461941377175623].html_Files/highlight.min-D8D27.js:2 | For every tree: the stream closes what it opens, in order, if and only if the search for `br`, `hr`, `img` and `input` in a name is right about every element, as judged by the void elements of HTML |
| NodeStream.StreamGivesAncestors | discord-export/Code4rena - ARCHIVE-Q3-2022 - fei-tribe-sept9 [1017461941377175623].html_Files/highlight.min-D8D27.js:2 | Each character lies, in the stream, under exactly its ancestors in the tree, void elements being those of HTML |
| MergeStreams.MergeText | discord-export/Code4rena - ARCHIVE-Q3-2022 - fei-tribe-sept9 [1017461941377175623].html_Files/highlight.min-D8D27.js:2 | mergeStreams, consuming both queues from the front with a stack of open elements, writes the specified pieces; it terminates by the events left |
| MergeStreams.MergeKeepsEvents | discord-export/Code4rena - ARCHIVE-Q3-2022 - fei-tribe-sept9 [1017461941377175623].html_Files/highlight.min-D8D27.js:2 | Every event of either stream is written exactly once, in its stream's order |
| MergeStreams.MergeInPlace | discord-export/Code4rena - ARCHIVE-Q3-2022 - fei-tribe-sept9 [1017461941377175623].html_Files/highlight.min-D8D27.js:2 | Each event is written when exactly the text before its offset has been written |
| MergeStreams.MergeContexts | discord-export/Code4rena - ARCHIVE-Q3-2022 - fei-tribe-sept9 [1017461941377175623].html_Files/highlight.min-D8D27.js:2 | The merged document is well nested and every character lies under its original elements, then its highlighted ones |
| MergeOrder.MergeIsTidy | discord-export/Code4rena - ARCHIVE-Q3-2022 - fei-tribe-sept9 [1017461941377175623].html_Files/highlight.min-D8D27.js:2 | At one offset highlighted elements end first, then original events are written, then highlighted elements start; original events with no highlighted one between them are written in one go, so that elements are not reopened needlessly |
| MergeStreams.WriteBatch | discord-export/Code4rena - ARCHIVE-Q3-2022 - fei-tribe-sept9 [1017461941377175623].html_Files/highlight.min-D8D27.js:2 | The do-while loop takes exactly the original events at one offset |
| MergeStreams.OpenText | discord-export/Code4rena - ARCHIVE-Q3-2022 - fei-tribe-sept9 [1017461941377175623].html_Files/highlight.min-D8D27.js:2 | `c` writes an opening tag attribute by attribute |
| HighlightBlock.MergedTextMeaning | discord-export/Code4rena - ARCHIVE-Q3-2022 - fei-tribe-sept9 [1017461941377175623].html_Files/highlight.min-D8D27.js:2 | For two trees over the same characters the merged string reads back balanced if and only if the void test is right about the original elements, and then each character lies under both sets of ancestors |
| HighlightBlock.BlockKeepsTextAndMarkup | discord-export/Code4rena - ARCHIVE-Q3-2022 - fei-tribe-sept9 [1017461941377175623].html_Files/highlight.min-D8D27.js:2 | For a named language and any tree that writes the highlighter's value, when nothing is repeated or dropped: merging keeps the block's text, its own elements around the same characters, and the highlighter's spans inside them |
| HighlightBlock.DetectedBlockKeepsTextAndMarkup | discord-export/Code4rena - ARCHIVE-Q3-2022 - fei-tribe-sept9 [1017461941377175623].html_Files/highlight.min-D8D27.js:2 | The same when the language is detected |
| HighlightSpans.ParseGives | discord-export/Code4rena - ARCHIVE-Q3-2022 - fei-tribe-sept9 [1017461941377175623].html_Files/highlight.min-D8D27.js:2 | A document of spans that are all closed is what the tree it parses to is written as |
| HighlightSpans.HighlightedBlockIsShown | discord-export/Code4rena - ARCHIVE-Q3-2022 - fei-tribe-sept9 [1017461941377175623].html_Files/highlight.min-D8D27.js:2 | End to end for a named language: no exception, the highlighter's value is written by the tree it parses to, and the block is shown with its text, its own elements and the spans |
| HighlightSpans.DetectedBlockIsShown | discord-export/Code4rena - ARCHIVE-Q3-2022 - fei-tribe-sept9 [1017461941377175623].html_Files/highlight.min-D8D27.js:2 | End to end when the language is detected |
| HighlightBlock.MergeBlock | discord-export/Code4rena - ARCHIVE-Q3-2022 - fei-tribe-sept9 [1017461941377175623].html_Files/highlight.min-D8D27.js:2 | The block method computes the merged string with the meaning above |
| HighlightBlock.ForestContexts | discord-export/Code4rena - ARCHIVE-Q3-2022 - fei-tribe-sept9 [1017461941377175623].html_Files/highlight.min-D8D27.js:2 | The document of a tree shows each character under its ancestors, and is balanced |
| HighlightBlock.AbbreviationIsNeverClosed | discord-export/Code4rena - ARCHIVE-Q3-2022 - fei-tribe-sept9 [1017461941377175623].html_Files/highlight.min-D8D27.js:2 | The void test finds `br` inside `abbr`, which is not void: such an element is opened and never closed |
| HighlightBlock.LinkIsClosed | discord-export/Code4rena - ARCHIVE-Q3-2022 - fei-tribe-sept9 [1017461941377175623].html_Files/highlight.min-D8D27.js:2 | It finds none of its strings in `link`, which is void: such an element is closed |
| HighlightBlock.AttributeIsWholeIffOneQuote | discord-export/Code4rena - ARCHIVE-Q3-2022 - fei-tribe-sept9 [1017461941377175623].html_Files/highlight.min-D8D27.js:2 | An attribute is written whole if and only if its value has at most one double quote, as only the first is replaced |
| HighlightBlock.TwoQuotesAreCutShort | discord-export/Code4rena - ARCHIVE-Q3-2022 - fei-tribe-sept9 [1017461941377175623].html_Files/highlight.min-D8D27.js:2 | A value of two double quotes is not |
| TagReading.AttributesReadBackIff | discord-export/Code4rena - ARCHIVE-Q3-2022 - fei-tribe-sept9 [1017461941377175623].html_Files/highlight.min-D8D27.js:2 | The attributes written are read back, names and decoded values, if and only if no value has more than one double quote |
| TagReading.TagReadsBackIff | discord-export/Code4rena - ARCHIVE-Q3-2022 - fei-tribe-sept9 [1017461941377175623].html_Files/highlight.min-D8D27.js:2 | So is a whole opening tag |
| RegexJoin.Join | discord-export/Code4rena - ARCHIVE-Q3-2022 - fei-tribe-sept9 [1017461941377175623].html_Files/highlight.min-D8D27.js:2 | The joiner inside `E` writes the pieces' tokens, references shifted by the capture groups before them, separated |
| RegexJoin.CopyPiece | discord-export/Code4rena - ARCHIVE-Q3-2022 - fei-tribe-sept9 [1017461941377175623].html_Files/highlight.min-D8D27.js:2 | The inner loop copies one piece, counting its groups |
| RegexJoin.JoinReadBackIff | discord-export/Code4rena - ARCHIVE-Q3-2022 - fei-tribe-sept9 [1017461941377175623].html_Files/highlight.min-D8D27.js:2 | Re-tokenising the joined source gives the concatenated, shifted token lists if and only if no piece ends in a token that what follows it changes |
| RegexJoin.JoinReadBack | discord-export/Code4rena - ARCHIVE-Q3-2022 - fei-tribe-sept9 [1017461941377175623].html_Files/highlight.min-D8D27.js:2 | So it does for all well-formed pieces |
| RegexJoin.ReferencesFollowTheirGroups | discord-export/Code4rena - ARCHIVE-Q3-2022 - fei-tribe-sept9 [1017461941377175623].html_Files/highlight.min-D8D27.js:2 | Each back-reference of a piece points, in the joined source, to the image of the group it pointed to, if and only if no earlier piece has a named group; groups are counted as JavaScript captures |
| RegexJoin.NamedGroupIsNotCounted | discord-export/Code4rena - ARCHIVE-Q3-2022 - fei-tribe-sept9 [1017461941377175623].html_Files/highlight.min-D8D27.js:2 | `(?<y>a)` captures and is not counted |
| RegexJoin.PieceReadBack | discord-export/Code4rena - ARCHIVE-Q3-2022 - fei-tribe-sept9 [1017461941377175623].html_Files/highlight.min-D8D27.js:2 | A copied piece followed by nothing or the separator reads back as its shifted tokens |
| RegexJoin.DecimalRoundTrip | discord-export/Code4rena - ARCHIVE-Q3-2022 - fei-tribe-sept9 [1017461941377175623].html_Files/highlight.min-D8D27.js:2 | `Number(String(n))` is `n`, without leading zero |
| RegexJoin.ClassIsMatchIff | discord-export/Code4rena - ARCHIVE-Q3-2022 - fei-tribe-sept9 [1017461941377175623].html_Files/highlight.min-D8D27.js:2 | The scanner's character class is what its expression matches: it ends at the one `]` that only ordinary characters and escapes lead up to |
| RegexJoin.UnclosedClassIff | discord-export/Code4rena - ARCHIVE-Q3-2022 - fei-tribe-sept9 [1017461941377175623].html_Files/highlight.min-D8D27.js:2 | Two pieces without stray backslashes read back as themselves if and only if no `]` of the second closes a `[` that the first leaves open |
| RegexJoin.UnclosedClassSwallowsTheNextPiece | discord-export/Code4rena - ARCHIVE-Q3-2022 - fei-tribe-sept9 [1017461941377175623].html_Files/highlight.min-D8D27.js:2 | A piece with an unclosed `[` absorbs the separator and the next piece |
| Canvas.Renderer.RenderLayer | discord-export/Code4rena - ARCHIVE-Q3-2022 - fei-tribe-sept9 [1017461941377175623].html_Files/lottie.min-99657.js:13 | Rendering any tree of layers leaves stacks, transform, opacity and clips as they were, and paints what the reference semantics says, blend modes that the browser ignores included |
| Canvas.Renderer.RenderLayers | discord-export/Code4rena - ARCHIVE-Q3-2022 - fei-tribe-sept9 [1017461941377175623].html_Files/lottie.min-99657.js:13 | The same for the layers of a composition, drawn from last to first |
| Canvas.Renderer.RenderContent | discord-export/Code4rena - ARCHIVE-Q3-2022 - fei-tribe-sept9 [1017461941377175623].html_Files/lottie.min-99657.js:13 | The same for shapes, text, images and nested compositions |
| Canvas.SceneIsStateless | discord-export/Code4rena - ARCHIVE-Q3-2022 - fei-tribe-sept9 [1017461941377175623].html_Files/lottie.min-99657.js:13 | When every drawn layer has one of the sixteen blend modes, what is painted is the scene without any state |
| Canvas.PictureInheritsIff | discord-export/Code4rena - ARCHIVE-Q3-2022 - fei-tribe-sept9 [1017461941377175623].html_Files/lottie.min-99657.js:13 | A picture depends on what was drawn before if and only if its blend mode is missing or unknown |
| Canvas.Renderer.RenderStyles | discord-export/Code4rena - ARCHIVE-Q3-2022 - fei-tribe-sept9 [1017461941377175623].html_Files/lottie.min-99657.js:13 | Per-style saves of a shape are undone; the visible styles are painted, placed and faded |
| Canvas.Renderer.RenderLetters | discord-export/Code4rena - ARCHIVE-Q3-2022 - fei-tribe-sept9 [1017461941377175623].html_Files/lottie.min-99657.js:13 | Per-letter saves of a text are undone |
| Canvas.Renderer.RenderMasked | discord-export/Code4rena - ARCHIVE-Q3-2022 - fei-tribe-sept9 [1017461941377175623].html_Files/lottie.min-99657.js:13 | A mask's clip surrounds everything of its layer and is gone afterwards |
| Canvas.Renderer.Save | discord-export/Code4rena - ARCHIVE-Q3-2022 - fei-tribe-sept9 [1017461941377175623].html_Files/lottie.min-99657.js:13 | `save` pushes transform and opacity on an unbounded stack, whatever the array sizes |
| Canvas.Renderer.Restore | discord-export/Code4rena - ARCHIVE-Q3-2022 - fei-tribe-sept9 [1017461941377175623].html_Files/lottie.min-99657.js:13 | `restore` pops them and brings browser and renderer back in step |
| Canvas.Renderer.Duplicate | discord-export/Code4rena - ARCHIVE-Q3-2022 - fei-tribe-sept9 [1017461941377175623].html_Files/lottie.min-99657.js:13 | `duplicate` doubles both arrays and keeps the stacks |
| Canvas.SceneInsideClips | discord-export/Code4rena - ARCHIVE-Q3-2022 - fei-tribe-sept9 [1017461941377175623].html_Files/lottie.min-99657.js:13 | Every paint of a layer lies inside the surrounding clips and the layer's own mask |
| Canvas.SceneLands | discord-export/Code4rena - ARCHIVE-Q3-2022 - fei-tribe-sept9 [1017461941377175623].html_Files/lottie.min-99657.js:13 | Every paint of a tree of layers puts a point where its own matrix and then those of the enclosing layers, from the inside out, put it; its opacity is the product of theirs, negative ones counting as zero; its clips are theirs, in order; and layers, styles and letters are painted in the right order, with exactly the invisible ones left out |
| Canvas.Renderer.ApplyTransform | discord-export/Code4rena - ARCHIVE-Q3-2022 - fei-tribe-sept9 [1017461941377175623].html_Files/lottie.min-99657.js:13 | `ctxTransform` moves a point by the new matrix and then by the old one |
| Scheduler.AnimationManager.Run | discord-export/Code4rena - ARCHIVE-Q3-2022 - fei-tribe-sept9 [1017461941377175623].html_Files/lottie.min-99657.js:13 | Over every run of calls and frames: at most one callback is requested, one exactly when the manager is not stopped, and one whenever something runs unfrozen; the running count equals the unpaused registered items |
| Scheduler.AnimationManager.AnswerFrame | discord-export/Code4rena - ARCHIVE-Q3-2022 - fei-tribe-sept9 [1017461941377175623].html_Files/lottie.min-99657.js:13 | The first callback requests the next; every other requests one exactly when something runs and the manager is not frozen |
| Scheduler.AnimationManager.AdvanceAll | discord-export/Code4rena - ARCHIVE-Q3-2022 - fei-tribe-sept9 [1017461941377175623].html_Files/lottie.min-99657.js:13 | The frame loop keeps the counters true while animations are loaded, paused or destroyed during it; when nothing is called meanwhile, it advances every registered animation once, in order |
| Scheduler.AnimationManager.Do | discord-export/Code4rena - ARCHIVE-Q3-2022 - fei-tribe-sept9 [1017461941377175623].html_Files/lottie.min-99657.js:13 | Every call has its whole effect and no other: on the list, on who is paused, on freezing, and a frame is requested exactly when none was, something runs and the manager is not frozen |
| Scheduler.AnimationManager.Unregister | discord-export/Code4rena - ARCHIVE-Q3-2022 - fei-tribe-sept9 [1017461941377175623].html_Files/lottie.min-99657.js:13 | The splice-while-iterating loop removes exactly the destroyed item's entries, keeps the order, and adjusts the count |
| Scheduler.AnimationManager.DestroyItem | discord-export/Code4rena - ARCHIVE-Q3-2022 - fei-tribe-sept9 [1017461941377175623].html_Files/lottie.min-99657.js:13 | Destroying an animation unregisters it once |
| Scheduler.AnimationManager.PlayItem | discord-export/Code4rena - ARCHIVE-Q3-2022 - fei-tribe-sept9 [1017461941377175623].html_Files/lottie.min-99657.js:13 | The count grows by one exactly when a registered animation starts |
| Scheduler.AnimationManager.PauseItem | discord-export/Code4rena - ARCHIVE-Q3-2022 - fei-tribe-sept9 [1017461941377175623].html_Files/lottie.min-99657.js:13 | The count falls by one exactly when a registered running animation pauses |
| Scheduler.AnimationManager.DestroyAll | discord-export/Code4rena - ARCHIVE-Q3-2022 - fei-tribe-sept9 [1017461941377175623].html_Files/lottie.min-99657.js:13 | Destroying from last to first leaves nothing registered and nothing running |
| ShapePools.AnyClient | discord-export/Code4rena - ARCHIVE-Q3-2022 - fei-tribe-sept9 [1017461941377175623].html_Files/lottie.min-99657.js:13 | Over every sequence of client calls (new, clone, set, release, each path released once) the pools stay valid, so that nothing is aliased |
| ShapePools.Pools.NothingAliased | discord-export/Code4rena - ARCHIVE-Q3-2022 - fei-tribe-sept9 [1017461941377175623].html_Files/lottie.min-99657.js:13 | In a valid state no point is held at two places, held and free, or free twice, no path is free twice, and capacities cover the free elements |
| ShapePools.Pools.Clone | discord-export/Code4rena - ARCHIVE-Q3-2022 - fei-tribe-sept9 [1017461941377175623].html_Files/lottie.min-99657.js:13 | `shapePool.clone` gives an equal path that shares no point with its source and changes no live path |
| ShapePools.Pools.ReleaseShape | discord-export/Code4rena - ARCHIVE-Q3-2022 - fei-tribe-sept9 [1017461941377175623].html_Files/lottie.min-99657.js:13 | Releasing a live complete path frees it and all its points, in order, and changes no other path |
| ShapePools.Pools.ReleaseShapes | discord-export/Code4rena - ARCHIVE-Q3-2022 - fei-tribe-sept9 [1017461941377175623].html_Files/lottie.min-99657.js:13 | Releasing a collection of distinct live paths frees exactly them |
| ShapePools.Pools.SetXYAt | discord-export/Code4rena - ARCHIVE-Q3-2022 - fei-tribe-sept9 [1017461941377175623].html_Files/lottie.min-99657.js:13 | Writes one coordinate pair at one position; nothing else any path shows changes; a point in place is kept only on request |
| ShapePools.Pools.SetTripleAt | discord-export/Code4rena - ARCHIVE-Q3-2022 - fei-tribe-sept9 [1017461941377175623].html_Files/lottie.min-99657.js:13 | Writes the three points of one vertex and nothing else |
| ShapePools.Pools.SetPathData | discord-export/Code4rena - ARCHIVE-Q3-2022 - fei-tribe-sept9 [1017461941377175623].html_Files/lottie.min-99657.js:13 | Gives every vertex three points of its own |
| ShapePools.Pools.NewShape | discord-export/Code4rena - ARCHIVE-Q3-2022 - fei-tribe-sept9 [1017461941377175623].html_Files/lottie.min-99657.js:13 | `newElement` hands out an empty path that was not live |
| ShapePools.Pool.Release | discord-export/Code4rena - ARCHIVE-Q3-2022 - fei-tribe-sept9 [1017461941377175623].html_Files/lottie.min-99657.js:13 | A released element is the next to be handed out; the array doubles exactly when full |
| ShapePools.Pool.Take | discord-export/Code4rena - ARCHIVE-Q3-2022 - fei-tribe-sept9 [1017461941377175623].html_Files/lottie.min-99657.js:13 | The element released last is handed out, if there is one |
| ShapePools.TwiceReleased | discord-export/Code4rena - ARCHIVE-Q3-2022 - fei-tribe-sept9 [1017461941377175623].html_Files/lottie.min-99657.js:13 | An element released twice is handed out twice: the single-release rule is needed |
| ShapePools.ShapeCollection.AddShape | discord-export/Code4rena - ARCHIVE-Q3-2022 - fei-tribe-sept9 [1017461941377175623].html_Files/lottie.min-99657.js:13 | Appends a path, growing the array when full |
| Arc4.Generator.constructor | discord-export/Code4rena - ARCHIVE-Q3-2022 - fei-tribe-sept9 [1017461941377175623].html_Files/lottie.min-99657.js:13 | Key scheduling in place gives the specified permutation, for every key including the empty one |
| Arc4.Generator.Generate | discord-export/Code4rena - ARCHIVE-Q3-2022 - fei-tribe-sept9 [1017461941377175623].html_Files/lottie.min-99657.js:13 | `g(c)` is the next c bytes of the keystream as one number, below 256^c, and the state stays a permutation |
| Arc4.Generator.Random | discord-export/Code4rena - ARCHIVE-Q3-2022 - fei-tribe-sept9 [1017461941377175623].html_Files/lottie.min-99657.js:13 | A result lies strictly between 0 and 1 and is the bytes drawn, cut to exactly 53 significant bits, over a power of two: a double holds it exactly; there is a result as soon as a byte other than zero comes two places before the limit |
| Arc4.NonzeroByteIsEnough | discord-export/Code4rena - ARCHIVE-Q3-2022 - fei-tribe-sept9 [1017461941377175623].html_Files/lottie.min-99657.js:13 | Two bytes behind the first non-zero one end the refining loop |
| Arc4.Halve | discord-export/Code4rena - ARCHIVE-Q3-2022 - fei-tribe-sept9 [1017461941377175623].html_Files/lottie.min-99657.js:13 | The second loop halves at most eight times, without remainder for the divided value, and ends below 2^53 |
| Arc4.CutIsQuotient | discord-export/Code4rena - ARCHIVE-Q3-2022 - fei-tribe-sept9 [1017461941377175623].html_Files/lottie.min-99657.js:13 | The cut number is the quotient by the power of two |
| Arc4.Scheduled | discord-export/Code4rena - ARCHIVE-Q3-2022 - fei-tribe-sept9 [1017461941377175623].html_Files/lottie.min-99657.js:13 | After key scheduling the state is a permutation of 0..255 |
| Arc4.Next | discord-export/Code4rena - ARCHIVE-Q3-2022 - fei-tribe-sept9 [1017461941377175623].html_Files/lottie.min-99657.js:13 | A draw keeps the permutation and yields a byte |
| Arc4.DrawByPlace | discord-export/Code4rena - ARCHIVE-Q3-2022 - fei-tribe-sept9 [1017461941377175623].html_Files/lottie.min-99657.js:13 | A draw, place by place: the two indices step on, their entries change places, and the byte stands at the place that is their sum modulo 256 |
| Arc4.Generator.Byte | discord-export/Code4rena - ARCHIVE-Q3-2022 - fei-tribe-sept9 [1017461941377175623].html_Files/lottie.min-99657.js:13 | One round of `g`, by the old and the new array, does just that |
| Arc4.RoundByPlace | discord-export/Code4rena - ARCHIVE-Q3-2022 - fei-tribe-sept9 [1017461941377175623].html_Files/lottie.min-99657.js:13 | A round of key scheduling, place by place |
| Arc4.KeyShows | discord-export/Code4rena - ARCHIVE-Q3-2022 - fei-tribe-sept9 [1017461941377175623].html_Files/lottie.min-99657.js:13 | Every key byte can be recovered from the states before and after its round |
| Arc4.DigitsAreBytes | discord-export/Code4rena - ARCHIVE-Q3-2022 - fei-tribe-sept9 [1017461941377175623].html_Files/lottie.min-99657.js:13 | The digits to base 256 of the number drawn are the bytes drawn, the first byte in the highest place |
| Arc4.DrawsAreReversible | discord-export/Code4rena - ARCHIVE-Q3-2022 - fei-tribe-sept9 [1017461941377175623].html_Files/lottie.min-99657.js:13 | The state before a draw can be recovered from the state after it |
| Arc4.DrawsNeverCollide | discord-export/Code4rena - ARCHIVE-Q3-2022 - fei-tribe-sept9 [1017461941377175623].html_Files/lottie.min-99657.js:13 | Two different states stay different after any number of draws |
| Matrices.ShortcutIsProductIff | discord-export/Code4rena - ARCHIVE-Q3-2022 - fei-tribe-sept9 [1017461941377175623].html_Files/lottie.min-99657.js:13 | The translation shortcut equals the 4x4 product if and only if the matrix has zeros in its last column, or the other one is the identity |
| Matrices.TransformedIsProduct | discord-export/Code4rena - ARCHIVE-Q3-2022 - fei-tribe-sept9 [1017461941377175623].html_Files/lottie.min-99657.js:13 | `transform` is the product on every matrix with last column (0,0,0,w) |
| Matrices.TransformedComposes | discord-export/Code4rena - ARCHIVE-Q3-2022 - fei-tribe-sept9 [1017461941377175623].html_Files/lottie.min-99657.js:13 | With w = 1 the product keeps that form and acts on points as composition |
| Matrices.BuildersCompose | discord-export/Code4rena - ARCHIVE-Q3-2022 - fei-tribe-sept9 [1017461941377175623].html_Files/lottie.min-99657.js:13 | Any chain of translations, scalings and rotations moves a point as the calls would one after the other |
| Matrices.BuildersMovePoints | discord-export/Code4rena - ARCHIVE-Q3-2022 - fei-tribe-sept9 [1017461941377175623].html_Files/lottie.min-99657.js:13 | What translations, scalings and rotations about the three axes do to a point, in coordinates |
| Matrices.ProductComposes | discord-export/Code4rena - ARCHIVE-Q3-2022 - fei-tribe-sept9 [1017461941377175623].html_Files/lottie.min-99657.js:13 | The product acts on rows of four numbers as one matrix after the other, whatever the sixteen numbers |
| Matrices.InverseUndoes | discord-export/Code4rena - ARCHIVE-Q3-2022 - fei-tribe-sept9 [1017461941377175623].html_Files/lottie.min-99657.js:13 | The inverse of a plane matrix with non-zero determinant undoes it, in both orders |
| Matrices.Matrix.Transform | discord-export/Code4rena - ARCHIVE-Q3-2022 - fei-tribe-sept9 [1017461941377175623].html_Files/lottie.min-99657.js:13 | `transform` in place, with the identity cache dropped |
| Matrices.Matrix.InversePoint | discord-export/Code4rena - ARCHIVE-Q3-2022 - fei-tribe-sept9 [1017461941377175623].html_Files/lottie.min-99657.js:13 | `inversePoint` gives the point that `applyToPointArray` maps to its argument |
| Matrices.Matrix.ApplyToPoint | discord-export/Code4rena - ARCHIVE-Q3-2022 - fei-tribe-sept9 [1017461941377175623].html_Files/lottie.min-99657.js:13 | Skipping the arithmetic for an identity gives the right point while the cache is coherent, and exactly what happens when it is not |
| Matrices.Matrix.IsIdentity | discord-export/Code4rena - ARCHIVE-Q3-2022 - fei-tribe-sept9 [1017461941377175623].html_Files/lottie.min-99657.js:13 | Answers from the cache or from the numbers |
| Matrices.Matrix.Rotate | discord-export/Code4rena - ARCHIVE-Q3-2022 - fei-tribe-sept9 [1017461941377175623].html_Files/lottie.min-99657.js:13 | `rotate` multiplies by the rotation, given cosine and sine |
| Matrices.CopyAfterIdentityCheckIsIgnored | discord-export/Code4rena - ARCHIVE-Q3-2022 - fei-tribe-sept9 [1017461941377175623].html_Files/lottie.min-99657.js:13 | `cloneFromProps` after an identity check leaves a stale cache: the copied matrix is ignored |
| Colour.RgbRoundTrip | discord-export/Code4rena - ARCHIVE-Q3-2022 - fei-tribe-sept9 [1017461941377175623].html_Files/lottie.min-99657.js:13 | Every colour in the unit cube survives RGB to HSV and back, greys, black and sector boundaries included |
| Colour.HsvRoundTrip | discord-export/Code4rena - ARCHIVE-Q3-2022 - fei-tribe-sept9 [1017461941377175623].html_Files/lottie.min-99657.js:13 | A hue, saturation and value come back if and only if the colour has value and saturation, or hue and saturation are zero |
| Colour.ToRgbIsClosedForm | discord-export/Code4rena - ARCHIVE-Q3-2022 - fei-tribe-sept9 [1017461941377175623].html_Files/lottie.min-99657.js:13 | The six cases of the conversion come to the one formula v - v s max(0, min(1, k, 4 - k)) for each channel, k the hue in sixths shifted by 5, 3 and 1 |
| ArcLength.Search | discord-export/Code4rena - ARCHIVE-Q3-2022 - fei-tribe-sept9 [1017461941377175623].html_Files/lottie.min-99657.js:13 | The search from the guessed index, in either direction, stays in bounds, terminates, and finds what a full scan finds |
| ArcLength.FoundOnCurve | discord-export/Code4rena - ARCHIVE-Q3-2022 - fei-tribe-sept9 [1017461941377175623].html_Files/lottie.min-99657.js:13 | The parameter found is in [0, 1] for every table, even when the stored total disagrees with it |
| ArcLength.SearchInverts | discord-export/Code4rena - ARCHIVE-Q3-2022 - fei-tribe-sept9 [1017461941377175623].html_Files/lottie.min-99657.js:13 | The parameter found inverts the piecewise linear length if and only if the fraction asked for is at least that of one stretch, or the length asked for is zero |
| ArcLength.FirstStretchIsLost | discord-export/Code4rena - ARCHIVE-Q3-2022 - fei-tribe-sept9 [1017461941377175623].html_Files/lottie.min-99657.js:13 | A quarter of the way along three samples is answered with the start |
| ArcLength.SearchIsMonotone | discord-export/Code4rena - ARCHIVE-Q3-2022 - fei-tribe-sept9 [1017461941377175623].html_Files/lottie.min-99657.js:13 | A larger fraction never lands earlier on the curve |
| ArcLength.LengthAtGrows | discord-export/Code4rena - ARCHIVE-Q3-2022 - fei-tribe-sept9 [1017461941377175623].html_Files/lottie.min-99657.js:13 | The piecewise linear length grows with the parameter |
| Playback.AnimationItem.AdvanceTime | discord-export/Code4rena - ARCHIVE-Q3-2022 - fei-tribe-sept9 [1017461941377175623].html_Files/lottie.min-99657.js:13 | `advanceTime` moves fields and triggers events as the transition function says |
| Playback.AnimationItem.AdjustSegment | discord-export/Code4rena - ARCHIVE-Q3-2022 - fei-tribe-sept9 [1017461941377175623].html_Files/lottie.min-99657.js:13 | `adjustSegment` resets the count, turns the direction, and repositions |
| Playback.StepStaysInRange | discord-export/Code4rena - ARCHIVE-Q3-2022 - fei-tribe-sept9 [1017461941377175623].html_Files/lottie.min-99657.js:13 | With no segment queued a step keeps 0 <= currentRawFrame <= totalFrames, in both directions, if and only if the animation has a frame or does not end there |
| Playback.RunsStayInRange | discord-export/Code4rena - ARCHIVE-Q3-2022 - fei-tribe-sept9 [1017461941377175623].html_Files/lottie.min-99657.js:13 | So does every run of ticks, speed and direction changes, plays, pauses and stops |
| Playback.ForwardRun | discord-export/Code4rena - ARCHIVE-Q3-2022 - fei-tribe-sept9 [1017461941377175623].html_Files/lottie.min-99657.js:13 | Playing forward with loop count N: one `loopComplete` per loop, the count never beyond N, and `complete` once, paused at totalFrames-1, only after the last loop |
| Playback.TickKeepsCourseIff | discord-export/Code4rena - ARCHIVE-Q3-2022 - fei-tribe-sept9 [1017461941377175623].html_Files/lottie.min-99657.js:13 | One tick of a forward run keeps loops done and position in step with the distance played if and only if it does not pass two ends at once while a loop is left |
| Playback.DistanceIsKeptIff | discord-export/Code4rena - ARCHIVE-Q3-2022 - fei-tribe-sept9 [1017461941377175623].html_Files/lottie.min-99657.js:13 | For every run: loops done and position add up to the distance played at each moment if and only if no tick does |
| Playback.DistanceIsKept | discord-export/Code4rena - ARCHIVE-Q3-2022 - fei-tribe-sept9 [1017461941377175623].html_Files/lottie.min-99657.js:13 | So they do at the end of such a run |
| Playback.CompletesInTime | discord-export/Code4rena - ARCHIVE-Q3-2022 - fei-tribe-sept9 [1017461941377175623].html_Files/lottie.min-99657.js:13 | When no tick passes two ends at once, the animation completes only when its loops and its last pass are played, and at the latest once more than that has been |
| Playback.MovesByWholePasses | discord-export/Code4rena - ARCHIVE-Q3-2022 - fei-tribe-sept9 [1017461941377175623].html_Files/lottie.min-99657.js:13 | A step that goes on moves the position by time times rate and then by whole passes into the animation, in either direction, with no segment queued |
| Playback.StopsAtAnEnd | discord-export/Code4rena - ARCHIVE-Q3-2022 - fei-tribe-sept9 [1017461941377175623].html_Files/lottie.min-99657.js:13 | A step that stops the animation leaves it on its last frame forward and on its first frame backward, and triggers `complete` |
| Playback.BackwardRun | discord-export/Code4rena - ARCHIVE-Q3-2022 - fei-tribe-sept9 [1017461941377175623].html_Files/lottie.min-99657.js:13 | Playing backward plays the counter down; one `loopComplete` per pass but the first ever, and `complete` once, on the first frame |
| Playback.TickKeepsCourseBackIff | discord-export/Code4rena - ARCHIVE-Q3-2022 - fei-tribe-sept9 [1017461941377175623].html_Files/lottie.min-99657.js:13 | One tick of a backward run keeps passes and position in step with the distance played if and only if it does not pass two starts at once while a loop is left |
| Playback.DistanceIsKeptBackIff | discord-export/Code4rena - ARCHIVE-Q3-2022 - fei-tribe-sept9 [1017461941377175623].html_Files/lottie.min-99657.js:13 | For every backward run: passes made and position add up to the distance played at each moment if and only if no tick does |
| Playback.DistanceIsTime | discord-export/Code4rena - ARCHIVE-Q3-2022 - fei-tribe-sept9 [1017461941377175623].html_Files/lottie.min-99657.js:13 | The distance played is the time played at the rate of the run |
| Playback.NegativeLoopNeverEnds | discord-export/Code4rena - ARCHIVE-Q3-2022 - fei-tribe-sept9 [1017461941377175623].html_Files/lottie.min-99657.js:13 | A negative loop count is never reached: the animation loops for ever |
| Playback.SwitchLandsInside | discord-export/Code4rena - ARCHIVE-Q3-2022 - fei-tribe-sept9 [1017461941377175623].html_Files/lottie.min-99657.js:13 | Switching to a segment turns the playback towards it at the same pace, lands as far behind its first frame as the carried offset says, and inside it if and only if the offset fits |
| Playback.SegmentEnteredOutside | discord-export/Code4rena - ARCHIVE-Q3-2022 - fei-tribe-sept9 [1017461941377175623].html_Files/lottie.min-99657.js:13 | A loop that ends far into its next pass enters a short segment behind its end |
| Playback.StepCostsLoopIff | discord-export/Code4rena - ARCHIVE-Q3-2022 - fei-tribe-sept9 [1017461941377175623].html_Files/lottie.min-99657.js:13 | A step leaves the loop counter below zero if and only if it runs out backwards with no loop done, no segment waiting and a loop setting |
| Playback.CountStaysIff | discord-export/Code4rena - ARCHIVE-Q3-2022 - fei-tribe-sept9 [1017461941377175623].html_Files/lottie.min-99657.js:13 | Over every run of commands, from any queue of segments: the counter stays at zero or above if and only if no tick does |
| Playback.CompletedLoopsIff | discord-export/Code4rena - ARCHIVE-Q3-2022 - fei-tribe-sept9 [1017461941377175623].html_Files/lottie.min-99657.js:13 | A forward run that completes triggers exactly N `loopComplete` if and only if its counter started at zero |
| Playback.BackwardEndCostsALoop | discord-export/Code4rena - ARCHIVE-Q3-2022 - fei-tribe-sept9 [1017461941377175623].html_Files/lottie.min-99657.js:13 | Both together: after running out backwards the counter is -1 and a forward run loops N+1 times |
| Playback.EndlessLoopNeverEnds | discord-export/Code4rena - ARCHIVE-Q3-2022 - fei-tribe-sept9 [1017461941377175623].html_Files/lottie.min-99657.js:13 | With loop `true` no `complete` is ever triggered |
| TextClusters.BuildFinalText | discord-export/Code4rena - ARCHIVE-Q3-2022 - fei-tribe-sept9 [1017461941377175623].html_Files/lottie.min-99657.js:13 | The scan over UTF-16 units groups them as the token specification says |
| TextClusters.ClustersSpellTheText | discord-export/Code4rena - ARCHIVE-Q3-2022 - fei-tribe-sept9 [1017461941377175623].html_Files/lottie.min-99657.js:13 | The clusters spell the text without its stray beginning: all of it if and only if the text does not start with something that joins |
| TextClusters.StrayJoinerIsLost | discord-export/Code4rena - ARCHIVE-Q3-2022 - fei-tribe-sept9 [1017461941377175623].html_Files/lottie.min-99657.js:13 | A text that is only a joiner is lost |
| TextClusters.ClustersKeepPairsTogether | discord-export/Code4rena - ARCHIVE-Q3-2022 - fei-tribe-sept9 [1017461941377175623].html_Files/lottie.min-99657.js:13 | No cluster is empty and none ends inside a surrogate pair |
| TextClusters.PairsJoinIff | discord-export/Code4rena - ARCHIVE-Q3-2022 - fei-tribe-sept9 [1017461941377175623].html_Files/lottie.min-99657.js:13 | For every text: a surrogate pair joins the cluster before it if and only if it is a skin tone or some joiner lies between it and the last pair that joined |
| TextClusters.ClustersBeginIff | discord-export/Code4rena - ARCHIVE-Q3-2022 - fei-tribe-sept9 [1017461941377175623].html_Files/lottie.min-99657.js:13 | Where clusters begin, unit by unit: everywhere but inside a pair or a selector with its joiner, and at what attaches: marks, joiners, selectors with a joiner, glued pairs |
| TextClusters.CombiningMarksIff | discord-export/Code4rena - ARCHIVE-Q3-2022 - fei-tribe-sept9 [1017461941377175623].html_Files/lottie.min-99657.js:13 | The units that attach are the combining marks of Devanagari, but for two stress signs |
| TextClusters.SkinTonesIff | discord-export/Code4rena - ARCHIVE-Q3-2022 - fei-tribe-sept9 [1017461941377175623].html_Files/lottie.min-99657.js:13 | The pairs that always join are the modifiers U+1F3FB to U+1F3FF |
| TextClusters.NoneFarGluedIff | discord-export/Code4rena - ARCHIVE-Q3-2022 - fei-tribe-sept9 [1017461941377175623].html_Files/lottie.min-99657.js:13 | No pair is glued by a joiner that does not stand right before it if and only if every joiner is followed at once by a pair or by none that it could reach |
| TextClusters.PendingJoinerReachesTooFar | discord-export/Code4rena - ARCHIVE-Q3-2022 - fei-tribe-sept9 [1017461941377175623].html_Files/lottie.min-99657.js:13 | After a letter, a joiner and a letter, an emoji is glued to the second letter |
| MinterBurn.HandoverRuns | proposals/description/tip_121c.ts:9-84 | The grants and revokes of sections 1 and 2a run exactly for a governor, and what they leave |
| MinterBurn.BurnRuns | proposals/description/tip_121c.ts:86-137 | The five calls of section 2b, made by a governor, run if and only if the caller is the timelock |
| MinterBurn.ProposalRuns | proposals/description/tip_121c.ts:9-137 | All role commands are authorised when they run if and only if the caller is the timelock and a governor; then the minter role is burned and the minters are as stated |
| MinterBurn.GrantBeforeSelfAdmin | proposals/description/tip_121c.ts:97-117 | Making the temporary role its own admin before granting it makes the proposal revert |
| MinterBurn.BurnLasts | proposals/description/tip_121c.ts:128-137 | In every later run that re-creates neither role the temporary role stays empty and self-administered, no minter is added, and one leaves only by renouncing |
| MinterBurn.BurnIsFinalIff | proposals/description/tip_121c.ts:128-137 | The stated finality holds for every later run of outside calls if and only if no governor is left but Core itself, since any other can change the admin back with `createRole` |
| MinterBurn.NoOtherGovernorEver | contracts/core/Permissions.sol:17-113 | With Core as the only governor no outside call re-creates a role, makes a governor or adds a minter |
| MinterBurn.Core.Handle | contracts/core/Permissions.sol:27-113 | Each external call changes roles exactly when the caller is allowed to make it |
| MinterBurn.WhoCanAddIff | contracts/core/Permissions.sol:27-113 | Some call makes an address a member of a role if and only if the caller administers the role |
| MinterBurn.WhoCanRemoveIff | contracts/core/Permissions.sol:62-113 | Some call removes a member if and only if the caller administers the role, is that member, or is a guardian and Core administers the role, which is not the governors' |
| MinterBurn.WhoCanReassignIff | contracts/core/Permissions.sol:37-43 | Some call gives a role another admin if and only if the caller is a governor |
| MinterBurn.NamedCallsAreGovernors | contracts/core/Permissions.sol:45-101 | The named grants and revokes do what the general ones do, for five roles and governors only |
| MinterBurn.CallsChangeOneThing | contracts/core/Permissions.sol:27-113 | No call touches more than one membership or one admin |
| MinterBurn.Core.Insert | scripts/shutdown/data/prod/RariMerkleRedeemer_flattened.sol:451-456 | Granting adds a member to one role |
| MinterBurn.Core.Erase | scripts/shutdown/data/prod/RariMerkleRedeemer_flattened.sol:465-470 | Revoking removes a member from one role |

## Left out

- highlight.js: the concrete grammars, regular-expression semantics, language names and aliases,
  class-name handling, `useBR` and tab replacement, the DOM access of highlightBlock. What a keyword
  counts for the relevance is reported with the word.
- highlight.js: termination of the main loop for every grammar; runs are over finite scripts.
- HighlightLosses.ConservingGrammarKeepsText: asks its condition of every mode of the grammar, used or
  not; the exact condition is the one of `TextIsKeptIff`.
- HighlightRoots.RunsAreWellIff: requires that no language is nested in itself through roots alone;
  such a grammar recurses without end in the source. Which lexemes the expressions allow is left to
  the oracle: a stack counts as reached when some answers of theirs lead to it.
- lottie canvas: the mode without `clearCanvas`, in which the blend cache survives a frame; gradients,
  dashes and path building; float32 storage of saved opacities.
- lottie scheduler: frame times, the per-item calls that only forward (resize, volume, goToAndStop), and
  listeners added by the page that change the listeners during dispatch.
- lottie pools: paths cloned from plain animation data, the pool of collections itself, the
  bezier-length pools, `reverse`.
- ShapePools.Pools.Clone: takes a path of the pool, not plain animation data without a stored length.
- ShapePools.Pools.ReleaseShapes: requires what `ReleaseShape` does of every path.
- ShapePools.Pools.ReleaseShape: requires every vertex below the length to have its points; releasing a
  path with a hole would put null into the point pool.
- Arc4.Generator.Random: stops after a given number of extra bytes, because no bound on a run of zero
  bytes is known; a byte other than zero two places before the end is always enough.
- Arc4: mixing of the seed string into a key, the entropy pool, `int32` and `quick`.
- lottie matrices: skew and shear (they pass too few arguments), setting all numbers at once, CSS text.
- lottie colour: the helpers that shift one component.
- lottie playback: audio, rendering of the frame, markers and `goToAnd...`, the cut at `timeCompleted`.
- Playback.AnimationItem.AdvanceTime: requires a positive number of frames; with none the remainders are
  not numbers in the source.
- ArcLength.SearchInverts: takes the stored total to be the last stored length; float32 rounding of
  the table is not modelled (`Search` itself does not need it).
- lottie: SVG and HTML renderers, expressions, effects, fonts, loading.
- TIP-121c: movements of DAI and FEI, the oracle swap and the safe addresses.
- Other proposals, deployment scripts, Merkle tree scripts and the remaining contracts.
