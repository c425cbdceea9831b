# Portfolio text sequencers, modelled in Dafny

This project models the few pieces of real, timer-driven logic in a video editor's
portfolio page. Almost all of that page is styling and animation settings. The
logic modelled here is:

- **Typewriter** (`typewriter.dfy`). A state machine over the component's four
  state hooks: `displayText`, `currentIndex`, `isDeleting` and `textArrayIndex`.
  Each firing of its timer callback is one `Step`. It types the current item one
  letter at a time. In looping mode it then holds the full text, deletes it letter
  by letter, and moves on to the next item, wrapping round the list. The nested
  hold timer (`setTimeout(() => setIsDeleting(true), delay)`) is the extra flag
  `holdPending`. Its firing is also a `Step`, and it turns the hold into deletion.
- **AnimatedTextCycle** (`text_cycle.dfy`). An interval advances the word index
  `(i + 1) % words.length`. A width effect keyed on the index copies the measured
  width of the current word into the container. The width starts as `"auto"`, and
  widths are opaque values supplied by the layout.
- **ScrollAnimation's `generateVariants`** (`scroll_animation.dfy`): the axis and
  signed offset a block slides in from.
- **PremiumTimeline** (`timeline.dfy`): the playhead interval and the
  "RENDERING..." toggle. The playhead is held in half-percent units, so
  `(p + 0.5) % 100` becomes `(p + 1) % 200`. A lemma shows that this encoding
  agrees with the real-valued update.
- **`cn`** (`class_names.dfy`): the navigation bar's local class-name joiner,
  `inputs.filter(Boolean).join(' ')`.
- **PortfolioNavBar** (`nav_bar.dfy`): the mount gate, the `isMobile` breakpoint
  (768 px), the active-tab selection over the three tabs, and each tab's class list.
- **The letter glyph map** (`glyphs.dfy`, `animated_name.dfy`,
  `portfolio_headings.dfy`). Every staggered heading splits its text into one span
  per character, keyed by index, and shows a space as U+00A0 (no-break space).

`maybe.dfy` holds the `Option` type. `mod_arith.dfy` holds the remainder facts
used by the wrap-around counters.

Timers are not modelled. Each callback is one explicit step, and a run is a
sequence of steps.

Two behaviours of the code are easy to miss:

- With `loop` false, the typewriter types only the FIRST item and then stays on
  it forever. It never deletes that item and never reaches the later items
  (`Typewriter.NoLoopFirstItemOnly`).
- An empty item is not skipped. When the current item is empty (or the list is
  empty), the effect schedules no timer, so the sequencer stalls for good
  (`Typewriter.EmptyItemStalls`).

The word cycler re-reads the measuring span's width every time the index
changes. Its effect is keyed on the index, so with a one-word list the width
effect never runs again after mount.

## Model

| member | source | states |
|---|---|---|
| Typewriter.TextArray | src/components/CinematicPortfolio.tsx:109 | A single string becomes the one-element array, and an array is used as it is. |
| Typewriter.CurrentText | src/components/CinematicPortfolio.tsx:109-110 | A single string acts as a one-element array. An index past the end of the array reads as the empty string. |
| Typewriter.Step | src/components/CinematicPortfolio.tsx:112-135 | One timer firing keeps the state valid: the shown text stays a prefix of the current item, and the item index stays in range. |
| Typewriter.Initial | src/components/CinematicPortfolio.tsx:104-107 | The initial hooks (`""`, 0, not deleting, item 0) form a valid state. |
| Typewriter.RunValid | src/components/CinematicPortfolio.tsx:112-135 | After any number of firings from a valid state, the state is still valid. The shown text is always a prefix of the current item. |
| Typewriter.TypeStep | src/components/CinematicPortfolio.tsx:117-120 | While typing, a firing appends exactly `currentText[currentIndex]` and increments the index. The shown text stays `currentText[..currentIndex]`. |
| Typewriter.TypeRest | src/components/CinematicPortfolio.tsx:117-120 | Typing the rest of an item takes exactly one firing per missing letter and ends with the whole item shown. |
| Typewriter.TypedWithoutLoopIsFinal | src/components/CinematicPortfolio.tsx:118-123 | Without `loop`, a fully typed item is a fixed point. No number of firings changes the state, and deletion never starts. |
| Typewriter.TypedWithLoopHolds | src/components/CinematicPortfolio.tsx:121-122 | With `loop`, a fully typed item only schedules the hold. The hold's firing then switches to deleting, with the full text still shown. |
| Typewriter.DeleteStep | src/components/CinematicPortfolio.tsx:124-126 | While deleting a non-empty text, a firing removes exactly the last letter. The item index does not change, and the text stays a prefix of the item. |
| Typewriter.DeleteRest | src/components/CinematicPortfolio.tsx:124-126 | Deleting takes exactly one firing per shown letter. |
| Typewriter.AdvanceStep | src/components/CinematicPortfolio.tsx:127-130 | Deleting an empty text stops deleting and resets the letter index to 0. It sets the item index to `(i + 1) % length`, which is in range. |
| Typewriter.EmptyItemStalls | src/components/CinematicPortfolio.tsx:109-113 | With an empty or missing current item and no pending hold, no firing ever changes the state. |
| Typewriter.TypePhase | src/components/CinematicPortfolio.tsx:117-120 | From the start of item i, one firing per letter reaches the fully typed item. |
| Typewriter.HoldPhase | src/components/CinematicPortfolio.tsx:121-122 | In looping mode, two firings take a fully typed item to deleting, with the whole item still shown. |
| Typewriter.DeletePhase | src/components/CinematicPortfolio.tsx:124-130 | From deleting a fully shown item, one firing per letter and one more reach the start of the next item (wrapping). |
| Typewriter.ItemCycle | src/components/CinematicPortfolio.tsx:112-135 | In looping mode, a non-empty item of length n takes 2n+3 firings from its start to the start of the next item (wrapping). |
| Typewriter.LoopReachesItem | src/components/CinematicPortfolio.tsx:112-135 | In looping mode with non-empty items, item j starts after the firings of the items before it. |
| Typewriter.LastItemWraps | src/components/CinematicPortfolio.tsx:127-130 | In looping mode, cycling the last non-empty item wraps the item index to 0 and returns to the initial state. |
| Typewriter.LoopPeriodic | src/components/CinematicPortfolio.tsx:112-135 | In looping mode with non-empty items, the state sequence is periodic. After the sum of 2n+3 over the items, it is back at the initial state. |
| Typewriter.SingleStringLoops | src/components/CinematicPortfolio.tsx:109-130 | A single looping string returns to the initial state after 2n+3 firings. |
| Typewriter.NoLoopFirstItemOnly | src/components/CinematicPortfolio.tsx:117-123 | Without `loop`, the item index stays 0 and nothing is ever deleted. Only a prefix of the first item is ever shown. |
| Typewriter.TwoLetterExample | src/components/CinematicPortfolio.tsx:117-123 | `["ab"]` without loop shows "a" after one firing and "ab" forever after two. |
| Typewriter.HeroPeriod | src/components/CinematicPortfolio.tsx:860-868 | The hero section's three looping sentences come round again every 267 firings, and the shown text is always a prefix of the current sentence. |
| TextCycle.NextIndex | src/components/CinematicPortfolio.tsx:181 | The tick gives `(i + 1) % length`. That is in range for a non-empty list and stays 0 for one word. An empty list gives NaN. |
| TextCycle.Measure | src/components/CinematicPortfolio.tsx:169-177 | The width changes only when the measuring container has a child at the current index, and then it becomes that child's width. |
| TextCycle.Mount | src/components/CinematicPortfolio.tsx:165-177 | After mount the index is 0. The width is the first word's measured width if there is one, and `"auto"` otherwise. |
| TextCycle.Tick | src/components/CinematicPortfolio.tsx:169-185 | A tick advances the index. The width changes only if the index changed and a measurement exists for the new index. |
| TextCycle.CurrentWord | src/components/CinematicPortfolio.tsx:253 | A word is shown exactly when the index is a number inside the list. |
| TextCycle.IndexAfter | src/components/CinematicPortfolio.tsx:165-181 | After mount and k ticks over a non-empty list, the index is k mod length, and that word is shown. |
| TextCycle.AutoWithoutMeasurement | src/components/CinematicPortfolio.tsx:166-175 | Without a measuring container, the width stays `"auto"` forever. |
| TextCycle.SingleWordStill | src/components/CinematicPortfolio.tsx:165-185 | With one word, ticks never change the state after mount. |
| TextCycle.EmptyListIsNaN | src/components/CinematicPortfolio.tsx:181 | With no words, the first tick turns the index into NaN. No word is shown, and nothing changes again. |
| TextCycle.WidthTracksWord | src/components/CinematicPortfolio.tsx:169-181 | When every word has a measurement, the width is always that of the word on screen. |
| TextCycle.ThreeWordExample | src/components/CinematicPortfolio.tsx:165-181 | For "A", "BB", "CCC": mount takes word 0's width. One tick shows word 1 at word 1's width. Three ticks return to word 0 at its width. |
| ScrollAnimation.GenerateVariants | src/components/CinematicPortfolio.tsx:274-283 | The axis is x exactly for left and right. The start offset is ±60, positive exactly for right and down. The end position is 0. |
| ScrollAnimation.DirectionsRoundTrip | src/components/CinematicPortfolio.tsx:275-276 | The four directions give four distinct variants, and each direction can be read back from its variants. |
| ScrollAnimation.DefaultSlidesDown | src/components/CinematicPortfolio.tsx:271-276 | Without a `direction` prop, a block slides in vertically from +60 px, and "down" is read back. |
| ScrollAnimation.UnknownIsUp | src/components/CinematicPortfolio.tsx:275-276 | Any other direction string behaves exactly like "up". |
| Timeline.Advance | src/components/CinematicPortfolio.tsx:347-349 | The playhead moves one half-percent per tick, stays in [0, 200), and wraps to 0 after 199. |
| Timeline.AdvanceMatchesPercent | src/components/CinematicPortfolio.tsx:348 | The half-unit encoding agrees with `(prev + 0.5) % 100` on every reachable playhead value. |
| Timeline.Apply | src/components/CinematicPortfolio.tsx:346-360 | A playhead tick advances only the playhead. A render tick flips only the rendering flag. |
| Timeline.RunCounts | src/components/CinematicPortfolio.tsx:346-360 | The two intervals never interfere, in any interleaving. The playhead advances by the count of its own ticks mod 200, and the render flag flips once per render tick. |
| Timeline.FromInitial | src/components/CinematicPortfolio.tsx:343-360 | From the first render, the playhead is the count of playhead ticks mod 200. "RENDERING..." shows exactly after an odd number of render ticks. |
| Glyphs.Glyph | src/components/AnimatedName.tsx:65 | The shown character is never a plain space, and every non-space is unchanged. U+00A0 is shown exactly for a space or a U+00A0. |
| Glyphs.Render | src/components/AnimatedName.tsx:53-65 | One span per character, in order, keyed by index. A space shows as U+00A0, every other character unchanged, and no plain space is shown. |
| Glyphs.RoundTrip | src/components/AnimatedName.tsx:65 | Reading the shown glyphs back (U+00A0 to space) recovers the text exactly when the text has no U+00A0 of its own. |
| Glyphs.RenderTwoWords | src/components/AnimatedName.tsx:53-65 | Two space-free words around one space show as the words around one U+00A0, and read back as the original text. |
| Glyphs.SpaceAndNbspCollide | src/components/AnimatedName.tsx:65 | A space and a U+00A0 show identically, so the map is not injective. |
| AnimatedName.Letters | src/components/AnimatedName.tsx:9-65 | "Vishnu Adari" renders as 12 spans keyed by index. They show "Vishnu", U+00A0, "Adari". |
| AnimatedName.LettersRestore | src/components/AnimatedName.tsx:53-65 | The shown name reads back as "Vishnu Adari". |
| PortfolioHeadings.PremiumNameLetters | src/components/CinematicPortfolio.tsx:600-612 | `PremiumName` ("Vishnu Adari") renders as 12 spans keyed by index. They show "Vishnu", U+00A0, "Adari". |
| PortfolioHeadings.HeroNameLetters | src/components/CinematicPortfolio.tsx:808-836 | "VISHNU ADARI" renders as 12 spans keyed by index. They show "VISHNU", U+00A0, "ADARI". |
| ClassNames.Kept | src/components/PortfolioNavBar.tsx:6 | Exactly the truthy inputs survive the filter (non-empty strings and `true`), in order. There is one non-empty word per truthy input, and truthy input i sits at the position given by the number of truthy inputs before it. None survive exactly when no input is truthy. |
| ClassNames.Cn | src/components/PortfolioNavBar.tsx:5-7 | The result is empty exactly when no input is truthy. |
| ClassNames.KeptAppend | src/components/PortfolioNavBar.tsx:6 | Filtering distributes over concatenation, so surviving inputs keep their order. |
| ClassNames.Join | src/components/PortfolioNavBar.tsx:6 | The join of no parts is empty. Otherwise its length is the parts' total length plus one separator between each pair, and it starts with the first part. |
| ClassNames.JoinAppend | src/components/PortfolioNavBar.tsx:6 | Joining two lists puts exactly one space between their joins when both are non-empty. |
| ClassNames.CnAppend | src/components/PortfolioNavBar.tsx:5-7 | `cn` of two argument lists is their two results, separated by a single space when both are non-empty. |
| ClassNames.SplitJoin | src/components/PortfolioNavBar.tsx:6 | Splitting a join of non-empty, space-free words on spaces gives back the words. |
| ClassNames.CnSplit | src/components/PortfolioNavBar.tsx:5-7 | When no kept class contains a space, splitting `cn`'s result on spaces gives exactly the truthy inputs, in order. |
| NavBar.IsMobileWidth | src/components/PortfolioNavBar.tsx:84-86 | The mobile flag is true exactly when the window is narrower than 768 px. |
| NavBar.OnMount | src/components/PortfolioNavBar.tsx:79-91 | Mounting sets `mounted` and computes the mobile flag from the width. The active tab is kept. |
| NavBar.OnResize | src/components/PortfolioNavBar.tsx:84-89 | A resize recomputes only the mobile flag. |
| NavBar.OnClick | src/components/PortfolioNavBar.tsx:134-137 | A click sets the active tab to exactly the clicked tab's name, and nothing else changes. |
| NavBar.Apply | src/components/PortfolioNavBar.tsx:75-91 | No event unmounts the bar. |
| NavBar.MountedStays | src/components/PortfolioNavBar.tsx:75-81 | Once mounted, the bar stays mounted after any sequence of events. |
| NavBar.Render | src/components/PortfolioNavBar.tsx:93-95 | Nothing is rendered exactly while the bar is not mounted. |
| NavBar.TabClass | src/components/PortfolioNavBar.tsx:138-142 | A tab's class list is its base classes and the colour classes, plus " text-white" exactly when the tab is active. |
| NavBar.Tabs | src/components/PortfolioNavBar.tsx:126-128 | One view per tab, in order. Each view is active exactly when its name equals the active tab. |
| NavBar.StaggerLetters | src/components/PortfolioNavBar.tsx:51-57 | The title emits one keyed glyph per character of the text, in order, with a space shown as U+00A0. |
| NavBar.NamesDistinct | src/components/PortfolioNavBar.tsx:68-72 | The three tab names are pairwise distinct. |
| NavBar.ActiveTabs | src/components/PortfolioNavBar.tsx:126-128 | In a tab row, exactly one tab is active when the active tab is a tab name. Otherwise none is. |
| NavBar.ExactlyOneActive | src/components/PortfolioNavBar.tsx:126-137 | Starting from a tab name and clicking only the bar's own tabs, every mounted render highlights exactly one tab in each row. |
| NavBar.HeroHeading | src/components/PortfolioNavBar.tsx:226-244 | "Adari Vishnu" renders as 12 spans showing "Adari", U+00A0, "Vishnu", and reads back as "Adari Vishnu". |

## Left out

- Real timers and their cleanup (`setTimeout`, `setInterval`, `clearTimeout`, `clearInterval`). Each callback is one explicit step. Scheduling, pacing (`speed`, `deleteSpeed`, `delay`, `interval`) and the order in which independent timers fire are not modelled. A run is any sequence of steps.
- The hold timer is never cleared, so an extra re-render during a hold (for example, a parent re-render that rebuilds the `text` array) can schedule a second hold. The model assumes one hold per full item.
- Typewriter's cursor glyph and its blink, which is a framer-motion animation.
- All framer-motion settings: variants, durations, easings, springs, stagger delays, and `whileInView`'s reveal-once behaviour. The reveal logic lives inside the library, and that library is not part of this model.
- Widths are values of an opaque type. `getBoundingClientRect` and the `"${w}px"` formatting are not modelled.
- Floating-point layout values: the mouse-position ratios and the timeline's timecode text. The playhead is kept, re-encoded as an integer.
- DOM and browser I/O: `querySelector`/`scrollIntoView`, the mailto `window.open`, the video error fallback, and resize listener registration. A resize is an event that carries the window width.
- `Math.random` decorations (waveform bars, particles).
- The `cn` imported from `@/lib/utils` and the `Button` component. Their sources are not part of this model. Only the navigation bar's own `cn` is modelled.
- Glyphs.Render: characters are Unicode scalar values. JavaScript's `split("")` splits UTF-16 code units, so a character outside the Basic Multilingual Plane would become two spans there. All the headings are ASCII.
- Typewriter.Step: items are sequences of Unicode scalar values. JavaScript's `.length`, `currentText[currentIndex]` and `slice(0, -1)` count UTF-16 code units, so a character outside the Basic Multilingual Plane (an emoji, say) takes two typing and two deleting firings there, with a lone surrogate shown in between, but only one each here. TypeRest, DeleteRest, ItemCycle and LoopPeriodic count firings the same way. The hero section's sentences are ASCII, where the two counts agree.
- ClassNames.Cn: arguments are strings, booleans and `undefined`/`null`. Numbers and objects, which `cn` would also accept, are not modelled.
- NavBar: the mobile flag is computed but the render never reads it (both tab rows are rendered, and CSS picks one). The model keeps the flag and its breakpoint only.
