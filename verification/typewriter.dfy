/**
 * The `Typewriter` component as a state machine. Each firing of its timer
 * callback is one `Step` over the four state hooks (`displayText`,
 * `currentIndex`, `isDeleting`, `textArrayIndex`); the nested hold timer that
 * later sets `isDeleting` is the extra flag `holdPending`, and its firing is
 * also a `Step`.
 */
module Typewriter {
  import ModArith

  /** The `text` prop: one string or an array of strings. */
  datatype TextProp = One(text: string) | Many(texts: seq<string>)

  /** The props that decide the state sequence; the cursor glyph and the timings only affect rendering and pacing. */
  datatype Config = Config(text: TextProp, loop: bool, speed: int, deleteSpeed: int, delay: int)

  /** The props' defaults: no loop, 80 ms per typed letter, 40 ms per deleted letter, a 2000 ms hold. */
  function Defaults(text: TextProp): Config
  {
    Config(text, false, 80, 40, 2000)
  }

  /** The instance on the portfolio's hero section. */
  const Hero: Config := Config(Many([
    "This portfolio breathes with every interaction.",
    "Each frame responds to your presence.",
    "Welcome to the future of visual storytelling."
  ]), true, 60, 40, 4000)

  datatype State = State(displayText: string, currentIndex: nat, isDeleting: bool, textArrayIndex: nat, holdPending: bool)

  const Init: State := State("", 0, false, 0, false)

  /** A single string is a one-element array. */
  function TextArray(t: TextProp): (a: seq<string>)
    ensures t.One? ==> a == [t.text]
    ensures t.Many? ==> a == t.texts
  {
    match t
    case One(s) => [s]
    case Many(ss) => ss
  }

  /** `textArray[textArrayIndex] || ""`: an index past the end reads as the empty string. */
  function CurrentText(c: Config, s: State): (cur: string)
    ensures s.textArrayIndex < |TextArray(c.text)| ==> cur == TextArray(c.text)[s.textArrayIndex]
    ensures s.textArrayIndex >= |TextArray(c.text)| ==> cur == ""
  {
    var a := TextArray(c.text);
    if s.textArrayIndex < |a| then a[s.textArrayIndex] else ""
  }

  /**
   * The states the component can be in: the index is a valid item (or 0 for
   * an empty array), the shown text is always a prefix of the current item,
   * while typing it is exactly the typed prefix, while deleting the whole
   * item has been typed, and a hold is pending only after a full item in
   * looping mode.
   */
  ghost predicate Valid(c: Config, s: State)
  {
    var cur := CurrentText(c, s);
    && (s.textArrayIndex == 0 || s.textArrayIndex < |TextArray(c.text)|)
    && s.currentIndex <= |cur|
    && s.displayText <= cur
    && (!s.isDeleting ==> s.displayText == cur[..s.currentIndex])
    && (s.isDeleting ==> s.currentIndex == |cur| && !s.holdPending && cur != "")
    && (s.holdPending ==> c.loop && s.currentIndex == |cur| && cur != "")
  }

  /** One timer firing. An empty current item schedules no timer at all, so nothing happens. */
  function Step(c: Config, s: State): (r: State)
    ensures Valid(c, s) ==> Valid(c, r)
  {
    var cur := CurrentText(c, s);
    var a := TextArray(c.text);
    if s.holdPending then s.(isDeleting := true, holdPending := false)
    else if cur == "" then s
    else if !s.isDeleting then
      if s.currentIndex < |cur| then
        s.(displayText := s.displayText + [cur[s.currentIndex]], currentIndex := s.currentIndex + 1)
      else if c.loop then s.(holdPending := true)
      else s
    else if |s.displayText| > 0 then s.(displayText := s.displayText[..|s.displayText| - 1])
    else s.(isDeleting := false, currentIndex := 0, textArrayIndex := (s.textArrayIndex + 1) % |a|)
  }

  /** The state after `n` timer firings. */
  function Run(c: Config, s: State, n: nat): State
    decreases n
  {
    if n == 0 then s else Run(c, Step(c, s), n - 1)
  }

  lemma Initial(c: Config)
    ensures Valid(c, Init)
  {
  }

  /** Every state reachable from the initial one is valid: the shown text is always a prefix of the current item. */
  lemma {:induction false} RunValid(c: Config, s: State, n: nat)
    requires Valid(c, s)
    ensures Valid(c, Run(c, s, n))
    ensures Run(c, s, n).displayText <= CurrentText(c, Run(c, s, n))
    decreases n
  {
    if n > 0 {
      RunValid(c, Step(c, s), n - 1);
    }
  }

  lemma {:induction false} RunAdd(c: Config, s: State, m: nat, n: nat)
    ensures Run(c, s, m + n) == Run(c, Run(c, s, m), n)
    decreases m
  {
    if m > 0 {
      RunAdd(c, Step(c, s), m - 1, n);
    }
  }

  /** Typing: the next letter of the current item is appended and the index advances by one. */
  lemma TypeStep(c: Config, s: State)
    requires Valid(c, s)
    requires !s.isDeleting && !s.holdPending
    requires s.currentIndex < |CurrentText(c, s)|
    ensures Step(c, s).displayText == s.displayText + [CurrentText(c, s)[s.currentIndex]]
    ensures Step(c, s).currentIndex == s.currentIndex + 1
    ensures Step(c, s).displayText == CurrentText(c, s)[..s.currentIndex + 1]
    ensures Step(c, s).textArrayIndex == s.textArrayIndex && !Step(c, s).isDeleting
  {
  }

  /** Without `loop`, a fully typed item stays on screen forever: no firing changes anything. */
  lemma {:induction false} TypedWithoutLoopIsFinal(c: Config, s: State, n: nat)
    requires Valid(c, s) && !c.loop
    requires !s.isDeleting && s.currentIndex == |CurrentText(c, s)|
    ensures Run(c, s, n) == s
    ensures Run(c, s, n).displayText == CurrentText(c, s)
    decreases n
  {
    if n > 0 {
      assert Step(c, s) == s;
      TypedWithoutLoopIsFinal(c, s, n - 1);
    }
  }

  /** With `loop`, a fully typed item is held (one firing schedules the hold, the next ends it) and then deleted. */
  lemma TypedWithLoopHolds(c: Config, s: State)
    requires Valid(c, s) && c.loop
    requires !s.isDeleting && !s.holdPending && s.currentIndex == |CurrentText(c, s)| && CurrentText(c, s) != ""
    ensures Step(c, s) == s.(holdPending := true)
    ensures Run(c, s, 2) == s.(isDeleting := true)
    ensures Run(c, s, 2).displayText == CurrentText(c, s)
  {
  }

  /** Deleting: exactly the last letter goes; the item does not change. */
  lemma DeleteStep(c: Config, s: State)
    requires Valid(c, s)
    requires s.isDeleting && s.displayText != ""
    ensures Step(c, s).displayText == s.displayText[..|s.displayText| - 1]
    ensures Step(c, s).displayText <= CurrentText(c, s)
    ensures Step(c, s).textArrayIndex == s.textArrayIndex && Step(c, s).isDeleting
  {
  }

  /** Deleting an empty text moves on to the next item (wrapping), back in typing mode at index 0. */
  lemma AdvanceStep(c: Config, s: State)
    requires Valid(c, s)
    requires s.isDeleting && s.displayText == ""
    ensures var r := Step(c, s);
      && !r.isDeleting && r.currentIndex == 0 && r.displayText == ""
      && r.textArrayIndex == (s.textArrayIndex + 1) % |TextArray(c.text)|
      && r.textArrayIndex < |TextArray(c.text)|
  {
  }

  /** An empty (or missing) current item schedules no timer: the sequencer stalls for good. */
  lemma {:induction false} EmptyItemStalls(c: Config, s: State, n: nat)
    requires CurrentText(c, s) == "" && !s.holdPending
    ensures Run(c, s, n) == s
    decreases n
  {
    if n > 0 {
      EmptyItemStalls(c, Step(c, s), n - 1);
    }
  }

  /** The state at which item `i` starts to be typed. */
  function ItemStart(i: nat): State
  {
    State("", 0, false, i, false)
  }

  /** Typing the rest of the item takes one firing per remaining letter. */
  lemma {:induction false} TypeRest(c: Config, s: State)
    requires Valid(c, s) && !s.isDeleting && !s.holdPending
    ensures Run(c, s, |CurrentText(c, s)| - s.currentIndex)
         == s.(displayText := CurrentText(c, s), currentIndex := |CurrentText(c, s)|)
    decreases |CurrentText(c, s)| - s.currentIndex
  {
    var cur := CurrentText(c, s);
    if s.currentIndex < |cur| {
      var t := Step(c, s);
      TypeStep(c, s);
      assert t == s.(displayText := cur[..s.currentIndex + 1], currentIndex := s.currentIndex + 1);
      assert CurrentText(c, t) == cur;
      TypeRest(c, t);
      assert Run(c, s, |cur| - s.currentIndex) == Run(c, t, |cur| - t.currentIndex);
    } else {
      assert cur[..s.currentIndex] == cur;
    }
  }

  /** Deleting takes one firing per shown letter. */
  lemma {:induction false} DeleteRest(c: Config, s: State)
    requires Valid(c, s) && s.isDeleting
    ensures Run(c, s, |s.displayText|) == s.(displayText := "")
    decreases |s.displayText|
  {
    if s.displayText != "" {
      DeleteStep(c, s);
      DeleteRest(c, Step(c, s));
    }
  }

  /** Firings spent on a non-empty item of length n when looping: n typed, two for the hold, n deleted, one to advance. */
  function ItemTicks(item: string): nat
  {
    2 * |item| + 3
  }

  /** Item `i` fully typed, before the hold. */
  function Typed(c: Config, i: nat): State
    requires i < |TextArray(c.text)|
  {
    var item := TextArray(c.text)[i];
    State(item, |item|, false, i, false)
  }

  /** Item `i` fully shown, deletion about to start. */
  function DeletingFull(c: Config, i: nat): State
    requires i < |TextArray(c.text)|
  {
    var item := TextArray(c.text)[i];
    State(item, |item|, true, i, false)
  }

  /** Typing phase: one firing per letter takes item `i` from nothing to fully typed. */
  lemma TypePhase(c: Config, i: nat)
    requires i < |TextArray(c.text)|
    ensures Run(c, ItemStart(i), |TextArray(c.text)[i]|) == Typed(c, i)
  {
    assert Valid(c, ItemStart(i));
    TypeRest(c, ItemStart(i));
  }

  /** Hold phase: in looping mode two firings (schedule the hold, end it) switch to deleting. */
  lemma HoldPhase(c: Config, i: nat)
    requires c.loop && i < |TextArray(c.text)| && TextArray(c.text)[i] != ""
    ensures Run(c, Typed(c, i), 2) == DeletingFull(c, i)
  {
    assert TextArray(c.text)[i][..|TextArray(c.text)[i]|] == TextArray(c.text)[i];
    TypedWithLoopHolds(c, Typed(c, i));
  }

  /** Deletion phase: one firing per letter, then one firing to move on to the next item. */
  lemma DeletePhase(c: Config, i: nat)
    requires i < |TextArray(c.text)| && TextArray(c.text)[i] != ""
    ensures Run(c, DeletingFull(c, i), |TextArray(c.text)[i]| + 1) == ItemStart((i + 1) % |TextArray(c.text)|)
  {
    var s2 := DeletingFull(c, i);
    var s3 := s2.(displayText := "");
    assert Valid(c, s2);
    DeleteRest(c, s2);
    AdvanceStep(c, s3);
    RunAdd(c, s2, |TextArray(c.text)[i]|, 1);
  }

  /** In looping mode a non-empty item takes `ItemTicks` firings and hands over to the next item. */
  lemma ItemCycle(c: Config, i: nat)
    requires c.loop && i < |TextArray(c.text)| && TextArray(c.text)[i] != ""
    ensures Run(c, ItemStart(i), ItemTicks(TextArray(c.text)[i])) == ItemStart((i + 1) % |TextArray(c.text)|)
  {
    var n := |TextArray(c.text)[i]|;
    TypePhase(c, i);
    HoldPhase(c, i);
    DeletePhase(c, i);
    RunThen(c, Typed(c, i), DeletingFull(c, i), ItemStart((i + 1) % |TextArray(c.text)|), 2, n + 1);
    RunThen(c, ItemStart(i), Typed(c, i), ItemStart((i + 1) % |TextArray(c.text)|), n, n + 3);
  }

  /** Two runs in sequence are one run of the summed length. */
  lemma RunThen(c: Config, s0: State, s1: State, s2: State, m: nat, n: nat)
    requires Run(c, s0, m) == s1 && Run(c, s1, n) == s2
    ensures Run(c, s0, m + n) == s2
  {
    RunAdd(c, s0, m, n);
  }

  /** Firings for the first `j` items. */
  function Ticks(items: seq<string>, j: nat): nat
    requires j <= |items|
  {
    if j == 0 then 0 else Ticks(items, j - 1) + ItemTicks(items[j - 1])
  }

  /** In looping mode with non-empty items, item `j` starts after the firings spent on the items before it. */
  lemma {:induction false} LoopReachesItem(c: Config, j: nat)
    requires c.loop
    requires forall k :: 0 <= k < |TextArray(c.text)| ==> TextArray(c.text)[k] != ""
    requires j < |TextArray(c.text)|
    ensures Run(c, Init, Ticks(TextArray(c.text), j)) == ItemStart(j)
    decreases j
  {
    var a := TextArray(c.text);
    if j == 0 {
      assert ItemStart(0) == Init;
    } else {
      var before := Ticks(a, j - 1);
      var item := a[j - 1];
      assert Ticks(a, j) == before + ItemTicks(item);
      LoopReachesItem(c, j - 1);
      assert Run(c, Init, before) == ItemStart(j - 1);
      ItemCycle(c, j - 1);
      ModArith.ModBelow(j, |a|);
      assert Run(c, ItemStart(j - 1), ItemTicks(item)) == ItemStart(j);
      RunThen(c, Init, ItemStart(j - 1), ItemStart(j), before, ItemTicks(item));
    }
  }

  /** In looping mode with non-empty items, the state sequence is periodic: after every item has been typed and deleted once, it is back at the start. */
  lemma LoopPeriodic(c: Config)
    requires c.loop && 0 < |TextArray(c.text)|
    requires forall k :: 0 <= k < |TextArray(c.text)| ==> TextArray(c.text)[k] != ""
    ensures Run(c, Init, Ticks(TextArray(c.text), |TextArray(c.text)|)) == Init
  {
    var a := TextArray(c.text);
    var last := |a| - 1;
    LoopReachesItem(c, last);
    LastItemWraps(c);
    RunThen(c, Init, ItemStart(last), Init, Ticks(a, last), ItemTicks(a[last]));
  }

  /** Cycling the last item returns to the initial state. */
  lemma LastItemWraps(c: Config)
    requires c.loop && 0 < |TextArray(c.text)|
    requires TextArray(c.text)[|TextArray(c.text)| - 1] != ""
    ensures Run(c, ItemStart(|TextArray(c.text)| - 1), ItemTicks(TextArray(c.text)[|TextArray(c.text)| - 1])) == Init
  {
    var last := |TextArray(c.text)| - 1;
    ItemCycle(c, last);
    ModArith.ModBelow(last + 1, |TextArray(c.text)|);
  }

  /** Without `loop`, only the first item is ever shown: later items are never reached and nothing is deleted. */
  lemma {:induction false} NoLoopFirstItemOnly(c: Config, s: State, n: nat)
    requires !c.loop && Valid(c, s) && s.textArrayIndex == 0 && !s.isDeleting
    ensures Run(c, s, n).textArrayIndex == 0 && !Run(c, s, n).isDeleting
    ensures Run(c, s, n).displayText <= CurrentText(c, s)
    decreases n
  {
    if n > 0 {
      NoLoopFirstItemOnly(c, Step(c, s), n - 1);
    }
  }

  /** A one-item, non-looping run of "ab": "a", then "ab", then "ab" forever. */
  lemma TwoLetterExample(n: nat)
    requires n >= 2
    ensures Run(Defaults(Many(["ab"])), Init, 1).displayText == "a"
    ensures Run(Defaults(Many(["ab"])), Init, n).displayText == "ab"
  {
    var c := Defaults(Many(["ab"]));
    var s2 := State("ab", 2, false, 0, false);
    assert Run(c, Init, 2) == s2;
    TypedWithoutLoopIsFinal(c, s2, n - 2);
    RunAdd(c, Init, 2, n - 2);
  }

  /** The hero section's three sentences come round again every 267 firings. */
  lemma HeroPeriod()
    ensures Run(Hero, Init, 267) == Init
    ensures forall n: nat :: Run(Hero, Init, n).displayText <= CurrentText(Hero, Run(Hero, Init, n))
  {
    var a := TextArray(Hero.text);
    assert |a[0]| == 47 && |a[1]| == 37 && |a[2]| == 45;
    assert Ticks(a, 3) == 267;
    LoopPeriodic(Hero);
    forall n: nat
      ensures Run(Hero, Init, n).displayText <= CurrentText(Hero, Run(Hero, Init, n))
    {
      RunValid(Hero, Init, n);
    }
  }

  /** A single looping string is typed, held, deleted and typed again from scratch. */
  lemma SingleStringLoops(c: Config)
    requires c.loop && c.text.One? && c.text.text != ""
    ensures Run(c, Init, ItemTicks(c.text.text)) == Init
  {
    ItemCycle(c, 0);
  }
}
