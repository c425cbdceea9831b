/**
 * `AnimatedTextCycle`: an interval advances the word index round the list,
 * and an effect keyed on that index copies the rendered width of the word's
 * hidden measuring span into the animated container. Widths are opaque
 * values of type `W`, supplied by the layout.
 */
module TextCycle {
  import opened Maybe
  import ModArith

  /** A word index; `(i + 1) % 0` is `NaN` in JavaScript, which an empty word list produces. */
  datatype Index = At(n: nat) | NotANumber

  /** The container width: `"auto"` until a measurement has been copied in. */
  datatype Width<W> = Auto | Measured(w: W)

  datatype CycleState<W> = CycleState(currentIndex: Index, width: Width<W>)

  /** The state of the first render. */
  function Initial<W>(): CycleState<W>
  {
    CycleState(At(0), Auto)
  }

  /** The interval callback's update, `(prevIndex + 1) % words.length`. */
  function NextIndex(i: Index, count: nat): (r: Index)
    ensures count > 0 && i.At? ==> r.At? && r.n < count && r.n == (i.n + 1) % count
    ensures count == 1 && i.At? ==> r == At(0)
    ensures count == 0 || i.NotANumber? ==> r.NotANumber?
  {
    match i
    case At(n) => if count == 0 then NotANumber else At((n + 1) % count)
    case NotANumber => NotANumber
  }

  /**
   * The width effect: `children` is the measuring container's children's
   * widths (`None` while it is not attached). The width changes only when a
   * child exists at the current index, and then to that child's width.
   */
  function Measure<W>(s: CycleState<W>, children: Option<seq<W>>): (r: CycleState<W>)
    ensures r.currentIndex == s.currentIndex
    ensures r.width != s.width ==> children.Some? && s.currentIndex.At? && s.currentIndex.n < |children.value|
    ensures children.Some? && s.currentIndex.At? && s.currentIndex.n < |children.value|
            ==> r.width == Measured(children.value[s.currentIndex.n])
  {
    match children
    case None => s
    case Some(elements) =>
      match s.currentIndex
      case At(n) => if |elements| > n then s.(width := Measured(elements[n])) else s
      case NotANumber => s
  }

  /** Mounting runs the width effect once for index 0: the first word's width if it has been measured, else `"auto"`. */
  function Mount<W>(children: Option<seq<W>>): (r: CycleState<W>)
    ensures r.currentIndex == At(0)
    ensures r.width == if children.Some? && |children.value| > 0 then Measured(children.value[0]) else Auto
  {
    Measure(Initial(), children)
  }

  /** One interval tick: advance the index; the width effect reruns only if the index actually changed. */
  function Tick<W>(words: seq<string>, children: Option<seq<W>>, s: CycleState<W>): (r: CycleState<W>)
    ensures r.currentIndex == NextIndex(s.currentIndex, |words|)
    ensures r.width != s.width ==>
      && r.currentIndex != s.currentIndex && children.Some? && r.currentIndex.At?
      && r.currentIndex.n < |children.value|
      && r.width == Measured(children.value[r.currentIndex.n])
  {
    var i := NextIndex(s.currentIndex, |words|);
    if i == s.currentIndex then s else Measure(s.(currentIndex := i), children)
  }

  /** The state after mounting and `k` ticks under an unchanging layout. */
  function Run<W>(words: seq<string>, children: Option<seq<W>>, k: nat): CycleState<W>
  {
    if k == 0 then Mount(children) else Tick(words, children, Run(words, children, k - 1))
  }

  /** The word on screen: `words[currentIndex]`, `undefined` past the end or at `NaN`. */
  function CurrentWord<W>(words: seq<string>, s: CycleState<W>): (w: Option<string>)
    ensures w.Some? <==> s.currentIndex.At? && s.currentIndex.n < |words|
  {
    match s.currentIndex
    case At(n) => if n < |words| then Some(words[n]) else None
    case NotANumber => None
  }

  /** After `k` ticks over a non-empty list the index is `k mod |words|`, so it is always a valid word. */
  lemma {:induction false} IndexAfter<W>(words: seq<string>, children: Option<seq<W>>, k: nat)
    requires |words| > 0
    ensures Run(words, children, k).currentIndex == At(k % |words|)
    ensures CurrentWord(words, Run(words, children, k)) == Some(words[k % |words|])
    decreases k
  {
    if k > 0 {
      IndexAfter(words, children, k - 1);
      ModArith.ModSucc(k - 1, |words|);
    }
  }

  /** While no measurement is ever available the container stays at `"auto"`. */
  lemma {:induction false} AutoWithoutMeasurement<W>(words: seq<string>, k: nat)
    ensures Run<W>(words, None, k).width == Auto
    decreases k
  {
    if k > 0 {
      AutoWithoutMeasurement<W>(words, k - 1);
    }
  }

  /** With a one-word list the index never moves and the width measured at mount is kept. */
  lemma {:induction false} SingleWordStill<W>(words: seq<string>, children: Option<seq<W>>, k: nat)
    requires |words| == 1
    ensures Run(words, children, k) == Mount(children)
    ensures Run(words, children, k).currentIndex == At(0)
    decreases k
  {
    if k > 0 {
      SingleWordStill(words, children, k - 1);
    }
  }

  /** With an empty list the first tick makes the index `NaN`, no word is shown and the width never changes again. */
  lemma {:induction false} EmptyListIsNaN<W>(children: Option<seq<W>>, k: nat)
    requires k > 0
    ensures Run([], children, k) == Mount(children).(currentIndex := NotANumber)
    ensures CurrentWord([], Run([], children, k)).None?
    decreases k
  {
    if k > 1 {
      EmptyListIsNaN(children, k - 1);
    }
  }

  /** When every word has been measured, the width always belongs to the word on screen. */
  lemma {:induction false} WidthTracksWord<W>(words: seq<string>, widths: seq<W>, k: nat)
    requires |words| > 0 && |widths| == |words|
    ensures Run(words, Some(widths), k).width == Measured(widths[k % |words|])
    decreases k
  {
    IndexAfter(words, Some(widths), k);
    if k > 0 {
      WidthTracksWord(words, widths, k - 1);
      IndexAfter(words, Some(widths), k - 1);
    }
  }

  /** Three words "A", "BB", "CCC": one tick shows "BB" at its own width, three ticks come back to "A". */
  lemma ThreeWordExample(w0: int, w1: int, w2: int)
    ensures Run(["A", "BB", "CCC"], Some([w0, w1, w2]), 0).width == Measured(w0)
    ensures Run(["A", "BB", "CCC"], Some([w0, w1, w2]), 1) == CycleState(At(1), Measured(w1))
    ensures Run(["A", "BB", "CCC"], Some([w0, w1, w2]), 3) == CycleState(At(0), Measured(w0))
  {
    WidthTracksWord(["A", "BB", "CCC"], [w0, w1, w2], 1);
    WidthTracksWord(["A", "BB", "CCC"], [w0, w1, w2], 3);
    IndexAfter(["A", "BB", "CCC"], Some([w0, w1, w2]), 1);
    IndexAfter(["A", "BB", "CCC"], Some([w0, w1, w2]), 3);
  }
}
