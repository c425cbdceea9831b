/** The `AnimatedName` heading: the owner's name split into staggered letter spans. */
module AnimatedName {
  import opened Glyphs

  const First: string := "Vishnu"
  const Last: string := "Adari"

  /** The name the component shows, "Vishnu Adari". */
  const Name: string := First + [Space] + Last

  lemma NameWords()
    ensures Name == "Vishnu Adari"
    ensures Space !in First && Space !in Last && Nbsp !in First && Nbsp !in Last
  {
  }

  /** The spans the component renders: one per letter of `Name`, keyed by index, the space shown as a no-break space. */
  function Letters(): (spans: seq<Span>)
    ensures |spans| == |Name| == 12
    ensures forall i :: 0 <= i < |spans| ==> spans[i].key == i
    ensures Shown(spans) == First + [Nbsp] + Last
  {
    NameWords();
    RenderTwoWords(First, Last);
    Render(Name)
  }

  /** Reading the heading back gives the name: its one space is the only no-break space shown. */
  lemma LettersRestore()
    ensures Restore(Shown(Letters())) == Name
  {
    NameWords();
    RenderTwoWords(First, Last);
  }
}
