/** The two letter-by-letter name headings of the cinematic portfolio page. */
module PortfolioHeadings {
  import opened Glyphs

  /** `PremiumName`'s text, "Vishnu Adari". */
  const PremiumName: string := "Vishnu" + [Space] + "Adari"

  /** The hero heading shown while the name is not hovered, "VISHNU ADARI". */
  const HeroName: string := "VISHNU" + [Space] + "ADARI"

  lemma Names()
    ensures PremiumName == "Vishnu Adari" && HeroName == "VISHNU ADARI"
    ensures Space !in "Vishnu" && Space !in "Adari" && Space !in "VISHNU" && Space !in "ADARI"
  {
  }

  /** `PremiumName`: twelve keyed spans, showing the two words around a no-break space. */
  function PremiumNameLetters(): (spans: seq<Span>)
    ensures |spans| == 12
    ensures forall i :: 0 <= i < |spans| ==> spans[i].key == i
    ensures Shown(spans) == "Vishnu" + [Nbsp] + "Adari"
  {
    Names();
    RenderTwoWords("Vishnu", "Adari");
    Render(PremiumName)
  }

  /** The hero name: twelve keyed spans, showing the two words around a no-break space. */
  function HeroNameLetters(): (spans: seq<Span>)
    ensures |spans| == 12
    ensures forall i :: 0 <= i < |spans| ==> spans[i].key == i
    ensures Shown(spans) == "VISHNU" + [Nbsp] + "ADARI"
  {
    Names();
    RenderTwoWords("VISHNU", "ADARI");
    Render(HeroName)
  }
}
