/**
 * The letter-splitting glyph map shared by every staggered-letter heading:
 * a string is split into one span per character, keyed by its index, and a
 * plain space is rendered as a no-break space (U+00A0) so that the
 * inline-block span keeps its width.
 */
module Glyphs {

  const Space: char := ' '
  const Nbsp: char := '\U{00A0}'

  /** One rendered letter: the React key and the character it shows. */
  datatype Span = Span(key: nat, glyph: char)

  /** The character shown for one letter of the input. */
  function Glyph(c: char): (g: char)
    ensures g != Space
    ensures c != Space ==> g == c
    ensures g == Nbsp <==> c == Space || c == Nbsp
  {
    if c == Space then Nbsp else c
  }

  /** Spans for `text`, whose first letter has key `start`. */
  function SpansFrom(text: string, start: nat): (spans: seq<Span>)
    ensures |spans| == |text|
    ensures forall i :: 0 <= i < |text| ==> spans[i] == Span(start + i, Glyph(text[i]))
    decreases |text|
  {
    if text == [] then []
    else [Span(start, Glyph(text[0]))] + SpansFrom(text[1..], start + 1)
  }

  /** `text.split("").map((letter, index) => <span key={index}>…</span>)`. */
  function Render(text: string): (spans: seq<Span>)
    ensures |spans| == |text|
    ensures forall i :: 0 <= i < |spans| ==> spans[i].key == i
    ensures forall i :: 0 <= i < |spans| ==> text[i] != Space ==> spans[i].glyph == text[i]
    ensures forall i :: 0 <= i < |spans| ==> text[i] == Space ==> spans[i].glyph == Nbsp
    ensures forall i :: 0 <= i < |spans| ==> spans[i].glyph != Space
  {
    SpansFrom(text, 0)
  }

  /** The visible text of a rendered heading: its glyphs in span order. */
  function Shown(spans: seq<Span>): (s: string)
    ensures |s| == |spans|
    ensures forall i :: 0 <= i < |spans| ==> s[i] == spans[i].glyph
  {
    if spans == [] then [] else [spans[0].glyph] + Shown(spans[1..])
  }

  /** Reads a shown heading back, taking every no-break space for a space. */
  function Restore(shown: string): (s: string)
    ensures |s| == |shown|
    ensures forall i :: 0 <= i < |shown| ==> s[i] == (if shown[i] == Nbsp then Space else shown[i])
  {
    if shown == [] then [] else [if shown[0] == Nbsp then Space else shown[0]] + Restore(shown[1..])
  }

  /** The glyph map is undone by `Restore` exactly when the text holds no no-break space of its own. */
  lemma RoundTrip(text: string)
    ensures Restore(Shown(Render(text))) == text <==> Nbsp !in text
  {
    var r := Restore(Shown(Render(text)));
    if Nbsp in text {
      var i :| 0 <= i < |text| && text[i] == Nbsp;
      assert r[i] == Space;
    } else {
      assert forall i :: 0 <= i < |text| ==> r[i] == text[i];
    }
  }

  /** A space and a no-break space render identically: the map is not injective. */
  lemma SpaceAndNbspCollide()
    ensures Shown(Render("a b")) == Shown(Render("a" + [Nbsp] + "b"))
    ensures "a b" != "a" + [Nbsp] + "b"
  {
    assert ("a b")[1] == Space;
    assert ("a" + [Nbsp] + "b")[1] == Nbsp;
    assert Shown(Render("a b")) == ['a', Nbsp, 'b'];
    assert Shown(Render("a" + [Nbsp] + "b")) == ['a', Nbsp, 'b'];
  }

  /** Two space-free words around one space show as the words around one no-break space. */
  lemma {:induction false} RenderTwoWords(a: string, b: string)
    requires Space !in a && Space !in b
    ensures Shown(Render(a + [Space] + b)) == a + [Nbsp] + b
    ensures Nbsp !in a && Nbsp !in b ==> Restore(Shown(Render(a + [Space] + b))) == a + [Space] + b
  {
    var t := a + [Space] + b;
    var shown := Shown(Render(t));
    forall i | 0 <= i < |t|
      ensures shown[i] == (a + [Nbsp] + b)[i]
    {
      if i < |a| {
        assert t[i] == a[i];
      } else if i > |a| {
        assert t[i] == b[i - |a| - 1];
      }
    }
    if Nbsp !in a && Nbsp !in b {
      RoundTrip(t);
    }
  }
}
