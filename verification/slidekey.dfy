/** A fingerprint text for a slide list that keeps its whole structure: the
    layout of every slide and the boundaries between slides and between
    placeholders. Every content character is written after a '.', so the
    markers '#', '|' and ';' cannot be confused with content, and a decoder
    reads the structure back. This is the intended replacement for the
    space-joined text the presentation tool hashes (see DocGeneration). */
module SlideKey {
  import opened Common
  import opened Text
  import opened DocNames

  /** Every character preceded by '.'. */
  function Esc(s: string): (r: string)
    ensures |r| == 2 * |s|
  {
    if s == [] then [] else ['.', s[0]] + Esc(s[1..])
  }

  function PlaceholdersCode(ps: seq<string>): string {
    if ps == [] then [] else Esc(ps[0]) + "|" + PlaceholdersCode(ps[1..])
  }

  function SlideCode(s: Slide): string {
    Esc(IntToString(s.layout)) + "#" + PlaceholdersCode(s.placeholders) + ";"
  }

  /** The structural fingerprint text of a slide list. */
  function StructuralKey(slides: seq<Slide>): string {
    if slides == [] then [] else SlideCode(slides[0]) + StructuralKey(slides[1..])
  }

  /** Reads escaped characters up to the first marker; returns the content
      and what is left, marker included. */
  function ReadField(s: string): (r: (string, string))
    ensures |r.1| <= |s|
    decreases |s|
  {
    if |s| >= 2 && s[0] == '.' then
      var x := ReadField(s[2..]);
      ([s[1]] + x.0, x.1)
    else ([], s)
  }

  lemma {:induction false} ReadFieldEsc(p: string, rest: string)
    requires rest == [] || rest[0] != '.'
    ensures ReadField(Esc(p) + rest) == (p, rest)
  {
    if p == [] {
      assert Esc(p) + rest == rest;
    } else {
      assert Esc(p) == ['.', p[0]] + Esc(p[1..]);
      assert (Esc(p) + rest)[0] == '.' && (Esc(p) + rest)[1] == p[0];
      assert (Esc(p) + rest)[2..] == Esc(p[1..]) + rest;
      ReadFieldEsc(p[1..], rest);
      assert [p[0]] + p[1..] == p;
    }
  }

  /** Reads placeholders up to and including the ';' that ends a slide. */
  function DecodePlaceholders(s: string): (r: Option<(seq<string>, string)>)
    ensures r.Some? ==> |r.value.1| < |s|
    decreases |s|
  {
    if s != [] && s[0] == ';' then Some(([], s[1..]))
    else
      var x := ReadField(s);
      if x.1 != [] && x.1[0] == '|' then
        match DecodePlaceholders(x.1[1..])
        case None => None
        case Some(y) => Some(([x.0] + y.0, y.1))
      else None
  }

  lemma {:induction false} DecodePlaceholdersCode(ps: seq<string>, rest: string)
    ensures DecodePlaceholders(PlaceholdersCode(ps) + ";" + rest) == Some((ps, rest))
  {
    var s := PlaceholdersCode(ps) + ";" + rest;
    if ps == [] {
      assert s == ";" + rest;
    } else {
      var tail := "|" + PlaceholdersCode(ps[1..]) + ";" + rest;
      assert s == Esc(ps[0]) + tail;
      ReadFieldEsc(ps[0], tail);
      assert s[0] != ';' by {
        if ps[0] != [] {
          assert s[0] == '.';
        } else {
          assert s == tail;
        }
      }
      assert tail[1..] == PlaceholdersCode(ps[1..]) + ";" + rest;
      DecodePlaceholdersCode(ps[1..], rest);
      assert [ps[0]] + ps[1..] == ps;
    }
  }

  /** What the key records of one slide: the printed layout and the texts. */
  datatype Shape = Shape(layout: string, placeholders: seq<string>)

  function ShapeOf(s: Slide): Shape {
    Shape(IntToString(s.layout), s.placeholders)
  }

  function Shapes(slides: seq<Slide>): (r: seq<Shape>)
    ensures |r| == |slides|
    ensures forall i :: 0 <= i < |slides| ==> r[i] == ShapeOf(slides[i])
  {
    if slides == [] then [] else [ShapeOf(slides[0])] + Shapes(slides[1..])
  }

  /** Reads a whole key back into the shapes of its slides. */
  function DecodeSlides(s: string): (r: Option<seq<Shape>>)
    decreases |s|
  {
    if s == [] then Some([])
    else
      var x := ReadField(s);
      if x.1 != [] && x.1[0] == '#' then
        match DecodePlaceholders(x.1[1..])
        case None => None
        case Some(y) =>
          match DecodeSlides(y.1)
          case None => None
          case Some(rest) => Some([Shape(x.0, y.0)] + rest)
      else None
  }

  /** Decoding the key gives back every slide's printed layout and texts. */
  lemma {:induction false} DecodeStructuralKey(slides: seq<Slide>)
    ensures DecodeSlides(StructuralKey(slides)) == Some(Shapes(slides))
  {
    if slides != [] {
      var rest := StructuralKey(slides[1..]);
      assert StructuralKey(slides) == SlideCode(slides[0]) + rest;
      DecodeSlideCode(slides[0], rest);
      DecodeStructuralKey(slides[1..]);
      assert Shapes(slides) == [ShapeOf(slides[0])] + Shapes(slides[1..]);
    }
  }

  /** One slide's code is read back into its shape, and decoding goes on
      with what follows it. */
  lemma DecodeSlideCode(s: Slide, rest: string)
    ensures DecodeSlides(SlideCode(s) + rest)
         == match DecodeSlides(rest)
            case None => None
            case Some(tail) => Some([ShapeOf(s)] + tail)
  {
    var layout := IntToString(s.layout);
    var afterLayout := "#" + PlaceholdersCode(s.placeholders) + ";" + rest;
    var key := SlideCode(s) + rest;
    assert key == Esc(layout) + afterLayout;
    ReadFieldEsc(layout, afterLayout);
    assert key != [] by {
      assert |Esc(layout)| >= 2;
    }
    assert afterLayout[1..] == PlaceholdersCode(s.placeholders) + ";" + rest;
    DecodePlaceholdersCode(s.placeholders, rest);
  }

  /** Distinct slide lists have distinct structural keys: unlike the
      space-joined text, the key tells layouts and boundaries apart. */
  lemma StructuralKeyInjective(a: seq<Slide>, b: seq<Slide>)
    requires StructuralKey(a) == StructuralKey(b)
    ensures a == b
  {
    DecodeStructuralKey(a);
    DecodeStructuralKey(b);
    assert Shapes(a) == Shapes(b);
    forall i | 0 <= i < |a|
      ensures a[i] == b[i]
    {
      assert ShapeOf(a[i]) == ShapeOf(b[i]);
      IntToStringInjective(a[i].layout, b[i].layout);
    }
  }
}
