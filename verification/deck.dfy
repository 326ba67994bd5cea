/** How the presentation tool fills a template: each requested slide is added
    with the template layout it names, and two placeholder numbers of that
    layout receive texts. A failing placeholder or slide is logged and
    skipped; the rest of the deck is still built
    (backend/mcp-servers/docgeneration.py, `generate_ppt`). */
module Deck {
  import opened Common
  import opened DocNames

  /** A placeholder on a slide created from a template layout: its
      `placeholder_format.idx`, and whether assigning its `text` succeeds. */
  datatype Placeholder = Placeholder(idx: int, acceptsText: bool)

  /** A layout of the template, given by the placeholders that a slide
      created from it receives. */
  datatype Layout = Layout(placeholders: seq<Placeholder>)

  /** A slide that was added: the layout it was requested with, and for each
      of its placeholders the text written into it (None: left as is). */
  datatype RenderedSlide = RenderedSlide(layout: int, texts: seq<Option<string>>)

  /** A logged and swallowed failure, by slide number and placeholder position. */
  datatype Warning = PlaceholderFailed(slide: nat, position: nat) | SlideFailed(slide: nat)

  /** The deck that is saved, and the failures that were only logged. */
  datatype Rendering = Rendering(slides: seq<RenderedSlide>, warnings: seq<Warning>)

  /** Python list indexing `layouts[i]` succeeds: negative indices count
      from the end. */
  predicate ValidIndex(i: int, n: nat) {
    -(n as int) <= i < n
  }

  function PyIndex(i: int, n: nat): (k: nat)
    requires ValidIndex(i, n)
    ensures k < n
    ensures i >= 0 ==> k == i
  {
    if i >= 0 then i else n + i
  }

  /** What happens to one placeholder. */
  datatype Assignment = Untouched | Write(text: string) | Fail

  /** The fixed mapping: placeholder idx 0 receives the second text (guarded
      only by "there is a text", so a single text raises an index error that
      is swallowed), and idx 10 receives the first text when there are two
      or more. Other placeholders are not touched. */
  function AssignPlaceholder(ph: Placeholder, texts: seq<string>): (a: Assignment)
    ensures ph.idx != 0 && ph.idx != 10 ==> a == Untouched
    ensures texts == [] ==> a == Untouched
    ensures ph.idx == 0 && |texts| == 1 ==> a == Fail
    ensures ph.idx == 0 && |texts| > 1 ==> a == (if ph.acceptsText then Write(texts[1]) else Fail)
    ensures ph.idx == 10 && |texts| > 1 ==> a == (if ph.acceptsText then Write(texts[0]) else Fail)
    ensures ph.idx == 10 && |texts| <= 1 ==> a == Untouched
  {
    if ph.idx == 0 && |texts| > 0 then
      (if |texts| > 1 && ph.acceptsText then Write(texts[1]) else Fail)
    else if ph.idx == 10 && |texts| > 1 then
      (if ph.acceptsText then Write(texts[0]) else Fail)
    else Untouched
  }

  function TextOf(a: Assignment): Option<string> {
    match a
    case Write(t) => Some(t)
    case _ => None
  }

  /** The failures among `assignments`, the first of which sits at position
      `j` of slide `slide`. */
  function FailuresFrom(assignments: seq<Assignment>, slide: nat, j: nat): (r: seq<Warning>)
    ensures |r| <= |assignments|
  {
    if assignments == [] then []
    else (if assignments[0] == Fail then [PlaceholderFailed(slide, j)] else []) + FailuresFrom(assignments[1..], slide, j + 1)
  }

  /** A warning is logged for a position exactly when its assignment failed. */
  lemma {:induction false} FailuresFromExact(assignments: seq<Assignment>, slide: nat, j: nat, k: nat)
    requires k < |assignments|
    ensures PlaceholderFailed(slide, j + k) in FailuresFrom(assignments, slide, j) <==> assignments[k] == Fail
  {
    if k == 0 {
      FailuresFromAfter(assignments[1..], slide, j + 1, j);
    } else {
      FailuresFromExact(assignments[1..], slide, j + 1, k - 1);
      assert (j + 1) + (k - 1) == j + k;
      assert assignments[1..][k - 1] == assignments[k];
    }
  }

  lemma {:induction false} FailuresFromAfter(assignments: seq<Assignment>, slide: nat, j: nat, m: nat)
    requires m < j
    ensures PlaceholderFailed(slide, m) !in FailuresFrom(assignments, slide, j)
  {
    if assignments != [] {
      FailuresFromAfter(assignments[1..], slide, j + 1, m);
    }
  }

  function Assignments(phs: seq<Placeholder>, texts: seq<string>): (r: seq<Assignment>)
    ensures |r| == |phs|
    ensures forall k :: 0 <= k < |phs| ==> r[k] == AssignPlaceholder(phs[k], texts)
  {
    seq(|phs|, k requires 0 <= k < |phs| => AssignPlaceholder(phs[k], texts))
  }

  /** The texts written by a plan, position by position. */
  function WrittenTexts(plan: seq<Assignment>): (r: seq<Option<string>>)
    ensures |r| == |plan|
    ensures forall k :: 0 <= k < |plan| ==> r[k] == TextOf(plan[k])
  {
    seq(|plan|, k requires 0 <= k < |plan| => TextOf(plan[k]))
  }

  /** One requested slide, numbered `n`: an unusable layout index skips the
      slide with a warning; otherwise the slide is added and filled. */
  function RenderSlide(layouts: seq<Layout>, s: Slide, n: nat): (r: Rendering)
    ensures !ValidIndex(s.layout, |layouts|) ==> r == Rendering([], [SlideFailed(n)])
    ensures ValidIndex(s.layout, |layouts|) ==>
              |r.slides| == 1 && r.slides[0].layout == s.layout
              && |r.slides[0].texts| == |layouts[PyIndex(s.layout, |layouts|)].placeholders|
  {
    if !ValidIndex(s.layout, |layouts|) then Rendering([], [SlideFailed(n)])
    else
      var plan := Assignments(layouts[PyIndex(s.layout, |layouts|)].placeholders, s.placeholders);
      Rendering([RenderedSlide(s.layout, WrittenTexts(plan))], FailuresFrom(plan, n, 0))
  }

  /** The deck built from `slides`, the first of which is numbered `first`:
      each slide is rendered on its own and the results are put one after
      another. */
  function RenderDeck(layouts: seq<Layout>, slides: seq<Slide>, first: nat): Rendering {
    Rendering(FlatMap(slides, first, SlidesOf(layouts)), FlatMap(slides, first, WarningsOf(layouts)))
  }

  function SlidesOf(layouts: seq<Layout>): (Slide, nat) -> seq<RenderedSlide> {
    (s: Slide, n: nat) => RenderSlide(layouts, s, n).slides
  }

  function WarningsOf(layouts: seq<Layout>): (Slide, nat) -> seq<Warning> {
    (s: Slide, n: nat) => RenderSlide(layouts, s, n).warnings
  }

  /** Slides are rendered independently: the deck of a concatenation is the
      concatenation of the decks, so a failing slide never stops the ones
      after it. */
  lemma RenderDeckConcat(layouts: seq<Layout>, a: seq<Slide>, b: seq<Slide>, first: nat)
    ensures RenderDeck(layouts, a + b, first).slides
            == RenderDeck(layouts, a, first).slides + RenderDeck(layouts, b, first + |a|).slides
    ensures RenderDeck(layouts, a + b, first).warnings
            == RenderDeck(layouts, a, first).warnings + RenderDeck(layouts, b, first + |a|).warnings
  {
    FlatMapConcat(a, b, first, SlidesOf(layouts));
    FlatMapConcat(a, b, first, WarningsOf(layouts));
  }

  /** The deck of one slide is that slide's rendering. */
  lemma RenderDeckSingle(layouts: seq<Layout>, s: Slide, n: nat)
    ensures RenderDeck(layouts, [s], n) == RenderSlide(layouts, s, n)
  {
    assert [s][1..] == [];
    var r := RenderSlide(layouts, s, n);
    assert FlatMap([s], n, SlidesOf(layouts)) == SlidesOf(layouts)(s, n) == r.slides;
    assert FlatMap([s], n, WarningsOf(layouts)) == WarningsOf(layouts)(s, n) == r.warnings;
  }

  /** A slide with an unusable layout in the middle of a deck costs only
      itself: the slides before and after it are rendered as if it were not
      there, and its failure is the one warning it adds. */
  lemma BadSlideIsSkipped(layouts: seq<Layout>, a: seq<Slide>, bad: Slide, b: seq<Slide>, first: nat)
    requires !ValidIndex(bad.layout, |layouts|)
    ensures RenderDeck(layouts, a + [bad] + b, first).slides
            == RenderDeck(layouts, a, first).slides + RenderDeck(layouts, b, first + |a| + 1).slides
    ensures SlideFailed(first + |a|) in RenderDeck(layouts, a + [bad] + b, first).warnings
  {
    RenderDeckConcat(layouts, a + [bad], b, first);
    RenderDeckConcat(layouts, a, [bad], first);
    RenderDeckSingle(layouts, bad, first + |a|);
  }

  /** A two-text slide on a layout whose placeholders are idx 10 and idx 0
      (both taking text): the first text goes to idx 10 and the second to
      idx 0, although the inline comments call idx 0 the heading. */
  lemma TwoTextMapping(ph10: Placeholder, ph0: Placeholder, first: string, second: string, n: nat)
    requires ph10 == Placeholder(10, true) && ph0 == Placeholder(0, true)
    ensures RenderSlide([Layout([ph10, ph0])], Slide(0, [first, second]), n)
            == Rendering([RenderedSlide(0, [Some(first), Some(second)])], [])
  {
    var plan := Assignments([ph10, ph0], [first, second]);
    assert plan == [Write(first), Write(second)];
    assert FailuresFrom(plan, n, 0) == [];
    assert WrittenTexts(plan) == [Some(first), Some(second)];
  }

  /** A slide with a single text leaves every idx-0 placeholder empty and
      logs a failure for it: the guard admits the slide but the second text
      does not exist. */
  lemma SingleTextSlideWarns(layouts: seq<Layout>, s: Slide, n: nat, k: nat)
    requires ValidIndex(s.layout, |layouts|) && |s.placeholders| == 1
    requires k < |layouts[PyIndex(s.layout, |layouts|)].placeholders|
    requires layouts[PyIndex(s.layout, |layouts|)].placeholders[k].idx == 0
    ensures RenderSlide(layouts, s, n).slides[0].texts[k] == None
    ensures PlaceholderFailed(n, k) in RenderSlide(layouts, s, n).warnings
  {
    var phs := layouts[PyIndex(s.layout, |layouts|)].placeholders;
    var plan := Assignments(phs, s.placeholders);
    assert plan[k] == Fail;
    FailuresFromExact(plan, n, 0, k);
  }
}
