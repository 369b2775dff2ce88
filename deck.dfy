/** The slide deck built by `create_ppt` (app.py:42-118), as an abstract
    sequence of slides: layout, title and content. Styling, backgrounds and
    the rendered image are not modelled; the chart slide records the row at
    which the plot draws its "forecast start" marker. */
module Deck {
  import opened Results
  import opened Text
  import opened Insights
  import opened Forecast

  const DeckTitle: string := "Forecast & Narrative Companion"
  const ChartTitle: string := "Forecast Plot"

  /** The three slide layouts the deck uses: `slide_layouts[0]` (title),
      `slide_layouts[5]` (title only) and `slide_layouts[1]` (title and
      content) of the default template. */
  datatype Layout = TitleLayout | TitleOnlyLayout | TitleAndContentLayout

  datatype Content =
    | NoContent
    | Chart(markerRow: nat)   // the forecast plot, marker at this row
    | Body(paragraphs: seq<string>) // the body placeholder's paragraphs

  datatype Slide = Slide(layout: Layout, title: string, content: Content)

  /** The title of the k-th insight slide: `f"Insight {idx}"`. */
  function InsightTitle(k: nat): (t: string)
    ensures |t| > 8 && t[..8] == "Insight " && IsDigits(t[8..]) && DigitsValue(t[8..]) == k
  {
    NatToStringRoundTrip(k);
    "Insight " + NatToString(k)
  }

  /** Insight slides get pairwise distinct titles. */
  lemma InsightTitleInjective(j: nat, k: nat)
    ensures InsightTitle(j) == InsightTitle(k) ==> j == k
  {
    if InsightTitle(j) == InsightTitle(k) {
      assert NatToString(j) == InsightTitle(j)[8..];
      assert NatToString(k) == InsightTitle(k)[8..];
      NatToStringInjective(j, k);
    }
  }

  /** No insight slide is titled like the title or the chart slide. */
  lemma InsightTitleNotFixed(k: nat)
    ensures InsightTitle(k) != DeckTitle && InsightTitle(k) != ChartTitle
  {
    assert InsightTitle(k)[0] == 'I';
  }

  function TitleSlide(): Slide {
    Slide(TitleLayout, DeckTitle, NoContent)
  }

  function ChartSlide(markerRow: nat): Slide {
    Slide(TitleOnlyLayout, ChartTitle, Chart(markerRow))
  }

  /** `body.clear()` leaves the placeholder with one empty paragraph and
      `body.add_paragraph()` appends the line after it. */
  function InsightSlide(k: nat, line: string): Slide {
    Slide(TitleAndContentLayout, InsightTitle(k), Body(["", line]))
  }

  /** The deck `create_ppt` promises for the given insight lines and
      marker row: the title slide, the chart slide, then slide k + 1 for
      the k-th line (1-based), titled "Insight k" with that line as body. */
  predicate IsDeckFor(deck: seq<Slide>, lines: seq<string>, markerRow: nat) {
    && |deck| == 2 + |lines|
    && deck[0] == TitleSlide()
    && deck[1] == ChartSlide(markerRow)
    && forall i :: 2 <= i < |deck| ==> deck[i] == InsightSlide(i - 1, lines[i - 2])
  }

  /** The promise determines the deck completely. */
  lemma DeckForUnique(d1: seq<Slide>, d2: seq<Slide>, lines: seq<string>, markerRow: nat)
    requires IsDeckFor(d1, lines, markerRow) && IsDeckFor(d2, lines, markerRow)
    ensures d1 == d2
  {
    assert forall i :: 0 <= i < |d1| ==> d1[i] == d2[i];
  }

  /** In such a deck, no two slides share a title, and reading the insight
      slides' bodies in order gives back the lines, each after the empty
      paragraph that `body.clear()` leaves. */
  lemma DeckTitlesDistinct(deck: seq<Slide>, lines: seq<string>, markerRow: nat)
    requires IsDeckFor(deck, lines, markerRow)
    ensures forall i, j :: 0 <= i < j < |deck| ==> deck[i].title != deck[j].title
    ensures forall i :: 2 <= i < |deck| ==> deck[i].content == Body(["", lines[i - 2]])
  {
    forall i, j | 0 <= i < j < |deck| ensures deck[i].title != deck[j].title {
      if i >= 2 {
        InsightTitleInjective(i - 1, j - 1);
      } else if j >= 2 {
        InsightTitleNotFixed(j - 1);
      }
    }
  }

  /** The `Presentation` object that `create_ppt` fills slide by slide. */
  class Presentation {
    var slides: seq<Slide>

    constructor ()
      ensures slides == []
    {
      slides := [];
    }

    /** `prs.slides.add_slide(...)` with its title and content set. */
    method AddSlide(s: Slide)
      modifies this
      ensures slides == old(slides) + [s]
    {
      slides := slides + [s];
    }
  }

  /** `create_ppt(forecast, insights, periods)`: fails with the KeyError of
      the marker lookup when the start label is not a row of the forecast,
      and otherwise returns the deck for the extracted insight lines. */
  method CreatePpt<T>(forecast: seq<T>, insights: string, periods: int) returns (r: Result<seq<Slide>>)
    ensures r.Err? <==> !(periods >= 0 && |forecast| >= periods + 1)
    ensures r.Err? ==> r.error == KeyError(StartIndex(|forecast|, periods))
    ensures r.Ok? ==> IsDeckFor(r.value, ExtractLines(insights), StartIndex(|forecast|, periods))
  {
    var prs := new Presentation();
    prs.AddSlide(TitleSlide());
    var start := ForecastStart(|forecast|, periods);
    if start.Err? {
      return Err(start.error);
    }
    prs.AddSlide(ChartSlide(start.value));

    var lines := ExtractLines(insights);
    var idx := 1;
    while idx <= |lines|
      invariant 1 <= idx <= |lines| + 1
      invariant |prs.slides| == idx + 1
      invariant prs.slides[0] == TitleSlide() && prs.slides[1] == ChartSlide(start.value)
      invariant forall i :: 2 <= i < |prs.slides| ==> prs.slides[i] == InsightSlide(i - 1, lines[i - 2])
    {
      prs.AddSlide(InsightSlide(idx, lines[idx - 1]));
      idx := idx + 1;
    }
    return Ok(prs.slides);
  }

  /** A reply with three bullet lines and a blank line gives five slides. */
  lemma ExampleDeck(deck: seq<Slide>)
    requires IsDeckFor(deck, ExtractLines(ExampleText), 3)
    ensures |deck| == 5 && deck[2] == InsightSlide(1, "- up") && deck[4] == InsightSlide(3, "- stable")
  {
    ExampleReply();
  }
}
