/** One press of "Run Forecast" (app.py:130-163): the forecast rows are
    given, the on-screen chart looks up the start label, the prompt is built
    from the summary window, the narrative reply is stripped and the deck is
    assembled. The forecasting library, the chat-completion service and the
    table rendering are parameters: `render` stands for `to_string`, `reply`
    for the text the service returns for a prompt. */
module Pipeline {
  import opened Results
  import opened Text
  import opened Insights
  import opened Forecast
  import opened Deck

  /** What one run shows and offers for download. */
  datatype Run = Run(chartMarker: nat, prompt: string, insights: string, deck: seq<Slide>)

  /** `generate_insights(prompt, api_key)` once the service has answered
      with `content`: the answer stripped of surrounding whitespace. */
  function GenerateInsights(content: string): (insights: string)
    ensures insights == [] <==> IsBlank(content)
    ensures insights == [] || (!IsSpace(insights[0]) && !IsSpace(insights[|insights| - 1]))
  {
    StripEmptyIffBlank(content);
    Strip(content)
  }

  method RunForecast<T>(forecast: seq<T>, periods: Horizon, render: seq<T> -> string, reply: string -> string)
    returns (r: Result<Run>)
    ensures r.Err? <==> |forecast| <= periods
    ensures r.Err? ==> r.error == KeyError(StartIndex(|forecast|, periods))
    ensures r.Ok? ==>
      && r.value.chartMarker == StartIndex(|forecast|, periods)
      && SampleOf(r.value.prompt) == Some(render(SummaryWindow(forecast)))
      && r.value.insights == GenerateInsights(reply(r.value.prompt))
      && IsDeckFor(r.value.deck, ExtractLines(r.value.insights), r.value.chartMarker)
  {
    // the on-screen chart's marker lookup (app.py:136-137)
    var start := ForecastStart(|forecast|, periods);
    if start.Err? {
      return Err(start.error);
    }
    var prompt := BuildPrompt(forecast, render);
    var insights := GenerateInsights(reply(prompt));
    var deck := CreatePpt(forecast, insights, periods);
    return Ok(Run(start.value, prompt, insights, deck.value));
  }

  /** Four observed and two predicted rows and a reply with a blank line
      between bullets: the reply is the one text whose "\n"-pieces are
      "- up", "- seasonal", "" and "- stable". */
  method ExampleRun<T>(history: seq<T>, future: seq<T>, render: seq<T> -> string, text: string)
    returns (r: Result<Run>)
    requires |history| == 4 && |future| == 2
    requires Split(text, Newline) == ["- up", "- seasonal", "", "- stable"]
    ensures r.Ok? && r.value.chartMarker == 3 && |r.value.deck| == 5
    ensures r.value.deck[2] == InsightSlide(1, "- up") && r.value.deck[4] == InsightSlide(3, "- stable")
  {
    var reply := (p: string) => text;
    r := RunForecast(history + future, 2, render, reply);
    ExampleRunShape(r.value, text);
  }

  lemma ExampleRunShape(run: Run, text: string)
    requires Split(text, Newline) == ["- up", "- seasonal", "", "- stable"]
    requires run.insights == GenerateInsights(text)
    requires IsDeckFor(run.deck, ExtractLines(run.insights), 3)
    ensures |run.deck| == 5 && run.deck[2] == InsightSlide(1, "- up") && run.deck[4] == InsightSlide(3, "- stable")
  {
    ExamplePieces();
    SplitJoin(text, Newline);
    SplitJoin(ExampleText, Newline);
    assert text == ExampleText;
    ExampleTextStripped();
    ExampleDeck(run.deck);
  }

  /** The example reply is already stripped. */
  lemma ExampleTextStripped()
    ensures GenerateInsights(ExampleText) == ExampleText
  {
    var t := ExampleText;
    assert !IsSpace(t[0]) && !IsSpace(t[|t| - 1]);
    assert StripLeft(t) == t;
    assert StripRight(t) == t;
  }
}
