/** Data shaping around the forecast rows: the forecast-start label used in
    both charts (app.py:79, app.py:136), the summary window and the prompt
    sent for the narrative (app.py:156-157). A forecast is an abstract
    sequence of rows; Prophet's numerics are not modelled. */
module Forecast {
  import opened Results

  /** Bounds and default of the "Forecast months" slider (app.py:127). */
  const MinPeriods: int := 1
  const MaxPeriods: int := 24
  const DefaultPeriods: int := 6

  type Horizon = p: int | MinPeriods <= p <= MaxPeriods witness DefaultPeriods

  /** `start_idx = len(forecast) - periods - 1`: a row of the forecast
      exactly when the forecast has more than `periods` rows. */
  function StartIndex(rows: nat, periods: int): (i: int)
    ensures periods >= 0 ==> (0 <= i < rows <==> rows >= periods + 1)
  {
    rows - periods - 1
  }

  /** The lookup `forecast['ds'][start_idx]`: a label lookup on the
      forecast's RangeIndex, so it succeeds only for a label in
      `0 .. rows - 1` and raises KeyError otherwise (a negative label does
      not count from the end). */
  function ForecastStart(rows: nat, periods: int): (r: Result<nat>)
    ensures r.Ok? <==> periods >= 0 && rows >= periods + 1
    ensures r.Ok? ==> r.value < rows && r.value == StartIndex(rows, periods)
    ensures r.Err? ==> r.error == KeyError(StartIndex(rows, periods))
  {
    var i := StartIndex(rows, periods);
    if 0 <= i < rows then Ok(i) else Err(KeyError(i))
  }

  /** For a horizon from the slider, the lookup fails exactly when the
      forecast has at most `periods` rows, and when it succeeds at least one
      row (the first prediction) follows the start label. */
  lemma HorizonStartInBounds(rows: nat, periods: Horizon)
    ensures ForecastStart(rows, periods).Ok? <==> rows > periods
    ensures rows > periods ==> 0 <= StartIndex(rows, periods) < rows - MinPeriods
  {
  }

  /** When the forecast is the history followed by `periods` predicted rows,
      the start label is the last observed row (one before the first
      prediction), and it exists exactly when there is some history. */
  lemma StartIsLastObserved<T>(history: seq<T>, future: seq<T>, periods: Horizon)
    requires |future| == periods
    ensures var r := ForecastStart(|history| + |future|, periods);
      && (r.Ok? <==> |history| >= 1)
      && (r.Ok? ==> r.value == |history| - 1 && (history + future)[r.value] == history[|history| - 1])
  {
  }

  /** Rows sent to the narrative service: `forecast.tail(8)`. */
  const SummaryRows: nat := 8

  /** `rows.tail(n)`: the last `n` rows, or all of them when there are
      fewer, in their original order. */
  function Tail<T>(rows: seq<T>, n: nat): (w: seq<T>)
    ensures |w| == if |rows| < n then |rows| else n
    ensures w == rows[|rows| - |w|..]
  {
    if |rows| <= n then rows else rows[|rows| - n..]
  }

  /** `forecast.tail(8)`. */
  function SummaryWindow<T>(forecast: seq<T>): (w: seq<T>)
    ensures |w| == if |forecast| < SummaryRows then |forecast| else SummaryRows
    ensures w == forecast[|forecast| - |w|..]
  {
    Tail(forecast, SummaryRows)
  }

  /** Where the window falls against the history/prediction split. With
      eight or more predicted rows the window holds predictions only; with
      fewer it holds every prediction and the most recent observed rows,
      the last observed row (the start label) among them. */
  lemma WindowAgainstBoundary<T>(history: seq<T>, future: seq<T>)
    requires |history| >= 1
    ensures var w := SummaryWindow(history + future);
      && (|future| >= SummaryRows ==> w == future[|future| - SummaryRows..])
      && (|future| < SummaryRows ==>
            var k := if |history| < SummaryRows - |future| then |history| else SummaryRows - |future|;
            k >= 1 && w == history[|history| - k..] + future)
  {
    var f := history + future;
    var w := SummaryWindow(f);
    if |future| >= SummaryRows {
      assert w == f[|f| - SummaryRows..];
      assert f[|f| - SummaryRows..] == future[|future| - SummaryRows..];
    } else {
      var k := if |history| < SummaryRows - |future| then |history| else SummaryRows - |future|;
      assert |w| == k + |future|;
      assert f[|f| - |w|..] == history[|history| - k..] + future;
    }
  }

  /** Rows older than the last eight never reach the window. */
  lemma {:induction false} WindowIgnoresOlderRows<T>(older: seq<T>, recent: seq<T>)
    requires |recent| >= SummaryRows
    ensures SummaryWindow(older + recent) == SummaryWindow(recent)
  {
    var f := older + recent;
    assert f[|f| - SummaryRows..] == recent[|recent| - SummaryRows..];
  }

  /** The fixed text around the sample in the prompt (app.py:157). */
  const PromptHead: string := "Here are dates & values:\n"
  const PromptTail: string := "\nProvide 5 concise bullet-point insights highlighting trends and anomalies."

  /** The prompt for a rendered sample: the sample framed by the fixed
      head and tail. */
  function Prompt(sample: string): (p: string)
    ensures |p| == |PromptHead| + |sample| + |PromptTail|
    ensures p[..|PromptHead|] == PromptHead && p[|p| - |PromptTail|..] == PromptTail
  {
    PromptHead + sample + PromptTail
  }

  /** Recovers the sample from a prompt by removing the fixed head and tail;
      `None` for text that is not framed by them. */
  function SampleOf(prompt: string): (o: Option<string>)
    ensures o.Some? ==> |o.value| == |prompt| - |PromptHead| - |PromptTail|
  {
    var h, t := |PromptHead|, |PromptTail|;
    if |prompt| >= h + t && prompt[..h] == PromptHead && prompt[|prompt| - t..] == PromptTail
    then Some(prompt[h..|prompt| - t])
    else None
  }

  /** Removing the fixed head and tail recovers the sample. */
  lemma SampleOfPrompt(sample: string)
    ensures SampleOf(Prompt(sample)) == Some(sample)
  {
    var p := Prompt(sample);
    assert p[|PromptHead|..|p| - |PromptTail|] == sample;
  }

  /** Conversely, every text from which a sample can be recovered is the
      prompt of that sample. */
  lemma PromptOfSample(prompt: string)
    requires SampleOf(prompt).Some?
    ensures Prompt(SampleOf(prompt).value) == prompt
  {
    var h, t := |PromptHead|, |PromptTail|;
    assert prompt == prompt[..h] + prompt[h..|prompt| - t] + prompt[|prompt| - t..];
  }

  /** Different samples give different prompts. */
  lemma PromptInjective(a: string, b: string)
    ensures Prompt(a) == Prompt(b) ==> a == b
  {
    SampleOfPrompt(a);
    SampleOfPrompt(b);
  }

  /** The prompt built from a forecast (app.py:156-157), given the
      rendering `to_string(index=False)` of the window's `ds` and `yhat`
      columns as an opaque function. */
  function BuildPrompt<T>(forecast: seq<T>, render: seq<T> -> string): (p: string)
    ensures SampleOf(p) == Some(render(SummaryWindow(forecast)))
  {
    SampleOfPrompt(render(SummaryWindow(forecast)));
    Prompt(render(SummaryWindow(forecast)))
  }

  /** The prompt depends only on the last eight rows. */
  lemma PromptIgnoresOlderRows<T>(older: seq<T>, recent: seq<T>, render: seq<T> -> string)
    requires |recent| >= SummaryRows
    ensures BuildPrompt(older + recent, render) == BuildPrompt(recent, render)
  {
    WindowIgnoresOlderRows(older, recent);
  }
}
