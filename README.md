# Narrative forecast companion: a Dafny model of its data shaping

The app reads a time series, forecasts it with Prophet, asks a chat-completion service for bullet-point insights about the forecast's last rows, and builds a PowerPoint deck from the chart and those insights. This project models the deterministic logic around those external calls and proves its properties:

- **Insight lines** (`Insights`): the service's reply is stripped (`str.strip`). It is then split on `"\n"`, and the pieces that contain a non-whitespace character are kept, in order and untrimmed. `Text` models Python's `isspace`, `strip`, `split`/`join` on one separator, and `str(n)`.
- **Forecast start** (`Forecast`): `start_idx = len(forecast) - periods - 1` is looked up as a label, `forecast['ds'][start_idx]`. Outside `0 .. len-1` that lookup raises `KeyError`, and the model returns that error.
- **Summary window and prompt** (`Forecast`): `tail(8)` of the forecast is rendered to a sample string, which is opaque here. The sample is framed by a fixed head and tail. Removing the frame recovers the sample.
- **Deck** (`Deck`): a `Presentation` whose slide list `CreatePpt` extends step by step. First a title slide, then a chart slide marked at the start row, then one slide `Insight k` per line.
- **One run** (`Pipeline`): the on-screen chart's lookup, the prompt, the stripped reply and the deck. The forecast rows, the rendering `to_string` and the service's reply are inputs.

Two consequences of the code worth knowing:
- The plot marker sits at `len - periods - 1`, the last observed row, one before the first prediction (`StartIsLastObserved`).
- The window is the last 8 rows, so with 8 or more predicted months no observed row reaches the prompt (`WindowAgainstBoundary`).

## Model

| member | source | states |
|---|---|---|
| Text.StripLeft | app.py:39 | the result is a suffix of the input, everything dropped is whitespace, and the result is empty or starts with non-whitespace |
| Text.StripRight | app.py:39 | the result is a prefix of the input, everything dropped is whitespace, and the result is empty or ends with non-whitespace |
| Text.Strip | app.py:39 | `strip()` returns the contiguous middle of the input; everything before and after it is whitespace; it neither starts nor ends with whitespace |
| Text.StripEmptyIffBlank | app.py:98 | `ln.strip()` is empty exactly when every character of `ln` is whitespace |
| Text.StripIdempotent | app.py:39 | stripping a stripped string changes nothing |
| Text.IsSpace | app.py:98 | a character of CPython's `isspace` set is not a decimal digit, so digits are never stripped |
| Text.Split | app.py:98 | `insights.split("\n")` always yields at least one piece |
| Text.SplitJoin | app.py:98 | `split("\n")` yields pieces free of the separator that join back to the text |
| Text.JoinSplit | app.py:98 | splitting a join of separator-free pieces gives those pieces back (split and join are inverse) |
| Text.SplitCount | app.py:98 | the number of pieces is one more than the number of separators |
| Text.NatToString | app.py:103 | `str(idx)` is a non-empty string of decimal digits with no leading zero |
| Text.NatToStringRoundTrip | app.py:103 | reading the decimal digits back gives the number |
| Text.NatToStringInjective | app.py:103 | different numbers render differently |
| Insights.KeptIffStripNonEmpty | app.py:98 | the comprehension's filter keeps a piece exactly when `ln.strip()` is non-empty |
| Insights.Kept | app.py:98 | the filter `if ln.strip()` keeps only pieces that hold a non-whitespace character, so never the empty piece |
| Insights.KeepNonBlank | app.py:98 | the comprehension never returns more items than it is given |
| Insights.KeptIndices | app.py:98 | the kept positions ascend, each holds a non-blank piece, and every non-blank position is listed |
| Insights.KeepNonBlankAt | app.py:98 | the comprehension's k-th result is the piece at the k-th kept position |
| Insights.ExtractLines | app.py:98 | no extracted line is empty, whitespace-only or contains a line break |
| Insights.ExtractLinesSpec | app.py:98 | the lines are exactly the non-blank `"\n"`-pieces, in original order, each equal to its piece character for character |
| Insights.ExtractLinesEmptyIff | app.py:98 | there are no lines exactly when the whole text is whitespace |
| Insights.NoBlankPiecesKeepsAll | app.py:98 | a text without blank pieces yields every piece as a line |
| Insights.StrippedReplyLines | app.py:98 | after the reply has been stripped, there are no lines iff the reply was blank; otherwise the first line starts and the last line ends with non-whitespace |
| Insights.TrimmedTextLines | app.py:98 | a text that neither starts nor ends with whitespace has lines; the first starts, and the last ends, with non-whitespace |
| Insights.FirstPiece | app.py:98 | the first piece of a text starting with non-whitespace begins with that character |
| Insights.LastPiece | app.py:98 | the last piece of a text ending with non-whitespace ends with that character |
| Insights.ExampleReply | app.py:98 | `"- up\n- seasonal\n\n- stable"` yields `["- up", "- seasonal", "- stable"]` |
| Forecast.StartIndex | app.py:79 | for `periods >= 0`, `len(forecast) - periods - 1` lies in `0 .. len - 1` exactly when `len >= periods + 1` |
| Forecast.ForecastStart | app.py:79-80 | the lookup of `len - periods - 1` succeeds iff `periods >= 0` and `len >= periods + 1`, returns that in-range index, else `KeyError` with that label |
| Forecast.HorizonStartInBounds | app.py:127 | for a slider horizon 1..24 the lookup succeeds iff the forecast has more than `periods` rows, and a predicted row follows the label |
| Forecast.StartIsLastObserved | app.py:136 | on history plus `periods` predictions, the label exists iff there is history, and it is the last observed row |
| Forecast.Tail | app.py:156 | `tail(n)` is the last `min(n, len)` rows in their original order |
| Forecast.SummaryWindow | app.py:156 | `forecast.tail(8)` is the last `min(8, len)` rows in their original order |
| Forecast.WindowAgainstBoundary | app.py:156 | with 8 or more predictions the window holds only predictions; with fewer it holds all predictions preceded by the latest 1..8 observed rows |
| Forecast.WindowIgnoresOlderRows | app.py:156 | rows before the last eight do not affect the window |
| Forecast.Prompt | app.py:157 | the prompt starts with the fixed head, ends with the fixed tail, and is as long as both plus the sample |
| Forecast.SampleOf | app.py:157 | a recovered sample is as long as the prompt minus the fixed head and tail |
| Forecast.SampleOfPrompt | app.py:157 | removing the fixed head and tail from a prompt recovers its sample |
| Forecast.PromptOfSample | app.py:157 | any text from which a sample is recovered is that sample's prompt |
| Forecast.PromptInjective | app.py:157 | different samples give different prompts |
| Forecast.BuildPrompt | app.py:156-157 | the prompt built from a forecast frames exactly the rendering of its summary window |
| Forecast.PromptIgnoresOlderRows | app.py:156-157 | the prompt depends only on the last eight rows |
| Deck.InsightTitle | app.py:103 | `f"Insight {idx}"` is `"Insight "` followed by the decimal digits of `idx` |
| Deck.InsightTitleInjective | app.py:103 | insight slides numbered differently get different titles `Insight {idx}` |
| Deck.InsightTitleNotFixed | app.py:62-71 | no insight title equals the title slide's or the chart slide's title |
| Deck.DeckForUnique | app.py:59-111 | the promised deck shape determines the deck completely |
| Deck.DeckTitlesDistinct | app.py:59-111 | in the deck no two slides share a title, and the insight slides' bodies in order are the lines, each after the empty paragraph `body.clear()` leaves |
| Deck.Presentation.constructor | app.py:43 | a new presentation has no slides |
| Deck.Presentation.AddSlide | app.py:59 | adding a slide appends it and changes nothing else |
| Deck.CreatePpt | app.py:42-118 | fails with `KeyError(len - periods - 1)` exactly when that label is not a row; otherwise returns 2 + n slides: the title slide, the chart slide marked at the start row, then slide k+1 titled `Insight k` whose body is the empty paragraph left by `body.clear()` followed by the k-th extracted line |
| Deck.ExampleDeck | app.py:99-111 | the example reply gives five slides, the last titled `Insight 3` whose body is an empty paragraph followed by `- stable` |
| Pipeline.GenerateInsights | app.py:39 | the stripped reply is empty iff the reply is blank, and otherwise neither starts nor ends with whitespace |
| Pipeline.RunForecast | app.py:130-163 | fails with the chart's `KeyError` iff the forecast has at most `periods` rows; otherwise the chart marks the start row, the prompt frames the rendered window, the insights are the stripped reply to that prompt, and the deck is `CreatePpt`'s for those insights with the same marker |
| Pipeline.ExampleRun | app.py:130-163 | six rows with horizon 2 and the reply whose pieces are `- up`, `- seasonal`, a blank line and `- stable` put the marker at row 3 and give a five-slide deck, `Insight 1` holding `- up` and `Insight 3` holding `- stable` |

## Left out

- Streamlit UI: page setup, sidebar widgets, file upload, markdown output and the download button (app.py:13-16, 120-128, 154, 159-166). These are user-interface plumbing; the slider survives only as the `Horizon` type (1..24, default 6).
- CSV parsing with `pd.read_csv(..., parse_dates=[0])` (app.py:124). This is library input; the forecast is given as an abstract row sequence.
- Prophet fitting and prediction in `fit_prophet` (app.py:19-25). The numerics are floating point and internal to the library; the row count is an input. `StartIsLastObserved` and `WindowAgainstBoundary` take the usual history-plus-`periods` layout as a hypothesis.
- The chat-completion call in `generate_insights` (app.py:29-38). This is a network client; its answer is the `reply` parameter, and only the `.strip()` of app.py:39 is modelled. A reply whose content is missing is not modelled. Nor are the service's own exceptions (authentication, rate limit, transport), so `RunForecast`'s failure case covers only the marker lookup.
- Memoisation by `@st.cache_data` (app.py:18, 27). This is library behaviour, not visible code.
- Chart drawing with matplotlib, PNG buffers, slide sizes, fonts, colours and the `add_background` shape reordering (app.py:44-56, 60, 63-65, 69, 72-78, 81-95, 101, 104-107, 112-113, 115-118). These are foreign calls and binary layout. The chart slide records only the marker row, and each slide is appended with its title and content already set rather than field by field.
- Pandas `to_string(index=False)` formatting of the `ds` and `yhat` columns (app.py:156). This is float and date formatting; it is the opaque `render` parameter.
- Deck.CreatePpt: returns the abstract slide sequence, not the saved `.pptx` bytes, because the file format is the library's.
