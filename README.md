# Weather stream consumer and scraper, modelled in Dafny

The repository holds two Python scripts. `tianqi.py` scrapes one page per
city from weather.com.cn each hour. It turns what its CSS selectors match
into a five-field record (`city`, `date`, `weather`, `temperature`,
`timestamp`) and writes each round's records as JSON lines. `xiaofei.py`
consumes such records from a Kafka topic. It appends every decodable message
to a list `weather_data`. Whenever the list length becomes a multiple of 5,
it rebuilds a pandas table from the whole list, turns each temperature text
`"high/low"` into the number before the `/`, drops rows without a number,
and renders one chart with one line per city. Chart files are numbered by
`chart_count`. The loop stops once 60 records are held.

The project models:

- `strings.dfy` (module `Strings`): Python's `s.split(sep)[0]`, used by both
  scripts.
- `analysis.dfy` (module `Analysis`): the pure part of the consumer. It
  covers the table cells a decoded JSON object yields, the temperature lambda
  followed by `dropna`, the snapshot build and when it raises, and the
  per-city grouping of `generate_chart`.
- `driver.dfy` (module `Driver`): the consumer loop. `Next` is one loop
  iteration and `Replay`/`Trace` a run over a finite sequence of polls, all
  as functions. The class `Consumer` holds the script's mutable state
  (`weatherData`, `chartCount`, and the chart files written). Its `Step` and
  `Run` methods are proved to agree with `Next` and `Replay`.
- `scraper.dfy` (module `Scraper`): `scrape_weather` over the lists of
  matched texts, and one round of the collection loop.
- `handoff.dfy` (module `Handoff`): what a scraped record becomes in the
  consumer.

The library behaviour the scripts rely on is passed in as a value of type
`Analysis.Lib` rather than defined:

- what Python's `float` makes of a text (rejects it, NaN, or a number);
- whether `pd.to_datetime` accepts a timestamp text;
- whether plotting and saving a chart succeeds.

The HTTP response, the clock reading and each Kafka poll are inputs.

Behaviour of the code that a reader might not expect, all modelled as
written:

- A left segment that `float` rejects (`"abc/9"`) makes the lambda raise. The
  row is not dropped.
- A record without a `temperature` key gives a NaN cell. NaN is truthy and
  has no `split`, so this also raises.
- These exceptions, and a timestamp text `pd.to_datetime` rejects, are caught
  by the per-message handler. The record was appended before the build, so
  it stays in the buffer, and every later build fails too (`PoisonFreezes`).
- A record without a `timestamp` key gives NaT and is harmless, unless no
  buffered record has the key. Then the column is missing and the build
  raises.
- `chart_count` is incremented before `generate_chart` runs. A render failure
  therefore uses up a number, and no file is written.
- A missing `city` column in the table makes `generate_chart` raise.
- Rows whose city is NaN or `None` match no series, because such cells
  compare unequal to everything.
- Each chart contains one series per distinct city, in order of first
  appearance, and each series keeps buffer order. The active code has no
  sort by timestamp and no wall-clock deadline.
- Rendering gives one chart per snapshot build, not one per city.

## Model

| member | source | states |
|---|---|---|
| Strings.Before | xiaofei.py:73 | `split(sep)[0]`: the result is a prefix of the text with no separator in it, followed in the text by the separator or by its end |
| Strings.BeforeUnique | xiaofei.py:73 | those three properties determine the first field uniquely |
| Strings.BeforeJoin | tianqi.py:28 | splitting `a + "/" + b` gives back `a` when `a` has no `/` |
| Strings.BeforeAppend | tianqi.py:28 | appending `/` and more text does not change the first field |
| Analysis.CellOf | xiaofei.py:70 | a record without the key gives a NaN cell, a JSON `null` a `None` cell, and a JSON string a text cell holding that string |
| Analysis.HasColumn | xiaofei.py:70 | a table can only have a column when the buffer is non-empty |
| Analysis.ColumnMissing | xiaofei.py:70-72 | a column is missing exactly when every record's cell in it is NaN; once some record has the key, every longer buffer has the column |
| Analysis.Temperature | xiaofei.py:72-74 | a kept temperature comes from a text cell, is non-empty, is a prefix of the text and holds no `/`; a `None` cell and the empty text are dropped |
| Analysis.TemperatureKept | xiaofei.py:72-74 | a row keeps a temperature iff its cell is a non-empty text whose segment before the first `/` is non-empty and parses as a number; the kept value comes from that segment |
| Analysis.TemperatureRaises | xiaofei.py:72-73 | the lambda raises iff the key is missing (NaN cell) or the non-empty left segment is rejected by `float` |
| Analysis.TemperatureExamples | xiaofei.py:72-74 | `"18/9"` keeps 18; `"/9"`, `"/"` and `""` are dropped; `"abc/9"` raises |
| Analysis.RowsOf | xiaofei.py:72-74 | a record contributes at most one row, and one exactly when its temperature is kept; the row carries the record's city and timestamp cells |
| Analysis.Rows | xiaofei.py:72-74 | the filtered table has at most one row per record, and every kept temperature is a non-empty text without `/` |
| Analysis.Build | xiaofei.py:70-74 | the build succeeds iff some record has a `timestamp` key and no record has a rejected timestamp text or a raising temperature cell; a successful build holds the filtered rows of the whole buffer |
| Analysis.RowsAppend | xiaofei.py:70-74 | the rows of a longer buffer are the rows of its prefix followed by the new records' rows (buffer order, rebuilt from the whole buffer) |
| Analysis.RowsExact | xiaofei.py:72-74 | a row is in the snapshot iff some buffered record with a kept temperature produces it |
| Analysis.RowsEmpty | xiaofei.py:74-80 | the snapshot is empty iff no buffered record has a kept temperature |
| Analysis.PoisonPersists | xiaofei.py:64 | a buffered record that makes a build raise makes every build over a longer buffer raise |
| Analysis.Cities | xiaofei.py:28 | `unique()` lists exactly the cities present in the rows, each once |
| Analysis.CitiesInOrder | xiaofei.py:28 | the cities are listed in order of first appearance |
| Analysis.CityRows | xiaofei.py:29 | a city's selection is no longer than the table, holds only rows of that city taken from the table, and is empty for a NaN or `None` city |
| Analysis.CityRowsExact | xiaofei.py:29 | a city's selection holds exactly that city's rows; it is empty for a NaN or `None` city |
| Analysis.CityRowsAppend | xiaofei.py:29 | selecting from two tables one after the other gives the two selections one after the other, so a selection keeps table order |
| Analysis.CityRowsOne | xiaofei.py:29 | a one-row table selects its row exactly when the row's city is that text city |
| Analysis.Group | xiaofei.py:28-30 | one series per distinct city, in the order of `unique()`; each series holds only rows of the table with its own city |
| Analysis.GroupCovers | xiaofei.py:28-30 | every row with a text city lies in the series of its city and in no other series |
| Driver.Saves | xiaofei.py:28-48 | a chart file is saved only from a non-empty buffer and a successful render; a buffer in which no record has a `city` key never saves |
| Driver.Next | xiaofei.py:58-86 | an empty or undecodable poll changes nothing; a decoded one appends exactly its record at the end; a snapshot is built iff the poll was decoded and the new length is a multiple of 5 |
| Driver.NextCharts | xiaofei.py:76-80 | `chart_count` rises by one exactly when a build succeeds with rows. The number is taken before rendering. The chart file is added only when rendering succeeds |
| Driver.Refresh | xiaofei.py:66-80 | the snapshot block leaves the buffer as it is and always counts as a build |
| Driver.Draw | xiaofei.py:77-78 | drawing takes chart number `chart_count + 1` and reports that number |
| Driver.NumberedExtend | xiaofei.py:77-78 | a file numbered one past the count keeps the files well numbered, and so does writing no file |
| Driver.NumberedBound | xiaofei.py:77-78 | there are never more chart files than chart numbers used |
| Driver.NextKeepsInv | xiaofei.py:58-80 | one iteration keeps the invariant: at most 60 records, `chart_count <= len/5`, chart files numbered increasingly within `1..chart_count` |
| Driver.Replay | xiaofei.py:57-86 | a run never shortens the buffer and never takes it past 60 records; with no polls nothing changes |
| Driver.Trace | xiaofei.py:57-86 | a run logs at most one event per poll, and none once 60 records are held |
| Driver.ReplayKeepsInv | xiaofei.py:57-86 | a whole run keeps that invariant |
| Driver.ReplayBuffer | xiaofei.py:58-64 | a run's buffer is the old buffer followed by the decoded records in arrival order, cut off at 60 |
| Driver.ReplayGrows | xiaofei.py:77-78 | the chart count and the list of chart files only grow |
| Driver.ReplayBuilds | xiaofei.py:66-70 | a run builds exactly one snapshot per multiple of 5 that the buffer length reaches |
| Driver.ReplayExit | xiaofei.py:55-58 | the run ends holding `min(old + decoded, 60)` records, with at most 12 builds |
| Driver.CleanStep | xiaofei.py:64-78 | one iteration on clean records keeps the buffer clean and `chart_count` at the buffer length divided by 5 |
| Driver.CleanRunCharts | xiaofei.py:66-78 | when every record parses cleanly, `chart_count` is exactly the buffer length divided by 5 |
| Driver.PoisonFreezes | xiaofei.py:64-83 | once a record that makes builds raise is buffered, `chart_count` and the chart files never change again |
| Driver.NoTemperatureNoCharts | xiaofei.py:79-80 | when no record carries a usable temperature, no chart number is used and no file written |
| Driver.Consumer.constructor | xiaofei.py:53-55 | the run starts with an empty list, `chart_count` 0 and no chart files |
| Driver.Consumer.Step | xiaofei.py:59-86 | one loop pass on the mutable state; its new state and event are those of `Next` |
| Driver.Consumer.RefreshCharts | xiaofei.py:69-80 | the snapshot block on the mutable state; its new state and event are those of `Refresh` |
| Driver.Consumer.DrawChart | xiaofei.py:77-78 | numbering and rendering on the mutable state; its new state and event are those of `Draw` |
| Driver.Consumer.Run | xiaofei.py:57-88 | the loop stops at 60 records or when the polls run out; its final state is `Replay`'s and its events are `Trace`'s |
| Scraper.TemperatureText | tianqi.py:26-28 | the temperature text is the high text, a `/` at its end, then the low text: its length is their lengths plus one |
| Scraper.Scrape | tianqi.py:8-43 | returns `None` iff the request fails or the first hidden-title input lacks a `value`; otherwise a record with exactly the five keys |
| Scraper.ScrapeFields | tianqi.py:21-37 | each field is its selection's text or its default (未知城市, 未知日期, 未知天气); the date has no space; the temperature is high `/` low; the timestamp is the clock reading |
| Scraper.TemperatureTextShape | tianqi.py:26-28 | the temperature starts with the high text and ends with the low text, so it always holds a `/`; its text before the first `/` is the high text when that has no `/`; it is exactly `/` when neither element matched |
| Scraper.CollectRound | tianqi.py:72-77 | a round's list holds the successful scrapes in city order, at most one per city, each with the five keys |
| Scraper.Successes | tianqi.py:72-77 | a round keeps at most one record per city, each with the five keys |
| Scraper.SuccessesAppend | tianqi.py:73-77 | the records of two runs of cities are those of the first run followed by those of the second, so records keep city order |
| Scraper.SuccessesExact | tianqi.py:76-77 | a record is in the round's list iff some city's scrape returned it |
| Scraper.SuccessesCount | tianqi.py:72-77 | the list is as long as the number of cities minus the number of failed scrapes |
| Handoff.Deliver | tianqi.py:31-37 | the decoded record has exactly the scraper's keys |
| Handoff.DeliveredCells | tianqi.py:31-37 | a scraped record delivered to the consumer has a text cell for each of the five fields, so no column is missing |
| Handoff.DeliveredTemperature | tianqi.py:26-28 | with no high element, or a high text whose segment before `/` is empty (an empty `p.tem span` included), the consumer drops the row; with a non-empty `/`-free high text the consumer keeps that text when `float` accepts it and fails the snapshot when it rejects it |
| Handoff.DeliveredPoison | tianqi.py:28 | a scraped record poisons the consumer's buffer iff its timestamp is rejected or its non-empty high segment is rejected by `float` |

## Left out

- Kafka: consumer configuration, offsets, group semantics, blocking in
  `next(consumer, None)` (xiaofei.py:12-20, 59). Polls are an input sequence,
  so a run is finite. The script itself need not stop while polls keep
  coming back empty. A poll that raises is not modelled either: the
  exception escapes the per-message handler, reaches the outer `except`
  (xiaofei.py:90-91), and ends the run early with the state it had.
- UTF-8 and JSON decoding (xiaofei.py:62-63) are abstracted to the three
  poll outcomes. A payload that decodes to something other than a JSON
  object, and field values that are JSON numbers, booleans, arrays or
  objects, are not modelled. Only strings and `null` are.
- Floating-point values. A kept temperature is represented by the text it
  was parsed from. `float` and `pd.to_datetime` are abstract. pandas'
  inference of one timestamp format for a whole column is not modelled:
  timestamp texts are judged one at a time.
- Plotting, styling, annotations and the PNG file (xiaofei.py:24-27, 31-50).
  A chart is its number and its series, and saving is an abstract success
  flag.
- Logging throughout. Every `Event` returned by a step except `Stored`
  stands for the log line that pass writes. `Stored` marks an append at a
  length that is not a multiple of 5, which writes no log line.
- Closing the consumer in the `finally` block (xiaofei.py:93-95). It does
  not change the modelled state.
- The string-literal variants after xiaofei.py:95 and tianqi.py:88. They are
  never executed. Their deadline, sort, heatmap and statistics are not live
  behaviour.
- Scraper I/O: the HTTP request is an input `Response`, BeautifulSoup
  selection is replaced by lists of matched texts, and the clock is an input
  text. The JSON-lines file writing (tianqi.py:44-52), the directory creation
  (tianqi.py:66-69), the 21-round schedule with its hourly sleep
  (tianqi.py:71, 82-84) and the console output are left out.
- How the JSON-lines files reach the Kafka topic is not part of this
  repository. `Handoff.Deliver` assumes a record arrives intact.
