/** How a record written by the scraper fares in the consumer: the scraper's
    `temperature` text decides whether the consumer keeps a number, drops the
    row, or fails the whole snapshot. The transfer of the scraper's JSON lines
    onto the message topic is not part of this repository; `Deliver` stands
    for a record that arrives intact. */
module Handoff {
  import opened Strings
  import opened Analysis
  import opened Scraper

  /** The scraper's dictionary as the consumer decodes it: every field a JSON string. */
  function Deliver(info: WeatherInfo): (r: Record)
    ensures r.Keys == info.Keys
  {
    map k | k in info :: JString(info[k])
  }

  /** A delivered scrape never lacks a field, so no column is missing and no
      cell is NaN; only the library's verdicts on its texts can fail it. */
  lemma DeliveredCells(a: Attempt, key: string)
    requires Scrape(a).Some? && key in FieldNames
    ensures CellOf(Deliver(Scrape(a).value), key) == Text(Scrape(a).value[key])
    ensures HasColumn([Deliver(Scrape(a).value)], key)
  {
    var r := Deliver(Scrape(a).value);
    assert key in [r][0];
  }

  /** What the consumer's extractor makes of the scraper's temperature: with
      no high element, or a high text whose segment before `/` is empty (an
      empty high text among them), the row is dropped and `float` is never
      called; with a non-empty high text that has no `/` the consumer parses
      exactly that text, keeping it when `float` accepts it and failing the
      snapshot when `float` rejects it. */
  lemma DeliveredTemperature(a: Attempt, lib: Lib)
    requires Scrape(a).Some?
    ensures var p := a.response.page;
            var t := Temperature(CellOf(Deliver(Scrape(a).value), "temperature"), lib);
            (p.highs == [] ==> t == Dropped) &&
            (p.highs != [] && Before(p.highs[0], '/') == [] ==> t == Dropped) &&
            (p.highs != [] && p.highs[0] != "" && '/' !in p.highs[0] ==>
               (t == Kept(p.highs[0]) <==> lib.parseFloat(p.highs[0]) == FloatNumber) &&
               (t == Raises <==> lib.parseFloat(p.highs[0]) == NotAFloat))
  {
    var p := a.response.page;
    var high, low := FirstOrEmpty(p.highs), FirstOrEmpty(p.lows);
    var text := TemperatureText(p);
    assert Scrape(a).value["temperature"] == text;
    DeliveredCells(a, "temperature");
    var t := Temperature(Text(text), lib);
    assert text == high + ['/'] + low;
    BeforeAppend(high, '/', low);
    if p.highs == [] {
      assert Before(text, '/') == [];
    } else if high != "" && '/' !in high {
      BeforeJoin(high, '/', low);
      assert Before(text, '/') == high;
    }
  }

  /** A delivered scrape poisons the consumer's buffer exactly when its clock
      reading is not a time `pd.to_datetime` accepts, or when its high text's
      segment before `/` is non-empty and `float` rejects it. */
  lemma DeliveredPoison(a: Attempt, lib: Lib)
    requires Scrape(a).Some?
    ensures var left := Before(FirstOrEmpty(a.response.page.highs), '/');
            Poisoned(Deliver(Scrape(a).value), lib) <==>
              !lib.isTime(a.now) || (left != [] && lib.parseFloat(left) == NotAFloat)
  {
    var p := a.response.page;
    var high := FirstOrEmpty(p.highs);
    ScrapeFields(a);
    DeliveredCells(a, "temperature");
    DeliveredCells(a, "timestamp");
    assert TemperatureText(p) == high + ['/'] + FirstOrEmpty(p.lows);
    BeforeAppend(high, '/', FirstOrEmpty(p.lows));
    TemperatureRaises(CellOf(Deliver(Scrape(a).value), "temperature"), lib);
  }
}
