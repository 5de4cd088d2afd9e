/** The producer script: `scrape_weather` assembles one five-key record from
    the texts its CSS selectors matched on a city's page, and each round
    collects the records of the cities whose scrape succeeded. */
module Scraper {
  import opened Strings

  datatype Option<T> = None | Some(value: T)

  /** The texts the selectors matched on one page, in document order. A
      hidden-title input without a `value` attribute is `None`. */
  datatype Page = Page(
    crumbLinks: seq<string>,              // div.crumbs.fl a
    hiddenTitles: seq<Option<string>>,    // input#hidden_title, its value attribute
    weatherTexts: seq<string>,            // p.wea
    highs: seq<string>,                   // p.tem span
    lows: seq<string>)                    // p.tem i

  /** The HTTP exchange: it raised, returned an error status, or gave a page. */
  datatype Response = RequestFailed | Received(page: Page)

  /** One call of `scrape_weather`: the response and the clock reading `datetime.now().isoformat()`. */
  datatype Attempt = Attempt(response: Response, now: string)

  /** The record the scraper returns: a dictionary from field names to texts. */
  type WeatherInfo = map<string, string>

  const FieldNames: set<string> := {"city", "date", "weather", "temperature", "timestamp"}
  const UnknownCity: string := "未知城市"
  const UnknownDate: string := "未知日期"
  const UnknownWeather: string := "未知天气"

  /** The first text of a selection, or the empty text when nothing matched. */
  function FirstOrEmpty(texts: seq<string>): string
  {
    if texts == [] then "" else texts[0]
  }

  /** The temperature field: the first high text, `/`, the first low text. */
  function TemperatureText(p: Page): (r: string)
    ensures |r| == |FirstOrEmpty(p.highs)| + 1 + |FirstOrEmpty(p.lows)|
    ensures r[|FirstOrEmpty(p.highs)|] == '/'
  {
    FirstOrEmpty(p.highs) + "/" + FirstOrEmpty(p.lows)
  }

  /** Whether the field assembly raises: the first hidden-title input has no `value`. */
  predicate AssemblyRaises(p: Page)
  {
    p.hiddenTitles != [] && p.hiddenTitles[0].None?
  }

  /** `scrape_weather`: any exception (a failed request, an error status, a
      missing `value` attribute) yields `None`; otherwise a record with each
      field taken from its selection or defaulted. */
  function Scrape(a: Attempt): (r: Option<WeatherInfo>)
    ensures r.None? <==> a.response.RequestFailed? || AssemblyRaises(a.response.page)
    ensures r.Some? ==> r.value.Keys == FieldNames
  {
    match a.response
    case RequestFailed => None
    case Received(p) =>
      if AssemblyRaises(p) then None
      else
        var city := if p.crumbLinks == [] then UnknownCity else p.crumbLinks[|p.crumbLinks| - 1];
        var date := if p.hiddenTitles == [] then UnknownDate else Before(p.hiddenTitles[0].value, ' ');
        var weather := if p.weatherTexts == [] then UnknownWeather else p.weatherTexts[0];
        Some(map["city" := city, "date" := date, "weather" := weather,
                 "temperature" := TemperatureText(p), "timestamp" := a.now])
  }

  /** The fields of a successful scrape: the last crumb link or the unknown
      city, the title's first space-separated word or the unknown date, the
      first weather text or the unknown weather, the high/low text and the
      clock reading. */
  lemma ScrapeFields(a: Attempt)
    requires Scrape(a).Some?
    ensures var info := Scrape(a).value;
            var p := a.response.page;
            info["city"] == (if p.crumbLinks == [] then UnknownCity else p.crumbLinks[|p.crumbLinks| - 1]) &&
            info["date"] == (if p.hiddenTitles == [] then UnknownDate else Before(p.hiddenTitles[0].value, ' ')) &&
            ' ' !in info["date"] &&
            info["weather"] == (if p.weatherTexts == [] then UnknownWeather else p.weatherTexts[0]) &&
            info["temperature"] == TemperatureText(p) &&
            info["timestamp"] == a.now
  {
  }

  /** The temperature text starts with the high text and ends with the low
      text, so it always holds a `/`; when the high text holds none, the text
      before the first `/` is the high text; with neither a high nor a low
      element the text is exactly `/`. */
  lemma TemperatureTextShape(p: Page)
    ensures FirstOrEmpty(p.highs) <= TemperatureText(p)
    ensures TemperatureText(p)[|FirstOrEmpty(p.highs)| + 1..] == FirstOrEmpty(p.lows)
    ensures '/' in TemperatureText(p)
    ensures '/' !in FirstOrEmpty(p.highs) ==> Before(TemperatureText(p), '/') == FirstOrEmpty(p.highs)
    ensures p.highs == [] && p.lows == [] ==> TemperatureText(p) == "/"
  {
    var t := TemperatureText(p);
    assert t[|FirstOrEmpty(p.highs)|] == '/';
    if '/' !in FirstOrEmpty(p.highs) {
      assert t == FirstOrEmpty(p.highs) + ['/'] + FirstOrEmpty(p.lows);
      BeforeJoin(FirstOrEmpty(p.highs), '/', FirstOrEmpty(p.lows));
    }
  }

  /** The records of the successful scrapes among `attempts`, in order. */
  function Successes(attempts: seq<Attempt>): (r: seq<WeatherInfo>)
    ensures |r| <= |attempts|
    ensures forall k | 0 <= k < |r| :: r[k].Keys == FieldNames
  {
    if attempts == [] then []
    else
      var front := Successes(attempts[..|attempts| - 1]);
      match Scrape(attempts[|attempts| - 1])
      case None => front
      case Some(info) => front + [info]
  }

  /** One round of the collection loop: scrape every city in the order of
      `city_codes` and append each record that is not `None`. */
  method CollectRound(attempts: seq<Attempt>) returns (all: seq<WeatherInfo>)
    ensures all == Successes(attempts)
    ensures |all| <= |attempts|
    ensures forall k | 0 <= k < |all| :: all[k].Keys == FieldNames
  {
    all := [];
    for i := 0 to |attempts|
      invariant all == Successes(attempts[..i])
      invariant |all| <= i
      invariant forall k | 0 <= k < |all| :: all[k].Keys == FieldNames
    {
      assert attempts[..i + 1][..i] == attempts[..i];
      var info := Scrape(attempts[i]);
      if info.Some? {
        all := all + [info.value];
      }
    }
    assert attempts[..|attempts|] == attempts;
  }

  /** The list of a longer run of attempts is the list of its first part
      followed by the list of the rest: records keep city order. */
  lemma {:induction false} SuccessesAppend(a: seq<Attempt>, b: seq<Attempt>)
    ensures Successes(a + b) == Successes(a) + Successes(b)
    decreases |b|
  {
    if b == [] {
      assert a + b == a;
    } else {
      assert (a + b)[..|a + b| - 1] == a + b[..|b| - 1];
      SuccessesAppend(a, b[..|b| - 1]);
    }
  }

  /** A record is in a round's list exactly when some city's scrape returned it. */
  lemma {:induction false} SuccessesExact(attempts: seq<Attempt>, info: WeatherInfo)
    ensures info in Successes(attempts) <==> exists i | 0 <= i < |attempts| :: Scrape(attempts[i]) == Some(info)
  {
    if attempts != [] {
      var front := attempts[..|attempts| - 1];
      SuccessesExact(front, info);
      assert forall i | 0 <= i < |front| :: front[i] == attempts[i];
    }
  }

  /** A round's list drops exactly the failed scrapes: it is as long as the
      number of cities minus the number of failures. */
  lemma {:induction false} SuccessesCount(attempts: seq<Attempt>)
    ensures |Successes(attempts)| == |attempts| - Failures(attempts)
  {
    if attempts != [] {
      SuccessesCount(attempts[..|attempts| - 1]);
    }
  }

  /** The number of failed scrapes among `attempts`. */
  function Failures(attempts: seq<Attempt>): nat
  {
    if attempts == [] then 0
    else Failures(attempts[..|attempts| - 1]) + (if Scrape(attempts[|attempts| - 1]).None? then 1 else 0)
  }
}
