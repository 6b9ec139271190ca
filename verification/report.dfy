/**
  The decoded API response and the pieces of it a report displays. The
  program reads the first condition unconditionally; here an empty list of
  conditions is an explicit error instead of an out-of-bounds access.
 */
module Report {
  import opened Results
  import opened Icons
  import opened Styles

  /** One weather condition; only its description is decoded. */
  datatype Condition = Condition(description: string)

  /** The "main" block of the response: temperature in degrees Celsius,
      relative humidity in percent, pressure in hectopascals. */
  datatype Readings = Readings(temp: real, humidity: real, pressure: real)

  /** Wind speed in metres per second. */
  datatype Wind = Wind(speed: real)

  /** The decoded response: conditions, readings, wind and the place name
      the provider reports. */
  datatype WeatherResponse = WeatherResponse(weather: seq<Condition>, main: Readings, wind: Wind, name: string)

  /** What one report shows, in the order it is shown, and its style. */
  datatype Display = Display(
    name: string,
    description: string,
    icon: Icon,
    temperature: real,
    pressure: real,
    humidity: real,
    windSpeed: real,
    style: Style)

  datatype RenderError = EmptyConditions

  /** Selects the displayed fields of a response: the first condition's
      description, the icon for its temperature and the style for its
      description. Fails exactly when there is no condition. */
  function Render(resp: WeatherResponse): (r: Result<Display, RenderError>)
    ensures r.Failure? <==> |resp.weather| == 0
    ensures r.Success? ==>
      && r.value.name == resp.name
      && r.value.description == resp.weather[0].description
      && r.value.temperature == resp.main.temp
      && r.value.pressure == resp.main.pressure
      && r.value.humidity == resp.main.humidity
      && r.value.windSpeed == resp.wind.speed
      && InBucket(resp.main.temp, r.value.icon)
      && (r.value.style != Normal <==> r.value.description in Vocabulary)
      && (r.value.style != Normal ==> r.value.description in WordsOf(r.value.style))
  {
    if |resp.weather| == 0 then Failure(EmptyConditions)
    else
      var description := resp.weather[0].description;
      var temperature := resp.main.temp;
      Success(Display(
        resp.name, description, TempIcon(temperature), temperature,
        resp.main.pressure, resp.main.humidity, resp.wind.speed, StyleOf(description)))
  }

  /** Only the first condition is read: responses that agree on it and on
      everything else render alike, whatever conditions follow it. */
  lemma RenderReadsFirstConditionOnly(a: WeatherResponse, b: WeatherResponse)
    requires |a.weather| > 0 && |b.weather| > 0
    requires a.weather[0] == b.weather[0]
    requires a.main == b.main && a.wind == b.wind && a.name == b.name
    ensures Render(a) == Render(b)
  {
  }

  /** A 15-degree "few clouds" report for London shows the mild icon in
      bright blue. */
  lemma LondonExample()
    ensures var resp := WeatherResponse([Condition("few clouds")], Readings(15.0, 70.0, 1012.0), Wind(4.1), "London");
      && Render(resp).Success?
      && Render(resp).value.name == "London"
      && Render(resp).value.icon == Mild
      && Render(resp).value.style == BrightBlue
  {
  }
}
