/** The weather categories of the simulation and the classification of the
    `current_weather.weathercode` that the Open-Meteo forecast returns. The
    codes are those of WMO code table 4677 ("present weather") as Open-Meteo
    reports them: 0 clear sky, 1 mainly clear, 2-3 partly cloudy to overcast,
    45 and 48 fog, 51 and above drizzle, rain, snow and thunderstorms. */
module OpenMeteo {
  import opened Wrappers

  datatype Weather = Sunny | Cloudy | Rainy

  /** What one forecast request produced: the request or its JSON parsing
      failed, the body had no `current_weather`, or it had one, whose
      `weathercode` may itself be missing. */
  datatype Response = Failed | NoCurrentWeather | Current(weathercode: Option<int>)

  /** The code ranges: at most 1 is sunny, up to 48 cloudy, anything higher rainy. */
  function ClassifyCode(code: int): (w: Weather)
    ensures w == Sunny <==> code <= 1
    ensures w == Cloudy <==> 1 < code <= 48
    ensures w == Rainy <==> 48 < code
  {
    if code <= 1 then Sunny
    else if code <= 48 then Cloudy
    else Rainy
  }

  /** A missing `weathercode` is `undefined` in the source; both comparisons
      with it are false, so it falls through to rainy. */
  function ClassifyField(code: Option<int>): (w: Weather)
    ensures code.None? ==> w == Rainy
    ensures code.Some? ==> w == ClassifyCode(code.value)
  {
    match code
    case Some(c) => ClassifyCode(c)
    case None => Rainy
  }

  /** Orders the categories from driest to wettest. */
  function Wetness(w: Weather): nat {
    match w
    case Sunny => 0
    case Cloudy => 1
    case Rainy => 2
  }

  /** The classification is monotone in the code. */
  lemma ClassifyCodeMonotone(a: int, b: int)
    requires a <= b
    ensures Wetness(ClassifyCode(a)) <= Wetness(ClassifyCode(b))
  {
  }
}
