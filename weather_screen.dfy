/** The weather card: the weather-code icon table, the threshold colour rule,
    the filling of the SVG template's placeholders for three days, and the
    10:00 to 18:00 daily maxima of the hourly humidity and air-quality index. */
module WeatherScreen {
  import opened Options
  import opened TextOps
  import opened Arith

  // ---------------------------------------------------------------------
  // Weather-code icons

  /** The WMO weather-interpretation codes (WMO code table 4677, the subset
      Open-Meteo serves) that have an icon. */
  const WmoCodes: set<int> := {0, 1, 2, 3, 45, 48, 51, 53, 55, 56, 57, 61, 63, 65, 66, 67,
                               71, 73, 75, 77, 80, 81, 82, 85, 86, 95, 96, 99}

  const Unknown := "Unknown"

  /** `get_weather_icon`: the icon file for each code of the table, "Unknown"
      for any other code. */
  function GetWeatherIcon(code: int): (icon: string)
    ensures icon == Unknown <==> code !in WmoCodes
  {
    match code
    case 0 => "climacell_clear_day.svg"
    case 1 => "climacell_mostly_clear_day.svg"
    case 2 => "climacell_partly_cloudy_day.svg"
    case 3 => "climacell_cloudy.svg"
    case 45 => "climacell_fog.svg"
    case 48 => "climacell_fog_light.svg"
    case 51 => "climacell_drizzle.svg"
    case 53 => "climacell_drizzle.svg"
    case 55 => "climacell_drizzle.svg"
    case 56 => "climacell_freezing_drizzle.svg"
    case 57 => "climacell_freezing_drizzle.svg"
    case 61 => "climacell_rain_light.svg"
    case 63 => "climacell_rain.svg"
    case 65 => "climacell_rain_heavy.svg"
    case 66 => "climacell_freezing_rain_light.svg"
    case 67 => "climacell_freezing_rain_heavy.svg"
    case 71 => "climacell_snow_light.svg"
    case 73 => "climacell_snow.svg"
    case 75 => "climacell_snow_heavy.svg"
    case 77 => "climacell_snow_light.svg"
    case 80 => "climacell_rain_light.svg"
    case 81 => "climacell_rain.svg"
    case 82 => "climacell_rain_heavy.svg"
    case 85 => "climacell_snow_light.svg"
    case 86 => "climacell_snow_heavy.svg"
    case 95 => "climacell_tstorm.svg"
    case 96 => "climacell_tstorm.svg"
    case 99 => "climacell_tstorm.svg"
    case _ => Unknown
  }

  /** Drizzle codes share their icons. */
  lemma DrizzleIcons()
    ensures GetWeatherIcon(51) == GetWeatherIcon(53) == GetWeatherIcon(55) == "climacell_drizzle.svg"
    ensures GetWeatherIcon(56) == GetWeatherIcon(57) == "climacell_freezing_drizzle.svg"
  {
  }

  /** Rain and rain-shower codes of one strength share an icon. */
  lemma RainIcons()
    ensures GetWeatherIcon(61) == GetWeatherIcon(80) == "climacell_rain_light.svg"
    ensures GetWeatherIcon(63) == GetWeatherIcon(81) == "climacell_rain.svg"
    ensures GetWeatherIcon(65) == GetWeatherIcon(82) == "climacell_rain_heavy.svg"
  {
  }

  /** Snow, snow grains and snow showers of one strength share an icon. */
  lemma SnowIcons()
    ensures GetWeatherIcon(71) == GetWeatherIcon(77) == GetWeatherIcon(85) == "climacell_snow_light.svg"
    ensures GetWeatherIcon(75) == GetWeatherIcon(86) == "climacell_snow_heavy.svg"
  {
  }

  /** The thunderstorm codes share an icon. */
  lemma StormIcons()
    ensures GetWeatherIcon(95) == GetWeatherIcon(96) == GetWeatherIcon(99) == "climacell_tstorm.svg"
  {
  }

  // ---------------------------------------------------------------------
  // Colours

  const Red := "red"
  const Black := "black"

  /** `get_color`: the above-colour only when the value is strictly above the threshold. */
  function GetColor(value: real, threshold: real, aboveColor: string, belowColor: string): (color: string)
    ensures value > threshold ==> color == aboveColor
    ensures value <= threshold ==> color == belowColor
  {
    if value > threshold then aboveColor else belowColor
  }

  /** A value equal to the threshold gets the below-colour. */
  lemma ThresholdIsBelow(threshold: real, aboveColor: string, belowColor: string)
    ensures GetColor(threshold, threshold, aboveColor, belowColor) == belowColor
  {
  }

  /** The HIGH colour is red exactly above 30 degrees; the LOW colour is
      inverted: red exactly at or below -5 degrees. */
  lemma TemperatureColors(tempMax: real, tempMin: real)
    ensures GetColor(tempMax, 30.0, Red, Black) == Red <==> tempMax > 30.0
    ensures GetColor(tempMin, -5.0, Black, Red) == Red <==> tempMin <= -5.0
  {
  }

  // ---------------------------------------------------------------------
  // Number rendering for the rounded values

  /** Python's `round` on a float: nearest integer, halves to the even neighbour. */
  function RoundHalfEven(x: real): (r: int)
    ensures -0.5 <= r as real - x <= 0.5
    ensures (r as real - x == 0.5 || x - r as real == 0.5) ==> r % 2 == 0
  {
    var f := x.Floor;
    var d := x - f as real;
    if d < 0.5 then f
    else if d > 0.5 then f + 1
    else if f % 2 == 0 then f
    else f + 1
  }

  /** `str` of an integer. */
  function IntToString(i: int): (s: string)
    ensures |s| > 0
    ensures i >= 0 ==> s == NatToString(i)
    ensures i < 0 ==> s == "-" + NatToString(-i)
  {
    if i < 0 then "-" + NatToString(-i) else NatToString(i)
  }

  // ---------------------------------------------------------------------
  // Placeholders

  /** The characters placeholders are made of. */
  predicate IsKeyChar(c: char)
  {
    ('A' <= c <= 'Z') || IsDigit(c) || c == '{' || c == '}' || c == '_'
  }

  predicate KeyLike(s: string)
  {
    |s| > 0 && forall i :: 0 <= i < |s| ==> IsKeyChar(s[i])
  }

  predicate NoKeyChar(s: string)
  {
    |s| > 0 && forall i :: 0 <= i < |s| ==> !IsKeyChar(s[i])
  }

  predicate UpperName(name: string)
  {
    forall i :: 0 <= i < |name| ==> 'A' <= name[i] <= 'Z'
  }

  lemma KeyLikeAppend(a: string, b: string)
    requires forall i :: 0 <= i < |a| ==> IsKeyChar(a[i])
    requires forall i :: 0 <= i < |b| ==> IsKeyChar(b[i])
    ensures forall i :: 0 <= i < |a + b| ==> IsKeyChar((a + b)[i])
  {
  }

  /** `{NAMEn}`, a value placeholder of day n. */
  function Key(name: string, n: nat): (k: string)
    ensures |k| > 0 && k[0] == '{' && k[|k| - 1] == '}'
  {
    "{" + name + NatToString(n) + "}"
  }

  /** `{NAMEn_COLOR}`, a colour placeholder of day n. */
  function ColorKey(name: string, n: nat): (k: string)
    requires UpperName(name)
    ensures KeyLike(k)
  {
    KeyLikeAppend("{", name);
    KeyLikeAppend("{" + name, NatToString(n));
    KeyLikeAppend("{" + name + NatToString(n), "_COLOR}");
    "{" + name + NatToString(n) + "_COLOR}"
  }

  /** `{ICON_IDn}`, the icon-name placeholder of day n. */
  function IconKey(n: nat): string
  {
    "{ICON_ID" + NatToString(n) + "}"
  }

  /** `{ICONn_PATHk}`, the k-th path-data placeholder of day n. */
  function PathKey(n: nat, k: nat): (key: string)
    ensures |key| > 0
  {
    "{ICON" + NatToString(n) + "_PATH" + NatToString(k) + "}"
  }

  lemma FirstDifference(a: string, b: string, x: string, y: string)
    requires forall i :: 0 <= i < |b| ==> IsDigit(b[i])
    requires |x| > 0 && !IsDigit(x[0])
    ensures |a| < |b| ==> (a + x)[|a|] != (b + y)[|a|]
  {
    if |a| < |b| {
      assert (a + x)[|a|] == x[0];
      assert (b + y)[|a|] == b[|a|];
    }
  }

  /** Two digit strings followed by the same non-digit are the same. */
  lemma DigitsThenMark(a: string, b: string, x: string, y: string)
    requires forall i :: 0 <= i < |a| ==> IsDigit(a[i])
    requires forall i :: 0 <= i < |b| ==> IsDigit(b[i])
    requires |x| > 0 && |y| > 0 && !IsDigit(x[0]) && !IsDigit(y[0])
    requires a + x == b + y
    ensures a == b && x == y
  {
    FirstDifference(a, b, x, y);
    FirstDifference(b, a, y, x);
    if |a| == |b| {
      assert a == (a + x)[..|a|] == (b + y)[..|b|] == b;
      assert x == (a + x)[|a|..] == (b + y)[|b|..] == y;
    }
  }

  /** A path placeholder is "{ICON", the day's digits, then "_PATH…}". */
  lemma PathKeyParts(n: nat, k: nat)
    ensures PathKey(n, k)[5..] == NatToString(n) + ("_PATH" + NatToString(k) + "}")
  {
    assert PathKey(n, k) == "{ICON" + (NatToString(n) + ("_PATH" + NatToString(k) + "}"));
  }

  /** The index part "_PATHk}" determines k. */
  lemma PathSuffixDistinct(k1: nat, k2: nat)
    requires "_PATH" + NatToString(k1) + "}" == "_PATH" + NatToString(k2) + "}"
    ensures k1 == k2
  {
    var b1, b2 := NatToString(k1), NatToString(k2);
    assert ("_PATH" + b1 + "}")[5..] == b1 + "}";
    assert ("_PATH" + b2 + "}")[5..] == b2 + "}";
    DigitsThenMark(b1, b2, "}", "}");
    NatToStringInjective(k1, k2);
  }

  /** Each day and path index has its own path placeholder. */
  lemma PathKeysDistinct(n1: nat, k1: nat, n2: nat, k2: nat)
    ensures PathKey(n1, k1) == PathKey(n2, k2) <==> n1 == n2 && k1 == k2
  {
    if PathKey(n1, k1) == PathKey(n2, k2) {
      var a1, a2 := NatToString(n1), NatToString(n2);
      var x1, x2 := "_PATH" + NatToString(k1) + "}", "_PATH" + NatToString(k2) + "}";
      PathKeyParts(n1, k1);
      PathKeyParts(n2, k2);
      DigitsThenMark(a1, a2, x1, x2);
      NatToStringInjective(n1, n2);
      PathSuffixDistinct(k1, k2);
    }
  }

  /** Path data with every '"' written as `&quot;`, so it cannot end the
      attribute it is put into. */
  function EscapePathData(d: string): (e: string)
    ensures '"' !in e
    ensures '"' !in d ==> e == d
  {
    ReplaceCharGone(d, '"', "&quot;");
    ReplaceAll(d, "\"", "&quot;")
  }

  /** Successive `template.replace(key, value)` calls, in list order. */
  function ReplaceSeq(t: string, pairs: seq<(string, string)>): string
    requires forall j :: 0 <= j < |pairs| ==> |pairs[j].0| > 0
    decreases |pairs|
  {
    if pairs == [] then t
    else ReplaceSeq(ReplaceAll(t, pairs[0].0, pairs[0].1), pairs[1..])
  }

  lemma Disjoint(rep: string, q: string)
    requires NoKeyChar(rep) && KeyLike(q)
    ensures |rep| > 0 && |q| > 0
    ensures forall c :: c in rep ==> c !in q
  {
  }

  /** Replacements made of non-key characters cannot create a placeholder. */
  lemma {:induction false} ReplaceSeqKeepsAbsent(t: string, pairs: seq<(string, string)>, q: string)
    requires forall j :: 0 <= j < |pairs| ==> |pairs[j].0| > 0 && NoKeyChar(pairs[j].1)
    requires KeyLike(q) && !Occurs(t, q)
    ensures !Occurs(ReplaceSeq(t, pairs), q)
    decreases |pairs|
  {
    if pairs != [] {
      Disjoint(pairs[0].1, q);
      ReplaceAllKeepsAbsent(t, pairs[0].0, pairs[0].1, q);
      ReplaceSeqKeepsAbsent(ReplaceAll(t, pairs[0].0, pairs[0].1), pairs[1..], q);
    }
  }

  /** After replacing placeholders by texts made of non-key characters, none
      of those placeholders is left anywhere in the template. */
  lemma {:induction false} ReplaceSeqRemoves(t: string, pairs: seq<(string, string)>)
    requires forall j :: 0 <= j < |pairs| ==> |pairs[j].0| > 0 && KeyLike(pairs[j].0) && NoKeyChar(pairs[j].1)
    ensures forall j :: 0 <= j < |pairs| ==> !Occurs(ReplaceSeq(t, pairs), pairs[j].0)
    decreases |pairs|
  {
    if pairs != [] {
      var t' := ReplaceAll(t, pairs[0].0, pairs[0].1);
      Disjoint(pairs[0].1, pairs[0].0);
      ReplaceAllRemoves(t, pairs[0].0, pairs[0].1);
      ReplaceSeqKeepsAbsent(t', pairs[1..], pairs[0].0);
      ReplaceSeqRemoves(t', pairs[1..]);
      forall j | 1 <= j < |pairs|
        ensures !Occurs(ReplaceSeq(t, pairs), pairs[j].0)
      {
        assert pairs[j] == pairs[1..][j - 1];
      }
    }
  }

  // ---------------------------------------------------------------------
  // The data of one forecast day

  datatype Date = Date(year: int, month: int, day: int)

  /** One row of the daily forecast. The texts are the values as the template
      shows them (date and day names, one-decimal temperatures and UV index,
      the precipitation probability), formatted outside the model. */
  datatype DailyRow = DailyRow(
    date: Date, formattedDate: string, dayName: string,
    tempMax: real, tempMaxText: string, tempMin: real, tempMinText: string,
    precipProbMax: real, precipProbText: string,
    windSpeedMax: real, windGustsMax: real, uvMax: real, uvText: string,
    weatherCode: int)

  /** The 10:00 to 18:00 maxima of one date. */
  datatype DailyMax = DailyMax(humidity: int, aqi: int)

  /** The value placeholders of day n with their texts, in the script's order. */
  function ValuePairs(n: nat, day: DailyRow, agg: DailyMax, cloudCover: real): (pairs: seq<(string, string)>)
    ensures |pairs| == 11
    ensures forall j :: 0 <= j < |pairs| ==> |pairs[j].0| > 0
  {
    [(Key("DATE", n), day.formattedDate),
     (Key("DAY", n), day.dayName),
     (Key("HIGH", n), day.tempMaxText),
     (Key("LOW", n), day.tempMinText),
     (Key("POP", n), day.precipProbText),
     (Key("WIND", n), IntToString(RoundHalfEven(day.windSpeedMax))),
     (Key("GUST", n), IntToString(RoundHalfEven(day.windGustsMax))),
     (Key("HUMIDITY", n), IntToString(agg.humidity)),
     (Key("AQ", n), IntToString(agg.aqi)),
     (Key("CC", n), IntToString(RoundHalfEven(cloudCover))),
     (Key("UV", n), day.uvText)]
  }

  /** The colour placeholders of day n with their colours: red above 30, 80,
      20, 80, 60, 70 and 8 for HIGH, POP, WIND, HUMIDITY, AQ, CC and UV, and
      for LOW black above -5, red otherwise. */
  function ColourPairs(n: nat, day: DailyRow, agg: DailyMax, cloudCover: real): (pairs: seq<(string, string)>)
    ensures |pairs| == 8
    ensures forall j :: 0 <= j < |pairs| ==> KeyLike(pairs[j].0)
    ensures forall j :: 0 <= j < |pairs| ==> pairs[j].1 == Red || pairs[j].1 == Black
  {
    [(ColorKey("HIGH", n), GetColor(day.tempMax, 30.0, Red, Black)),
     (ColorKey("LOW", n), GetColor(day.tempMin, -5.0, Black, Red)),
     (ColorKey("POP", n), GetColor(day.precipProbMax, 80.0, Red, Black)),
     (ColorKey("WIND", n), GetColor(day.windSpeedMax, 20.0, Red, Black)),
     (ColorKey("HUMIDITY", n), GetColor(agg.humidity as real, 80.0, Red, Black)),
     (ColorKey("AQ", n), GetColor(agg.aqi as real, 60.0, Red, Black)),
     (ColorKey("CC", n), GetColor(cloudCover, 70.0, Red, Black)),
     (ColorKey("UV", n), GetColor(day.uvMax, 8.0, Red, Black))]
  }

  /** The k-th path value, escaped, into `{ICONn_PATHk}`, for k from 1. */
  function FillPaths(t: string, n: nat, pathDs: seq<string>): string
  {
    if pathDs == [] then t
    else ReplaceAll(FillPaths(t, n, pathDs[..|pathDs| - 1]), PathKey(n, |pathDs|),
                    EscapePathData(pathDs[|pathDs| - 1]))
  }

  /** The template after day n is filled in. `None` when the day has no
      aggregated values (the script's empty selection) or its icon file has no
      entry in `iconPaths` (the file cannot be opened). */
  function FillDay(t: string, n: nat, day: DailyRow, daily: map<Date, DailyMax>,
                   cloudCover: map<Date, real>, iconPaths: map<string, seq<string>>): Option<string>
  {
    var icon := GetWeatherIcon(day.weatherCode);
    if day.date !in daily || day.date !in cloudCover || icon !in iconPaths then None
    else
      var agg, cc := daily[day.date], cloudCover[day.date];
      var valuesFilled := ReplaceSeq(t, ValuePairs(n, day, agg, cc));
      var iconFilled := ReplaceAll(valuesFilled, IconKey(n), icon);
      var pathsFilled := FillPaths(iconFilled, n, iconPaths[icon]);
      Some(ReplaceSeq(pathsFilled, ColourPairs(n, day, agg, cc)))
  }

  /** Days i+1 to 3 filled in after the first i. */
  function FillFrom(t: string, days: seq<DailyRow>, i: nat, daily: map<Date, DailyMax>,
                    cloudCover: map<Date, real>, iconPaths: map<string, seq<string>>): Option<string>
    requires i <= 3
    decreases 3 - i
  {
    if i == 3 then Some(t)
    else if i >= |days| then None
    else
      match FillDay(t, i + 1, days[i], daily, cloudCover, iconPaths)
      case None => None
      case Some(t') => FillFrom(t', days, i + 1, daily, cloudCover, iconPaths)
  }

  /** Fewer than three forecast days always end in failure (`data.iloc[i]`
      runs past the end), whatever the other inputs. */
  lemma {:induction false} FillFromShort(t: string, days: seq<DailyRow>, i: nat, daily: map<Date, DailyMax>,
                                         cloudCover: map<Date, real>, iconPaths: map<string, seq<string>>)
    requires i <= |days| < 3
    ensures FillFrom(t, days, i, daily, cloudCover, iconPaths) == None
    decreases 3 - i
  {
    if i < |days| {
      match FillDay(t, i + 1, days[i], daily, cloudCover, iconPaths)
      case None =>
      case Some(t') => FillFromShort(t', days, i + 1, daily, cloudCover, iconPaths);
    }
  }

  /** Why the value placeholders carry no such guarantee: a replacement text
      can complete a partial placeholder around the one it replaces. */
  lemma PlaceholderCanReform()
    ensures Occurs(ReplaceAll("{H{HIGH1}GH1}", "{HIGH1}", "I"), "{HIGH1}")
  {
    var s := "{H{HIGH1}GH1}";
    assert ReplaceAll(s[9..], "{HIGH1}", "I") == s[9..];
    assert s[2..][..7] == "{HIGH1}" && s[2..][7..] == s[9..];
    assert ReplaceAll(s[2..], "{HIGH1}", "I") == "IGH1}";
    assert s[1..][..7][0] != "{HIGH1}"[0];
    assert ReplaceAll(s[1..], "{HIGH1}", "I") == "HIGH1}";
    assert s[..7][2] != "{HIGH1}"[2];
    assert ReplaceAll(s, "{HIGH1}", "I") == "{HIGH1}";
    assert OccursAt("{HIGH1}", "{HIGH1}", 0);
  }

  /** After a day is filled in, none of its colour placeholders is left. */
  lemma ColorsFilled(t: string, n: nat, day: DailyRow, daily: map<Date, DailyMax>,
                     cloudCover: map<Date, real>, iconPaths: map<string, seq<string>>)
    requires day.date in daily && day.date in cloudCover
    requires GetWeatherIcon(day.weatherCode) in iconPaths
    ensures FillDay(t, n, day, daily, cloudCover, iconPaths).Some?
    ensures var pairs := ColourPairs(n, day, daily[day.date], cloudCover[day.date]);
            forall j :: 0 <= j < |pairs| ==> !Occurs(FillDay(t, n, day, daily, cloudCover, iconPaths).value, pairs[j].0)
  {
    var icon := GetWeatherIcon(day.weatherCode);
    var agg, cc := daily[day.date], cloudCover[day.date];
    var valuesFilled := ReplaceSeq(t, ValuePairs(n, day, agg, cc));
    var pathsFilled := FillPaths(ReplaceAll(valuesFilled, IconKey(n), icon), n, iconPaths[icon]);
    var pairs := ColourPairs(n, day, agg, cc);
    assert NoKeyChar(Red) && NoKeyChar(Black);
    ReplaceSeqRemoves(pathsFilled, pairs);
  }

  // ---------------------------------------------------------------------
  // The 10:00 to 18:00 aggregation

  datatype TimeOfDay = TimeOfDay(hour: int, minute: int, second: int)

  /** One hourly sample, the values modelled as integers. */
  datatype HourlySample = HourlySample(date: Date, time: TimeOfDay, humidity: int, aqi: int)

  predicate TimeLeq(a: TimeOfDay, b: TimeOfDay)
  {
    a.hour < b.hour || (a.hour == b.hour && (a.minute < b.minute || (a.minute == b.minute && a.second <= b.second)))
  }

  /** Between 10:00:00 and 18:00:00, both ends included. */
  predicate InWindow(t: TimeOfDay)
  {
    TimeLeq(TimeOfDay(10, 0, 0), t) && TimeLeq(t, TimeOfDay(18, 0, 0))
  }

  function Seconds(t: TimeOfDay): int
  {
    t.hour * 3600 + t.minute * 60 + t.second
  }

  /** The window is the closed interval of seconds 36000 to 64800. */
  lemma InWindowSeconds(t: TimeOfDay)
    requires 0 <= t.hour < 24 && 0 <= t.minute < 60 && 0 <= t.second < 60
    ensures InWindow(t) <==> 36000 <= Seconds(t) <= 64800
  {
  }


  /** One sample folded into the per-date maxima. */
  function Include(m: map<Date, DailyMax>, s: HourlySample): map<Date, DailyMax>
  {
    if !InWindow(s.time) then m
    else if s.date in m then m[s.date := DailyMax(Max(m[s.date].humidity, s.humidity), Max(m[s.date].aqi, s.aqi))]
    else m[s.date := DailyMax(s.humidity, s.aqi)]
  }

  /** The per-date maxima of the samples inside the window. */
  function DailyMaxima(samples: seq<HourlySample>): map<Date, DailyMax>
  {
    if samples == [] then map[]
    else Include(DailyMaxima(samples[..|samples| - 1]), samples[|samples| - 1])
  }

  predicate Kept(samples: seq<HourlySample>, j: int, d: Date)
  {
    0 <= j < |samples| && InWindow(samples[j].time) && samples[j].date == d
  }

  /** A date has maxima exactly when some sample of it lies in the window. */
  lemma {:induction false} DailyMaximaDates(samples: seq<HourlySample>, d: Date)
    ensures d in DailyMaxima(samples) <==> exists j :: Kept(samples, j, d)
  {
    if samples != [] {
      var init := samples[..|samples| - 1];
      DailyMaximaDates(init, d);
      if exists j :: Kept(init, j, d) {
        var j :| Kept(init, j, d);
        assert Kept(samples, j, d);
      }
      if exists j :: Kept(samples, j, d) {
        var j :| Kept(samples, j, d);
        if j < |init| {
          assert Kept(init, j, d);
        }
      }
      if d in DailyMaxima(samples) && !(exists j :: Kept(init, j, d)) {
        assert Kept(samples, |init|, d);
      }
    }
  }

  /** Every kept sample is at most its date's maxima. */
  lemma {:induction false} DailyMaximaBound(samples: seq<HourlySample>, j: int)
    requires 0 <= j < |samples| && InWindow(samples[j].time)
    ensures samples[j].date in DailyMaxima(samples)
    ensures samples[j].humidity <= DailyMaxima(samples)[samples[j].date].humidity
    ensures samples[j].aqi <= DailyMaxima(samples)[samples[j].date].aqi
  {
    var init := samples[..|samples| - 1];
    if j < |samples| - 1 {
      assert init[j] == samples[j];
      DailyMaximaBound(init, j);
    }
  }

  /** Each date's maxima are reached by kept samples of that date. */
  lemma {:induction false} DailyMaximaAttained(samples: seq<HourlySample>, d: Date)
    requires d in DailyMaxima(samples)
    ensures exists j :: Kept(samples, j, d) && samples[j].humidity == DailyMaxima(samples)[d].humidity
    ensures exists j :: Kept(samples, j, d) && samples[j].aqi == DailyMaxima(samples)[d].aqi
  {
    var init := samples[..|samples| - 1];
    var last := samples[|samples| - 1];
    var m := DailyMaxima(init);
    var n := |samples| - 1;
    if !(InWindow(last.time) && last.date == d) {
      DailyMaximaAttained(init, d);
      var j1 :| Kept(init, j1, d) && init[j1].humidity == m[d].humidity;
      assert Kept(samples, j1, d) && samples[j1] == init[j1];
      var j2 :| Kept(init, j2, d) && init[j2].aqi == m[d].aqi;
      assert Kept(samples, j2, d) && samples[j2] == init[j2];
    } else if d !in m {
      assert Kept(samples, n, d);
    } else {
      DailyMaximaAttained(init, d);
      var j1 :| Kept(init, j1, d) && init[j1].humidity == m[d].humidity;
      assert Kept(samples, j1, d) && samples[j1] == init[j1];
      var j2 :| Kept(init, j2, d) && init[j2].aqi == m[d].aqi;
      assert Kept(samples, j2, d) && samples[j2] == init[j2];
      assert Kept(samples, n, d);
    }
  }

  /** The filter and group-by of the hourly samples. */
  method AggregateHourly(samples: seq<HourlySample>) returns (daily: map<Date, DailyMax>)
    ensures daily == DailyMaxima(samples)
  {
    daily := map[];
    for i := 0 to |samples|
      invariant daily == DailyMaxima(samples[..i])
    {
      assert samples[..i + 1][..i] == samples[..i];
      var s := samples[i];
      if InWindow(s.time) {
        if s.date in daily {
          daily := daily[s.date := DailyMax(Max(daily[s.date].humidity, s.humidity), Max(daily[s.date].aqi, s.aqi))];
        } else {
          daily := daily[s.date := DailyMax(s.humidity, s.aqi)];
        }
      }
    }
    assert samples[..|samples|] == samples;
  }

  // ---------------------------------------------------------------------
  // The whole template

  /** The template with days 1 to 3 filled in, `None` when fewer than three
      days are given or a day cannot be filled in. */
  function FilledTemplate(template: string, days: seq<DailyRow>, hourly: seq<HourlySample>,
                          cloudCover: map<Date, real>, iconPaths: map<string, seq<string>>): Option<string>
  {
    FillFrom(template, days, 0, DailyMaxima(hourly), cloudCover, iconPaths)
  }

  /** The inner loop of `replace_placeholders` over the extracted path values. */
  method ReplaceIconPaths(template: string, dayNum: nat, pathDs: seq<string>) returns (t: string)
    ensures t == FillPaths(template, dayNum, pathDs)
  {
    t := template;
    for k := 0 to |pathDs|
      invariant t == FillPaths(template, dayNum, pathDs[..k])
    {
      assert pathDs[..k + 1][..k] == pathDs[..k];
      var escapedD := EscapePathData(pathDs[k]);
      t := ReplaceAll(t, PathKey(dayNum, k + 1), escapedD);
    }
    assert pathDs[..|pathDs|] == pathDs;
  }

  /** `replace_placeholders`: the loop over three days, rebinding the template. */
  method ReplacePlaceholders(template: string, days: seq<DailyRow>, hourly: seq<HourlySample>,
                             cloudCover: map<Date, real>, iconPaths: map<string, seq<string>>)
    returns (result: Option<string>)
    ensures result == FilledTemplate(template, days, hourly, cloudCover, iconPaths)
  {
    var daily := AggregateHourly(hourly);
    var t := template;
    for i := 0 to 3
      invariant FillFrom(t, days, i, daily, cloudCover, iconPaths) ==
                FilledTemplate(template, days, hourly, cloudCover, iconPaths)
    {
      if i >= |days| {
        return None;
      }
      var t0 := t;
      var day := days[i];
      var dayNum := i + 1;
      if day.date !in daily || day.date !in cloudCover {
        return None;
      }
      var agg, cc := daily[day.date], cloudCover[day.date];
      t := ReplaceSeq(t, ValuePairs(dayNum, day, agg, cc));
      var icon := GetWeatherIcon(day.weatherCode);
      t := ReplaceAll(t, IconKey(dayNum), icon);
      if icon !in iconPaths {
        return None;
      }
      t := ReplaceIconPaths(t, dayNum, iconPaths[icon]);
      t := ReplaceSeq(t, ColourPairs(dayNum, day, agg, cc));
      assert FillDay(t0, dayNum, day, daily, cloudCover, iconPaths) == Some(t);
    }
    result := Some(t);
  }
}
