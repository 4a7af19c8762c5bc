/**
  The values `setWeather` writes into the widget: icon images (`setIcon`,
  src/main.ts:107-146), the background gradient (`setBackground`,
  src/main.ts:148-175), temperature, time, city and weekday texts.
*/
module Display {
  import opened Wrappers
  import opened WeatherTypes
  import opened Decimal
  import opened Calendar
  import Forecast

  // ---------------------------------------------------------------- icons

  /** The state of an image element the widget writes: its `src` and `alt`. */
  datatype Image = Image(src: string, alt: string)

  /** The asset and alternative text `setIcon` assigns for each recognised tag. */
  function IconAsset(icon: WeatherIcon): (img: Image)
    ensures |img.src| > 11 && img.src[..7] == "/icons/"
    ensures img.alt != ""
  {
    match icon
    case ClearDay => Image("/icons/clear-day.png", "clear-day")
    case Cloudy => Image("/icons/cloudy.png", "cloudy")
    case Fog => Image("/icons/fog.png", "fog")
    case ClearNight => Image("/icons/clear-night.png", "clear-night")
    case Rain => Image("/icons/rain.png", "rain")
    case Snow => Image("/icons/snow.png", "snow")
    case Wind => Image("/icons/wind.png", "wind")
    case PartlyCloudyDay => Image("/icons/cloudy-day.png", "cloudy day")
    case PartlyCloudyNight => Image("/icons/cloudy-night.png", "cloudy night")
  }

  /** Every member has its own non-empty asset path and a non-empty alternative text. */
  lemma IconAssetsDistinct(a: WeatherIcon, b: WeatherIcon)
    ensures IconAsset(a).src != "" && IconAsset(a).alt != ""
    ensures a != b ==> IconAsset(a).src != IconAsset(b).src && IconAsset(a).alt != IconAsset(b).alt
  {
  }

  /**
    The image after `setIcon(tag, img)`: a recognised tag replaces both `src`
    and `alt` with its asset; any other tag leaves the image as it was.
  */
  function ApplyIcon(tag: string, img: Image): (r: Image)
    ensures ParseIcon(tag).Some? ==> |r.src| > 11 && r.src[..7] == "/icons/" && r.alt != ""
    ensures ParseIcon(tag).None? ==> r == img
  {
    match ParseIcon(tag)
    case Some(icon) => IconAsset(icon)
    case None => img
  }

  /** A recognised tag shows its own asset; an unrecognised one leaves the image untouched. */
  lemma ApplyIconSpec(tag: string, img: Image)
    ensures (forall icon :: Tag(icon) != tag) ==> ApplyIcon(tag, img) == img
    ensures forall icon :: Tag(icon) == tag ==> ApplyIcon(tag, img) == IconAsset(icon)
  {
  }

  /** A recognised tag decides the image alone: what the image showed before does not matter. */
  lemma ApplyIconOverwrites(tag: string, before: Image, other: Image)
    requires ParseIcon(tag).Some?
    ensures ApplyIcon(tag, before) == ApplyIcon(tag, other)
    ensures ApplyIcon(tag, ApplyIcon(tag, before)) == ApplyIcon(tag, before)
  {
  }

  /** The nine recognised tags give nine different images, so the image tells the tag. */
  lemma ApplyIconInjective(t: string, u: string, img: Image)
    requires ParseIcon(t).Some? && ParseIcon(u).Some?
    ensures ApplyIcon(t, img) == ApplyIcon(u, img) ==> t == u
  {
    var a, b := ParseIcon(t).value, ParseIcon(u).value;
    IconAssetsDistinct(a, b);
  }

  // ----------------------------------------------------------- background

  /** The six temperature ranges, coldest first. */
  datatype Band = Freezing | Cold | Mild | Warm | Hot | Scorching

  function BandIndex(b: Band): nat
  {
    match b
    case Freezing => 0
    case Cold => 1
    case Mild => 2
    case Warm => 3
    case Hot => 4
    case Scorching => 5
  }

  /** The `switch (true)` of `setBackground`: the first case whose range holds the temperature. */
  function BandOf(temp: real): (b: Band)
    ensures BandIndex(b) == 0 <==> temp <= 0.0
    ensures BandIndex(b) == 5 <==> temp > 40.0
    ensures 0 < BandIndex(b) < 5 ==> 10.0 * (BandIndex(b) - 1) as real < temp <= 10.0 * BandIndex(b) as real
  {
    if temp <= 0.0 then Freezing
    else if temp > 0.0 && temp <= 10.0 then Cold
    else if temp > 10.0 && temp <= 20.0 then Mild
    else if temp > 20.0 && temp <= 30.0 then Warm
    else if temp > 30.0 && temp <= 40.0 then Hot
    else assert temp > 40.0; Scorching
  }

  /** The background of each band: a 135-degree CSS linear gradient between two colours. */
  function Gradient(b: Band): (g: string)
    ensures |g| > 16 && g[..16] == "linear-gradient("
  {
    match b
    case Freezing => "linear-gradient(135deg, #d7e8f7, #6c849e)"
    case Cold => "linear-gradient(135deg, #b6d7e4, #8aaea3)"
    case Mild => "linear-gradient(135deg, #d3f6db, #90c9b2)"
    case Warm => "linear-gradient(135deg, #f9e4b7, #f3c395)"
    case Hot => "linear-gradient(135deg, #f9c5b6, #e88d8f)"
    case Scorching => "linear-gradient(135deg, #f8ad6d, #e76a4f)"
  }

  /** The range boundaries, each the inclusive upper end of the range below it. */
  const Boundaries: seq<real> := [0.0, 10.0, 20.0, 30.0, 40.0]

  /** How many of the boundaries lie strictly below t. */
  function CountBelow(bs: seq<real>, t: real): (n: nat)
    ensures n <= |bs|
  {
    if bs == [] then 0 else (if bs[0] < t then 1 else 0) + CountBelow(bs[1..], t)
  }

  /**
    The band is the lookup of the temperature in the sorted boundaries: its
    index is the number of boundaries strictly below the temperature, so a
    temperature equal to a boundary falls in the lower band.
  */
  lemma BandIsBoundaryCount(temp: real)
    ensures BandIndex(BandOf(temp)) == CountBelow(Boundaries, temp)
  {
    var c4 := CountBelow([40.0], temp);
    assert c4 == if 40.0 < temp then 1 else 0 by { assert [40.0][1..] == []; }
    var c3 := CountBelow([30.0, 40.0], temp);
    assert c3 == (if 30.0 < temp then 1 else 0) + c4 by { assert [30.0, 40.0][1..] == [40.0]; }
    var c2 := CountBelow([20.0, 30.0, 40.0], temp);
    assert c2 == (if 20.0 < temp then 1 else 0) + c3 by { assert [20.0, 30.0, 40.0][1..] == [30.0, 40.0]; }
    var c1 := CountBelow([10.0, 20.0, 30.0, 40.0], temp);
    assert c1 == (if 10.0 < temp then 1 else 0) + c2 by { assert Boundaries[1..][1..] == [20.0, 30.0, 40.0]; }
    assert CountBelow(Boundaries, temp) == (if 0.0 < temp then 1 else 0) + c1 by {
      assert Boundaries[1..] == [10.0, 20.0, 30.0, 40.0];
    }
  }

  /** Warmer never picks a colder band. */
  lemma BandMonotone(t: real, u: real)
    requires t <= u
    ensures BandIndex(BandOf(t)) <= BandIndex(BandOf(u))
  {
  }

  /** The six gradients are pairwise different, so each band has its own background. */
  lemma GradientsDistinct(a: Band, b: Band)
    ensures a != b ==> Gradient(a) != Gradient(b)
  {
  }

  lemma BandExamples()
    ensures BandOf(0.0) == Freezing && BandOf(-5.0) == Freezing
    ensures BandOf(10.0) == Cold && BandOf(10.5) == Mild
    ensures BandOf(40.0) == Hot && BandOf(41.0) == Scorching
  {
  }

  // ---------------------------------------------------------- temperatures

  /** The degree sign and C after the current and hourly temperatures. */
  const Celsius: string := "\U{B0}C"

  /** `Math.floor(temp).toString() + "°C"`. */
  function TempText(temp: real): (s: string)
    ensures |s| >= 3 && s[|s| - 2] == Celsius[0] && s[|s| - 1] == Celsius[1]
    ensures s[0] == '-' <==> temp < 0.0
  {
    IntToDecimal(temp.Floor) + Celsius
  }

  /** `Math.floor(temp).toString()`, the bare form of the weekly minimum and maximum. */
  function BareTempText(temp: real): (s: string)
    ensures |s| >= 1
    ensures s[0] == '-' <==> temp < 0.0
  {
    IntToDecimal(temp.Floor)
  }

  /** Reading a displayed temperature back: the integer before the "°C" suffix. */
  function ParseTempText(s: string): Option<int>
  {
    if |s| >= 2 && s[|s| - 2..] == Celsius then ParseInt(s[..|s| - 2]) else None
  }

  /** The shown text is exactly the floor of the temperature (rounded down, not to nearest). */
  lemma TempTextShowsFloor(temp: real)
    ensures ParseTempText(TempText(temp)) == Some(temp.Floor)
    ensures ParseInt(BareTempText(temp)) == Some(temp.Floor)
  {
    var s := TempText(temp);
    IntRoundTrip(temp.Floor);
    assert s[..|s| - 2] == IntToDecimal(temp.Floor);
  }

  /** Two temperatures show the same text exactly when they have the same floor. */
  lemma TempTextSameIffSameFloor(t: real, u: real)
    ensures TempText(t) == TempText(u) <==> t.Floor == u.Floor
  {
    TempTextShowsFloor(t);
    TempTextShowsFloor(u);
  }

  lemma TempTextExamples()
    ensures TempText(21.9) == "21\U{B0}C"
    ensures TempText(-0.5) == "-1\U{B0}C"
    ensures BareTempText(7.0) == "7"
  {
    assert (21.9).Floor == 21;
    assert NatToDecimal(21) == "21";
    assert (-0.5).Floor == -1;
    assert IntToDecimal(-1) == "-1";
  }

  // ---------------------------------------------------------------- labels

  /** The time label of hourly slot `index`: "now" for the first, else the first five characters. */
  function TimeLabel(index: nat, hour: Hours): (text: string)
    ensures index == 0 ==> text == "now"
    ensures index > 0 ==> |text| == Forecast.Min(5, |hour.datetime|)
    ensures index > 0 ==> forall i :: 0 <= i < |text| ==> text[i] == hour.datetime[i]
  {
    if index == 0 then "now" else Forecast.Slice(hour.datetime, 0, 5)
  }

  /** Slot 0 says "now" whatever its time; any other slot shows its own "HH:MM". */
  lemma TimeLabelShows(index: nat, hour: Hours)
    ensures index == 0 ==> TimeLabel(index, hour) == "now"
    ensures index > 0 && |hour.datetime| >= 5 ==> TimeLabel(index, hour) == hour.datetime[..5]
    ensures index > 0 && |hour.datetime| < 5 ==> TimeLabel(index, hour) == hour.datetime
  {
  }

  /** `s.split(sep)`: the pieces between separators, empty pieces included. */
  function SplitOn(s: string, sep: char): (parts: seq<string>)
    ensures |parts| >= 1
    ensures forall i :: 0 <= i < |parts| ==> sep !in parts[i]
  {
    if s == [] then [""]
    else
      var rest := SplitOn(s[1..], sep);
      if s[0] == sep then [""] + rest else [[s[0]] + rest[0]] + rest[1..]
  }

  /** `parts.join(sep)`. */
  function Join(parts: seq<string>, sep: char): string
    requires |parts| >= 1
  {
    if |parts| == 1 then parts[0] else parts[0] + [sep] + Join(parts[1..], sep)
  }

  /** Splitting loses nothing: joining the pieces with the separator gives the text back. */
  lemma {:induction false} SplitThenJoin(s: string, sep: char)
    ensures Join(SplitOn(s, sep), sep) == s
  {
    if s != [] {
      var rest := SplitOn(s[1..], sep);
      SplitThenJoin(s[1..], sep);
      if s[0] != sep {
        if |rest| == 1 {
          assert SplitOn(s, sep) == [[s[0]] + rest[0]];
        } else {
          var parts := SplitOn(s, sep);
          assert parts[1..] == rest[1..];
          assert Join(parts, sep) == [s[0]] + (rest[0] + [sep] + Join(rest[1..], sep));
        }
      }
    }
  }

  /** A text without the separator is one piece. */
  lemma {:induction false} SplitNoSeparator(s: string, sep: char)
    requires sep !in s
    ensures SplitOn(s, sep) == [s]
  {
    if s != [] {
      SplitNoSeparator(s[1..], sep);
      assert [s[0]] + s[1..] == s;
    }
  }

  /** A leading piece without the separator splits off as the first piece. */
  lemma {:induction false} SplitFirstPiece(a: string, sep: char, t: string)
    requires sep !in a
    ensures SplitOn(a + [sep] + t, sep) == [a] + SplitOn(t, sep)
  {
    if a != [] {
      SplitFirstPiece(a[1..], sep, t);
      assert (a + [sep] + t)[1..] == a[1..] + [sep] + t;
      assert [a[0]] + a[1..] == a;
    } else {
      assert (a + [sep] + t)[1..] == t;
    }
  }

  /** The second "/"-piece of the time zone name, or "undefined" when there is none. */
  function ZoneSegment(timezone: string): string
  {
    var parts := SplitOn(timezone, '/');
    if |parts| > 1 then parts[1] else "undefined"
  }

  /** The city label `in ${timezone.split("/")[1]} is`. */
  function CityLabel(timezone: string): (c: string)
    ensures |c| >= 6 && c[..3] == "in " && c[|c| - 3..] == " is"
    ensures '/' !in c[3..|c| - 3]
  {
    var z := ZoneSegment(timezone);
    assert ("in " + z + " is")[3..|z| + 3] == z;
    "in " + z + " is"
  }

  /**
    For "Region/City", and for "Region/City/More", the label names City; a
    zone name without "/" yields "in undefined is".
  */
  lemma CityLabelShows(region: string, city: string, more: string)
    requires '/' !in region && '/' !in city
    ensures CityLabel(region + "/" + city) == "in " + city + " is"
    ensures CityLabel(region + "/" + city + "/" + more) == "in " + city + " is"
    ensures CityLabel(region) == "in undefined is"
  {
    assert ZoneSegment(region + "/" + city) == city by {
      SplitFirstPiece(region, '/', city);
      SplitNoSeparator(city, '/');
      assert region + "/" + city == region + ['/'] + city;
    }
    assert ZoneSegment(region + "/" + city + "/" + more) == city by {
      SplitFirstPiece(region, '/', city + "/" + more);
      SplitFirstPiece(city, '/', more);
      assert region + "/" + city + "/" + more == region + ['/'] + (city + ['/'] + more);
    }
    assert ZoneSegment(region) == "undefined" by {
      SplitNoSeparator(region, '/');
    }
  }

  /**
    The weekday name of a forecast date: the name of the date's weekday, or,
    for text that is not a valid "YYYY-MM-DD" date (an Invalid Date, whose
    weekday index is NaN), the empty text that assigning `undefined` leaves.
  */
  function WeekdayLabel(date: string): (name: string)
    ensures name == "" || name in DaysOfWeek
    ensures name == "" <==> ParseIsoDate(date).None?
  {
    match ParseIsoDate(date)
    case Some(d) => DaysOfWeek[Weekday(d)]
    case None => ""
  }

  /**
    A valid date is labelled with its weekday's name, one of the seven;
    anything else gets the empty text.
  */
  lemma WeekdayLabelSpec(date: string)
    ensures ParseIsoDate(date).Some? ==> WeekdayLabel(date) == DaysOfWeek[Weekday(ParseIsoDate(date).value)]
    ensures ParseIsoDate(date).None? ==> WeekdayLabel(date) == ""
    ensures WeekdayLabel(date) in DaysOfWeek <==> ParseIsoDate(date).Some?
  {
    DaysOfWeekTable();
  }

  /** Consecutive forecast dates get consecutive weekday names. */
  lemma WeekdayLabelNext(d: Date)
    requires ValidDate(d) && d.year < 10000 && NextDay(d).year < 10000
    ensures WeekdayLabel(FormatIsoDate(NextDay(d))) == DaysOfWeek[(Weekday(d) + 1) % 7]
  {
    FormatThenParse(d);
    FormatThenParse(NextDay(d));
    WeekdayNext(d);
  }

  /** The weekday name as the code computes it, on a host `offsetMinutes` ahead of UTC. */
  function WeekdayLabelAsWritten(date: string, offsetMinutes: int): (name: string)
    ensures name == "" || name in DaysOfWeek
    ensures name == "" <==> ParseIsoDate(date).None?
  {
    match ParseIsoDate(date)
    case Some(d) => DaysOfWeek[LocalWeekdayAsWritten(d, offsetMinutes)]
    case None => ""
  }

  /** West of UTC every valid date is labelled with the previous day's name. */
  lemma WeekdayLabelWestOfUtc(date: string, offsetMinutes: int)
    requires ParseIsoDate(date).Some? && -1440 < offsetMinutes < 0
    ensures WeekdayLabelAsWritten(date, offsetMinutes) != WeekdayLabel(date)
    ensures WeekdayLabelAsWritten(date, offsetMinutes)
      == DaysOfWeek[(Weekday(ParseIsoDate(date).value) + 6) % 7]
  {
    var d := ParseIsoDate(date).value;
    LocalWeekdayWestOfUtc(d, offsetMinutes);
    DaysOfWeekTable();
  }

  /** East of UTC, or on it, the code's label is the right one. */
  lemma WeekdayLabelEastOfUtc(date: string, offsetMinutes: int)
    requires 0 <= offsetMinutes < 1440
    ensures WeekdayLabelAsWritten(date, offsetMinutes) == WeekdayLabel(date)
  {
    if ParseIsoDate(date).Some? {
      LocalWeekdayEastOfUtc(ParseIsoDate(date).value, offsetMinutes);
    }
  }

  lemma NewYear2024Parses()
    ensures ParseIsoDate("2024-01-01") == Some(Date(2024, 1, 1))
  {
    var d := Date(2024, 1, 1);
    assert FixedDigits(2024, 4) == "2024";
    assert FixedDigits(1, 2) == "01";
    assert FormatIsoDate(d) == "2024-01-01";
    FormatThenParse(d);
  }

  lemma NewYear2024IsMonday()
    ensures Weekday(Date(2024, 1, 1)) == 1
  {
    assert DayNumber(Date(2024, 1, 1)) == 19723;
  }

  /** 2024-01-01 was a Monday; at UTC-5 the code labels it "Sunday". */
  lemma WeekdayLabelCounterexample()
    ensures WeekdayLabel("2024-01-01") == "Monday"
    ensures WeekdayLabelAsWritten("2024-01-01", -300) == "Sunday"
  {
    NewYear2024Parses();
    NewYear2024IsMonday();
    WeekdayLabelWestOfUtc("2024-01-01", -300);
  }
}
