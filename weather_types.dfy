/**
  The records of the weather payload, the closed set of icon tags and the
  Sunday-first weekday table that the widget renders from (src/utils.ts).
  Temperatures are `real`: the widget only compares and floors them.
*/
module WeatherTypes {
  import opened Wrappers

  /** One hourly entry of a forecast day; `datetime` is its "HH:MM:SS" time. */
  datatype Hours = Hours(icon: string, temp: real, datetime: string)

  /** One forecast day; `datetime` is its "YYYY-MM-DD" date, `hours` its hourly entries. */
  datatype Days = Days(
    conditions: string,
    datetime: string,
    tempmin: real,
    tempmax: real,
    icon: string,
    hours: seq<Hours>)

  datatype CurrentCondition = CurrentCondition(icon: string, temp: real)

  /** The payload: the forecast days (today first), the current conditions and the IANA zone. */
  datatype Weather = Weather(days: seq<Days>, currentConditions: CurrentCondition, timezone: string)

  /** The nine icon tags the widget recognises, in the order the enumeration declares them. */
  datatype WeatherIcon =
    | Rain | Snow | Fog | Wind | Cloudy
    | ClearDay | ClearNight | PartlyCloudyDay | PartlyCloudyNight

  /** The string value of each enumeration member. */
  function Tag(icon: WeatherIcon): string
  {
    match icon
    case Rain => "rain"
    case Snow => "snow"
    case Fog => "fog"
    case Wind => "wind"
    case Cloudy => "cloudy"
    case ClearDay => "clear-day"
    case ClearNight => "clear-night"
    case PartlyCloudyDay => "partly-cloudy-day"
    case PartlyCloudyNight => "partly-cloudy-night"
  }

  const AllIcons: seq<WeatherIcon> :=
    [Rain, Snow, Fog, Wind, Cloudy, ClearDay, ClearNight, PartlyCloudyDay, PartlyCloudyNight]

  /** The enumeration has exactly nine members, each listed once, with pairwise distinct values. */
  lemma EnumerationIsClosed(icon: WeatherIcon)
    ensures |AllIcons| == 9 && icon in AllIcons
    ensures forall i, j :: 0 <= i < j < |AllIcons| ==> AllIcons[i] != AllIcons[j]
    ensures forall i, j :: 0 <= i < j < |AllIcons| ==> Tag(AllIcons[i]) != Tag(AllIcons[j])
  {
  }

  /** Distinct members have distinct values, so a value names at most one member. */
  lemma TagInjective(a: WeatherIcon, b: WeatherIcon)
    ensures Tag(a) == Tag(b) ==> a == b
  {
  }

  /**
    Recognising a raw tag string: it is a member exactly when it equals one of
    the nine values (a `switch` over the enumeration).
  */
  function ParseIcon(tag: string): (r: Option<WeatherIcon>)
    ensures r.Some? ==> Tag(r.value) == tag
    ensures r.None? <==> forall icon :: Tag(icon) != tag
  {
    if tag == "rain" then Some(Rain)
    else if tag == "snow" then Some(Snow)
    else if tag == "fog" then Some(Fog)
    else if tag == "wind" then Some(Wind)
    else if tag == "cloudy" then Some(Cloudy)
    else if tag == "clear-day" then Some(ClearDay)
    else if tag == "clear-night" then Some(ClearNight)
    else if tag == "partly-cloudy-day" then Some(PartlyCloudyDay)
    else if tag == "partly-cloudy-night" then Some(PartlyCloudyNight)
    else None
  }

  /** Parsing a member's own value gives that member back. */
  lemma ParseTag(icon: WeatherIcon)
    ensures ParseIcon(Tag(icon)) == Some(icon)
  {
  }

  /** Weekday names indexed by day of week, 0 = Sunday. */
  const DaysOfWeek: seq<string> :=
    ["Sunday", "Monday", "Tuesday", "Wednesday", "Thursday", "Friday", "Saturday"]

  lemma DaysOfWeekTable()
    ensures |DaysOfWeek| == 7
    ensures DaysOfWeek[0] == "Sunday" && DaysOfWeek[1] == "Monday" && DaysOfWeek[6] == "Saturday"
    ensures forall i, j :: 0 <= i < j < 7 ==> DaysOfWeek[i] != DaysOfWeek[j]
  {
  }
}
