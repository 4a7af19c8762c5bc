/**
  The widget's render step (`WeatherWidget.setWeather`, src/main.ts:177-249)
  over a UI port: the text fields, images and visibility flags it writes,
  with the hourly slots, weekday cards and min/max pairs as fixed arrays
  whose size the page layout decides.
*/
module Widget {
  import opened Wrappers
  import opened WeatherTypes
  import opened Decimal
  import opened Display
  import Forecast

  /** One hourly slot: its time text, its temperature text and its icon. */
  datatype HourSlot = HourSlot(time: string, temperature: string, icon: Image)

  /** One weekday card: the weekday name and the weather badge. */
  datatype DayCard = DayCard(name: string, badge: Image)

  /** The minimum and maximum texts under a weekday card. */
  datatype MinMax = MinMax(min: string, max: string)

  /** Hourly slot `index` after it shows `hour`; its icon keeps its image for an unknown tag. */
  function RenderHour(index: nat, hour: Hours, slot: HourSlot): (r: HourSlot)
    ensures index == 0 ==> r.time == "now"
    ensures index > 0 ==> |r.time| == Forecast.Min(5, |hour.datetime|)
    ensures |r.temperature| >= 3 && (r.temperature[0] == '-' <==> hour.temp < 0.0)
    ensures ParseIcon(hour.icon).None? ==> r.icon == slot.icon
  {
    HourSlot(TimeLabel(index, hour), TempText(hour.temp), ApplyIcon(hour.icon, slot.icon))
  }

  /** A weekday card after it shows `day`. */
  function RenderCard(day: Days, card: DayCard): (r: DayCard)
    ensures r.name == "" || r.name in DaysOfWeek
    ensures r.name == "" <==> Calendar.ParseIsoDate(day.datetime).None?
    ensures ParseIcon(day.icon).None? ==> r.badge == card.badge
  {
    DayCard(WeekdayLabel(day.datetime), ApplyIcon(day.icon, card.badge))
  }

  /** A min/max pair after it shows `day`: bare floored numbers, no unit. */
  function RenderMinMax(day: Days): (r: MinMax)
    ensures r.min != "" && r.max != ""
    ensures r.min[0] == '-' <==> day.tempmin < 0.0
    ensures r.max[0] == '-' <==> day.tempmax < 0.0
  {
    MinMax(BareTempText(day.tempmin), BareTempText(day.tempmax))
  }

  /**
    Hourly slot k of a full window shows the forecast for `time + k` hours
    after today's midnight: "now" in slot 0, that entry's "HH:MM" elsewhere,
    whichever day the entry comes from, and the floor of its temperature.
  */
  lemma HourlySlotShows(time: nat, days: seq<Days>, k: nat, slot: HourSlot)
    requires Forecast.FullDays(time, days) && k < 6
    ensures var hour := if time + k < 24 then days[0].hours[time + k] else days[1].hours[time + k - 24];
      var shown := RenderHour(k, Forecast.Window(time, days)[k], slot);
      && (k == 0 ==> shown.time == "now")
      && (k > 0 ==> shown.time == Forecast.Slice(hour.datetime, 0, 5))
      && ParseTempText(shown.temperature) == Some(hour.temp.Floor)
      && shown.icon == ApplyIcon(hour.icon, slot.icon)
  {
    Forecast.WindowIsConsecutive(time, days);
    var hour := if time + k < 24 then days[0].hours[time + k] else days[1].hours[time + k - 24];
    TempTextShowsFloor(hour.temp);
  }

  /**
    A weekday card depends on its own day only: its name is one of the seven
    weekday names exactly when the day's date is a valid date, and its
    minimum and maximum read back as the floors of that day's temperatures.
  */
  lemma CardShows(day: Days, card: DayCard)
    ensures RenderCard(day, card).name in DaysOfWeek <==> Calendar.ParseIsoDate(day.datetime).Some?
    ensures ParseInt(RenderMinMax(day).min) == Some(day.tempmin.Floor)
    ensures ParseInt(RenderMinMax(day).max) == Some(day.tempmax.Floor)
  {
    WeekdayLabelSpec(day.datetime);
    TempTextShowsFloor(day.tempmin);
    TempTextShowsFloor(day.tempmax);
  }

  /**
    The reference hour `fetchWeather` renders with: a non-empty hour text
    read as a number, otherwise the clock's current hour. None stands for a
    text that is not a plain digit string.
  */
  function ReferenceHour(time: Option<string>, clockHour: nat): (r: Option<nat>)
    ensures time.None? || time == Some("") ==> r == Some(clockHour)
    ensures r.None? <==> time.Some? && time.value != "" && !AllDigits(time.value)
    ensures time.Some? && time.value != "" && r.Some? ==> FixedDigits(r.value, |time.value|) == time.value
  {
    match time
    case Some(text) =>
      if text == "" then Some(clockHour)
      else if AllDigits(text) then DigitsAreFixed(text); ParseNat(text)
      else ParseNat(text)
    case None => Some(clockHour)
  }

  /** A zero-padded "HH" hour text chooses that hour; without one the clock's hour is used. */
  lemma ReferenceHourChoice(h: nat, clockHour: nat)
    requires h < 24
    ensures ReferenceHour(Some(FixedDigits(h, 2)), clockHour) == Some(h)
    ensures ReferenceHour(None, clockHour) == Some(clockHour)
    ensures ReferenceHour(Some(""), clockHour) == Some(clockHour)
  {
    FixedDigitsParse(h, 2);
  }

  /**
    `forEach` over a list of page elements: element k is set to what the
    callback makes of index k and the element as it was; the loop visits
    each element once, in order, and touches nothing else.
  */
  method ForEach<T>(elements: array<T>, render: (nat, T) -> T)
    modifies elements
    ensures forall k :: 0 <= k < elements.Length ==> elements[k] == render(k, old(elements[k]))
  {
    var i := 0;
    while i < elements.Length
      invariant 0 <= i <= elements.Length
      invariant forall k :: 0 <= k < i ==> elements[k] == render(k, old(elements[k]))
      invariant forall k :: i <= k < elements.Length ==> elements[k] == old(elements[k])
    {
      elements[i] := render(i, elements[i]);
      i := i + 1;
    }
  }

  /** The widget's UI port: every element `setWeather` writes to. */
  class WeatherWidget {
    var temperatureNow: string
    var background: string
    var cornerIcon: Image
    var cityName: string
    var description: string
    const hourly: array<HourSlot>
    const weekDays: array<DayCard>
    const minmax: array<MinMax>
    var spinnerHidden: bool
    var bodyHidden: bool

    /** The page before any weather arrives: blank slots, spinner showing, body hidden. */
    constructor (hourSlots: nat, dayCards: nat, minmaxSlots: nat)
      ensures fresh(hourly) && fresh(weekDays) && fresh(minmax)
      ensures hourly.Length == hourSlots && weekDays.Length == dayCards && minmax.Length == minmaxSlots
      ensures !spinnerHidden && bodyHidden
    {
      var blank := Image("", "");
      temperatureNow, background, cornerIcon, cityName, description := "", "", blank, "", "";
      hourly := new HourSlot[hourSlots](_ => HourSlot("", "", blank));
      weekDays := new DayCard[dayCards](_ => DayCard("", blank));
      minmax := new MinMax[minmaxSlots](_ => MinMax("", ""));
      spinnerHidden, bodyHidden := false, true;
    }

    /** `setBackground`: one gradient by temperature range; nothing else changes. */
    method SetBackground(temp: real)
      modifies this
      ensures background == Gradient(BandOf(temp))
      ensures temperatureNow == old(temperatureNow) && cornerIcon == old(cornerIcon)
      ensures cityName == old(cityName) && description == old(description)
      ensures spinnerHidden == old(spinnerHidden) && bodyHidden == old(bodyHidden)
    {
      if temp <= 0.0 {
        background := Gradient(Freezing);
      } else if temp > 0.0 && temp <= 10.0 {
        background := Gradient(Cold);
      } else if temp > 10.0 && temp <= 20.0 {
        background := Gradient(Mild);
      } else if temp > 20.0 && temp <= 30.0 {
        background := Gradient(Warm);
      } else if temp > 30.0 && temp <= 40.0 {
        background := Gradient(Hot);
      } else if temp > 40.0 {
        background := Gradient(Scorching);
      }
    }

    /**
      `setWeather`: renders the payload at reference hour `time`. The payload
      must hold what the render indexes: days[0]; days[1] when the window
      crosses midnight; a window entry per hourly slot; and days[i + 1] for
      every weekday card and min/max pair i.
    */
    method SetWeather(time: nat, data: Weather)
      requires |data.days| >= 1
      requires !Forecast.SameDay(time) ==> |data.days| >= 2
      requires hourly.Length <= |Forecast.Window(time, data.days)|
      requires weekDays.Length < |data.days| && minmax.Length < |data.days|
      modifies this, hourly, weekDays, minmax
      ensures temperatureNow == TempText(data.currentConditions.temp)
      ensures background == Gradient(BandOf(data.currentConditions.temp))
      ensures cornerIcon == ApplyIcon(data.days[0].icon, old(cornerIcon))
      ensures cityName == CityLabel(data.timezone)
      ensures description == data.days[0].conditions
      ensures forall k :: 0 <= k < hourly.Length ==>
        hourly[k] == RenderHour(k, Forecast.Window(time, data.days)[k], old(hourly[k]))
      ensures forall k :: 0 <= k < weekDays.Length ==>
        weekDays[k] == RenderCard(data.days[k + 1], old(weekDays[k]))
      ensures forall k :: 0 <= k < minmax.Length ==> minmax[k] == RenderMinMax(data.days[k + 1])
      ensures spinnerHidden && !bodyHidden
    {
      ShowCurrent(data);
      FillHourly(Forecast.Window(time, data.days));
      FillCards(data.days);
      FillMinMax(data.days);

      spinnerHidden := true;
      bodyHidden := false;
    }

    /** The summary at the top: current temperature, background, corner icon, city and description. */
    method ShowCurrent(data: Weather)
      requires |data.days| >= 1
      modifies this
      ensures temperatureNow == TempText(data.currentConditions.temp)
      ensures background == Gradient(BandOf(data.currentConditions.temp))
      ensures cornerIcon == ApplyIcon(data.days[0].icon, old(cornerIcon))
      ensures cityName == CityLabel(data.timezone)
      ensures description == data.days[0].conditions
      ensures spinnerHidden == old(spinnerHidden) && bodyHidden == old(bodyHidden)
    {
      temperatureNow := TempText(data.currentConditions.temp);
      SetBackground(data.currentConditions.temp);
      cornerIcon := ApplyIcon(data.days[0].icon, cornerIcon);
      cityName := CityLabel(data.timezone);
      description := data.days[0].conditions;
    }

    /** The hourly `forEach`: slot i shows window entry i; nothing outside the slots changes. */
    method FillHourly(hours: seq<Hours>)
      requires hourly.Length <= |hours|
      modifies hourly
      ensures forall k :: 0 <= k < hourly.Length ==> hourly[k] == RenderHour(k, hours[k], old(hourly[k]))
    {
      ForEach(hourly, (k: nat, slot: HourSlot) => if k < |hours| then RenderHour(k, hours[k], slot) else slot);
    }

    /** The weekday-card `forEach`: card i shows days[i + 1]. */
    method FillCards(days: seq<Days>)
      requires weekDays.Length < |days|
      modifies weekDays
      ensures forall k :: 0 <= k < weekDays.Length ==> weekDays[k] == RenderCard(days[k + 1], old(weekDays[k]))
    {
      ForEach(weekDays, (k: nat, card: DayCard) => if k + 1 < |days| then RenderCard(days[k + 1], card) else card);
    }

    /** The min/max `forEach`: pair i shows the floored extremes of days[i + 1]. */
    method FillMinMax(days: seq<Days>)
      requires minmax.Length < |days|
      modifies minmax
      ensures forall k :: 0 <= k < minmax.Length ==> minmax[k] == RenderMinMax(days[k + 1])
    {
      ForEach(minmax, (k: nat, pair: MinMax) => if k + 1 < |days| then RenderMinMax(days[k + 1]) else pair);
    }
  }
}
