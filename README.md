# Weather widget render step, modelled in Dafny

This project models the render step of a browser weather widget. `WeatherWidget.setWeather` takes a weather payload and a reference hour and fills a fixed page layout:

- the current temperature, floored, with a "°C" suffix;
- a background gradient chosen by temperature range;
- the corner icon, the city label and the description;
- a strip of hourly slots showing six consecutive hours from the reference hour, which may run past midnight into the next day;
- weekday cards with the weekday name and a weather badge;
- minimum and maximum temperatures for each forecast day after today;
- the spinner and widget-body visibility flags.

Modules, one per concern:

- `WeatherTypes` (`weather_types.dfy`) holds the payload records, the nine-member icon enumeration and the Sunday-first weekday table.
- `Decimal` (`decimal.dfy`) holds `toString` and `Number` on integers, and the zero-padded fields of "HH" and "YYYY-MM-DD".
- `Calendar` (`calendar.dfy`) turns a forecast's "YYYY-MM-DD" date into its day of week. It also gives what a host's local-time `getDay` yields for that date.
- `Forecast` (`forecast.dfy`) holds the six-hour window, built from `slice` with its clamping.
- `Display` (`display.dfy`) holds the icon table, the temperature bands and gradients, and the temperature, time, city and weekday texts.
- `Widget` (`widget.dfy`) is the UI port, a class with one field per text, image and flag. The hourly slots, weekday cards and min/max pairs are arrays whose lengths the page layout fixes. `ForEach` is `forEach` over such an array: one loop that sets each element from a callback. `SetWeather` calls it three times, once per list, as the source does. The module also holds the reference-hour choice of `fetchWeather`.

Three details of the code are easy to misread, and the model follows the code in each:

- The corner icon comes from `days[0].icon`, not from the current conditions' icon (src/main.ts:182).
- The city label uses the second "/"-piece of the zone name, not the last one. "America/Argentina/Buenos_Aires" therefore shows "in Argentina is", and a zone without "/" shows "in undefined is".
- The hourly window needs only `time - 18` entries of the second day, not 24.

## Model

| member | source | states |
|---|---|---|
| WeatherTypes.EnumerationIsClosed | src/utils.ts:32-42 | the icon enumeration has exactly nine members, and their string values are pairwise distinct |
| WeatherTypes.TagInjective | src/utils.ts:32-42 | two members with the same string value are the same member |
| WeatherTypes.ParseIcon | src/utils.ts:33-41 | a tag is recognised exactly when it equals one of the nine values, and then it yields the member with that value |
| WeatherTypes.ParseTag | src/utils.ts:32-42 | every member's own value is recognised as that member ("partly-cloudy-day", "clear-night" included) |
| WeatherTypes.DaysOfWeekTable | src/utils.ts:44-52 | the weekday table has 7 distinct names, with index 0 = "Sunday" and index 6 = "Saturday" |
| Decimal.NatToDecimal | src/main.ts:179 | the text of a non-negative integer is non-empty, all digits, with no leading zero |
| Decimal.IntToDecimal | src/main.ts:179 | the text of an integer starts with "-" exactly when the integer is negative |
| Decimal.ParseNat | src/main.ts:95 | the model's `Number` gives a value exactly for non-empty digit strings, the only form moment's "HH" hour text takes |
| Decimal.NatRoundTrip | src/main.ts:178-179 | reading back the decimal text of a natural number gives that number |
| Decimal.IntRoundTrip | src/main.ts:237-244 | reading back the decimal text of any integer gives that integer |
| Decimal.IntToDecimalInjective | src/main.ts:237-244 | distinct integers are written as distinct texts |
| Decimal.FixedDigitsRoundTrip | src/main.ts:65 | a zero-padded field of width w reads back as its value when the value is below 10^w |
| Decimal.DigitsAreFixed | src/main.ts:224 | a digit string is the zero-padded form of its own value at its own width |
| Decimal.FixedDigitsParse | src/main.ts:95 | `Number` of a zero-padded field gives back its value |
| Calendar.ParseIsoDate | src/main.ts:224 | a "YYYY-MM-DD" text that parses is a valid calendar date with a four-digit year |
| Calendar.ParseThenFormat | src/main.ts:224 | a text that parses as a date is exactly that date's "YYYY-MM-DD" form |
| Calendar.FormatThenParse | src/main.ts:224 | every valid date with a four-digit year is read back from its own "YYYY-MM-DD" text |
| Calendar.NextDay | src/main.ts:224-225 | the day after a valid date is a valid date |
| Calendar.EpochIsDayZero | src/main.ts:224-225 | the day count is 0 on 1970-01-01 |
| Calendar.DayNumberNext | src/main.ts:224-225 | the day count goes up by one from every date to the next, across month ends, year ends and leap days |
| Calendar.Weekday | src/main.ts:225 | a date's weekday index is in 0..6 |
| Calendar.WeekdayNext | src/main.ts:225 | the weekday index goes up by one, modulo 7, from every date to the next |
| Calendar.LocalWeekdayAsWritten | src/main.ts:224-225 | the weekday `getDay` reads for a date parsed as UTC midnight is in 0..6 |
| Calendar.LocalWeekdayEastOfUtc | src/main.ts:224-225 | on a host at or east of UTC, the local weekday of the parsed date is the date's own weekday |
| Calendar.LocalWeekdayWestOfUtc | src/main.ts:224-225 | on a host west of UTC, the local weekday is the previous one, never the date's own |
| Forecast.Slice | src/main.ts:191 | `slice` of in-range bounds is the subsequence, it is empty for an empty or out-of-range start, and an end past the length is clamped |
| Forecast.Window | src/main.ts:189-200 | for a reference hour 0..23 the window has at most six entries, and exactly six when day 0 has 24 hours and, from 19:00 on, day 1 has the `time - 18` hours it reads |
| Forecast.WindowSameDay | src/main.ts:190-191 | for reference hours 0..18 the window is `days[0].hours[time .. time+6)` verbatim |
| Forecast.WindowCrossesMidnight | src/main.ts:192-199 | for hours 19..23 the window is `days[0].hours[time..24)` followed by `days[1].hours[0 .. time-18)`, and it has 6 entries |
| Forecast.WindowAtElevenPm | src/main.ts:192-199 | at hour 23 the window is `[days[0].hours[23]]` followed by `days[1].hours[0..5)` |
| Forecast.WindowIsConsecutive | src/main.ts:189-200 | for every hour 0..23 the window is the six consecutive entries of the two-day timeline from that hour: entry k is hour time+k of day 0, or hour time+k-24 of day 1 |
| Forecast.WindowIgnoresLaterDays | src/main.ts:190-191 | before 19:00 the window depends on `days[0]` only |
| Display.IconAssetsDistinct | src/main.ts:107-146 | each of the nine icons has a non-empty asset path and alt text, and both differ from every other icon's |
| Display.IconAsset | src/main.ts:107-146 | every recognised icon's image has an asset path under "/icons/" and a non-empty alternative text |
| Display.ApplyIconSpec | src/main.ts:107-146 | a recognised tag sets the image to its asset, and any other tag leaves `src` and `alt` unchanged |
| Display.ApplyIconOverwrites | src/main.ts:107-146 | for a recognised tag the result does not depend on the previous image, and applying it twice equals applying it once |
| Display.ApplyIconInjective | src/main.ts:107-146 | two recognised tags that give the same image are the same tag |
| Display.ApplyIcon | src/main.ts:107-146 | a recognised tag puts an "/icons/" asset with a non-empty alternative text into the image; any other tag leaves the image exactly as it was |
| Display.BandIsBoundaryCount | src/main.ts:148-175 | the chosen band's index is the number of boundaries 0/10/20/30/40 strictly below the temperature, so the six ranges are disjoint and exhaustive and each includes its upper bound |
| Display.BandMonotone | src/main.ts:148-175 | a warmer temperature never picks a colder band |
| Display.GradientsDistinct | src/main.ts:151-172 | the six gradients are pairwise distinct |
| Display.BandExamples | src/main.ts:150-171 | 0 and -5 give the first band, 10 the second, 10.5 the third, 40 the fifth and 41 the sixth |
| Display.BandOf | src/main.ts:148-175 | the first band holds exactly the temperatures up to 0, the last exactly those above 40, and band i between them holds the range (10(i-1), 10i] |
| Display.Gradient | src/main.ts:151-172 | every band's background is a CSS `linear-gradient(` value |
| Display.TempTextShowsFloor | src/main.ts:178-179 | the shown temperature reads back as the floor of the temperature, with or without the "°C" suffix |
| Display.TempTextSameIffSameFloor | src/main.ts:212-213 | two temperatures show the same text exactly when their floors are equal |
| Display.TempTextExamples | src/main.ts:178-179 | 21.9 shows "21°C", -0.5 shows "-1°C" and 7.0 shows "7": values are floored, not rounded |
| Display.TempText | src/main.ts:178-179 | the temperature text ends in the two characters of "°C" and starts with "-" exactly when the temperature is below zero |
| Display.BareTempText | src/main.ts:237-244 | the min/max text is non-empty and starts with "-" exactly when the temperature is below zero |
| Display.TimeLabelShows | src/main.ts:215-219 | slot 0 is labelled "now" whatever its time; any other slot shows the first 5 characters of its own `datetime` |
| Display.TimeLabel | src/main.ts:215-219 | slot 0 says "now"; any other slot's text is the first min(5, length) characters of its `datetime` |
| Display.SplitOn | src/main.ts:184 | `split` yields at least one piece, and no piece contains the separator |
| Display.SplitThenJoin | src/main.ts:184 | joining the pieces with the separator gives back the original text |
| Display.SplitNoSeparator | src/main.ts:184 | a text without the separator splits into itself alone |
| Display.SplitFirstPiece | src/main.ts:184 | a leading separator-free piece splits off first |
| Display.CityLabelShows | src/main.ts:184 | "Region/City" and "Region/City/More" give "in City is", and a zone name without "/" gives "in undefined is" |
| Display.CityLabel | src/main.ts:184 | the city label starts with "in " and ends with " is", and the part between holds no "/" |
| Display.WeekdayLabelSpec | src/main.ts:224-229 | a card label is the name of the forecast date's weekday, so it is one of the seven names exactly when the date is valid; an invalid date gives the empty text |
| Display.WeekdayLabelNext | src/main.ts:223-229 | consecutive forecast dates get consecutive weekday names |
| Display.WeekdayLabel | src/main.ts:224-226 | the corrected label is one of the seven weekday names or empty, and it is empty exactly when the date does not parse |
| Display.WeekdayLabelWestOfUtc | src/main.ts:224-226 | west of UTC the code's label for every valid date is the previous weekday's name, never the right one |
| Display.WeekdayLabelEastOfUtc | src/main.ts:224-226 | at or east of UTC the code's label equals the date's weekday name |
| Display.WeekdayLabelCounterexample | src/main.ts:224-226 | "2024-01-01" is a Monday, but the code labels it "Sunday" on a host at UTC-5 |
| Display.WeekdayLabelAsWritten | src/main.ts:224-226 | the code's label is one of the seven weekday names or empty, and it is empty exactly when the date does not parse |
| Widget.HourlySlotShows | src/main.ts:203-220 | hourly slot k shows the forecast for time+k hours after today's midnight: "now" or that entry's "HH:MM", the floor of its temperature, and its icon |
| Widget.CardShows | src/main.ts:223-245 | a card's name is a weekday name exactly when its day's date is valid, and its min/max texts read back as the floors of that day's `tempmin` and `tempmax` |
| Widget.RenderHour | src/main.ts:203-220 | slot 0's time is "now" and any other slot's time has min(5, length of `datetime`) characters; the temperature text starts with "-" exactly below zero; an unrecognised icon tag leaves the slot's image as it was |
| Widget.RenderCard | src/main.ts:223-233 | the card name is one of the seven weekday names or empty, and empty exactly when the date does not parse; an unrecognised icon tag leaves the badge as it was |
| Widget.RenderMinMax | src/main.ts:236-245 | both texts are non-empty and start with "-" exactly when that temperature is below zero |
| Widget.ReferenceHourChoice | src/main.ts:94-98 | a zero-padded "HH" hour text selects that hour; with no text, or an empty one, the clock's hour is used |
| Widget.ReferenceHour | src/main.ts:94-98 | with no hour text, or an empty one, the clock's hour is used; the result is None exactly for a non-empty text that is not all digits; otherwise the chosen hour, zero-padded to the text's width, gives back the text |
| Widget.ForEach | src/main.ts:203-245 | `forEach` sets every element k to the callback's result for k and that element's old value, and changes no other array |
| Widget.WeatherWidget.constructor | src/main.ts:16-32 | the page starts with the given slot counts, the spinner showing and the body hidden |
| Widget.WeatherWidget.SetBackground | src/main.ts:148-175 | the background becomes the gradient of the temperature's band, and no other field changes |
| Widget.WeatherWidget.ShowCurrent | src/main.ts:178-186 | sets the current temperature text, the background, the corner icon from `days[0].icon`, the city label and `days[0].conditions` as the description |
| Widget.WeatherWidget.FillHourly | src/main.ts:203-220 | hourly slot i shows window entry i, and its icon changes only for a recognised tag |
| Widget.WeatherWidget.FillCards | src/main.ts:223-233 | weekday card i shows `days[i+1]`'s weekday name and badge |
| Widget.WeatherWidget.FillMinMax | src/main.ts:236-245 | min/max pair i shows the bare floored `tempmin` and `tempmax` of `days[i+1]` |
| Widget.WeatherWidget.SetWeather | src/main.ts:177-249 | all slots together: the summary fields, slot k showing window entry k, card and min/max pair i reading only `days[i+1]` and never `days[0]` (the card name is the corrected weekday label; see Left out), then the spinner hidden and the body shown |

## Left out

- Geolocation, the `fetch` calls, URL construction and JSON decoding (src/main.ts:38-45, 56-59, 87-91) are left out. They are I/O against browser and HTTP services, so the payload is an input.
- The city-search flow `getCoordinatesFromUser` is left out (src/main.ts:47-72). It trims the input, ignores an empty query, reads `data[0]` of the geocoding reply and resolves the time zone through `tz-lookup` and `moment-timezone`. All of that is network I/O or foreign libraries. Its result, the "HH" hour text, is taken as an input to `ReferenceHour`.
- `getTime` reads the system clock (src/main.ts:102-105); the clock hour is a parameter.
- The `async` chains, the `try`/`catch` that swallows errors, and the event-listener wiring are left out. These are concurrency and browser plumbing.
- A malformed payload is left out: too few days, or too few hourly entries for the slots. The source then throws part-way through `setWeather`, and `fetchWeather`'s `catch` leaves a partly updated page. `SetWeather` instead requires a payload that covers every index it reads.
- DOM lookup (`querySelector`, `querySelectorAll`) is replaced by the class's fields and arrays. Images are values owned by their slot, so two slots sharing one DOM element (aliasing) is not captured.
- The `hidden` class toggles are modelled as two boolean flags.
- IEEE doubles are left out: temperatures are reals. So NaN is not modelled; in the source no `setBackground` case matches NaN, and the background is left unchanged. Negative zero, infinities, and the exponent notation `toString` uses for magnitudes of 1e21 and more are not modelled either.
- Decimal.ParseNat: `Number` is modelled only for plain digit strings, and every other text gives None; `Widget.ReferenceHour` inherits this. JavaScript's `Number` gives a value for "", " 7", "+7", "0x1F" or "1e1", and NaN for other text. None of these can come from moment's "HH" format.
- Widget.WeatherWidget.SetWeather: the weekday cards show the corrected label `Display.WeekdayLabel`, the forecast date's own weekday. The code shows these names only on hosts at or east of UTC (`Display.WeekdayLabelEastOfUtc`). West of UTC it shows the previous day's name (`Display.WeekdayLabelWestOfUtc`; see Findings).
- Calendar.ParseIsoDate: only the date-only form "YYYY-MM-DD" with a four-digit year is modelled. A month or day outside the calendar counts as an Invalid Date, though JavaScript engines differ on such input. Expanded years and date-time forms are not modelled.
- Calendar.LocalWeekdayAsWritten: the host's UTC offset is one number per call. Daylight-saving changes of the offset are not modelled.

## Findings

| source | as written | input that shows it | evidently intended | confidence | as-written member | corrected member |
|---|---|---|---|---|---|---|
| src/main.ts:224-225 | `new Date("YYYY-MM-DD")` reads a date-only text as UTC midnight, and `getDay()` then takes the weekday in the host's local time | the forecast date "2024-01-01" on a host at UTC-5 (offset -300 minutes) gives "Sunday"; any valid date gives the previous day's name on any host west of UTC | the card shows the forecast date's own weekday, "Monday" | not executed; follows from the date-only parsing rule of ECMAScript's Date.parse | Display.WeekdayLabelCounterexample | Display.WeekdayLabelNext |

`Display.WeekdayLabelAsWritten` models the code as written, and `Display.WeekdayLabelWestOfUtc` proves it wrong for every valid date west of UTC. `Display.WeekdayLabel` is the corrected label, and `Widget.WeatherWidget.SetWeather` uses it. `Display.WeekdayLabelSpec` and `Display.WeekdayLabelNext` prove that the corrected label is the date's own weekday name, advancing by one per day.
