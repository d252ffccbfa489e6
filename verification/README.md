# Liturgical calendar generator — a Dafny model

This project models the rule engine of a Roman Catholic liturgical calendar
generator. For a civil year the engine computes the year's anchor days:
Easter by the Gregorian computus, then Ash Wednesday, Pentecost, Advent,
Epiphany, the Baptism of the Lord and the Annunciation. It then walks each
liturgical season day by day. Each day it picks the rows of the season's
lectionary tables whose tags match the day: the week order, the weekday,
the Sunday cycle A/B/C and the weekday cycle I/II. Each picked row is
stamped with the day's weekday name and its `dd/MM/yyyy` date. Finally the
groups of all seasons are flattened, stably sorted by date, and rows with
an empty description get one from a renderer.

Two generations of the engine are modelled:

- the current one, `src/lib/gen-liturgical-calendar.ts`, whose
  `generateLiturgicalCalendar` resolves its options through the schema in
  `src/lib/schema.ts`;
- the older `lib/gen-liturgical-calendar.ts`, whose `generateCalendar` takes
  loose options, adds no descriptions, and uses partly different selection
  tags.

The seasonal arithmetic is shared. The selection tags of the two
generations are two instances, `Current` and `Legacy`, of one key table
(`Selection.KeySet`).

Modules:

- `Dates` is the proleptic Gregorian calendar.
  - Days are integer day numbers, with 1 January of year 1 as day 1, a Monday.
  - A verified conversion runs both ways between day numbers and
    (year, month, day).
  - It holds the date-fns primitives the engine uses: the weekday, the
    strict `next…`/`previous…` day, `eachDayOfInterval` and
    `eachWeekOfInterval`.
- `DateFormat` and `Text` hold the `dd/MM/yyyy`, `dd/MM` and weekday-name
  formats with their parsers, and the `+tag === n` numeric comparison.
- `Anchors` holds the computus and every anchor day, each with its
  placement proved.
- `Walk` holds the week-order counter that every seasonal walk threads
  through its days, with a closed form for it.
- `Selection` holds row selection by tag predicates, the year cycles, and
  the dating of the picked rows.
- The seasons:
  - `AdventSeason`, `ChristmasSeason`, `OrdinaryTime`, `LentSeason` and
    `EasterSeason`, one generator each;
  - `Celebrations`, which holds the fixed-date celebrations, the
    Annunciation and the solemnities after Pentecost.
- `Schema` holds the JSON shape of a calendar row, and the options with
  their defaults.
- `Sorting` is the stable sort by a possibly missing date key.
- `Calendar` and `CalendarDates` are the two assemblers and their
  guarantees.

The lectionary tables are a parameter (`Selection.Tables`). So is the
loader that fetches them (`Calendar.Loader`, a function of locale and data
path), and so is the description renderer (`Calendar.Render`). The
reference year stands in for the wall clock that `parse(…, 'dd/MM', new
Date())` reads.

Where the engine's documented behaviour and its code differ, the model
follows the code:

- Sorted output is promised for every year. The order holds only when every
  date parses. The model proves it for years 2 to 9999, given that the
  additional-calendar rows carry well-formed dates.

## Model

| member | source | states |
|---|---|---|
| Anchors.EasterDate | src/lib/gen-liturgical-calendar.ts:37-56 | The computus of year y gives a valid date of year y between 22 March and 25 April. For the years 0 .. 99 the code as written dates it in 1900 + y instead (see Findings). |
| Anchors.EasterIsSunday | src/lib/gen-liturgical-calendar.ts:37-56 | The computus date of year y, kept in year y, always falls on a Sunday. The code as written moves the years 0 .. 99 to the 1900s, where it need not (see Findings). |
| Anchors.EasterWindow | src/lib/gen-liturgical-calendar.ts:37-56 | Easter falls between 22 March and 25 April of its year. |
| Anchors.JsEasterAgrees | src/lib/gen-liturgical-calendar.ts:37-56 | Outside the years 0 .. 99, the Easter the code builds with `new Date(y, m - 1, d)` is the model's Easter. |
| Anchors.JsEasterOfYear50 | src/lib/gen-liturgical-calendar.ts:55 | As written, year 50's computus date, Sunday 27 March of year 50, is built as 27 March 1950, a Monday. |
| Anchors.Easter | src/lib/gen-liturgical-calendar.ts:37-56 | Easter's day number; no contract of its own. Anchors.EasterIsSunday and Anchors.EasterWindow state its weekday and window. |
| Anchors.EasterKnownYears | src/lib/gen-liturgical-calendar.ts:37-56 | Easter 2024 is 31 March and Easter 2025 is 20 April. |
| Anchors.EasterOffsets | src/lib/gen-liturgical-calendar.ts:764-772 | Holy Thursday, Good Friday and the Vigil fall on Thursday, Friday and Saturday; Pentecost on a Sunday; Ascension on the 40th day, a Thursday. Ash Wednesday is Easter − 46, a Wednesday, and the Chrism Mass is Holy Thursday. |
| Anchors.Advent4IsLastSundayBeforeChristmas | src/lib/gen-liturgical-calendar.ts:117-122 | Advent 4 is a Sunday between 18 and 24 December with no Sunday after it up to 24 December. |
| Anchors.Advent4 | src/lib/gen-liturgical-calendar.ts:117-122 | Advent 4's day; no contract of its own. Anchors.Advent4IsLastSundayBeforeChristmas states its placement. |
| Anchors.Advent1Placement | src/lib/gen-liturgical-calendar.ts:124-126 | Advent 1, three weeks before Advent 4, is a Sunday between 27 November and 3 December. |
| Anchors.Advent1 | src/lib/gen-liturgical-calendar.ts:124-126 | Advent 1's day; no contract of its own. Anchors.Advent1Placement states its placement. |
| Anchors.EpiphanyPlacement | src/lib/gen-liturgical-calendar.ts:217-222 | Epiphany lies in 2..8 January. Without the 6-January option it is a Sunday with no Sunday between 1 January and it. |
| Anchors.Epiphany | src/lib/gen-liturgical-calendar.ts:217-222 | The Epiphany's day; no contract of its own. Anchors.EpiphanyPlacement states its placement. |
| Anchors.BaptismPlacement | src/lib/gen-liturgical-calendar.ts:328-335 | The Baptism is within the week after Epiphany, in 7..13 January, on a Sunday or a Monday. It is a Monday exactly when the option is off and Epiphany is 7 or 8 January. |
| Anchors.Baptism | src/lib/gen-liturgical-calendar.ts:328-335 | The Baptism's day; no contract of its own. Anchors.BaptismPlacement states its placement. |
| Anchors.HolyFamilyPlacement | lib/gen-liturgical-calendar.ts:264-282 | The Holy Family falls after Christmas and by 31 December. It is 30 December (a Friday) when Christmas is a Sunday, and a Sunday otherwise. |
| Anchors.HolyFamily | lib/gen-liturgical-calendar.ts:264-282 | The Holy Family's day; no contract of its own. Anchors.HolyFamilyPlacement states its placement. |
| Anchors.SecondSundayAfterChristmasPlacement | src/lib/gen-liturgical-calendar.ts:293-298 | The second Sunday after Christmas is kept only under the 6-January option, only as a Sunday in 2..5 January, and every such Sunday is kept. |
| Anchors.AnnunciationPlacement | src/lib/gen-liturgical-calendar.ts:1009-1028 | The Annunciation never falls on a Lenten Sunday nor within a week of Easter. It stays on 25 March unless moved to a Monday. Inside Easter ± 7 it is Easter + 8. |
| Anchors.AnnunciationDays | src/lib/gen-liturgical-calendar.ts:1009-1028 | The Annunciation is 25 March, 26 March or Easter + 8. |
| Anchors.Annunciation | src/lib/gen-liturgical-calendar.ts:1009-1028 | The Annunciation's day; no contract of its own. Anchors.AnnunciationPlacement and Anchors.AnnunciationDays state where it falls. |
| Anchors.PostPentecostOffsets | src/lib/gen-liturgical-calendar.ts:1062-1092 | Trinity Sunday is Pentecost + 7 and Corpus Christi Pentecost + 14, both Sundays. The Sacred Heart is Pentecost + 19, a Friday. |
| Dates.FromDayNumber | src/lib/gen-liturgical-calendar.ts:55 | Every day number denotes a valid calendar date whose day number it is. |
| Dates.FromDayNumberRoundTrip | src/lib/gen-liturgical-calendar.ts:55 | A valid date survives the trip to a day number and back. |
| Dates.DayNumberInjective | src/lib/gen-liturgical-calendar.ts:55 | Distinct valid dates have distinct day numbers. |
| Dates.EpochIsMonday | src/lib/gen-liturgical-calendar.ts:160 | Day 1 is 1 January of year 1 and a Monday, which fixes `getDay()` numbering with Sunday as 0. |
| Dates.NextDay | src/lib/gen-liturgical-calendar.ts:220 | `nextSunday` and its siblings give the first day strictly after the argument with the requested weekday, within 7 days. |
| Dates.PreviousDay | src/lib/gen-liturgical-calendar.ts:122 | `previousSunday` and its siblings give the last day strictly before the argument with the requested weekday, within 7 days. |
| Dates.EachDay | src/lib/gen-liturgical-calendar.ts:132-135 | The inclusive day range has one element per day, in order, and holds exactly the days between its ends. |
| Dates.EachWeekOfInterval | src/lib/gen-liturgical-calendar.ts:521-524 | The week starts counted are exactly the Sundays from the start's week to the end, one per week. |
| DateFormat.ParseFormatDate | src/lib/gen-liturgical-calendar.ts:1155-1159 | Parsing the `dd/MM/yyyy` form of a date in years 1..9999 gives back that date. |
| DateFormat.FormatParsedDate | src/lib/gen-liturgical-calendar.ts:1155-1159 | Every string that parses as `dd/MM/yyyy` is the formatted form of its parse. |
| DateFormat.ParseDate | src/lib/gen-liturgical-calendar.ts:1155-1159 | A string that parses gives a valid date in year 1 or later. Its inverse is DateFormat.FormatDate, by DateFormat.ParseFormatDate and DateFormat.FormatParsedDate. |
| DateFormat.ParseDateRejectsYearZero | src/lib/gen-liturgical-calendar.ts:1155-1159 | A date written with year `0000` is an Invalid Date, as date-fns' `yyyy` parser refuses year 0. |
| DateFormat.FormatDate | src/lib/gen-liturgical-calendar.ts:149 | The `dd/MM/yyyy` form; no contract of its own. DateFormat.ParseFormatDate and DateFormat.FormatParsedDate make it the inverse of DateFormat.ParseDate. |
| DateFormat.ParseFormatDay | src/lib/gen-liturgical-calendar.ts:148-149 | The date stamped on a row parses back to the very day it was stamped with. |
| DateFormat.ParseFormatDayMonth | src/lib/gen-liturgical-calendar.ts:977 | Parsing the `dd/MM` form of a date against its own year gives back its day and month. |
| DateFormat.ParseDayMonth | src/lib/gen-liturgical-calendar.ts:977 | A `dd/MM` tag gives a day and month only when they form a real date of the reference year. |
| DateFormat.DayOfMonthIdentifies | src/lib/gen-liturgical-calendar.ts:170-174 | Within one year, the `dd/MM` tag identifies the day. |
| DateFormat.WeekdayIndex | src/lib/gen-liturgical-calendar.ts:64-72 | A recognised weekday name is the name of the weekday number it yields. |
| Text.NumberIsOfDigits | src/lib/gen-liturgical-calendar.ts:143 | A decimal week-order tag compares equal to the number it spells. |
| Text.WholeFractionSpelling | src/lib/gen-liturgical-calendar.ts:143 | A whole number written with a decimal point and trailing zeros (`1.`, `1.0`) compares equal to the number, as JavaScript's `+` reads it. |
| Text.FractionIsNotWhole | src/lib/gen-liturgical-calendar.ts:143 | A decimal spelling with a non-zero digit after the point compares equal to no integer. |
| Text.NatToDigitsRoundTrip | src/lib/gen-liturgical-calendar.ts:149 | The printed digits of a number read back as that number. |
| Walk.WeekOrdersClosedForm | src/lib/gen-liturgical-calendar.ts:130-137 | After walking i + 1 days from a, the counter has grown by the number of Sundays in a..a+i. |
| Walk.WeekOrdersFromSunday | src/lib/gen-liturgical-calendar.ts:130-137 | A walk starting on a Sunday is in week i / 7 + 1 on its i-th day. |
| Walk.WeekOrdersFromMonday | src/lib/gen-liturgical-calendar.ts:531-536 | A walk starting on a Monday gains its first week at its first Sunday. |
| Walk.WeekOrders | src/lib/gen-liturgical-calendar.ts:130-137 | One week order per walked day. Its values are given by Walk.WeekOrdersClosedForm. |
| Selection.SelectKeepsOrder | src/lib/gen-liturgical-calendar.ts:142-144 | The filter is the table with exactly the failing rows left out: the kept rows stay in table order, and a repeated row is kept as often as it occurs. |
| Selection.JsRemainder | src/lib/gen-liturgical-calendar.ts:112 | JavaScript's `%` agrees with the Euclidean remainder on non-negative years and is never positive on negative ones. |
| Selection.YearNumberOf | src/lib/gen-liturgical-calendar.ts:426 | The weekday cycle is 2 exactly in even years, otherwise 1. |
| Selection.YearCycleOf | src/lib/gen-liturgical-calendar.ts:58-62 | Every year from 0 on has a Sunday cycle letter. |
| Selection.YearCycleOfSequence | src/lib/gen-liturgical-calendar.ts:58-62 | The Sunday cycle repeats every three years and runs A, B, C. |
| Selection.AttachDatesRow | src/lib/gen-liturgical-calendar.ts:145-151 | The stamped weekday names the day's weekday, and the stamped date parses back to the day. |
| Selection.PickSpec | src/lib/gen-liturgical-calendar.ts:141-151 | A row is in the day's group exactly when it is a table row satisfying the predicate, stamped with the day's weekday name and date. The group's rows are in table order, with repeated rows repeated. |
| Selection.NumberedWeekSkipsSymbolicTags | src/lib/gen-liturgical-calendar.ts:143 | A row whose week-order tag is a word, holding a letter that no spelling of a finite JavaScript number holds (g to z other than o and x, in either case), never matches a numbered week. |
| Selection.PentecostRules | lib/gen-liturgical-calendar.ts:850-856 | The two generations select Pentecost rows differently: by week order with the cycle or an empty cycle, or by the three Pentecost slugs. |
| AdventSeason.AdventLength | src/lib/gen-liturgical-calendar.ts:114-134 | The Advent walk runs from Advent 1 to 24 December of the previous year: 22 to 28 days. |
| AdventSeason.Generate | src/lib/gen-liturgical-calendar.ts:97-190 | One group per day of Advent. AdventSeason.WeeksByDay states each group's day and week. |
| AdventSeason.GenerateIsWeeks | src/lib/gen-liturgical-calendar.ts:114-135 | The Advent walk starts on a Sunday and ends 21 to 27 days later. |
| AdventSeason.WeeksAt | src/lib/gen-liturgical-calendar.ts:130-187 | Day d of a walk from Sunday a is processed in week (d − a) / 7 + 1. |
| AdventSeason.WeeksByDay | src/lib/gen-liturgical-calendar.ts:130-187 | Every Advent day is processed in a week from 1 to 4 and yields one group dated that day. |
| AdventSeason.SundaysOfAdvent | src/lib/gen-liturgical-calendar.ts:136-155 | Each Sunday of Advent takes the Sunday rows of its week number and the year's cycle. |
| AdventSeason.WeekdaysOfAdvent | src/lib/gen-liturgical-calendar.ts:157-186 | A weekday in 17..24 December takes the pre-Christmas rows keyed by its `dd/MM`; any other weekday takes the rows of its week and weekday. |
| ChristmasSeason.WeekdaysBeforeEpiphany | src/lib/gen-liturgical-calendar.ts:239-259 | The days from 26 December to the eve of Epiphany each yield one group dated that day. |
| ChristmasSeason.WeekdaysAfterEpiphany | src/lib/gen-liturgical-calendar.ts:337-389 | The days strictly between Epiphany and the Baptism each yield one group dated that day. |
| ChristmasSeason.SecondSunday | src/lib/gen-liturgical-calendar.ts:293-312 | At most one group is added for the second Sunday after Christmas, dated that Sunday. |
| ChristmasSeason.GenerateDates | src/lib/gen-liturgical-calendar.ts:224-404 | The groups come in emission order: Christmas, the octave weekdays, Holy Family, Mary Mother of God, the optional second Sunday, Epiphany, the weekdays after it, the Baptism. Each group is dated its day. |
| ChristmasSeason.SeasonSpan | src/lib/gen-liturgical-calendar.ts:215-402 | The season covers every day from Christmas of the previous year to the Baptism, and no other. |
| ChristmasSeason.AfterEpiphanyGuardAlwaysHolds | src/lib/gen-liturgical-calendar.ts:366-370 | Without the 6-January option the after-Epiphany guard always holds, so every such day uses the weekday-keyed rows. |
| ChristmasSeason.AfterEpiphanySpan | src/lib/gen-liturgical-calendar.ts:337-344 | When Epiphany is 7 or 8 January without the option, no weekday lies between it and the Baptism. The span is exactly the days strictly between the two. |
| ChristmasSeason.Generate | src/lib/gen-liturgical-calendar.ts:192-405 | The Christmas season's groups; no contract of its own. ChristmasSeason.GenerateDates and ChristmasSeason.SeasonSpan state their order and days. |
| OrdinaryTime.PartsWellFormed | src/lib/gen-liturgical-calendar.ts:435-456 | The Baptism is more than 20 days before Ash Wednesday, Pentecost more than 150 days before Advent 1, and both of the latter are Sundays. |
| OrdinaryTime.FirstWalkAt | src/lib/gen-liturgical-calendar.ts:460-513 | After the Baptism, each day up to the eve of Ash Wednesday is processed in the week counted from the Baptism's Sunday. The counter starts at 0 on a Sunday and at 1 on a Monday. |
| OrdinaryTime.FirstWalkDates | src/lib/gen-liturgical-calendar.ts:464-494 | The Baptism itself yields nothing; every later day of the first span yields one group dated that day. |
| OrdinaryTime.SecondPartStartValue | src/lib/gen-liturgical-calendar.ts:519-529 | The second span's starting counter is 35 minus the weeks between Pentecost and Advent 1. |
| OrdinaryTime.SecondPartByDay | src/lib/gen-liturgical-calendar.ts:515-571 | Each day between Pentecost and Advent 1 is processed in week 34 minus the whole weeks left before Advent 1. |
| OrdinaryTime.SecondWalkDates | src/lib/gen-liturgical-calendar.ts:531-571 | Every day of the second span yields one group dated that day. |
| OrdinaryTime.LastWeekIsThirtyFourth | src/lib/gen-liturgical-calendar.ts:515-518 | The last week before Advent 1, its Sunday included, is always week 34. |
| OrdinaryTime.WeekdayCycle | src/lib/gen-liturgical-calendar.ts:496-501 | A weekday of Ordinary Time holds exactly the weekday-table rows whose week order is the week's number, whose weekday tag is the day's name and whose year number is 2 in even years and 1 in odd ones, each stamped with the day. |
| OrdinaryTime.Generate | src/lib/gen-liturgical-calendar.ts:407-574 | The two spans of Ordinary Time; no contract of its own. OrdinaryTime.FirstWalkDates and OrdinaryTime.SecondWalkDates state their days and weeks. |
| LentSeason.EasterAnchors | src/lib/gen-liturgical-calendar.ts:597-600 | Ash Wednesday is Easter − 46, the Chrism Mass Easter − 3, the first Sunday of Lent Easter − 42, Palm Sunday Easter − 7. |
| LentSeason.GenerateDates | src/lib/gen-liturgical-calendar.ts:602-737 | The groups come in emission order: Ash Wednesday, the Chrism Mass, the days after Ash Wednesday, the six weeks, Holy Week. Each group is dated its day. |
| LentSeason.SeasonSpan | src/lib/gen-liturgical-calendar.ts:598-718 | The Lent groups cover exactly the days from Ash Wednesday to Holy Thursday. |
| LentSeason.WeeksOfLent | src/lib/gen-liturgical-calendar.ts:653-712 | Each day from the first Sunday of Lent to Palm Sunday is processed in a week numbered 1 to 6. |
| LentSeason.SundaysOfLent | src/lib/gen-liturgical-calendar.ts:659-694 | The sixth Sunday takes the Palm Sunday rows; the others take the numbered Lent Sunday rows of the year's cycle. |
| LentSeason.LastWeekOfLent | src/lib/gen-liturgical-calendar.ts:662-663 | Among the Sundays of Lent, week 6 is exactly Palm Sunday. |
| LentSeason.Generate | src/lib/gen-liturgical-calendar.ts:576-738 | The Lent groups; no contract of its own. LentSeason.GenerateDates and LentSeason.SeasonSpan state their order and days. |
| EasterSeason.EasterNeighbours | src/lib/gen-liturgical-calendar.ts:829-856 | The octave runs from Easter + 1 to Easter + 6, and the numbered weeks start at Easter + 7. |
| EasterSeason.GenerateDates | src/lib/gen-liturgical-calendar.ts:774-954 | The groups come in emission order: the Triduum, Easter, the octave, the weeks to Pentecost, and under the option the Ascension on the 40th day. Each group is dated its day. |
| EasterSeason.SeasonSpan | src/lib/gen-liturgical-calendar.ts:764-952 | The groups cover exactly Holy Thursday to Pentecost: 53 groups, or 54 with the Ascension on the 40th day. |
| EasterSeason.WeeksAt | src/lib/gen-liturgical-calendar.ts:851-935 | Day d of the walk from the second Sunday of Easter is processed in week (d − s) / 7 + 2. |
| EasterSeason.SundaysOfEaster | src/lib/gen-liturgical-calendar.ts:899-914 | Sundays 2 to 6 of Easter take the numbered Sunday rows of the year's cycle. |
| EasterSeason.SeventhSunday | src/lib/gen-liturgical-calendar.ts:881-914 | The seventh Sunday takes the Ascension rows unless the Ascension is kept on the 40th day; then it takes the numbered rows. |
| EasterSeason.PentecostSunday | src/lib/gen-liturgical-calendar.ts:861-880 | The eighth Sunday, Pentecost, takes the Pentecost rows. |
| EasterSeason.WeekdaysOfEaster | src/lib/gen-liturgical-calendar.ts:919-935 | An Easter weekday takes the rows of its week and weekday. |
| EasterSeason.AscensionGroup | src/lib/gen-liturgical-calendar.ts:937-952 | One Ascension group is added exactly when the Ascension is kept on the 40th day. |
| EasterSeason.Generate | src/lib/gen-liturgical-calendar.ts:740-955 | The Easter season's groups; no contract of its own. EasterSeason.GenerateDates and EasterSeason.SeasonSpan state their order and days. |
| Celebrations.CelebrationEntry | src/lib/gen-liturgical-calendar.ts:976-988 | A fixed-date row gives one entry exactly when its tag parses as `dd/MM`, and the entry carries the row unchanged. |
| Celebrations.CelebrationRowsKeepDated | src/lib/gen-liturgical-calendar.ts:974-990 | The celebrations group holds, in table order, exactly the rows with a day-and-month tag. |
| Celebrations.CelebrationRowsDates | src/lib/gen-liturgical-calendar.ts:982-987 | Every celebration is dated the `setYear` of its own row's day and month. |
| Celebrations.CelebrationDate | src/lib/gen-liturgical-calendar.ts:977-986 | A row whose day and month exist in the target year is dated with its own tag followed by that year. |
| Celebrations.SetYearValid | src/lib/gen-liturgical-calendar.ts:985-986 | On a date that exists in the year, moving the parsed day and month into that year gives that very date. |
| Celebrations.LeapDayRollsOver | src/lib/gen-liturgical-calendar.ts:977-986 | When the reference year is a leap year, a row tagged 29/02 is kept on 1 March of a common target year. |
| Celebrations.SetYear | src/lib/gen-liturgical-calendar.ts:985-986 | `setYear` of a day and month; no contract of its own. Celebrations.SetYearValid and Celebrations.LeapDayRollsOver state its value. |
| Celebrations.Generate | src/lib/gen-liturgical-calendar.ts:957-993 | The fixed-date celebrations form one group. Celebrations.CelebrationRowsKeepDated states its rows. |
| Celebrations.AnnunciationGroup | src/lib/gen-liturgical-calendar.ts:1030-1040 | The Annunciation yields one group dated the transferred Annunciation day. |
| Celebrations.PostPentecostDates | src/lib/gen-liturgical-calendar.ts:1060-1106 | The three solemnities' groups are dated Pentecost + 7 and + 14 (Sundays) and + 19 (a Friday). |
| Celebrations.PostPentecost | src/lib/gen-liturgical-calendar.ts:1043-1107 | Three groups, one per solemnity. Celebrations.PostPentecostDates states their days. |
| Schema.ParseOneOrMany | src/lib/schema.ts:27-34 | A list field is accepted exactly when it is a string or an array of strings. |
| Schema.EncodeParseOneOrMany | src/lib/schema.ts:27-34 | An accepted list field's value encodes back to the same JSON. |
| Schema.ParseEntryAcceptsExactlyConforming | src/lib/schema.ts:25-41 | A row is accepted exactly when its 13 required fields have their types and every present extra slot is a string or string list. |
| Schema.MissingRequiredFieldRejected | src/lib/schema.ts:25-40 | A row lacking any required field is rejected. |
| Schema.ParseExtrasSpec | src/lib/schema.ts:9-23 | The extra slots are optional: the parsed row holds exactly the slots present, each with its parsed value. |
| Schema.ParseEncodeEntry | src/lib/schema.ts:25-41 | Encoding a row to JSON and parsing it gives back the row. |
| Schema.ParseEntryIgnoresOtherKeys | src/lib/schema.ts:25-41 | Keys outside the schema do not affect parsing. |
| Schema.ParseEntry | src/lib/schema.ts:25-41 | The row parser; no contract of its own. Schema.ParseEntryAcceptsExactlyConforming and Schema.ParseEncodeEntry state what it accepts and returns. |
| Schema.ParseEntryDataAcceptsExactly | src/lib/schema.ts:43-46 | A dated row is a valid row plus string `weekday` and `date` fields, and nothing else is required. |
| Schema.ParseEncodeEntryData | src/lib/schema.ts:43-46 | Encoding a dated row and parsing it gives back the dated row. |
| Schema.ParseEntryData | src/lib/schema.ts:43-46 | The dated-row parser; no contract of its own. Schema.ParseEntryDataAcceptsExactly and Schema.ParseEncodeEntryData state what it accepts and returns. |
| Schema.ResolveOptionsRejects | src/lib/schema.ts:48-59 | Resolving options fails exactly when one of the four known options has the wrong type, and the error names such an option. |
| Schema.ResolveOptionsValues | src/lib/schema.ts:48-68 | Each supplied option is returned unchanged, each missing one takes its default, and the additional calendar is passed through. |
| Schema.EmptyOptionsAreDefaults | src/constants.ts:4-12 | Empty options resolve to no 6-January Epiphany, no 40th-day Ascension, locale `en` and data path `./liturgical`. |
| Schema.ResolveOptions | src/lib/schema.ts:48-68 | The options parser; no contract of its own. Schema.ResolveOptionsRejects and Schema.ResolveOptionsValues state its errors and values. |
| Sorting.SortByKey | src/lib/gen-liturgical-calendar.ts:1155-1160 | The sort is a permutation of its input. |
| Sorting.SortSorted | src/lib/gen-liturgical-calendar.ts:1155-1160 | When every key is present, the result is in ascending key order. |
| Sorting.SortStable | src/lib/gen-liturgical-calendar.ts:1155-1160 | The sort is stable: the entries of any one present key keep their input order, as ES2019 requires of `toSorted` with a consistent comparator. |
| Sorting.SortMap | src/lib/gen-liturgical-calendar.ts:1155-1206 | Changing entries without changing their keys commutes with the sort. |
| Calendar.FlattenMembership | src/lib/gen-liturgical-calendar.ts:1125-1154 | An entry is in the flattened calendar exactly when it is in one of the generators' groups. |
| Calendar.Seasons | src/lib/gen-liturgical-calendar.ts:1125-1151 | The generators' groups in concatenation order; no contract of its own. Calendar.FlattenMembership and CalendarDates.SeasonsKeyed state what they hold. |
| Calendar.Entries | src/lib/gen-liturgical-calendar.ts:1125-1154 | The flattened rows of every generator and of the hook; no contract of its own. Calendar.CalendarContents relates them to the result. |
| Calendar.DayKey | src/lib/gen-liturgical-calendar.ts:1155-1159 | An entry has a sort key exactly when its date parses. |
| Calendar.Fill | src/lib/gen-liturgical-calendar.ts:1161-1205 | Filling keeps the date, the weekday and every field but the description. A non-empty description is left alone; an empty one becomes the renderer's text for that row in the locale. |
| Calendar.GenerateLiturgicalCalendar | src/lib/gen-liturgical-calendar.ts:1109-1113 | Generation fails exactly when the options fail to resolve, with their error; otherwise it yields one entry per generated row. |
| Calendar.CalendarIsSortedFill | src/lib/gen-liturgical-calendar.ts:1125-1206 | The result is the filled entries stably sorted by date, and a permutation of them. |
| Calendar.CalendarContents | src/lib/gen-liturgical-calendar.ts:1125-1206 | Every generated row appears filled in the result, and every result entry is a filled generated row. |
| Calendar.CalendarAscending | src/lib/gen-liturgical-calendar.ts:1155-1160 | When every date parses, the result is in ascending date order. |
| Calendar.CalendarStable | src/lib/gen-liturgical-calendar.ts:1155-1160 | The entries of any one date appear in the order the generators emitted them; this is the engine's promise when every date parses. |
| Calendar.CalendarDescriptions | src/lib/gen-liturgical-calendar.ts:1161-1205 | With a renderer that never answers empty, no result entry has an empty description. |
| Calendar.CalendarRowDescriptions | src/lib/gen-liturgical-calendar.ts:1161-1206 | Every calendar entry is a generated row with date, weekday and tags unchanged. Its description is the row's own when that is non-empty, and otherwise the text rendered for the row in the chosen locale. |
| Calendar.EpiphanyOn6thJanuary | src/lib/gen-liturgical-calendar.ts:314-326 | Under the 6-January option every Epiphany row appears in the calendar dated `06/01` of the year. |
| Calendar.GenerateCalendar | lib/gen-liturgical-calendar.ts:1089-1106 | The older assembler returns a permutation of all generated rows plus the additional calendar's. |
| Calendar.LegacyAscending | lib/gen-liturgical-calendar.ts:1100-1106 | When every date parses, the older assembler's result is in ascending date order. |
| Calendar.LegacyStable | lib/gen-liturgical-calendar.ts:1100-1106 | The older assembler keeps the emission order of the entries of any one date; this is the engine's promise when every date parses. |
| Calendar.LegacyDefaultFlags | lib/gen-liturgical-calendar.ts:1083-1087 | Without options the older assembler treats both flags as false and adds no extra rows. |
| CalendarDates.SeasonsKeyed | src/lib/gen-liturgical-calendar.ts:1125-1151 | For years 2 to 9999, every row any generator emits carries a date that parses. |
| CalendarDates.CalendarAscendingForYear | src/lib/gen-liturgical-calendar.ts:1109-1160 | For years 2 to 9999, with additional rows whose dates parse, the calendar is in non-decreasing date order. |
| CalendarDates.LegacyAscendingForYear | lib/gen-liturgical-calendar.ts:1082-1106 | The same guarantee holds for the older assembler. |

## Left out

- Table loading (`getLiturgical`, `isRemotePath`) is not modelled. Fetching, reading files and parsing JSON become the `Loader` parameter, which returns the thirteen tables. The loader only casts the parsed JSON to `CalendarEntry[]` and validates nothing, so the model assumes every loaded row is a well-typed `CalendarEntry`: a row missing a field or holding a mistyped one is not modelled. Nor are keys outside the schema, which each generator's `{...d, weekday, date}` copies through into the calendar.
- Description rendering with i18next is not modelled. The renderer is the abstract `Render` parameter. Only "empty description is replaced, any other is kept" is modelled.
- The wall clock behind `parse(…, 'dd/MM', new Date())` is not modelled. It is the explicit reference year.
- Time zones and times of day are not modelled. A `Date` is a whole day number.
- Asynchrony is not modelled. The `await`s only sequence I/O.
- The iCalendar export, the command line, file output and build configuration are not modelled.
- zod's runtime check of the `additionalCalendar` function signature is not modelled. The hook is a function from the year and the supplied option fields to dated rows.
- The number comparison `+tag === n` models decimal tags with an optional sign and an optional decimal point (`1`, `01`, `-1`, `1.`, `1.0`, `.0`), and the empty tag as 0. The hexadecimal, octal and binary forms (`0x1`, `0o1`, `0b1`), the exponent form (`1e0`) and surrounding whitespace (` 1`), which JavaScript also reads as numbers, are not modelled: the model reads them as no number, so a row spelled that way is never picked by a numbered filter, where the engine would pick it. Selection.NumberedWeekSkipsSymbolicTags is stated only for tags with a letter none of these forms holds, so it holds of the engine as well.
- Date parsing is strict: exactly two, two and four digits, and year `0000` is refused as date-fns' `yyyy` parser refuses it. date-fns' lenient forms are not modelled, nor its two-digit years. A year is printed as its era year, as `yyyy` does.
- `compareAsc` returning `NaN` for an unparseable date is modelled as "equal". That makes the comparator inconsistent: an unparseable entry is "equal" to two entries that are not equal to each other. ECMAScript leaves the order of `toSorted` and `sort` implementation-defined for an inconsistent comparator, for every key, not only the missing one. The model's insertion sort keeps the relative order of unparseable entries, not their positions; that order is the model's choice, not a promise of the engine.
- Sorting.SortStable: for the missing key, and for any key once a missing key is present, the order it states is the model's insertion sort's choice. ECMAScript leaves that order implementation-defined, because the comparator is then inconsistent. Only when every key is present is the stability the engine's own promise.
- Calendar.CalendarStable: when some generated or additional row has a date that does not parse, the emission order it states is the model's choice, which ECMAScript leaves implementation-defined. The engine promises it only when every date parses, which CalendarDates.SeasonsKeyed gives for the generators' rows in years 2 to 9999.
- Calendar.LegacyStable: as for Calendar.CalendarStable, the emission order it states is the engine's promise only when every date parses. Otherwise it is the model's choice, which ECMAScript leaves implementation-defined.
- CalendarDates.CalendarAscendingForYear: the ascending order is proved only for years 2 to 9999, where every date prints as four digits. It assumes the additional calendar's rows carry parseable dates. The engine promises the order for every year.
- CalendarDates.LegacyAscendingForYear: as for the current assembler, the ascending order is proved only for years 2 to 9999, and only when the additional calendar's rows carry parseable dates. The older engine sorts for every year.
- Anchors.Day: JavaScript's `new Date(y, …)` reads a year 0 .. 99 as 1900 + y at every call site: Easter, Advent, Christmas, the Epiphany, the Baptism and the Annunciation. The model keeps every anchor in year y, the evidently intended behaviour recorded under Findings. For the years 0 .. 100 the modelled calendar is therefore not the one the code builds.
- Anchors.EasterDate: for the years 0 .. 99 the code dates the computus in 1900 + y. The model's date stays in year y; Anchors.JsEasterOfYear50 shows the difference.
- Anchors.EasterIsSunday: holds of the model's Easter. For the years 0 .. 99 the code's date need not be a Sunday; year 50 gives a Monday.
- Celebrations.LeapDayRollsOver: the roll of 29 February into 1 March rests on JavaScript's `setFullYear` normalisation, which `setYear` uses. The other celebration lemmas are stated only for dates that exist in the target year.

## Findings

| source | as written | input that shows it | evidently intended | confidence | as-written member | corrected member |
|---|---|---|---|---|---|---|
| src/lib/gen-liturgical-calendar.ts:55 | `new Date(y, m - 1, d)` reads a year 0 .. 99 as 1900 + y. So the computus of year y is dated in 1900 + y, as is every anchor the same constructor builds (lines 114-121, 215-220, 1009). | Year 50: the computus gives 27 March, which becomes Monday 27 March 1950. | Easter of year 50 on Sunday 27 March of year 50. | not executed | Anchors.JsEasterOfYear50 | Anchors.EasterIsSunday |
