/** The shapes the calendar is built from and returns (CalendarEntry,
    CalendarEntryData) and the generator options, with the validation and
    default resolution the zod schemas perform on them. */
module Schema {
  import opened Wrappers

  /** The key of a JSON object, classified by the name it spells: one of the
      13 required fields of a row, one of the optional extra slots, the two
      fields a resolved row adds, or any other name. */
  datatype Key =
    | Required(field: RowField)
    | Slot(slot: ExtraSlot)
    | WeekdayKey
    | DateKey
    | Other(name: string)

  /** A JSON value as a table file or a caller supplies it; a key missing
      from an object is JavaScript's `undefined`. */
  datatype Json =
    | JNull
    | JBool(b: bool)
    | JNumber(n: int)
    | JString(s: string)
    | JArray(items: seq<Json>)
    | JObject(fields: map<Key, Json>)

  /** A reading, psalm or mass-type field: one string or an ordered list of them. */
  datatype OneOrMany = One(text: string) | Many(texts: seq<string>)

  /** The 13 fields every row must carry. */
  datatype RowField =
    | FirstReading | Psalm | SecondReading | Gospel | YearCycle | YearNumber | Season
    | MassType | WeekdayType | WeekOrder | PeriodOfDay | SlugField | Description

  /** The optional extra lection slots of a vigil with many readings. */
  datatype ExtraSlot =
    | SecondPsalm | ThirdReading | ThirdPsalm | FourthReading | FourthPsalm
    | FifthReading | FifthPsalm | SixthReading | SixthPsalm
    | SeventhReading | SeventhPsalm | EighthReading | EighthPsalm

  const ExtraSlots: seq<ExtraSlot> := [
    SecondPsalm, ThirdReading, ThirdPsalm, FourthReading, FourthPsalm,
    FifthReading, FifthPsalm, SixthReading, SixthPsalm,
    SeventhReading, SeventhPsalm, EighthReading, EighthPsalm]

  /** The JSON name of each known key. */
  function KeyName(k: Key): string {
    match k
    case Required(f) =>
      (match f
       case FirstReading => "firstReading"
       case Psalm => "psalm"
       case SecondReading => "secondReading"
       case Gospel => "gospel"
       case YearCycle => "yearCycle"
       case YearNumber => "yearNumber"
       case Season => "season"
       case MassType => "massType"
       case WeekdayType => "weekdayType"
       case WeekOrder => "weekOrder"
       case PeriodOfDay => "periodOfDay"
       case SlugField => "slug"
       case Description => "description")
    case Slot(slot) =>
      (match slot
       case SecondPsalm => "secondPsalm"
       case ThirdReading => "thirdReading"
       case ThirdPsalm => "thirdPsalm"
       case FourthReading => "fourthReading"
       case FourthPsalm => "fourthPsalm"
       case FifthReading => "fifthReading"
       case FifthPsalm => "fifthPsalm"
       case SixthReading => "sixthReading"
       case SixthPsalm => "sixthPsalm"
       case SeventhReading => "seventhReading"
       case SeventhPsalm => "seventhPsalm"
       case EighthReading => "eighthReading"
       case EighthPsalm => "eighthPsalm")
    case WeekdayKey => "weekday"
    case DateKey => "date"
    case Other(name) => name
  }

  /** One row of a liturgical table. */
  datatype CalendarEntry = CalendarEntry(
    firstReading: OneOrMany,
    psalm: OneOrMany,
    secondReading: OneOrMany,
    gospel: OneOrMany,
    yearCycle: string,
    yearNumber: string,
    season: string,
    massType: OneOrMany,
    weekdayType: string,
    weekOrder: string,
    periodOfDay: string,
    slug: string,
    description: string,
    extras: map<ExtraSlot, OneOrMany>)

  /** A row resolved against a calendar day: its lower-case weekday name and its dd/MM/yyyy date. */
  datatype CalendarEntryData = CalendarEntryData(entry: CalendarEntry, weekday: string, date: string)

  /** The fields holding a string or a list of strings; the others hold a string. */
  predicate IsListField(f: RowField) {
    f == FirstReading || f == Psalm || f == SecondReading || f == Gospel || f == MassType
  }

  // ----- validation -----

  predicate IsOneOrMany(j: Json) {
    j.JString? || (j.JArray? && forall i :: 0 <= i < |j.items| ==> j.items[i].JString?)
  }

  /** The value under a required field has the field's type. */
  predicate FieldConforms(fields: map<Key, Json>, f: RowField) {
    Required(f) in fields &&
    (if IsListField(f) then IsOneOrMany(fields[Required(f)]) else fields[Required(f)].JString?)
  }

  /** What `CalendarEntrySchema` accepts: an object whose five list fields are a
      string or an array of strings, whose eight tag fields are strings, and
      whose extra slots, where present, are a string or an array of strings.
      Other keys are ignored. */
  predicate ConformsToEntry(j: Json) {
    && j.JObject?
    && (forall f: RowField :: FieldConforms(j.fields, f))
    && (forall slot: ExtraSlot :: Slot(slot) in j.fields ==> IsOneOrMany(j.fields[Slot(slot)]))
  }

  function ParseOneOrMany(j: Json): (r: Option<OneOrMany>)
    ensures r.Some? <==> IsOneOrMany(j)
  {
    match j
    case JString(s) => Some(One(s))
    case JArray(items) =>
      if forall i :: 0 <= i < |items| ==> items[i].JString? then
        Some(Many(seq(|items|, i requires 0 <= i < |items| => items[i].s)))
      else
        None
    case _ => None
  }

  function ListValue(fields: map<Key, Json>, f: RowField): OneOrMany
    requires FieldConforms(fields, f) && IsListField(f)
  {
    ParseOneOrMany(fields[Required(f)]).value
  }

  function TagValue(fields: map<Key, Json>, f: RowField): string
    requires FieldConforms(fields, f) && !IsListField(f)
  {
    fields[Required(f)].s
  }

  /** The row whose required fields are read from `fields`. */
  function BuildEntry(fields: map<Key, Json>, extras: map<ExtraSlot, OneOrMany>): CalendarEntry
    requires forall f: RowField :: FieldConforms(fields, f)
  {
    CalendarEntry(
      ListValue(fields, FirstReading), ListValue(fields, Psalm), ListValue(fields, SecondReading),
      ListValue(fields, Gospel), TagValue(fields, YearCycle), TagValue(fields, YearNumber),
      TagValue(fields, Season), ListValue(fields, MassType), TagValue(fields, WeekdayType),
      TagValue(fields, WeekOrder), TagValue(fields, PeriodOfDay), TagValue(fields, SlugField),
      TagValue(fields, Description), extras)
  }

  function StringField(fields: map<Key, Json>, k: Key): (r: Option<string>)
    ensures r.Some? <==> k in fields && fields[k].JString?
  {
    if k in fields && fields[k].JString? then Some(fields[k].s) else None
  }

  /** The extra slots among `slots`: absent ones are skipped, present ones must be well formed. */
  function ParseExtras(fields: map<Key, Json>, slots: seq<ExtraSlot>): Option<map<ExtraSlot, OneOrMany>> {
    if slots == [] then
      Some(map[])
    else
      var rest :- ParseExtras(fields, slots[1..]);
      if Slot(slots[0]) !in fields then
        Some(rest)
      else
        var v :- ParseOneOrMany(fields[Slot(slots[0])]);
        Some(rest[slots[0] := v])
  }

  /** `CalendarEntrySchema.safeParse`: the row, or `None` when the value is
      rejected. Every required field is checked, then the extra slots. */
  function ParseEntry(j: Json): Option<CalendarEntry> {
    if j.JObject? && forall f: RowField :: FieldConforms(j.fields, f) then
      var extras :- ParseExtras(j.fields, ExtraSlots);
      Some(BuildEntry(j.fields, extras))
    else
      None
  }

  /** `CalendarEntryDataSchema.safeParse`: a row plus the two string fields `weekday` and `date`. */
  function ParseEntryData(j: Json): Option<CalendarEntryData> {
    var entry :- ParseEntry(j);
    var weekday :- StringField(j.fields, WeekdayKey);
    var date :- StringField(j.fields, DateKey);
    Some(CalendarEntryData(entry, weekday, date))
  }

  // ----- encoding (the JSON a row is read from) -----

  function EncodeOneOrMany(v: OneOrMany): (j: Json)
    ensures ParseOneOrMany(j) == Some(v)
  {
    match v
    case One(s) => JString(s)
    case Many(xs) =>
      var j := JArray(seq(|xs|, i requires 0 <= i < |xs| => JString(xs[i])));
      assert seq(|xs|, i requires 0 <= i < |xs| => j.items[i].s) == xs;
      j
  }

  /** The JSON form of the 13 required fields of a row. */
  function RequiredFields(e: CalendarEntry): map<Key, Json> {
    map f: RowField :: Required(f) := FieldJson(e, f)
  }

  /** The JSON form of one required field of a row. */
  function FieldJson(e: CalendarEntry, f: RowField): Json {
    match f
    case FirstReading => EncodeOneOrMany(e.firstReading)
    case Psalm => EncodeOneOrMany(e.psalm)
    case SecondReading => EncodeOneOrMany(e.secondReading)
    case Gospel => EncodeOneOrMany(e.gospel)
    case YearCycle => JString(e.yearCycle)
    case YearNumber => JString(e.yearNumber)
    case Season => JString(e.season)
    case MassType => EncodeOneOrMany(e.massType)
    case WeekdayType => JString(e.weekdayType)
    case WeekOrder => JString(e.weekOrder)
    case PeriodOfDay => JString(e.periodOfDay)
    case SlugField => JString(e.slug)
    case Description => JString(e.description)
  }

  /** `fields` with the extra slots among `slots` that `extras` holds added. */
  function AddExtras(fields: map<Key, Json>, extras: map<ExtraSlot, OneOrMany>, slots: seq<ExtraSlot>): map<Key, Json> {
    if slots == [] then
      fields
    else
      var rest := AddExtras(fields, extras, slots[1..]);
      if slots[0] in extras then rest[Slot(slots[0]) := EncodeOneOrMany(extras[slots[0]])] else rest
  }

  function EncodeEntry(e: CalendarEntry): Json {
    JObject(AddExtras(RequiredFields(e), e.extras, ExtraSlots))
  }

  function EncodeEntryData(d: CalendarEntryData): Json {
    var fields := EncodeEntry(d.entry).fields;
    JObject(fields[WeekdayKey := JString(d.weekday)][DateKey := JString(d.date)])
  }

  // ----- what validation guarantees -----

  lemma EverySlotListed(slot: ExtraSlot)
    ensures slot in ExtraSlots
  {
  }

  predicate ExtrasWellFormed(fields: map<Key, Json>, slots: seq<ExtraSlot>) {
    forall i :: 0 <= i < |slots| && Slot(slots[i]) in fields ==> IsOneOrMany(fields[Slot(slots[i])])
  }

  /** The extras are accepted exactly when every present slot is well formed,
      and then they hold precisely the present slots with their parsed values. */
  lemma {:induction false} ParseExtrasSpec(fields: map<Key, Json>, slots: seq<ExtraSlot>)
    ensures ParseExtras(fields, slots).Some? <==> ExtrasWellFormed(fields, slots)
    ensures ParseExtras(fields, slots).Some? ==>
      forall slot :: slot in ParseExtras(fields, slots).value <==> slot in slots && Slot(slot) in fields
    ensures ParseExtras(fields, slots).Some? ==>
      forall slot :: slot in ParseExtras(fields, slots).value ==>
        Some(ParseExtras(fields, slots).value[slot]) == ParseOneOrMany(fields[Slot(slot)])
  {
    if slots != [] {
      ParseExtrasSpec(fields, slots[1..]);
      if ExtrasWellFormed(fields, slots) {
        assert ExtrasWellFormed(fields, slots[1..]) by {
          forall i | 0 <= i < |slots[1..]| && Slot(slots[1..][i]) in fields
            ensures IsOneOrMany(fields[Slot(slots[1..][i])])
          {
            assert slots[1..][i] == slots[i + 1];
          }
        }
      }
      if ExtrasWellFormed(fields, slots[1..]) && (Slot(slots[0]) in fields ==> IsOneOrMany(fields[Slot(slots[0])])) {
        assert ExtrasWellFormed(fields, slots) by {
          forall i | 0 <= i < |slots| && Slot(slots[i]) in fields
            ensures IsOneOrMany(fields[Slot(slots[i])])
          {
            if i > 0 {
              assert slots[i] == slots[1..][i - 1];
            }
          }
        }
      }
    }
  }

  /** `CalendarEntrySchema` accepts exactly the conforming values. */
  lemma ParseEntryAcceptsExactlyConforming(j: Json)
    ensures ParseEntry(j).Some? <==> ConformsToEntry(j)
  {
    if j.JObject? {
      var f := j.fields;
      ParseExtrasSpec(f, ExtraSlots);
      if ExtrasWellFormed(f, ExtraSlots) {
        forall slot: ExtraSlot | Slot(slot) in f
          ensures IsOneOrMany(f[Slot(slot)])
        {
          EverySlotListed(slot);
          var i :| 0 <= i < |ExtraSlots| && ExtraSlots[i] == slot;
        }
      }
    }
  }

  /** A row missing one of the 13 required fields is rejected. */
  lemma MissingRequiredFieldRejected(j: Json, field: RowField)
    requires j.JObject? && Required(field) !in j.fields
    ensures ParseEntry(j) == None
  {
    assert !FieldConforms(j.fields, field);
  }

  /** A well-formed list value is exactly the JSON form of what it parses to. */
  lemma EncodeParseOneOrMany(j: Json)
    requires IsOneOrMany(j)
    ensures EncodeOneOrMany(ParseOneOrMany(j).value) == j
  {
    if j.JArray? {
      var v := ParseOneOrMany(j).value;
      assert EncodeOneOrMany(v).items == j.items;
    }
  }

  /** An accepted row holds exactly the values of the object it was read
      from: each required field and each extra slot present re-encodes to the
      object's own value, and no other slot is filled. */
  lemma ParsedEntryFields(j: Json)
    requires ParseEntry(j).Some?
    ensures j.JObject?
    ensures var e := ParseEntry(j).value;
      && (forall f: RowField :: Required(f) in j.fields && j.fields[Required(f)] == FieldJson(e, f))
      && (forall slot :: slot in e.extras <==> Slot(slot) in j.fields)
      && (forall slot :: slot in e.extras ==> j.fields[Slot(slot)] == EncodeOneOrMany(e.extras[slot]))
  {
    var e := ParseEntry(j).value;
    ParseExtrasSpec(j.fields, ExtraSlots);
    forall f: RowField
      ensures Required(f) in j.fields && j.fields[Required(f)] == FieldJson(e, f)
    {
      assert FieldConforms(j.fields, f);
      if IsListField(f) {
        EncodeParseOneOrMany(j.fields[Required(f)]);
      }
      match f
      case FirstReading => case Psalm => case SecondReading => case Gospel =>
      case YearCycle => case YearNumber => case Season => case MassType =>
      case WeekdayType => case WeekOrder => case PeriodOfDay => case SlugField => case Description =>
    }
    forall slot: ExtraSlot
      ensures slot in ExtraSlots
      ensures slot in e.extras ==> j.fields[Slot(slot)] == EncodeOneOrMany(e.extras[slot])
    {
      EverySlotListed(slot);
      if slot in e.extras {
        EncodeParseOneOrMany(j.fields[Slot(slot)]);
      }
    }
  }

  lemma {:induction false} AddExtrasSpec(fields: map<Key, Json>, extras: map<ExtraSlot, OneOrMany>, slots: seq<ExtraSlot>)
    ensures var r := AddExtras(fields, extras, slots);
      && (forall k: Key :: !k.Slot? ==> (k in r <==> k in fields))
      && (forall k: Key :: !k.Slot? && k in fields ==> r[k] == fields[k])
      && (forall slot :: Slot(slot) in r <==> Slot(slot) in fields || (slot in slots && slot in extras))
      && (forall slot :: slot in slots && slot in extras ==> r[Slot(slot)] == EncodeOneOrMany(extras[slot]))
  {
    if slots != [] {
      AddExtrasSpec(fields, extras, slots[1..]);
    }
  }

  lemma RequiredFieldsSpec(e: CalendarEntry)
    ensures forall f: RowField :: Required(f) in RequiredFields(e) && RequiredFields(e)[Required(f)] == FieldJson(e, f)
    ensures forall slot :: Slot(slot) !in RequiredFields(e)
  {
  }

  /** Fields holding the JSON form of a row's required fields build that row. */
  lemma BuildEncodedEntry(fields: map<Key, Json>, e: CalendarEntry)
    requires forall f: RowField :: Required(f) in fields && fields[Required(f)] == FieldJson(e, f)
    ensures forall f: RowField :: FieldConforms(fields, f)
    ensures BuildEntry(fields, e.extras) == e
  {
    EncodedFieldsConform(fields, e);
    EncodedFieldsBuild(fields, e);
  }

  lemma EncodedFieldsConform(fields: map<Key, Json>, e: CalendarEntry)
    requires forall f: RowField :: Required(f) in fields && fields[Required(f)] == FieldJson(e, f)
    ensures forall f: RowField :: FieldConforms(fields, f)
  {
    forall f: RowField
      ensures FieldConforms(fields, f)
    {
      assert fields[Required(f)] == FieldJson(e, f);
      match f
      case FirstReading => case Psalm => case SecondReading => case Gospel =>
      case YearCycle => case YearNumber => case Season => case MassType =>
      case WeekdayType => case WeekOrder => case PeriodOfDay => case SlugField => case Description =>
    }
  }

  lemma EncodedFieldsBuild(fields: map<Key, Json>, e: CalendarEntry)
    requires forall f: RowField :: Required(f) in fields && fields[Required(f)] == FieldJson(e, f)
    requires forall f: RowField :: FieldConforms(fields, f)
    ensures BuildEntry(fields, e.extras) == e
  {
    EncodedListsRead(fields, e);
    EncodedTagsRead(fields, e);
  }

  /** The five list fields read back from the row's JSON form. */
  lemma EncodedListsRead(fields: map<Key, Json>, e: CalendarEntry)
    requires forall f: RowField :: Required(f) in fields && fields[Required(f)] == FieldJson(e, f)
    requires forall f: RowField :: FieldConforms(fields, f)
    ensures ListValue(fields, FirstReading) == e.firstReading && ListValue(fields, Psalm) == e.psalm
    ensures ListValue(fields, SecondReading) == e.secondReading && ListValue(fields, Gospel) == e.gospel
    ensures ListValue(fields, MassType) == e.massType
  {
    assert fields[Required(FirstReading)] == FieldJson(e, FirstReading);
    assert fields[Required(Psalm)] == FieldJson(e, Psalm);
    assert fields[Required(SecondReading)] == FieldJson(e, SecondReading);
    assert fields[Required(Gospel)] == FieldJson(e, Gospel);
    assert fields[Required(MassType)] == FieldJson(e, MassType);
  }

  /** The eight tag fields read back from the row's JSON form. */
  lemma EncodedTagsRead(fields: map<Key, Json>, e: CalendarEntry)
    requires forall f: RowField :: Required(f) in fields && fields[Required(f)] == FieldJson(e, f)
    requires forall f: RowField :: FieldConforms(fields, f)
    ensures TagValue(fields, YearCycle) == e.yearCycle && TagValue(fields, YearNumber) == e.yearNumber
    ensures TagValue(fields, Season) == e.season && TagValue(fields, WeekdayType) == e.weekdayType
    ensures TagValue(fields, WeekOrder) == e.weekOrder && TagValue(fields, PeriodOfDay) == e.periodOfDay
    ensures TagValue(fields, SlugField) == e.slug && TagValue(fields, Description) == e.description
  {
    assert fields[Required(YearCycle)] == FieldJson(e, YearCycle);
    assert fields[Required(YearNumber)] == FieldJson(e, YearNumber);
    assert fields[Required(Season)] == FieldJson(e, Season);
    assert fields[Required(WeekdayType)] == FieldJson(e, WeekdayType);
    assert fields[Required(WeekOrder)] == FieldJson(e, WeekOrder);
    assert fields[Required(PeriodOfDay)] == FieldJson(e, PeriodOfDay);
    assert fields[Required(SlugField)] == FieldJson(e, SlugField);
    assert fields[Required(Description)] == FieldJson(e, Description);
  }

  /** The JSON form of a row holds each required field's form, and exactly
      the row's extra slots. */
  lemma EncodeEntryFields(e: CalendarEntry)
    ensures var f := EncodeEntry(e).fields;
      && (forall field: RowField :: Required(field) in f && f[Required(field)] == FieldJson(e, field))
      && (forall slot :: Slot(slot) in f <==> slot in e.extras)
      && (forall slot :: slot in e.extras ==> f[Slot(slot)] == EncodeOneOrMany(e.extras[slot]))
  {
    AddExtrasSpec(RequiredFields(e), e.extras, ExtraSlots);
    RequiredFieldsSpec(e);
    forall slot: ExtraSlot
      ensures slot in ExtraSlots
    {
      EverySlotListed(slot);
    }
  }

  lemma ParseEncodedExtras(e: CalendarEntry)
    ensures ParseExtras(EncodeEntry(e).fields, ExtraSlots) == Some(e.extras)
  {
    var f := EncodeEntry(e).fields;
    EncodeEntryFields(e);
    ParseExtrasSpec(f, ExtraSlots);
    assert ExtrasWellFormed(f, ExtraSlots);
    var m := ParseExtras(f, ExtraSlots).value;
    forall slot: ExtraSlot
      ensures slot in m <==> slot in e.extras
      ensures slot in m ==> m[slot] == e.extras[slot]
    {
      EverySlotListed(slot);
    }
    assert m == e.extras;
  }

  /** Reading back the JSON form of a row gives the row. */
  lemma ParseEncodeEntry(e: CalendarEntry)
    ensures ParseEntry(EncodeEntry(e)) == Some(e)
  {
    EncodeEntryFields(e);
    BuildEncodedEntry(EncodeEntry(e).fields, e);
    ParseEncodedExtras(e);
  }

  /** Keys other than the row's own fields do not change how a row is read. */
  lemma {:induction false} ParseExtrasIgnoresOtherKeys(fields: map<Key, Json>, k: Key, v: Json, slots: seq<ExtraSlot>)
    requires !k.Slot?
    ensures ParseExtras(fields[k := v], slots) == ParseExtras(fields, slots)
  {
    if slots != [] {
      ParseExtrasIgnoresOtherKeys(fields, k, v, slots[1..]);
    }
  }

  lemma ParseEntryIgnoresOtherKeys(fields: map<Key, Json>, k: Key, v: Json)
    requires !k.Required? && !k.Slot?
    ensures ParseEntry(JObject(fields[k := v])) == ParseEntry(JObject(fields))
  {
    var g := fields[k := v];
    ParseExtrasIgnoresOtherKeys(fields, k, v, ExtraSlots);
    assert forall f: RowField :: Required(f) in g <==> Required(f) in fields;
    assert forall f: RowField :: Required(f) in fields ==> g[Required(f)] == fields[Required(f)];
    assert forall f: RowField :: FieldConforms(g, f) <==> FieldConforms(fields, f);
    if forall f: RowField :: FieldConforms(fields, f) {
      forall f: RowField ensures Required(f) in fields && Required(f) in g && g[Required(f)] == fields[Required(f)] {
        assert FieldConforms(fields, f);
      }
      SameRequiredFields(fields, g);
    }
  }

  /** Rows read from objects that agree on the required fields are equal. */
  lemma SameRequiredFields(a: map<Key, Json>, b: map<Key, Json>)
    requires forall f: RowField :: FieldConforms(a, f)
    requires forall f: RowField :: Required(f) in a && Required(f) in b && b[Required(f)] == a[Required(f)]
    ensures forall f: RowField :: FieldConforms(b, f)
    ensures forall extras :: BuildEntry(a, extras) == BuildEntry(b, extras)
  {
    assert forall f: RowField :: FieldConforms(a, f) ==> FieldConforms(b, f);
  }

  /** `CalendarEntryDataSchema` accepts a conforming row with string
      `weekday` and `date` fields, and nothing else. */
  lemma ParseEntryDataAcceptsExactly(j: Json)
    ensures ParseEntryData(j).Some? <==>
      && ConformsToEntry(j)
      && WeekdayKey in j.fields && j.fields[WeekdayKey].JString?
      && DateKey in j.fields && j.fields[DateKey].JString?
    ensures ParseEntryData(j).Some? ==> Some(ParseEntryData(j).value.entry) == ParseEntry(j)
  {
    ParseEntryAcceptsExactlyConforming(j);
  }

  lemma ParseEncodeEntryData(d: CalendarEntryData)
    ensures ParseEntryData(EncodeEntryData(d)) == Some(d)
  {
    var f := EncodeEntry(d.entry).fields;
    ParseEntryIgnoresOtherKeys(f, WeekdayKey, JString(d.weekday));
    ParseEntryIgnoresOtherKeys(f[WeekdayKey := JString(d.weekday)], DateKey, JString(d.date));
    ParseEncodeEntry(d.entry);
  }

  // ----- generator options -----

  const DefaultIsEpiphanyOn6thJan := false
  const DefaultIsAscensionOfTheLordOn40th := false
  const DefaultLocale := "en"
  const BaseLiturgicalDataPath := "./liturgical"

  /** The caller's hook that contributes extra rows for a year; it receives
      the year and the caller's options as given. */
  type AdditionalCalendar = (int, map<string, Json>) -> seq<CalendarEntryData>

  /** The options a caller passes: the JSON-valued keys, and the hook. */
  datatype OptionsInput = OptionsInput(fields: map<string, Json>, additionalCalendar: Option<AdditionalCalendar>)

  /** The options after `OptionsSchema.parse`, every default filled in. */
  datatype Options = Options(
    isEpiphanyOn6thJan: bool,
    isAscensionOfTheLordOn40th: bool,
    locale: string,
    liturgicalDataPath: string,
    additionalCalendar: Option<AdditionalCalendar>)

  /** zod's rejection of an option of the wrong type, naming the key. */
  datatype OptionsError = InvalidOption(key: string)

  const OptionKeys: seq<string> := ["isEpiphanyOn6thJan", "isAscensionOfTheLordOn40th", "locale", "liturgicalDataPath"]

  /** Whether the value supplied for a known key has the type the schema demands. */
  predicate WellTyped(key: string, v: Json) {
    if key == "locale" || key == "liturgicalDataPath" then v.JString? else v.JBool?
  }

  function BoolOption(fields: map<string, Json>, key: string, default: bool): Result<bool, OptionsError> {
    if key !in fields then Success(default)
    else if fields[key].JBool? then Success(fields[key].b)
    else Failure(InvalidOption(key))
  }

  function StringOption(fields: map<string, Json>, key: string, default: string): Result<string, OptionsError> {
    if key !in fields then Success(default)
    else if fields[key].JString? then Success(fields[key].s)
    else Failure(InvalidOption(key))
  }

  /** `OptionsSchema.parse(options || {})`. */
  function ResolveOptions(input: OptionsInput): Result<Options, OptionsError> {
    var f := input.fields;
    var epiphany :- BoolOption(f, "isEpiphanyOn6thJan", DefaultIsEpiphanyOn6thJan);
    var ascension :- BoolOption(f, "isAscensionOfTheLordOn40th", DefaultIsAscensionOfTheLordOn40th);
    var locale :- StringOption(f, "locale", DefaultLocale);
    var path :- StringOption(f, "liturgicalDataPath", BaseLiturgicalDataPath);
    Success(Options(epiphany, ascension, locale, path, input.additionalCalendar))
  }

  /** Options are rejected exactly when a known key carries a value of the
      wrong type, and the error names such a key. */
  lemma ResolveOptionsRejects(input: OptionsInput)
    ensures ResolveOptions(input).Failure? <==>
      exists k :: k in OptionKeys && k in input.fields && !WellTyped(k, input.fields[k])
    ensures ResolveOptions(input).Failure? ==>
      var k := ResolveOptions(input).error.key;
      k in OptionKeys && k in input.fields && !WellTyped(k, input.fields[k])
  {
    var f := input.fields;
    if exists k :: k in OptionKeys && k in f && !WellTyped(k, f[k]) {
      var k :| k in OptionKeys && k in f && !WellTyped(k, f[k]);
      assert k == "isEpiphanyOn6thJan" || k == "isAscensionOfTheLordOn40th" || k == "locale" || k == "liturgicalDataPath";
    }
  }

  /** An accepted option takes the caller's value where one is given and the
      default otherwise; the hook is passed through. */
  lemma ResolveOptionsValues(input: OptionsInput)
    requires ResolveOptions(input).Success?
    ensures var o := ResolveOptions(input).value;
      var f := input.fields;
      && o.isEpiphanyOn6thJan == (if "isEpiphanyOn6thJan" in f then f["isEpiphanyOn6thJan"].b else DefaultIsEpiphanyOn6thJan)
      && o.isAscensionOfTheLordOn40th ==
           (if "isAscensionOfTheLordOn40th" in f then f["isAscensionOfTheLordOn40th"].b else DefaultIsAscensionOfTheLordOn40th)
      && o.locale == (if "locale" in f then f["locale"].s else DefaultLocale)
      && o.liturgicalDataPath == (if "liturgicalDataPath" in f then f["liturgicalDataPath"].s else BaseLiturgicalDataPath)
      && o.additionalCalendar == input.additionalCalendar
  {
  }

  /** No options at all (`options || {}`) resolve to the defaults. */
  lemma EmptyOptionsAreDefaults(hook: Option<AdditionalCalendar>)
    ensures ResolveOptions(OptionsInput(map[], hook)) ==
      Success(Options(false, false, "en", "./liturgical", hook))
  {
  }
}
