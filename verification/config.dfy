/** The configuration store: the default settings, loading with fallback and
    merging of missing top-level keys, and the default weekly schedule. */
module Config {
  import opened Wrappers
  import opened Json
  import Schedule

  const WebHost := "0.0.0.0"
  const WebPort := 7777
  const StreamPort := 5959
  const StreamBitrate := 128

  const DefaultVolumes: Fields :=
    [("bell", JInt(100)), ("announcement", JInt(80)), ("music", JInt(60)), ("manual", JInt(70))]

  /** `DEFAULT_CONFIG`, with its keys in declaration order. */
  const DefaultFields: Fields := [
    ("company_name", JStr("NikolayCo SmartZill")),
    ("language", JStr("tr")),
    ("theme", JStr("dark")),
    ("volumes", JObj(DefaultVolumes)),
    ("tts", JObj([("engine", JStr("edge")), ("voice", JStr("tr-TR-AhmetNeural")), ("rate", JStr("+0%"))])),
    ("radio", JObj([("enabled", JBool(false)), ("url", JStr("")), ("stations", JArr([]))])),
    ("streaming", JObj([("enabled", JBool(false)), ("port", JInt(StreamPort)), ("bitrate", JInt(StreamBitrate))])),
    ("holidays", JObj([("enabled", JBool(true)), ("country", JStr("TR")), ("skip_on_holidays", JBool(true))])),
    ("startup", JObj([("auto_start", JBool(true)), ("open_browser", JBool(true)), ("play_startup_sound", JBool(true))])),
    ("security", JObj([("admin_password", JStr("admin"))]))
  ]

  const DefaultConfig := JObj(DefaultFields)

  /** What reading a data file produced: no file, a file that could not be
      opened or parsed, or the parsed content. */
  datatype FileRead<T> = Missing | Unreadable | Parsed(value: T)

  /** The outcome of `load_config`: the configuration and whether the
      defaults were written back to disk. */
  datatype Loaded = Loaded(config: Json, wroteDefault: bool)

  /** The merge loop of `load_config`: every default key the loaded value
      lacks is added with its default value. `None` is an exception inside the
      loop: `in` on a number, boolean or null, or item assignment on a list
      or string that lacks a key. */
  function MergeDefaults(j: Json, ds: Fields): (r: Option<Json>)
    ensures j.JObj? <==> r.Some? && r.value.JObj?
    ensures j.JObj? ==> forall k :: k in Keys(ds) ==> k in Keys(r.value.fields)
    ensures j.JObj? ==> forall k :: k in Keys(j.fields) ==> k in Keys(r.value.fields)
    ensures !j.JObj? ==> (r.Some? <==> forall k :: k in Keys(ds) ==> PyIn(k, j) == Some(true))
    ensures !j.JObj? && r.Some? ==> r.value == j
    decreases |ds|
  {
    if |ds| == 0 then Some(j)
    else
      var k := ds[0].0;
      assert Keys(ds) == [k] + Keys(ds[1..]);
      match PyIn(k, j)
      case None => None
      case Some(present) =>
        if present then MergeDefaults(j, ds[1..])
        else if j.JObj? then MergeDefaults(JObj(Put(j.fields, k, ds[0].1)), ds[1..])
        else None
  }

  /** `load_config`: a readable dictionary is completed from the defaults;
      a missing, unreadable or unusable file yields the defaults, which are
      then saved. */
  function LoadConfig(f: FileRead<Json>): (r: Loaded)
    ensures r.wroteDefault <==> r.config == DefaultConfig && !(f.Parsed? && MergeDefaults(f.value, DefaultFields).Some?)
    ensures !f.Parsed? ==> r == Loaded(DefaultConfig, true)
    ensures r.config.JObj? ==> forall k :: k in Keys(DefaultFields) ==> k in Keys(r.config.fields)
    ensures f.Parsed? && MergeDefaults(f.value, DefaultFields).Some? ==>
              r == Loaded(MergeDefaults(f.value, DefaultFields).value, false)
    ensures f.Parsed? && MergeDefaults(f.value, DefaultFields).None? ==> r == Loaded(DefaultConfig, true)
  {
    match f
    case Parsed(j) =>
      (match MergeDefaults(j, DefaultFields)
       case Some(c) => Loaded(c, false)
       case None => Loaded(DefaultConfig, true))
    case _ => Loaded(DefaultConfig, true)
  }

  /** Keys the user set keep their values; keys the user left out take the
      default's. */
  lemma {:induction false} MergeKeepsUserValues(fs: Fields, ds: Fields, k: string)
    ensures var r := MergeDefaults(JObj(fs), ds).value;
            && (k in Keys(fs) ==> Lookup(r.fields, k) == Lookup(fs, k))
            && (k !in Keys(fs) && k in Keys(ds) ==> Lookup(r.fields, k) == Lookup(ds, k))
            && (k !in Keys(fs) && k !in Keys(ds) ==> k !in Keys(r.fields))
    decreases |ds|
  {
    if |ds| > 0 {
      var d := ds[0].0;
      assert Keys(ds) == [d] + Keys(ds[1..]);
      if d in Keys(fs) {
        MergeKeepsUserValues(fs, ds[1..], k);
      } else {
        var fs' := Put(fs, d, ds[0].1);
        MergeKeepsUserValues(fs', ds[1..], k);
        if k != d {
          PutOther(fs, d, ds[0].1, k);
        }
      }
    }
  }

  /** A dictionary that already has every default key is returned unchanged. */
  lemma {:induction false} MergeComplete(fs: Fields, ds: Fields)
    requires forall k :: k in Keys(ds) ==> k in Keys(fs)
    ensures MergeDefaults(JObj(fs), ds) == Some(JObj(fs))
    decreases |ds|
  {
    if |ds| > 0 {
      assert Keys(ds) == [ds[0].0] + Keys(ds[1..]);
      MergeComplete(fs, ds[1..]);
    }
  }

  /** Saving a loaded configuration and loading it again gives it back:
      `load_config` is idempotent on its own output. */
  lemma LoadSavedConfig(f: FileRead<Json>)
    requires LoadConfig(f).config.JObj?
    ensures LoadConfig(Parsed(LoadConfig(f).config)) == Loaded(LoadConfig(f).config, false)
  {
    MergeComplete(LoadConfig(f).config.fields, DefaultFields);
  }

  /** Loading a user's dictionary keeps every value the user set and takes
      the default for every key the user left out. */
  lemma LoadKeepsUserSettings(fs: Fields, k: string)
    ensures var c := LoadConfig(Parsed(JObj(fs))).config;
            && c.JObj?
            && (k in Keys(fs) ==> Lookup(c.fields, k) == Lookup(fs, k))
            && (k !in Keys(fs) && k in Keys(DefaultFields) ==> Lookup(c.fields, k) == Lookup(DefaultFields, k))
            && (k !in Keys(fs) && k !in Keys(DefaultFields) ==> k !in Keys(c.fields))
  {
    MergeKeepsUserValues(fs, DefaultFields, k);
  }

  /** `load_schedule`: the parsed file, else the default template (which,
      unlike the configuration, is not written back). */
  function LoadSchedule(f: FileRead<Schedule.WeekSchedule>): (r: Schedule.WeekSchedule)
    ensures f.Parsed? ==> r == f.value
    ensures !f.Parsed? ==> r == DefaultSchedule()
  {
    if f.Parsed? then f.value else DefaultSchedule()
  }

  const DayNames := ["Pazartesi", "Salı", "Çarşamba", "Perşembe", "Cuma", "Cumartesi", "Pazar"]

  /** `get_default_schedule`: seven days numbered from Monday, weekdays
      enabled, no activities. */
  function DefaultSchedule(): (r: Schedule.WeekSchedule)
    ensures |r| == 7
    ensures forall i :: 0 <= i < 7 ==>
              && r[i].dayOfWeek == i && r[i].dayName == DayNames[i]
              && (r[i].enabled <==> i < 5) && r[i].activities == []
  {
    seq(7, i requires 0 <= i < 7 => Schedule.Day(i, DayNames[i], i < 5, []))
  }

  /** Every weekday of the default template is found by its number, and only
      Monday to Friday are enabled. */
  lemma DefaultScheduleDays(d: int)
    requires 0 <= d < 7
    ensures Schedule.GetDay(DefaultSchedule(), d) == Some(DefaultSchedule()[d])
    ensures Schedule.GetDay(DefaultSchedule(), d).value.enabled <==> d < 5
  {
    var s := DefaultSchedule();
    var i := Schedule.FindDay(s, d);
    assert s[d].dayOfWeek == d;
  }
}
