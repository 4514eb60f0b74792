/** The backup service: the password-free configuration copy a backup
    carries, restoring a JSON backup without ever replacing the current
    password, restoring the weekly programme from spreadsheet rows, and the
    listing and retention of backup files. Files are records passed in;
    file contents arrive as parsed values. */
module Backup {
  import opened Wrappers
  import opened Json
  import opened Text
  import Sorting
  import Config
  import Schedule

  /** `max_backups`. */
  const MaxBackups := 10

  // ---------------------------------------------------------------------------
  // The password
  // ---------------------------------------------------------------------------

  /** The configuration has a `security` dictionary with an `admin_password`. */
  predicate HasPassword(cfg: Fields) {
    Lookup(cfg, "security").Some? && Lookup(cfg, "security").value.JObj?
    && "admin_password" in Keys(Lookup(cfg, "security").value.fields)
  }

  function PasswordOf(cfg: Fields): Json
    requires HasPassword(cfg)
  {
    Lookup(Lookup(cfg, "security").value.fields, "admin_password").value
  }

  /** `_get_sanitized_config` on the loaded configuration: a copy whose
      `security.admin_password`, when there is one, is `""`. `None` is the
      exception raised when `security` is a value `in` rejects, or a list or
      string that mentions `admin_password`. */
  function SanitizedConfig(cfg: Fields): (r: Option<Fields>)
    ensures r.Some? ==> Keys(r.value) == Keys(cfg)
    ensures r.Some? ==> forall k :: k != "security" ==> Lookup(r.value, k) == Lookup(cfg, k)
    ensures r.Some? ==> HasPassword(r.value) == HasPassword(cfg)
    ensures r.Some? && HasPassword(r.value) ==> PasswordOf(r.value) == JStr("")
    ensures r.Some? && HasPassword(cfg) ==>
              var sec := Lookup(cfg, "security").value.fields;
              var sec' := Lookup(r.value, "security").value.fields;
              Keys(sec') == Keys(sec) && forall k :: k != "admin_password" ==> Lookup(sec', k) == Lookup(sec, k)
    ensures r.Some? && !HasPassword(cfg) ==> r.value == cfg
    ensures r.None? <==> Lookup(cfg, "security").Some? && !Lookup(cfg, "security").value.JObj?
                         && PyIn("admin_password", Lookup(cfg, "security").value) != Some(false)
  {
    match Lookup(cfg, "security")
    case None => Some(cfg)
    case Some(sec) =>
      match PyIn("admin_password", sec)
      case None => None
      case Some(has) =>
        if !has then Some(cfg)
        else if !sec.JObj? then None
        else
          var sec' := Put(sec.fields, "admin_password", JStr(""));
          var r := Put(cfg, "security", JObj(sec'));
          assert forall k :: k != "security" ==> Lookup(r, k) == Lookup(cfg, k) by {
            forall k | k != "security" ensures Lookup(r, k) == Lookup(cfg, k) {
              PutOther(cfg, "security", JObj(sec'), k);
            }
          }
          assert forall k :: k != "admin_password" ==> Lookup(sec', k) == Lookup(sec.fields, k) by {
            forall k | k != "admin_password" ensures Lookup(sec', k) == Lookup(sec.fields, k) {
              PutOther(sec.fields, "admin_password", JStr(""), k);
            }
          }
          Some(r)
  }

  /** Sanitising a sanitised configuration changes nothing more. */
  lemma SanitizeIdempotent(cfg: Fields)
    requires SanitizedConfig(cfg).Some?
    ensures SanitizedConfig(SanitizedConfig(cfg).value) == SanitizedConfig(cfg)
  {
    var c := SanitizedConfig(cfg).value;
    if HasPassword(cfg) {
      var sec := Lookup(cfg, "security").value.fields;
      var sec' := Put(sec, "admin_password", JStr(""));
      assert c == Put(cfg, "security", JObj(sec'));
      PutPut(sec, "admin_password", JStr(""), JStr(""));
      PutPut(cfg, "security", JObj(sec'), JObj(sec'));
    }
  }

  /** The `backup_data` record `create_backup_json` writes: format version,
      creation time, the sanitised configuration, the schedule and the
      special days. `None` is the exception sanitising raises. */
  function BackupData(cfg: Fields, schedule: Json, specialDays: Json, createdAt: string): (r: Option<Json>)
    ensures r.Some? <==> SanitizedConfig(cfg).Some?
    ensures r.Some? ==> r.value.JObj? && Keys(r.value.fields) == ["version", "created_at", "config", "schedule", "special_days"]
    ensures r.Some? ==> Lookup(r.value.fields, "config") == Some(JObj(SanitizedConfig(cfg).value))
  {
    match SanitizedConfig(cfg)
    case None => None
    case Some(c) =>
      Some(JObj([("version", JStr("2.0")), ("created_at", JStr(createdAt)), ("config", JObj(c)),
                 ("schedule", schedule), ("special_days", specialDays)]))
  }

  /** No backup carries a password: whatever the configuration held, the
      backed-up one has none or an empty one. */
  lemma BackupHoldsNoPassword(cfg: Fields, schedule: Json, specialDays: Json, createdAt: string)
    requires BackupData(cfg, schedule, specialDays, createdAt).Some?
    ensures var c := Lookup(BackupData(cfg, schedule, specialDays, createdAt).value.fields, "config").value.fields;
            HasPassword(c) ==> PasswordOf(c) == JStr("")
  {
  }

  // ---------------------------------------------------------------------------
  // Restoring a JSON backup
  // ---------------------------------------------------------------------------

  /** The configuration a restore saves: the backup's, with the current
      password forced into its `security` section (created if missing)
      whenever the current configuration has a password. `None` is the
      exception raised on a backed-up configuration or `security` section
      that is not a dictionary. */
  function KeepPassword(nc: Json, current: Fields): (r: Option<Json>)
    ensures Lookup(current, "security").None? || PyIn("admin_password", Lookup(current, "security").value) == Some(false)
            ==> r == Some(nc)
    ensures HasPassword(current) ==>
              (r.Some? <==> nc.JObj? && Lookup(nc.fields, "security").GetOr(JObj([])).JObj?)
    ensures HasPassword(current) && r.Some? ==>
              && r.value.JObj?
              && HasPassword(r.value.fields)
              && PasswordOf(r.value.fields) == PasswordOf(current)
              && (forall k :: k != "security" ==> Lookup(r.value.fields, k) == Lookup(nc.fields, k))
  {
    match Lookup(current, "security")
    case None => Some(nc)
    case Some(sec) =>
      match PyIn("admin_password", sec)
      case None => None
      case Some(has) =>
        if !has then Some(nc)
        else if !sec.JObj? || !nc.JObj? then None
        else
          var ns := Lookup(nc.fields, "security").GetOr(JObj([]));
          if !ns.JObj? then None
          else
            var p := Lookup(sec.fields, "admin_password").value;
            var r := Put(nc.fields, "security", JObj(Put(ns.fields, "admin_password", p)));
            assert forall k :: k != "security" ==> Lookup(r, k) == Lookup(nc.fields, k) by {
              forall k | k != "security" ensures Lookup(r, k) == Lookup(nc.fields, k) {
                PutOther(nc.fields, "security", JObj(Put(ns.fields, "admin_password", p)), k);
              }
            }
            Some(JObj(r))
  }

  /** What a restore writes: each part is `None` when it is left alone. */
  datatype Restore = Restore(config: Option<Json>, schedule: Option<Json>, specialDays: Option<Json>)

  /** `restore_from_json`: the writes a successful restore makes, or `None`
      for `False` (an unreadable file, a backup that is not a dictionary, or
      an exception while keeping the password), in which case nothing is
      written. */
  function RestoreFromJson(f: Config.FileRead<Json>, current: Fields): (r: Option<Restore>)
    ensures !f.Parsed? || !f.value.JObj? ==> r.None?
    ensures f.Parsed? && f.value.JObj? ==>
              (r.Some? <==> Lookup(f.value.fields, "config").None?
                            || KeepPassword(Lookup(f.value.fields, "config").value, current).Some?)
    ensures r.Some? ==> r.value.schedule == Lookup(f.value.fields, "schedule")
    ensures r.Some? ==> r.value.specialDays == Lookup(f.value.fields, "special_days")
    ensures r.Some? ==> (r.value.config.Some? <==> "config" in Keys(f.value.fields))
    ensures r.Some? && r.value.config.Some? ==>
              r.value.config == KeepPassword(Lookup(f.value.fields, "config").value, current)
  {
    if !f.Parsed? || !f.value.JObj? then None
    else
      var b := f.value.fields;
      match Lookup(b, "config")
      case None => Some(Restore(None, Lookup(b, "schedule"), Lookup(b, "special_days")))
      case Some(nc) =>
        match KeepPassword(nc, current)
        case None => None
        case Some(c) => Some(Restore(Some(c), Lookup(b, "schedule"), Lookup(b, "special_days")))
  }

  /** A successful restore never changes the password: whenever the current
      configuration has one, so does the saved configuration, with the same
      value, whatever the backup says. */
  lemma RestoreKeepsCurrentPassword(f: Config.FileRead<Json>, current: Fields)
    requires HasPassword(current)
    requires RestoreFromJson(f, current).Some? && RestoreFromJson(f, current).value.config.Some?
    ensures var c := RestoreFromJson(f, current).value.config.value;
            c.JObj? && HasPassword(c.fields) && PasswordOf(c.fields) == PasswordOf(current)
  {
  }

  /** Putting the current password back into the sanitised configuration
      gives the configuration itself. */
  lemma KeepPasswordUndoesSanitize(cfg: Fields)
    requires UniqueKeys(cfg) && HasPassword(cfg)
    requires UniqueKeys(Lookup(cfg, "security").value.fields)
    ensures SanitizedConfig(cfg).Some?
    ensures KeepPassword(JObj(SanitizedConfig(cfg).value), cfg) == Some(JObj(cfg))
  {
    var sec := Lookup(cfg, "security").value.fields;
    var p := PasswordOf(cfg);
    var sec' := Put(sec, "admin_password", JStr(""));
    var c := Put(cfg, "security", JObj(sec'));
    SanitizeThenKeep(cfg);
    PutPut(sec, "admin_password", JStr(""), p);
    PutExisting(sec, "admin_password");
    PutPut(cfg, "security", JObj(sec'), JObj(sec));
    PutExisting(cfg, "security");
  }

  /** When the current configuration has a password and the new one has a
      security section, keeping the password writes the current one into
      that section. */
  lemma KeepPasswordWrites(nc: Fields, ns: Fields, current: Fields)
    requires HasPassword(current)
    requires Lookup(nc, "security") == Some(JObj(ns))
    ensures KeepPassword(JObj(nc), current)
            == Some(JObj(Put(nc, "security", JObj(Put(ns, "admin_password", PasswordOf(current))))))
  {
    assert PyIn("admin_password", Lookup(current, "security").value) == Some(true);
  }

  /** Sanitising blanks the password inside the security section, and
      keeping the password puts the original one back into that section. */
  lemma SanitizeThenKeep(cfg: Fields)
    requires HasPassword(cfg)
    ensures var sec' := Put(Lookup(cfg, "security").value.fields, "admin_password", JStr(""));
            var c := Put(cfg, "security", JObj(sec'));
            && SanitizedConfig(cfg) == Some(c)
            && KeepPassword(JObj(c), cfg) == Some(JObj(Put(c, "security", JObj(Put(sec', "admin_password", PasswordOf(cfg))))))
  {
    var sec' := Put(Lookup(cfg, "security").value.fields, "admin_password", JStr(""));
    var c := Put(cfg, "security", JObj(sec'));
    assert SanitizedConfig(cfg) == Some(c);
    KeepPasswordWrites(c, sec', cfg);
  }

  /** Without a password, sanitising and restoring both leave the
      configuration as it is. */
  lemma KeepPasswordWithoutPassword(cfg: Fields)
    requires !HasPassword(cfg) && SanitizedConfig(cfg).Some?
    ensures KeepPassword(JObj(SanitizedConfig(cfg).value), cfg) == Some(JObj(cfg))
  {
  }

  /** The fields of a backup record, read back one by one. */
  lemma BackupDataParts(cfg: Fields, schedule: Json, specialDays: Json, createdAt: string)
    requires BackupData(cfg, schedule, specialDays, createdAt).Some?
    ensures var b := BackupData(cfg, schedule, specialDays, createdAt).value.fields;
            && Lookup(b, "schedule") == Some(schedule)
            && Lookup(b, "special_days") == Some(specialDays)
            && Lookup(b, "config") == Some(JObj(SanitizedConfig(cfg).value))
  {
    var c := SanitizedConfig(cfg).value;
    var t4: Fields := [("special_days", specialDays)];
    var t3: Fields := [("schedule", schedule)] + t4;
    var t2: Fields := [("config", JObj(c))] + t3;
    var t1: Fields := [("created_at", JStr(createdAt))] + t2;
    var b: Fields := [("version", JStr("2.0"))] + t1;
    assert BackupData(cfg, schedule, specialDays, createdAt).value.fields == b;
    LookupHead("special_days", specialDays, [], "special_days");
    LookupHead("schedule", schedule, t4, "special_days");
    LookupHead("schedule", schedule, t4, "schedule");
    LookupHead("config", JObj(c), t3, "special_days");
    LookupHead("config", JObj(c), t3, "schedule");
    LookupHead("config", JObj(c), t3, "config");
    LookupHead("created_at", JStr(createdAt), t2, "special_days");
    LookupHead("created_at", JStr(createdAt), t2, "schedule");
    LookupHead("created_at", JStr(createdAt), t2, "config");
    LookupHead("version", JStr("2.0"), t1, "special_days");
    LookupHead("version", JStr("2.0"), t1, "schedule");
    LookupHead("version", JStr("2.0"), t1, "config");
  }

  /** Restoring a backup taken of the current configuration gives back
      exactly that configuration, password included. */
  lemma RestoreOwnBackup(cfg: Fields, schedule: Json, specialDays: Json, createdAt: string)
    requires UniqueKeys(cfg)
    requires HasPassword(cfg) ==> UniqueKeys(Lookup(cfg, "security").value.fields)
    requires BackupData(cfg, schedule, specialDays, createdAt).Some?
    ensures RestoreFromJson(Config.Parsed(BackupData(cfg, schedule, specialDays, createdAt).value), cfg)
            == Some(Restore(Some(JObj(cfg)), Some(schedule), Some(specialDays)))
  {
    var b := BackupData(cfg, schedule, specialDays, createdAt).value;
    var c := SanitizedConfig(cfg).value;
    BackupDataParts(cfg, schedule, specialDays, createdAt);
    assert KeepPassword(JObj(c), cfg) == Some(JObj(cfg)) by {
      if HasPassword(cfg) {
        KeepPasswordUndoesSanitize(cfg);
      } else {
        KeepPasswordWithoutPassword(cfg);
      }
    }
    assert Lookup(b.fields, "config") == Some(JObj(c));
    RestoreFromJsonOfConfig(b, cfg, JObj(cfg));
  }

  /** Restoring a backup whose configuration survives `KeepPassword` as `c`. */
  lemma RestoreFromJsonOfConfig(b: Json, current: Fields, c: Json)
    requires b.JObj? && Lookup(b.fields, "config").Some?
    requires KeepPassword(Lookup(b.fields, "config").value, current) == Some(c)
    ensures RestoreFromJson(Config.Parsed(b), current)
            == Some(Restore(Some(c), Lookup(b.fields, "schedule"), Lookup(b.fields, "special_days")))
  {
  }

  // ---------------------------------------------------------------------------
  // Restoring from a spreadsheet
  // ---------------------------------------------------------------------------

  /** The activity columns of one programme row. */
  datatype Entry = Entry(name: string, startTime: string, endTime: string,
                         startSoundId: string, endSoundId: string, playMusic: bool)

  /** One row of the "Haftalık Program" sheet after conversion: the day
      number, the day's active flag, and the activity. */
  datatype Row = Row(dayNo: int, active: bool, entry: Entry)

  /** A spreadsheet cell as the reader hands it over: a column the sheet
      lacks, an empty cell (a NaN), a whole number, text or a boolean. */
  datatype Cell = Absent | Blank | Number(n: int) | Text(s: string) | Flag(b: bool)

  /** The cells of one programme row, by column: "Gün No", "Aktif",
      "Etkinlik Adı", "Başlangıç", "Bitiş", "Başlangıç Zili", "Bitiş Zili"
      and "Müzik". */
  datatype RawRow = RawRow(dayNo: Cell, active: Cell, name: Cell, startTime: Cell, endTime: Cell,
                           startSound: Cell, endSound: Cell, music: Cell)

  /** `int(row.get(column, default))`. `None` is the error Python raises:
      `int` of a NaN, or of text that is not a number. */
  function CellInt(c: Cell, default: int): (r: Option<int>)
    ensures c.Blank? ==> r.None?
    ensures c.Absent? ==> r == Some(default)
    ensures c.Number? ==> r == Some(c.n)
  {
    match c
    case Absent => Some(default)
    case Blank => None
    case Number(n) => Some(n)
    case Text(t) => ParseInt(t)
    case Flag(b) => Some(if b then 1 else 0)
  }

  /** `str(row.get(column, default))`: an empty cell is the text "nan". */
  function CellStr(c: Cell, default: string): (r: string)
    ensures c.Blank? ==> r == "nan"
    ensures c.Absent? ==> r == default
    ensures c.Text? ==> r == c.s
  {
    match c
    case Absent => default
    case Blank => "nan"
    case Number(n) => if n >= 0 then NatToString(n) else "-" + NatToString(-n)
    case Text(t) => t
    case Flag(b) => if b then "True" else "False"
  }

  /** `bool(row.get(column, default))`: a NaN is true. */
  function CellBool(c: Cell, default: bool): (r: bool)
    ensures c.Blank? ==> r
    ensures c.Absent? ==> r == default
    ensures c.Flag? ==> r == c.b
  {
    match c
    case Absent => default
    case Blank => true
    case Number(n) => n != 0
    case Text(t) => t != ""
    case Flag(b) => b
  }

  /** The conversions the loop body applies to one row; `None` when the day
      number raises. */
  function ConvertRow(raw: RawRow): (r: Option<Row>)
    ensures r.Some? <==> CellInt(raw.dayNo, 0).Some?
    ensures r.Some? ==> r.value.dayNo == CellInt(raw.dayNo, 0).value
                        && r.value.active == CellBool(raw.active, true)
    ensures r.Some? ==> && r.value.entry.name == CellStr(raw.name, "")
                        && r.value.entry.startTime == CellStr(raw.startTime, "")
                        && r.value.entry.endTime == CellStr(raw.endTime, "")
                        && r.value.entry.startSoundId == CellStr(raw.startSound, "")
                        && r.value.entry.endSoundId == CellStr(raw.endSound, "")
                        && r.value.entry.playMusic == CellBool(raw.music, false)
  {
    match CellInt(raw.dayNo, 0)
    case None => None
    case Some(d) =>
      Some(Row(d, CellBool(raw.active, true),
               Entry(CellStr(raw.name, ""), CellStr(raw.startTime, ""), CellStr(raw.endTime, ""),
                     CellStr(raw.startSound, ""), CellStr(raw.endSound, ""), CellBool(raw.music, false))))
  }

  /** Every row converted, or `None` when any row raises (the loop stops
      there, before anything is saved). */
  function ConvertRows(raws: seq<RawRow>): (r: Option<seq<Row>>)
    ensures r.Some? <==> forall k :: 0 <= k < |raws| ==> ConvertRow(raws[k]).Some?
    ensures r.Some? ==> |r.value| == |raws| && forall k :: 0 <= k < |raws| ==> r.value[k] == ConvertRow(raws[k]).value
  {
    if forall k :: 0 <= k < |raws| ==> ConvertRow(raws[k]).Some? then
      Some(seq(|raws|, k requires 0 <= k < |raws| => ConvertRow(raws[k]).value))
    else None
  }

  function EntryOf(a: Schedule.Activity): Entry {
    Entry(a.name, a.startTime, a.endTime, a.startSoundId, a.endSoundId, a.playMusic)
  }

  function Entries(acts: seq<Schedule.Activity>): (r: seq<Entry>)
    ensures |r| == |acts| && forall k :: 0 <= k < |acts| ==> r[k] == EntryOf(acts[k])
  {
    seq(|acts|, k requires 0 <= k < |acts| => EntryOf(acts[k]))
  }

  /** `activity_<timestamp>_<n>`, `n` the number of activities the day
      already had. */
  function ActivityId(stamp: string, n: nat): string {
    "activity_" + stamp + "_" + NatToString(n)
  }

  /** The activity record a row becomes; the keys the row does not set are
      absent, which the scheduler reads as empty. */
  function NewActivity(e: Entry, id: string): (a: Schedule.Activity)
    ensures EntryOf(a) == e && a.id == id
  {
    Schedule.Activity(id, e.name, "", e.startTime, e.endTime, e.startSoundId, e.endSoundId, "", "", e.playMusic, [], [])
  }

  /** Every day's activities emptied. */
  function ClearActivities(s: Schedule.WeekSchedule): (r: Schedule.WeekSchedule)
    ensures |r| == |s| && forall i :: 0 <= i < |s| ==> r[i] == s[i].(activities := [])
  {
    seq(|s|, i requires 0 <= i < |s| => s[i].(activities := []))
  }

  /** Same days, in the same order, with the same numbers and names. */
  predicate SameDays(s: Schedule.WeekSchedule, t: Schedule.WeekSchedule) {
    |s| == |t| && forall i :: 0 <= i < |s| ==> s[i].dayOfWeek == t[i].dayOfWeek && s[i].dayName == t[i].dayName
  }

  lemma {:induction false} FindDaySameDays(s: Schedule.WeekSchedule, t: Schedule.WeekSchedule, d: int)
    requires SameDays(s, t)
    ensures Schedule.FindDay(s, d) == Schedule.FindDay(t, d)
    decreases |s|
  {
    if |s| > 0 && s[0].dayOfWeek != d {
      FindDaySameDays(s[1..], t[1..], d);
    }
  }

  /** The loop body for one row: the first day whose number is the row's
      takes the row's active flag and gets the activity appended. */
  function PlaceRow(s: Schedule.WeekSchedule, row: Row, stamp: string): (r: Schedule.WeekSchedule)
    ensures SameDays(s, r)
  {
    match Schedule.FindDay(s, row.dayNo)
    case None => s
    case Some(j) =>
      var a := NewActivity(row.entry, ActivityId(stamp, |s[j].activities|));
      s[j := s[j].(enabled := row.active, activities := s[j].activities + [a])]
  }

  /** The loop over the rows; `clock(i)` is the timestamp when row `i` is
      placed. */
  function PlaceRows(s: Schedule.WeekSchedule, rows: seq<Row>, clock: nat -> string, i: nat): (r: Schedule.WeekSchedule)
    ensures SameDays(s, r)
    decreases |rows|
  {
    if |rows| == 0 then s
    else PlaceRows(PlaceRow(s, rows[0], clock(i)), rows[1..], clock, i + 1)
  }

  /** The row goes to day `j`. */
  predicate Targets(s: Schedule.WeekSchedule, row: Row, j: nat) {
    Schedule.FindDay(s, row.dayNo) == Some(j)
  }

  /** The activities of the rows that go to day `j`, in row order. */
  function EntriesFor(rows: seq<Row>, s: Schedule.WeekSchedule, j: nat): seq<Entry>
    decreases |rows|
  {
    if |rows| == 0 then []
    else (if Targets(s, rows[0], j) then [rows[0].entry] else []) + EntriesFor(rows[1..], s, j)
  }

  /** The active flag of the last row that goes to day `j`, if any. */
  function LastActive(rows: seq<Row>, s: Schedule.WeekSchedule, j: nat): Option<bool>
    decreases |rows|
  {
    if |rows| == 0 then None
    else match LastActive(rows[1..], s, j)
      case Some(b) => Some(b)
      case None => if Targets(s, rows[0], j) then Some(rows[0].active) else None
  }

  lemma {:induction false} EntriesForSameDays(rows: seq<Row>, s: Schedule.WeekSchedule, t: Schedule.WeekSchedule, j: nat)
    requires SameDays(s, t)
    ensures EntriesFor(rows, s, j) == EntriesFor(rows, t, j)
    ensures LastActive(rows, s, j) == LastActive(rows, t, j)
    decreases |rows|
  {
    if |rows| > 0 {
      FindDaySameDays(s, t, rows[0].dayNo);
      EntriesForSameDays(rows[1..], s, t, j);
    }
  }

  lemma PlaceRowDay(s: Schedule.WeekSchedule, row: Row, stamp: string, j: nat)
    requires j < |s|
    ensures var r := PlaceRow(s, row, stamp);
            && Entries(r[j].activities) == Entries(s[j].activities) + (if Targets(s, row, j) then [row.entry] else [])
            && r[j].enabled == (if Targets(s, row, j) then row.active else s[j].enabled)
  {
    var r := PlaceRow(s, row, stamp);
    if Targets(s, row, j) {
      var a := NewActivity(row.entry, ActivityId(stamp, |s[j].activities|));
      assert r[j].activities == s[j].activities + [a];
      assert Entries(s[j].activities + [a]) == Entries(s[j].activities) + [row.entry];
    } else {
      assert r[j] == s[j];
    }
  }

  /** After the loop, day `j` holds its earlier activities followed by those
      of every row that goes to it, in row order. */
  lemma {:induction false} PlaceRowsEntries(s: Schedule.WeekSchedule, rows: seq<Row>, clock: nat -> string, i: nat, j: nat)
    requires j < |s|
    ensures Entries(PlaceRows(s, rows, clock, i)[j].activities) == Entries(s[j].activities) + EntriesFor(rows, s, j)
    decreases |rows|
  {
    if |rows| == 0 {
      assert Entries(s[j].activities) + [] == Entries(s[j].activities);
    } else {
      var s1 := PlaceRow(s, rows[0], clock(i));
      assert PlaceRows(s, rows, clock, i) == PlaceRows(s1, rows[1..], clock, i + 1);
      PlaceRowDay(s, rows[0], clock(i), j);
      PlaceRowsEntries(s1, rows[1..], clock, i + 1, j);
      EntriesForSameDays(rows[1..], s, s1, j);
      var head := if Targets(s, rows[0], j) then [rows[0].entry] else [];
      assert EntriesFor(rows, s, j) == head + EntriesFor(rows[1..], s, j);
      Associate(Entries(s[j].activities), head, EntriesFor(rows[1..], s, j));
    }
  }

  lemma Associate<T>(a: seq<T>, b: seq<T>, c: seq<T>)
    ensures a + b + c == a + (b + c)
  {
  }

  /** After the loop, day `j` carries the active flag of the last row that
      goes to it, or its own when none does. */
  lemma {:induction false} PlaceRowsEnabled(s: Schedule.WeekSchedule, rows: seq<Row>, clock: nat -> string, i: nat, j: nat)
    requires j < |s|
    ensures PlaceRows(s, rows, clock, i)[j].enabled == LastActive(rows, s, j).GetOr(s[j].enabled)
    decreases |rows|
  {
    if |rows| > 0 {
      var s1 := PlaceRow(s, rows[0], clock(i));
      assert PlaceRows(s, rows, clock, i) == PlaceRows(s1, rows[1..], clock, i + 1);
      PlaceRowDay(s, rows[0], clock(i), j);
      PlaceRowsEnabled(s1, rows[1..], clock, i + 1, j);
      EntriesForSameDays(rows[1..], s, s1, j);
    }
  }

  /** `_load_special_days`: the file's content, or the empty default when it
      is missing or unreadable. */
  function LoadSpecialDays(f: Config.FileRead<Json>): (r: Json)
    ensures f.Parsed? ==> r == f.value
    ensures !f.Parsed? ==> r.JObj? && Lookup(r.fields, "people") == Some(JArr([]))
  {
    match f
    case Parsed(v) => v
    case _ => JObj([("enabled", JBool(true)), ("people", JArr([]))])
  }

  /** The sheets of a spreadsheet backup that the restore reads. */
  datatype Workbook = Workbook(programme: Option<seq<RawRow>>, people: Option<seq<Json>>)

  /** What a spreadsheet restore does: its answer and the files it wrote. */
  datatype ExcelRestore = ExcelRestore(ok: bool, schedule: Option<Schedule.WeekSchedule>, specialDays: Option<Json>)

  /** Whether the programme sheet, if there is one, converts without error. */
  predicate RowsConvert(wb: Workbook) {
    wb.programme.Some? ==> ConvertRows(wb.programme.value).Some?
  }

  /** `restore_from_excel`. An unreadable workbook (`None`) writes nothing
      and answers `False`, and so does a programme row whose day number
      raises, since the schedule is saved only after the loop. A programme sheet replaces every day's
      activities by the rows that go to it; a birthday sheet replaces the
      `people` of the special days, and answers `False` after the schedule
      was already saved when the special days are not a dictionary. */
  function RestoreFromExcel(book: Option<Workbook>, schedule: Schedule.WeekSchedule, special: Config.FileRead<Json>, clock: nat -> string): (r: ExcelRestore)
    ensures book.None? ==> r == ExcelRestore(false, None, None)
    ensures book.Some? && !RowsConvert(book.value) ==> r == ExcelRestore(false, None, None)
    ensures book.Some? ==> (r.schedule.Some? <==> book.value.programme.Some? && RowsConvert(book.value))
    ensures r.schedule.Some? ==>
              var rows := ConvertRows(book.value.programme.value).value;
              var s := r.schedule.value;
              && SameDays(schedule, s)
              && forall j :: 0 <= j < |s| ==>
                   && Entries(s[j].activities) == EntriesFor(rows, schedule, j)
                   && s[j].enabled == LastActive(rows, schedule, j).GetOr(schedule[j].enabled)
    ensures book.Some? && RowsConvert(book.value) && book.value.people.Some? ==>
              (r.ok <==> LoadSpecialDays(special).JObj?)
    ensures r.specialDays.Some? ==> book.Some? && book.value.people.Some?
    ensures book.Some? && RowsConvert(book.value) && book.value.people.Some? && LoadSpecialDays(special).JObj? ==>
              r.specialDays.Some?
    ensures r.specialDays.Some? && book.Some? && book.value.people.Some? ==>
              var sd := LoadSpecialDays(special);
              && sd.JObj?
              && r.specialDays.value.JObj?
              && Lookup(r.specialDays.value.fields, "people") == Some(JArr(book.value.people.value))
              && forall k :: k != "people" ==> Lookup(r.specialDays.value.fields, k) == Lookup(sd.fields, k)
    ensures book.Some? && RowsConvert(book.value) && book.value.people.None? ==> r.ok && r.specialDays.None?
  {
    match book
    case None => ExcelRestore(false, None, None)
    case Some(wb) =>
      if !RowsConvert(wb) then ExcelRestore(false, None, None)
      else
      var programme := if wb.programme.Some? then Some(ConvertRows(wb.programme.value).value) else None;
      var saved := match programme
        case None => None
        case Some(rows) => Some(PlaceRows(ClearActivities(schedule), rows, clock, 0));
      assert saved.Some? ==> SameDays(schedule, saved.value) by {
        if saved.Some? {
          assert SameDays(schedule, ClearActivities(schedule));
        }
      }
      assert saved.Some? ==> forall j :: 0 <= j < |saved.value| ==>
               && Entries(saved.value[j].activities) == EntriesFor(programme.value, schedule, j)
               && saved.value[j].enabled == LastActive(programme.value, schedule, j).GetOr(schedule[j].enabled) by {
        if saved.Some? {
          var rows := programme.value;
          var c := ClearActivities(schedule);
          forall j | 0 <= j < |saved.value|
            ensures Entries(saved.value[j].activities) == EntriesFor(rows, schedule, j)
            ensures saved.value[j].enabled == LastActive(rows, schedule, j).GetOr(schedule[j].enabled)
          {
            PlaceRowsEntries(c, rows, clock, 0, j);
            PlaceRowsEnabled(c, rows, clock, 0, j);
            EntriesForSameDays(rows, c, schedule, j);
            assert Entries(c[j].activities) == [];
          }
        }
      }
      match wb.people
      case None => ExcelRestore(true, saved, None)
      case Some(ps) =>
        var sd := LoadSpecialDays(special);
        if !sd.JObj? then ExcelRestore(false, saved, None)
        else
          var r := Put(sd.fields, "people", JArr(ps));
          assert forall k :: k != "people" ==> Lookup(r, k) == Lookup(sd.fields, k) by {
            forall k | k != "people" ensures Lookup(r, k) == Lookup(sd.fields, k) {
              PutOther(sd.fields, "people", JArr(ps), k);
            }
          }
          ExcelRestore(true, saved, Some(JObj(r)))
  }

  /** A programme row with an empty "Gün No" cell makes the whole restore
      fail before anything is saved, the birthday sheet included. */
  lemma BlankDayNumberRestoresNothing(wb: Workbook, k: nat, schedule: Schedule.WeekSchedule,
                                      special: Config.FileRead<Json>, clock: nat -> string)
    requires wb.programme.Some? && k < |wb.programme.value| && wb.programme.value[k].dayNo.Blank?
    ensures RestoreFromExcel(Some(wb), schedule, special, clock) == ExcelRestore(false, None, None)
  {
    assert ConvertRow(wb.programme.value[k]).None?;
  }

  /** Empty cells of a row with a day number convert as pandas' NaN does:
      the active and music flags become true and the sound ids the text
      "nan", which the scheduler then treats as a sound to play. */
  lemma BlankCellsReadAsNan(raw: RawRow)
    requires raw.dayNo.Number?
    requires raw.active.Blank? && raw.music.Blank? && raw.startSound.Blank? && raw.endSound.Blank?
    ensures ConvertRow(raw).Some?
    ensures var row := ConvertRow(raw).value;
            && row.dayNo == raw.dayNo.n && row.active && row.entry.playMusic
            && row.entry.startSoundId == "nan" && row.entry.endSoundId == "nan"
  {
  }

  /** A day that is not the first with its number ends up empty after a
      spreadsheet restore: rows only ever go to the first one. */
  lemma ShadowedDayEmptied(rows: seq<Row>, s: Schedule.WeekSchedule, j: nat, k: nat)
    requires k < j < |s| && s[k].dayOfWeek == s[j].dayOfWeek
    ensures EntriesFor(rows, s, j) == []
    decreases |rows|
  {
    if |rows| > 0 {
      ShadowedDayEmptied(rows[1..], s, j, k);
    }
  }

  // ---------------------------------------------------------------------------
  // Listing and retention
  // ---------------------------------------------------------------------------

  /** A directory entry: its name, size and modification time. */
  datatype FileInfo = FileInfo(name: string, size: int, mtime: int)

  /** The position of the last '.' in `s`. */
  function LastDot(s: string): (r: Option<nat>)
    ensures r.Some? ==> r.value < |s| && s[r.value] == '.' && '.' !in s[r.value + 1..]
    ensures r.None? ==> '.' !in s
    decreases |s|
  {
    if |s| == 0 then None
    else if s[|s| - 1] == '.' then Some(|s| - 1)
    else
      var r := LastDot(s[..|s| - 1]);
      assert s == s[..|s| - 1] + [s[|s| - 1]];
      if r.Some? then
        assert s[r.value + 1..] == s[..|s| - 1][r.value + 1..] + [s[|s| - 1]];
        r
      else r
  }

  /** `Path(name).suffix`: from the last '.', unless that dot starts the
      name or ends it. */
  function Suffix(name: string): (r: string)
    ensures r == "" || (r[0] == '.' && |r| >= 2 && |r| < |name| && r == name[|name| - |r|..] && '.' !in r[1..])
  {
    match LastDot(name)
    case Some(i) => if 0 < i < |name| - 1 then name[i..] else ""
    case None => ""
  }

  /** A name with the extension `ext` (a dot and no further dot) at its end,
      after at least one other character, has that suffix, and only then. */
  lemma SuffixIsEnding(name: string, ext: string)
    requires |ext| >= 2 && ext[0] == '.' && '.' !in ext[1..]
    ensures Suffix(name) == ext <==> |name| > |ext| && name[|name| - |ext|..] == ext
  {
    if |name| > |ext| && name[|name| - |ext|..] == ext {
      var p := |name| - |ext|;
      assert name[p] == '.';
      assert name[p + 1..] == ext[1..];
      var r := LastDot(name);
    }
  }

  /** `f.suffix in (".json", ".xlsx")`. */
  predicate IsBackupFile(f: FileInfo) {
    Suffix(f.name) == ".json" || Suffix(f.name) == ".xlsx"
  }

  function NameOf(f: FileInfo): string {
    f.name
  }

  function MtimeOf(f: FileInfo): int {
    f.mtime
  }

  /** The files `get_backup_list` lists: the directory in descending name
      order, backup files only, the first `MaxBackups` of them. */
  function ListedBackups(dir: seq<FileInfo>): (r: seq<FileInfo>)
    ensures |r| <= MaxBackups
    ensures forall f :: f in r ==> f in dir && IsBackupFile(f)
    ensures forall i, j :: 0 <= i < j < |r| ==> Le(r[j].name, r[i].name)
    ensures |r| < MaxBackups ==> forall f :: f in dir && IsBackupFile(f) ==> f in r
    ensures forall f, g :: f in dir && IsBackupFile(f) && f !in r && g in r ==> Le(f.name, g.name)
  {
    var ge := (a: string, b: string) => Le(b, a);
    Schedule.LeIsTotalPreorder();
    Sorting.SortDescBySorted(dir, NameOf, Le);
    var ordered := Sorting.SortDescBy(dir, NameOf, Le);
    assert Sorting.SortedBy(ordered, NameOf, ge);
    assert forall f :: f in ordered <==> f in dir by {
      forall f ensures f in ordered <==> f in dir {
        assert f in ordered <==> f in multiset(ordered);
      }
    }
    var bs := Sorting.Filter(ordered, IsBackupFile);
    Sorting.FilterSorted(ordered, IsBackupFile, NameOf, ge);
    var n := if |bs| < MaxBackups then |bs| else MaxBackups;
    Sorting.PrefixBound(bs, n, NameOf, ge);
    bs[..n]
  }

  /** One line of the backup list. */
  datatype BackupEntry = BackupEntry(filename: string, size: int, mtime: int, isJson: bool)

  /** `get_backup_list`: the listed files, each with its type, "json" for a
      `.json` file and "excel" otherwise. */
  function GetBackupList(dir: seq<FileInfo>): (r: seq<BackupEntry>)
    ensures var fs := ListedBackups(dir);
            && |r| == |fs|
            && forall i :: 0 <= i < |fs| ==>
                 r[i] == BackupEntry(fs[i].name, fs[i].size, fs[i].mtime, Suffix(fs[i].name) == ".json")
  {
    var fs := ListedBackups(dir);
    seq(|fs|, i requires 0 <= i < |fs| => BackupEntry(fs[i].name, fs[i].size, fs[i].mtime, Suffix(fs[i].name) == ".json"))
  }

  /** What `_cleanup_old_backups` decides: the backups it keeps and those
      it deletes. */
  datatype Cleanup = Cleanup(kept: seq<FileInfo>, deleted: seq<FileInfo>)

  /** `_cleanup_old_backups`: the backup files by descending modification
      time; all after the first `MaxBackups` are deleted. */
  function CleanupOldBackups(dir: seq<FileInfo>): (r: Cleanup)
    ensures multiset(r.kept + r.deleted) == multiset(Sorting.Filter(dir, IsBackupFile))
    ensures |r.kept| == if |Sorting.Filter(dir, IsBackupFile)| < MaxBackups then |Sorting.Filter(dir, IsBackupFile)| else MaxBackups
    ensures forall f :: f in r.deleted ==> f in dir && IsBackupFile(f)
    ensures forall f, g :: f in r.deleted && g in r.kept ==> f.mtime <= g.mtime
  {
    KeepNewest(Sorting.Filter(dir, IsBackupFile))
  }

  /** The newest `MaxBackups` of `bs` are kept, the rest deleted. */
  function KeepNewest(bs: seq<FileInfo>): (r: Cleanup)
    ensures multiset(r.kept + r.deleted) == multiset(bs)
    ensures |r.kept| == if |bs| < MaxBackups then |bs| else MaxBackups
    ensures forall f :: f in r.deleted ==> f in bs
    ensures forall f, g :: f in r.deleted && g in r.kept ==> f.mtime <= g.mtime
  {
    var ordered := Sorting.SortDescBy(bs, MtimeOf, (a: int, b: int) => a <= b);
    var n := if |ordered| < MaxBackups then |ordered| else MaxBackups;
    assert forall i, j :: 0 <= i < j < |ordered| ==> ordered[j].mtime <= ordered[i].mtime by {
      Sorting.IntLeIsTotalPreorder();
      Sorting.SortDescBySorted(bs, MtimeOf, (a: int, b: int) => a <= b);
    }
    NewestFirstSplit(ordered, n);
    assert ordered == ordered[..n] + ordered[n..];
    assert forall f :: f in ordered[n..] ==> f in bs by {
      forall f | f in ordered[n..] ensures f in bs {
        assert f in multiset(ordered);
      }
    }
    Cleanup(ordered[..n], ordered[n..])
  }

  /** Cut anywhere, a list newest first keeps the newer files in front. */
  lemma NewestFirstSplit(ordered: seq<FileInfo>, n: nat)
    requires n <= |ordered|
    requires forall i, j :: 0 <= i < j < |ordered| ==> ordered[j].mtime <= ordered[i].mtime
    ensures forall f, g :: f in ordered[n..] && g in ordered[..n] ==> f.mtime <= g.mtime
  {
    forall f, g | f in ordered[n..] && g in ordered[..n] ensures f.mtime <= g.mtime {
      var j :| 0 <= j < |ordered[n..]| && ordered[n..][j] == f;
      var i :| 0 <= i < n && ordered[..n][i] == g;
      assert ordered[i] == g && ordered[n + j] == f;
    }
  }

  /** No file other than a backup is ever deleted, and at most `MaxBackups`
      backups survive. */
  lemma CleanupSparesOtherFiles(dir: seq<FileInfo>, f: FileInfo)
    requires f in dir && !IsBackupFile(f)
    ensures f !in CleanupOldBackups(dir).deleted
    ensures |CleanupOldBackups(dir).kept| <= MaxBackups
  {
  }
}
