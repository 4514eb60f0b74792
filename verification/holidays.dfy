/** The holiday service: the per-year holiday cache, the "is today a working
    holiday" gate with its muted dates, and the holiday listings. The
    `holidays` library is a parameter mapping a country code and a year to
    that year's table, or to `None` when it raises. */
module Holidays {
  import opened Wrappers
  import opened Json
  import opened Calendar
  import Sorting

  /** A holiday table: dates with their holiday names. */
  type Table = seq<(Date, string)>

  type Library = (string, int) -> Option<Table>

  function Dates(t: Table): (r: seq<Date>)
    ensures |r| == |t|
    ensures forall k :: 0 <= k < |t| ==> r[k] == t[k].0
  {
    seq(|t|, k requires 0 <= k < |t| => t[k].0)
  }

  predicate ValidTable(t: Table) {
    forall k :: 0 <= k < |t| ==> ValidDate(t[k].0)
  }

  /** The library only ever hands out real calendar dates. */
  ghost predicate ValidLibrary(lib: Library) {
    forall c, y :: lib(c, y).Some? ==> ValidTable(lib(c, y).value)
  }

  /** `_holidays_cache` and `_cache_year`. */
  datatype Cache = Cache(table: Option<Table>, year: Option<int>)

  datatype Service = Service(country: string, enabled: bool, skip: bool, cache: Cache)

  predicate ServiceOk(s: Service) {
    s.cache.table.Some? ==> ValidTable(s.cache.table.value)
  }

  // ---------------------------------------------------------------------------
  // The per-year cache
  // ---------------------------------------------------------------------------

  /** `_get_holidays(year)`: the cached table when it is for `year`; otherwise
      the library's table, which is cached with its year. When the library
      raises, an empty table is cached and the cached year is left alone. */
  function GetHolidays(s: Service, lib: Library, y: int): (r: (Table, Service))
    ensures r.1.country == s.country && r.1.enabled == s.enabled && r.1.skip == s.skip
    ensures r.1.cache.table == Some(r.0)
    ensures s.cache.table.Some? && s.cache.year == Some(y) ==> r == (s.cache.table.value, s)
    ensures !(s.cache.table.Some? && s.cache.year == Some(y)) ==>
              if lib(s.country, y).Some? then r.0 == lib(s.country, y).value && r.1.cache.year == Some(y)
              else r.0 == [] && r.1.cache.year == s.cache.year
    ensures ServiceOk(s) && ValidLibrary(lib) ==> ServiceOk(r.1) && ValidTable(r.0)
  {
    if s.cache.table.None? || s.cache.year != Some(y) then
      match lib(s.country, y)
      case Some(t) => (t, s.(cache := Cache(Some(t), Some(y))))
      case None => ([], s.(cache := Cache(Some([]), s.cache.year)))
    else (s.cache.table.value, s)
  }

  /** Once a year's table has been fetched, asking again for that year uses
      the cache: the answer is the same whatever the library would now say. */
  lemma CachedYearIsReused(s: Service, lib: Library, lib': Library, y: int)
    requires lib(s.country, y).Some?
    ensures var (t, s1) := GetHolidays(s, lib, y);
            GetHolidays(s1, lib', y) == (t, s1)
  {
  }

  /** A failed fetch after the cache was dropped for the same year leaves an
      empty table cached under that year: later calls for the year keep
      answering "no holidays" without asking the library again. */
  lemma FailedRefetchSticks(s: Service, lib: Library, lib': Library, y: int)
    requires s.cache.table.None? && s.cache.year == Some(y)
    requires lib(s.country, y).None?
    ensures var (t, s1) := GetHolidays(s, lib, y);
            t == [] && GetHolidays(s1, lib', y) == ([], s1)
  {
  }

  // ---------------------------------------------------------------------------
  // Muted dates
  // ---------------------------------------------------------------------------

  /** Values `set()` accepts as members: not lists, not dictionaries. */
  predicate Hashable(j: Json) {
    !j.JArr? && !j.JObj?
  }

  predicate AllHashable(xs: seq<Json>) {
    forall k :: 0 <= k < |xs| ==> Hashable(xs[k])
  }

  /** `set(config.get("holidays", {}).get("muted_dates", []))`, as the
      elements of the set. A list gives its items, a dictionary its keys and
      a string its characters; `None` is the exception raised by any other
      value, by a list holding a list or a dictionary, or by a
      non-dictionary `holidays` section. */
  function MutedDates(cfg: Fields): (r: Option<seq<Json>>)
    ensures Lookup(cfg, "holidays").None? ==> r == Some([])
    ensures (Lookup(cfg, "holidays").Some? && Lookup(cfg, "holidays").value.JObj?
             && Lookup(Lookup(cfg, "holidays").value.fields, "muted_dates").Some?
             && Lookup(Lookup(cfg, "holidays").value.fields, "muted_dates").value.JArr?
            && AllHashable(Lookup(Lookup(cfg, "holidays").value.fields, "muted_dates").value.items))
            ==> r == Some(Lookup(Lookup(cfg, "holidays").value.fields, "muted_dates").value.items)
  {
    match Lookup(cfg, "holidays")
    case None => Some([])
    case Some(h) =>
      if !h.JObj? then None
      else match Lookup(h.fields, "muted_dates")
        case None => Some([])
        case Some(JArr(xs)) => if AllHashable(xs) then Some(xs) else None
        case Some(JObj(fs)) => Some(seq(|fs|, i requires 0 <= i < |fs| => JStr(fs[i].0)))
        case Some(JStr(str)) => Some(seq(|str|, i requires 0 <= i < |str| => JStr([str[i]])))
        case Some(_) => None
  }

  /** `list.remove(x)`: drops the first occurrence. */
  function RemoveFirst(xs: seq<Json>, x: Json): (r: seq<Json>)
    requires x in xs
    ensures multiset(r) == multiset(xs) - multiset{x}
    ensures AllHashable(xs) ==> AllHashable(r)
    decreases |xs|
  {
    if xs[0] == x then
      assert xs == [xs[0]] + xs[1..];
      xs[1..]
    else
      assert xs == [xs[0]] + xs[1..];
      [xs[0]] + RemoveFirst(xs[1..], x)
  }

  /** The list update of `set_holiday_muted`: muting appends the date unless
      it is already listed; unmuting removes its first occurrence. */
  function SetMuted(xs: seq<Json>, d: string, muted: bool): (r: seq<Json>)
    ensures muted ==> JStr(d) in r
    ensures muted ==> multiset(r)[JStr(d)] == if JStr(d) in xs then multiset(xs)[JStr(d)] else 1
    ensures !muted ==> multiset(r)[JStr(d)] == if JStr(d) in xs then multiset(xs)[JStr(d)] - 1 else 0
    ensures forall x :: x != JStr(d) ==> multiset(r)[x] == multiset(xs)[x]
    ensures AllHashable(xs) ==> AllHashable(r)
  {
    if muted && JStr(d) !in xs then
      var r := xs + [JStr(d)];
      assert AllHashable(xs) ==> AllHashable(r) by {
        assert forall k :: 0 <= k < |xs| ==> r[k] == xs[k];
      }
      r
    else if !muted && JStr(d) in xs then RemoveFirst(xs, JStr(d))
    else xs
  }

  /** Muting twice is muting once. */
  lemma MuteIdempotent(xs: seq<Json>, d: string)
    ensures SetMuted(SetMuted(xs, d, true), d, true) == SetMuted(xs, d, true)
  {
  }

  /** Unmuting twice is unmuting once, as long as the date was listed at most
      once; with two copies the second call removes the second copy. */
  lemma UnmuteIdempotent(xs: seq<Json>, d: string)
    requires multiset(xs)[JStr(d)] <= 1
    ensures SetMuted(SetMuted(xs, d, false), d, false) == SetMuted(xs, d, false)
    ensures JStr(d) !in SetMuted(xs, d, false)
  {
    var r := SetMuted(xs, d, false);
    assert multiset(r)[JStr(d)] == 0;
  }

  /** The configuration with `holidays.muted_dates` set to `ms`, creating
      the section and the key where missing. */
  function WithMuted(cfg: Fields, h: Fields, ms: Json): (r: Fields)
    ensures Lookup(r, "holidays") == Some(JObj(Put(h, "muted_dates", ms)))
    ensures forall k :: k != "holidays" ==> Lookup(r, k) == Lookup(cfg, k)
  {
    var r := Put(cfg, "holidays", JObj(Put(h, "muted_dates", ms)));
    forall k | k != "holidays" ensures Lookup(r, k) == Lookup(cfg, k) {
      PutOther(cfg, "holidays", JObj(Put(h, "muted_dates", ms)), k);
    }
    r
  }

  /** `set_holiday_muted(date_str, muted)` on the loaded configuration: the
      configuration it saves, or `None` for the exception it raises (a
      `holidays` section that is not a dictionary, a `muted_dates` value
      that `in` rejects, or one without `append`/`remove` when the list
      would change). */
  function SetHolidayMuted(cfg: Fields, d: string, muted: bool): (r: Option<Fields>)
    ensures r.Some? ==> forall k :: k != "holidays" ==> Lookup(r.value, k) == Lookup(cfg, k)
    ensures r.Some? ==> Lookup(r.value, "holidays").Some? && Lookup(r.value, "holidays").value.JObj?
    ensures r.Some? && (muted || Lookup(cfg, "holidays").None?) ==>
              var h := Lookup(r.value, "holidays").value.fields;
              Lookup(h, "muted_dates").Some? && Lookup(h, "muted_dates").value.JArr? ==>
                JStr(d) in Lookup(h, "muted_dates").value.items || !muted
    ensures Lookup(cfg, "holidays").None? ==>
              r == Some(WithMuted(cfg, [], JArr(SetMuted([], d, muted))))
  {
    var h := Lookup(cfg, "holidays").GetOr(JObj([]));
    if !h.JObj? then None
    else
      var ms := Lookup(h.fields, "muted_dates").GetOr(JArr([]));
      match PyIn(d, ms)
      case None => None
      case Some(present) =>
        if (muted && !present) || (!muted && present) then
          if ms.JArr? then Some(WithMuted(cfg, h.fields, JArr(SetMuted(ms.items, d, muted))))
          else None
        else Some(WithMuted(cfg, h.fields, ms))
  }

  /** The stored `holidays.muted_dates` value, with the defaults
      `set_holiday_muted` fills in; `JNull` when `holidays` is not a
      dictionary. */
  function StoredMuted(cfg: Fields): Json {
    var h := Lookup(cfg, "holidays").GetOr(JObj([]));
    if h.JObj? then Lookup(h.fields, "muted_dates").GetOr(JArr([])) else JNull
  }

  lemma MutedDatesOfWithMuted(cfg: Fields, h: Fields, xs: seq<Json>)
    requires AllHashable(xs)
    ensures MutedDates(WithMuted(cfg, h, JArr(xs))) == Some(xs)
  {
  }

  /** `set_holiday_muted` on a list of muted dates (or none yet) stores the
      list updated by `SetMuted`. */
  lemma SetHolidayMutedOnList(cfg: Fields, d: string, muted: bool)
    requires StoredMuted(cfg).JArr? && AllHashable(StoredMuted(cfg).items)
    ensures SetHolidayMuted(cfg, d, muted).Some?
    ensures MutedDates(SetHolidayMuted(cfg, d, muted).value) == Some(SetMuted(StoredMuted(cfg).items, d, muted))
  {
    var h := Lookup(cfg, "holidays").GetOr(JObj([]));
    var xs := StoredMuted(cfg).items;
    if (muted && JStr(d) !in xs) || (!muted && JStr(d) in xs) {
      assert SetHolidayMuted(cfg, d, muted) == Some(WithMuted(cfg, h.fields, JArr(SetMuted(xs, d, muted))));
      MutedDatesOfWithMuted(cfg, h.fields, SetMuted(xs, d, muted));
    } else {
      assert SetHolidayMuted(cfg, d, muted) == Some(WithMuted(cfg, h.fields, JArr(xs)));
      MutedDatesOfWithMuted(cfg, h.fields, xs);
    }
  }

  /** After muting a date, the saved configuration lists it as muted. */
  lemma MutedAfterMute(cfg: Fields, d: string)
    requires StoredMuted(cfg).JArr? && AllHashable(StoredMuted(cfg).items)
    ensures SetHolidayMuted(cfg, d, true).Some?
    ensures JStr(d) in MutedDates(SetHolidayMuted(cfg, d, true).value).value
  {
    SetHolidayMutedOnList(cfg, d, true);
  }

  /** After unmuting a date listed at most once, it is no longer muted. */
  lemma UnmutedAfterUnmute(cfg: Fields, d: string)
    requires StoredMuted(cfg).JArr? && AllHashable(StoredMuted(cfg).items)
    requires multiset(StoredMuted(cfg).items)[JStr(d)] <= 1
    ensures SetHolidayMuted(cfg, d, false).Some?
    ensures JStr(d) !in MutedDates(SetHolidayMuted(cfg, d, false).value).value
  {
    SetHolidayMutedOnList(cfg, d, false);
    UnmuteIdempotent(StoredMuted(cfg).items, d);
  }

  // ---------------------------------------------------------------------------
  // The holiday gate
  // ---------------------------------------------------------------------------

  /** `is_holiday_today`: false while the holiday check or the skipping is
      off; otherwise true exactly when today is in this year's table and
      today's `DD.MM.YYYY` is not muted. `None` is the exception reading the
      muted dates raises. */
  function IsHolidayToday(s: Service, cfg: Fields, lib: Library, today: Date): (r: (Option<bool>, Service))
    requires ValidDate(today)
    ensures !s.enabled || !s.skip ==> r == (Some(false), s)
    ensures s.enabled && s.skip ==>
              var (t, s1) := GetHolidays(s, lib, today.year);
              && r.1 == s1
              && (today !in Dates(t) ==> r.0 == Some(false))
              && (today in Dates(t) ==> r.0.Some? == MutedDates(cfg).Some?)
              && (r.0 == Some(true) <==> today in Dates(t) && MutedDates(cfg).Some? && JStr(FormatDMY(today)) !in MutedDates(cfg).value)
  {
    if !s.enabled || !s.skip then (Some(false), s)
    else
      var (t, s1) := GetHolidays(s, lib, today.year);
      if today !in Dates(t) then (Some(false), s1)
      else match MutedDates(cfg)
        case None => (None, s1)
        case Some(ms) => (Some(JStr(FormatDMY(today)) !in ms), s1)
  }

  /** Muting today's date turns a holiday back into a working day. */
  lemma MutingTodayResumesWork(s: Service, cfg: Fields, lib: Library, today: Date)
    requires ValidDate(today)
    requires StoredMuted(cfg).JArr? && AllHashable(StoredMuted(cfg).items)
    ensures SetHolidayMuted(cfg, FormatDMY(today), true).Some?
    ensures IsHolidayToday(s, SetHolidayMuted(cfg, FormatDMY(today), true).value, lib, today).0 == Some(false)
  {
    MutedAfterMute(cfg, FormatDMY(today));
  }

  /** Unmuting today's holiday (listed at most once) makes it a holiday
      again, provided the check and the skipping are on. */
  lemma UnmutingTodayRestoresHoliday(s: Service, cfg: Fields, lib: Library, today: Date)
    requires ValidDate(today) && s.enabled && s.skip
    requires today in Dates(GetHolidays(s, lib, today.year).0)
    requires StoredMuted(cfg).JArr? && AllHashable(StoredMuted(cfg).items)
    requires multiset(StoredMuted(cfg).items)[JStr(FormatDMY(today))] <= 1
    ensures SetHolidayMuted(cfg, FormatDMY(today), false).Some?
    ensures IsHolidayToday(s, SetHolidayMuted(cfg, FormatDMY(today), false).value, lib, today).0 == Some(true)
  {
    UnmutedAfterUnmute(cfg, FormatDMY(today));
  }

  // ---------------------------------------------------------------------------
  // Country
  // ---------------------------------------------------------------------------

  /** `set_country`: the service switches country and drops its cached
      table; the configuration is saved with `holidays.country` set, or
      `None` when the `holidays` section is not a dictionary. */
  function SetCountry(s: Service, cfg: Fields, country: string): (r: (Service, Option<Fields>))
    ensures r.0.country == country && r.0.cache.table.None? && r.0.cache.year == s.cache.year
    ensures r.0.enabled == s.enabled && r.0.skip == s.skip
    ensures r.1.Some? ==> Lookup(r.1.value, "holidays").Some?
                          && Get(Lookup(r.1.value, "holidays").value, "country") == Some(Some(JStr(country)))
    ensures r.1.Some? ==> forall k :: k != "holidays" ==> Lookup(r.1.value, k) == Lookup(cfg, k)
    ensures r.1.None? <==> Lookup(cfg, "holidays").Some? && !Lookup(cfg, "holidays").value.JObj?
  {
    var s' := s.(country := country, cache := s.cache.(table := None));
    var h := Lookup(cfg, "holidays").GetOr(JObj([]));
    if !h.JObj? then (s', None)
    else
      var c := Put(cfg, "holidays", JObj(Put(h.fields, "country", JStr(country))));
      assert forall k :: k != "holidays" ==> Lookup(c, k) == Lookup(cfg, k) by {
        forall k | k != "holidays" ensures Lookup(c, k) == Lookup(cfg, k) {
          PutOther(cfg, "holidays", JObj(Put(h.fields, "country", JStr(country))), k);
        }
      }
      (s', Some(c))
  }

  /** After a country change the next lookup asks the library for the new
      country, whatever year was cached. */
  lemma CountryChangeRefetches(s: Service, cfg: Fields, country: string, lib: Library, y: int)
    ensures var s1 := SetCountry(s, cfg, country).0;
            GetHolidays(s1, lib, y).0 == lib(country, y).GetOr([])
  {
  }

  /** `get_holiday_name(date)`: the name the year's table gives the date. */
  function GetHolidayName(s: Service, lib: Library, d: Date): (r: (Option<string>, Service))
    ensures r.1 == GetHolidays(s, lib, d.year).1
    ensures var t := GetHolidays(s, lib, d.year).0;
            && (r.0.Some? <==> d in Dates(t))
            && (r.0.Some? ==> (d, r.0.value) in t)
  {
    var (t, s1) := GetHolidays(s, lib, d.year);
    (NameOn(t, d), s1)
  }

  function NameOn(t: Table, d: Date): (r: Option<string>)
    ensures r.Some? <==> d in Dates(t)
    ensures r.Some? ==> (d, r.value) in t
    decreases |t|
  {
    if |t| == 0 then None
    else
      assert Dates(t) == [t[0].0] + Dates(t[1..]);
      if t[0].0 == d then Some(t[0].1) else NameOn(t[1..], d)
  }

  // ---------------------------------------------------------------------------
  // Listings
  // ---------------------------------------------------------------------------

  function DateOf(p: (Date, string)): Date {
    p.0
  }

  predicate InDateOrder(t: Table) {
    Sorting.SortedBy(t, DateOf, DateLe)
  }

  /** `sorted(table.items())`: the table in ascending date order. A table is
      a dictionary, so no two entries share a date and the names never
      decide the order. */
  function SortByDate(t: Table): (r: Table)
    ensures InDateOrder(r)
    ensures multiset(r) == multiset(t)
    ensures ValidTable(t) ==> ValidTable(r)
  {
    DateLeIsTotalPreorder();
    Sorting.SortBySorted(t, DateOf, DateLe);
    var r := Sorting.SortBy(t, DateOf, DateLe);
    assert forall k :: 0 <= k < |r| ==> r[k] in multiset(t);
    r
  }

  datatype HolidayEntry = HolidayEntry(date: string, name: string, muted: bool)

  /** `get_all_holidays(year)`: the year's holidays fetched afresh (not from
      the cache), in date order, each marked muted exactly when its
      `DD.MM.YYYY` is among the muted dates. Empty when the library raises;
      `None` when reading the muted dates raises. */
  function GetAllHolidays(s: Service, cfg: Fields, lib: Library, year: int): (r: Option<seq<HolidayEntry>>)
    requires ValidLibrary(lib)
    ensures lib(s.country, year).None? ==> r == Some([])
    ensures lib(s.country, year).Some? ==> (r.Some? <==> MutedDates(cfg).Some?)
    ensures lib(s.country, year).Some? && r.Some? ==>
              var o := SortByDate(lib(s.country, year).value);
              && |r.value| == |o|
              && forall i :: 0 <= i < |o| ==>
                   && r.value[i].date == FormatDMY(o[i].0)
                   && r.value[i].name == o[i].1
                   && (r.value[i].muted <==> JStr(r.value[i].date) in MutedDates(cfg).value)
  {
    match lib(s.country, year)
    case None => Some([])
    case Some(t) =>
      match MutedDates(cfg)
      case None => None
      case Some(ms) =>
        var o := SortByDate(t);
        Some(seq(|o|, i requires 0 <= i < |o| => HolidayEntry(FormatDMY(o[i].0), o[i].1, JStr(FormatDMY(o[i].0)) in ms)))
  }

  lemma DatesCons(p: (Date, string), t: Table)
    ensures Dates([p] + t) == [p.0] + Dates(t)
  {
  }

  /** `d[k] = v` on a table. */
  function Assign(t: Table, k: Date, v: string): (r: Table)
    ensures (k, v) in r
    ensures forall d :: d in Dates(r) <==> d in Dates(t) || d == k
    ensures forall p :: p in r ==> p in t || p == (k, v)
    decreases |t|
  {
    if |t| == 0 then
      assert Dates([(k, v)]) == [k];
      [(k, v)]
    else
      assert Dates(t) == [t[0].0] + Dates(t[1..]) by {
        assert t == [t[0]] + t[1..];
        DatesCons(t[0], t[1..]);
      }
      if t[0].0 == k then
        var r := [(k, v)] + t[1..];
        DatesCons((k, v), t[1..]);
        r
      else
        var rest := Assign(t[1..], k, v);
        var r := [t[0]] + rest;
        DatesCons(t[0], rest);
        assert forall p :: p in t[1..] ==> p in t;
        r
  }

  /** `table.update(other)`. */
  function Update(t: Table, u: Table): (r: Table)
    ensures forall d :: d in Dates(r) <==> d in Dates(t) || d in Dates(u)
    ensures forall p :: p in r ==> p in t || p in u
    decreases |u|
  {
    if |u| == 0 then t
    else
      var r := Update(Assign(t, u[0].0, u[0].1), u[1..]);
      assert forall j :: 1 <= j < |u| ==> u[j] == u[1..][j - 1];
      r
  }

  /** The loop of `get_upcoming_holidays` over the sorted table: holidays
      from today on are collected until the list holds `count` of them (the
      length test follows the append, so at least one is taken). */
  function PickLoop(items: Table, today: Date, count: int, acc: Table): (r: Table)
    decreases |items|
  {
    if |items| == 0 then acc
    else if DateLe(today, items[0].0) then
      var acc' := acc + [items[0]];
      if |acc'| >= count then acc' else PickLoop(items[1..], today, count, acc')
    else PickLoop(items[1..], today, count, acc)
  }

  /** The entries on or after `today`, in their original order. */
  function FromToday(t: Table, today: Date): (r: Table)
    ensures forall p :: p in r <==> p in t && DateLe(today, p.0)
    ensures InDateOrder(t) ==> InDateOrder(r)
  {
    var keep := (p: (Date, string)) => DateLe(today, p.0);
    assert InDateOrder(t) ==> Sorting.SortedBy(Sorting.Filter(t, keep), DateOf, DateLe) by {
      if InDateOrder(t) { Sorting.FilterSorted(t, keep, DateOf, DateLe); }
    }
    Sorting.Filter(t, keep)
  }

  function Max1(count: int): nat {
    if count < 1 then 1 else count
  }

  /** `FromToday` looks at one entry at a time. */
  lemma FromTodayCons(t: Table, today: Date)
    requires |t| > 0
    ensures FromToday(t, today) == (if DateLe(today, t[0].0) then [t[0]] else []) + FromToday(t[1..], today)
  {
  }

  lemma PrefixOfCons(acc: Table, x: (Date, string), f: Table, n: nat)
    requires n <= |f|
    ensures acc + [x] + f[..n] == acc + ([x] + f)[..n + 1]
  {
    assert ([x] + f)[..n + 1] == [x] + f[..n];
  }

  /** The loop takes the first `count` (at least one) holidays from today on. */
  lemma {:induction false} PickLoopTakesPrefix(items: Table, today: Date, count: int, acc: Table)
    requires |acc| < Max1(count)
    ensures var f := FromToday(items, today);
            var n := if |f| < Max1(count) - |acc| then |f| else Max1(count) - |acc|;
            PickLoop(items, today, count, acc) == acc + f[..n]
    decreases |items|
  {
    if |items| > 0 {
      FromTodayCons(items, today);
      var f := FromToday(items, today);
      var f' := FromToday(items[1..], today);
      if DateLe(today, items[0].0) {
        assert f == [items[0]] + f';
        if |acc| + 1 < Max1(count) {
          PickLoopTakesPrefix(items[1..], today, count, acc + [items[0]]);
          var n' := if |f'| < Max1(count) - |acc| - 1 then |f'| else Max1(count) - |acc| - 1;
          PrefixOfCons(acc, items[0], f', n');
        } else {
          assert f[..1] == [items[0]];
        }
      } else {
        assert f == f';
        PickLoopTakesPrefix(items[1..], today, count, acc);
      }
    }
  }

  /** The holidays `get_upcoming_holidays` lists from a table: its loop
      run over the table in date order. */
  function SelectUpcoming(t: Table, today: Date, count: int): (r: Table)
    ensures |r| <= Max1(count)
    ensures InDateOrder(r)
    ensures forall p :: p in r ==> p in t && DateLe(today, p.0)
    ensures |r| < Max1(count) ==> forall p :: p in t && DateLe(today, p.0) ==> p in r
    ensures forall p, q :: p in t && DateLe(today, p.0) && p !in r && q in r ==> DateLe(q.0, p.0)
  {
    var o := SortByDate(t);
    var f := FromToday(o, today);
    var r := PickLoop(o, today, count, []);
    assert r == f[..|r|] && |r| <= Max1(count) && (|r| < Max1(count) ==> r == f) by {
      PickLoopTakesPrefix(o, today, count, []);
    }
    assert forall p :: p in f <==> p in t && DateLe(today, p.0) by {
      forall p ensures p in o <==> p in t {
        assert p in o <==> p in multiset(o);
      }
    }
    Sorting.PrefixBound(f, |r|, DateOf, DateLe);
    r
  }

  datatype UpcomingHoliday = UpcomingHoliday(date: string, name: string, daysUntil: int)

  /** The cached table after `cache.update(next_year)`. */
  function Extend(t: Table, next: Option<Table>): (r: Table)
    ensures forall d :: d in Dates(r) <==> d in Dates(t) || (next.Some? && d in Dates(next.value))
    ensures ValidTable(t) && (next.Some? ==> ValidTable(next.value)) ==> ValidTable(r)
  {
    match next
    case Some(n) =>
      var r := Update(t, n);
      assert ValidTable(t) && ValidTable(n) ==> ValidTable(r) by {
        if ValidTable(t) && ValidTable(n) {
          forall k | 0 <= k < |r| ensures ValidDate(r[k].0) {
            assert r[k] in r;
          }
        }
      }
      r
    case None => t
  }

  /** One listing line per selected holiday, with the days left until it. */
  function Render(sel: Table, today: Date): (r: seq<UpcomingHoliday>)
    requires ValidDate(today) && ValidTable(sel)
    ensures |r| == |sel|
    ensures forall i :: 0 <= i < |sel| ==>
              && r[i].date == FormatDMY(sel[i].0)
              && r[i].name == sel[i].1
              && r[i].daysUntil == Ordinal(sel[i].0) - Ordinal(today)
  {
    seq(|sel|, i requires 0 <= i < |sel| => UpcomingHoliday(FormatDMY(sel[i].0), sel[i].1, Ordinal(sel[i].0) - Ordinal(today)))
  }

  /** Holidays from today on, in date order, are a non-negative and
      non-decreasing number of days away. */
  lemma RenderedDays(sel: Table, today: Date)
    requires ValidDate(today) && ValidTable(sel) && InDateOrder(sel)
    requires forall p :: p in sel ==> DateLe(today, p.0)
    ensures var r := Render(sel, today);
            && (forall i :: 0 <= i < |r| ==> r[i].daysUntil >= 0)
            && (forall i, j :: 0 <= i < j < |r| ==> r[i].daysUntil <= r[j].daysUntil)
  {
    var r := Render(sel, today);
    forall i | 0 <= i < |sel| ensures r[i].daysUntil >= 0 {
      assert sel[i] in sel;
      OrdinalOrder(today, sel[i].0);
    }
    forall i, j | 0 <= i < j < |sel| ensures r[i].daysUntil <= r[j].daysUntil {
      assert DateLe(DateOf(sel[i]), DateOf(sel[j]));
      OrdinalOrder(sel[i].0, sel[j].0);
    }
  }

  lemma SelectionValid(t: Table, today: Date, count: int)
    requires ValidTable(t)
    ensures ValidTable(SelectUpcoming(t, today, count))
  {
    var sel := SelectUpcoming(t, today, count);
    forall i | 0 <= i < |sel| ensures ValidDate(sel[i].0) {
      assert sel[i] in sel;
      var k :| 0 <= k < |t| && t[k] == sel[i];
    }
  }

  /** `get_upcoming_holidays(count)`: this year's cached table is extended
      in place with next year's holidays (when the library gives them), and
      the first `count` (at least one) holidays from today on, in date
      order, are listed with the days left until each. Returns the listing
      and the service with its grown cache. */
  function GetUpcomingHolidays(s: Service, lib: Library, today: Date, count: int): (r: (seq<UpcomingHoliday>, Service))
    requires ValidDate(today) && ServiceOk(s) && ValidLibrary(lib)
    ensures r.1.cache.table.Some? && ServiceOk(r.1)
    ensures var t := GetHolidays(s, lib, today.year).0;
            var next := lib(s.country, today.year + 1);
            forall d :: d in Dates(r.1.cache.table.value) <==> d in Dates(t) || (next.Some? && d in Dates(next.value))
    ensures r.0 == Render(SelectUpcoming(r.1.cache.table.value, today, count), today)
    ensures forall i :: 0 <= i < |r.0| ==> r.0[i].daysUntil >= 0
    ensures forall i, j :: 0 <= i < j < |r.0| ==> r.0[i].daysUntil <= r.0[j].daysUntil
  {
    var (t, s1) := GetHolidays(s, lib, today.year);
    var t2 := Extend(t, lib(s.country, today.year + 1));
    var s2 := s1.(cache := s1.cache.(table := Some(t2)));
    var sel := SelectUpcoming(t2, today, count);
    SelectionValid(t2, today, count);
    RenderedDays(sel, today);
    (Render(sel, today), s2)
  }
}
