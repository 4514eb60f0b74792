/** The birthday service: the people list kept in `special_days.json`, date
    normalisation on entry, today's matches, the announcement gate, CSV
    import and the list of upcoming birthdays. */
module Birthdays {
  import opened Wrappers
  import opened Text
  import opened Calendar
  import Sorting

  datatype Person = Person(name: string, date: string)

  /** The service's data record: the announcement switch, the `HH:MM`
      announcement times, the text template and the people. */
  datatype Data = Data(enabled: bool, times: seq<string>, template: string, people: seq<Person>)

  // ---------------------------------------------------------------------------
  // Date normalisation
  // ---------------------------------------------------------------------------

  /** The normalisation at the head of `add_person`: a ten-character dashed
      date is read as `YYYY-MM-DD` and rewritten `DD.MM.YYYY`; a
      five-character dashed date gets `01.` in front and its dash turned into
      a dot; anything else is kept. `None` is the IndexError a ten-character
      date with fewer than two dashes raises. */
  function NormalizeDate(s: string): (r: Option<string>)
    ensures '-' !in s ==> r == Some(s)
    ensures r.None? <==> '-' in s && |s| == 10 && |Split(s, '-')| < 3
    ensures '-' in s && |s| == 10 && r.Some? ==> '-' !in r.value
    ensures '-' in s && |s| == 5 ==> r.Some? && |r.value| == 8 && r.value[..3] == "01." && '-' !in r.value
  {
    if '-' in s && |s| == 10 then
      var parts := Split(s, '-');
      if |parts| < 3 then None else Some(parts[2] + "." + parts[1] + "." + parts[0])
    else if '-' in s && |s| == 5 then Some("01." + ReplaceChar(s, '-', '.'))
    else Some(s)
  }

  /** `YYYY-MM-DD` becomes `DD.MM.YYYY`. */
  lemma IsoDateNormalised(y: string, m: string, d: string)
    requires |y| == 4 && |m| == 2 && |d| == 2
    requires '-' !in y && '-' !in m && '-' !in d
    ensures NormalizeDate(y + "-" + m + "-" + d) == Some(d + "." + m + "." + y)
  {
    var s := y + "-" + m + "-" + d;
    assert s[4] == '-';
    assert s == y + ['-'] + (m + ['-'] + d);
    SplitAt(y, '-', m + ['-'] + d);
    SplitAt(m, '-', d);
    SplitNoSeparator(d, '-');
    assert Split(s, '-') == [y, m, d];
  }

  /** `MM-DD` becomes `01.MM.DD`: the month lands where the day is read and
      the day where the month is read. */
  lemma ShortDateNormalised(m: string, d: string)
    requires |m| == 2 && |d| == 2
    requires '-' !in m && '-' !in d
    ensures NormalizeDate(m + "-" + d) == Some("01." + m + "." + d)
  {
    var s := m + "-" + d;
    assert s[2] == '-';
    var t := ReplaceChar(s, '-', '.');
    assert forall k :: 0 <= k < 5 ==> t[k] == (m + "." + d)[k];
    assert t == m + "." + d;
    assert NormalizeDate(s) == Some("01." + t);
    assert "01." + (m + "." + d) == "01." + m + "." + d;
  }

  // ---------------------------------------------------------------------------
  // Adding and removing people
  // ---------------------------------------------------------------------------

  /** Names are compared with `.lower()` on both sides. */
  predicate SameName(a: string, b: string) {
    Lower(a) == Lower(b)
  }

  /** Turkish capitals match their lower-case spelling, as `.lower()`
      makes them. */
  lemma TurkishCapitalsMatch()
    ensures SameName("ŞÜKRÜ", "şükrü")
    ensures SameName("ÇAĞLA", "çağla")
  {
    LoweredShukru();
    LoweredShukruLower();
    LoweredCagla();
    LoweredCaglaLower();
  }

  /** `.lower()` knows no Turkish rule for the letter I: the dotless 'I'
      lowers to a dotted 'i', so "IŞIK" and "ışık" are different names. */
  lemma DotlessIDiffers()
    ensures !SameName("IŞIK", "ışık")
  {
    LoweredIsik();
    LoweredIsikLower();
    assert "işik"[0] != "ışık"[0];
  }

  /** The dotted capital 'İ' lowers to 'i' followed by a combining dot
      above, so "İPEK" and "ipek" are different names. */
  lemma DottedIDiffers()
    ensures !SameName("İPEK", "ipek")
  {
    LoweredPek();
    LoweredIpek();
    assert "İPEK" == ['İ'] + "PEK";
    LowerCons('İ', "PEK");
    assert |Lower("İPEK")| == 5;
  }

  lemma CyrillicCapitalsMatch()
    ensures SameName("ДМИТРИЙ", "Дмитрий")
  {
    LoweredDmitry();
    LoweredDmitryCap();
  }

  lemma LoweredShukru()
    ensures Lower("ŞÜKRÜ") == "şükrü"
  {
    forall k | 0 <= k < |"ŞÜKRÜ"| ensures LowerChar("ŞÜKRÜ"[k]) == ["şükrü"[k]] {
    }
    LowerBySingles("ŞÜKRÜ", "şükrü");
  }

  lemma LoweredShukruLower()
    ensures Lower("şükrü") == "şükrü"
  {
    forall k | 0 <= k < |"şükrü"| ensures LowerChar("şükrü"[k]) == ["şükrü"[k]] {
    }
    LowerBySingles("şükrü", "şükrü");
  }

  lemma LoweredCagla()
    ensures Lower("ÇAĞLA") == "çağla"
  {
    forall k | 0 <= k < |"ÇAĞLA"| ensures LowerChar("ÇAĞLA"[k]) == ["çağla"[k]] {
    }
    LowerBySingles("ÇAĞLA", "çağla");
  }

  lemma LoweredCaglaLower()
    ensures Lower("çağla") == "çağla"
  {
    forall k | 0 <= k < |"çağla"| ensures LowerChar("çağla"[k]) == ["çağla"[k]] {
    }
    LowerBySingles("çağla", "çağla");
  }

  lemma LoweredIsik()
    ensures Lower("IŞIK") == "işik"
  {
    forall k | 0 <= k < |"IŞIK"| ensures LowerChar("IŞIK"[k]) == ["işik"[k]] {
    }
    LowerBySingles("IŞIK", "işik");
  }

  lemma LoweredIsikLower()
    ensures Lower("ışık") == "ışık"
  {
    forall k | 0 <= k < |"ışık"| ensures LowerChar("ışık"[k]) == ["ışık"[k]] {
    }
    LowerBySingles("ışık", "ışık");
  }

  lemma LoweredPek()
    ensures Lower("PEK") == "pek"
  {
    forall k | 0 <= k < |"PEK"| ensures LowerChar("PEK"[k]) == ["pek"[k]] {
    }
    LowerBySingles("PEK", "pek");
  }

  lemma LoweredIpek()
    ensures Lower("ipek") == "ipek"
  {
    forall k | 0 <= k < |"ipek"| ensures LowerChar("ipek"[k]) == ["ipek"[k]] {
    }
    LowerBySingles("ipek", "ipek");
  }

  lemma LoweredDmitry()
    ensures Lower("ДМИТРИЙ") == "дмитрий"
  {
    forall k | 0 <= k < |"ДМИТРИЙ"| ensures LowerChar("ДМИТРИЙ"[k]) == ["дмитрий"[k]] {
    }
    LowerBySingles("ДМИТРИЙ", "дмитрий");
  }

  lemma LoweredDmitryCap()
    ensures Lower("Дмитрий") == "дмитрий"
  {
    forall k | 0 <= k < |"Дмитрий"| ensures LowerChar("Дмитрий"[k]) == ["дмитрий"[k]] {
    }
    LowerBySingles("Дмитрий", "дмитрий");
  }

  predicate HasName(ps: seq<Person>, name: string) {
    exists k :: 0 <= k < |ps| && SameName(ps[k].name, name)
  }

  /** Position of the first person whose name matches, or `|ps|`. */
  function FirstMatch(ps: seq<Person>, name: string): (r: nat)
    ensures r <= |ps|
    ensures forall k :: 0 <= k < r ==> !SameName(ps[k].name, name)
    ensures r < |ps| ==> SameName(ps[r].name, name)
    ensures r == |ps| <==> !HasName(ps, name)
    decreases |ps|
  {
    if |ps| == 0 then 0
    else if SameName(ps[0].name, name) then 0
    else
      var r := 1 + FirstMatch(ps[1..], name);
      assert forall k :: 1 <= k < |ps| ==> ps[k] == ps[1..][k - 1];
      r
  }

  /** `add_person`: the first entry with the same name (ignoring case) gets
      the new date and keeps its own spelling of the name; otherwise the
      person is appended. Fails, changing nothing, when the date cannot be
      normalised. */
  function AddPerson(d: Data, name: string, date: string): (r: (Data, bool))
    ensures r.1 <==> NormalizeDate(date).Some?
    ensures !r.1 ==> r.0 == d
    ensures r.0.enabled == d.enabled && r.0.times == d.times && r.0.template == d.template
    ensures r.1 ==> exists k :: 0 <= k < |r.0.people| && SameName(r.0.people[k].name, name)
                                && r.0.people[k].date == NormalizeDate(date).value
    ensures |r.0.people| >= |d.people|
    ensures forall k :: 0 <= k < |d.people| ==> r.0.people[k].name == d.people[k].name
    ensures HasName(d.people, name) ==> |r.0.people| == |d.people|
    ensures r.1 && !HasName(d.people, name) ==> r.0.people == d.people + [Person(name, NormalizeDate(date).value)]
    ensures forall k :: 0 <= k < |d.people| && k != FirstMatch(d.people, name) ==> r.0.people[k] == d.people[k]
    ensures r.1 && HasName(d.people, name) ==>
              r.0.people[FirstMatch(d.people, name)] == Person(d.people[FirstMatch(d.people, name)].name, NormalizeDate(date).value)
  {
    match NormalizeDate(date)
    case None => (d, false)
    case Some(f) =>
      var i := FirstMatch(d.people, name);
      if i < |d.people| then
        assert SameName(d.people[i := Person(d.people[i].name, f)][i].name, name);
        (d.(people := d.people[i := Person(d.people[i].name, f)]), true)
      else
        var ps := d.people + [Person(name, f)];
        assert ps[|d.people|] == Person(name, f);
        (d.(people := ps), true)
  }

  /** Adding the same person twice is the same as adding them once. */
  lemma AddPersonIdempotent(d: Data, name: string, date: string)
    ensures AddPerson(AddPerson(d, name, date).0, name, date) == AddPerson(d, name, date)
  {
    var (d1, ok) := AddPerson(d, name, date);
    if ok {
      var f := NormalizeDate(date).value;
      var i := FirstMatch(d.people, name);
      var j := FirstMatch(d1.people, name);
      if i < |d.people| {
        assert d1.people[i] == Person(d.people[i].name, f);
        assert j == i by {
          assert forall k :: 0 <= k < i ==> d1.people[k].name == d.people[k].name;
          assert SameName(d1.people[i].name, name);
          assert j <= i;
          assert !(j < i);
        }
        assert d1.people[i := Person(d1.people[i].name, f)] == d1.people;
      } else {
        assert d1.people[|d.people|] == Person(name, f);
        assert j == |d.people| by {
          assert forall k :: 0 <= k < |d.people| ==> d1.people[k].name == d.people[k].name;
          assert SameName(d1.people[|d.people|].name, name);
          assert j <= |d.people|;
          assert !(j < |d.people|);
        }
        assert d1.people[j := Person(d1.people[j].name, f)] == d1.people;
      }
    }
  }

  /** The people whose name does not match, in their original order. */
  function WithoutName(ps: seq<Person>, name: string): (r: seq<Person>)
    ensures |r| <= |ps|
    ensures !HasName(r, name)
    ensures forall p :: p in r <==> p in ps && !SameName(p.name, name)
    ensures |r| == |ps| <==> !HasName(ps, name)
    ensures !HasName(ps, name) ==> r == ps
    ensures r == Sorting.Filter(ps, (p: Person) => !SameName(p.name, name))
    decreases |ps|
  {
    if |ps| == 0 then []
    else
      var rest := WithoutName(ps[1..], name);
      var r := if SameName(ps[0].name, name) then rest else [ps[0]] + rest;
      WithoutNameStep(ps, name, rest, r);
      assert r == (if !SameName(ps[0].name, name) then [ps[0]] else []) + rest;
      r
  }

  /** One step of `WithoutName`: the first person is dropped or kept in
      front of what the rest gives. */
  lemma WithoutNameStep(ps: seq<Person>, name: string, rest: seq<Person>, r: seq<Person>)
    requires |ps| > 0
    requires r == if SameName(ps[0].name, name) then rest else [ps[0]] + rest
    requires |rest| <= |ps[1..]| && !HasName(rest, name)
    requires forall p :: p in rest <==> p in ps[1..] && !SameName(p.name, name)
    requires |rest| == |ps[1..]| <==> !HasName(ps[1..], name)
    requires !HasName(ps[1..], name) ==> rest == ps[1..]
    ensures |r| <= |ps| && !HasName(r, name)
    ensures forall p :: p in r <==> p in ps && !SameName(p.name, name)
    ensures |r| == |ps| <==> !HasName(ps, name)
    ensures !HasName(ps, name) ==> r == ps
  {
    HasNameCons(ps, name);
    assert ps == [ps[0]] + ps[1..];
    if !SameName(ps[0].name, name) {
      NoNameCons(ps[0], rest, name);
    }
  }

  lemma HasNameCons(ps: seq<Person>, name: string)
    requires |ps| > 0
    ensures HasName(ps, name) <==> SameName(ps[0].name, name) || HasName(ps[1..], name)
  {
    if HasName(ps[1..], name) {
      var k :| 0 <= k < |ps[1..]| && SameName(ps[1..][k].name, name);
      assert ps[k + 1] == ps[1..][k];
    }
    if HasName(ps, name) && !SameName(ps[0].name, name) {
      var k :| 0 <= k < |ps| && SameName(ps[k].name, name);
      assert ps[1..][k - 1] == ps[k];
    }
  }

  lemma NoNameCons(p: Person, rest: seq<Person>, name: string)
    requires !SameName(p.name, name) && !HasName(rest, name)
    ensures !HasName([p] + rest, name)
  {
    var r := [p] + rest;
    forall k | 0 <= k < |r| ensures !SameName(r[k].name, name) {
      if k > 0 {
        assert r[k] == rest[k - 1];
      }
    }
  }

  /** `remove_person`: drops every entry with a matching name; true exactly
      when one was there. */
  function RemovePerson(d: Data, name: string): (r: (Data, bool))
    ensures r.1 <==> HasName(d.people, name)
    ensures !HasName(r.0.people, name)
    ensures !r.1 ==> r.0 == d
    ensures r.0.enabled == d.enabled && r.0.times == d.times && r.0.template == d.template
    ensures forall p :: p in r.0.people <==> p in d.people && !SameName(p.name, name)
    ensures r.0.people == Sorting.Filter(d.people, (p: Person) => !SameName(p.name, name))
  {
    var ps := WithoutName(d.people, name);
    (d.(people := ps), |ps| < |d.people|)
  }

  /** A person just added can be removed again, and then no entry of that
      name is left. */
  lemma AddThenRemove(d: Data, name: string, date: string)
    requires NormalizeDate(date).Some?
    ensures var r := RemovePerson(AddPerson(d, name, date).0, name);
            r.1 && !HasName(r.0.people, name)
  {
    var d1 := AddPerson(d, name, date).0;
    var k :| 0 <= k < |d1.people| && SameName(d1.people[k].name, name)
             && d1.people[k].date == NormalizeDate(date).value;
  }

  // ---------------------------------------------------------------------------
  // Today's birthdays and the announcement gate
  // ---------------------------------------------------------------------------

  /** The test of `get_todays_birthdays`: a non-empty date whose first two
      dot-separated fields, joined by a dot, are today's `DD.MM`. */
  predicate BornOn(p: Person, today: Date)
    requires ValidDate(today)
  {
    p.date != "" && var parts := Split(p.date, '.');
    |parts| >= 2 && parts[0] + "." + parts[1] == FormatDM(today)
  }

  /** `get_todays_birthdays`: the matching people, in stored order. */
  function TodaysBirthdays(ps: seq<Person>, today: Date): (r: seq<Person>)
    requires ValidDate(today)
    ensures |r| <= |ps|
    ensures forall p :: p in r <==> p in ps && BornOn(p, today)
    ensures r == Sorting.Filter(ps, p => BornOn(p, today))
    decreases |ps|
  {
    if |ps| == 0 then []
    else
      var rest := TodaysBirthdays(ps[1..], today);
      assert ps == [ps[0]] + ps[1..];
      if BornOn(ps[0], today) then [ps[0]] + rest else rest
  }

  /** A stored `DD.MM` or `DD.MM.<year>` date is today's birthday exactly
      when its day and month fields are today's, zero-padded. */
  lemma {:induction false} StoredDateMatches(n: string, dd: string, mm: string, tail: string, today: Date)
    requires ValidDate(today)
    requires |dd| == 2 && |mm| == 2 && '.' !in dd && '.' !in mm
    requires tail == "" || tail[0] == '.'
    ensures BornOn(Person(n, dd + "." + mm + tail), today) <==> dd == Pad2(today.day) && mm == Pad2(today.month)
  {
    var s := dd + "." + mm + tail;
    assert s == dd + ['.'] + (mm + tail);
    SplitAt(dd, '.', mm + tail);
    if tail == "" {
      assert mm + tail == mm;
      SplitNoSeparator(mm, '.');
    } else {
      assert mm + tail == mm + ['.'] + tail[1..];
      SplitAt(mm, '.', tail[1..]);
    }
    var parts := Split(s, '.');
    assert parts[0] == dd && parts[1] == mm;
    var f := FormatDM(today);
    if dd + "." + mm == f {
      assert dd == (dd + "." + mm)[..2] == f[..2];
      assert mm == (dd + "." + mm)[3..] == f[3..];
    }
  }

  /** A person entered as `YYYY-MM-DD` is announced on day DD of month MM. */
  lemma IsoEntryAnnouncedOnItsDay(n: string, y: string, today: Date)
    requires ValidDate(today)
    requires |y| == 4 && '-' !in y && '.' !in y
    ensures var date := y + "-" + Pad2(today.month) + "-" + Pad2(today.day);
            NormalizeDate(date).Some? && BornOn(Person(n, NormalizeDate(date).value), today)
  {
    var mm, dd := Pad2(today.month), Pad2(today.day);
    assert forall k :: 0 <= k < 2 ==> IsDigit(mm[k]) && IsDigit(dd[k]);
    IsoDateNormalised(y, mm, dd);
    assert dd + "." + mm + "." + y == dd + "." + mm + ("." + y);
    StoredDateMatches(n, dd, mm, "." + y, today);
  }

  /** A person entered as `MM-DD` is announced on the first day of month MM,
      whatever DD says: the normalisation puts `01` in the day field. */
  lemma ShortEntryAnnouncedOnFirst(n: string, mm: string, dd: string, today: Date)
    requires ValidDate(today)
    requires |mm| == 2 && |dd| == 2
    requires '-' !in mm && '-' !in dd && '.' !in mm && '.' !in dd
    ensures NormalizeDate(mm + "-" + dd).Some?
    ensures BornOn(Person(n, NormalizeDate(mm + "-" + dd).value), today) <==> today.day == 1 && mm == Pad2(today.month)
  {
    ShortDateNormalised(mm, dd);
    assert "01." + mm + "." + dd == "01" + "." + mm + ("." + dd);
    StoredDateMatches(n, "01", mm, "." + dd, today);
    var p := Pad2(today.day);
    if p == "01" {
      assert DigitValue(p[0]) == 0 && DigitValue(p[1]) == 1;
    }
  }

  /** `should_announce_now`: nothing while announcements are off or at a
      minute that is not an announcement time; otherwise the names of
      today's birthdays, in stored order. */
  function ShouldAnnounceNow(d: Data, now: string, today: Date): (r: seq<string>)
    requires ValidDate(today)
    ensures !d.enabled || now !in d.times ==> r == []
    ensures d.enabled && now in d.times ==>
              forall n :: n in r <==> exists p :: p in d.people && BornOn(p, today) && p.name == n
    ensures d.enabled && now in d.times ==>
              var todays := Sorting.Filter(d.people, p => BornOn(p, today));
              |r| == |todays| && forall i :: 0 <= i < |r| ==> r[i] == todays[i].name
  {
    if !d.enabled || now !in d.times then [] else Names(TodaysBirthdays(d.people, today))
  }

  /** The names of `ps`, position by position. */
  function Names(ps: seq<Person>): (r: seq<string>)
    ensures |r| == |ps| && forall i :: 0 <= i < |r| ==> r[i] == ps[i].name
    ensures forall n :: n in r <==> exists p :: p in ps && p.name == n
  {
    var r := seq(|ps|, i requires 0 <= i < |ps| => ps[i].name);
    assert forall p :: p in ps ==> p.name in r by {
      forall p | p in ps ensures p.name in r {
        var i :| 0 <= i < |ps| && ps[i] == p;
        assert r[i] == p.name;
      }
    }
    r
  }

  // ---------------------------------------------------------------------------
  // CSV import
  // ---------------------------------------------------------------------------

  /** A line `import_from_csv` hands to `add_person`: not blank, not a `#`
      comment, and with at least one comma. */
  predicate CsvRecord(line: string) {
    Strip(line) != "" && !StartsWith(line, "#") && |Split(line, ',')| >= 2
  }

  function CsvName(line: string): string
    requires CsvRecord(line)
  {
    Strip(Split(line, ',')[0])
  }

  function CsvDate(line: string): string
    requires CsvRecord(line)
  {
    Strip(Split(line, ',')[1])
  }

  /** One line of the import loop: a record is added, anything else skipped. */
  function ImportLine(d: Data, line: string): (r: (Data, bool))
    ensures !CsvRecord(line) ==> r == (d, false)
    ensures CsvRecord(line) ==> r == AddPerson(d, CsvName(line), CsvDate(line))
  {
    if CsvRecord(line) then AddPerson(d, CsvName(line), CsvDate(line)) else (d, false)
  }

  /** How many of the lines are accepted records. */
  function AcceptedCount(lines: seq<string>): (r: nat)
    ensures r <= |lines|
    decreases |lines|
  {
    if |lines| == 0 then 0 else (if Accepted(lines[0]) then 1 else 0) + AcceptedCount(lines[1..])
  }

  /** The import loop: every line in turn, counting successful adds. */
  function ImportLines(d: Data, lines: seq<string>): (r: (Data, nat))
    ensures r.1 == AcceptedCount(lines)
    ensures r.1 <= |lines|
    ensures forall n :: HasName(d.people, n) ==> HasName(r.0.people, n)
    ensures forall k :: 0 <= k < |lines| && Accepted(lines[k]) ==> HasName(r.0.people, CsvName(lines[k]))
    ensures (forall k :: 0 <= k < |lines| ==> !CsvRecord(lines[k])) ==> r == (d, 0)
    decreases |lines|
  {
    if |lines| == 0 then (d, 0)
    else
      var (d1, ok) := ImportLine(d, lines[0]);
      var (d2, n) := ImportLines(d1, lines[1..]);
      ImportStep(d, lines, d1, ok, d2, n);
      (d2, n + if ok then 1 else 0)
  }

  /** Adding a person never drops a name. */
  lemma AddKeepsNames(d: Data, name: string, date: string)
    ensures forall x :: HasName(d.people, x) ==> HasName(AddPerson(d, name, date).0.people, x)
  {
    var d1 := AddPerson(d, name, date).0;
    forall x | HasName(d.people, x) ensures HasName(d1.people, x) {
      var k :| 0 <= k < |d.people| && SameName(d.people[k].name, x);
      assert d1.people[k].name == d.people[k].name;
    }
  }

  /** A line accepted by the import: a record whose date normalises. */
  predicate Accepted(line: string) {
    CsvRecord(line) && NormalizeDate(CsvDate(line)).Some?
  }

  lemma ImportStep(d: Data, lines: seq<string>, d1: Data, ok: bool, d2: Data, n: nat)
    requires |lines| > 0 && (d1, ok) == ImportLine(d, lines[0])
    requires n <= |lines[1..]|
    requires forall x :: HasName(d1.people, x) ==> HasName(d2.people, x)
    requires forall k :: 0 <= k < |lines[1..]| && Accepted(lines[1..][k]) ==> HasName(d2.people, CsvName(lines[1..][k]))
    requires (forall k :: 0 <= k < |lines[1..]| ==> !CsvRecord(lines[1..][k])) ==> (d2, n) == (d1, 0)
    ensures forall x :: HasName(d.people, x) ==> HasName(d2.people, x)
    ensures forall k :: 0 <= k < |lines| && Accepted(lines[k]) ==> HasName(d2.people, CsvName(lines[k]))
    ensures (forall k :: 0 <= k < |lines| ==> !CsvRecord(lines[k])) ==> (d2, n + if ok then 1 else 0) == (d, 0)
  {
    ImportStepKeeps(d, lines[0], d1, ok);
    ImportStepAdds(d, lines, d1, ok, d2);
    ImportStepSkips(lines);
  }

  lemma ImportStepKeeps(d: Data, line: string, d1: Data, ok: bool)
    requires (d1, ok) == ImportLine(d, line)
    ensures forall x :: HasName(d.people, x) ==> HasName(d1.people, x)
    ensures Accepted(line) ==> HasName(d1.people, CsvName(line))
    ensures !CsvRecord(line) ==> (d1, ok) == (d, false)
  {
    if CsvRecord(line) {
      AddKeepsNames(d, CsvName(line), CsvDate(line));
      if ok {
        var k :| 0 <= k < |d1.people| && SameName(d1.people[k].name, CsvName(line));
      }
    }
  }

  lemma ImportStepAdds(d: Data, lines: seq<string>, d1: Data, ok: bool, d2: Data)
    requires |lines| > 0
    requires Accepted(lines[0]) ==> HasName(d1.people, CsvName(lines[0]))
    requires forall x :: HasName(d1.people, x) ==> HasName(d2.people, x)
    requires forall k :: 0 <= k < |lines[1..]| && Accepted(lines[1..][k]) ==> HasName(d2.people, CsvName(lines[1..][k]))
    ensures forall k :: 0 <= k < |lines| && Accepted(lines[k]) ==> HasName(d2.people, CsvName(lines[k]))
  {
    forall k | 0 <= k < |lines| && Accepted(lines[k]) ensures HasName(d2.people, CsvName(lines[k])) {
      if k > 0 {
        var j := k - 1;
        assert lines[1..][j] == lines[k];
        assert HasName(d2.people, CsvName(lines[1..][j]));
      } else {
        assert HasName(d1.people, CsvName(lines[0]));
      }
    }
  }

  lemma ImportStepSkips(lines: seq<string>)
    requires |lines| > 0
    ensures (forall k :: 0 <= k < |lines| ==> !CsvRecord(lines[k])) ==>
              !CsvRecord(lines[0]) && forall k :: 0 <= k < |lines[1..]| ==> !CsvRecord(lines[1..][k])
  {
    if forall k :: 0 <= k < |lines| ==> !CsvRecord(lines[k]) {
      forall k | 0 <= k < |lines[1..]| ensures !CsvRecord(lines[1..][k]) {
        assert lines[1..][k] == lines[k + 1];
      }
    }
  }

  /** `import_from_csv`: the stripped content split into lines. Returns the
      new data and the number of people added or updated. */
  function ImportCsv(d: Data, content: string): (r: (Data, nat))
    ensures var lines := Split(Strip(content), '\n');
            && r.1 == AcceptedCount(lines)
            && r.1 <= |lines|
            && (forall n :: HasName(d.people, n) ==> HasName(r.0.people, n))
            && (forall k :: 0 <= k < |lines| && Accepted(lines[k]) ==> HasName(r.0.people, CsvName(lines[k])))
  {
    ImportLines(d, Split(Strip(content), '\n'))
  }

  /** A single record line imports exactly as `add_person` with its two
      stripped fields. */
  lemma ImportOneRecord(d: Data, line: string)
    requires '\n' !in line && Strip(line) == line && CsvRecord(line)
    ensures var a := AddPerson(d, CsvName(line), CsvDate(line));
            ImportCsv(d, line) == (a.0, if a.1 then 1 else 0)
  {
    SplitNoSeparator(line, '\n');
    ImportSingleLine(d, line);
  }

  /** The import loop over one line is that line's step. */
  lemma ImportSingleLine(d: Data, line: string)
    ensures var a := ImportLine(d, line);
            ImportLines(d, [line]) == (a.0, if a.1 then 1 else 0)
  {
    assert [line][1..] == [];
  }

  // ---------------------------------------------------------------------------
  // Upcoming birthdays
  // ---------------------------------------------------------------------------

  datatype Upcoming = Upcoming(name: string, date: string, daysUntil: int)

  /** How a stored date is read for the upcoming list: `Dashed` is the
      `MM-DD` reading `get_upcoming_birthdays` applies; `Dotted` is the
      `DD.MM[.YYYY]` form `add_person` stores and `get_todays_birthdays`
      reads. */
  datatype DateForm = Dashed | Dotted

  /** The month and day in a stored date; `None` is any exception the
      reading raises (a wrong number of fields, a field `int` rejects). */
  function MonthDay(form: DateForm, date: string): (r: Option<(int, int)>)
    ensures form == Dashed && '-' !in date ==> r.None?
  {
    match form
    case Dashed =>
      var parts := Split(date, '-');
      if '-' !in date then SplitNoSeparator(date, '-'); None
      else if |parts| != 2 then None
      else (match (ParseInt(parts[0]), ParseInt(parts[1]))
            case (Some(m), Some(d)) => Some((m, d))
            case _ => None)
    case Dotted =>
      var parts := Split(date, '.');
      if |parts| < 2 then None
      else (match (ParseInt(parts[1]), ParseInt(parts[0]))
            case (Some(m), Some(d)) => Some((m, d))
            case _ => None)
  }

  /** The next occurrence of month `m`, day `d` on or after today: this
      year's date, or next year's once this year's has passed. `None` when
      the date does not exist in the year it is needed for. */
  function NextOccurrence(today: Date, m: int, d: int): (r: Option<Date>)
    requires ValidDate(today)
    ensures r.Some? ==> ValidDate(r.value) && DateLe(today, r.value) && r.value.month == m && r.value.day == d
    ensures r.Some? ==> r.value.year == today.year || (r.value.year == today.year + 1 && DateLt(Date(today.year, m, d), today))
    ensures ValidDate(Date(today.year, m, d)) && !DateLt(Date(today.year, m, d), today) ==> r == Some(Date(today.year, m, d))
  {
    var b := Date(today.year, m, d);
    if !ValidDate(b) then None
    else if DateLt(b, today) then
      var n := Date(today.year + 1, m, d);
      if ValidDate(n) then Some(n) else None
    else Some(b)
  }

  /** What the loop of `get_upcoming_birthdays` makes of one person, before
      the `days` filter. */
  function Candidate(p: Person, today: Date, form: DateForm): (r: Option<Upcoming>)
    requires ValidDate(today)
    ensures r.Some? ==> r.value.name == p.name && r.value.date == p.date && 0 <= r.value.daysUntil
    ensures r.Some? ==> MonthDay(form, p.date).Some?
    ensures r.Some? ==> var (m, d) := MonthDay(form, p.date).value;
                        var b := NextOccurrence(today, m, d);
                        b.Some? && r.value.daysUntil == Ordinal(b.value) - Ordinal(today)
  {
    match MonthDay(form, p.date)
    case None => None
    case Some((m, d)) =>
      match NextOccurrence(today, m, d)
      case None => None
      case Some(b) =>
        OrdinalOrder(today, b);
        Some(Upcoming(p.name, p.date, Ordinal(b) - Ordinal(today)))
  }

  function DaysUntil(e: Upcoming): int {
    e.daysUntil
  }

  function IntLe(a: int, b: int): bool {
    a <= b
  }

  /** The candidates within `days` days, in stored order. */
  function Within(cs: seq<Option<Upcoming>>, days: int): (r: seq<Upcoming>)
    ensures |r| <= |cs|
    ensures forall e :: e in r ==> e.daysUntil <= days && Some(e) in cs
    ensures forall i :: 0 <= i < |cs| && cs[i].Some? && cs[i].value.daysUntil <= days ==> cs[i].value in r
    decreases |cs|
  {
    if |cs| == 0 then []
    else
      var rest := Within(cs[1..], days);
      assert forall i :: 1 <= i < |cs| ==> cs[i] == cs[1..][i - 1];
      if cs[0].Some? && cs[0].value.daysUntil <= days then [cs[0].value] + rest else rest
  }

  /** The upcoming list under a given reading of the stored dates: every
      candidate at most `days` days away, in ascending order of
      `days_until`, ties in stored order. */
  function UpcomingWith(ps: seq<Person>, today: Date, days: int, form: DateForm): (r: seq<Upcoming>)
    requires ValidDate(today)
    ensures |r| <= |ps|
    ensures forall e :: e in r ==> 0 <= e.daysUntil <= days
    ensures forall e :: e in r ==> exists i :: 0 <= i < |ps| && Candidate(ps[i], today, form) == Some(e)
    ensures forall i :: 0 <= i < |ps| && Candidate(ps[i], today, form).Some? && Candidate(ps[i], today, form).value.daysUntil <= days ==>
              Candidate(ps[i], today, form).value in r
    ensures forall i, j :: 0 <= i < j < |r| ==> r[i].daysUntil <= r[j].daysUntil
  {
    var cs := Candidates(ps, today, form);
    var w := Within(cs, days);
    var r := Sorting.SortBy(w, DaysUntil, IntLe);
    Sorting.SortByMembers(w, DaysUntil, IntLe);
    UpcomingSound(ps, today, days, form, cs, r);
    UpcomingComplete(ps, today, days, form, cs, r);
    assert Sorting.TotalPreorder(IntLe);
    Sorting.SortBySorted(w, DaysUntil, IntLe);
    r
  }

  function Candidates(ps: seq<Person>, today: Date, form: DateForm): (cs: seq<Option<Upcoming>>)
    requires ValidDate(today)
    ensures |cs| == |ps|
    ensures forall i :: 0 <= i < |ps| ==> cs[i] == Candidate(ps[i], today, form)
  {
    seq(|ps|, i requires 0 <= i < |ps| => Candidate(ps[i], today, form))
  }

  lemma UpcomingSound(ps: seq<Person>, today: Date, days: int, form: DateForm, cs: seq<Option<Upcoming>>, r: seq<Upcoming>)
    requires ValidDate(today)
    requires cs == Candidates(ps, today, form)
    requires forall e :: e in r ==> e in Within(cs, days)
    ensures forall e :: e in r ==> 0 <= e.daysUntil <= days
    ensures forall e :: e in r ==> exists i :: 0 <= i < |ps| && Candidate(ps[i], today, form) == Some(e)
  {
    forall e | e in r ensures 0 <= e.daysUntil <= days && exists i :: 0 <= i < |ps| && Candidate(ps[i], today, form) == Some(e) {
      var i :| 0 <= i < |cs| && cs[i] == Some(e);
      assert Candidate(ps[i], today, form) == Some(e);
    }
  }

  lemma UpcomingComplete(ps: seq<Person>, today: Date, days: int, form: DateForm, cs: seq<Option<Upcoming>>, r: seq<Upcoming>)
    requires ValidDate(today)
    requires cs == Candidates(ps, today, form)
    requires forall e :: e in Within(cs, days) ==> e in r
    ensures forall i :: 0 <= i < |ps| && Candidate(ps[i], today, form).Some? && Candidate(ps[i], today, form).value.daysUntil <= days ==>
              Candidate(ps[i], today, form).value in r
  {
    forall i | 0 <= i < |ps| && Candidate(ps[i], today, form).Some? && Candidate(ps[i], today, form).value.daysUntil <= days
      ensures Candidate(ps[i], today, form).value in r
    {
      assert cs[i] == Candidate(ps[i], today, form);
    }
  }

  /** `get_upcoming_birthdays` as written: dates read as `MM-DD`. */
  function UpcomingBirthdaysAsWritten(ps: seq<Person>, today: Date, days: int): (r: seq<Upcoming>)
    requires ValidDate(today)
    ensures forall e :: e in r ==> 0 <= e.daysUntil <= days
    ensures forall e :: e in r ==> exists i :: 0 <= i < |ps| && ps[i].name == e.name && ps[i].date == e.date && '-' in ps[i].date
  {
    UpcomingWith(ps, today, days, Dashed)
  }

  /** `get_upcoming_birthdays` reading dates the way they are stored. */
  function UpcomingBirthdays(ps: seq<Person>, today: Date, days: int): (r: seq<Upcoming>)
    requires ValidDate(today)
    ensures forall e :: e in r ==> 0 <= e.daysUntil <= days
    ensures forall e :: e in r ==> exists i :: 0 <= i < |ps| && Candidate(ps[i], today, Dotted) == Some(e)
    ensures forall i :: 0 <= i < |ps| && Candidate(ps[i], today, Dotted).Some? && Candidate(ps[i], today, Dotted).value.daysUntil <= days ==>
              Candidate(ps[i], today, Dotted).value in r
    ensures forall i, j :: 0 <= i < j < |r| ==> r[i].daysUntil <= r[j].daysUntil
  {
    UpcomingWith(ps, today, days, Dotted)
  }

  /** As written, nobody whose date has no dash is ever listed, and every
      date `add_person` normalises from `YYYY-MM-DD` has none. */
  lemma UpcomingMissesStoredDates(ps: seq<Person>, today: Date, days: int)
    requires ValidDate(today)
    requires forall i :: 0 <= i < |ps| ==> '-' !in ps[i].date
    ensures UpcomingBirthdaysAsWritten(ps, today, days) == []
  {
  }

  lemma DottedExampleFields()
    ensures Split("15.03.1990", '.') == ["15", "03", "1990"]
  {
    assert "15.03.1990" == "15" + ['.'] + ("03" + ['.'] + "1990");
    SplitAt("15", '.', "03" + ['.'] + "1990");
    SplitAt("03", '.', "1990");
    SplitNoSeparator("1990", '.');
  }

  lemma DottedExampleNumbers()
    ensures ParseInt("03") == Some(3) && ParseInt("15") == Some(15)
  {
    assert AllDigits("03") && AllDigits("15");
    ParseDigits("03");
    ParseDigits("15");
    assert DigitsValue("03") == 3 by { assert "03"[..1] == "0"; }
    assert DigitsValue("15") == 15 by { assert "15"[..1] == "1"; }
  }

  lemma DottedExampleDate()
    ensures MonthDay(Dotted, "15.03.1990") == Some((3, 15))
  {
    DottedExampleFields();
    DottedExampleNumbers();
  }

  /** A birthday stored as `15.03.1990`, five days ahead in any year: the
      as-written list is empty, the corrected one lists it with
      `days_until` 5. */
  lemma UpcomingExample(year: int)
    requires 1 <= year <= 9999
    ensures UpcomingBirthdaysAsWritten([Person("Ali", "15.03.1990")], Date(year, 3, 10), 30) == []
    ensures UpcomingBirthdays([Person("Ali", "15.03.1990")], Date(year, 3, 10), 30) == [Upcoming("Ali", "15.03.1990", 5)]
  {
    var p := Person("Ali", "15.03.1990");
    var today := Date(year, 3, 10);
    UpcomingMissesStoredDates([p], today, 30);
    DottedExampleDate();
    assert NextOccurrence(today, 3, 15) == Some(Date(year, 3, 15));
    SameMonthDistance(year, 3, 10, 15);
    var e := Upcoming("Ali", "15.03.1990", 5);
    assert Candidate(p, today, Dotted) == Some(e);
    var w := Within([Some(e)], 30);
    assert w == [e] by {
      assert Within([Some(e)][1..], 30) == [];
    }
    assert Candidates([p], today, Dotted) == [Some(e)];
    assert Sorting.SortBy(w, DaysUntil, IntLe) == [e];
  }
}
