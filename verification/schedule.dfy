/** The weekly schedule store: seven day records, each an ordered list of
    activities, and the edit operations the scheduler offers on it. */
module Schedule {
  import opened Wrappers
  import opened Text
  import opened Sorting

  /** A one-shot announcement inside an activity (`interimAnnouncements`). */
  datatype Interim = Interim(id: string, time: string, soundId: string, enabled: bool)

  /** One scheduled activity. Optional sound and announcement ids are `""` when
      absent, since the source only tests them for truthiness. `interims` is the
      `interimAnnouncements` key the scheduler reads; `announcements` is the key
      under which the web editor stores the same records. */
  datatype Activity = Activity(
    id: string,
    name: string,
    kind: string,
    startTime: string,
    endTime: string,
    startSoundId: string,
    endSoundId: string,
    startAnnouncementId: string,
    endAnnouncementId: string,
    playMusic: bool,
    interims: seq<Interim>,
    announcements: seq<Interim>)

  datatype Day = Day(dayOfWeek: int, dayName: string, enabled: bool, activities: seq<Activity>)

  type WeekSchedule = seq<Day>

  // ---------------------------------------------------------------------------
  // Lookup
  // ---------------------------------------------------------------------------

  /** Position of the first day record for `dayOfWeek`, as the source's
      `for day in self.schedule` loops find it. */
  function FindDay(s: WeekSchedule, dayOfWeek: int): (r: Option<nat>)
    ensures r.Some? ==> r.value < |s| && s[r.value].dayOfWeek == dayOfWeek
    ensures r.Some? ==> forall k :: 0 <= k < r.value ==> s[k].dayOfWeek != dayOfWeek
    ensures r.None? <==> forall k :: 0 <= k < |s| ==> s[k].dayOfWeek != dayOfWeek
    decreases |s|
  {
    if |s| == 0 then None
    else if s[0].dayOfWeek == dayOfWeek then Some(0)
    else match FindDay(s[1..], dayOfWeek)
      case None => None
      case Some(k) => Some(k + 1)
  }

  /** `_get_day_schedule`: the first day record for `dayOfWeek`, if any. */
  function GetDay(s: WeekSchedule, dayOfWeek: int): (r: Option<Day>)
    ensures r.Some? <==> exists k :: 0 <= k < |s| && s[k].dayOfWeek == dayOfWeek
    ensures r.Some? ==> r.value in s && r.value.dayOfWeek == dayOfWeek
  {
    match FindDay(s, dayOfWeek)
    case None => None
    case Some(i) => Some(s[i])
  }

  // ---------------------------------------------------------------------------
  // Overlap rule
  // ---------------------------------------------------------------------------

  /** The source's conflict test between a new and an existing activity:
      half-open intervals, compared as strings. */
  predicate Overlaps(n: Activity, e: Activity) {
    Lt(n.startTime, e.endTime) && Lt(e.startTime, n.endTime)
  }

  predicate Disjoint(a: Activity, b: Activity) {
    !Overlaps(a, b)
  }

  /** The day invariant the insert check maintains: no two activities overlap. */
  predicate NoOverlaps(acts: seq<Activity>) {
    Pairwise(acts, Disjoint)
  }

  function StartKey(a: Activity): string {
    a.startTime
  }

  lemma LeIsTotalPreorder()
    ensures TotalPreorder(Le)
  {
    forall a: string, b: string ensures Le(a, b) || Le(b, a) {
      LeTotal(a, b);
    }
    forall a: string, b: string, c: string | Le(a, b) && Le(b, c) ensures Le(a, c) {
      LeTransitive(a, b, c);
    }
  }

  /** The activities sorted by start time, as `list.sort(key=startTime)`. */
  function SortByStart(acts: seq<Activity>): (r: seq<Activity>)
    ensures multiset(r) == multiset(acts)
    ensures SortedBy(r, StartKey, Le)
  {
    LeIsTotalPreorder();
    SortBySorted(acts, StartKey, Le);
    SortBy(acts, StartKey, Le)
  }

  // ---------------------------------------------------------------------------
  // Edit operations
  // ---------------------------------------------------------------------------

  /** `update_day`: replaces the first record for the day, or appends one. */
  function UpdateDay(s: WeekSchedule, dayOfWeek: int, data: Day): (r: WeekSchedule)
    ensures FindDay(s, dayOfWeek).Some? ==>
              var i := FindDay(s, dayOfWeek).value;
              |r| == |s| && r[i] == data && forall k :: 0 <= k < |s| && k != i ==> r[k] == s[k]
    ensures FindDay(s, dayOfWeek).None? ==> r == s + [data]
  {
    match FindDay(s, dayOfWeek)
    case Some(i) => s[i := data]
    case None => s + [data]
  }

  /** `add_activity`: rejects an unknown day or any overlap; otherwise appends
      the activity to that day and re-sorts the day by start time. */
  function AddActivity(s: WeekSchedule, dayOfWeek: int, a: Activity): (r: (WeekSchedule, bool))
    ensures r.1 <==> FindDay(s, dayOfWeek).Some?
                     && forall e :: e in s[FindDay(s, dayOfWeek).value].activities ==> !Overlaps(a, e)
    ensures !r.1 ==> r.0 == s
    ensures r.1 ==>
              var i := FindDay(s, dayOfWeek).value;
              && |r.0| == |s|
              && (forall k :: 0 <= k < |s| && k != i ==> r.0[k] == s[k])
              && r.0[i].dayOfWeek == s[i].dayOfWeek
              && r.0[i].dayName == s[i].dayName
              && r.0[i].enabled == s[i].enabled
              && multiset(r.0[i].activities) == multiset(s[i].activities) + multiset{a}
              && SortedBy(r.0[i].activities, StartKey, Le)
  {
    match FindDay(s, dayOfWeek)
    case None => (s, false)
    case Some(i) =>
      if exists e :: e in s[i].activities && Overlaps(a, e) then (s, false)
      else
        var day := s[i];
        (s[i := day.(activities := SortByStart(day.activities + [a]))], true)
  }

  /** A successful insert keeps the day free of overlaps. */
  lemma AddActivityKeepsNoOverlaps(s: WeekSchedule, dayOfWeek: int, a: Activity)
    requires forall k :: 0 <= k < |s| ==> NoOverlaps(s[k].activities)
    ensures forall k :: 0 <= k < |AddActivity(s, dayOfWeek, a).0| ==> NoOverlaps(AddActivity(s, dayOfWeek, a).0[k].activities)
  {
    var r := AddActivity(s, dayOfWeek, a);
    if r.1 {
      var i := FindDay(s, dayOfWeek).value;
      var acts := s[i].activities + [a];
      assert NoOverlaps(acts) by {
        forall p, q | 0 <= p < q < |acts| ensures Disjoint(acts[p], acts[q]) && Disjoint(acts[q], acts[p]) {
          if q == |acts| - 1 {
            assert acts[p] in s[i].activities;
          } else {
            assert NoOverlaps(s[i].activities);
          }
        }
      }
      SortByPairwise(acts, StartKey, Le, Disjoint);
    }
  }

  /** Drops every activity with the given id, keeping the others in order. */
  function WithoutId(acts: seq<Activity>, id: string): (r: seq<Activity>)
    ensures |r| <= |acts|
    ensures forall a :: a in r <==> a in acts && a.id != id
    ensures |r| == |acts| <==> forall a :: a in acts ==> a.id != id
    ensures r == Filter(acts, (a: Activity) => a.id != id)
    decreases |acts|
  {
    if |acts| == 0 then []
    else if acts[0].id == id then WithoutId(acts[1..], id)
    else
      assert forall a :: a in acts <==> a == acts[0] || a in acts[1..];
      [acts[0]] + WithoutId(acts[1..], id)
  }

  /** `remove_activity`: succeeds whenever the day exists, even when no
      activity has that id. */
  function RemoveActivity(s: WeekSchedule, dayOfWeek: int, id: string): (r: (WeekSchedule, bool))
    ensures r.1 <==> FindDay(s, dayOfWeek).Some?
    ensures !r.1 ==> r.0 == s
    ensures r.1 ==>
              var i := FindDay(s, dayOfWeek).value;
              && |r.0| == |s|
              && (forall k :: 0 <= k < |s| && k != i ==> r.0[k] == s[k])
              && r.0[i] == s[i].(activities := r.0[i].activities)
              && (forall a :: a in r.0[i].activities <==> a in s[i].activities && a.id != id)
              && r.0[i].activities == Filter(s[i].activities, (a: Activity) => a.id != id)
  {
    match FindDay(s, dayOfWeek)
    case None => (s, false)
    case Some(i) => (s[i := s[i].(activities := WithoutId(s[i].activities, id))], true)
  }

  /** A removal keeps every day free of overlaps and keeps a day sorted by
      start time sorted. */
  lemma RemoveActivityKeepsInvariants(s: WeekSchedule, dayOfWeek: int, id: string)
    requires forall k :: 0 <= k < |s| ==> NoOverlaps(s[k].activities)
    ensures var r := RemoveActivity(s, dayOfWeek, id).0;
            forall k :: 0 <= k < |r| ==> NoOverlaps(r[k].activities)
    ensures var r := RemoveActivity(s, dayOfWeek, id).0;
            forall k :: 0 <= k < |s| && SortedBy(s[k].activities, StartKey, Le) ==> SortedBy(r[k].activities, StartKey, Le)
  {
    var r := RemoveActivity(s, dayOfWeek, id);
    if r.1 {
      var i := FindDay(s, dayOfWeek).value;
      FilterPairwise(s[i].activities, (a: Activity) => a.id != id, Disjoint);
      if SortedBy(s[i].activities, StartKey, Le) {
        FilterSorted(s[i].activities, (a: Activity) => a.id != id, StartKey, Le);
      }
    }
  }

  // ---------------------------------------------------------------------------
  // Timeline
  // ---------------------------------------------------------------------------

  datatype EventKind = StartEvent | EndEvent

  datatype TimelineEntry = TimelineEntry(time: string, name: string, kind: EventKind, activityType: string)

  function StartEntry(a: Activity): TimelineEntry {
    TimelineEntry(a.startTime, a.name, StartEvent, a.kind)
  }

  function EndEntry(a: Activity): TimelineEntry {
    TimelineEntry(a.endTime, a.name, EndEvent, a.kind)
  }

  /** The unsorted timeline: a start and an end entry per activity, in order. */
  function Entries(acts: seq<Activity>): (r: seq<TimelineEntry>)
    ensures |r| == 2 * |acts|
    ensures forall k :: 0 <= k < |acts| ==> r[2 * k] == StartEntry(acts[k]) && r[2 * k + 1] == EndEntry(acts[k])
    decreases |acts|
  {
    if |acts| == 0 then []
    else [StartEntry(acts[0]), EndEntry(acts[0])] + Entries(acts[1..])
  }

  function EntryTime(e: TimelineEntry): string {
    e.time
  }

  /** `get_daily_timeline`: today's start and end entries, sorted by time. */
  function DailyTimeline(s: WeekSchedule, dayOfWeek: int): (r: seq<TimelineEntry>)
    ensures GetDay(s, dayOfWeek).None? ==> r == []
    ensures GetDay(s, dayOfWeek).Some? ==>
              var acts := GetDay(s, dayOfWeek).value.activities;
              && |r| == 2 * |acts|
              && multiset(r) == multiset(Entries(acts))
              && (forall a :: a in acts ==> StartEntry(a) in r && EndEntry(a) in r)
    ensures SortedBy(r, EntryTime, Le)
  {
    match GetDay(s, dayOfWeek)
    case None => []
    case Some(day) =>
      var es := Entries(day.activities);
      LeIsTotalPreorder();
      SortBySorted(es, EntryTime, Le);
      var r := SortBy(es, EntryTime, Le);
      assert forall a :: a in day.activities ==> StartEntry(a) in multiset(r) && EndEntry(a) in multiset(r) by {
        forall a | a in day.activities ensures StartEntry(a) in multiset(es) && EndEntry(a) in multiset(es) {
          var k :| 0 <= k < |day.activities| && day.activities[k] == a;
          assert es[2 * k] == StartEntry(a);
          assert es[2 * k + 1] == EndEntry(a);
        }
      }
      r
  }
}
