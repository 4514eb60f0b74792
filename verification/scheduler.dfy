/** The scheduler automaton: one evaluation of the weekly schedule at the
    current minute ("tick"), as a pure transition from runtime state and
    oracle answers to a new runtime state plus the audio actions it requests. */
module Scheduler {
  import opened Wrappers
  import opened Text
  import opened Times
  import opened Sorting
  import opened Schedule

  /** The callbacks the scheduler invokes, in the order it invokes them. */
  datatype Action =
    | RingBell(sound: string)
    | Announce(sound: string)
    | StartMusic
    | StopMusic
    | BirthdayAnnouncement(name: string)

  datatype Phase = Idle | InActivity

  datatype NextEvent = NextEvent(time: string, name: string, kind: EventKind)

  /** The scheduler's transient fields (`current_state`, `next_event`,
      `last_triggered_event`, `background_music_playing`, `in_activity`,
      `current_activity`, `last_ended_activity`, `announced_birthdays`). */
  datatype Runtime = Runtime(
    phase: Phase,
    nextEvent: Option<NextEvent>,
    lastTriggered: Option<string>,
    musicPlaying: bool,
    inActivity: bool,
    current: Option<Activity>,
    lastEnded: Option<Activity>,
    announcedBirthdays: set<string>)

  const Initial := Runtime(Idle, None, None, false, false, None, None, {})

  /** Which of the callback slots `on_bell`, `on_announcement`,
      `on_music_start`, `on_music_stop` are assigned. */
  datatype Hooks = Hooks(bell: bool, announcement: bool, musicStart: bool, musicStop: bool)

  const AllHooks := Hooks(true, true, true, true)

  /** Answers of the collaborators consulted during one tick: the holiday
      checker, the birthday checker and the manual-player probe (an
      unassigned checker answers `false` / no names). */
  datatype Probes = Probes(holiday: bool, birthdays: seq<string>, manualActive: bool)

  /** `datetime.now()` as the tick reads it: ISO weekday index (Monday = 0),
      the `%Y%m%d` stamp, hour and minute. */
  datatype Clock = Clock(weekday: int, ymd: string, hour: nat, minute: nat)

  predicate ValidClock(c: Clock) {
    c.hour < 24 && c.minute < 60
  }

  function Now(c: Clock): string
    requires ValidClock(c)
  {
    FormatTime(c.hour, c.minute)
  }

  /** A transition result: the new state and the actions emitted, in order. */
  datatype Step = Step(st: Runtime, actions: seq<Action>)

  // ---------------------------------------------------------------------------
  // Background music switches
  // ---------------------------------------------------------------------------

  /** `_start_background_music`: no-op when already on or when the manual
      player is active; the flag is set only if a start callback exists. */
  function StartBackgroundMusic(st: Runtime, hooks: Hooks, manualActive: bool): (r: Step)
    ensures r.st == st.(musicPlaying := r.st.musicPlaying)
  {
    if st.musicPlaying || manualActive then Step(st, [])
    else if hooks.musicStart then Step(st.(musicPlaying := true), [StartMusic])
    else Step(st, [])
  }

  /** `_stop_background_music`: no-op when already off; the flag is cleared
      only if a stop callback exists. */
  function StopBackgroundMusic(st: Runtime, hooks: Hooks): (r: Step)
    ensures r.st == st.(musicPlaying := r.st.musicPlaying)
  {
    if !st.musicPlaying then Step(st, [])
    else if hooks.musicStop then Step(st.(musicPlaying := false), [StopMusic])
    else Step(st, [])
  }

  // ---------------------------------------------------------------------------
  // Triggers
  // ---------------------------------------------------------------------------

  function BellActions(sound: string, hooks: Hooks): seq<Action> {
    if sound != "" && hooks.bell then [RingBell(sound)] else []
  }

  function AnnouncementActions(sound: string, hooks: Hooks): seq<Action> {
    if sound != "" && hooks.announcement then [Announce(sound)] else []
  }

  /** The position of an action in a trigger's sequence: music is stopped
      first, then the bell rings, then the announcement plays, then music
      starts. */
  function CueRank(x: Action): nat {
    match x
    case StopMusic => 0
    case RingBell(_) => 1
    case Announce(_) => 2
    case StartMusic => 3
    case BirthdayAnnouncement(_) => 4
  }

  /** Actions strictly ordered by `CueRank`: each kind occurs at most once,
      and the bell comes before the announcement. */
  predicate InCueOrder(acts: seq<Action>) {
    forall i, j :: 0 <= i < j < |acts| ==> CueRank(acts[i]) < CueRank(acts[j])
  }

  /** `_trigger_activity_start`. */
  function TriggerStart(st: Runtime, a: Activity, hooks: Hooks): (r: Step)
    ensures r.st.inActivity && r.st.phase == InActivity && r.st.current == Some(a)
    ensures r.st.lastEnded == st.lastEnded && r.st.lastTriggered == st.lastTriggered
    ensures hooks.musicStop ==> !r.st.musicPlaying
    ensures StartMusic !in r.actions
    ensures RingBell(a.startSoundId) in r.actions <==> a.startSoundId != "" && hooks.bell
    ensures Announce(a.startAnnouncementId) in r.actions <==> a.startAnnouncementId != "" && hooks.announcement
    ensures forall x :: x in r.actions ==> x == StopMusic || x == RingBell(a.startSoundId) || x == Announce(a.startAnnouncementId)
    ensures InCueOrder(r.actions)
  {
    var s := StopBackgroundMusic(st.(inActivity := true, current := Some(a)), hooks);
    Step(s.st.(phase := InActivity),
         s.actions + BellActions(a.startSoundId, hooks) + AnnouncementActions(a.startAnnouncementId, hooks))
  }

  /** `_trigger_activity_end`. Music is started when the activity asks for it;
      when it does not, the music is left as it is. */
  function TriggerEnd(st: Runtime, a: Activity, hooks: Hooks, manualActive: bool): (r: Step)
    ensures !r.st.inActivity && r.st.phase == Idle && r.st.current == None
    ensures r.st.lastEnded == Some(a) && r.st.lastTriggered == st.lastTriggered
    ensures StartMusic in r.actions <==> a.playMusic && !st.musicPlaying && !manualActive && hooks.musicStart
    ensures a.playMusic && hooks.musicStart && !manualActive ==> r.st.musicPlaying
    ensures !a.playMusic ==> r.st.musicPlaying == st.musicPlaying
    ensures StopMusic !in r.actions
    ensures RingBell(a.endSoundId) in r.actions <==> a.endSoundId != "" && hooks.bell
    ensures Announce(a.endAnnouncementId) in r.actions <==> a.endAnnouncementId != "" && hooks.announcement
    ensures forall x :: x in r.actions ==> x == StartMusic || x == RingBell(a.endSoundId) || x == Announce(a.endAnnouncementId)
    ensures InCueOrder(r.actions)
  {
    var cues := BellActions(a.endSoundId, hooks) + AnnouncementActions(a.endAnnouncementId, hooks);
    var st1 := st.(inActivity := false, phase := Idle, current := None, lastEnded := Some(a));
    if a.playMusic then
      var s := StartBackgroundMusic(st1, hooks, manualActive);
      Step(s.st, cues + s.actions)
    else Step(st1, cues)
  }

  // ---------------------------------------------------------------------------
  // Due events and the single-slot dedup
  // ---------------------------------------------------------------------------

  datatype Trigger = StartOf(activity: Activity) | EndOf(activity: Activity) | InterimOf(interim: Interim)

  /** A matching event with its dedup key (`<id>_start_<YYYYMMDD>`, ...). */
  datatype Event = Event(key: string, trigger: Trigger)

  /** The key of an interim announcement's event (`<id>_interim_<YYYYMMDD>`). */
  function InterimKey(x: Interim, ymd: string): string {
    x.id + "_interim_" + ymd
  }

  /** The interim announcements of one activity that are due at `now`, in
      list order. */
  function InterimEvents(xs: seq<Interim>, now: string, ymd: string): (r: seq<Event>)
    ensures forall e :: e in r <==> (&& e.trigger.InterimOf? && e.trigger.interim in xs
                                     && e.trigger.interim.enabled && e.trigger.interim.time == now
                                     && e.key == InterimKey(e.trigger.interim, ymd))
    decreases |xs|
  {
    if |xs| == 0 then []
    else
      var here := if xs[0].enabled && xs[0].time == now
                  then [Event(InterimKey(xs[0], ymd), InterimOf(xs[0]))] else [];
      var rest := InterimEvents(xs[1..], now, ymd);
      assert forall x :: x in xs <==> x == xs[0] || x in xs[1..];
      here + rest
  }

  /** The start, end and interim events of the activities in `acts` that are
      due at `now`, with their dedup keys. */
  predicate Due(e: Event, acts: seq<Activity>, now: string, ymd: string) {
    match e.trigger
    case StartOf(a) => a in acts && a.startTime == now && e.key == a.id + "_start_" + ymd
    case EndOf(a) => a in acts && a.endTime == now && e.key == a.id + "_end_" + ymd
    case InterimOf(x) => x.enabled && x.time == now && e.key == InterimKey(x, ymd)
                         && exists a :: a in acts && x in a.interims
  }

  /** The events one activity contributes at `now`: its start, its end, then
      its enabled interim announcements, in that order. */
  function ActivityEvents(a: Activity, now: string, ymd: string): (r: seq<Event>)
    ensures forall e :: e in r <==> Due(e, [a], now, ymd)
  {
    var r := (if a.startTime == now then [Event(a.id + "_start_" + ymd, StartOf(a))] else [])
             + (if a.endTime == now then [Event(a.id + "_end_" + ymd, EndOf(a))] else [])
             + InterimEvents(a.interims, now, ymd);
    assert forall e :: e in r && e.trigger.InterimOf? ==> a in [a] && e.trigger.interim in a.interims;
    r
  }

  /** Every event due at `now`, in the order the tick visits them. */
  function DueEvents(acts: seq<Activity>, now: string, ymd: string): (r: seq<Event>)
    ensures forall e :: e in r <==> Due(e, acts, now, ymd)
    decreases |acts|
  {
    if |acts| == 0 then []
    else
      var r := ActivityEvents(acts[0], now, ymd) + DueEvents(acts[1..], now, ymd);
      DueCons(acts, now, ymd);
      r
  }

  /** An event is due among `acts` exactly when it is due for the first
      activity or among the rest. */
  lemma DueCons(acts: seq<Activity>, now: string, ymd: string)
    requires |acts| > 0
    ensures forall e :: Due(e, acts, now, ymd) <==> Due(e, [acts[0]], now, ymd) || Due(e, acts[1..], now, ymd)
  {
    assert forall a :: a in acts <==> a == acts[0] || a in acts[1..];
  }

  /** An activity's start is fired at exactly the minute it starts, under
      the key `<id>_start_<YYYYMMDD>`; likewise its end under `<id>_end_…`. */
  lemma StartAndEndAreDue(acts: seq<Activity>, a: Activity, now: string, ymd: string)
    ensures Event(a.id + "_start_" + ymd, StartOf(a)) in DueEvents(acts, now, ymd) <==> a in acts && a.startTime == now
    ensures Event(a.id + "_end_" + ymd, EndOf(a)) in DueEvents(acts, now, ymd) <==> a in acts && a.endTime == now
  {
  }

  /** An interim announcement is fired at exactly its minute when enabled and
      listed under some scheduled activity, under `<id>_interim_<YYYYMMDD>`. */
  lemma InterimIsDue(acts: seq<Activity>, x: Interim, now: string, ymd: string)
    ensures Event(InterimKey(x, ymd), InterimOf(x)) in DueEvents(acts, now, ymd)
            <==> x.enabled && x.time == now && exists a :: a in acts && x in a.interims
  {
  }

  function Fire(st: Runtime, t: Trigger, hooks: Hooks, manualActive: bool): (r: Step)
    ensures r.st.lastTriggered == st.lastTriggered
  {
    match t
    case StartOf(a) => TriggerStart(st, a, hooks)
    case EndOf(a) => TriggerEnd(st, a, hooks, manualActive)
    case InterimOf(i) => Step(st, AnnouncementActions(i.soundId, hooks))
  }

  /** Visits the due events in order; an event fires only when its key differs
      from the single remembered `last_triggered_event`, which it then replaces. */
  function FireAll(st: Runtime, events: seq<Event>, hooks: Hooks, manualActive: bool): (r: Step)
    decreases |events|
  {
    if |events| == 0 then Step(st, [])
    else
      var e := events[0];
      var s1 := if st.lastTriggered != Some(e.key)
                then Fire(st.(lastTriggered := Some(e.key)), e.trigger, hooks, manualActive)
                else Step(st, []);
      var s2 := FireAll(s1.st, events[1..], hooks, manualActive);
      Step(s2.st, s1.actions + s2.actions)
  }

  /** After the due events are visited, the remembered key is the last one's. */
  lemma {:induction false} FireAllRemembersLast(st: Runtime, events: seq<Event>, hooks: Hooks, manualActive: bool)
    ensures |events| == 0 ==> FireAll(st, events, hooks, manualActive) == Step(st, [])
    ensures |events| > 0 ==> FireAll(st, events, hooks, manualActive).st.lastTriggered == Some(events[|events| - 1].key)
    decreases |events|
  {
    if |events| > 0 {
      var e := events[0];
      var s1 := if st.lastTriggered != Some(e.key)
                then Fire(st.(lastTriggered := Some(e.key)), e.trigger, hooks, manualActive)
                else Step(st, []);
      FireAllRemembersLast(s1.st, events[1..], hooks, manualActive);
    }
  }

  /** When every due event carries the remembered key, nothing fires and
      nothing changes: a minute with one due event fires it once. */
  lemma {:induction false} SameKeyFiresNothing(st: Runtime, events: seq<Event>, hooks: Hooks, manualActive: bool)
    requires st.lastTriggered.Some?
    requires forall k :: 0 <= k < |events| ==> Some(events[k].key) == st.lastTriggered
    ensures FireAll(st, events, hooks, manualActive) == Step(st, [])
    decreases |events|
  {
    if |events| > 0 {
      SameKeyFiresNothing(st, events[1..], hooks, manualActive);
    }
  }

  /** A single due event fires on the first tick of its minute and never again
      on the following ticks of that minute. */
  lemma SingleEventFiresOnce(st: Runtime, e: Event, hooks: Hooks, manualActive: bool)
    ensures var s1 := FireAll(st, [e], hooks, manualActive);
            && (st.lastTriggered != Some(e.key) ==> s1 == Fire(st.(lastTriggered := Some(e.key)), e.trigger, hooks, manualActive))
            && FireAll(s1.st, [e], hooks, manualActive) == Step(s1.st, [])
  {
    var s1 := FireAll(st, [e], hooks, manualActive);
    FireAllRemembersLast(st, [e], hooks, manualActive);
    SameKeyFiresNothing(s1.st, [e], hooks, manualActive);
  }

  /** Two due events with different keys both fire again on every tick of
      their minute: the single remembered key cannot hold both. */
  lemma TwoEventsAlwaysRefire(st: Runtime, e1: Event, e2: Event, hooks: Hooks, manualActive: bool)
    requires e1.key != e2.key
    requires st.lastTriggered == Some(e2.key)
    ensures var s1 := Fire(st.(lastTriggered := Some(e1.key)), e1.trigger, hooks, manualActive);
            var s2 := Fire(s1.st.(lastTriggered := Some(e2.key)), e2.trigger, hooks, manualActive);
            FireAll(st, [e1, e2], hooks, manualActive) == Step(s2.st, s1.actions + s2.actions)
    ensures FireAll(st, [e1, e2], hooks, manualActive).st.lastTriggered == Some(e2.key)
  {
    var s1 := Fire(st.(lastTriggered := Some(e1.key)), e1.trigger, hooks, manualActive);
    var s2 := Fire(s1.st.(lastTriggered := Some(e2.key)), e2.trigger, hooks, manualActive);
    assert [e1, e2][1..] == [e2];
    assert [e2][1..] == [];
    assert FireAll(s1.st, [e2], hooks, manualActive) == Step(s2.st, s2.actions + []);
    assert s2.actions + [] == s2.actions;
  }

  // ---------------------------------------------------------------------------
  // Birthday gating
  // ---------------------------------------------------------------------------

  function BirthdayKey(name: string, c: Clock): string
    requires ValidClock(c)
  {
    "birthday_" + name + "_" + c.ymd + "_" + CompactTime(c.hour, c.minute)
  }

  /** Keys differ for different names at the same clock reading. */
  lemma BirthdayKeyInjective(a: string, b: string, c: Clock)
    requires ValidClock(c)
    requires BirthdayKey(a, c) == BirthdayKey(b, c)
    ensures a == b
  {
    var tail := "_" + c.ymd + "_" + CompactTime(c.hour, c.minute);
    assert BirthdayKey(a, c) == "birthday_" + a + tail;
    assert BirthdayKey(b, c) == "birthday_" + b + tail;
    assert |a| == |b|;
    assert a == BirthdayKey(a, c)[9..9 + |a|];
    assert b == BirthdayKey(b, c)[9..9 + |b|];
  }

  /** The keys of all the names at this clock reading. */
  function BirthdayKeys(names: seq<string>, c: Clock): (r: set<string>)
    requires ValidClock(c)
    ensures forall k :: 0 <= k < |names| ==> BirthdayKey(names[k], c) in r
    decreases |names|
  {
    if |names| == 0 then {} else {BirthdayKey(names[0], c)} + BirthdayKeys(names[1..], c)
  }

  /** Announces each name whose key is not yet in the set, adding the key. */
  function AnnounceNames(seen: set<string>, names: seq<string>, c: Clock, hooks: Hooks): (r: (set<string>, seq<Action>))
    requires ValidClock(c)
    ensures r.0 == seen + BirthdayKeys(names, c)
    ensures forall x :: x in r.1 ==> x.BirthdayAnnouncement? && x.name in names && BirthdayKey(x.name, c) !in seen
    ensures hooks.announcement ==>
              forall k :: 0 <= k < |names| && BirthdayKey(names[k], c) !in seen ==> BirthdayAnnouncement(names[k]) in r.1
    ensures !hooks.announcement ==> r.1 == []
    ensures (forall k :: 0 <= k < |names| ==> BirthdayKey(names[k], c) in seen) ==> r.1 == []
    ensures forall i, j :: 0 <= i < j < |r.1| ==> r.1[i] != r.1[j]
    decreases |names|
  {
    if |names| == 0 then (seen, [])
    else
      var key := BirthdayKey(names[0], c);
      var unseen := key !in seen;
      var here := if unseen && hooks.announcement then [BirthdayAnnouncement(names[0])] else [];
      var rest := AnnounceNames(seen + {key}, names[1..], c, hooks);
      assert forall x :: x in rest.1 ==> x != BirthdayAnnouncement(names[0]);
      assert forall k :: 1 <= k < |names| ==> names[k] == names[1..][k - 1];
      assert forall x :: x in rest.1 ==> x.name in names && BirthdayKey(x.name, c) !in seen;
      assert hooks.announcement ==>
        forall k :: 0 <= k < |names| && BirthdayKey(names[k], c) !in seen ==> BirthdayAnnouncement(names[k]) in here + rest.1 by {
        if hooks.announcement {
          AnnounceCovers(seen, names, c, here, rest.1);
        }
      }
      (rest.0, here + rest.1)
  }

  /** The announcement of the first name together with those of the rest
      cover every name whose key was not yet seen. */
  lemma AnnounceCovers(seen: set<string>, names: seq<string>, c: Clock, here: seq<Action>, rest: seq<Action>)
    requires ValidClock(c) && |names| > 0
    requires BirthdayKey(names[0], c) !in seen ==> here == [BirthdayAnnouncement(names[0])]
    requires forall k :: 0 <= k < |names[1..]| && BirthdayKey(names[1..][k], c) !in seen + {BirthdayKey(names[0], c)} ==>
               BirthdayAnnouncement(names[1..][k]) in rest
    ensures forall k :: 0 <= k < |names| && BirthdayKey(names[k], c) !in seen ==> BirthdayAnnouncement(names[k]) in here + rest
  {
    forall k | 0 <= k < |names| && BirthdayKey(names[k], c) !in seen
      ensures BirthdayAnnouncement(names[k]) in here + rest
    {
      if k == 0 {
        assert here[0] == BirthdayAnnouncement(names[0]);
        assert (here + rest)[0] == here[0];
      } else if BirthdayKey(names[k], c) == BirthdayKey(names[0], c) {
        BirthdayKeyInjective(names[k], names[0], c);
        assert (here + rest)[0] == here[0];
      } else {
        assert names[k] == names[1..][k - 1];
        assert BirthdayAnnouncement(names[k]) in rest;
      }
    }
  }

  /** The tick's birthday step: names are announced once per name and minute;
      the set of announced keys is emptied at `00:00`, but only on a tick that
      also had names to announce. */
  function BirthdayStep(st: Runtime, names: seq<string>, c: Clock, hooks: Hooks): (r: Step)
    requires ValidClock(c)
    ensures |names| == 0 ==> r == Step(st, [])
    ensures r.st == st.(announcedBirthdays := r.st.announcedBirthdays)
    ensures |names| > 0 && (c.hour, c.minute) == (0, 0) ==> r.st.announcedBirthdays == {}
    ensures |names| > 0 && (c.hour, c.minute) != (0, 0) ==>
              forall k :: 0 <= k < |names| ==> BirthdayKey(names[k], c) in r.st.announcedBirthdays
  {
    if |names| == 0 then Step(st, [])
    else
      var r := AnnounceNames(st.announcedBirthdays, names, c, hooks);
      var seen := if c.hour == 0 && c.minute == 0 then {} else r.0;
      Step(st.(announcedBirthdays := seen), r.1)
  }

  /** Outside midnight, a second tick in the same minute announces nobody. */
  lemma BirthdaysAnnouncedOncePerMinute(st: Runtime, names: seq<string>, c: Clock, hooks: Hooks)
    requires ValidClock(c) && (c.hour, c.minute) != (0, 0)
    ensures var s1 := BirthdayStep(st, names, c, hooks);
            BirthdayStep(s1.st, names, c, hooks).actions == []
  {
  }

  // ---------------------------------------------------------------------------
  // Next event
  // ---------------------------------------------------------------------------

  function ToNextEvent(e: TimelineEntry): NextEvent {
    NextEvent(e.time, e.name, e.kind)
  }

  /** Left-to-right scan keeping the earliest time strictly after `now`; a
      later candidate replaces the kept one only if strictly earlier. */
  function ScanNext(es: seq<TimelineEntry>, now: string, i: nat, best: Option<nat>): (r: Option<nat>)
    requires i <= |es|
    requires best.Some? ==> best.value < i
    ensures r.Some? ==> r.value < |es|
    decreases |es| - i
  {
    if i == |es| then best
    else
      var t := es[i].time;
      var best' := if Lt(now, t) && (best.None? || Lt(t, es[best.value].time)) then Some(i) else best;
      ScanNext(es, now, i + 1, best')
  }

  /** Position `i` holds the earliest time after `now` among the first `n`
      entries, and no earlier position holds the same time. */
  predicate FirstEarliestAfter(es: seq<TimelineEntry>, now: string, n: nat, i: nat)
    requires n <= |es|
  {
    && i < n
    && Lt(now, es[i].time)
    && (forall j :: 0 <= j < n && Lt(now, es[j].time) ==> Le(es[i].time, es[j].time))
    && (forall j :: 0 <= j < i && Lt(now, es[j].time) ==> es[j].time != es[i].time)
  }

  lemma {:induction false} ScanNextCorrect(es: seq<TimelineEntry>, now: string, i: nat, best: Option<nat>)
    requires i <= |es|
    requires best.None? <==> forall j :: 0 <= j < i ==> !Lt(now, es[j].time)
    requires best.Some? ==> FirstEarliestAfter(es, now, i, best.value)
    ensures var r := ScanNext(es, now, i, best);
            && (r.None? <==> forall j :: 0 <= j < |es| ==> !Lt(now, es[j].time))
            && (r.Some? ==> FirstEarliestAfter(es, now, |es|, r.value))
    decreases |es| - i
  {
    if i < |es| {
      var t := es[i].time;
      var best' := if Lt(now, t) && (best.None? || Lt(t, es[best.value].time)) then Some(i) else best;
      if best'.Some? {
        var b := best'.value;
        forall j | 0 <= j < i + 1 && Lt(now, es[j].time) ensures Le(es[b].time, es[j].time) {
          if b == i {
            if best.Some? && j < i {
              assert Le(es[best.value].time, es[j].time);
              if Lt(es[j].time, t) { LtTransitive(es[j].time, t, es[best.value].time); }
            }
            if j == i { LtIrreflexive(t); }
          } else if j == i && Lt(now, t) {
            LtTrichotomy(t, es[b].time);
            if Lt(t, es[b].time) { } else if t == es[b].time { LtIrreflexive(t); } else { LtAsymmetric(es[b].time, t); }
          }
        }
        forall j | 0 <= j < b && Lt(now, es[j].time) ensures es[j].time != es[b].time {
          if b == i && best.Some? {
            assert Le(es[best.value].time, es[j].time);
          }
        }
      }
      ScanNextCorrect(es, now, i + 1, best');
    }
  }

  /** `_find_next_event`. */
  function FindNextEvent(acts: seq<Activity>, now: string): Option<NextEvent> {
    var es := Entries(acts);
    match ScanNext(es, now, 0, None)
    case None => None
    case Some(i) => Some(ToNextEvent(es[i]))
  }

  /** `_find_next_event` yields the earliest start or end time strictly after
      `now`, the earliest-listed one on ties, or nothing when none is left. */
  lemma FindNextEventSpec(acts: seq<Activity>, now: string)
    ensures var es := Entries(acts);
            && (FindNextEvent(acts, now).None? <==> forall j :: 0 <= j < |es| ==> !Lt(now, es[j].time))
            && (FindNextEvent(acts, now).Some? ==>
                  exists i :: 0 <= i < |es| && FirstEarliestAfter(es, now, |es|, i)
                              && FindNextEvent(acts, now) == Some(ToNextEvent(es[i])))
  {
    ScanNextCorrect(Entries(acts), now, 0, None);
  }

  // ---------------------------------------------------------------------------
  // Background-music policy
  // ---------------------------------------------------------------------------

  predicate Within(a: Activity, now: string) {
    Le(a.startTime, now) && Lt(now, a.endTime)
  }

  predicate InAnyActivity(acts: seq<Activity>, now: string) {
    exists a :: a in acts && Within(a, now)
  }

  function EndKey(a: Activity): string {
    a.endTime
  }

  function FirstEndedBy(sorted: seq<Activity>, now: string): (r: Option<Activity>)
    ensures r.Some? ==> r.value in sorted && Le(r.value.endTime, now)
    ensures r.Some? ==> exists k :: 0 <= k < |sorted| && sorted[k] == r.value
                                    && forall j :: 0 <= j < k ==> !Le(sorted[j].endTime, now)
    ensures r.None? <==> forall a :: a in sorted ==> !Le(a.endTime, now)
    decreases |sorted|
  {
    if |sorted| == 0 then None
    else if Le(sorted[0].endTime, now) then Some(sorted[0])
    else
      var r := FirstEndedBy(sorted[1..], now);
      assert forall a :: a in sorted <==> a == sorted[0] || a in sorted[1..];
      if r.Some? then
        var k :| 0 <= k < |sorted[1..]| && sorted[1..][k] == r.value
                 && forall j :: 0 <= j < k ==> !Le(sorted[1..][j].endTime, now);
        assert sorted[k + 1] == r.value;
        r
      else r
  }

  /** The activity that ended last at or before `now`: the first activity with
      `endTime <= now` after sorting by `endTime`, latest first. */
  function LatestEnded(acts: seq<Activity>, now: string): Option<Activity> {
    FirstEndedBy(SortDescBy(acts, EndKey, Le), now)
  }

  /** In a list sorted by end time, latest first, the first activity that
      has ended by `now` has the greatest end time of those that have. */
  lemma EndedFirstIsLatest(sorted: seq<Activity>, now: string, k: nat)
    requires forall i, j :: 0 <= i < j < |sorted| ==> Le(sorted[j].endTime, sorted[i].endTime)
    requires k < |sorted| && Le(sorted[k].endTime, now)
    requires forall j :: 0 <= j < k ==> !Le(sorted[j].endTime, now)
    ensures forall b :: b in sorted && Le(b.endTime, now) ==> Le(b.endTime, sorted[k].endTime)
  {
    forall b | b in sorted && Le(b.endTime, now) ensures Le(b.endTime, sorted[k].endTime) {
      var j :| 0 <= j < |sorted| && sorted[j] == b;
      if j == k { LtIrreflexive(b.endTime); }
    }
  }

  lemma FirstEndedIsLatest(sorted: seq<Activity>, now: string)
    requires forall i, j :: 0 <= i < j < |sorted| ==> Le(sorted[j].endTime, sorted[i].endTime)
    ensures var r := FirstEndedBy(sorted, now);
            r.Some? ==> forall b :: b in sorted && Le(b.endTime, now) ==> Le(b.endTime, r.value.endTime)
  {
    var r := FirstEndedBy(sorted, now);
    if r.Some? {
      var k :| 0 <= k < |sorted| && sorted[k] == r.value
               && forall j :: 0 <= j < k ==> !Le(sorted[j].endTime, now);
      EndedFirstIsLatest(sorted, now, k);
    }
  }

  /** `LatestEnded` picks an activity that has ended, with the greatest end
      time among those that have; there is none only when none has ended. */
  lemma LatestEndedSpec(acts: seq<Activity>, now: string)
    ensures var r := LatestEnded(acts, now);
            && (r.None? <==> forall a :: a in acts ==> !Le(a.endTime, now))
            && (r.Some? ==> r.value in acts && Le(r.value.endTime, now)
                            && forall b :: b in acts && Le(b.endTime, now) ==> Le(b.endTime, r.value.endTime))
  {
    var sorted := SortDescBy(acts, EndKey, Le);
    assert forall a :: a in acts <==> a in sorted by {
      forall a ensures a in acts <==> a in sorted {
        assert a in acts <==> a in multiset(acts);
        assert a in sorted <==> a in multiset(sorted);
      }
    }
    assert forall i, j :: 0 <= i < j < |sorted| ==> Le(sorted[j].endTime, sorted[i].endTime) by {
      LeIsTotalPreorder();
      SortDescBySorted(acts, EndKey, Le);
    }
    FirstEndedIsLatest(sorted, now);
  }

  /** `_manage_background_music`. */
  /** The policy only ever changes the music flag and the remembered
      last-ended activity. */
  function ManageMusic(st: Runtime, acts: seq<Activity>, now: string, hooks: Hooks, manualActive: bool): (r: Step)
    ensures r.st == st.(lastEnded := r.st.lastEnded, musicPlaying := r.st.musicPlaying)
  {
    if manualActive then Step(st, [])
    else if InAnyActivity(acts, now) then
      (if st.musicPlaying then StopBackgroundMusic(st, hooks) else Step(st, []))
    else
      var ended := if st.lastEnded.None? then LatestEnded(acts, now) else st.lastEnded;
      var st1 := st.(lastEnded := ended);
      if ended.Some? && ended.value.playMusic then
        (if !st1.musicPlaying then StartBackgroundMusic(st1, hooks, manualActive) else Step(st1, []))
      else
        (if st1.musicPlaying then StopBackgroundMusic(st1, hooks) else Step(st1, []))
  }

  /** The music flag after the policy: untouched while the manual player is
      active; otherwise on exactly when `now` lies in no activity window and
      the remembered (or, if none, recomputed) last-ended activity asks for
      music. */
  lemma ManageMusicPolicy(st: Runtime, acts: seq<Activity>, now: string, manualActive: bool)
    ensures var r := ManageMusic(st, acts, now, AllHooks, manualActive);
            && (manualActive ==> r == Step(st, []))
            && (!manualActive ==>
                  var ended := if InAnyActivity(acts, now) then st.lastEnded
                               else if st.lastEnded.None? then LatestEnded(acts, now) else st.lastEnded;
                  && r.st.lastEnded == ended
                  && r.st.musicPlaying == (!InAnyActivity(acts, now) && ended.Some? && ended.value.playMusic))
            && (r.actions == [] <==> r.st.musicPlaying == st.musicPlaying)
  {
  }

  /** Running the policy twice in a row emits nothing the second time. */
  lemma ManageMusicIdempotent(st: Runtime, acts: seq<Activity>, now: string, manualActive: bool)
    ensures var s1 := ManageMusic(st, acts, now, AllHooks, manualActive);
            ManageMusic(s1.st, acts, now, AllHooks, manualActive) == Step(s1.st, [])
  {
    var s1 := ManageMusic(st, acts, now, AllHooks, manualActive);
    ManageMusicPolicy(st, acts, now, manualActive);
    ManageMusicPolicy(s1.st, acts, now, manualActive);
  }

  // ---------------------------------------------------------------------------
  // The tick
  // ---------------------------------------------------------------------------

  /** A disabled or missing day, or a holiday: clear the next event and stop
      the music. */
  function Gate(st: Runtime, hooks: Hooks): (r: Step)
    ensures r.st == st.(nextEvent := None, musicPlaying := r.st.musicPlaying)
  {
    StopBackgroundMusic(st.(nextEvent := None), hooks)
  }

  predicate DayActive(sched: WeekSchedule, c: Clock, p: Probes) {
    GetDay(sched, c.weekday).Some? && GetDay(sched, c.weekday).value.enabled && !p.holiday
  }

  /** `_tick`: one evaluation of the schedule at the current minute. */
  function Tick(sched: WeekSchedule, st: Runtime, c: Clock, hooks: Hooks, p: Probes): (r: Step)
    requires ValidClock(c)
    ensures !DayActive(sched, c, p) ==>
              && r.st == st.(nextEvent := None, musicPlaying := r.st.musicPlaying)
              && r.actions == (if st.musicPlaying && hooks.musicStop then [StopMusic] else [])
              && (hooks.musicStop ==> !r.st.musicPlaying)
    ensures DayActive(sched, c, p) ==>
              r.st.nextEvent == FindNextEvent(GetDay(sched, c.weekday).value.activities, Now(c))
    ensures DayActive(sched, c, p) ==>
              var due := DueEvents(GetDay(sched, c.weekday).value.activities, Now(c), c.ymd);
              var f := FireAll(st, due, hooks, p.manualActive);
              && f.actions <= r.actions
              && r.st.lastTriggered == (if |due| == 0 then st.lastTriggered else Some(due[|due| - 1].key))
  {
    match GetDay(sched, c.weekday)
    case None => Gate(st, hooks)
    case Some(day) =>
      if !day.enabled || p.holiday then Gate(st, hooks)
      else
        var now := Now(c);
        var acts := day.activities;
        var s1 := FireAll(st, DueEvents(acts, now, c.ymd), hooks, p.manualActive);
        FireAllRemembersLast(st, DueEvents(acts, now, c.ymd), hooks, p.manualActive);
        var s2 := BirthdayStep(s1.st, p.birthdays, c, hooks);
        var s3 := ManageMusic(s2.st.(nextEvent := FindNextEvent(acts, now)), acts, now, hooks, p.manualActive);
        assert s1.actions <= s1.actions + s2.actions + s3.actions;
        Step(s3.st, s1.actions + s2.actions + s3.actions)
  }

  /** The background-music invariant right after every tick on an active day
      (all callbacks assigned, manual player idle): music is on exactly when
      `now` is outside every activity window and the remembered last-ended
      activity asks for music. */
  lemma TickMusicInvariant(sched: WeekSchedule, st: Runtime, c: Clock, p: Probes)
    requires ValidClock(c) && DayActive(sched, c, p) && !p.manualActive
    ensures var r := Tick(sched, st, c, AllHooks, p);
            var acts := GetDay(sched, c.weekday).value.activities;
            r.st.musicPlaying ==
              (!InAnyActivity(acts, Now(c)) && r.st.lastEnded.Some? && r.st.lastEnded.value.playMusic)
  {
    var day := GetDay(sched, c.weekday).value;
    var now := Now(c);
    var s1 := FireAll(st, DueEvents(day.activities, now, c.ymd), AllHooks, p.manualActive);
    var s2 := BirthdayStep(s1.st, p.birthdays, c, AllHooks);
    ManageMusicPolicy(s2.st.(nextEvent := FindNextEvent(day.activities, now)), day.activities, now, p.manualActive);
  }

  // ---------------------------------------------------------------------------
  // Start-up reconciliation
  // ---------------------------------------------------------------------------

  function FirstWithin(acts: seq<Activity>, now: string): (r: Option<Activity>)
    ensures r.Some? <==> InAnyActivity(acts, now)
    ensures r.Some? ==> r.value in acts && Within(r.value, now)
    decreases |acts|
  {
    if |acts| == 0 then None
    else if Within(acts[0], now) then Some(acts[0])
    else
      assert forall a :: a in acts <==> a == acts[0] || a in acts[1..];
      FirstWithin(acts[1..], now)
  }

  /** `_check_initial_state`: rebuilds the activity and last-ended fields from
      the clock without replaying any bell or announcement. Inside an activity
      it sets `in_activity` and `current_activity` but leaves `current_state`. */
  function CheckInitialState(sched: WeekSchedule, st: Runtime, c: Clock, hooks: Hooks, p: Probes): (r: Step)
    requires ValidClock(c)
    ensures forall x :: x in r.actions ==> x == StartMusic
    ensures r.st.phase == st.phase && r.st.lastTriggered == st.lastTriggered && r.st.nextEvent == st.nextEvent
    ensures !DayActive(sched, c, p) || p.manualActive ==> r == Step(st, [])
    ensures DayActive(sched, c, p) && !p.manualActive ==>
              var acts := GetDay(sched, c.weekday).value.activities;
              && (InAnyActivity(acts, Now(c)) ==>
                    r.st.inActivity && r.st.current == FirstWithin(acts, Now(c)) && r.actions == [])
              && (!InAnyActivity(acts, Now(c)) ==> r.st.lastEnded == LatestEnded(acts, Now(c)))
  {
    match GetDay(sched, c.weekday)
    case None => Step(st, [])
    case Some(day) =>
      if !day.enabled || p.holiday || p.manualActive then Step(st, [])
      else
        var now := Now(c);
        match FirstWithin(day.activities, now)
        case Some(a) => Step(st.(inActivity := true, current := Some(a)), [])
        case None =>
          var ended := LatestEnded(day.activities, now);
          var st1 := st.(lastEnded := ended);
          if ended.Some? && ended.value.playMusic then StartBackgroundMusic(st1, hooks, false)
          else Step(st1.(inActivity := false), [])
  }

  /** Start-up and the per-tick policy agree: right after reconciliation on a
      fresh state, the tick's music policy has nothing to change. */
  lemma StartupAgreesWithPolicy(sched: WeekSchedule, c: Clock, p: Probes)
    requires ValidClock(c) && DayActive(sched, c, p) && !p.manualActive
    ensures var s := CheckInitialState(sched, Initial, c, AllHooks, p);
            var acts := GetDay(sched, c.weekday).value.activities;
            ManageMusic(s.st, acts, Now(c), AllHooks, false) == Step(s.st, [])
  {
    var s := CheckInitialState(sched, Initial, c, AllHooks, p);
    var acts := GetDay(sched, c.weekday).value.activities;
    ManageMusicPolicy(s.st, acts, Now(c), false);
    LatestEndedSpec(acts, Now(c));
  }

  // ---------------------------------------------------------------------------
  // Behaviour on concrete schedules
  // ---------------------------------------------------------------------------

  /** Interim announcements are read only from `interimAnnouncements`; records
      stored under `announcements` (where the web editor puts them) never fire. */
  lemma {:induction false} EditorAnnouncementsNeverFire(acts: seq<Activity>, now: string, ymd: string)
    requires forall a :: a in acts ==> a.interims == []
    ensures forall e :: e in DueEvents(acts, now, ymd) ==> !e.trigger.InterimOf?
    decreases |acts|
  {
    if |acts| > 0 {
      assert acts[0] in acts;
      assert forall a :: a in acts[1..] ==> a in acts;
      EditorAnnouncementsNeverFire(acts[1..], now, ymd);
    }
  }

  /** On an active day a tick is the three steps in order: the due events,
      the birthday check and the music policy. */
  lemma TickOnActiveDay(sched: WeekSchedule, st: Runtime, c: Clock, hooks: Hooks, p: Probes)
    requires ValidClock(c) && DayActive(sched, c, p)
    ensures var acts := GetDay(sched, c.weekday).value.activities;
            var now := Now(c);
            var s1 := FireAll(st, DueEvents(acts, now, c.ymd), hooks, p.manualActive);
            var s2 := BirthdayStep(s1.st, p.birthdays, c, hooks);
            var s3 := ManageMusic(s2.st.(nextEvent := FindNextEvent(acts, now)), acts, now, hooks, p.manualActive);
            Tick(sched, st, c, hooks, p) == Step(s3.st, s1.actions + s2.actions + s3.actions)
  {
  }

  /** A single due event fires exactly when its key is new. */
  lemma FireOne(st: Runtime, e: Event, hooks: Hooks, manualActive: bool)
    ensures FireAll(st, [e], hooks, manualActive)
            == if st.lastTriggered != Some(e.key) then Fire(st.(lastTriggered := Some(e.key)), e.trigger, hooks, manualActive)
               else Step(st, [])
  {
    assert [e][1..] == [];
    var s1 := if st.lastTriggered != Some(e.key) then Fire(st.(lastTriggered := Some(e.key)), e.trigger, hooks, manualActive)
              else Step(st, []);
    assert s1.actions + [] == s1.actions;
  }

  const Morning := Activity("a1", "Shift", "custom", "08:00", "08:10", "bell1", "", "", "", true, [], [])

  const MondayOnly := [Day(0, "Monday", true, [Morning])]

  const NoProbes := Probes(false, [], false)

  const Ymd := "20260105"

  const Eight := Clock(0, Ymd, 8, 0)
  const EightTen := Clock(0, Ymd, 8, 10)

  lemma ScenarioClocks()
    ensures Now(Eight) == "08:00" && Now(EightTen) == "08:10"
    ensures GetDay(MondayOnly, 0) == Some(MondayOnly[0])
    ensures DayActive(MondayOnly, Eight, NoProbes) && DayActive(MondayOnly, EightTen, NoProbes)
  {
  }

  const MorningStart := Event(Morning.id + "_start_" + Ymd, StartOf(Morning))
  const MorningEnd := Event(Morning.id + "_end_" + Ymd, EndOf(Morning))

  lemma MorningEvents()
    ensures DueEvents([Morning], "08:00", Ymd) == [MorningStart]
    ensures DueEvents([Morning], "08:10", Ymd) == [MorningEnd]
    ensures InAnyActivity([Morning], "08:00") && !InAnyActivity([Morning], "08:10")
    ensures MorningStart.key != MorningEnd.key
  {
    assert "08:10"[3] != "08:00"[3];
    assert InterimEvents([], "08:00", Ymd) == [] && InterimEvents([], "08:10", Ymd) == [];
    assert ActivityEvents(Morning, "08:00", Ymd) == [MorningStart];
    assert ActivityEvents(Morning, "08:10", Ymd) == [MorningEnd];
    assert Within(Morning, "08:00");
    assert !Within(Morning, "08:10");
    assert MorningStart.key[4] != MorningEnd.key[4];
  }

  /** 08:00 on a day with one activity 08:00-08:10 (start bell, break music):
      the bell rings and the activity is entered. */
  lemma MorningStartTick(st: Runtime)
    requires st.lastTriggered == None && !st.musicPlaying
    ensures var t := Tick(MondayOnly, st, Eight, AllHooks, NoProbes);
            && t.actions == [RingBell("bell1")] && t.st.inActivity && !t.st.musicPlaying
            && t.st.lastTriggered == Some(Morning.id + "_start_" + Ymd)
  {
    ScenarioClocks();
    MorningEvents();
    TickOnActiveDay(MondayOnly, st, Eight, AllHooks, NoProbes);
    var f := TriggerStart(st.(lastTriggered := Some(MorningStart.key)), Morning, AllHooks);
    assert f.actions == [RingBell("bell1")];
    FireOne(st, MorningStart, AllHooks, false);
    var s1 := FireAll(st, [MorningStart], AllHooks, false);
    assert s1 == f;
    var s2 := BirthdayStep(s1.st, [], Eight, AllHooks);
    var s3 := ManageMusic(s2.st.(nextEvent := FindNextEvent([Morning], "08:00")), [Morning], "08:00", AllHooks, false);
    assert s3.actions == [];
  }

  /** The end event of the morning activity, fired from inside it. */
  lemma MorningEndFires(st: Runtime)
    requires st.lastTriggered == Some(MorningStart.key) && !st.musicPlaying
    ensures FireAll(st, [MorningEnd], AllHooks, false)
            == Step(st.(lastTriggered := Some(MorningEnd.key), inActivity := false, phase := Idle,
                        current := None, lastEnded := Some(Morning), musicPlaying := true), [StartMusic])
  {
    MorningEvents();
    FireOne(st, MorningEnd, AllHooks, false);
  }

  /** During the break after the morning activity, music already on stays on. */
  lemma BreakMusicHolds(s: Runtime)
    requires s.musicPlaying && s.lastEnded == Some(Morning)
    ensures ManageMusic(s, [Morning], "08:10", AllHooks, false) == Step(s, [])
  {
    MorningEvents();
  }

  /** 08:10: the end fires and, since the activity asks for it, music starts. */
  lemma MorningEndTick(st: Runtime)
    requires st.lastTriggered == Some(Morning.id + "_start_" + Ymd) && !st.musicPlaying
    ensures var t := Tick(MondayOnly, st, EightTen, AllHooks, NoProbes);
            && t.actions == [StartMusic] && !t.st.inActivity && t.st.musicPlaying
            && t.st.lastEnded == Some(Morning)
            && t.st.lastTriggered == Some(Morning.id + "_end_" + Ymd)
  {
    ScenarioClocks();
    MorningEvents();
    TickOnActiveDay(MondayOnly, st, EightTen, AllHooks, NoProbes);
    MorningEndFires(st);
    var s1 := FireAll(st, [MorningEnd], AllHooks, false);
    var s2 := BirthdayStep(s1.st, [], EightTen, AllHooks);
    assert s2 == Step(s1.st, []);
    BreakMusicHolds(s1.st.(nextEvent := FindNextEvent([Morning], "08:10")));
  }

  /** A second tick in the same minute fires nothing: the end key is remembered
      and the music policy already holds. */
  lemma MorningRepeatTick(st: Runtime)
    requires st.lastTriggered == Some(Morning.id + "_end_" + Ymd) && st.musicPlaying
    requires st.lastEnded == Some(Morning)
    ensures Tick(MondayOnly, st, EightTen, AllHooks, NoProbes).actions == []
  {
    ScenarioClocks();
    MorningEvents();
    TickOnActiveDay(MondayOnly, st, EightTen, AllHooks, NoProbes);
    FireOne(st, MorningEnd, AllHooks, false);
    var s1 := FireAll(st, [MorningEnd], AllHooks, false);
    assert s1 == Step(st, []);
    var s2 := BirthdayStep(s1.st, [], EightTen, AllHooks);
    assert s2 == Step(st, []);
    BreakMusicHolds(st.(nextEvent := FindNextEvent([Morning], "08:10")));
  }

  const First := Activity("a", "Lesson", "custom", "08:00", "08:10", "", "ring-end", "", "", false, [], [])
  const Second := Activity("b", "Break", "custom", "08:10", "08:20", "ring-start", "", "", "", false, [], [])

  /** Back-to-back activities pass the overlap check: touching ends are not
      an overlap. */
  lemma BackToBackAccepted()
    ensures AddActivity([Day(0, "Monday", true, [First])], 0, Second).1
  {
    assert !Lt("08:10", "08:10");
    assert !Overlaps(Second, First);
  }

  const BackToBack := [Day(0, "Monday", true, [First, Second])]
  const FirstEnd := Event(First.id + "_end_" + Ymd, EndOf(First))
  const SecondStart := Event(Second.id + "_start_" + Ymd, StartOf(Second))

  lemma BackToBackEvents()
    ensures GetDay(BackToBack, 0) == Some(BackToBack[0]) && DayActive(BackToBack, EightTen, NoProbes)
    ensures DueEvents([First, Second], "08:10", Ymd) == [FirstEnd, SecondStart]
    ensures FirstEnd.key != SecondStart.key
  {
    assert "08:10"[3] != "08:00"[3];
    assert "08:10"[3] != "08:20"[3];
    assert InterimEvents([], "08:10", Ymd) == [];
    assert ActivityEvents(First, "08:10", Ymd) == [FirstEnd];
    assert ActivityEvents(Second, "08:10", Ymd) == [SecondStart];
    assert DueEvents([Second], "08:10", Ymd) == [SecondStart];
    assert [First, Second][1..] == [Second];
    assert FirstEnd.key[0] != SecondStart.key[0];
  }

  /** Yet at their shared minute both bells ring again on every tick, because
      the dedup remembers only the last key. */
  lemma BackToBackBellsRepeat(st: Runtime)
    requires st.lastTriggered == Some(Second.id + "_start_" + Ymd)
    ensures var t := Tick(BackToBack, st, EightTen, AllHooks, NoProbes);
            && RingBell("ring-end") in t.actions && RingBell("ring-start") in t.actions
            && t.st.lastTriggered == st.lastTriggered
  {
    ScenarioClocks();
    BackToBackEvents();
    TickOnActiveDay(BackToBack, st, EightTen, AllHooks, NoProbes);
    TwoEventsAlwaysRefire(st, FirstEnd, SecondStart, AllHooks, false);
  }
}
