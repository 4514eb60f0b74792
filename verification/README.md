# SmartZill in Dafny

SmartZill is a school and office bell system. A weekly programme lists
activities (lessons, breaks, meetings), each with a start and end time,
bells and announcements for both ends, announcements in between, and a
flag that says whether background music plays after it. A scheduler
thread evaluates the programme once a second. Audio goes to a three-channel
engine with a fixed priority: bell first, then announcement, then music.
Around that sit:

- a manual media player for files, internet radio and playlists;
- a birthday service that announces employees' birthdays through
  text-to-speech;
- a public-holiday gate that silences the programme on holidays the
  operator has not muted;
- the configuration file with its defaults;
- a JSON and Excel backup service.

This project models those parts as pure Dafny functions. Each stateful
object becomes an immutable record. Each method becomes a transition that
returns the new record together with its result, and for the scheduler
also the list of callbacks it fired (`Action`). The things the program
asks of the outside world become parameters:

- the wall clock: `Clock`, `Date`, and the time-stamp function `clock`;
- file existence: a set of paths `fs`;
- the media backend's "still playing" answer: the `running` flag, moved
  by an environment step;
- the holidays library: a function from (country, year) to an optional
  table;
- the speech service's success: a boolean `ok`;
- a shuffle: a permutation `perm`;
- the success of each radio reconnection attempt: a sequence `ok`.

Shared modules:

- `Wrappers`: `Option` and `Result`.
- `Text`: Python string ordering (`Lt`, `Le`), `split`/`join`, `strip`,
  `lower` over the Basic Latin, Latin-1 and Latin Extended-A letters and
  the basic Cyrillic capitals U+0400-U+042F, integer parsing and printing, and `str.format` with a single
  `{name}` field.
- `Times`: "HH:MM" strings, including the fact that their string order is
  minute order.
- `Calendar`: dates, ordinal day numbers and the "DD.MM.YYYY" format.
- `Json`: JSON values, with dictionaries as ordered key/value lists.
- `Sorting`: a stable sort, Python's `reverse=True` sort and filtering.

## Model

| member | source | states |
|---|---|---|
| `Config.MergeDefaults` | config.py:89-91 | A loaded dictionary ends up holding every default key and every key it had. A non-dictionary value goes through unchanged exactly when Python's `in` finds every default key in it; otherwise it raises. |
| `Config.MergeKeepsUserValues` | config.py:84-92 | After the merge, a key the user set keeps the user's value. A missing key takes the default. No other key appears. |
| `Config.MergeComplete` | config.py:89-91 | A file that already has every default key loads unchanged. |
| `Config.LoadConfig` | config.py:80-98 | A missing or unreadable file yields the defaults, and the defaults are written back. A readable dictionary whose merge succeeds yields exactly that merge, not written back. A parsed value whose merge raises yields the defaults, written back. The result always holds every default key. |
| `Config.LoadKeepsUserSettings` | config.py:84-92 | Loading a user's dictionary keeps every value the user set, fills each missing default key with its default, and adds no other key. |
| `Config.LoadSavedConfig` | config.py:80-106 | Saving what was loaded and loading it again gives the same configuration, and nothing is written. |
| `Config.LoadSchedule` | config.py:108-120 | A readable schedule file is used as it is. Otherwise the default week is used. |
| `Config.DefaultSchedule` | config.py:130-143 | The default week has seven days numbered 0 to 6 with their Turkish names. Monday to Friday are enabled, the weekend is not, and no day has activities. |
| `Config.DefaultScheduleDays` | config.py:135-141 | Looking up any weekday in the default week finds that day, and it is enabled exactly on working days. |
| `Schedule.FindDay` | core/scheduler.py:335-340 | Returns the first day entry with the requested weekday number, or nothing exactly when no entry has it. |
| `Schedule.GetDay` | core/scheduler.py:335-340 | `_get_day_schedule` finds a day exactly when some entry has that weekday, and returns that entry. |
| `Schedule.SortByStart` | core/scheduler.py:390 | Sorting a day's activities by start time gives a permutation of them in ascending start order. |
| `Schedule.UpdateDay` | core/scheduler.py:353-363 | `update_day` replaces the matching day in place and leaves every other day alone. It appends the day when the weekday is missing. |
| `Schedule.AddActivity` | core/scheduler.py:365-395 | An insertion is accepted exactly when the day exists and the new activity overlaps none of that day's activities. A rejected insertion changes nothing. An accepted one changes only that day: its activities gain exactly the new one and stay sorted by start time. |
| `Schedule.AddActivityKeepsNoOverlaps` | core/scheduler.py:375-395 | If no day had overlapping activities before an insertion, none has them after it. |
| `Schedule.WithoutId` | core/scheduler.py:403 | Removes exactly the activities with the given id and keeps the others in their order, repeats included, as the list comprehension does. Its length stays the same exactly when no activity had that id. |
| `Schedule.RemoveActivity` | core/scheduler.py:397-406 | Removal succeeds exactly when the day exists. On that day it drops exactly the activities with the given id and keeps the rest in order, and every other day and field stays as it was. |
| `Schedule.RemoveActivityKeepsInvariants` | core/scheduler.py:397-406 | A removal keeps every day free of overlapping activities, and a day sorted by start time stays sorted. |
| `Schedule.Entries` | core/scheduler.py:427-441 | Each activity contributes its start entry and then its end entry, in programme order. |
| `Schedule.DailyTimeline` | core/scheduler.py:419-443 | The timeline holds the start and end entry of every activity of the day, as a permutation of them, sorted by time. An unknown day gives an empty timeline. |
| `Scheduler.TriggerStart` | core/scheduler.py:160-184 | Starting an activity enters it: it is in the activity, with the activity as current, and background music stopped when a stop callback exists. The start bell rings exactly when the activity names one and a bell callback exists, and the start announcement plays exactly when it names one and an announcement callback exists. Music is stopped first, then the bell rings, then the announcement plays, each at most once, and nothing else is emitted. Music is never started. |
| `Scheduler.TriggerEnd` | core/scheduler.py:186-216 | Ending an activity leaves it: idle, with the activity remembered as the last one ended. Music starts exactly when the activity asks for music, music is off, the manual player is idle and a start callback exists. An activity without the music flag leaves the music as it was. The end bell and the end announcement are emitted exactly when named and their callbacks exist. The bell comes before the announcement, and both come before the music starts. Music is never stopped here. |
| `Scheduler.InterimEvents` | core/scheduler.py:130-136 | An event comes from an interim list exactly when it is an enabled interim announcement of that list set for `now`, keyed `<id>_interim_<YYYYMMDD>`. |
| `Scheduler.ActivityEvents` | core/scheduler.py:113-136 | An activity contributes exactly its start when it starts at `now`, its end when it ends at `now`, and its enabled interim announcements set for `now`, each under its dedup key. |
| `Scheduler.DueEvents` | core/scheduler.py:110-136 | The events a tick visits are exactly those due at `now` among the day's activities, each with the key `<id>_start_<YYYYMMDD>`, `<id>_end_<YYYYMMDD>` or `<id>_interim_<YYYYMMDD>`. |
| `Scheduler.DueCons` | core/scheduler.py:110-136 | An event is due among a list of activities exactly when it is due for the first activity or among the rest. |
| `Scheduler.StartAndEndAreDue` | core/scheduler.py:113-127 | An activity's start event is visited exactly when the activity is listed and starts at `now`. Its end event is visited exactly when it is listed and ends at `now`. |
| `Scheduler.InterimIsDue` | core/scheduler.py:130-136 | An interim announcement's event is visited exactly when it is enabled, set for `now` and listed under one of the day's activities. |
| `Scheduler.Fire` | core/scheduler.py:160-223 | Running any trigger leaves the de-duplication key alone. |
| `Scheduler.FireAllRemembersLast` | core/scheduler.py:116-136 | After a tick's events are processed, the remembered key is that of the last event due. No event due means nothing happens. |
| `Scheduler.SameKeyFiresNothing` | core/scheduler.py:117-136 | Events whose key equals the remembered one fire nothing and change nothing. |
| `Scheduler.SingleEventFiresOnce` | core/scheduler.py:116-120 | A lone event fires once when its key is new. The following ticks in the same minute fire nothing. |
| `Scheduler.TwoEventsAlwaysRefire` | core/scheduler.py:116-136 | With two distinct events due in one minute, the single remembered key lets both fire again on every tick of that minute. |
| `Scheduler.BirthdayKeyInjective` | core/scheduler.py:144 | Different names give different birthday keys within one minute. |
| `Scheduler.BirthdayKeys` | core/scheduler.py:143-146 | The keys recorded for a list of names include the key of every name on the list. |
| `Scheduler.AnnounceNames` | core/scheduler.py:143-148 | Every name not yet announced this minute is announced once, if an announcement callback exists. A name already announced is not announced again. All of the names' keys are recorded. |
| `Scheduler.BirthdayStep` | core/scheduler.py:138-152 | The birthday step touches only the announced set. At 00:00 it clears the set. At any other minute it records every name checked. With no names it does nothing. |
| `Scheduler.BirthdaysAnnouncedOncePerMinute` | core/scheduler.py:138-152 | Repeating the birthday step in the same minute (other than 00:00) announces nothing. |
| `Scheduler.ScanNext` | core/scheduler.py:316-326 | The scan of the timeline returns a position inside it, if it returns one at all. |
| `Scheduler.ScanNextCorrect` | core/scheduler.py:316-326 | The scan finds the first entry with the earliest time after `now`. It finds nothing exactly when no entry is later than `now`. |
| `Scheduler.FindNextEventSpec` | core/scheduler.py:310-328 | `_find_next_event` gives the earliest start or end strictly after `now`, the earliest-listed one on ties, and none only when nothing is left today. |
| `Scheduler.FirstEndedBy` | core/scheduler.py:269-273 | In a list sorted by descending end time, returns the first activity that has ended by `now`. It returns nothing exactly when none has ended. |
| `Scheduler.LatestEndedSpec` | core/scheduler.py:268-273 | The recomputed last-ended activity has ended and has the greatest end time of those that have. There is none exactly when nothing has ended. |
| `Scheduler.ManageMusicPolicy` | core/scheduler.py:245-284 | The music policy leaves everything alone while the manual player is active. Otherwise music is on exactly when `now` is outside every activity window and the remembered (or recomputed) last-ended activity asks for music. A callback fires exactly when the flag changes. |
| `Scheduler.ManageMusicIdempotent` | core/scheduler.py:245-284 | Applying the music policy twice in the same minute does nothing the second time. |
| `Scheduler.Tick` | core/scheduler.py:88-158 | On a missing, disabled or holiday day, a tick clears the next event, stops the music and does nothing else. On an active day the next event shown is the one `_find_next_event` gives. The tick's actions begin with those of the due events in visiting order, and the remembered key is that of the last due event, or unchanged when none is due. |
| `Scheduler.TickMusicInvariant` | core/scheduler.py:154-158 | After any tick on an active day with the manual player idle, the music flag agrees with the music policy. |
| `Scheduler.FirstWithin` | core/scheduler.py:472-480 | Returns the first activity whose window contains `now`. It returns nothing exactly when no window does. |
| `Scheduler.CheckInitialState` | core/scheduler.py:445-505 | Startup changes nothing on an inactive day or while the manual player is active. Inside an activity it enters that activity without music. Otherwise it remembers the latest ended activity. The only callback it can fire is starting music. |
| `Scheduler.StartupAgreesWithPolicy` | core/scheduler.py:445-505 | After startup on a fresh state, a tick's music policy has nothing to change. The tick thread is started before the startup check, so a tick that comes first or races it is not covered. |
| `Scheduler.EditorAnnouncementsNeverFire` | core/scheduler.py:131 | Activities saved by the editor carry no `interimAnnouncements` list, so no interim announcement fires for them. |
| `Scheduler.MorningStartTick` | core/scheduler.py:110-120 | At 08:00 on a Monday with one 08:00-08:10 lesson, the tick rings its start bell once and enters the lesson without music. |
| `Scheduler.MorningEndTick` | core/scheduler.py:122-127 | At 08:10 the lesson ends: no end bell is configured, and background music starts. |
| `Scheduler.MorningRepeatTick` | core/scheduler.py:116-158 | A second tick within 08:10 fires nothing. |
| `Scheduler.BackToBackAccepted` | core/scheduler.py:380 | A lesson that starts exactly when the previous one ends is not an overlap. |
| `Scheduler.BackToBackBellsRepeat` | core/scheduler.py:116-136 | In that back-to-back minute the end bell and the start bell both ring again on a repeated tick, because the single remembered key alternates. |
| `Audio.Clamp` | core/audio_engine.py:111 | A volume is forced into 0..100: values inside are kept, values below become 0 and values above become 100. |
| `Audio.NewChannel` | core/audio_engine.py:49-55 | A new channel is idle, consistent, and has the clamped volume. |
| `Audio.Stop` | core/audio_engine.py:85-95 | Stopping releases the player and forgets the source. It keeps the volume and the channel invariant. |
| `Audio.Play` | core/audio_engine.py:57-83 | Playing succeeds exactly when there is a source and it is a stream or an existing file. Success leaves the channel playing that source, unpaused. Failure leaves it stopped. |
| `Audio.Pause` | core/audio_engine.py:97-101 | Pausing a playing channel leaves it paused and silent. On any other channel it changes nothing. |
| `Audio.Resume` | core/audio_engine.py:103-107 | Resuming a paused channel makes it play again. On any other channel it changes nothing. |
| `Audio.SetChannelVolume` | core/audio_engine.py:109-113 | Changes only the volume, to the clamped value. |
| `Audio.MediaEnded` | core/audio_engine.py:115-120 | The backend finishing a file leaves the channel not playing and keeps its source. |
| `Audio.PauseResume` | core/audio_engine.py:97-107 | Pausing and then resuming a playing channel restores it exactly. |
| `Audio.ResolvePath` | core/audio_engine.py:166-186 | An absolute name is used as given. A name found in the default directory is used from there. Any other path returned is an existing file in one of the four sound directories. Resolution fails only for a missing `default.mp3`. |
| `Audio.ResolveFindsExisting` | core/audio_engine.py:172-186 | For any other name, an existing copy in one of the four directories is found. When none exists, the bare name comes back. |
| `Audio.ConfiguredVolume` | core/audio_engine.py:145-160 | A configuration without a `volumes` table gives the default volume. A configuration that is not a dictionary raises. |
| `Audio.NewEngine` | core/audio_engine.py:145-160 | A new engine is consistent, respects the priority invariant and remembers no ducked music. Its three channels are idle at the configured volumes, clamped to 0..100: bell 100, announcement 80 and music 60 when unset. Construction fails exactly when a channel volume cannot be read. |
| `Audio.DuckMusic` | core/audio_engine.py:194-197 | After ducking, music is silent. Music that was playing is paused and remembered. The other channels are untouched. |
| `Audio.Unduck` | core/audio_engine.py:214-218 | Music paused by ducking is resumed and forgotten. Nothing else changes. |
| `Audio.StartBell` | core/audio_engine.py:193-207 | Starting a bell silences the announcement and the music. The bell plays exactly when its path resolves to an existing file. Playing music is remembered for resumption. |
| `Audio.PlayBell` | core/audio_engine.py:188-223 | A bell succeeds exactly when its file is found. It always leaves the priority invariant intact and the announcement silent. After a blocking call the bell is silent, whether it played or failed. A blocking bell that played restores the music it interrupted. |
| `Audio.PlayAnnouncement` | core/audio_engine.py:225-253 | An announcement waits for the bell, so the bell is never playing afterwards. It succeeds exactly when its file is found. A non-blocking announcement plays exactly on success, with music silent. After a blocking call the announcement is silent. A blocking one that plays gives back music that was playing unchanged and clears the resume flag. Otherwise the resume flag records whether music was interrupted. The priority invariant holds afterwards. |
| `Audio.PlayMusic` | core/audio_engine.py:255-268 | Music refuses to start while a bell or an announcement plays, and then changes nothing. Otherwise it touches only the music channel and keeps the priority invariant. |
| `Audio.StopMusic` | core/audio_engine.py:270-274 | The music channel is stopped, not paused: its player is released, the pause flag is cleared and the source is forgotten, with the volume kept. No ducked music is remembered, and the other channels are untouched. |
| `Audio.StopAll` | core/audio_engine.py:276-281 | All three channels are stopped, not paused: players released, pause flags cleared and sources forgotten, with the volumes kept. No ducked music is remembered. |
| `Audio.SetVolume` | core/audio_engine.py:283-291 | A known channel gets the clamped volume, and the configuration stores the requested value. An unknown channel changes nothing. Saving fails exactly when the configuration has no `volumes` table. |
| `Audio.GetVolume` | core/audio_engine.py:293-297 | An unknown channel reads 0. A known channel reads a volume in 0..100. |
| `Audio.SetThenGetVolume` | core/audio_engine.py:283-297 | Reading a volume back after setting it gives the clamped value. |
| `Audio.PlaySequence` | core/audio_engine.py:313-322 | Only the bell and announcement channels are accepted, and an empty list always succeeds. Anything refused leaves the engine unchanged. After a non-empty accepted list, neither the bell nor the announcement is still playing, because each file is played to its end. The priority invariant holds afterwards. |
| `Audio.ChannelEnded` | core/audio_engine.py:115-120 | A channel finishing on its own keeps the channel and priority invariants. |
| `Audio.MissingBellLeavesMusicPaused` | core/audio_engine.py:193-223 | A bell whose file is missing still pauses playing music. That music stays paused, with the resume flag set. |
| `Audio.BellDucksAndRestoresMusic` | core/audio_engine.py:193-218 | A blocking bell that plays leaves the music exactly as it found it. |
| `Audio.AnnouncementDucksAndRestoresMusic` | core/audio_engine.py:225-253 | A blocking announcement that plays leaves the music exactly as it found it, and the announcement channel has finished. |
| `Audio.BellSequenceRestoresMusic` | core/audio_engine.py:313-322 | A bell sequence whose files are all found plays each bell to its end, ending with the bell channel silent and holding the last file. The music is left exactly as it was found. |
| `Audio.AnnouncementSequenceRestoresMusic` | core/audio_engine.py:313-322 | An announcement sequence whose files are all found plays each announcement to its end, ending with the announcement channel silent and holding the last file. The music is left exactly as it was found. |
| `MediaPlayer.NewPlayer` | core/media_player.py:26-58 | A new player is idle, with an empty playlist, no shuffle and no repeat, and the configured volume. |
| `MediaPlayer.Stop` | core/media_player.py:198-213 | Stop silences the player, forgets the source and kind, cancels any reconnection and clears the external pause. It keeps the playlist, position, volume and radio address. |
| `MediaPlayer.PlaySource` | core/media_player.py:86-140 | Playing succeeds exactly when the backend is available and the source is a stream or an existing file. The music directory is searched for relative names. A successful source plays with its kind recorded. A failed one leaves the player stopped. Reconnection is always cancelled. |
| `MediaPlayer.PlayFile` | core/media_player.py:60-63 | A file plays exactly when it exists and the backend works. It is then recorded as a file source. |
| `MediaPlayer.PlayRadio` | core/media_player.py:65-69 | The radio address is remembered even when playing it fails. Radio plays exactly when the backend works. |
| `MediaPlayer.PlayPlaylist` | core/media_player.py:71-84 | An empty list is refused with nothing changed. Otherwise the playlist is the given tracks (a permutation of them when shuffled), positioned at the first. Success plays that first track. |
| `MediaPlayer.PlayNext` | core/media_player.py:150-166 | The next track plays when there is one. Past the last track, without repeat, the playlist ends. With repeat it wraps to position 0 of the list, reshuffled when shuffling, and plays that track. A missing next track stops the playlist. |
| `MediaPlayer.NextTrack` | core/media_player.py:246-249 | Skipping does nothing outside a playlist and keeps the player consistent. |
| `MediaPlayer.PreviousTrack` | core/media_player.py:251-255 | Going back moves one track back, but not before the first, and plays that track when it exists. Outside a playlist it does nothing. |
| `MediaPlayer.Pause` | core/media_player.py:215-219 | Pausing a playing player leaves it paused and silent. Otherwise nothing changes. |
| `MediaPlayer.Resume` | core/media_player.py:221-225 | Resuming a paused player plays again. Otherwise nothing changes. |
| `MediaPlayer.Toggle` | core/media_player.py:227-232 | A paused player resumes and a playing one pauses. An idle one is left alone. |
| `MediaPlayer.ToggleTwice` | core/media_player.py:227-232 | Toggling twice restores a playing or paused player. |
| `MediaPlayer.ExternalPause` | core/media_player.py:234-238 | The scheduler's pause pauses a playing player and marks it as paused from outside. Otherwise nothing changes. |
| `MediaPlayer.ExternalResume` | core/media_player.py:240-244 | The scheduler's resume resumes only what it paused itself, and clears the mark. |
| `MediaPlayer.ExternalPauseResume` | core/media_player.py:234-244 | An external pause followed by an external resume restores the player. So does the same pair with a manual resume in between. |
| `MediaPlayer.SetVolume` | core/media_player.py:257-266 | The player gets the clamped volume and the configuration stores it under `manual`. Saving fails exactly when there is no `volumes` table. |
| `MediaPlayer.ReconnectAsWritten` | core/media_player.py:168-196 | As written, the reconnection loop makes one attempt and stops, whatever the outcome. |
| `MediaPlayer.Reconnect` | core/media_player.py:168-196 | The intended reconnection plays again exactly when one of the ten attempts succeeds. It stops at the first success and makes all ten attempts otherwise. |
| `MediaPlayer.ReconnectLoop` | core/media_player.py:177-196 | From any attempt number, the loop succeeds exactly when a later attempt succeeds, and at the first such attempt. |
| `MediaPlayer.ReconnectGivesUpEarly` | core/media_player.py:183-194 | When the first attempt fails and the second would succeed, the loop as written gives up silent while the intended one reconnects on attempt two. |
| `MediaPlayer.OnTrackEnd` | core/media_player.py:142-148 | At the end of a file, or of a radio stream with no address, the player simply stops. A dropped stream with an address reconnects through the loop as written, so it plays again exactly when the first attempt succeeds. The playlist is kept or reshuffled, never changed otherwise. |
| `MediaPlayer.OnTrackEndCorrected` | core/media_player.py:142-196 | With the intended reconnection loop, a dropped stream with an address plays again exactly when one of the ten attempts succeeds. Every other kind ends its track exactly as `MediaPlayer.OnTrackEnd` does. |
| `MediaPlayer.DroppedStreamStaysSilent` | core/media_player.py:142-196 | A dropped stream whose first reconnection fails and whose second would succeed stays silent as written and plays again as intended. |
| `MediaPlayer.MissingTrackHaltsPlaylist` | core/media_player.py:142-166 | A playlist whose next track is missing halts there, and later end-of-track events do nothing. |
| `MediaPlayer.PlaylistAdvances` | core/media_player.py:142-166 | With all tracks present, each end of track advances exactly one position and plays that track. |
| `Birthdays.NormalizeDate` | services/birthdays.py:47-57 | Dates without a dash are stored as given. A ten-character dashed date that does not split into three parts is rejected. Normalised dashed dates hold no dash, and a five-character "MM-DD" becomes an eight-character date on the first of a month. |
| `Birthdays.IsoDateNormalised` | services/birthdays.py:48-50 | "YYYY-MM-DD" is stored as "DD.MM.YYYY". |
| `Birthdays.ShortDateNormalised` | services/birthdays.py:51-53 | "MM-DD" is stored as "01.MM.DD", reusing the day as the year. |
| `Birthdays.FirstMatch` | services/birthdays.py:64-73 | Finds the first person whose name matches ignoring case, or reports that there is none. |
| `Birthdays.AddPerson` | services/birthdays.py:44-77 | Adding succeeds exactly when the date normalises. A failure changes nothing. The person ends up listed with the normalised date: the first case-insensitive match gets the normalised date in place and keeps its own spelling of the name, or the person is appended when new. Everyone else stays as they were. |
| `Birthdays.AddPersonIdempotent` | services/birthdays.py:44-77 | Adding the same person twice is the same as adding once. |
| `Birthdays.WithoutName` | services/birthdays.py:82-85 | Drops exactly the people whose name matches ignoring case and keeps everyone else in stored order, repeats included. |
| `Birthdays.RemovePerson` | services/birthdays.py:79-90 | Removal reports whether anyone matched. Nobody with the name remains, and everyone else stays in stored order. |
| `Birthdays.AddThenRemove` | services/birthdays.py:44-90 | Removing a person just added succeeds and leaves nobody of that name. |
| `Birthdays.TurkishCapitalsMatch` | services/birthdays.py:66 | Turkish capitals with cedilla and breve match their small letters: "ŞÜKRÜ" is "şükrü" and "ÇAĞLA" is "çağla". |
| `Birthdays.DotlessIDiffers` | services/birthdays.py:66 | The name match has no Turkish rule for I: "IŞIK" does not match "ışık". |
| `Birthdays.DottedIDiffers` | services/birthdays.py:83 | A dotted capital İ lowers to two characters, so "İPEK" does not match "ipek". |
| `Birthdays.CyrillicCapitalsMatch` | services/birthdays.py:83 | Names in basic Cyrillic capitals match across case: "ДМИТРИЙ" is "Дмитрий". |
| `Birthdays.TodaysBirthdays` | services/birthdays.py:92-108 | Today's list is the stored list filtered to the people whose stored date has today's day and month, in stored order and with repeats kept. |
| `Birthdays.StoredDateMatches` | services/birthdays.py:97-103 | A stored "DD.MM…" date matches today exactly when its day and month are today's, zero-padded. |
| `Birthdays.IsoEntryAnnouncedOnItsDay` | services/birthdays.py:47-108 | A person added with "YYYY-MM-DD" is found on that day and month. |
| `Birthdays.ShortEntryAnnouncedOnFirst` | services/birthdays.py:47-108 | A person added with "MM-DD" is found only on the first of month MM. |
| `Birthdays.Names` | services/birthdays.py:247 | The names of a list of people, position by position. |
| `Birthdays.ShouldAnnounceNow` | services/birthdays.py:237-248 | Names come back only when the service is enabled and now is an announcement time. They are exactly today's birthday names, one per birthday entry in stored order. |
| `Birthdays.ImportLine` | services/birthdays.py:147-155 | Blank lines, comments and lines with fewer than two fields are skipped. Any other line adds its name and date. |
| `Birthdays.ImportLines` | services/birthdays.py:141-157 | Importing keeps everyone already listed and lists every name from an accepted line. The count is exactly the number of accepted lines: records whose date normalises. A file without records changes nothing. |
| `Birthdays.ImportCsv` | services/birthdays.py:141-157 | The CSV import lists everyone already present and everyone on an accepted line, and counts exactly the accepted lines. |
| `Birthdays.AcceptedCount` | services/birthdays.py:149-155 | Counts the lines that are records whose date normalises, at most one per line. |
| `Birthdays.ImportOneRecord` | services/birthdays.py:141-157 | A one-line CSV is exactly one `add_person` call, counted when it succeeds. |
| `Birthdays.NextOccurrence` | services/birthdays.py:120-127 | The next birthday is a valid date in the requested month and day, on or after today: this year's when it has not passed, otherwise next year's. |
| `Birthdays.Candidate` | services/birthdays.py:115-135 | A listed upcoming entry keeps the person's name and stored date. Its day count is the distance from today to the next occurrence, never negative. |
| `Birthdays.UpcomingWith` | services/birthdays.py:110-139 | The upcoming list holds exactly the candidates at most `days` away, ordered by days remaining. |
| `Birthdays.UpcomingBirthdaysAsWritten` | services/birthdays.py:110-139 | As written, only dates containing a dash can appear in the upcoming list. |
| `Birthdays.UpcomingBirthdays` | services/birthdays.py:110-139 | Read with the stored DD.MM.YYYY layout, the list holds exactly the birthdays within `days`, nearest first. |
| `Birthdays.UpcomingMissesStoredDates` | services/birthdays.py:117 | When every stored date is normalised, the upcoming list as written is always empty. |
| `Birthdays.UpcomingExample` | services/birthdays.py:117 | "15.03.1990" on 10 March is missed as written and found five days ahead when read as stored. |
| `Holidays.GetHolidays` | services/holidays.py:40-53 | The cached table is reused for the cached year. For any other year the library's table is fetched and cached with its year. A library failure caches an empty table and leaves the year alone. |
| `Holidays.CachedYearIsReused` | services/holidays.py:45 | After a successful fetch, asking for the same year again does not consult the library. |
| `Holidays.FailedRefetchSticks` | services/holidays.py:45-53 | Once a re-fetch for the cached year fails, that year reads as having no holidays until the country changes. |
| `Holidays.MutedDates` | services/holidays.py:73-76 | No `holidays` section means nothing is muted. A list of plain values gives its items. |
| `Holidays.RemoveFirst` | services/holidays.py:91 | `list.remove` takes away one occurrence. |
| `Holidays.SetMuted` | services/holidays.py:86-91 | Muting adds the date once unless present. Unmuting removes one occurrence if present. No other value is affected. |
| `Holidays.MuteIdempotent` | services/holidays.py:88-89 | Muting twice is muting once. |
| `Holidays.UnmuteIdempotent` | services/holidays.py:90-91 | Unmuting a date listed at most once removes it, and a second unmute changes nothing. |
| `Holidays.WithMuted` | services/holidays.py:82-93 | Writing the muted list back replaces only the `holidays` section. |
| `Holidays.SetHolidayMuted` | services/holidays.py:78-93 | Only the `holidays` section changes. It is then a dictionary, and a muted date is in its list. |
| `Holidays.SetHolidayMutedOnList` | services/holidays.py:78-93 | On a stored list, the muted set read back is the list with the date muted or unmuted. |
| `Holidays.MutedAfterMute` | services/holidays.py:78-93 | A muted date reads back as muted. |
| `Holidays.UnmutedAfterUnmute` | services/holidays.py:78-93 | An unmuted date reads back as not muted. |
| `Holidays.IsHolidayToday` | services/holidays.py:55-71 | The gate is closed when the service is off or skipping is off. Otherwise today counts as a holiday exactly when it is in the year's table and not muted. A malformed muted list raises. |
| `Holidays.MutingTodayResumesWork` | services/holidays.py:55-93 | Muting today's date makes today a working day. |
| `Holidays.UnmutingTodayRestoresHoliday` | services/holidays.py:55-93 | Unmuting today's date on a holiday makes today a holiday again. |
| `Holidays.SetCountry` | services/holidays.py:152-162 | Changing the country empties the cache table and stores the new country in the configuration. Nothing else changes. A non-dictionary `holidays` section raises. |
| `Holidays.CountryChangeRefetches` | services/holidays.py:152-155 | After a country change, the next lookup asks the library for the new country, whatever year was cached. |
| `Holidays.GetHolidayName` | services/holidays.py:95-101 | A name comes back exactly for a date in the year's table, and it is that date's name. |
| `Holidays.NameOn` | services/holidays.py:101 | A table lookup finds exactly the dates in the table, with their names. |
| `Holidays.SortByDate` | services/holidays.py:117 | Sorting a table puts it in date order as a permutation of its entries. |
| `Holidays.GetAllHolidays` | services/holidays.py:103-125 | The year's holidays are listed in date order with their names and a muted flag read from the configuration. A library failure gives an empty list. |
| `Holidays.Assign` | services/holidays.py:135 | Setting a date's name adds that entry and keeps the other dates. |
| `Holidays.Update` | services/holidays.py:135 | Merging tables gives exactly the dates of both. |
| `Holidays.FromToday` | services/holidays.py:141 | Keeps exactly the entries from today on, in their order. |
| `Holidays.PickLoopTakesPrefix` | services/holidays.py:139-148 | The selection loop takes the first entries from today on, stopping at the count but always taking at least one. |
| `Holidays.SelectUpcoming` | services/holidays.py:139-148 | The selection is at most the count (at least one), in date order, from today on. It takes the earliest such dates, and all of them when fewer exist. |
| `Holidays.Extend` | services/holidays.py:133-137 | Extending the table with next year gives exactly the dates of both years. |
| `Holidays.Render` | services/holidays.py:142-146 | Each selected holiday is shown with its formatted date, its name and its distance from today. |
| `Holidays.RenderedDays` | services/holidays.py:145 | Shown distances are never negative and never decrease down the list. |
| `Holidays.SelectionValid` | services/holidays.py:139-148 | Selecting from a table of real dates yields real dates. |
| `Holidays.GetUpcomingHolidays` | services/holidays.py:127-150 | The cache holds this year's and next year's dates afterwards. The result is the rendered selection, with distances never negative and in ascending order. |
| `Tts.VoicesFor` | core/tts_engine.py:52 | A language has voices exactly when it is in the table. |
| `Tts.GetVoice` | core/tts_engine.py:50-53 | The voice is always a table voice: the chosen language's voice of the chosen gender, falling back to Turkish for an unknown language and to the male voice for an unknown gender. |
| `Tts.SetLanguage` | core/tts_engine.py:55-58 | Only table languages are accepted. Nothing else changes. |
| `Tts.SetGender` | core/tts_engine.py:60-63 | Only "male" and "female" are accepted. Nothing else changes. |
| `Tts.SettersKeepSettled` | core/tts_engine.py:55-63 | The setters never leave the accepted languages and genders. |
| `Tts.InitialSettled` | core/tts_engine.py:43-46 | A new engine speaks Turkish with the female voice. |
| `Tts.SettledVoiceIsChosen` | core/tts_engine.py:50-53 | With accepted settings no fallback applies. |
| `Tts.Generate` | core/tts_engine.py:99-131 | Blank text is never sent for synthesis. Other text is sent with the current voice and rate to the named or generated file in the TTS directory. That path comes back exactly when synthesis succeeds. The same function stands for `generate_async` (core/tts_engine.py:83-97), which has the same blank-text guard, file name and result. |
| `Tts.BlankTextIsNeverSynthesised` | core/tts_engine.py:103-104 | Any text that is all whitespace, as `strip` sees it, produces no request and no file. |
| `Tts.BirthdayFile` | core/tts_engine.py:153 | The birthday file is `birthday_<name>.mp3` with the name's spaces replaced by underscores. |
| `Tts.GenerateBirthday` | core/tts_engine.py:145-153 | The birthday announcement is the template filled with the name, synthesised into the birthday file. A malformed template raises. |
| `Tts.FormatOneField` | core/tts_engine.py:150 | A template with a single `{name}` field reads with the name in its place. |
| `Tts.DefaultBirthdayText` | core/tts_engine.py:148-153 | Without a template the default Turkish sentence is spoken with the name in place, into the birthday file. |
| `Backup.SanitizedConfig` | services/backup.py:28-35 | The copy put in a backup has the same keys and values, except that an admin password reads as empty. A `security` section that is not a dictionary raises only when Python's `in` raises on it or finds `admin_password` in it. A list or string without that name is copied unchanged. |
| `Backup.SanitizeIdempotent` | services/backup.py:28-35 | Sanitising twice is sanitising once. |
| `Backup.BackupData` | services/backup.py:37-54 | The backup record has exactly version, creation time, configuration, schedule and special days, with the sanitised configuration. |
| `Backup.BackupHoldsNoPassword` | services/backup.py:37-54 | No backup contains an admin password. |
| `Backup.KeepPassword` | services/backup.py:137-151 | A restored configuration keeps the current admin password. Every other key comes from the backup. Without a current password the backup's configuration is used as it is. |
| `Backup.RestoreFromJson` | services/backup.py:127-165 | A JSON restore fails on an unreadable or non-dictionary file. Otherwise it restores whichever of configuration, schedule and special days the file holds, with the current password kept. |
| `Backup.RestoreKeepsCurrentPassword` | services/backup.py:140-149 | A restore never changes the admin password. |
| `Backup.KeepPasswordWrites` | services/backup.py:137-151 | When the current configuration has a password and the restored one has a security section, the restored section gets the current password. All other keys stay as in the backup. |
| `Backup.KeepPasswordUndoesSanitize` | services/backup.py:28-35 | Putting the current password back into its own sanitised copy gives the configuration back. |
| `Backup.RestoreOwnBackup` | services/backup.py:37-165 | Restoring a backup just taken gives back the configuration, schedule and special days it was taken from. |
| `Backup.PlaceRow` | services/backup.py:184-198 | Placing an Excel row keeps the week's days and their order. |
| `Backup.PlaceRowDay` | services/backup.py:186-198 | A row goes to the first day with its weekday number and sets that day's enabled flag. Other days are untouched. |
| `Backup.PlaceRowsEntries` | services/backup.py:184-198 | After all rows, each day holds exactly the activities of the rows aimed at it, in row order. |
| `Backup.PlaceRowsEnabled` | services/backup.py:184-198 | Each day's enabled flag is that of the last row aimed at it, or its old flag when no row is. |
| `Backup.ClearActivities` | services/backup.py:180-181 | Clearing empties every day's activities and keeps the rest of each day. |
| `Backup.LoadSpecialDays` | services/backup.py:253-261 | A readable file is used as it is. Otherwise the special days start with an empty people list. |
| `Backup.CellInt` | services/backup.py:185 | `int` of a cell: the default for a missing column, an error for an empty cell, the number for a number cell. |
| `Backup.CellStr` | services/backup.py:191-195 | `str` of a cell: the default for a missing column, "nan" for an empty cell, the text for a text cell. |
| `Backup.CellBool` | services/backup.py:188-196 | `bool` of a cell: the default for a missing column, true for an empty cell, the flag for a boolean cell. |
| `Backup.ConvertRow` | services/backup.py:184-197 | A row converts exactly when its day number does, with the day number, the active flag, the name, the start and end times, both sounds and the music flag each read from its own column through the cell conversions. |
| `Backup.RestoreFromExcel` | services/backup.py:167-213 | An unreadable workbook restores nothing, and so does a programme row whose day number raises. Otherwise a programme sheet replaces every day's activities with its converted rows, and a people sheet replaces only the people list of the special days. The people sheet is written whenever the special days load as a dictionary. |
| `Backup.BlankDayNumberRestoresNothing` | services/backup.py:183-199 | One empty "Gün No" cell anywhere in the programme sheet makes the restore answer false with nothing saved. |
| `Backup.BlankCellsReadAsNan` | services/backup.py:188-196 | Empty flag cells read as true and empty sound cells as the text "nan". |
| `Backup.ShadowedDayEmptied` | services/backup.py:186-198 | A day entry shadowed by an earlier one with the same weekday ends up empty after an Excel restore. |
| `Backup.LastDot` | services/backup.py:220 | Finds the last dot in a file name, if any. |
| `Backup.Suffix` | services/backup.py:220 | The suffix is empty or a dot-led ending of the name with no further dot and not the whole name. |
| `Backup.SuffixIsEnding` | services/backup.py:220 | A name has a given extension exactly when it ends with it after at least one other character. |
| `Backup.ListedBackups` | services/backup.py:219-229 | The list holds at most 10 backup files of the directory, newest name first. These are the greatest names, and all of them when there are fewer than 10. |
| `Backup.GetBackupList` | services/backup.py:215-229 | Each listed backup is reported with its name, size, time and whether it is JSON. |
| `Backup.CleanupOldBackups` | services/backup.py:239-251 | Cleanup keeps the 10 newest backup files (or all of them, when fewer) and deletes the rest. It deletes only backup files, and none newer than one kept. |
| `Backup.CleanupSparesOtherFiles` | services/backup.py:239-251 | Files that are not backups are never deleted. |

## Left out

- web/server.py and web/static/app.js, the HTTP API and the browser editor, are not part of this model. They only call the operations above. One consequence is modelled: activities the editor saves carry no `interimAnnouncements` list.
- smartzill.py, the process entry point that wires the callbacks together, is not part of this model. The callbacks are `Hooks` flags, and the scheduler's effects are `Action` values.
- The tests under tests/ are not part of this model.
- Threads, locks and `time.sleep` are not modelled, including the two-second pause between bell and announcement and the scheduler's one-second loop. Each operation is one atomic step. A blocking wait is the environment step `MediaEnded` followed by the resume.
- The VLC backend is reduced to a "still playing" flag and file existence. Playback positions, durations and seeking use floating point and are left out (`get_position`, `get_duration`, `seek`).
- `get_status` of every service and `get_music_files` are read-only reports and are left out.
- The YouTube address lookup through yt_dlp is an external call and is left out. A video link plays under whatever address the lookup would give.
- The edge_tts synthesis call is a yes/no parameter. `set_rate`, `cleanup_old_files` and `get_available_voices` in core/tts_engine.py are left out.
- JSON, Excel and CSV file reading is reduced to a parsed value or a failure (`FileRead`). `save_config`, `save_schedule` and `ensure_directories` are writes with no logic and are left out.
- Every file write is assumed to succeed. In the source, a failing write turns the answer into `False` after earlier changes have been made. `add_person` has already updated the list in memory when `_save_data` raises (services/birthdays.py:67-77). `restore_from_json` has already written the earlier sections when a later save raises (services/backup.py:151-165). The model has no such failure.
- `create_backup_excel`, `delete_backup`, `_list_sound_files` and `export_to_bytes` in services/backup.py produce files or bytes, and are left out. The backup's `version` field is written but never checked on restore.
- `import_from_excel`, `set_enabled`, `set_announcement_times`, `set_template` and `get_all_people` in services/birthdays.py are left out: the Excel reading is I/O and the rest are plain field updates. `get_announcement_text` is the template formatting modelled by `Tts.GenerateBirthday`.
- `set_enabled` and `set_skip_on_holidays` in services/holidays.py are plain field updates, and `SUPPORTED_COUNTRIES` is a display list; both are left out. The holidays library is an abstract table per country and year.
- Shuffling is a permutation passed in. Only its being a permutation is used.
- `Scheduler.BirthdayStep`: does not model whether the speech service produced the file. The announcement action stands for `_trigger_birthday` when an announcement callback exists.
- `Scheduler.Fire`: states only that triggers keep the de-duplication key. What each trigger does is stated by `Scheduler.TriggerStart` and `Scheduler.TriggerEnd`.
- `Scheduler.Tick`: on an active day its contract states the next event, the dedup key and that the actions begin with those of the due events. It does not state which of those events fire: that depends on the remembered key and is stated per event by `Scheduler.SameKeyFiresNothing`, `Scheduler.SingleEventFiresOnce` and `Scheduler.TwoEventsAlwaysRefire`. The birthday and music actions that follow are stated by `Scheduler.BirthdayStep` and `Scheduler.TickMusicInvariant`.
- `MediaPlayer.NewPlayer`: takes the configured manual volume as a parameter instead of reading the configuration.
- `MediaPlayer.NextTrack`: inside a playlist it is `PlayNext` and is stated there.
- `MediaPlayer.OnTrackEnd`: its contract states the file and radio cases. The playlist case is stated by `MediaPlayer.MissingTrackHaltsPlaylist` and `MediaPlayer.PlaylistAdvances`.
- The player's `repeat` flag is never set by the program, so a playlist always ends after its last track. The model keeps the flag and proves every operation leaves it alone.
- `Scheduler.LatestEndedSpec`: does not state which of several activities with the same latest end time is chosen. The stable descending sort keeps the first of them in list order.
- `Audio.ConfiguredVolume`: states the missing-table and non-dictionary cases only. Python's handling of non-integer volume values is reduced to a failure.
- `Audio.PlayMusic`: does not state when playing succeeds beyond the priority refusal. That is `Audio.Play` on the resolved path.
- `Holidays.MutedDates`: states the missing section and the list cases. Python's set of a string or a dictionary is modelled in the body but not stated in the contract.
- `Birthdays.WithoutName`: names are compared through `Text.Lower`, which lowers the Basic Latin, Latin-1 and Latin Extended-A capitals and the basic Cyrillic capitals U+0400-U+042F as Python does. Other capitals keep their case, so two names that differ only in such letters count as different. These include the rest of the Cyrillic block (Ѣ U+0462, Ґ U+0490, Ә U+04D8, Ң, Ү, Һ, Ө, Ӏ U+04C0 and the other paired capitals from U+0460 on), Greek with its final sigma, and Latin Extended-B.
- `Birthdays.RemovePerson`: has the same case-mapping limit as `Birthdays.WithoutName`.
- `Birthdays.AddThenRemove`: has the same case-mapping limit as `Birthdays.WithoutName`.
- `Birthdays.FirstMatch`: has the same case-mapping limit as `Birthdays.WithoutName`.
- `Birthdays.AddPerson`: has the same case-mapping limit as `Birthdays.WithoutName`. A name that differs from a stored one only in capitals that are not lowered is added as a new person.
- `Tts.GenerateBirthday`: fills templates whose only replacement field is a plain `{name}`, with `{{` and `}}` as escaped braces. Python also formats `{name!r}`, `{name:>10}`, `{name:}` and `{name[0]}`, and the model treats these as a malformed template.
- `Audio.ResolvePath`: follows POSIX paths. A name is absolute only when it starts with '/', and directories are joined with '/'. Windows drive letters and backslashes are not modelled.
- `Backup.ListedBackups`: orders file names as POSIX paths compare, by code point. On Windows, paths compare without case, and that ordering is not modelled.
- `Backup.CellStr`: a number cell is printed as a whole number. pandas reads a numeric column that has empty cells as floating point, and `str` then gives "5.0"; that is not modelled.
- `Config.LoadConfig`: treats the defaults as constants. In the source the loaded configuration shares the nested default tables: a missing key is filled with the default's own table (config.py:91), and the fallback is a shallow copy (config.py:98). In-place updates of a loaded configuration then change the defaults for the rest of the process. This happens in services/holidays.py:82-89, 159-161 and 168-170, core/audio_engine.py:290 and core/media_player.py:265. For example, a config.json without a `holidays` key followed by `set_holiday_muted(d, True)` leaves `d` in the default `muted_dates`, and every later fallback load returns and writes it. Process-wide mutable defaults are not modelled.
- `Backup.PlaceRow`: its contract states only that the days keep their order. The row's effect is `Backup.PlaceRowDay`.

## Findings

| source | as written | input that shows it | evidently intended | confidence | as-written member | corrected member |
|---|---|---|---|---|---|---|
| services/birthdays.py:117 | `get_upcoming_birthdays` splits the stored date on "-" as MM-DD, but `add_person` rewrites ISO and MM-DD dates into dotted form | person "Ali" stored as "15.03.1990", today 10 March, `days` = 30: the list is empty | read the stored DD.MM layout, so the list is [Ali, 5 days] | not executed | `Birthdays.UpcomingBirthdaysAsWritten` (shown by `Birthdays.UpcomingExample`) | `Birthdays.UpcomingBirthdays` |
| core/media_player.py:183-194 | each reconnection attempt calls `_play_source`, which first calls `stop()`, which sets `_stop_reconnect`, so the loop ends after one attempt | radio attempts [fail, succeed, …]: the player stays silent after attempt one | keep trying up to ten attempts and stop at the first success | not executed | `MediaPlayer.ReconnectAsWritten` and `MediaPlayer.OnTrackEnd` (shown by `MediaPlayer.ReconnectGivesUpEarly` and `MediaPlayer.DroppedStreamStaysSilent`) | `MediaPlayer.Reconnect` and `MediaPlayer.OnTrackEndCorrected` |
