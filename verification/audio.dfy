/** The three-channel audio engine: bell over announcement over music, with
    music paused ("ducked") while a higher channel plays and resumed after.

    The media backend is not modelled; each channel records whether its
    backend reports a playing state (playing, opening or buffering), and the
    backend finishing a file is the environment step `MediaEnded`. Blocking
    calls are modelled by letting the awaited channel finish and then running
    the code after the wait. */
module Audio {
  import opened Wrappers
  import opened Json

  // ---------------------------------------------------------------------------
  // One channel
  // ---------------------------------------------------------------------------

  /** `AudioChannel`. `running` is the backend's playing state and is
      meaningful only while a player exists. */
  datatype Channel = Channel(volume: int, hasPlayer: bool, running: bool, isPaused: bool, source: Option<string>)

  /** `max(0, min(100, v))`. */
  function Clamp(v: int): (r: int)
    ensures 0 <= r <= 100
    ensures 0 <= v <= 100 ==> r == v
    ensures v < 0 ==> r == 0
    ensures v > 100 ==> r == 100
  {
    if v < 0 then 0 else if v > 100 then 100 else v
  }

  /** The shape every reachable channel keeps: a player exists exactly while
      a source is loaded, and a paused player is not running. */
  predicate ChannelOk(ch: Channel) {
    && 0 <= ch.volume <= 100
    && (ch.hasPlayer <==> ch.source.Some?)
    && (!ch.hasPlayer ==> !ch.running && !ch.isPaused)
    && (ch.isPaused ==> !ch.running)
  }

  function NewChannel(volume: int): (r: Channel)
    ensures ChannelOk(r) && !IsPlaying(r) && r.volume == Clamp(volume)
  {
    Channel(Clamp(volume), false, false, false, None)
  }

  /** `is_playing`: false without a player, else what the backend reports. */
  predicate IsPlaying(ch: Channel) {
    ch.hasPlayer && ch.running
  }

  /** `stop`: releases the player and forgets the source; keeps the volume. */
  function Stop(ch: Channel): (r: Channel)
    ensures !IsPlaying(r) && !r.isPaused && r.source == None && r.volume == ch.volume
    ensures ChannelOk(ch) ==> ChannelOk(r)
  {
    ch.(hasPlayer := false, running := false, isPaused := false, source := None)
  }

  /** `play`: always stops first. A file must exist; a stream is taken as
      given. `None` stands for the unresolved path, which raises inside the
      `try` and so also fails. */
  function Play(ch: Channel, source: Option<string>, isStream: bool, fs: set<string>): (r: (Channel, bool))
    ensures r.1 <==> source.Some? && (isStream || source.value in fs)
    ensures r.1 ==> IsPlaying(r.0) && !r.0.isPaused && r.0.source == source
    ensures !r.1 ==> r.0 == Stop(ch)
    ensures r.0.volume == ch.volume
    ensures ChannelOk(ch) ==> ChannelOk(r.0)
  {
    var stopped := Stop(ch);
    match source
    case None => (stopped, false)
    case Some(s) =>
      if !isStream && s !in fs then (stopped, false)
      else (stopped.(hasPlayer := true, running := true, isPaused := false, source := Some(s)), true)
  }

  /** `pause`: only a playing channel pauses. */
  function Pause(ch: Channel): (r: Channel)
    ensures !IsPlaying(r)
    ensures IsPlaying(ch) ==> r.isPaused
    ensures !IsPlaying(ch) ==> r == ch
    ensures r.source == ch.source && r.volume == ch.volume
    ensures ChannelOk(ch) ==> ChannelOk(r)
  {
    if IsPlaying(ch) then ch.(running := false, isPaused := true) else ch
  }

  /** `resume`: only a channel paused by `pause` resumes. */
  function Resume(ch: Channel): (r: Channel)
    ensures ch.hasPlayer && ch.isPaused ==> IsPlaying(r) && !r.isPaused
    ensures !(ch.hasPlayer && ch.isPaused) ==> r == ch
    ensures r.source == ch.source && r.volume == ch.volume
    ensures ChannelOk(ch) ==> ChannelOk(r)
  {
    if ch.hasPlayer && ch.isPaused then ch.(running := true, isPaused := false) else ch
  }

  /** `set_volume` on a channel: clamps and applies. */
  function SetChannelVolume(ch: Channel, v: int): (r: Channel)
    ensures r.volume == Clamp(v) && r == ch.(volume := r.volume)
    ensures ChannelOk(ch) ==> ChannelOk(r)
  {
    ch.(volume := Clamp(v))
  }

  /** The backend reaching the end of the media (or failing): the player
      stays, but no longer reports a playing state. */
  function MediaEnded(ch: Channel): (r: Channel)
    ensures !IsPlaying(r) && r.source == ch.source && r.isPaused == ch.isPaused
    ensures ChannelOk(ch) ==> ChannelOk(r)
  {
    ch.(running := false)
  }

  /** Pausing a playing channel and resuming it restores it exactly. */
  lemma PauseResume(ch: Channel)
    requires ChannelOk(ch) && IsPlaying(ch)
    ensures Resume(Pause(ch)) == ch
  {
  }

  // ---------------------------------------------------------------------------
  // Path resolution
  // ---------------------------------------------------------------------------

  /** The sound directories of the installation. */
  datatype Dirs = Dirs(bells: string, announcements: string, music: string)

  /** `dir / name` for a relative name; an empty name is the directory itself. */
  function JoinPath(dir: string, name: string): string {
    if name == "" then dir else dir + "/" + name
  }

  predicate IsAbs(p: string) {
    |p| > 0 && p[0] == '/'
  }

  /** `_resolve_path`: an absolute name as given; else the default directory,
      then (unless the name is `default.mp3`) the bell, announcement and music
      directories; else the bare name. `None` is the `default.mp3` miss. */
  function ResolvePath(name: string, defaultDir: string, d: Dirs, fs: set<string>): (r: Option<string>)
    ensures r.None? <==> !IsAbs(name) && JoinPath(defaultDir, name) !in fs && name == "default.mp3"
    ensures IsAbs(name) ==> r == Some(name)
    ensures !IsAbs(name) && JoinPath(defaultDir, name) in fs ==> r == Some(JoinPath(defaultDir, name))
    ensures r.Some? && r.value != name ==>
              r.value in fs && r.value in {JoinPath(defaultDir, name), JoinPath(d.bells, name),
                                           JoinPath(d.announcements, name), JoinPath(d.music, name)}
  {
    if IsAbs(name) then Some(name)
    else if JoinPath(defaultDir, name) in fs then Some(JoinPath(defaultDir, name))
    else if name == "default.mp3" then None
    else if JoinPath(d.bells, name) in fs then Some(JoinPath(d.bells, name))
    else if JoinPath(d.announcements, name) in fs then Some(JoinPath(d.announcements, name))
    else if JoinPath(d.music, name) in fs then Some(JoinPath(d.music, name))
    else Some(name)
  }

  /** A relative name found in any sound directory resolves to an existing
      file; one found nowhere resolves to itself (and so fails to play unless
      it names a file relative to the working directory). */
  lemma ResolveFindsExisting(name: string, defaultDir: string, d: Dirs, fs: set<string>)
    requires !IsAbs(name) && name != "default.mp3"
    ensures var cands := [defaultDir, d.bells, d.announcements, d.music];
            var r := ResolvePath(name, defaultDir, d, fs);
            && r.Some?
            && ((exists i :: 0 <= i < 4 && JoinPath(cands[i], name) in fs) ==> r.value in fs)
            && ((forall i :: 0 <= i < 4 ==> JoinPath(cands[i], name) !in fs) ==> r.value == name)
  {
    var cands := [defaultDir, d.bells, d.announcements, d.music];
    assert cands[0] == defaultDir && cands[1] == d.bells && cands[2] == d.announcements && cands[3] == d.music;
  }

  // ---------------------------------------------------------------------------
  // The engine
  // ---------------------------------------------------------------------------

  /** `AudioEngine`: the three channels and the "music was auto-paused" flag. */
  datatype Engine = Engine(bell: Channel, announcement: Channel, music: Channel, musicWasPlaying: bool)

  predicate EngineOk(e: Engine) {
    ChannelOk(e.bell) && ChannelOk(e.announcement) && ChannelOk(e.music)
  }

  /** The priority invariant: bell and announcement never play together, and
      music never plays alongside either. */
  predicate Priority(e: Engine) {
    && !(IsPlaying(e.bell) && IsPlaying(e.announcement))
    && (IsPlaying(e.bell) || IsPlaying(e.announcement) ==> !IsPlaying(e.music))
  }

  /** A channel volume as `config.get("volumes", {}).get(name, default)`
      reads it. `None` is an exception: a configuration or volume table that
      is not a dictionary, or a volume that is not a number. */
  function ConfiguredVolume(cfg: Json, name: string, default: int): (r: Option<int>)
    ensures cfg.JObj? && "volumes" !in Keys(cfg.fields) ==> r == Some(default)
    ensures !cfg.JObj? ==> r.None?
  {
    match Get(cfg, "volumes")
    case None => None
    case Some(vs) =>
      var volumes := vs.GetOr(JObj([]));
      match Get(volumes, name)
      case None => None
      case Some(v) => if v.None? then Some(default) else AsInt(v.value)
  }

  /** `AudioEngine.__init__`: channels at the configured volumes (bell 100,
      announcement 80, music 60 by default), nothing playing. */
  function NewEngine(cfg: Json): (r: Option<Engine>)
    ensures r.Some? ==> EngineOk(r.value) && Priority(r.value) && !r.value.musicWasPlaying
    ensures r.Some? <==> ConfiguredVolume(cfg, "bell", 100).Some?
                         && ConfiguredVolume(cfg, "announcement", 80).Some?
                         && ConfiguredVolume(cfg, "music", 60).Some?
    ensures r.Some? ==> && r.value.bell == NewChannel(ConfiguredVolume(cfg, "bell", 100).value)
                        && r.value.announcement == NewChannel(ConfiguredVolume(cfg, "announcement", 80).value)
                        && r.value.music == NewChannel(ConfiguredVolume(cfg, "music", 60).value)
    ensures r.Some? ==> && r.value.bell.volume == Clamp(ConfiguredVolume(cfg, "bell", 100).value)
                        && r.value.announcement.volume == Clamp(ConfiguredVolume(cfg, "announcement", 80).value)
                        && r.value.music.volume == Clamp(ConfiguredVolume(cfg, "music", 60).value)
  {
    var b := ConfiguredVolume(cfg, "bell", 100);
    var a := ConfiguredVolume(cfg, "announcement", 80);
    var m := ConfiguredVolume(cfg, "music", 60);
    if b.Some? && a.Some? && m.Some? then
      Some(Engine(NewChannel(b.value), NewChannel(a.value), NewChannel(m.value), false))
    else None
  }

  /** Pauses the music if it plays and remembers that it must resume. */
  function DuckMusic(e: Engine): (r: Engine)
    ensures !IsPlaying(r.music)
    ensures r.musicWasPlaying == (e.musicWasPlaying || IsPlaying(e.music))
    ensures IsPlaying(e.music) ==> r.music.isPaused
    ensures r.bell == e.bell && r.announcement == e.announcement
  {
    if IsPlaying(e.music) then e.(music := Pause(e.music), musicWasPlaying := true) else e
  }

  /** Resumes the music if it was auto-paused and clears the flag. */
  function Unduck(e: Engine): (r: Engine)
    ensures !r.musicWasPlaying
    ensures !e.musicWasPlaying ==> r == e
    ensures e.musicWasPlaying ==> r.music == Resume(e.music)
    ensures r.bell == e.bell && r.announcement == e.announcement
  {
    if e.musicWasPlaying then e.(music := Resume(e.music), musicWasPlaying := false) else e
  }

  /** The locked part of `play_bell`: duck the music, stop any announcement,
      play the bell. */
  function StartBell(e: Engine, name: string, d: Dirs, fs: set<string>): (r: (Engine, bool))
    ensures var p := ResolvePath(name, d.bells, d, fs);
            r.1 <==> p.Some? && p.value in fs
    ensures !IsPlaying(r.0.announcement) && r.0.announcement.source == None
    ensures !IsPlaying(r.0.music)
    ensures IsPlaying(r.0.bell) <==> r.1
    ensures r.0.musicWasPlaying == (e.musicWasPlaying || IsPlaying(e.music))
  {
    var e1 := DuckMusic(e);
    var (bell, ok) := Play(e1.bell, ResolvePath(name, d.bells, d, fs), false, fs);
    (e1.(announcement := Stop(e1.announcement), bell := bell), ok)
  }

  /** `play_bell`. When blocking and the bell started, the caller waits for
      the bell to end and the music resumes if it was auto-paused. On a failed
      bell nothing resumes: a paused music channel stays paused. */
  function PlayBell(e: Engine, name: string, blocking: bool, d: Dirs, fs: set<string>): (r: (Engine, bool))
    ensures r.1 == StartBell(e, name, d, fs).1
    ensures !IsPlaying(r.0.announcement)
    ensures blocking && r.1 ==> !IsPlaying(r.0.bell) && !r.0.musicWasPlaying
    ensures blocking ==> !IsPlaying(r.0.bell)
    ensures EngineOk(e) ==> EngineOk(r.0)
    ensures Priority(r.0)
  {
    var (e1, ok) := StartBell(e, name, d, fs);
    if blocking && ok then (Unduck(e1.(bell := MediaEnded(e1.bell))), ok)
    else (e1, ok)
  }

  /** `play_announcement`. The call first waits until no bell plays. Music is
      ducked whenever it is playing; after a blocking announcement ends the
      music resumes whenever the flag is set, even if a failed bell set it. */
  function PlayAnnouncement(e: Engine, name: string, blocking: bool, d: Dirs, fs: set<string>): (r: (Engine, bool))
    ensures var p := ResolvePath(name, d.announcements, d, fs);
            r.1 <==> p.Some? && p.value in fs
    ensures !IsPlaying(r.0.bell)
    ensures !blocking ==> (IsPlaying(r.0.announcement) <==> r.1) && !IsPlaying(r.0.music)
    ensures blocking && r.1 ==> !r.0.musicWasPlaying
    ensures blocking ==> !IsPlaying(r.0.announcement)
    ensures blocking && r.1 && ChannelOk(e.music) && IsPlaying(e.music) && !e.music.isPaused ==> r.0.music == e.music
    ensures !blocking || !r.1 ==> r.0.musicWasPlaying == (e.musicWasPlaying || IsPlaying(e.music))
    ensures EngineOk(e) ==> EngineOk(r.0)
    ensures Priority(r.0)
  {
    var e0 := if IsPlaying(e.bell) then e.(bell := MediaEnded(e.bell)) else e;
    var e1 := DuckMusic(e0);
    var (ann, ok) := Play(e1.announcement, ResolvePath(name, d.announcements, d, fs), false, fs);
    var e2 := e1.(announcement := ann);
    if blocking && ok then (Unduck(e2.(announcement := MediaEnded(e2.announcement))), ok)
    else (e2, ok)
  }

  /** `play_music`: refused while a bell or announcement plays; a stream is
      played as given, a file is resolved against the music directory. */
  function PlayMusic(e: Engine, source: string, isStream: bool, d: Dirs, fs: set<string>): (r: (Engine, bool))
    ensures IsPlaying(e.bell) || IsPlaying(e.announcement) ==> r == (e, false)
    ensures r.1 ==> IsPlaying(r.0.music)
    ensures r.0.bell == e.bell && r.0.announcement == e.announcement
    ensures r.0.musicWasPlaying == e.musicWasPlaying
    ensures EngineOk(e) ==> EngineOk(r.0)
    ensures Priority(e) ==> Priority(r.0)
  {
    if IsPlaying(e.bell) || IsPlaying(e.announcement) then (e, false)
    else
      var path := if isStream then Some(source) else ResolvePath(source, d.music, d, fs);
      var (m, ok) := Play(e.music, path, isStream, fs);
      (e.(music := m), ok)
  }

  /** `stop_music`: the music channel is stopped, not merely paused. */
  function StopMusic(e: Engine): (r: Engine)
    ensures !IsPlaying(r.music) && !r.musicWasPlaying
    ensures r.music == Stop(e.music)
    ensures !r.music.hasPlayer && !r.music.isPaused && r.music.source == None && r.music.volume == e.music.volume
    ensures r.bell == e.bell && r.announcement == e.announcement
    ensures EngineOk(e) ==> EngineOk(r)
    ensures Priority(e) ==> Priority(r)
  {
    e.(music := Stop(e.music), musicWasPlaying := false)
  }

  /** `stop_all`: every channel is stopped, not merely paused. */
  function StopAll(e: Engine): (r: Engine)
    ensures !IsPlaying(r.bell) && !IsPlaying(r.announcement) && !IsPlaying(r.music)
    ensures r.bell == Stop(e.bell) && r.announcement == Stop(e.announcement) && r.music == Stop(e.music)
    ensures && !r.bell.hasPlayer && !r.bell.isPaused && r.bell.source == None
            && !r.announcement.hasPlayer && !r.announcement.isPaused && r.announcement.source == None
            && !r.music.hasPlayer && !r.music.isPaused && r.music.source == None
    ensures !r.musicWasPlaying && Priority(r)
    ensures r.bell.volume == e.bell.volume && r.announcement.volume == e.announcement.volume
    ensures r.music.volume == e.music.volume
    ensures EngineOk(e) ==> EngineOk(r)
  {
    Engine(Stop(e.bell), Stop(e.announcement), Stop(e.music), false)
  }

  predicate HasVolumeTable(cfg: Json) {
    cfg.JObj? && Lookup(cfg.fields, "volumes").Some? && Lookup(cfg.fields, "volumes").value.JObj?
  }

  /** `cfg["volumes"][name] == v`. */
  predicate VolumeStored(cfg: Json, name: string, v: int) {
    HasVolumeTable(cfg) && Lookup(Lookup(cfg.fields, "volumes").value.fields, name) == Some(JInt(v))
  }

  /** The outcome of `set_volume`: the engine and the configuration saved. */
  datatype VolumeSet = VolumeSet(engine: Engine, saved: Option<Json>)

  /** `set_volume`: for a known channel, clamps the channel's volume and then
      stores the requested value, unclamped, under `volumes` in the
      configuration. An unknown channel changes nothing. `saved` is `None`
      when nothing is written; a configuration whose `volumes` entry is
      missing or not a dictionary makes the write raise, also shown as
      `None` with the channel already changed. */
  function SetVolume(e: Engine, name: string, v: int, cfg: Json): (r: VolumeSet)
    ensures name !in {"bell", "announcement", "music"} ==> r == VolumeSet(e, None)
    ensures name == "bell" ==> r.engine == e.(bell := SetChannelVolume(e.bell, v))
    ensures name == "announcement" ==> r.engine == e.(announcement := SetChannelVolume(e.announcement, v))
    ensures name == "music" ==> r.engine == e.(music := SetChannelVolume(e.music, v))
    ensures r.saved.Some? ==> VolumeStored(r.saved.value, name, v)
    ensures r.saved.Some? <==> name in {"bell", "announcement", "music"} && HasVolumeTable(cfg)
    ensures EngineOk(e) ==> EngineOk(r.engine)
    ensures Priority(e) ==> Priority(r.engine)
  {
    if name !in {"bell", "announcement", "music"} then VolumeSet(e, None)
    else
      var e1 := if name == "bell" then e.(bell := SetChannelVolume(e.bell, v))
                else if name == "announcement" then e.(announcement := SetChannelVolume(e.announcement, v))
                else e.(music := SetChannelVolume(e.music, v));
      var saved :=
        if HasVolumeTable(cfg) then
          var vols := Lookup(cfg.fields, "volumes").value.fields;
          Some(JObj(Put(cfg.fields, "volumes", JObj(Put(vols, name, JInt(v))))))
        else None;
      VolumeSet(e1, saved)
  }

  /** `get_volume`: the channel's clamped volume, 0 for an unknown name. */
  function GetVolume(e: Engine, name: string): (r: int)
    ensures name !in {"bell", "announcement", "music"} ==> r == 0
    ensures EngineOk(e) ==> 0 <= r <= 100
  {
    if name == "bell" then e.bell.volume
    else if name == "announcement" then e.announcement.volume
    else if name == "music" then e.music.volume
    else 0
  }

  /** Reading a volume back returns the clamped value that was set, while the
      configuration holds the raw one. */
  lemma SetThenGetVolume(e: Engine, name: string, v: int, cfg: Json)
    requires name in {"bell", "announcement", "music"}
    ensures GetVolume(SetVolume(e, name, v, cfg).engine, name) == Clamp(v)
  {
  }

  /** `play_sequence`: plays each file to its end on the bell or announcement
      channel; any other channel name fails on a non-empty list without
      playing anything. Individual failures do not stop the sequence. */
  function PlaySequence(e: Engine, files: seq<string>, channel: string, d: Dirs, fs: set<string>): (r: (Engine, bool))
    ensures r.1 <==> |files| == 0 || channel in {"bell", "announcement"}
    ensures r.1 && |files| > 0 ==> !IsPlaying(r.0.bell) && !IsPlaying(r.0.announcement)
    ensures !r.1 ==> r.0 == e
    ensures Priority(r.0) || r.0 == e
    ensures EngineOk(e) ==> EngineOk(r.0)
    decreases |files|
  {
    if |files| == 0 then (e, true)
    else if channel == "bell" then PlaySequence(PlayBell(e, files[0], true, d, fs).0, files[1..], channel, d, fs)
    else if channel == "announcement" then PlaySequence(PlayAnnouncement(e, files[0], true, d, fs).0, files[1..], channel, d, fs)
    else (e, false)
  }

  /** The backend finishing a file on one channel keeps the invariants. */
  function ChannelEnded(e: Engine, name: string): (r: Engine)
    ensures EngineOk(e) ==> EngineOk(r)
    ensures Priority(e) ==> Priority(r)
    ensures r.musicWasPlaying == e.musicWasPlaying
  {
    if name == "bell" then e.(bell := MediaEnded(e.bell))
    else if name == "announcement" then e.(announcement := MediaEnded(e.announcement))
    else if name == "music" then e.(music := MediaEnded(e.music))
    else e
  }

  /** A bell whose file cannot be found still ducks the music: the music is
      left paused, with the flag set, and nothing resumes it until a later
      call clears the flag. */
  lemma MissingBellLeavesMusicPaused(e: Engine, name: string, blocking: bool, d: Dirs, fs: set<string>)
    requires ChannelOk(e.music) && IsPlaying(e.music)
    requires ResolvePath(name, d.bells, d, fs).None? || ResolvePath(name, d.bells, d, fs).value !in fs
    ensures var r := PlayBell(e, name, blocking, d, fs);
            && !r.1 && r.0.music.isPaused && !IsPlaying(r.0.music) && r.0.musicWasPlaying
  {
  }

  /** A blocking bell over playing music: the music is paused for the bell
      and plays again afterwards, with the same source. */
  lemma BellDucksAndRestoresMusic(e: Engine, name: string, d: Dirs, fs: set<string>)
    requires ChannelOk(e.music) && IsPlaying(e.music) && !e.music.isPaused
    requires ResolvePath(name, d.bells, d, fs).Some? && ResolvePath(name, d.bells, d, fs).value in fs
    ensures var r := PlayBell(e, name, true, d, fs);
            && r.1 && r.0.music == e.music && !r.0.musicWasPlaying
  {
  }

  /** A blocking announcement over playing music: the music is paused for
      the announcement and plays again afterwards, with the same source. */
  lemma AnnouncementDucksAndRestoresMusic(e: Engine, name: string, d: Dirs, fs: set<string>)
    requires ChannelOk(e.music) && IsPlaying(e.music) && !e.music.isPaused
    requires ResolvePath(name, d.announcements, d, fs).Some? && ResolvePath(name, d.announcements, d, fs).value in fs
    ensures var r := PlayAnnouncement(e, name, true, d, fs);
            && r.1 && r.0.music == e.music && !r.0.musicWasPlaying && !IsPlaying(r.0.announcement)
  {
  }

  /** Every file of a list is found in the given directory. */
  predicate AllFound(files: seq<string>, dir: string, d: Dirs, fs: set<string>) {
    forall i :: 0 <= i < |files| ==> ResolvePath(files[i], dir, d, fs).Some? && ResolvePath(files[i], dir, d, fs).value in fs
  }

  /** A sequence of bells that are all found: each bell plays to its end,
      the music comes back after every one of them exactly as it was found,
      and the bell channel holds the last file played. */
  lemma {:induction false} BellSequenceRestoresMusic(e: Engine, files: seq<string>, d: Dirs, fs: set<string>)
    requires |files| > 0 && AllFound(files, d.bells, d, fs)
    requires ChannelOk(e.music) && (IsPlaying(e.music) || !e.musicWasPlaying)
    ensures var r := PlaySequence(e, files, "bell", d, fs);
            && r.1 && r.0.music == e.music && !r.0.musicWasPlaying
            && !IsPlaying(r.0.bell) && r.0.bell.source == ResolvePath(files[|files| - 1], d.bells, d, fs)
    decreases |files|
  {
    var e1 := PlayBell(e, files[0], true, d, fs).0;
    assert e1.music == e.music && !e1.musicWasPlaying;
    if |files| > 1 {
      assert AllFound(files[1..], d.bells, d, fs) by {
        forall i | 0 <= i < |files[1..]| ensures ResolvePath(files[1..][i], d.bells, d, fs).Some? {
          assert files[1..][i] == files[i + 1];
        }
      }
      BellSequenceRestoresMusic(e1, files[1..], d, fs);
    }
  }

  /** The same for a sequence of announcements that are all found. */
  lemma {:induction false} AnnouncementSequenceRestoresMusic(e: Engine, files: seq<string>, d: Dirs, fs: set<string>)
    requires |files| > 0 && AllFound(files, d.announcements, d, fs)
    requires ChannelOk(e.music) && (IsPlaying(e.music) || !e.musicWasPlaying)
    ensures var r := PlaySequence(e, files, "announcement", d, fs);
            && r.1 && r.0.music == e.music && !r.0.musicWasPlaying && !IsPlaying(r.0.bell)
            && !IsPlaying(r.0.announcement) && r.0.announcement.source == ResolvePath(files[|files| - 1], d.announcements, d, fs)
    decreases |files|
  {
    var e1 := PlayAnnouncement(e, files[0], true, d, fs).0;
    assert e1.music == e.music && !e1.musicWasPlaying;
    if |files| > 1 {
      assert AllFound(files[1..], d.announcements, d, fs) by {
        forall i | 0 <= i < |files[1..]| ensures ResolvePath(files[1..][i], d.announcements, d, fs).Some? {
          assert files[1..][i] == files[i + 1];
        }
      }
      AnnouncementSequenceRestoresMusic(e1, files[1..], d, fs);
    }
  }
}
