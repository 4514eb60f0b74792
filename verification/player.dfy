/** The manual media player: one file, an internet radio stream or a playlist,
    independent of the scheduled channels.

    The media backend is abstract, as in `Audio`: `running` is its playing
    state, and the end of a track is the event `OnTrackEnd`. Randomness
    (shuffling) and the video-site address lookup are parameters. */
module MediaPlayer {
  import opened Wrappers
  import opened Json
  import Text
  import Audio

  /** `current_type`. */
  datatype Kind = NoKind | FileKind | RadioKind | PlaylistKind

  datatype Player = Player(
    hasPlayer: bool,
    running: bool,
    isPaused: bool,
    source: Option<string>,
    kind: Kind,
    playlist: seq<string>,
    index: int,
    shuffle: bool,
    repeat: bool,
    volume: int,
    radioUrl: Option<string>,
    stopReconnect: bool,
    externalPause: bool)

  /** What the outside world answers during a call: the music directory, the
      files that exist, whether the backend accepts the media, and the direct
      stream address found for a video-site link (if the lookup succeeds). */
  datatype Env = Env(musicDir: string, fs: set<string>, backendOk: bool, extracted: Option<string>)

  /** The shape every reachable player keeps. */
  predicate PlayerOk(p: Player) {
    && (p.hasPlayer <==> p.source.Some?)
    && (!p.hasPlayer ==> !p.running && !p.isPaused)
    && (p.isPaused ==> !p.running)
    && 0 <= p.index <= |p.playlist|
    && (p.kind == PlaylistKind ==> p.index < |p.playlist|)
    && (p.kind != NoKind ==> p.hasPlayer)
  }

  predicate IsPlaying(p: Player) {
    p.hasPlayer && p.running
  }

  /** `MediaPlayer.__init__`: idle, with the configured manual volume taken
      as it is (not clamped). */
  function NewPlayer(manualVolume: int): (r: Player)
    ensures PlayerOk(r) && !IsPlaying(r) && r.kind == NoKind && r.volume == manualVolume
    ensures r.playlist == [] && r.index == 0 && !r.shuffle && !r.repeat
  {
    Player(false, false, false, None, NoKind, [], 0, false, false, manualVolume, None, false, false)
  }

  /** `stop`: releases the player, cancels any reconnect, forgets the source
      and the kind. The playlist and its position are kept. */
  function Stop(p: Player): (r: Player)
    ensures !IsPlaying(r) && !r.isPaused && r.source == None && r.kind == NoKind
    ensures r.stopReconnect && !r.externalPause
    ensures r.playlist == p.playlist && r.index == p.index && r.volume == p.volume
    ensures r.radioUrl == p.radioUrl && r.shuffle == p.shuffle && r.repeat == p.repeat
    ensures PlayerOk(p) ==> PlayerOk(r)
  {
    p.(stopReconnect := true, hasPlayer := false, running := false, isPaused := false,
       source := None, kind := NoKind, externalPause := false)
  }

  predicate IsVideoLink(s: string) {
    Text.IsSubstring("youtube.com", s) || Text.IsSubstring("youtu.be", s)
  }

  /** The path a local file is played from: relative names are taken inside
      the music directory, with no other search. */
  function TrackPath(musicDir: string, name: string): string {
    if Audio.IsAbs(name) then name else Audio.JoinPath(musicDir, name)
  }

  /** `_play_source`: stops first; a stream plays as given (a video-site link
      through its looked-up address when there is one); a file must exist at
      its path. */
  function PlaySource(p: Player, source: string, kind: Kind, isStream: bool, env: Env): (r: (Player, bool))
    requires kind != NoKind
    ensures r.1 <==> env.backendOk && (isStream || TrackPath(env.musicDir, source) in env.fs)
    ensures !r.1 ==> r.0 == Stop(p)
    ensures r.1 ==> IsPlaying(r.0) && !r.0.isPaused && r.0.kind == kind && !r.0.externalPause
    ensures r.1 && !isStream ==> r.0.source == Some(TrackPath(env.musicDir, source))
    ensures r.1 && isStream && !IsVideoLink(source) ==> r.0.source == Some(source)
    ensures r.0.stopReconnect
    ensures r.0.playlist == p.playlist && r.0.index == p.index && r.0.volume == p.volume
    ensures r.0.radioUrl == p.radioUrl && r.0.shuffle == p.shuffle && r.0.repeat == p.repeat
  {
    var stopped := Stop(p);
    var src := if isStream && IsVideoLink(source) && env.extracted.Some? then env.extracted.value else source;
    if !isStream && TrackPath(env.musicDir, source) !in env.fs then (stopped, false)
    else if !env.backendOk then (stopped, false)
    else
      var path := if isStream then src else TrackPath(env.musicDir, source);
      (stopped.(hasPlayer := true, running := true, isPaused := false, source := Some(path), kind := kind), true)
  }

  /** `play_file`. */
  function PlayFile(p: Player, path: string, env: Env): (r: (Player, bool))
    requires PlayerOk(p)
    ensures PlayerOk(r.0)
    ensures r.1 <==> env.backendOk && TrackPath(env.musicDir, path) in env.fs
    ensures r.1 ==> r.0.kind == FileKind && r.0.source == Some(TrackPath(env.musicDir, path))
  {
    PlaySource(p, path, FileKind, false, env)
  }

  /** `play_radio`: the address is remembered even when playing fails. */
  function PlayRadio(p: Player, url: string, env: Env): (r: (Player, bool))
    requires PlayerOk(p)
    ensures PlayerOk(r.0)
    ensures r.0.radioUrl == Some(url)
    ensures r.1 <==> env.backendOk
    ensures r.1 ==> r.0.kind == RadioKind
  {
    PlaySource(p.(radioUrl := Some(url)), url, RadioKind, true, env)
  }

  /** `play_playlist`: an empty list is refused with no change; otherwise the
      list (shuffled into `perm` when asked) replaces the playlist and its
      first track plays. */
  function PlayPlaylist(p: Player, files: seq<string>, shuffle: bool, perm: seq<string>, env: Env): (r: (Player, bool))
    requires PlayerOk(p)
    requires shuffle ==> multiset(perm) == multiset(files)
    ensures PlayerOk(r.0) && r.0.repeat == p.repeat
    ensures files == [] ==> r == (p, false)
    ensures files != [] ==> multiset(r.0.playlist) == multiset(files) && r.0.index == 0 && r.0.shuffle == shuffle
    ensures files != [] && !shuffle ==> r.0.playlist == files
    ensures r.1 ==> r.0.kind == PlaylistKind && r.0.source == Some(TrackPath(env.musicDir, r.0.playlist[0]))
  {
    if files == [] then (p, false)
    else
      var list := if shuffle then perm else files;
      assert |list| == |multiset(list)| == |files|;
      StartList(p, list, shuffle, env)
  }

  /** Makes `list` the playlist and plays its first track. */
  function StartList(p: Player, list: seq<string>, shuffle: bool, env: Env): (r: (Player, bool))
    requires PlayerOk(p) && list != []
    ensures PlayerOk(r.0) && r.0.repeat == p.repeat
    ensures r.0.playlist == list && r.0.index == 0 && r.0.shuffle == shuffle
    ensures r.1 ==> r.0.kind == PlaylistKind && r.0.source == Some(TrackPath(env.musicDir, list[0]))
  {
    PlaySource(p.(playlist := list, shuffle := shuffle, index := 0), list[0], PlaylistKind, false, env)
  }

  /** `_play_next_in_playlist`, which runs only while a playlist plays:
      advances the position; past the end it either wraps (only with
      `repeat`, reshuffling when shuffled) or ends the playlist by clearing
      the kind, leaving the player itself alone. */
  function PlayNext(p: Player, perm: seq<string>, env: Env): (r: Player)
    requires PlayerOk(p) && p.kind == PlaylistKind
    requires multiset(perm) == multiset(p.playlist)
    ensures PlayerOk(r)
    ensures r.repeat == p.repeat
    ensures r.playlist == p.playlist || (p.repeat && p.shuffle && r.playlist == perm)
    ensures p.index + 1 == |p.playlist| && !p.repeat ==> r == p.(index := |p.playlist|, kind := NoKind)
    ensures p.index + 1 < |p.playlist| ==>
              r.index == p.index + 1 && r.playlist == p.playlist
              && (r.kind == PlaylistKind <==> env.backendOk && TrackPath(env.musicDir, p.playlist[p.index + 1]) in env.fs)
    ensures p.playlist != [] && p.index + 1 >= |p.playlist| && p.repeat ==>
              && r.index == 0
              && r.playlist == (if p.shuffle then perm else p.playlist)
              && (r.kind == PlaylistKind ==> r.source == Some(TrackPath(env.musicDir, r.playlist[0])))
  {
    if p.playlist == [] then p
    else
      var i := p.index + 1;
      if i >= |p.playlist| then
        if p.repeat then
          var list := if p.shuffle then perm else p.playlist;
          assert |list| == |multiset(list)| == |p.playlist|;
          StartList(p, list, p.shuffle, env).0
        else p.(index := i, kind := NoKind)
      else PlaySource(p.(index := i), p.playlist[i], PlaylistKind, false, env).0
  }

  /** `next_track`: only while a playlist plays. */
  function NextTrack(p: Player, perm: seq<string>, env: Env): (r: Player)
    requires PlayerOk(p)
    requires multiset(perm) == multiset(p.playlist)
    ensures PlayerOk(r) && r.repeat == p.repeat
    ensures p.kind != PlaylistKind ==> r == p
  {
    if p.kind == PlaylistKind then PlayNext(p, perm, env) else p
  }

  /** `previous_track`: steps back one track, staying at the first. */
  function PreviousTrack(p: Player, env: Env): (r: Player)
    requires PlayerOk(p)
    ensures PlayerOk(r) && r.repeat == p.repeat
    ensures p.kind != PlaylistKind ==> r == p
    ensures p.kind == PlaylistKind ==>
              r.index == (if p.index == 0 then 0 else p.index - 1) && r.playlist == p.playlist
              && (r.kind == PlaylistKind <==> env.backendOk && TrackPath(env.musicDir, p.playlist[r.index]) in env.fs)
  {
    if p.kind == PlaylistKind && p.playlist != [] then
      var i := if p.index - 1 < 0 then 0 else p.index - 1;
      PlaySource(p.(index := i), p.playlist[i], PlaylistKind, false, env).0
    else p
  }

  /** `pause`: only a playing player pauses. */
  function Pause(p: Player): (r: Player)
    ensures !IsPlaying(r)
    ensures IsPlaying(p) ==> r.isPaused
    ensures !IsPlaying(p) ==> r == p
    ensures PlayerOk(p) ==> PlayerOk(r)
  {
    if IsPlaying(p) then p.(running := false, isPaused := true) else p
  }

  /** `resume`: only a paused player resumes. */
  function Resume(p: Player): (r: Player)
    ensures p.hasPlayer && p.isPaused ==> IsPlaying(r) && !r.isPaused
    ensures !(p.hasPlayer && p.isPaused) ==> r == p
    ensures PlayerOk(p) ==> PlayerOk(r)
  {
    if p.hasPlayer && p.isPaused then p.(running := true, isPaused := false) else p
  }

  /** `toggle_play_pause`. */
  function Toggle(p: Player): (r: Player)
    ensures p.isPaused ==> r == Resume(p)
    ensures !p.isPaused && IsPlaying(p) ==> r.isPaused && !IsPlaying(r)
    ensures !p.isPaused && !IsPlaying(p) ==> r == p
    ensures PlayerOk(p) ==> PlayerOk(r)
  {
    if p.isPaused then Resume(p) else if IsPlaying(p) then Pause(p) else p
  }

  /** Toggling twice leaves a playing or paused player as it was. */
  lemma ToggleTwice(p: Player)
    requires PlayerOk(p) && (IsPlaying(p) || p.isPaused)
    ensures Toggle(Toggle(p)) == p
  {
  }

  /** `external_pause`: a bell or announcement pauses the player and marks
      the pause as theirs. */
  function ExternalPause(p: Player): (r: Player)
    ensures IsPlaying(p) ==> r.externalPause && r.isPaused && !IsPlaying(r)
    ensures !IsPlaying(p) ==> r == p
    ensures PlayerOk(p) ==> PlayerOk(r)
  {
    if IsPlaying(p) then Pause(p.(externalPause := true)) else p
  }

  /** `external_resume`: resumes only a pause marked as external. */
  function ExternalResume(p: Player): (r: Player)
    ensures !r.externalPause
    ensures !p.externalPause ==> r == p
    ensures p.externalPause ==> r == Resume(p).(externalPause := false)
    ensures PlayerOk(p) ==> PlayerOk(r)
  {
    if p.externalPause then Resume(p.(externalPause := false)) else p
  }

  /** An external pause and resume around a bell restores a playing player;
      if the user resumed meanwhile, the external resume changes only the mark. */
  lemma ExternalPauseResume(p: Player)
    requires PlayerOk(p) && IsPlaying(p) && !p.externalPause
    ensures ExternalResume(ExternalPause(p)) == p
    ensures ExternalResume(Resume(ExternalPause(p))) == p
  {
  }

  /** `set_volume`: clamps, then saves the clamped value as the manual
      volume. `None` is a configuration without a `volumes` dictionary, on
      which the write raises after the volume changed. */
  function SetVolume(p: Player, v: int, cfg: Json): (r: (Player, Option<Json>))
    ensures r.0 == p.(volume := Audio.Clamp(v))
    ensures r.1.Some? <==> Audio.HasVolumeTable(cfg)
    ensures r.1.Some? ==> Audio.VolumeStored(r.1.value, "manual", r.0.volume)
  {
    var c := Audio.Clamp(v);
    var saved :=
      if Audio.HasVolumeTable(cfg) then
        var vols := Lookup(cfg.fields, "volumes").value.fields;
        Some(JObj(Put(cfg.fields, "volumes", JObj(Put(vols, "manual", JInt(c))))))
      else None;
    (p.(volume := c), saved)
  }

  // ---------------------------------------------------------------------------
  // Radio reconnection
  // ---------------------------------------------------------------------------

  const MaxAttempts := 10

  /** `_reconnect_loop` as written, from attempt `done` on. Each attempt calls
      `_play_source`, whose `stop` sets `_stop_reconnect`, so a failed attempt
      ends the loop as surely as a successful one. `ok[i]` is whether the
      backend accepts attempt `i`. Returns the player and the attempts made. */
  function ReconnectLoopAsWritten(p: Player, url: string, ok: seq<bool>, env: Env, done: nat): (r: (Player, nat))
    requires PlayerOk(p) && |ok| >= MaxAttempts && done <= MaxAttempts
    ensures PlayerOk(r.0) && done <= r.1 <= MaxAttempts
    ensures r.0.playlist == p.playlist && r.0.repeat == p.repeat
    decreases MaxAttempts - done
  {
    if p.stopReconnect || done >= MaxAttempts then (p, done)
    else
      var a := PlaySource(p, url, RadioKind, true, env.(backendOk := ok[done]));
      if a.1 then (a.0, done + 1)
      else ReconnectLoopAsWritten(a.0, url, ok, env, done + 1)
  }

  /** `_start_reconnect` followed by the loop as written: one attempt only. */
  function ReconnectAsWritten(p: Player, url: string, ok: seq<bool>, env: Env): (r: (Player, nat))
    requires PlayerOk(p) && |ok| >= MaxAttempts
    ensures PlayerOk(r.0)
    ensures r.0.playlist == p.playlist && r.0.repeat == p.repeat
    ensures r.1 == 1
    ensures IsPlaying(r.0) <==> ok[0]
  {
    var start := p.(stopReconnect := false);
    var a := PlaySource(start, url, RadioKind, true, env.(backendOk := ok[0]));
    assert a.0.stopReconnect;
    assert ReconnectLoopAsWritten(a.0, url, ok, env, 1) == (a.0, 1);
    ReconnectLoopAsWritten(start, url, ok, env, 0)
  }

  /** The loop as evidently intended: only an outside `stop` (not modelled
      here) cancels it, so a failed attempt is retried, up to ten in all. */
  function ReconnectLoop(p: Player, url: string, ok: seq<bool>, env: Env, done: nat): (r: (Player, nat))
    requires PlayerOk(p) && |ok| >= MaxAttempts && done <= MaxAttempts
    requires done > 0 ==> !IsPlaying(p)
    ensures PlayerOk(r.0) && done <= r.1 <= MaxAttempts && r.0.repeat == p.repeat
    ensures r.0.playlist == p.playlist && r.0.index == p.index
    ensures IsPlaying(r.0) <==> exists i :: done <= i < MaxAttempts && ok[i]
    ensures IsPlaying(r.0) ==> r.1 > done && ok[r.1 - 1] && forall i :: done <= i < r.1 - 1 ==> !ok[i]
    ensures !IsPlaying(r.0) ==> r.1 == MaxAttempts
    ensures IsPlaying(r.0) ==> r.0.kind == RadioKind
    decreases MaxAttempts - done
  {
    if done >= MaxAttempts then (p, done)
    else
      var a := PlaySource(p, url, RadioKind, true, env.(backendOk := ok[done]));
      if a.1 then (a.0, done + 1)
      else ReconnectLoop(a.0, url, ok, env, done + 1)
  }

  /** `_start_reconnect` with the intended loop: the radio comes back exactly
      when one of the ten attempts succeeds, and the first success ends it. */
  function Reconnect(p: Player, url: string, ok: seq<bool>, env: Env): (r: (Player, nat))
    requires PlayerOk(p) && |ok| >= MaxAttempts
    ensures PlayerOk(r.0) && 1 <= r.1 <= MaxAttempts && r.0.repeat == p.repeat
    ensures r.0.playlist == p.playlist && r.0.index == p.index
    ensures IsPlaying(r.0) <==> exists i :: 0 <= i < MaxAttempts && ok[i]
    ensures IsPlaying(r.0) ==> ok[r.1 - 1] && forall i :: 0 <= i < r.1 - 1 ==> !ok[i]
    ensures IsPlaying(r.0) ==> r.0.kind == RadioKind
  {
    ReconnectLoop(p.(stopReconnect := false), url, ok, env, 0)
  }

  /** A stream that fails once and would then connect: the loop as written
      gives up after that one failure, the intended loop reconnects on the
      second attempt. */
  lemma ReconnectGivesUpEarly(p: Player, url: string, env: Env)
    requires PlayerOk(p)
    ensures var ok := [false, true, true, true, true, true, true, true, true, true];
            && !IsPlaying(ReconnectAsWritten(p, url, ok, env).0)
            && IsPlaying(Reconnect(p, url, ok, env).0) && Reconnect(p, url, ok, env).1 == 2
  {
    var ok := [false, true, true, true, true, true, true, true, true, true];
    assert ok[1];
  }

  /** `_on_track_end`: the backend stops reporting playback; a playlist moves
      to its next track, and a radio stream with a remembered address
      reconnects through the loop as written, so only the first attempt
      counts. */
  function OnTrackEnd(p: Player, perm: seq<string>, ok: seq<bool>, env: Env): (r: Player)
    requires PlayerOk(p)
    requires multiset(perm) == multiset(p.playlist) && |ok| >= MaxAttempts
    ensures PlayerOk(r) && r.repeat == p.repeat
    ensures r.playlist == p.playlist || r.playlist == perm
    ensures p.kind == NoKind || p.kind == FileKind ==> r == p.(running := false)
    ensures p.kind == RadioKind && (p.radioUrl == None || p.radioUrl == Some("")) ==> r == p.(running := false)
    ensures p.kind == RadioKind && p.radioUrl.Some? && p.radioUrl.value != "" ==> (IsPlaying(r) <==> ok[0])
  {
    var ended := p.(running := false);
    if ended.kind == PlaylistKind then PlayNext(ended, perm, env)
    else if ended.kind == RadioKind && ended.radioUrl.Some? && ended.radioUrl.value != "" then
      ReconnectAsWritten(ended, ended.radioUrl.value, ok, env).0
    else ended
  }

  /** `_on_track_end` with the intended reconnection loop: a dropped radio
      stream comes back exactly when one of the ten attempts succeeds. */
  function OnTrackEndCorrected(p: Player, perm: seq<string>, ok: seq<bool>, env: Env): (r: Player)
    requires PlayerOk(p)
    requires multiset(perm) == multiset(p.playlist) && |ok| >= MaxAttempts
    ensures PlayerOk(r) && r.repeat == p.repeat
    ensures r.playlist == p.playlist || r.playlist == perm
    ensures p.kind == NoKind || p.kind == FileKind ==> r == p.(running := false)
    ensures p.kind == RadioKind && (p.radioUrl == None || p.radioUrl == Some("")) ==> r == p.(running := false)
    ensures p.kind == RadioKind && p.radioUrl.Some? && p.radioUrl.value != "" ==>
              (IsPlaying(r) <==> exists i :: 0 <= i < MaxAttempts && ok[i])
    ensures p.kind != RadioKind ==> r == OnTrackEnd(p, perm, ok, env)
  {
    var ended := p.(running := false);
    if ended.kind == RadioKind && ended.radioUrl.Some? && ended.radioUrl.value != "" then
      Reconnect(ended, ended.radioUrl.value, ok, env).0
    else OnTrackEnd(p, perm, ok, env)
  }

  /** A stream that drops and fails its first reconnection but would then
      connect stays silent as written and plays again as intended. */
  lemma DroppedStreamStaysSilent(p: Player, perm: seq<string>, env: Env)
    requires PlayerOk(p) && multiset(perm) == multiset(p.playlist)
    requires p.kind == RadioKind && p.radioUrl.Some? && p.radioUrl.value != ""
    ensures var ok := [false, true, true, true, true, true, true, true, true, true];
            && !IsPlaying(OnTrackEnd(p, perm, ok, env))
            && IsPlaying(OnTrackEndCorrected(p, perm, ok, env))
  {
    var ok := [false, true, true, true, true, true, true, true, true, true];
    assert ok[1];
  }

  /** Once a track of the playlist is missing, the playlist halts: the kind
      is cleared and later track ends play nothing. */
  lemma MissingTrackHaltsPlaylist(p: Player, perm: seq<string>, ok: seq<bool>, env: Env)
    requires PlayerOk(p) && multiset(perm) == multiset(p.playlist) && |ok| >= MaxAttempts
    requires p.kind == PlaylistKind && p.index + 1 < |p.playlist| && !p.repeat
    requires TrackPath(env.musicDir, p.playlist[p.index + 1]) !in env.fs
    ensures var r := OnTrackEnd(p, perm, ok, env);
            && r.kind == NoKind && !IsPlaying(r) && r.index == p.index + 1
            && OnTrackEnd(r, perm, ok, env) == r
  {
  }

  /** `n` successive track ends, the playlist reshuffled into itself and
      the reconnection attempts answered by `ok`. */
  function EndTracks(p: Player, n: nat, ok: seq<bool>, env: Env): (r: Player)
    requires PlayerOk(p) && |ok| >= MaxAttempts
    ensures PlayerOk(r)
    ensures r.playlist == p.playlist && r.repeat == p.repeat
  {
    if n == 0 then p
    else
      var q := EndTracks(p, n - 1, ok, env);
      OnTrackEnd(q, q.playlist, ok, env)
  }

  /** With every track present, `n` track ends after the first track has
      started leave the player on track `n`, still in playlist mode. */
  lemma {:induction false} PlaylistAdvances(p: Player, n: nat, ok: seq<bool>, env: Env)
    requires PlayerOk(p) && p.kind == PlaylistKind && p.index == 0 && env.backendOk && !p.repeat
    requires p.source == Some(TrackPath(env.musicDir, p.playlist[0]))
    requires forall t :: t in p.playlist ==> TrackPath(env.musicDir, t) in env.fs
    requires n < |p.playlist| && |ok| >= MaxAttempts
    ensures EndTracks(p, n, ok, env).kind == PlaylistKind
    ensures EndTracks(p, n, ok, env).index == n
    ensures EndTracks(p, n, ok, env).playlist == p.playlist
    ensures EndTracks(p, n, ok, env).source == Some(TrackPath(env.musicDir, p.playlist[n]))
  {
    if n > 0 {
      var m := n - 1;
      var q := EndTracks(p, m, ok, env);
      PlaylistAdvances(p, m, ok, env);
      assert p.playlist[n] in p.playlist;
      TrackEndAdvances(q, n, ok, env);
      EndTracksStep(p, m, n, ok, env);
    }
  }

  lemma EndTracksStep(p: Player, m: nat, n: nat, ok: seq<bool>, env: Env)
    requires PlayerOk(p) && |ok| >= MaxAttempts && n == m + 1
    ensures var q := EndTracks(p, m, ok, env);
            EndTracks(p, n, ok, env) == OnTrackEnd(q, q.playlist, ok, env)
  {
  }

  /** A track end inside the playlist, the next track present, plays it. */
  lemma TrackEndAdvances(q: Player, k: nat, ok: seq<bool>, env: Env)
    requires PlayerOk(q) && q.kind == PlaylistKind && k == q.index + 1 && k < |q.playlist| && env.backendOk && |ok| >= MaxAttempts
    requires TrackPath(env.musicDir, q.playlist[k]) in env.fs
    ensures var r := OnTrackEnd(q, q.playlist, ok, env);
            && r.kind == PlaylistKind && r.index == k && r.playlist == q.playlist
            && r.source == Some(TrackPath(env.musicDir, q.playlist[k]))
  {
  }
}
