/**
 * The music window's player logic: moving through the playlist, the
 * play/pause button, the "m:ss" time display and the volume bar. The audio
 * element itself is not modelled; the player's requests to it are results.
 */
module MusicPlayer {
  import opened Wrappers
  import opened Strings

  datatype Song = Song(id: int, title: string)

  datatype PlayerState = PlayerState(songs: seq<Song>, current: Option<Song>, isPlaying: bool)

  /**
   * `songs.findIndex(song => song.id === currentSong?.id)`: the first song with
   * the current song's id, or -1 when there is no current song or it is not listed.
   */
  function IndexOfCurrent(songs: seq<Song>, current: Option<Song>): (i: int)
    ensures -1 <= i < |songs|
    ensures i >= 0 ==> current.Some? && songs[i].id == current.value.id
                       && forall j :: 0 <= j < i ==> songs[j].id != current.value.id
    ensures i == -1 <==> current.None? || forall j :: 0 <= j < |songs| ==> songs[j].id != current.value.id
    decreases |songs|
  {
    if current.None? || |songs| == 0 then -1
    else if songs[0].id == current.value.id then 0
    else
      var rest := IndexOfCurrent(songs[1..], current);
      if rest == -1 then -1 else rest + 1
  }

  /**
   * The next button's handler: the song after the current one, when there is
   * one. An unlisted current song has index -1, so the handler picks the first
   * song. With no current song it would do the same, but the button is
   * disabled then (see NextEnabled).
   */
  function PlayNext(s: PlayerState): (r: PlayerState)
    ensures r.songs == s.songs && r.isPlaying == s.isPlaying
    ensures IndexOfCurrent(s.songs, s.current) < |s.songs| - 1
            ==> r.current == Some(s.songs[IndexOfCurrent(s.songs, s.current) + 1])
    ensures IndexOfCurrent(s.songs, s.current) == |s.songs| - 1 ==> r.current == s.current
  {
    var i := IndexOfCurrent(s.songs, s.current);
    if i < |s.songs| - 1 then s.(current := Some(s.songs[i + 1])) else s
  }

  /**
   * The audio element reports the end of the song (it has a source, so a song is
   * current): playing stops, and the next song (if any) is selected.
   */
  function SongEnded(s: PlayerState): (r: PlayerState)
    ensures !r.isPlaying && r.songs == s.songs
    ensures r.current == PlayNext(s).current
  {
    PlayNext(s).(isPlaying := false)
  }

  /** The previous button: the song before the current one, when the current one is not the first. */
  function PlayPrevious(s: PlayerState): (r: PlayerState)
    ensures r.songs == s.songs && r.isPlaying == s.isPlaying
    ensures IndexOfCurrent(s.songs, s.current) > 0 ==> r.current == Some(s.songs[IndexOfCurrent(s.songs, s.current) - 1])
    ensures IndexOfCurrent(s.songs, s.current) <= 0 ==> r == s
  {
    var i := IndexOfCurrent(s.songs, s.current);
    if i > 0 then s.(current := Some(s.songs[i - 1])) else s
  }

  /** Picking a song from the list makes it current. */
  function SongSelected(s: PlayerState, song: Song): (r: PlayerState)
    ensures r.current == Some(song) && r.songs == s.songs && r.isPlaying == s.isPlaying
  {
    s.(current := Some(song))
  }

  /** What the play/pause button asks of the audio element. */
  datatype AudioRequest = NoRequest | PauseAudio | PlayAudio

  /**
   * The play/pause button: nothing without an audio element; with no current
   * song, the first song is selected (if there is one) and playback is left to
   * the song-change effect; otherwise pause when playing and play when not.
   */
  function PlayPause(s: PlayerState, hasAudio: bool): (r: (PlayerState, AudioRequest))
    ensures !hasAudio ==> r == (s, NoRequest)
    ensures hasAudio && s.current.None? && |s.songs| > 0 ==> r == (s.(current := Some(s.songs[0])), NoRequest)
    ensures hasAudio && s.current.None? && |s.songs| == 0 ==> r == (s, NoRequest)
    ensures hasAudio && s.current.Some? ==> r.0 == s && (r.1 == PauseAudio <==> s.isPlaying) && r.1 != NoRequest
  {
    if !hasAudio then (s, NoRequest)
    else if s.current.None? then
      (if |s.songs| > 0 then s.(current := Some(s.songs[0])) else s, NoRequest)
    else if s.isPlaying then (s, PauseAudio)
    else (s, PlayAudio)
  }

  /**
   * The song-change effect, after a new current song: playing is switched off,
   * the song is reloaded, and playing is switched on once playback starts
   * (`started`) or stays off when it is refused. Without audio or a current
   * song the effect does nothing.
   */
  function SongChangeEffect(s: PlayerState, hasAudio: bool, started: bool): (r: PlayerState)
    ensures r.songs == s.songs && r.current == s.current
    ensures hasAudio && s.current.Some? ==> (r.isPlaying <==> started)
    ensures !hasAudio || s.current.None? ==> r == s
  {
    if !hasAudio || s.current.None? then s else s.(isPlaying := started)
  }

  /**
   * The audio element answering a request through its `play`/`pause` events: a
   * pause always switches playing off; a play switches it on when playback
   * starts (`started`), and the refusal handler switches it off otherwise.
   */
  function AudioAnswered(s: PlayerState, req: AudioRequest, started: bool): (r: PlayerState)
    ensures r.songs == s.songs && r.current == s.current
    ensures req == NoRequest ==> r == s
    ensures req == PauseAudio ==> !r.isPlaying
    ensures req == PlayAudio ==> (r.isPlaying <==> started)
  {
    match req
    case NoRequest => s
    case PauseAudio => s.(isPlaying := false)
    case PlayAudio => s.(isPlaying := started)
  }

  /** One press of the play/pause button followed by the audio element's answer. */
  function Press(s: PlayerState, started: bool): (r: PlayerState)
    ensures r.songs == s.songs
  {
    var (s', req) := PlayPause(s, true);
    AudioAnswered(s', req, started)
  }

  /** With a current song, each press flips playing (when playback is allowed), so two presses are a round trip. */
  lemma PressFlipsAndTwiceReturns(s: PlayerState)
    requires s.current.Some?
    ensures Press(s, true).isPlaying == !s.isPlaying && Press(s, true).current == s.current
    ensures Press(Press(s, true), true) == s
  {
  }

  /**
   * With no current song the first press only selects the first song; the
   * song-change effect then starts it, so the second press pauses it.
   */
  lemma FirstPressesFromNoSong(s: PlayerState)
    requires s.current.None? && |s.songs| > 0
    ensures var first := Press(s, true);
            first.current == Some(s.songs[0]) && first.isPlaying == s.isPlaying
            && var started := SongChangeEffect(first, true, true);
               started.isPlaying && PlayPause(started, true).1 == PauseAudio
  {
  }

  /**
   * Picking a listed song (with distinct ids) puts the player at its position,
   * so next and previous move from there, and the song-change effect starts it.
   */
  lemma SelectedSongIsWhereNavigationStarts(s: PlayerState, i: nat)
    requires DistinctIds(s.songs) && i < |s.songs|
    ensures IndexOfCurrent(s.songs, SongSelected(s, s.songs[i]).current) == i
    ensures i + 1 < |s.songs| ==> PlayNext(SongSelected(s, s.songs[i])).current == Some(s.songs[i + 1])
    ensures i > 0 ==> PlayPrevious(SongSelected(s, s.songs[i])).current == Some(s.songs[i - 1])
    ensures SongChangeEffect(SongSelected(s, s.songs[i]), true, true).isPlaying
  {
    IndexOfListedSong(s.songs, i);
  }

  // ---------------------------------------------------------------- button states

  /** Previous is disabled with no current song or at the first song. */
  predicate PreviousEnabled(s: PlayerState)
  {
    s.current.Some? && IndexOfCurrent(s.songs, s.current) != 0
  }

  /** Play/pause is disabled only with no current song and an empty list. */
  predicate PlayPauseEnabled(s: PlayerState)
  {
    s.current.Some? || |s.songs| > 0
  }

  /** Next is disabled with no current song or at the last song. */
  predicate NextEnabled(s: PlayerState)
  {
    s.current.Some? && IndexOfCurrent(s.songs, s.current) != |s.songs| - 1
  }

  /** With no current song only play/pause can be pressed, and only when there is a song to start. */
  lemma NoSongDisablesNavigation(s: PlayerState)
    requires s.current.None?
    ensures !PreviousEnabled(s) && !NextEnabled(s)
    ensures PlayPauseEnabled(s) <==> |s.songs| > 0
  {
  }

  /**
   * An enabled next button always changes the song: to the following one when
   * the current song is listed, to the first one when it is not. A disabled one
   * with a current song would change nothing.
   */
  lemma NextEnabledChangesSong(s: PlayerState)
    requires DistinctIds(s.songs)
    ensures NextEnabled(s) ==> PlayNext(s).current != s.current
    ensures !NextEnabled(s) && s.current.Some? ==> PlayNext(s) == s
  {
    var i := IndexOfCurrent(s.songs, s.current);
    if NextEnabled(s) && i >= 0 {
      assert s.songs[i + 1].id != s.songs[i].id;
    }
  }

  /**
   * An enabled previous button changes the song exactly when the current song is
   * listed; for an unlisted one it is enabled yet does nothing.
   */
  lemma PreviousEnabledChangesSong(s: PlayerState)
    requires DistinctIds(s.songs)
    ensures PreviousEnabled(s) ==> (PlayPrevious(s).current != s.current <==> IndexOfCurrent(s.songs, s.current) > 0)
    ensures !PreviousEnabled(s) ==> PlayPrevious(s) == s
  {
    var i := IndexOfCurrent(s.songs, s.current);
    if PreviousEnabled(s) && i > 0 {
      assert s.songs[i - 1].id != s.songs[i].id;
    }
  }

  /** The play/pause button is enabled exactly when pressing it (with audio) changes the state or asks the audio element for something. */
  lemma PlayPauseEnabledIffEffective(s: PlayerState)
    ensures PlayPauseEnabled(s) <==> PlayPause(s, true) != (s, NoRequest)
  {
    if s.current.None? && |s.songs| > 0 {
      assert PlayPause(s, true).0.current != s.current;
    }
  }

  /** Song ids tell the songs apart. */
  predicate DistinctIds(songs: seq<Song>)
  {
    forall i, j :: 0 <= i < j < |songs| ==> songs[i].id != songs[j].id
  }

  /** With distinct ids, the listed song at position `i` is found at `i`. */
  lemma IndexOfListedSong(songs: seq<Song>, i: nat)
    requires DistinctIds(songs) && i < |songs|
    ensures IndexOfCurrent(songs, Some(songs[i])) == i
  {
  }

  /** Next then previous comes back to the same song, unless it was the last one. */
  lemma NextThenPreviousReturns(s: PlayerState, i: nat)
    requires DistinctIds(s.songs) && i + 1 < |s.songs| && s.current == Some(s.songs[i])
    ensures PlayPrevious(PlayNext(s)) == s
  {
    IndexOfListedSong(s.songs, i);
    IndexOfListedSong(s.songs, i + 1);
  }

  /** Previous then next comes back to the same song, unless it was the first one. */
  lemma PreviousThenNextReturns(s: PlayerState, i: nat)
    requires DistinctIds(s.songs) && 0 < i < |s.songs| && s.current == Some(s.songs[i])
    ensures PlayNext(PlayPrevious(s)) == s
  {
    IndexOfListedSong(s.songs, i);
    IndexOfListedSong(s.songs, i - 1);
  }

  /** Pressing next `n` times. */
  function PlayNextTimes(s: PlayerState, n: nat): PlayerState
    decreases n
  {
    if n == 0 then s else PlayNextTimes(PlayNext(s), n - 1)
  }

  /** Pressing next repeatedly walks down the list and stops at the last song. */
  lemma PlayNextStopsAtLast(s: PlayerState, i: nat, n: nat)
    requires DistinctIds(s.songs) && i < |s.songs| && s.current == Some(s.songs[i])
    ensures var last := |s.songs| - 1;
            PlayNextTimes(s, n).current == Some(s.songs[if i + n < last then i + n else last])
  {
    forall m | 0 <= m < |s.songs|
      ensures IndexOfCurrent(s.songs, Some(s.songs[m])) == m
    {
      IndexOfListedSong(s.songs, m);
    }
    WalkToLast(s, i, n);
  }

  /** The induction behind PlayNextStopsAtLast, given that every listed song is found at its own position. */
  lemma {:induction false} WalkToLast(s: PlayerState, i: nat, n: nat)
    requires i < |s.songs| && s.current == Some(s.songs[i])
    requires forall m {:trigger IndexOfCurrent(s.songs, Some(s.songs[m]))} ::
               0 <= m < |s.songs| ==> IndexOfCurrent(s.songs, Some(s.songs[m])) == m
    ensures var last := |s.songs| - 1;
            PlayNextTimes(s, n).current == Some(s.songs[if i + n < last then i + n else last])
    decreases n
  {
    if n > 0 {
      assert IndexOfCurrent(s.songs, s.current) == i;
      var t := PlayNext(s);
      var j := if i + 1 < |s.songs| then i + 1 else i;
      assert t.songs == s.songs && t.current == Some(s.songs[j]);
      WalkToLast(t, j, n - 1);
      assert PlayNextTimes(s, n) == PlayNextTimes(t, n - 1);
    }
  }

  // ---------------------------------------------------------------- time display

  /** A time in seconds as the audio element reports it: a number, or NaN before the length is known. */
  datatype Seconds = NaN | Num(value: real)

  /** Rounding toward zero. */
  function Trunc(x: real): (r: int)
    ensures x >= 0.0 ==> r == x.Floor
    ensures x < 0.0 ==> r == -((-x).Floor)
  {
    if x >= 0.0 then x.Floor else -((-x).Floor)
  }

  /** JavaScript's `%` on numbers: the remainder takes the sign of the dividend. */
  function JsRem(x: real, m: real): (r: real)
    requires m > 0.0
    ensures x >= 0.0 ==> r == x - m * ((x / m).Floor as real)
  {
    x - m * (Trunc(x / m) as real)
  }

  /** `formatTime`: minutes, a colon, and the whole seconds padded to two digits; NaN shows as "0:00". */
  function FormatTime(t: Seconds): (s: string)
    ensures t.NaN? ==> s == "0:00"
  {
    match t
    case NaN => "0:00"
    case Num(x) =>
      var minutes := (x / 60.0).Floor;
      var seconds := JsRem(x, 60.0).Floor;
      IntToString(minutes) + ":" + PadStart(IntToString(seconds), 2, '0')
  }

  lemma FloorMinusInt(x: real, k: int)
    ensures (x - k as real).Floor == x.Floor - k
  {
  }

  /** For a non-negative time, the minutes and seconds fields. */
  lemma MinutesAndSeconds(x: real)
    requires x >= 0.0
    ensures var m := (x / 60.0).Floor;
            var sec := JsRem(x, 60.0).Floor;
            m >= 0 && 0 <= sec < 60 && m * 60 + sec == x.Floor
  {
    var m := (x / 60.0).Floor;
    assert m as real <= x / 60.0 < m as real + 1.0;
    assert JsRem(x, 60.0) == x - (60 * m) as real;
    FloorMinusInt(x, 60 * m);
  }

  /** A digit string has no colon in it. */
  lemma DigitsHaveNoColon(s: string)
    requires forall i :: 0 <= i < |s| ==> IsDigit(s[i])
    ensures ':' !in s
  {
    forall i | 0 <= i < |s|
      ensures s[i] != ':'
    {
      assert IsDigit(s[i]);
    }
  }

  /** The seconds field: two digits whose value is the seconds. */
  lemma SecondsField(sec: nat)
    requires sec < 60
    ensures var p := PadStart(NatToString(sec), 2, '0');
            |p| == 2 && (forall i :: 0 <= i < 2 ==> IsDigit(p[i])) && DigitsValue(p) == sec
  {
    var ss := NatToString(sec);
    var p := PadStart(ss, 2, '0');
    DigitsValueOfNatToString(sec);
    if sec < 10 {
      assert |ss| == 1;
      assert p == "0" + ss;
      DigitsValueLeadingZero(ss);
    } else {
      assert ss == NatToString(sec / 10) + [DigitChar(sec % 10)];
      assert |ss| == 2;
      assert p == ss;
    }
  }

  /**
   * For a non-negative time the display splits at the colon into a minutes field
   * and a two-digit seconds field below 60, and reading them back gives the
   * whole number of seconds.
   */
  lemma FormatTimeReadsBack(x: real)
    requires x >= 0.0
    ensures var parts := Split(FormatTime(Num(x)), ':');
            |parts| == 2 && |parts[1]| == 2
            && (forall i :: 0 <= i < |parts[0]| ==> IsDigit(parts[0][i]))
            && (forall i :: 0 <= i < 2 ==> IsDigit(parts[1][i]))
            && DigitsValue(parts[1]) < 60
            && DigitsValue(parts[0]) * 60 + DigitsValue(parts[1]) == x.Floor
  {
    MinutesAndSeconds(x);
    var m: nat := (x / 60.0).Floor;
    var sec: nat := JsRem(x, 60.0).Floor;
    var ms := NatToString(m);
    var padded := PadStart(NatToString(sec), 2, '0');
    assert FormatTime(Num(x)) == ms + ":" + padded;
    DigitsValueOfNatToString(m);
    SecondsField(sec);
    DigitsHaveNoColon(ms);
    DigitsHaveNoColon(padded);
    SplitAtSeparator(ms, padded, ':');
    SplitWithoutSeparator(ms, ':');
    SplitWithoutSeparator(padded, ':');
  }

  // ---------------------------------------------------------------- volume

  /** The volume bar: the click's fraction of the bar's width, clamped into [0, 1]. */
  function VolumeFromClick(fraction: real): (v: real)
    ensures 0.0 <= v <= 1.0
    ensures 0.0 <= fraction <= 1.0 ==> v == fraction
    ensures fraction < 0.0 ==> v == 0.0
    ensures fraction > 1.0 ==> v == 1.0
  {
    if fraction < 0.0 then 0.0 else if fraction > 1.0 then 1.0 else fraction
  }

  /** A volume the bar produced is left alone by a second clamp. */
  lemma VolumeClampIdempotent(fraction: real)
    ensures VolumeFromClick(VolumeFromClick(fraction)) == VolumeFromClick(fraction)
  {
  }
}
