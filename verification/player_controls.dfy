/**
 * The component-local rules of the now-playing screen
 * (src/components/MusicPlayer.tsx): repeat and shuffle buttons, the
 * play/pause button, seeking, the reset on a song change and the
 * end-of-track decision. The `<audio>` element is reduced to the three
 * things these rules touch: its playback position, whether it plays, and
 * whether it stands at the end of a track it played through.
 */
module PlayerControls {
  import opened Options
  import Playback

  /** Repeat modes, as the component numbers them. */
  const NoRepeat: nat := 0
  const RepeatAll: nat := 1
  const RepeatOne: nat := 2

  /**
   * What the handlers do to the media element (`audioRef.current`). `ended`
   * is the HTML media rules' "ended playback": the track played through to
   * its end, and a later `play()` starts it again from position 0.
   */
  datatype Audio = Audio(position: int, playing: bool, ended: bool)

  /** The component's React state; `songId` is the id of the `song` prop it last reset for. */
  datatype Controls = Controls(
    songId: string,
    isPlaying: bool,
    currentTime: int,
    isShuffle: bool,
    repeatMode: nat)

  /** The component: its state and its media element, which may not be mounted (`null`). */
  datatype Component = Component(state: Controls, audio: Option<Audio>)

  /** The state right after mounting for a song: paused at 0, no shuffle, no repeat. */
  function Mount(songId: string, audio: Option<Audio>): (c: Component)
    ensures !c.state.isPlaying && c.state.currentTime == 0
    ensures !c.state.isShuffle && c.state.repeatMode == NoRepeat
  {
    Component(Controls(songId, false, 0, false, NoRepeat), audio)
  }

  /** `toggleRepeat`: the next mode in the cycle off → all → one → off; nothing else changes. */
  function ToggleRepeat(c: Controls): (r: Controls)
    ensures r.repeatMode < 3
    ensures (r.repeatMode + 2) % 3 == c.repeatMode % 3
    ensures r.(repeatMode := c.repeatMode) == c
  {
    c.(repeatMode := (c.repeatMode + 1) % 3)
  }

  /** Three presses of the repeat button return to the starting mode, and fewer do not. */
  lemma RepeatCycle(c: Controls)
    requires c.repeatMode < 3
    ensures ToggleRepeat(ToggleRepeat(ToggleRepeat(c))) == c
    ensures ToggleRepeat(c) != c && ToggleRepeat(ToggleRepeat(c)) != c
  {
  }

  /** `toggleShuffle`: the shuffle flag flips; nothing else changes. */
  function ToggleShuffle(c: Controls): (r: Controls)
    ensures r.isShuffle != c.isShuffle
    ensures r.(isShuffle := c.isShuffle) == c
  {
    c.(isShuffle := !c.isShuffle)
  }

  lemma ShuffleTwice(c: Controls)
    ensures ToggleShuffle(ToggleShuffle(c)) == c
  {
  }

  /**
   * `togglePlayPause`: the flag flips; the media element, when mounted, is
   * told to play when the flag turns on and to pause when it turns off. By
   * the HTML media rules, `play()` on an element whose track has ended first
   * seeks back to position 0; `pause()` leaves the position alone.
   */
  function TogglePlayPause(p: Component): (r: Component)
    ensures r.state.isPlaying != p.state.isPlaying
    ensures r.state.(isPlaying := p.state.isPlaying) == p.state
    ensures r.audio.Some? <==> p.audio.Some?
    ensures r.audio.Some? ==> r.audio.value.playing == r.state.isPlaying
    ensures p.audio.Some? && p.state.isPlaying ==> r.audio == Some(p.audio.value.(playing := false))
    ensures p.audio.Some? && !p.state.isPlaying ==>
              && !r.audio.value.ended
              && r.audio.value.position == (if p.audio.value.ended then 0 else p.audio.value.position)
  {
    var audio :=
      if p.audio.None? then None
      else if p.state.isPlaying then Some(p.audio.value.(playing := false))
      else if p.audio.value.ended then Some(Audio(0, true, false))
      else Some(p.audio.value.(playing := true));
    Component(p.state.(isPlaying := !p.state.isPlaying), audio)
  }

  /** The element agrees with the flag (always true once the button has been pressed). */
  ghost predicate InSync(p: Component) {
    p.audio.Some? ==> p.audio.value.playing == p.state.isPlaying
  }

  /** The element stands at the end of a track it played through. */
  ghost predicate AtTrackEnd(p: Component) {
    p.audio.Some? && p.audio.value.ended
  }

  /**
   * Pressing play/pause twice restores the component exactly when element and
   * flag agreed and the track had not ended: an ended track restarts at 0.
   */
  lemma PlayPauseTwice(p: Component)
    ensures TogglePlayPause(TogglePlayPause(p)) == p <==> InSync(p) && !AtTrackEnd(p)
  {
  }

  /**
   * `onSeek(value)`: with the element mounted, both its position and the shown
   * time become `value[0]`; without it nothing changes. An empty `value` makes
   * the position `undefined`, which the element refuses by throwing before the
   * shown time is set, so nothing changes either.
   */
  function Seek(p: Component, value: seq<int>): (r: Component)
    ensures p.audio.None? || |value| == 0 ==> r == p
    ensures p.audio.Some? && |value| > 0 ==>
              && r.state.currentTime == value[0]
              && r.audio == Some(p.audio.value.(position := value[0], ended := false))
              && r.state.(currentTime := p.state.currentTime) == p.state
  {
    if p.audio.None? || |value| == 0 then p
    else Component(p.state.(currentTime := value[0]), Some(p.audio.value.(position := value[0], ended := false)))
  }

  /** Seeking twice is seeking to the second value: the earlier seek leaves no trace. */
  lemma SeekLastWins(p: Component, first: seq<int>, second: seq<int>)
    requires |second| > 0
    ensures Seek(Seek(p, first), second) == Seek(p, second)
  {
  }

  /**
   * The render for a new `song` prop and the effect keyed on `song.id`. A new
   * `src` makes the element reload, which by the HTML media rules stops it at
   * position 0; the effect then resets the shown time to 0 and restarts the
   * element when the flag is set. The same id changes nothing.
   */
  function SongChanged(p: Component, newId: string): (r: Component)
    ensures newId == p.state.songId ==> r == p
    ensures newId != p.state.songId ==>
              && r.state.songId == newId
              && r.state.currentTime == 0
              && r.state.(songId := p.state.songId, currentTime := p.state.currentTime) == p.state
              && (r.audio.Some? <==> p.audio.Some?)
              && (r.audio.Some? ==> r.audio.value == Audio(0, p.state.isPlaying, false))
  {
    if newId == p.state.songId then p
    else
      var audio := if p.audio.Some? then Some(Audio(0, p.state.isPlaying, false)) else None;
      Component(p.state.(songId := newId, currentTime := 0), audio)
  }

  /** The reset runs once per new id: rendering the same song again changes nothing more. */
  lemma SongChangedSettles(p: Component, newId: string)
    ensures SongChanged(SongChanged(p, newId), newId) == SongChanged(p, newId)
  {
  }

  /** The result of a track ending: the component and the shared playback state. */
  datatype Ended = Ended(component: Component, player: Playback.PlayerState)

  /**
   * `handleEnded`: in repeat-one mode the element rewinds to 0 and plays again
   * while the queue is left alone; in every other mode `onNext` — the hook's
   * `playNext` — runs once and the component is left alone.
   */
  function HandleEnded(p: Component, player: Playback.PlayerState): (r: Ended)
    ensures p.state.repeatMode == RepeatOne ==>
              && r.player == player
              && r.component.state == p.state
              && (r.component.audio.Some? <==> p.audio.Some?)
              && (r.component.audio.Some? ==> r.component.audio == Some(Audio(0, true, false)))
    ensures p.state.repeatMode != RepeatOne ==>
              r.component == p && r.player == Playback.PlayNext(player)
  {
    if p.state.repeatMode == RepeatOne then
      var audio := if p.audio.Some? then Some(Audio(0, true, false)) else None;
      Ended(p.(audio := audio), player)
    else Ended(p, Playback.PlayNext(player))
  }

  /** "No repeat" and "repeat all" end a track identically: both advance, wrapping at the end. */
  lemma NoRepeatActsAsRepeatAll(p: Component, player: Playback.PlayerState)
    ensures HandleEnded(p.(state := p.state.(repeatMode := NoRepeat)), player).player
         == HandleEnded(p.(state := p.state.(repeatMode := RepeatAll)), player).player
  {
  }

  /**
   * With distinct ids, the end of the last queued track in a mode other than
   * repeat-one selects the first queued track: the queue wraps around.
   */
  lemma EndOfQueueWraps(p: Component, player: Playback.PlayerState)
    requires p.state.repeatMode != RepeatOne
    requires Playback.DistinctIds(player.queue) && |player.queue| > 0
    requires player.current == Some(player.queue[|player.queue| - 1])
    ensures HandleEnded(p, player).player.current == Some(player.queue[0])
  {
    assert Playback.At(player, |player.queue| - 1) == player;
    Playback.NextFromQueued(player, |player.queue| - 1);
  }

  /**
   * The element reaching the end of its track. By the HTML media rules a
   * playing element pauses first and fires `pause`, whose listener clears the
   * flag, before `ended` fires; the element is then in "ended playback".
   * With no element nothing happens.
   */
  function ElementEnds(p: Component): (r: Component)
    ensures p.audio.None? ==> r == p
    ensures p.audio.Some? ==>
              && !r.state.isPlaying
              && r.state.(isPlaying := p.state.isPlaying) == p.state
              && r.audio == Some(p.audio.value.(playing := false, ended := true))
  {
    if p.audio.None? then p
    else Component(p.state.(isPlaying := false), Some(p.audio.value.(playing := false, ended := true)))
  }

  /** The `play` listener: an element that has started playing sets the flag. */
  function PlayEvent(p: Component): (r: Component)
    ensures r.audio == p.audio
    ensures r.state.isPlaying <==> p.state.isPlaying || (p.audio.Some? && p.audio.value.playing)
    ensures r.state.(isPlaying := p.state.isPlaying) == p.state
  {
    if p.audio.Some? && p.audio.value.playing then p.(state := p.state.(isPlaying := true)) else p
  }

  /**
   * One track end as the component sees it: the element pauses (`pause`
   * listener), `handleEnded` runs, and a restarted element fires `play`.
   * In repeat-one a mounted element plays again from 0 with the flag set
   * and the queue is untouched; in any other mode the hook's next runs once
   * and the element stays paused at its end with the flag cleared.
   */
  function TrackEnds(p: Component, player: Playback.PlayerState): (r: Ended)
    ensures p.state.repeatMode == RepeatOne ==>
              && r.player == player
              && r.component == (if p.audio.Some? then Component(p.state.(isPlaying := true), Some(Audio(0, true, false))) else p)
    ensures p.state.repeatMode != RepeatOne ==>
              && r == Ended(ElementEnds(p), Playback.PlayNext(player))
              && r.component.state.(isPlaying := p.state.isPlaying) == p.state
              && (p.audio.Some? ==> !r.component.state.isPlaying
                                    && r.component.audio == Some(p.audio.value.(playing := false, ended := true)))
  {
    var e := HandleEnded(ElementEnds(p), player);
    Ended(PlayEvent(e.component), e.player)
  }

  /** `ends` consecutive track ends, the component re-rendering for the current song after each. */
  function EndedTimes(p: Component, player: Playback.PlayerState, ends: nat): Ended {
    if ends == 0 then Ended(p, player)
    else
      var before := EndedTimes(p, player, ends - 1);
      var e := TrackEnds(before.component, before.player);
      var id := if e.player.current.Some? then e.player.current.value.id else e.component.state.songId;
      Ended(SongChanged(e.component, id), e.player)
  }

  /**
   * Repeat-one never changes the song: after any number of ends the current
   * song and the queue are what they were, and after at least one end a
   * mounted element is playing again from the start with the flag set.
   */
  lemma {:induction false} RepeatOneKeepsSong(p: Component, player: Playback.PlayerState, ends: nat)
    requires p.state.repeatMode == RepeatOne
    ensures EndedTimes(p, player, ends).player == player
    ensures EndedTimes(p, player, ends).component.state.repeatMode == RepeatOne
    ensures EndedTimes(p, player, ends).component.audio.Some? <==> p.audio.Some?
    ensures ends > 0 && p.audio.Some? ==>
              && EndedTimes(p, player, ends).component.audio == Some(Audio(0, true, false))
              && EndedTimes(p, player, ends).component.state.isPlaying
  {
    if ends > 0 {
      RepeatOneKeepsSong(p, player, ends - 1);
      var before := EndedTimes(p, player, ends - 1);
      var e := TrackEnds(before.component, before.player);
      assert e.player == player;
      assert e.component.state.repeatMode == RepeatOne;
      assert e.component.audio.Some? <==> p.audio.Some?;
    }
  }

  /**
   * Outside repeat-one, with distinct ids and at least two queued songs, the end
   * of the shown track moves to another song and the re-render resets the shown
   * time; the end-of-track pause has cleared the flag, so the re-render does not
   * restart the reloaded element and the next song waits paused at its start.
   */
  lemma EndMovesOnAndStops(p: Component, player: Playback.PlayerState)
    requires p.state.repeatMode != RepeatOne
    requires Playback.DistinctIds(player.queue) && |player.queue| >= 2
    requires Playback.CurrentQueued(player) && p.state.songId == player.current.value.id
    requires p.audio.Some?
    ensures var e := EndedTimes(p, player, 1);
            && e.player == Playback.PlayNext(player)
            && e.component.state.songId != p.state.songId
            && e.component.state.currentTime == 0
            && !e.component.state.isPlaying
            && e.component.audio == Some(Audio(0, false, false))
  {
    var i := Playback.CurrentIndex(player);
    assert Playback.At(player, i) == player;
    Playback.NextFromQueued(player, i);
    var j := Playback.RingNext(i, |player.queue|);
    assert j != i;
    assert player.queue[j].id != player.queue[i].id;
  }

  /**
   * Outside repeat-one, when the only queued song is shown and ends, "next"
   * selects the same song, so the reset effect does not run: the component
   * keeps its shown time and the element stays paused at the end of the track.
   */
  lemma SingleSongEndStops(p: Component, player: Playback.PlayerState)
    requires p.state.repeatMode != RepeatOne
    requires |player.queue| == 1 && player.current == Some(player.queue[0])
    requires p.state.songId == player.queue[0].id
    ensures var e := EndedTimes(p, player, 1);
            && e.player == player
            && e.component.state.songId == p.state.songId
            && e.component.state.currentTime == p.state.currentTime
            && (p.audio.Some? ==> !e.component.state.isPlaying
                                  && e.component.audio == Some(p.audio.value.(playing := false, ended := true)))
  {
    Playback.SingleSongQueueNext(player);
  }

  /**
   * After the only queued song has ended outside repeat-one, pressing play
   * starts it again from position 0, as `play()` on an ended element does.
   */
  lemma PlayAfterEndRestarts(p: Component, player: Playback.PlayerState)
    requires p.state.repeatMode != RepeatOne
    requires |player.queue| == 1 && player.current == Some(player.queue[0])
    requires p.state.songId == player.queue[0].id
    requires p.audio.Some?
    ensures var r := TogglePlayPause(EndedTimes(p, player, 1).component);
            && r.state.isPlaying
            && r.state.currentTime == p.state.currentTime
            && r.audio == Some(Audio(0, true, false))
  {
  }
}
