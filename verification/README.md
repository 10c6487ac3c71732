# soundblur player core in Dafny

This project models the playback logic of the soundblur web music player:

- the `useMusicPlayer` hook's queue state machine: play a song, an album, an artist or the whole catalog; pause, resume and toggle; next and previous with wrap-around;
- the now-playing component's local rules: repeat and shuffle buttons, the play/pause flag, seeking, the reset when the song changes, and what happens when a track ends;
- the `m:ss` time formatting shared by the player and the track list;
- the library page's three case-insensitive search filters;
- the explore page's featured albums, its grouping of albums by year, and its newest-first list of years.

Every operation is a pure function over immutable datatypes. React's batched `setState` calls inside one handler become one record update, computed from the state as it was when the handler started. JavaScript's `find`, `findIndex` and `filter` are modelled once, in `Seqs`. The track-end rules also model the two listeners the `<audio>` element carries, following the HTML media rules: a track that ends pauses first, so the `pause` listener clears the component's playing flag before `handleEnded` runs. As a consequence, outside repeat-one the next song is selected but waits paused at its start. `undefined` and `null` songs are both `None`.

Modules:

| module | file | models |
|---|---|---|
| `Options` | options.dfy | optional values |
| `Music` | music.dfy | `Song`, `Album`, `Artist` (src/types/musicContext.ts) and the catalog the hook reads |
| `Seqs` | seqs.dfy | `findIndex`, `find`, `filter`, subsequences |
| `Playback` | playback.dfy | src/hooks/useMusicPlayer.ts |
| `PlayerControls` | player_controls.dfy | src/components/MusicPlayer.tsx |
| `TimeFormat` | time_format.dfy | `formatTime` and `formatDuration`: the same expression in two files, modelled once |
| `Search` | search.dfy | src/pages/Library.tsx |
| `Explore` | explore.dfy | src/pages/Explore.tsx |

Several properties hold only when the queue has no two songs with the same id (`Playback.DistinctIds`). The hook locates the current song by its id and takes the first match. With duplicate ids, "next" from a later copy jumps back to the song after the first copy.

## Model

| member | source | states |
|---|---|---|
| Seqs.FindIndex | src/hooks/useMusicPlayer.ts:32 | The result is -1 exactly when no element passes the test; otherwise it is the first position that passes. |
| Seqs.Find | src/hooks/useMusicPlayer.ts:24 | There is no result exactly when no element passes; otherwise the result is the element at the first passing position. |
| Seqs.Filter | src/pages/Library.tsx:24-37 | `Array.prototype.filter`: the result is never longer than the input. What it keeps is stated by FilterMembers, FilterCounts and FilterIsSubsequence. |
| Seqs.FilterMembers | src/pages/Library.tsx:24-37 | An element is in the filtered list if and only if it is in the input and passes the test. |
| Seqs.FilterCounts | src/pages/Library.tsx:24-37 | A passing element keeps every copy it had; a failing one keeps none. |
| Seqs.FilterIsSubsequence | src/pages/Library.tsx:24-37 | The filtered list keeps the input order: it embeds into the input at increasing positions. |
| Playback.Head | src/hooks/useMusicPlayer.ts:36-39 | `songs[0]`: no song exactly for an empty list, otherwise the first song. |
| Playback.SongsOf | src/hooks/useMusicPlayer.ts:49 | A song is in an artist's flattened list exactly when it is on one of the artist's albums. |
| Playback.ArtistQueueLayout | src/hooks/useMusicPlayer.ts:49 | Album k's songs appear unbroken and in their own order, right after the songs of the albums before k. |
| Playback.PlaySong | src/hooks/useMusicPlayer.ts:18-21 | The given song becomes current and plays; the queue and its origin stay as they were. |
| Playback.PlayAlbum | src/hooks/useMusicPlayer.ts:23-43 | An unknown album id changes nothing. Otherwise the first album with that id becomes the queue, with origin album and that id. Play starts at the first song with the requested id when a non-empty id is given and present; otherwise it starts at the first song, or none for an empty album. |
| Playback.PlayArtist | src/hooks/useMusicPlayer.ts:45-55 | An unknown artist id changes nothing. Otherwise the queue is the songs of all of that artist's albums in order, playing from the first song, with origin artist and that id. |
| Playback.PlayAll | src/hooks/useMusicPlayer.ts:57-63 | The whole catalog becomes the queue, with origin "all" and no origin id. Play starts at its first song, or none for an empty catalog. |
| Playback.PauseSong | src/hooks/useMusicPlayer.ts:65-67 | Playing stops and nothing else changes. |
| Playback.ResumeSong | src/hooks/useMusicPlayer.ts:69-73 | The player plays afterwards if and only if it was already playing or has a current song. Nothing else changes. |
| Playback.TogglePlayPause | src/hooks/useMusicPlayer.ts:99-105 | A playing player stops playing. A paused player plays afterwards exactly when it has a current song. Nothing but the playing flag changes. |
| Playback.ToggleTwice | src/hooks/useMusicPlayer.ts:99-105 | Two toggles restore the state, except for one case: playing with no current song. There the pause sticks because resume refuses. |
| Playback.PlayNext | src/hooks/useMusicPlayer.ts:75-85 | With no current song or an empty queue, nothing changes. Otherwise only the current song changes, and the new one comes from the queue. |
| Playback.PlayNextTarget | src/hooks/useMusicPlayer.ts:75-85 | Next selects the entry after the first entry with the current id, wrapping from last to first. A song whose id is not queued moves to the first entry. |
| Playback.PlayPrevious | src/hooks/useMusicPlayer.ts:87-97 | With no current song or an empty queue, nothing changes. Otherwise only the current song changes, and the new one comes from the queue. |
| Playback.PlayPreviousTarget | src/hooks/useMusicPlayer.ts:87-97 | Previous selects the entry before the first entry with the current id, wrapping from first to last. A song whose id is not queued moves to the last entry. |
| Playback.NextFromQueued | src/hooks/useMusicPlayer.ts:78-84 | With distinct ids, next from queue entry j selects entry j+1, or entry 0 after the last. |
| Playback.PreviousFromQueued | src/hooks/useMusicPlayer.ts:90-96 | With distinct ids, previous from queue entry j selects entry j-1, or the last entry before the first. |
| Playback.NextThenPrevious | src/hooks/useMusicPlayer.ts:75-97 | With distinct ids and a queued current song, previous undoes next. |
| Playback.PreviousThenNext | src/hooks/useMusicPlayer.ts:75-97 | With distinct ids and a queued current song, next undoes previous. |
| Playback.NextTimesAdvances | src/hooks/useMusicPlayer.ts:75-85 | With distinct ids, k presses of next from entry i land on entry (i + k) mod the queue length. |
| Playback.NextCyclesQueue | src/hooks/useMusicPlayer.ts:75-85 | With distinct ids, one press of next per queue entry returns to the starting state. |
| Playback.SingleSongQueueNext | src/hooks/useMusicPlayer.ts:79-81 | In a one-song queue, next always selects that song. When that song is already current, the state does not change. |
| Playback.InitialIsIdle | src/hooks/useMusicPlayer.ts:7-11 | The initial state has no song, an empty queue and no origin. So next, previous, pause, resume and toggle all leave it unchanged, and its queue matches its origin. |
| Playback.StepKeepsOrigin | src/hooks/useMusicPlayer.ts:6-105 | Every hook operation keeps the queue equal to the song list that `playingFrom`/`playingFromId` name. The playlist origin is never produced. |
| Playback.ReachableQueueMatchesOrigin | src/hooks/useMusicPlayer.ts:7-11 | From the initial state, after any sequence of operations, the queue is the named source's song list, and the playlist origin is never seen. |
| PlayerControls.Mount | src/components/MusicPlayer.tsx:42-46 | A freshly mounted player is paused at time 0, with shuffle off and no repeat. |
| PlayerControls.ToggleRepeat | src/components/MusicPlayer.tsx:100-102 | The mode stays below 3 and is one step after the old mode modulo 3. Nothing else changes. |
| PlayerControls.RepeatCycle | src/components/MusicPlayer.tsx:100-102 | Three presses of repeat return to the starting mode; one or two presses do not. |
| PlayerControls.ToggleShuffle | src/components/MusicPlayer.tsx:104-106 | The shuffle flag flips and nothing else changes. |
| PlayerControls.ShuffleTwice | src/components/MusicPlayer.tsx:104-106 | Two presses of shuffle restore the state. |
| PlayerControls.TogglePlayPause | src/components/MusicPlayer.tsx:67-76 | The playing flag flips and nothing else in the component state changes. A mounted element is left playing exactly when the flag is on. Pause keeps its position. Play keeps the position too, unless the track had ended: then `play()` restarts it at 0. |
| PlayerControls.PlayPauseTwice | src/components/MusicPlayer.tsx:67-76 | Two presses restore the component if and only if the element already agreed with the flag and its track had not ended. |
| PlayerControls.Seek | src/components/MusicPlayer.tsx:85-90 | With an element and a value, both the element position and the shown time become the value, the element leaves the ended state, and nothing else changes. Without an element, or with no value, nothing changes. |
| PlayerControls.SeekLastWins | src/components/MusicPlayer.tsx:85-90 | A seek to a value after any earlier seek ends where a single seek to that value ends. |
| PlayerControls.SongChanged | src/components/MusicPlayer.tsx:53-65 | A new song id resets the shown time to 0, and the reloaded element stands at 0, playing exactly when the flag is set. Nothing else changes. The same id changes nothing. |
| PlayerControls.SongChangedSettles | src/components/MusicPlayer.tsx:53-65 | Running the reset again for the same id changes nothing further. |
| PlayerControls.HandleEnded | src/components/MusicPlayer.tsx:108-119 | In repeat-one, the element rewinds to 0 and plays, and the queue is untouched. In any other mode, the hook's next runs once and the component is untouched. |
| PlayerControls.NoRepeatActsAsRepeatAll | src/components/MusicPlayer.tsx:108-119 | At the end of a track, "no repeat" and "repeat all" yield the same playback state. |
| PlayerControls.EndOfQueueWraps | src/components/MusicPlayer.tsx:108-119 | Outside repeat-one, with distinct ids, the end of the last queued track selects the first one. |
| PlayerControls.TrackEnds | src/components/MusicPlayer.tsx:108-119 | One track end, with the listeners firing `pause`, then `handleEnded`, then `play`. In repeat-one, the queue is untouched and a mounted element plays from 0 with the flag set. In any other mode, the hook's next runs once, and a mounted element stays paused at its end with the flag cleared. |
| PlayerControls.ElementEnds | src/components/MusicPlayer.tsx:267-273 | At the end of a track, the element pauses and its `pause` listener clears the playing flag before `ended` fires. The element is then in the ended state. Nothing else changes. |
| PlayerControls.PlayEvent | src/components/MusicPlayer.tsx:267-273 | The `play` listener: the flag is set exactly when it was set or the element is playing. Nothing else changes. |
| PlayerControls.RepeatOneKeepsSong | src/components/MusicPlayer.tsx:109-114 | In repeat-one, any number of track ends leave the playback state and the mode unchanged. After at least one end, a mounted element plays again from 0 with the flag set. |
| PlayerControls.EndMovesOnAndStops | src/components/MusicPlayer.tsx:53-65 | Outside repeat-one, with distinct ids and two or more queued songs, a track end moves to another song id and the re-render resets the shown time to 0. The end-of-track pause has cleared the flag, so the next song stays paused. |
| PlayerControls.SingleSongEndStops | src/components/MusicPlayer.tsx:108-119 | Outside repeat-one, when the only queued song is shown and ends, the playback state, song id and shown time are unchanged. A mounted element stays paused at the track's end with the flag cleared. |
| PlayerControls.PlayAfterEndRestarts | src/components/MusicPlayer.tsx:67-76 | After the only queued song has ended outside repeat-one, pressing play sets the flag and starts the element again from position 0. |
| TimeFormat.Decimal | src/components/MusicPlayer.tsx:24 | A number prints as a non-empty string of digits with no leading zero, one digit long exactly when it is below ten. |
| TimeFormat.DecimalRoundTrip | src/components/MusicPlayer.tsx:24 | Reading the printed digits back gives the number. |
| TimeFormat.SecondsField | src/components/MusicPlayer.tsx:24 | The seconds field is exactly two digits whose value is the seconds, starting with '0' exactly when the seconds are below ten. |
| TimeFormat.MinSec | src/components/MusicPlayer.tsx:21-25 | The text is minutes, one colon, then a two-digit seconds field. The minutes read back as `seconds / 60` and the field as `seconds % 60`. The field is zero-padded exactly below ten, and the minutes have no leading zero. |
| TimeFormat.MinSecOneColon | src/components/MusicPlayer.tsx:24 | The only colon is the separator, three characters from the end. |
| TimeFormat.MinSecRoundTrip | src/components/TrackItem.tsx:18-22 | Parsing `m:ss` back as `m * 60 + ss` gives the original number of seconds. |
| TimeFormat.MinSecInjective | src/components/TrackItem.tsx:18-22 | Different numbers of seconds never print the same text. |
| Search.Includes | src/pages/Library.tsx:25 | The result holds exactly when the needle occurs at some position of the text. |
| Search.Lower | src/pages/Library.tsx:25 | Lower-casing keeps the length, leaves no upper-case ASCII letter, shifts each upper-case letter to its lower-case partner, and keeps every other character. |
| Search.LowerIdempotent | src/pages/Library.tsx:25 | Lower-casing twice is lower-casing once. |
| Search.FilterAlbums | src/pages/Library.tsx:24-27 | An album is kept exactly when its title or artist contains the query, ignoring case. The hits keep catalog order. |
| Search.FilterArtists | src/pages/Library.tsx:29-31 | An artist is kept exactly when its name contains the query, ignoring case. The hits keep catalog order. |
| Search.FilterSongs | src/pages/Library.tsx:33-37 | A song is kept exactly when its title, artist or album contains the query, ignoring case. The hits keep catalog order. |
| Search.FilterKeepsMultiplicity | src/pages/Library.tsx:24-37 | Each hit appears as many times as in the catalog; each miss appears zero times. |
| Search.EmptyQueryKeepsAll | src/pages/Library.tsx:24-37 | The empty query keeps every album, artist and song. |
| Search.QueryCaseIgnored | src/pages/Library.tsx:24-37 | A query and its lower-cased form select exactly the same items. |
| Explore.Featured | src/pages/Explore.tsx:47 | The featured albums are the first four hits, or all hits when there are fewer. |
| Explore.GroupByYear | src/pages/Explore.tsx:19-25 | The `reduce` into year groups: every group is non-empty and holds only input albums of its own year. That each group is exactly that year's albums in order is stated by GroupOfYear. |
| Explore.GroupOfYear | src/pages/Explore.tsx:19-25 | A year is a group key exactly when some album has that year. Its group is the albums of that year, in their original order. |
| Explore.GroupByYearSpec | src/pages/Explore.tsx:19-25 | For every year, the GroupOfYear facts hold. |
| Explore.EachAlbumInItsYear | src/pages/Explore.tsx:19-25 | Every album is in its own year's group and in no other group. |
| Explore.InsertYear | src/pages/Explore.tsx:27 | Adding a year to a strictly descending list keeps the list strictly descending, with exactly the old years plus the new one. |
| Explore.Years | src/pages/Explore.tsx:27 | The years are strictly descending, so newest first with no repeats, and are exactly the years that occur. |
| Explore.Page | src/pages/Explore.tsx:13-27 | The page's hits are the library's album search. It shows at most four featured hits, taken from the front. The listed years are exactly the group keys, newest first, and each group holds that year's hits in order. There are no years, which is the "no albums found" case, exactly when nothing matched. |

## Left out

- Time is modelled in whole seconds, whereas the source uses floating-point numbers. Positions, `currentTime` and seek values are `int`, and song durations are `nat`.
- TimeFormat.MinSec: takes whole, non-negative seconds. A non-negative fractional time `t`, such as the `currentTime` shown at src/components/MusicPlayer.tsx:221, prints exactly as its floor does, because `Math.floor(t / 60)` and `Math.floor(t % 60)` equal the whole-second values for `floor(t)`. So `65.7` prints `1:05`, which is `MinSec(65)`. Negative input is not modelled: JavaScript's `%` truncates, so `-5` prints `-1:0-5`. JavaScript's exponent notation for numbers of 10^21 and above is not modelled either.
- Search.Lower: lower-cases the ASCII letters only. `toLowerCase` also folds non-ASCII letters, and for some of them it changes the string length.
- The volume slider and `handleVolumeChange` are left out: they work on floating-point volume.
- The `requestAnimationFrame` progress loop (`updateProgress`) and `cancelAnimationFrame` are not modelled. The shown time changes only through `Seek` and `SongChanged`.
- The `onPlay`/`onPause` listeners are modelled only where they change the flag: at the end of a track (`ElementEnds`, `PlayEvent`). Elsewhere the handlers already set the flag to the value the listener would give.
- The media element is reduced to a position, a playing flag and an ended flag. It carries no track duration, so a seek always leaves the ended state, even a seek to the very end. Loading and buffering are not modelled. A change of song id is assumed to change the element's `src`. The reload that follows stops the element at position 0 without firing `pause`, as the HTML media rules' load algorithm does.
- PlayerControls.SongChanged: runs only when the effect's `song.id` dependency changes, as React does. The cleanup function that cancels the animation frame is left out with the progress loop.
- PlayerControls.HandleEnded: `onNext` is the hook's `playNext`. Both places that mount the player pass it: the full-screen player (src/pages/Player.tsx:39-43) and the mini player (src/components/Layout.tsx:61-66).
- Controls visibility, the mini-player click, navigation and all rendering are left out: they are presentation only.
- The React context that shares the hook (src/context/MusicContext.tsx) is not part of this model. It passes the hook's values through, and `useMusic` throws when used outside a provider; that error concerns component wiring, not player state.
- The mock catalog (src/data/mockMusic.ts) is not part of this model. The catalog is a parameter of every operation that reads it.
- Album and artist page lookups are not modelled: they are page-level lookups outside the player core.
- Shuffle is a flag only, because the source never reorders the queue by it.
