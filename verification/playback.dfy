/**
 * The playback-queue state machine of the `useMusicPlayer` hook
 * (src/hooks/useMusicPlayer.ts). React's `setState` calls inside one
 * handler are modelled as one record update that reads the state as it
 * was before the handler ran.
 */
module Playback {
  import opened Options
  import opened Music
  import Seqs

  datatype PlayerState = PlayerState(
    current: Option<Song>,
    queue: seq<Song>,
    isPlaying: bool,
    playingFrom: Option<Origin>,
    playingFromId: Option<string>)

  /** The hook's initial state: nothing selected, empty queue, paused. */
  const Initial: PlayerState := PlayerState(None, [], false, None, None)

  function SongHasId(id: string): Song -> bool { (s: Song) => s.id == id }
  function AlbumHasId(id: string): Album -> bool { (a: Album) => a.id == id }
  function ArtistHasId(id: string): Artist -> bool { (a: Artist) => a.id == id }

  /** `songs[0]`, which is `undefined` — treated as no song — when `songs` is empty. */
  function Head(songs: seq<Song>): (r: Option<Song>)
    ensures r.None? <==> |songs| == 0
    ensures r.Some? ==> r.value == songs[0] && r.value in songs
  {
    if |songs| == 0 then None else Some(songs[0])
  }

  /** `albums.flatMap(album => album.songs)`. */
  function SongsOf(albums: seq<Album>): (songs: seq<Song>)
    ensures forall s :: s in songs <==> exists a :: a in albums && s in a.songs
  {
    if |albums| == 0 then []
    else albums[0].songs + SongsOf(albums[1..])
  }

  /** The flattened list splits at any album boundary. */
  lemma {:induction false} SongsOfSplit(albums: seq<Album>, k: nat)
    requires k <= |albums|
    ensures SongsOf(albums) == SongsOf(albums[..k]) + SongsOf(albums[k..])
  {
    if k != 0 {
      SongsOfSplit(albums[1..], k - 1);
      assert albums[1..][..k - 1] == albums[..k][1..];
      assert albums[1..][k - 1..] == albums[k..];
    }
  }

  /** Album `k`'s songs sit in the artist queue, in their own order, right after those of albums `0..k-1`. */
  lemma ArtistQueueLayout(albums: seq<Album>, k: nat)
    requires k < |albums|
    ensures var start := |SongsOf(albums[..k])|;
            start + |albums[k].songs| <= |SongsOf(albums)|
            && SongsOf(albums)[start..start + |albums[k].songs|] == albums[k].songs
  {
    SongsOfSplit(albums, k);
    assert albums[k..][1..] == albums[k + 1..];
    assert SongsOf(albums[k..]) == albums[k].songs + SongsOf(albums[k + 1..]);
    var start := |SongsOf(albums[..k])|;
    assert SongsOf(albums) == SongsOf(albums[..k]) + albums[k].songs + SongsOf(albums[k + 1..]);
  }

  /** `playSong`: select the song and play; the queue and its origin stay as they are. */
  function PlaySong(st: PlayerState, song: Song): (r: PlayerState)
    ensures r.current == Some(song) && r.isPlaying
    ensures r.queue == st.queue && r.playingFrom == st.playingFrom && r.playingFromId == st.playingFromId
  {
    st.(current := Some(song), isPlaying := true)
  }

  /** The state after an album with id `albumId` has been started at `startSongId`. */
  ghost predicate StartedAlbum(r: PlayerState, album: Album, albumId: string, startSongId: Option<string>) {
    && r.queue == album.songs
    && r.isPlaying
    && r.playingFrom == Some(FromAlbum)
    && r.playingFromId == Some(albumId)
    && if startSongId.Some? && startSongId.value != ""
          && exists j :: 0 <= j < |album.songs| && album.songs[j].id == startSongId.value
       then exists j :: Seqs.IsFirstMatch(album.songs, SongHasId(startSongId.value), j)
                        && r.current == Some(album.songs[j])
       else r.current == Head(album.songs)
  }

  /**
   * `playAlbum(albumId, startSongId?)`: queue the first album with that id and start it
   * at the first song with id `startSongId` when one is given (a non-empty string) and
   * present, otherwise at its first song. An unknown album id changes nothing.
   */
  function PlayAlbum(st: PlayerState, cat: Catalog, albumId: string, startSongId: Option<string>): (r: PlayerState)
    ensures (forall k :: 0 <= k < |cat.albums| ==> cat.albums[k].id != albumId) ==> r == st
    ensures forall k :: Seqs.IsFirstMatch(cat.albums, AlbumHasId(albumId), k) ==>
              StartedAlbum(r, cat.albums[k], albumId, startSongId)
  {
    var found := Seqs.Find(cat.albums, AlbumHasId(albumId));
    if found.None? then st
    else
      var album := found.value;
      var start :=
        if startSongId.Some? && startSongId.value != ""
        then Seqs.FindIndex(album.songs, SongHasId(startSongId.value))
        else -1;
      var song := if start != -1 then Some(album.songs[start]) else Head(album.songs);
      assert forall l :: Seqs.IsFirstMatch(cat.albums, AlbumHasId(albumId), l) ==> cat.albums[l] == album;
      PlayerState(song, album.songs, true, Some(FromAlbum), Some(albumId))
  }

  /**
   * `playArtist(artistId)`: queue the songs of all of the first matching artist's
   * albums, in order, and start at the first of them. An unknown id changes nothing.
   */
  function PlayArtist(st: PlayerState, cat: Catalog, artistId: string): (r: PlayerState)
    ensures (forall k :: 0 <= k < |cat.artists| ==> cat.artists[k].id != artistId) ==> r == st
    ensures forall k :: Seqs.IsFirstMatch(cat.artists, ArtistHasId(artistId), k) ==>
              && r.queue == SongsOf(cat.artists[k].albums)
              && r.current == Head(r.queue)
              && r.isPlaying
              && r.playingFrom == Some(FromArtist)
              && r.playingFromId == Some(artistId)
  {
    var found := Seqs.Find(cat.artists, ArtistHasId(artistId));
    if found.None? then st
    else
      var songs := SongsOf(found.value.albums);
      assert forall l :: Seqs.IsFirstMatch(cat.artists, ArtistHasId(artistId), l) ==> cat.artists[l] == found.value;
      PlayerState(Head(songs), songs, true, Some(FromArtist), Some(artistId))
  }

  /** `playAll`: queue the whole catalog and start at its first song. */
  function PlayAll(st: PlayerState, cat: Catalog): (r: PlayerState)
    ensures r.queue == cat.allSongs && r.isPlaying
    ensures r.playingFrom == Some(FromAll) && r.playingFromId == None
    ensures |cat.allSongs| > 0 ==> r.current == Some(cat.allSongs[0])
    ensures |cat.allSongs| == 0 ==> r.current == None
  {
    PlayerState(Head(cat.allSongs), cat.allSongs, true, Some(FromAll), None)
  }

  /** `pauseSong`: only the playing flag changes, and it becomes false. */
  function PauseSong(st: PlayerState): (r: PlayerState)
    ensures !r.isPlaying
    ensures r.(isPlaying := st.isPlaying) == st
  {
    st.(isPlaying := false)
  }

  /** `resumeSong`: playing resumes exactly when there is a current song; nothing else changes. */
  function ResumeSong(st: PlayerState): (r: PlayerState)
    ensures r.isPlaying <==> st.isPlaying || st.current.Some?
    ensures r.(isPlaying := st.isPlaying) == st
  {
    if st.current.Some? then st.(isPlaying := true) else st
  }

  /** `togglePlayPause`: pause when playing, otherwise resume. */
  function TogglePlayPause(st: PlayerState): (r: PlayerState)
    ensures st.isPlaying ==> !r.isPlaying
    ensures !st.isPlaying ==> (r.isPlaying <==> st.current.Some?)
    ensures r.(isPlaying := st.isPlaying) == st
  {
    if st.isPlaying then PauseSong(st) else ResumeSong(st)
  }

  /** Toggling twice restores the state exactly when the first toggle was not a refused resume. */
  lemma ToggleTwice(st: PlayerState)
    ensures TogglePlayPause(TogglePlayPause(st)) == st <==> st.current.Some? || !st.isPlaying
  {
    if st.isPlaying && st.current.None? {
      assert !TogglePlayPause(TogglePlayPause(st)).isPlaying;
    }
  }

  /** One step forward around a ring of `n` positions. */
  lemma WrapForward(i: int, n: int)
    requires -1 <= i < n
    ensures 0 <= i ==> (i + 1) % n == if i == n - 1 then 0 else i + 1
  {
  }

  /** One step backward around a ring of `n` positions. */
  lemma WrapBackward(i: int, n: int)
    requires -1 <= i < n
    ensures 0 <= i ==> (i + n - 1) % n == if i == 0 then n - 1 else i - 1
  {
  }

  /** The id of the current song does not occur in the queue. */
  ghost predicate NotQueued(st: PlayerState)
    requires st.current.Some?
  {
    forall j :: 0 <= j < |st.queue| ==> st.queue[j].id != st.current.value.id
  }

  /**
   * `playNext`: with a current song and a non-empty queue, select the entry
   * after the current song's position; otherwise change nothing. Only the
   * current song ever changes, and it is always taken from the queue.
   */
  function PlayNext(st: PlayerState): (r: PlayerState)
    ensures st.current.None? || |st.queue| == 0 ==> r == st
    ensures r.(current := st.current) == st
    ensures st.current.Some? && |st.queue| > 0 ==> r.current.Some? && r.current.value in st.queue
  {
    if st.current.None? || |st.queue| == 0 then st
    else
      var i := Seqs.FindIndex(st.queue, SongHasId(st.current.value.id));
      if i == -1 || i == |st.queue| - 1 then st.(current := Some(st.queue[0]))
      else st.(current := Some(st.queue[i + 1]))
  }

  /**
   * Where "next" lands: the entry after the first queue entry with the current
   * song's id, wrapping from the last entry to the first; a song whose id is not
   * queued moves to the first entry.
   */
  lemma PlayNextTarget(st: PlayerState)
    requires st.current.Some? && |st.queue| > 0
    ensures forall i :: Seqs.IsFirstMatch(st.queue, SongHasId(st.current.value.id), i) ==>
              PlayNext(st).current == Some(st.queue[(i + 1) % |st.queue|])
    ensures NotQueued(st) ==> PlayNext(st).current == Some(st.queue[0])
  {
    var i := Seqs.FindIndex(st.queue, SongHasId(st.current.value.id));
    assert forall l :: Seqs.IsFirstMatch(st.queue, SongHasId(st.current.value.id), l) ==> l == i;
    WrapForward(i, |st.queue|);
  }

  /**
   * `playPrevious`: with a current song and a non-empty queue, select the entry
   * before the current song's position; otherwise change nothing. Only the
   * current song ever changes, and it is always taken from the queue.
   */
  function PlayPrevious(st: PlayerState): (r: PlayerState)
    ensures st.current.None? || |st.queue| == 0 ==> r == st
    ensures r.(current := st.current) == st
    ensures st.current.Some? && |st.queue| > 0 ==> r.current.Some? && r.current.value in st.queue
  {
    if st.current.None? || |st.queue| == 0 then st
    else
      var i := Seqs.FindIndex(st.queue, SongHasId(st.current.value.id));
      if i == -1 || i == 0 then st.(current := Some(st.queue[|st.queue| - 1]))
      else st.(current := Some(st.queue[i - 1]))
  }

  /**
   * Where "previous" lands: the entry before the first queue entry with the
   * current song's id, wrapping from the first entry to the last; a song whose
   * id is not queued moves to the last entry.
   */
  lemma PlayPreviousTarget(st: PlayerState)
    requires st.current.Some? && |st.queue| > 0
    ensures forall i :: Seqs.IsFirstMatch(st.queue, SongHasId(st.current.value.id), i) ==>
              PlayPrevious(st).current == Some(st.queue[(i + |st.queue| - 1) % |st.queue|])
    ensures NotQueued(st) ==> PlayPrevious(st).current == Some(st.queue[|st.queue| - 1])
  {
    var i := Seqs.FindIndex(st.queue, SongHasId(st.current.value.id));
    assert forall l :: Seqs.IsFirstMatch(st.queue, SongHasId(st.current.value.id), l) ==> l == i;
    WrapBackward(i, |st.queue|);
  }

  /** No two queue entries share an id. */
  ghost predicate DistinctIds(q: seq<Song>) {
    forall j, k :: 0 <= j < k < |q| ==> q[j].id != q[k].id
  }

  /** The current song is itself one of the queue entries. */
  ghost predicate CurrentQueued(st: PlayerState) {
    st.current.Some? && st.current.value in st.queue
  }

  /** In a queue of distinct ids, the queue entry `q[i]` is the first match for its own id. */
  lemma DistinctFirstMatch(q: seq<Song>, i: int)
    requires DistinctIds(q) && 0 <= i < |q|
    ensures Seqs.IsFirstMatch(q, SongHasId(q[i].id), i)
  {
  }

  /** The position of a queued current song. */
  lemma CurrentIndex(st: PlayerState) returns (i: nat)
    requires DistinctIds(st.queue) && CurrentQueued(st)
    ensures i < |st.queue| && st.current.value == st.queue[i]
    ensures Seqs.IsFirstMatch(st.queue, SongHasId(st.current.value.id), i)
  {
    i :| 0 <= i < |st.queue| && st.queue[i] == st.current.value;
    DistinctFirstMatch(st.queue, i);
  }

  lemma {:induction false} MulAtLeast(a: int, n: int)
    requires a >= 1 && n > 0
    ensures a * n >= n
    decreases a
  {
    if a > 1 {
      MulAtLeast(a - 1, n);
      assert a * n == (a - 1) * n + n;
    }
  }

  /** The remainder of `x` by `n` is fixed by any quotient–remainder split of `x`. */
  lemma ModUnique(x: int, n: int, q: int, r: int)
    requires n > 0 && x == q * n + r && 0 <= r < n
    ensures x % n == r
  {
    var q', r' := x / n, x % n;
    assert x == q' * n + r';
    assert (q - q') * n == r' - r;
    if q > q' {
      MulAtLeast(q - q', n);
    } else if q < q' {
      MulAtLeast(q' - q, n);
    }
  }

  lemma ModSmall(i: int, n: int)
    requires 0 <= i < n
    ensures i % n == i
  {
    ModUnique(i, n, 0, i);
  }

  /** A full turn around the ring lands where it started. */
  lemma ModAddSelf(i: int, n: int)
    requires 0 <= i < n
    ensures (i + n) % n == i
  {
    ModUnique(i + n, n, 1, i);
  }

  /** The position after `j` in a ring of `n` positions. */
  function RingNext(j: nat, n: nat): nat {
    if j + 1 >= n then 0 else j + 1
  }

  /** The state with the queue entry at `j` as the current song. */
  function At(st: PlayerState, j: nat): PlayerState
    requires j < |st.queue|
  {
    st.(current := Some(st.queue[j]))
  }

  /** With distinct ids, "next" from the queue entry at `j` selects the entry after it, wrapping at the end. */
  lemma NextFromQueued(st: PlayerState, j: nat)
    requires DistinctIds(st.queue) && j < |st.queue|
    ensures PlayNext(At(st, j)) == At(st, RingNext(j, |st.queue|))
  {
    DistinctFirstMatch(st.queue, j);
    PlayNextTarget(At(st, j));
    WrapForward(j, |st.queue|);
  }

  /** With distinct ids, "previous" from the queue entry at `j` selects the entry before it, wrapping at the start. */
  lemma PreviousFromQueued(st: PlayerState, j: nat)
    requires DistinctIds(st.queue) && j < |st.queue|
    ensures PlayPrevious(At(st, j)) == At(st, if j == 0 then |st.queue| - 1 else j - 1)
  {
    DistinctFirstMatch(st.queue, j);
    PlayPreviousTarget(At(st, j));
    WrapBackward(j, |st.queue|);
  }

  /** With distinct ids, going back undoes going forward. */
  lemma NextThenPrevious(st: PlayerState)
    requires DistinctIds(st.queue) && CurrentQueued(st)
    ensures PlayPrevious(PlayNext(st)) == st
  {
    var i := CurrentIndex(st);
    assert At(st, i) == st;
    NextFromQueued(st, i);
    PreviousFromQueued(st, RingNext(i, |st.queue|));
  }

  /** With distinct ids, going forward undoes going back. */
  lemma PreviousThenNext(st: PlayerState)
    requires DistinctIds(st.queue) && CurrentQueued(st)
    ensures PlayNext(PlayPrevious(st)) == st
  {
    var i := CurrentIndex(st);
    assert At(st, i) == st;
    PreviousFromQueued(st, i);
    NextFromQueued(st, if i == 0 then |st.queue| - 1 else i - 1);
  }

  /** `k` applications of a step function. */
  function Iterate<S>(step: S -> S, s: S, k: nat): S
    decreases k
  {
    if k == 0 then s else Iterate(step, step(s), k - 1)
  }

  /** `k` presses of "next". */
  function NextTimes(st: PlayerState, k: nat): PlayerState {
    Iterate(PlayNext, st, k)
  }

  /** Taking one step around the ring and `k - 1` more is taking `k` steps. */
  lemma RingNextModular(i: nat, k: nat, n: nat)
    requires i < n && k > 0
    ensures (RingNext(i, n) + (k - 1)) % n == (i + k) % n
  {
    if i == n - 1 {
      var x := k - 1;
      ModUnique(x + n, n, x / n + 1, x % n);
      assert i + k == x + n;
    }
  }

  /** `k` steps forward from `i` in a ring of `n` positions. */
  function RingAdvance(i: nat, k: nat, n: nat): (r: nat)
    requires i < n
    ensures r < n
    decreases k
  {
    if k == 0 then i else RingAdvance(RingNext(i, n), k - 1, n)
  }

  /** Stepping `k` times around a ring is adding `k` modulo its size. */
  lemma {:induction false} RingAdvanceIsModular(i: nat, k: nat, n: nat)
    requires i < n
    ensures RingAdvance(i, k, n) == (i + k) % n
    decreases k
  {
    if k == 0 {
      ModSmall(i, n);
    } else {
      RingAdvanceIsModular(RingNext(i, n), k - 1, n);
      RingNextModular(i, k, n);
    }
  }

  /**
   * A step function that moves each of `n` positions `at(j)` of a ring to the
   * next position, iterated `k` times from position `i`, lands `k` places on.
   */
  lemma {:induction false} IterateWalksRing<S>(step: S -> S, at: nat -> S, n: nat, i: nat, k: nat)
    requires i < n
    requires forall j: nat :: j < n ==> step(at(j)) == at(RingNext(j, n))
    ensures Iterate(step, at(i), k) == at(RingAdvance(i, k, n))
    decreases k
  {
    if k != 0 {
      IterateWalksRing(step, at, n, RingNext(i, n), k - 1);
    }
  }

  /** The queue positions as states: position `j` makes the queue entry at `j` current. */
  function Entry(st: PlayerState): nat -> PlayerState {
    (j: nat) => if j < |st.queue| then At(st, j) else st
  }

  /** With distinct ids, `k` presses of "next" advance the current song `k` places, modulo the queue length. */
  lemma NextTimesAdvances(st: PlayerState, i: nat, k: nat)
    requires DistinctIds(st.queue) && i < |st.queue| && st.current == Some(st.queue[i])
    ensures NextTimes(st, k) == st.(current := Some(st.queue[(i + k) % |st.queue|]))
  {
    var n := |st.queue|;
    forall j: nat | j < n
      ensures PlayNext(Entry(st)(j)) == Entry(st)(RingNext(j, n))
    {
      NextFromQueued(st, j);
    }
    assert Entry(st)(i) == st;
    IterateWalksRing(PlayNext, Entry(st), n, i, k);
    RingAdvanceIsModular(i, k, n);
  }

  /** With distinct ids, pressing "next" once per queue entry comes back to the starting song. */
  lemma NextCyclesQueue(st: PlayerState)
    requires DistinctIds(st.queue) && CurrentQueued(st)
    ensures NextTimes(st, |st.queue|) == st
  {
    var n := |st.queue|;
    var i := CurrentIndex(st);
    NextTimesAdvances(st, i, n);
    ModAddSelf(i, n);
  }

  /** In a one-song queue, "next" from any current song selects that one song. */
  lemma SingleSongQueueNext(st: PlayerState)
    requires |st.queue| == 1 && st.current.Some?
    ensures PlayNext(st).current == Some(st.queue[0])
    ensures st.current == Some(st.queue[0]) ==> PlayNext(st) == st
  {
    PlayNextTarget(st);
    if !NotQueued(st) {
      var i := Seqs.FindIndex(st.queue, SongHasId(st.current.value.id));
      assert (i + 1) % 1 == 0;
    }
  }

  /** In the initial state there is nothing to play: every control that needs a song leaves it alone. */
  lemma InitialIsIdle(cat: Catalog)
    ensures PlayNext(Initial) == Initial && PlayPrevious(Initial) == Initial
    ensures ResumeSong(Initial) == Initial && TogglePlayPause(Initial) == Initial
    ensures PauseSong(Initial) == Initial
    ensures QueueMatchesOrigin(Initial, cat)
  {
  }

  /** One user action on the hook. */
  datatype Action =
    | PlaySongAction(song: Song)
    | PlayAlbumAction(albumId: string, startSongId: Option<string>)
    | PlayArtistAction(artistId: string)
    | PlayAllAction
    | PauseAction
    | ResumeAction
    | NextAction
    | PreviousAction
    | ToggleAction

  function Step(st: PlayerState, cat: Catalog, act: Action): PlayerState {
    match act
    case PlaySongAction(song) => PlaySong(st, song)
    case PlayAlbumAction(albumId, start) => PlayAlbum(st, cat, albumId, start)
    case PlayArtistAction(artistId) => PlayArtist(st, cat, artistId)
    case PlayAllAction => PlayAll(st, cat)
    case PauseAction => PauseSong(st)
    case ResumeAction => ResumeSong(st)
    case NextAction => PlayNext(st)
    case PreviousAction => PlayPrevious(st)
    case ToggleAction => TogglePlayPause(st)
  }

  /** The actions applied in order, each to the state the previous one left. */
  function Run(st: PlayerState, cat: Catalog, acts: seq<Action>): PlayerState
    decreases |acts|
  {
    if |acts| == 0 then st
    else Run(Step(st, cat, acts[0]), cat, acts[1..])
  }

  /**
   * The queue is exactly the song list of the source that `playingFrom` and
   * `playingFromId` name, and the never-assigned `'playlist'` origin is never seen.
   */
  ghost predicate QueueMatchesOrigin(st: PlayerState, cat: Catalog) {
    match st.playingFrom
    case None => st.playingFromId == None && st.queue == []
    case Some(FromAll) => st.playingFromId == None && st.queue == cat.allSongs
    case Some(FromAlbum) =>
      && st.playingFromId.Some?
      && exists k :: Seqs.IsFirstMatch(cat.albums, AlbumHasId(st.playingFromId.value), k)
                     && st.queue == cat.albums[k].songs
    case Some(FromArtist) =>
      && st.playingFromId.Some?
      && exists k :: Seqs.IsFirstMatch(cat.artists, ArtistHasId(st.playingFromId.value), k)
                     && st.queue == SongsOf(cat.artists[k].albums)
    case Some(FromPlaylist) => false
  }

  lemma StepKeepsOrigin(st: PlayerState, cat: Catalog, act: Action)
    requires QueueMatchesOrigin(st, cat)
    ensures QueueMatchesOrigin(Step(st, cat, act), cat)
  {
    match act {
      case PlayAlbumAction(albumId, start) =>
        var k := Seqs.FindIndex(cat.albums, AlbumHasId(albumId));
        if k != -1 {
          assert StartedAlbum(PlayAlbum(st, cat, albumId, start), cat.albums[k], albumId, start);
        }
      case PlayArtistAction(artistId) =>
        var k := Seqs.FindIndex(cat.artists, ArtistHasId(artistId));
      case _ =>
    }
  }

  /** Every state reachable from the initial one keeps its queue faithful to its origin. */
  lemma {:induction false} RunKeepsOrigin(st: PlayerState, cat: Catalog, acts: seq<Action>)
    requires QueueMatchesOrigin(st, cat)
    ensures QueueMatchesOrigin(Run(st, cat, acts), cat)
    decreases |acts|
  {
    if |acts| != 0 {
      StepKeepsOrigin(st, cat, acts[0]);
      RunKeepsOrigin(Step(st, cat, acts[0]), cat, acts[1..]);
    }
  }

  lemma ReachableQueueMatchesOrigin(cat: Catalog, acts: seq<Action>)
    ensures QueueMatchesOrigin(Run(Initial, cat, acts), cat)
  {
    RunKeepsOrigin(Initial, cat, acts);
  }
}
