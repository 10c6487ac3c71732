/**
 * The catalog entities of the player (src/types/musicContext.ts).
 * Cover and audio URLs are carried along but never interpreted.
 */
module Music {

  /** A track; `duration` is a whole number of seconds. */
  datatype Song = Song(
    id: string,
    title: string,
    artist: string,
    album: string,
    coverUrl: string,
    audioUrl: string,
    duration: nat)

  datatype Album = Album(
    id: string,
    title: string,
    artist: string,
    coverUrl: string,
    year: int,
    songs: seq<Song>)

  datatype Artist = Artist(
    id: string,
    name: string,
    imageUrl: string,
    albums: seq<Album>)

  /** Where the current queue came from (`playingFrom`); `FromPlaylist` is declared but never set. */
  datatype Origin = FromAlbum | FromPlaylist | FromArtist | FromAll

  /** The read-only catalog the player is built over: every song, every album, every artist. */
  datatype Catalog = Catalog(allSongs: seq<Song>, albums: seq<Album>, artists: seq<Artist>)
}
