/**
 * The search box of the library page (src/pages/Library.tsx): a query keeps
 * the albums, artists and songs whose lower-cased text fields contain the
 * lower-cased query, in catalog order.
 */
module Search {
  import opened Music
  import Seqs

  /** `toLowerCase` on one character, over the ASCII letters. */
  function LowerChar(c: char): char {
    if 'A' <= c <= 'Z' then (c as int + 32) as char else c
  }

  /** `toLowerCase`: no upper-case ASCII letter survives, and every other character is kept in place. */
  function Lower(s: string): (r: string)
    ensures |r| == |s|
    ensures forall i :: 0 <= i < |r| ==> !('A' <= r[i] <= 'Z')
    ensures forall i :: 0 <= i < |s| && !('A' <= s[i] <= 'Z') ==> r[i] == s[i]
    ensures forall i :: 0 <= i < |s| && 'A' <= s[i] <= 'Z' ==> r[i] as int == s[i] as int + 32
  {
    seq(|s|, i requires 0 <= i < |s| => LowerChar(s[i]))
  }

  /** `needle` occurs in `hay` starting at position `i`. */
  ghost predicate OccursAt(hay: string, needle: string, i: int) {
    0 <= i && i + |needle| <= |hay| && hay[i..i + |needle|] == needle
  }

  /** Occurrences in the tail of `hay` are the occurrences in `hay` past its first position. */
  lemma OccursInTail(hay: string, needle: string)
    requires |hay| > 0
    ensures (exists i :: OccursAt(hay[1..], needle, i)) <==> (exists i :: 1 <= i && OccursAt(hay, needle, i))
  {
    if exists i :: OccursAt(hay[1..], needle, i) {
      var i :| OccursAt(hay[1..], needle, i);
      assert hay[1..][i..i + |needle|] == hay[i + 1..i + 1 + |needle|];
      assert OccursAt(hay, needle, i + 1);
    }
    if exists i :: 1 <= i && OccursAt(hay, needle, i) {
      var i :| 1 <= i && OccursAt(hay, needle, i);
      assert hay[1..][i - 1..i - 1 + |needle|] == hay[i..i + |needle|];
      assert OccursAt(hay[1..], needle, i - 1);
    }
  }

  /** `String.prototype.includes`: does `needle` occur anywhere in `hay`? */
  function Includes(hay: string, needle: string): (b: bool)
    ensures b <==> exists i :: OccursAt(hay, needle, i)
    decreases |hay|
  {
    if needle <= hay then
      assert OccursAt(hay, needle, 0);
      true
    else if |hay| == 0 then
      false
    else
      OccursInTail(hay, needle);
      Includes(hay[1..], needle)
  }

  /** The library's album test: title or artist contains the query, ignoring case. */
  predicate AlbumMatches(a: Album, query: string) {
    Includes(Lower(a.title), Lower(query)) || Includes(Lower(a.artist), Lower(query))
  }

  /** The library's artist test: the name alone contains the query, ignoring case. */
  predicate ArtistMatches(a: Artist, query: string) {
    Includes(Lower(a.name), Lower(query))
  }

  /** The library's song test: title, artist or album name contains the query, ignoring case. */
  predicate SongMatches(s: Song, query: string) {
    || Includes(Lower(s.title), Lower(query))
    || Includes(Lower(s.artist), Lower(query))
    || Includes(Lower(s.album), Lower(query))
  }

  function AlbumQuery(query: string): Album -> bool { (a: Album) => AlbumMatches(a, query) }
  function ArtistQuery(query: string): Artist -> bool { (a: Artist) => ArtistMatches(a, query) }
  function SongQuery(query: string): Song -> bool { (s: Song) => SongMatches(s, query) }

  /** `filteredAlbums`: the matching albums, each as often as in the catalog, in catalog order. */
  function FilterAlbums(albums: seq<Album>, query: string): (r: seq<Album>)
    ensures forall a :: a in r <==>
      (a in albums && (Includes(Lower(a.title), Lower(query)) || Includes(Lower(a.artist), Lower(query))))
    ensures Seqs.IsSubsequence(r, albums)
  {
    Seqs.FilterIsSubsequence(albums, AlbumQuery(query));
    Seqs.FilterMembers(albums, AlbumQuery(query));
    Seqs.Filter(albums, AlbumQuery(query))
  }

  /** `filteredArtists`: the artists whose name matches, in catalog order. */
  function FilterArtists(artists: seq<Artist>, query: string): (r: seq<Artist>)
    ensures forall a :: a in r <==> a in artists && Includes(Lower(a.name), Lower(query))
    ensures Seqs.IsSubsequence(r, artists)
  {
    Seqs.FilterIsSubsequence(artists, ArtistQuery(query));
    Seqs.FilterMembers(artists, ArtistQuery(query));
    Seqs.Filter(artists, ArtistQuery(query))
  }

  /** `filteredSongs`: the songs whose title, artist or album matches, in catalog order. */
  function FilterSongs(songs: seq<Song>, query: string): (r: seq<Song>)
    ensures forall s :: s in r <==>
      (s in songs && (Includes(Lower(s.title), Lower(query)) || Includes(Lower(s.artist), Lower(query))
                      || Includes(Lower(s.album), Lower(query))))
    ensures Seqs.IsSubsequence(r, songs)
  {
    Seqs.FilterIsSubsequence(songs, SongQuery(query));
    Seqs.FilterMembers(songs, SongQuery(query));
    Seqs.Filter(songs, SongQuery(query))
  }

  /** A matching entry is kept as many times as the catalog lists it; others not at all. */
  lemma FilterKeepsMultiplicity(albums: seq<Album>, artists: seq<Artist>, songs: seq<Song>, query: string)
    ensures forall a :: multiset(FilterAlbums(albums, query))[a]
                        == if AlbumMatches(a, query) then multiset(albums)[a] else 0
    ensures forall a :: multiset(FilterArtists(artists, query))[a]
                        == if ArtistMatches(a, query) then multiset(artists)[a] else 0
    ensures forall s :: multiset(FilterSongs(songs, query))[s]
                        == if SongMatches(s, query) then multiset(songs)[s] else 0
  {
    forall a: Album {
      Seqs.FilterCounts(albums, AlbumQuery(query), a);
    }
    forall a: Artist {
      Seqs.FilterCounts(artists, ArtistQuery(query), a);
    }
    forall s: Song {
      Seqs.FilterCounts(songs, SongQuery(query), s);
    }
  }

  /** The empty query keeps the whole catalog. */
  lemma EmptyQueryKeepsAll(albums: seq<Album>, artists: seq<Artist>, songs: seq<Song>)
    ensures FilterAlbums(albums, "") == albums
    ensures FilterArtists(artists, "") == artists
    ensures FilterSongs(songs, "") == songs
  {
    assert Lower("") == "";
    Seqs.FilterKeepsAll(albums, AlbumQuery(""));
    Seqs.FilterKeepsAll(artists, ArtistQuery(""));
    Seqs.FilterKeepsAll(songs, SongQuery(""));
  }

  /** Lower-casing twice is lower-casing once. */
  lemma LowerIdempotent(s: string)
    ensures Lower(Lower(s)) == Lower(s)
  {
  }

  /** Upper-case letters in the query make no difference: it filters as its lower-cased form does. */
  lemma QueryCaseIgnored(albums: seq<Album>, artists: seq<Artist>, songs: seq<Song>, query: string)
    ensures FilterAlbums(albums, Lower(query)) == FilterAlbums(albums, query)
    ensures FilterArtists(artists, Lower(query)) == FilterArtists(artists, query)
    ensures FilterSongs(songs, Lower(query)) == FilterSongs(songs, query)
  {
    LowerIdempotent(query);
    Seqs.FilterAgrees(albums, AlbumQuery(Lower(query)), AlbumQuery(query));
    Seqs.FilterAgrees(artists, ArtistQuery(Lower(query)), ArtistQuery(query));
    Seqs.FilterAgrees(songs, SongQuery(Lower(query)), SongQuery(query));
  }
}
