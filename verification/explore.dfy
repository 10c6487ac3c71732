/**
 * The explore page (src/pages/Explore.tsx): the library's album search,
 * the first four hits as "featured", and the hits grouped by release year
 * with the years listed newest first.
 */
module Explore {
  import opened Music
  import Seqs
  import Search

  /** `filteredAlbums.slice(0, 4)`. */
  function Featured(filtered: seq<Album>): (r: seq<Album>)
    ensures |r| == if |filtered| < 4 then |filtered| else 4
    ensures r == filtered[..|r|]
  {
    if |filtered| <= 4 then filtered else filtered[..4]
  }

  function YearIs(year: int): Album -> bool { (a: Album) => a.year == year }

  /**
   * `albumsByYear`: the left-to-right `reduce` that appends each album to the
   * list kept under its year, creating the list on the first album of that year.
   */
  function GroupByYear(albums: seq<Album>): (groups: map<int, seq<Album>>)
    ensures forall y :: y in groups ==> |groups[y]| > 0
    ensures forall y, a :: y in groups && a in groups[y] ==> a in albums && a.year == y
    decreases |albums|
  {
    if |albums| == 0 then map[]
    else
      var init := albums[..|albums| - 1];
      var groups := GroupByYear(init);
      var a := albums[|albums| - 1];
      var prior := if a.year in groups then groups[a.year] else [];
      assert albums == init + [a];
      assert forall b :: b in prior + [a] ==> b in prior || b == a;
      groups[a.year := prior + [a]]
  }

  /** Some album of `albums` was released in `year`. */
  ghost predicate HasYear(albums: seq<Album>, year: int) {
    exists a :: a in albums && a.year == year
  }

  /** For one year: it is a key exactly when it occurs, and its group is that year's albums in order. */
  lemma {:induction false} GroupOfYear(albums: seq<Album>, y: int)
    ensures y in GroupByYear(albums) <==> HasYear(albums, y)
    ensures y in GroupByYear(albums) ==> GroupByYear(albums)[y] == Seqs.Filter(albums, YearIs(y))
    decreases |albums|
  {
    if |albums| != 0 {
      var init := albums[..|albums| - 1];
      var a := albums[|albums| - 1];
      assert albums == init + [a];
      GroupOfYear(init, y);
      HasYearSnoc(init, a, y);
      GroupSnoc(init, a, y);
    }
  }

  /** One more album extends the group of its own year and leaves every other year's group alone. */
  lemma GroupSnoc(init: seq<Album>, a: Album, y: int)
    requires y in GroupByYear(init) <==> HasYear(init, y)
    requires y in GroupByYear(init) ==> GroupByYear(init)[y] == Seqs.Filter(init, YearIs(y))
    ensures y in GroupByYear(init + [a]) <==> y in GroupByYear(init) || a.year == y
    ensures y in GroupByYear(init + [a]) ==> GroupByYear(init + [a])[y] == Seqs.Filter(init + [a], YearIs(y))
  {
    var g := GroupByYear(init);
    assert (init + [a])[..|init|] == init;
    assert GroupByYear(init + [a]) == g[a.year := (if a.year in g then g[a.year] else []) + [a]];
    Seqs.FilterAppend(init, a, YearIs(y));
    if y !in g {
      assert forall j :: 0 <= j < |init| ==> init[j] in init;
      Seqs.FilterKeepsNone(init, YearIs(y));
    }
  }

  /** A year occurs in a list with one more album exactly when it occurs before or is that album's year. */
  lemma HasYearSnoc(init: seq<Album>, a: Album, y: int)
    ensures HasYear(init + [a], y) <==> HasYear(init, y) || a.year == y
  {
    if HasYear(init + [a], y) {
      var b :| b in init + [a] && b.year == y;
      if b != a {
        assert b in init;
      }
    }
    if HasYear(init, y) {
      var b :| b in init && b.year == y;
      assert b in init + [a];
    }
    if a.year == y {
      assert a in init + [a];
    }
  }

  /**
   * The groups are keyed by exactly the years that occur, and each group holds
   * that year's albums in their original order.
   */
  lemma GroupByYearSpec(albums: seq<Album>)
    ensures forall y :: y in GroupByYear(albums) <==> HasYear(albums, y)
    ensures forall y :: y in GroupByYear(albums) ==> GroupByYear(albums)[y] == Seqs.Filter(albums, YearIs(y))
  {
    forall y {
      GroupOfYear(albums, y);
    }
  }

  /** Every album lands in the group of its own year and in no other. */
  lemma EachAlbumInItsYear(albums: seq<Album>, a: Album, y: int)
    requires a in albums
    ensures a.year in GroupByYear(albums) && a in GroupByYear(albums)[a.year]
    ensures y in GroupByYear(albums) && a in GroupByYear(albums)[y] ==> y == a.year
  {
    GroupOfYear(albums, a.year);
    GroupOfYear(albums, y);
    Seqs.FilterMembers(albums, YearIs(a.year));
    Seqs.FilterMembers(albums, YearIs(y));
  }

  ghost predicate StrictlyDescending(ys: seq<int>) {
    forall i, j :: 0 <= i < j < |ys| ==> ys[i] > ys[j]
  }

  /** Adds `y` to a strictly descending list of years unless it is already there. */
  function InsertYear(y: int, ys: seq<int>): (r: seq<int>)
    requires StrictlyDescending(ys)
    ensures StrictlyDescending(r)
    ensures forall z :: z in r <==> z in ys || z == y
  {
    if |ys| == 0 then [y]
    else if y > ys[0] then [y] + ys
    else if y == ys[0] then ys
    else
      var rest := InsertYear(y, ys[1..]);
      assert forall i :: 0 <= i < |ys[1..]| ==> ys[1..][i] < ys[0];
      assert forall z :: z in rest ==> z < ys[0];
      var r := [ys[0]] + rest;
      assert forall i :: 1 <= i < |r| ==> r[i] == rest[i - 1] && r[i] in rest;
      r
  }

  /**
   * `years`: the keys of `albumsByYear` sorted with `(a, b) => b - a`, i.e. each
   * year that occurs, once, newest first.
   */
  function Years(albums: seq<Album>): (ys: seq<int>)
    ensures StrictlyDescending(ys)
    ensures forall y :: y in ys <==> HasYear(albums, y)
  {
    if |albums| == 0 then []
    else
      var rest := Years(albums[1..]);
      assert forall b :: b in albums <==> b == albums[0] || b in albums[1..];
      InsertYear(albums[0].year, rest)
  }

  /** What the explore page shows for a catalog and a query. */
  datatype View = View(
    filtered: seq<Album>,
    featured: seq<Album>,
    byYear: map<int, seq<Album>>,
    years: seq<int>)

  /**
   * The page: album search as in the library, at most four featured hits,
   * one group per occurring year holding that year's hits in order, and the
   * group years newest first; there are no groups exactly when nothing matched.
   */
  function Page(albums: seq<Album>, query: string): (v: View)
    ensures v.filtered == Search.FilterAlbums(albums, query)
    ensures |v.featured| == if |v.filtered| < 4 then |v.filtered| else 4
    ensures v.featured == v.filtered[..|v.featured|]
    ensures StrictlyDescending(v.years)
    ensures forall y :: y in v.years <==> y in v.byYear
    ensures forall y :: y in v.byYear ==> v.byYear[y] == Seqs.Filter(v.filtered, YearIs(y))
    ensures |v.years| == 0 <==> |v.filtered| == 0
  {
    var filtered := Search.FilterAlbums(albums, query);
    GroupByYearSpec(filtered);
    var years := Years(filtered);
    assert |filtered| > 0 ==> filtered[0].year in years;
    View(filtered, Featured(filtered), GroupByYear(filtered), years)
  }
}
