/** The local store: one denormalised table of videos, keyed by video_id by
    convention. The SQL statements of the store adapter are modelled by what they
    compute on the table's rows. */
module Database {
  import opened Common

  type Row = VideoRecord

  /** `SELECT 1 ... WHERE video_id = %s` finds a row. */
  function HasVideo(rows: seq<Row>, id: string): bool
  {
    if rows == [] then false
    else rows[|rows| - 1].videoId == id || HasVideo(rows[..|rows| - 1], id)
  }

  /** The lookup finds a row exactly when some row carries the id. */
  lemma {:induction false} HasVideoIff(rows: seq<Row>, id: string)
    ensures HasVideo(rows, id) <==> exists i :: 0 <= i < |rows| && rows[i].videoId == id
  {
    if rows != [] {
      var init := rows[..|rows| - 1];
      HasVideoIff(init, id);
      if HasVideo(init, id) {
        var i :| 0 <= i < |init| && init[i].videoId == id;
        assert rows[i] == init[i];
      }
      if i :| 0 <= i < |rows| && rows[i].videoId == id {
        if i < |init| {
          assert init[i] == rows[i];
        }
      }
    }
  }

  /** `SELECT 1 ... WHERE playlist_id = %s LIMIT 1` finds a row. */
  function HasPlaylist(rows: seq<Row>, pid: string): bool
  {
    if rows == [] then false
    else rows[|rows| - 1].playlistId == pid || HasPlaylist(rows[..|rows| - 1], pid)
  }

  /** The lookup finds a row exactly when some row belongs to the playlist. */
  lemma {:induction false} HasPlaylistIff(rows: seq<Row>, pid: string)
    ensures HasPlaylist(rows, pid) <==> exists i :: 0 <= i < |rows| && rows[i].playlistId == pid
  {
    if rows != [] {
      var init := rows[..|rows| - 1];
      HasPlaylistIff(init, pid);
      if HasPlaylist(init, pid) {
        var i :| 0 <= i < |init| && init[i].playlistId == pid;
        assert rows[i] == init[i];
      }
      if i :| 0 <= i < |rows| && rows[i].playlistId == pid {
        if i < |init| {
          assert init[i] == rows[i];
        }
      }
    }
  }

  /** The UPDATE statement on the rows carrying `id`. */
  function SetStats(rows: seq<Row>, id: string, views: nat, likes: nat): seq<Row>
  {
    if rows == [] then []
    else
      var last := rows[|rows| - 1];
      SetStats(rows[..|rows| - 1], id, views, likes)
        + [if last.videoId == id then last.(viewCount := views, likeCount := likes) else last]
  }

  /** Every row carrying `id` gets the new counts; every other row, and every other
      column, is left as it was; with no such row the table is unchanged. */
  lemma {:induction false} SetStatsPointwise(rows: seq<Row>, id: string, views: nat, likes: nat)
    ensures |SetStats(rows, id, views, likes)| == |rows|
    ensures forall i :: 0 <= i < |rows| ==>
      SetStats(rows, id, views, likes)[i]
        == if rows[i].videoId == id then rows[i].(viewCount := views, likeCount := likes) else rows[i]
  {
    if rows != [] {
      SetStatsPointwise(rows[..|rows| - 1], id, views, likes);
    }
  }

  lemma SetStatsAbsent(rows: seq<Row>, id: string, views: nat, likes: nat)
    requires !HasVideo(rows, id)
    ensures SetStats(rows, id, views, likes) == rows
  {
    SetStatsPointwise(rows, id, views, likes);
    HasVideoIff(rows, id);
  }

  /** `next` keeps every row of `rows` in its place, with at most its two count
      columns changed, and may hold further rows after them. */
  predicate Refreshes(rows: seq<Row>, next: seq<Row>)
  {
    |rows| <= |next| &&
    forall i :: 0 <= i < |rows| ==> next[i] == rows[i].(viewCount := next[i].viewCount, likeCount := next[i].likeCount)
  }

  lemma RefreshesTrans(a: seq<Row>, b: seq<Row>, c: seq<Row>)
    requires Refreshes(a, b) && Refreshes(b, c)
    ensures Refreshes(a, c)
  {
  }

  /** A refreshed table still holds every video id it held. */
  lemma RefreshesKeepsVideos(a: seq<Row>, b: seq<Row>, id: string)
    requires Refreshes(a, b) && HasVideo(a, id)
    ensures HasVideo(b, id)
  {
    HasVideoIff(a, id);
    HasVideoIff(b, id);
    var i :| 0 <= i < |a| && a[i].videoId == id;
    assert b[i].videoId == id;
  }

  /** The UPDATE changes the count columns only, and no row is added or removed. */
  lemma SetStatsRefreshes(rows: seq<Row>, id: string, views: nat, likes: nat)
    ensures |SetStats(rows, id, views, likes)| == |rows|
    ensures Refreshes(rows, SetStats(rows, id, views, likes))
    ensures Refreshes(SetStats(rows, id, views, likes), rows)
  {
    SetStatsPointwise(rows, id, views, likes);
  }

  /** The UPDATE leaves the set of video ids alone. */
  lemma SetStatsKeepsVideos(rows: seq<Row>, id: string, views: nat, likes: nat, x: string)
    ensures HasVideo(SetStats(rows, id, views, likes), x) == HasVideo(rows, x)
  {
    SetStatsRefreshes(rows, id, views, likes);
    if HasVideo(rows, x) {
      RefreshesKeepsVideos(rows, SetStats(rows, id, views, likes), x);
    }
    if HasVideo(SetStats(rows, id, views, likes), x) {
      RefreshesKeepsVideos(SetStats(rows, id, views, likes), rows, x);
    }
  }

  /** The lookup after an INSERT. */
  lemma HasVideoSnoc(rows: seq<Row>, v: Row, x: string)
    ensures HasVideo(rows + [v], x) == (v.videoId == x || HasVideo(rows, x))
  {
    assert (rows + [v])[..|rows|] == rows;
  }

  /** The convention the synchroniser keeps: no two rows share a video_id. The store
      does not enforce it. */
  predicate UniqueVideoIds(rows: seq<Row>)
  {
    forall i, j :: 0 <= i < j < |rows| ==> rows[i].videoId != rows[j].videoId
  }

  function PlaylistIds(rows: seq<Row>): (r: seq<string>)
    ensures |r| == |rows|
    ensures forall i :: 0 <= i < |rows| ==> r[i] == rows[i].playlistId
  {
    if rows == [] then [] else PlaylistIds(rows[..|rows| - 1]) + [rows[|rows| - 1].playlistId]
  }

  /** `WHERE playlist_id = %s`: each row of that playlist, as often as it occurs, and
      nothing else. */
  function RowsOfPlaylist(rows: seq<Row>, pid: string): (r: seq<Row>)
    ensures forall v :: multiset(r)[v] == if v.playlistId == pid then multiset(rows)[v] else 0
  {
    if rows == [] then []
    else
      var init := rows[..|rows| - 1];
      var last := rows[|rows| - 1];
      assert rows == init + [last];
      RowsOfPlaylist(init, pid) + if last.playlistId == pid then [last] else []
  }

  // ---------------------------------------------------------------------------
  // ORDER BY published_at DESC
  // ---------------------------------------------------------------------------

  /** Whether a row published at `a` may precede one published at `b` under
      `ORDER BY published_at DESC`: newer first, and, as PostgreSQL does by default
      for a descending order, a missing date before every date. */
  predicate NewerOrUndated(a: Option<Stamp>, b: Option<Stamp>)
  {
    a.None? || (b.Some? && a.value >= b.value)
  }

  predicate SortedNewestFirst(s: seq<Row>)
  {
    forall i, j :: 0 <= i < j < |s| ==> NewerOrUndated(s[i].publishedAt, s[j].publishedAt)
  }

  /** `x` placed before the first row it may precede. */
  function InsertNewestFirst(x: Row, s: seq<Row>): (r: seq<Row>)
    ensures |r| == |s| + 1
  {
    if s == [] || NewerOrUndated(x.publishedAt, s[0].publishedAt) then [x] + s
    else [s[0]] + InsertNewestFirst(x, s[1..])
  }

  /** The rows in the order `ORDER BY published_at DESC` returns them. */
  function SortNewestFirst(s: seq<Row>): (r: seq<Row>)
    ensures |r| == |s|
  {
    if s == [] then [] else InsertNewestFirst(s[0], SortNewestFirst(s[1..]))
  }

  lemma {:induction false} InsertNewestFirstPermutes(x: Row, s: seq<Row>)
    ensures multiset(InsertNewestFirst(x, s)) == multiset(s) + multiset{x}
  {
    if s != [] && !NewerOrUndated(x.publishedAt, s[0].publishedAt) {
      InsertNewestFirstPermutes(x, s[1..]);
      assert s == [s[0]] + s[1..];
    }
  }

  /** A row that may precede every row of a sorted list may go in front of it. */
  lemma ConsSorted(x: Row, s: seq<Row>)
    requires SortedNewestFirst(s)
    requires forall k :: 0 <= k < |s| ==> NewerOrUndated(x.publishedAt, s[k].publishedAt)
    ensures SortedNewestFirst([x] + s)
  {
    forall i, j | 0 <= i < j < |[x] + s|
      ensures NewerOrUndated(([x] + s)[i].publishedAt, ([x] + s)[j].publishedAt)
    {
      if i > 0 {
        assert ([x] + s)[i] == s[i - 1];
      }
      assert ([x] + s)[j] == s[j - 1];
    }
  }

  lemma {:induction false} InsertNewestFirstSorted(x: Row, s: seq<Row>)
    requires SortedNewestFirst(s)
    ensures SortedNewestFirst(InsertNewestFirst(x, s))
  {
    if s == [] {
    } else if NewerOrUndated(x.publishedAt, s[0].publishedAt) {
      forall k | 0 <= k < |s| ensures NewerOrUndated(x.publishedAt, s[k].publishedAt) {
        if k > 0 {
          assert NewerOrUndated(s[0].publishedAt, s[k].publishedAt);
        }
      }
      ConsSorted(x, s);
    } else {
      var tail := s[1..];
      assert SortedNewestFirst(tail) by {
        forall i, j | 0 <= i < j < |tail| ensures NewerOrUndated(tail[i].publishedAt, tail[j].publishedAt) {
          assert tail[i] == s[i + 1] && tail[j] == s[j + 1];
        }
      }
      var rest := InsertNewestFirst(x, tail);
      InsertNewestFirstSorted(x, tail);
      InsertNewestFirstPermutes(x, tail);
      forall k | 0 <= k < |rest| ensures NewerOrUndated(s[0].publishedAt, rest[k].publishedAt) {
        assert rest[k] in multiset(rest);
        if rest[k] != x {
          assert rest[k] in multiset(tail);
          var m :| 0 <= m < |tail| && tail[m] == rest[k];
          assert s[m + 1] == rest[k];
        }
      }
      ConsSorted(s[0], rest);
    }
  }

  /** The ordered rows are the table's rows, newest first. */
  lemma {:induction false} SortNewestFirstSorts(s: seq<Row>)
    ensures SortedNewestFirst(SortNewestFirst(s))
    ensures multiset(SortNewestFirst(s)) == multiset(s)
  {
    if s != [] {
      SortNewestFirstSorts(s[1..]);
      InsertNewestFirstSorted(s[0], SortNewestFirst(s[1..]));
      InsertNewestFirstPermutes(s[0], SortNewestFirst(s[1..]));
      assert s == [s[0]] + s[1..];
    }
  }

  // ---------------------------------------------------------------------------
  // The store adapter
  // ---------------------------------------------------------------------------

  /** The table behind the adapter's connection. `rejects` says which inserts the
      store refuses, raising an error from the INSERT. The refusal is a fixed
      property of the row, as a constraint the store enforces is: a row refused once
      is refused again. */
  class DatabaseManager {
    var rows: seq<Row>
    const rejects: Row -> bool

    constructor (initial: seq<Row>, rejects: Row -> bool)
      ensures rows == initial && this.rejects == rejects
    {
      this.rows := initial;
      this.rejects := rejects;
    }

    method VideoExists(id: string) returns (b: bool)
      ensures b <==> exists i :: 0 <= i < |rows| && rows[i].videoId == id
      ensures b == HasVideo(rows, id)
    {
      b := HasVideo(rows, id);
      HasVideoIff(rows, id);
    }

    method PlaylistExists(pid: string) returns (b: bool)
      ensures b <==> exists i :: 0 <= i < |rows| && rows[i].playlistId == pid
      ensures b == HasPlaylist(rows, pid)
    {
      b := HasPlaylist(rows, pid);
      HasPlaylistIff(rows, pid);
    }

    /** INSERT of the seven columns: one new row, all others untouched; a refused
        insert changes nothing. */
    method InsertVideo(v: Row) returns (ok: bool)
      modifies this
      ensures ok == !rejects(v)
      ensures rows == if ok then old(rows) + [v] else old(rows)
    {
      ok := !rejects(v);
      if ok {
        rows := rows + [v];
      }
    }

    /** The UPDATE of the two count columns; see SetStatsPointwise and
        SetStatsAbsent for what it changes. */
    method UpdateVideoStats(id: string, views: nat, likes: nat)
      modifies this
      ensures rows == SetStats(old(rows), id, views, likes)
    {
      rows := SetStats(rows, id, views, likes);
    }

    method GetAllVideos() returns (r: seq<Row>)
      ensures multiset(r) == multiset(rows)
      ensures SortedNewestFirst(r)
    {
      r := SortNewestFirst(rows);
      SortNewestFirstSorts(rows);
    }

    method GetVideosByPlaylist(pid: string) returns (r: seq<Row>)
      ensures forall v :: multiset(r)[v] == if v.playlistId == pid then multiset(rows)[v] else 0
      ensures SortedNewestFirst(r)
    {
      r := SortNewestFirst(RowsOfPlaylist(rows, pid));
      SortNewestFirstSorts(RowsOfPlaylist(rows, pid));
    }

    /** `SELECT DISTINCT playlist_id`: every playlist id in the table, once. */
    method GetExistingPlaylists() returns (r: seq<string>)
      ensures NoDuplicates(r)
      ensures forall p :: p in r <==> exists i :: 0 <= i < |rows| && rows[i].playlistId == p
    {
      var ids := PlaylistIds(rows);
      r := Distinct(ids);
      assert forall p :: p in ids <==> exists i :: 0 <= i < |rows| && rows[i].playlistId == p by {
        forall p ensures p in ids <==> exists i :: 0 <= i < |rows| && rows[i].playlistId == p {
          if p in ids {
            var i :| 0 <= i < |ids| && ids[i] == p;
            assert rows[i].playlistId == p;
          }
        }
      }
    }
  }
}
