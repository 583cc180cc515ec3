/** The synchroniser: brings the local table up to date with the channel. A check
    pass upserts every fetched video (update the counts of a known id, insert an
    unknown one); the initial load inserts only unknown ids. */
module DataLoader {
  import opened Common
  import opened Database
  import opened YouTubeApi

  // ---------------------------------------------------------------------------
  // The upsert discipline of a check pass
  // ---------------------------------------------------------------------------

  /** The table after upserting some records, the number of inserts and of updates,
      and whether an insert was refused (which aborts the pass). */
  datatype Upserted = Upserted(rows: seq<Row>, inserted: nat, updated: nat, failed: bool)

  /** The loop over one playlist's records: a known id gets the fetched counts, an
      unknown one is inserted, and a refused insert raises, ending the pass with the
      rows written so far. */
  function Upsert(rows: seq<Row>, videos: seq<VideoRecord>, rejects: Row -> bool): Upserted
    decreases |videos|
  {
    if videos == [] then Upserted(rows, 0, 0, false)
    else
      var v := videos[0];
      if HasVideo(rows, v.videoId) then
        var u := Upsert(SetStats(rows, v.videoId, v.viewCount, v.likeCount), videos[1..], rejects);
        u.(updated := u.updated + 1)
      else if rejects(v) then Upserted(rows, 0, 0, true)
      else
        var u := Upsert(rows + [v], videos[1..], rejects);
        u.(inserted := u.inserted + 1)
  }

  /** `u` with `a` more inserts and `b` more updates counted. */
  function Shift(u: Upserted, a: nat, b: nat): Upserted
  {
    u.(inserted := u.inserted + a, updated := u.updated + b)
  }

  /** Upserting `u`'s records and then `w`'s. */
  function Then(u: Upserted, w: Upserted): Upserted
  {
    Upserted(w.rows, u.inserted + w.inserted, u.updated + w.updated, w.failed)
  }

  /** The three counters of a check pass. */
  datatype Counts = Counts(newPlaylists: nat, newVideos: nat, updatedVideos: nat)

  datatype PassResult = PassResult(rows: seq<Row>, counts: Counts, failed: bool)

  /** What the client delivers for one playlist of the pass. */
  datatype Batch = Batch(playlist: Playlist, videos: seq<VideoRecord>)

  /** `batches` are what the client delivers for `pls`, playlist by playlist: each
      playlist with its items joined with their counts. */
  predicate FetchedFrom(batches: seq<Batch>, remote: Remote, pls: seq<Playlist>)
  {
    |batches| == |pls| &&
    forall i :: 0 <= i < |pls| ==> batches[i] == Batch(pls[i], VideosWithStats(remote, pls[i].id, pls[i].title))
  }

  /** The records of one more playlist of the list. */
  lemma FetchedStep(batches: seq<Batch>, remote: Remote, pls: seq<Playlist>, i: nat, videos: seq<VideoRecord>)
    requires i < |pls| && FetchedFrom(batches, remote, pls[..i])
    requires videos == VideosWithStats(remote, pls[i].id, pls[i].title)
    ensures FetchedFrom(batches + [Batch(pls[i], videos)], remote, pls[..i + 1])
  {
    assert pls[..i + 1] == pls[..i] + [pls[i]];
  }

  /** One iteration of `check_for_new_videos` after the pass so far gave `p`: the
      playlist counts as new when the table holds no row of it at that point; then
      its records are upserted and the counts added. */
  function Visit(p: PassResult, b: Batch, rejects: Row -> bool): PassResult
  {
    var u := Upsert(p.rows, b.videos, rejects);
    var np := if HasPlaylist(p.rows, b.playlist.id) then 0 else 1;
    PassResult(u.rows, Counts(p.counts.newPlaylists + np, p.counts.newVideos + u.inserted,
                              p.counts.updatedVideos + u.updated), u.failed)
  }

  /** `check_for_new_videos` over the fetched playlists: visit them in order and stop
      at the first refused insert. */
  function Pass(rows: seq<Row>, batches: seq<Batch>, rejects: Row -> bool): PassResult
    decreases |batches|
  {
    if batches == [] then PassResult(rows, Counts(0, 0, 0), false)
    else
      var p := Pass(rows, batches[..|batches| - 1], rejects);
      if p.failed then p else Visit(p, batches[|batches| - 1], rejects)
  }

  /** Every fetched record, playlist after playlist. */
  function Fetched(batches: seq<Batch>): seq<VideoRecord>
  {
    if batches == [] then [] else Fetched(batches[..|batches| - 1]) + batches[|batches| - 1].videos
  }

  // ---------------------------------------------------------------------------
  // The insert-if-absent discipline of the initial load
  // ---------------------------------------------------------------------------

  datatype Saved = Saved(rows: seq<Row>, added: nat)

  /** `_save_videos_to_database`: an unknown id is inserted and counted; a known id
      is left alone; a refused insert is swallowed and not counted. */
  function SaveAll(rows: seq<Row>, videos: seq<VideoRecord>, rejects: Row -> bool): Saved
    decreases |videos|
  {
    if videos == [] then Saved(rows, 0)
    else
      var v := videos[0];
      if !HasVideo(rows, v.videoId) && !rejects(v) then
        var s := SaveAll(rows + [v], videos[1..], rejects);
        s.(added := s.added + 1)
      else SaveAll(rows, videos[1..], rejects)
  }

  /** `load_initial_data` over the fetched playlists: each playlist's records are
      saved, and the total adds up the per-playlist counts. */
  function InitialLoad(rows: seq<Row>, batches: seq<Batch>, rejects: Row -> bool): Saved
    decreases |batches|
  {
    if batches == [] then Saved(rows, 0)
    else
      var s := InitialLoad(rows, batches[..|batches| - 1], rejects);
      var t := SaveAll(s.rows, batches[|batches| - 1].videos, rejects);
      Saved(t.rows, s.added + t.added)
  }

  // ---------------------------------------------------------------------------
  // One step of each loop
  // ---------------------------------------------------------------------------

  /** The outer loop of a pass after one more playlist. */
  lemma PassSnoc(rows: seq<Row>, batches: seq<Batch>, b: Batch, rejects: Row -> bool)
    ensures Pass(rows, batches + [b], rejects)
         == (var p := Pass(rows, batches, rejects); if p.failed then p else Visit(p, b, rejects))
  {
    assert (batches + [b])[..|batches|] == batches;
  }

  /** The upsert loop at record `j`. */
  lemma UpsertStep(rows: seq<Row>, videos: seq<VideoRecord>, j: nat, rejects: Row -> bool)
    requires j < |videos|
    ensures var v := videos[j];
            (Upsert(rows, videos[j..], rejects)
             == if HasVideo(rows, v.videoId)
                then Shift(Upsert(SetStats(rows, v.videoId, v.viewCount, v.likeCount), videos[j + 1..], rejects), 0, 1)
                else if rejects(v) then Upserted(rows, 0, 0, true)
                else Shift(Upsert(rows + [v], videos[j + 1..], rejects), 1, 0))
  {
    assert videos[j..][0] == videos[j] && videos[j..][1..] == videos[j + 1..];
  }

  /** The insert-if-absent loop at record `j`. */
  lemma SaveStep(rows: seq<Row>, videos: seq<VideoRecord>, j: nat, rejects: Row -> bool)
    requires j < |videos|
    ensures SaveAll(rows, videos[j..], rejects)
         == if !HasVideo(rows, videos[j].videoId) && !rejects(videos[j])
            then var s := SaveAll(rows + [videos[j]], videos[j + 1..], rejects); s.(added := s.added + 1)
            else SaveAll(rows, videos[j + 1..], rejects)
  {
    assert videos[j..][0] == videos[j] && videos[j..][1..] == videos[j + 1..];
  }

  /** The initial load after one more playlist. */
  lemma InitialLoadSnoc(rows: seq<Row>, batches: seq<Batch>, b: Batch, rejects: Row -> bool)
    ensures InitialLoad(rows, batches + [b], rejects)
         == (var s := InitialLoad(rows, batches, rejects);
             var t := SaveAll(s.rows, b.videos, rejects);
             Saved(t.rows, s.added + t.added))
  {
    assert (batches + [b])[..|batches|] == batches;
  }

  // ---------------------------------------------------------------------------
  // What an upsert does to the table
  // ---------------------------------------------------------------------------

  /** Upserting `a + b` is upserting `a` and then `b`, unless an insert of `a` was
      refused, which ends the loop there. */
  lemma {:induction false} UpsertAppend(rows: seq<Row>, a: seq<VideoRecord>, b: seq<VideoRecord>, rejects: Row -> bool)
    ensures var u := Upsert(rows, a, rejects);
            Upsert(rows, a + b, rejects) == (if u.failed then u else Then(u, Upsert(u.rows, b, rejects)))
    decreases |a|
  {
    if a == [] {
      assert a + b == b;
    } else {
      assert (a + b)[0] == a[0] && (a + b)[1..] == a[1..] + b;
      var v := a[0];
      if HasVideo(rows, v.videoId) {
        UpsertAppend(SetStats(rows, v.videoId, v.viewCount, v.likeCount), a[1..], b, rejects);
      } else if !rejects(v) {
        UpsertAppend(rows + [v], a[1..], b, rejects);
      }
    }
  }

  /** An upsert keeps every row in place, changing at most its counts, and appends
      one row per insert; on success every record was either an insert or an update,
      and a refused insert leaves at least that record uncounted. */
  lemma {:induction false} UpsertRefreshes(rows: seq<Row>, videos: seq<VideoRecord>, rejects: Row -> bool)
    ensures var u := Upsert(rows, videos, rejects);
            Refreshes(rows, u.rows) && |u.rows| == |rows| + u.inserted &&
            (if u.failed then u.inserted + u.updated < |videos| else u.inserted + u.updated == |videos|)
    decreases |videos|
  {
    if videos != [] {
      var v := videos[0];
      if HasVideo(rows, v.videoId) {
        var next := SetStats(rows, v.videoId, v.viewCount, v.likeCount);
        SetStatsRefreshes(rows, v.videoId, v.viewCount, v.likeCount);
        UpsertRefreshes(next, videos[1..], rejects);
        RefreshesTrans(rows, next, Upsert(next, videos[1..], rejects).rows);
      } else if !rejects(v) {
        UpsertRefreshes(rows + [v], videos[1..], rejects);
        RefreshesTrans(rows, rows + [v], Upsert(rows + [v], videos[1..], rejects).rows);
      }
    }
  }

  /** `r` is the record `v` up to its two count columns. */
  predicate SameVideo(r: Row, v: VideoRecord)
  {
    r == v.(viewCount := r.viewCount, likeCount := r.likeCount)
  }

  /** `r` is one of `videos`, up to its counts. */
  predicate FromRecords(r: Row, videos: seq<VideoRecord>)
  {
    exists j :: 0 <= j < |videos| && SameVideo(r, videos[j])
  }

  lemma FromRecordsTail(r: Row, videos: seq<VideoRecord>)
    requires videos != [] && (FromRecords(r, videos[1..]) || SameVideo(r, videos[0]))
    ensures FromRecords(r, videos)
  {
    if !SameVideo(r, videos[0]) {
      var j :| 0 <= j < |videos[1..]| && SameVideo(r, videos[1..][j]);
      assert videos[1..][j] == videos[j + 1];
    }
  }

  /** Every row an upsert appends is one of its records, up to the counts a later
      record with the same id may have written. */
  lemma {:induction false} UpsertNewRows(rows: seq<Row>, videos: seq<VideoRecord>, rejects: Row -> bool)
    ensures var u := Upsert(rows, videos, rejects);
            forall k :: |rows| <= k < |u.rows| ==> FromRecords(u.rows[k], videos)
    decreases |videos|
  {
    if videos != [] {
      var v := videos[0];
      var u := Upsert(rows, videos, rejects);
      if HasVideo(rows, v.videoId) {
        var next := SetStats(rows, v.videoId, v.viewCount, v.likeCount);
        SetStatsRefreshes(rows, v.videoId, v.viewCount, v.likeCount);
        UpsertNewRows(next, videos[1..], rejects);
        assert forall k :: |next| <= k < |Upsert(next, videos[1..], rejects).rows| ==> FromRecords(Upsert(next, videos[1..], rejects).rows[k], videos[1..]);
        assert u.rows == Upsert(next, videos[1..], rejects).rows;
        forall k | |rows| <= k < |u.rows| ensures FromRecords(u.rows[k], videos) {
          FromRecordsTail(u.rows[k], videos);
        }
      } else if !rejects(v) {
        UpsertNewRows(rows + [v], videos[1..], rejects);
        UpsertRefreshes(rows + [v], videos[1..], rejects);
        assert u.rows == Upsert(rows + [v], videos[1..], rejects).rows;
        forall k | |rows| <= k < |u.rows| ensures FromRecords(u.rows[k], videos) {
          if k == |rows| {
            assert (rows + [v])[k] == v;
            assert u.rows[k] == (rows + [v])[k].(viewCount := u.rows[k].viewCount, likeCount := u.rows[k].likeCount);
            assert SameVideo(u.rows[k], videos[0]);
          }
          FromRecordsTail(u.rows[k], videos);
        }
      }
    }
  }

  /** After an upsert that went through, the table holds every fetched id. */
  lemma {:induction false} UpsertCovers(rows: seq<Row>, videos: seq<VideoRecord>, rejects: Row -> bool)
    ensures var u := Upsert(rows, videos, rejects);
            !u.failed ==> forall k :: 0 <= k < |videos| ==> HasVideo(u.rows, videos[k].videoId)
    decreases |videos|
  {
    if videos != [] {
      var v := videos[0];
      var u := Upsert(rows, videos, rejects);
      var next := if HasVideo(rows, v.videoId) then SetStats(rows, v.videoId, v.viewCount, v.likeCount) else rows + [v];
      if HasVideo(rows, v.videoId) || !rejects(v) {
        assert u.rows == Upsert(next, videos[1..], rejects).rows;
        UpsertCovers(next, videos[1..], rejects);
        UpsertRefreshes(next, videos[1..], rejects);
        if HasVideo(rows, v.videoId) {
          SetStatsKeepsVideos(rows, v.videoId, v.viewCount, v.likeCount, v.videoId);
        } else {
          HasVideoSnoc(rows, v, v.videoId);
        }
        if !u.failed {
          RefreshesKeepsVideos(next, u.rows, v.videoId);
          forall k | 0 <= k < |videos| ensures HasVideo(u.rows, videos[k].videoId) {
            if k > 0 {
              assert videos[k] == videos[1..][k - 1];
            }
          }
        }
      }
    }
  }

  /** The records upserted before the first refused insert stay in the table, whatever
      the later records do: an aborted `upsert_videos` loses none of them. */
  lemma UpsertDurable(rows: seq<Row>, videos: seq<VideoRecord>, k: nat, rejects: Row -> bool)
    requires k <= |videos| && !Upsert(rows, videos[..k], rejects).failed
    ensures forall i :: 0 <= i < k ==> HasVideo(Upsert(rows, videos, rejects).rows, videos[i].videoId)
  {
    var a, b := videos[..k], videos[k..];
    assert a + b == videos;
    var u := Upsert(rows, a, rejects);
    UpsertAppend(rows, a, b, rejects);
    UpsertCovers(rows, a, rejects);
    UpsertRefreshes(u.rows, b, rejects);
    forall i | 0 <= i < k ensures HasVideo(Upsert(rows, videos, rejects).rows, videos[i].videoId) {
      assert a[i] == videos[i];
      RefreshesKeepsVideos(u.rows, Upsert(u.rows, b, rejects).rows, videos[i].videoId);
    }
  }

  /** An upsert never gives two rows the same video id. */
  lemma {:induction false} UpsertKeepsUnique(rows: seq<Row>, videos: seq<VideoRecord>, rejects: Row -> bool)
    requires UniqueVideoIds(rows)
    ensures UniqueVideoIds(Upsert(rows, videos, rejects).rows)
    decreases |videos|
  {
    if videos != [] {
      var v := videos[0];
      if HasVideo(rows, v.videoId) {
        var next := SetStats(rows, v.videoId, v.viewCount, v.likeCount);
        SetStatsRefreshes(rows, v.videoId, v.viewCount, v.likeCount);
        assert UniqueVideoIds(next) by {
          forall i, j | 0 <= i < j < |next| ensures next[i].videoId != next[j].videoId {
            assert next[i].videoId == rows[i].videoId && next[j].videoId == rows[j].videoId;
          }
        }
        UpsertKeepsUnique(next, videos[1..], rejects);
      } else if !rejects(v) {
        HasVideoIff(rows, v.videoId);
        assert UniqueVideoIds(rows + [v]) by {
          forall i, j | 0 <= i < j < |rows + [v]| ensures (rows + [v])[i].videoId != (rows + [v])[j].videoId {
            if j == |rows| {
              assert (rows + [v])[i] == rows[i];
            } else {
              assert (rows + [v])[i] == rows[i] && (rows + [v])[j] == rows[j];
            }
          }
        }
        UpsertKeepsUnique(rows + [v], videos[1..], rejects);
      }
    }
  }

  /** When the table already holds every id, an upsert inserts nothing, cannot fail
      and updates every record. */
  lemma {:induction false} UpsertAllPresent(rows: seq<Row>, videos: seq<VideoRecord>, rejects: Row -> bool)
    requires forall k :: 0 <= k < |videos| ==> HasVideo(rows, videos[k].videoId)
    ensures var u := Upsert(rows, videos, rejects);
            !u.failed && u.inserted == 0 && u.updated == |videos| && |u.rows| == |rows|
    decreases |videos|
  {
    if videos != [] {
      var v := videos[0];
      assert HasVideo(rows, v.videoId);
      var next := SetStats(rows, v.videoId, v.viewCount, v.likeCount);
      SetStatsRefreshes(rows, v.videoId, v.viewCount, v.likeCount);
      forall k | 0 <= k < |videos[1..]| ensures HasVideo(next, videos[1..][k].videoId) {
        assert videos[1..][k] == videos[k + 1];
        SetStatsKeepsVideos(rows, v.videoId, v.viewCount, v.likeCount, videos[k + 1].videoId);
      }
      UpsertAllPresent(next, videos[1..], rejects);
    }
  }

  /** Upserting records that do not carry `id` leaves the rows carrying `id` as they
      were. */
  lemma {:induction false} UpsertUntouched(rows: seq<Row>, videos: seq<VideoRecord>, id: string, rejects: Row -> bool)
    requires forall j :: 0 <= j < |videos| ==> videos[j].videoId != id
    ensures var u := Upsert(rows, videos, rejects);
            |rows| <= |u.rows| && forall i :: 0 <= i < |rows| && rows[i].videoId == id ==> u.rows[i] == rows[i]
    decreases |videos|
  {
    if videos != [] {
      var v := videos[0];
      assert forall j :: 0 <= j < |videos[1..]| ==> videos[1..][j] == videos[j + 1];
      if HasVideo(rows, v.videoId) {
        var next := SetStats(rows, v.videoId, v.viewCount, v.likeCount);
        SetStatsPointwise(rows, v.videoId, v.viewCount, v.likeCount);
        UpsertUntouched(next, videos[1..], id, rejects);
      } else if !rejects(v) {
        UpsertUntouched(rows + [v], videos[1..], id, rejects);
        assert forall i :: 0 <= i < |rows| ==> (rows + [v])[i] == rows[i];
      }
    }
  }

  /** After upserting one record that went through, every row carrying its id has
      its counts. */
  lemma UpsertOne(rows: seq<Row>, v: VideoRecord, rejects: Row -> bool)
    requires !Upsert(rows, [v], rejects).failed
    ensures var u := Upsert(rows, [v], rejects);
            forall i :: 0 <= i < |u.rows| && u.rows[i].videoId == v.videoId ==>
              u.rows[i].viewCount == v.viewCount && u.rows[i].likeCount == v.likeCount
  {
    assert [v][1..] == [];
    if HasVideo(rows, v.videoId) {
      SetStatsPointwise(rows, v.videoId, v.viewCount, v.likeCount);
    } else {
      HasVideoIff(rows, v.videoId);
      assert forall i :: 0 <= i < |rows| ==> (rows + [v])[i] == rows[i];
    }
  }

  /** The last record for an id decides its counts: after an upsert that went
      through, every row carrying the id of record `k`, when no later record carries
      that id, has the counts of record `k`. */
  lemma UpsertLastWins(rows: seq<Row>, videos: seq<VideoRecord>, k: nat, rejects: Row -> bool)
    requires k < |videos| && !Upsert(rows, videos, rejects).failed
    requires forall j :: k < j < |videos| ==> videos[j].videoId != videos[k].videoId
    ensures var u := Upsert(rows, videos, rejects);
            forall i :: 0 <= i < |u.rows| && u.rows[i].videoId == videos[k].videoId ==>
              u.rows[i].viewCount == videos[k].viewCount && u.rows[i].likeCount == videos[k].likeCount
  {
    var v := videos[k];
    var a, b := videos[..k], videos[k + 1..];
    assert videos == (a + [v]) + b;
    UpsertAppend(rows, a + [v], b, rejects);
    UpsertAppend(rows, a, [v], rejects);
    var ua := Upsert(rows, a, rejects);
    var uv := Upsert(rows, a + [v], rejects);
    assert !uv.failed && !ua.failed;
    assert uv.rows == Upsert(ua.rows, [v], rejects).rows;
    UpsertOne(ua.rows, v, rejects);
    UpsertLaterRecords(uv.rows, b, v, rejects);
  }

  /** Upserting records that do not carry `v`'s id after rows carrying it have `v`'s
      counts keeps them so. */
  lemma UpsertLaterRecords(rows: seq<Row>, b: seq<VideoRecord>, v: VideoRecord, rejects: Row -> bool)
    requires forall j :: 0 <= j < |b| ==> b[j].videoId != v.videoId
    requires forall i :: 0 <= i < |rows| && rows[i].videoId == v.videoId ==>
               rows[i].viewCount == v.viewCount && rows[i].likeCount == v.likeCount
    ensures var u := Upsert(rows, b, rejects);
            forall i :: 0 <= i < |u.rows| && u.rows[i].videoId == v.videoId ==>
              u.rows[i].viewCount == v.viewCount && u.rows[i].likeCount == v.likeCount
  {
    var u := Upsert(rows, b, rejects);
    UpsertUntouched(rows, b, v.videoId, rejects);
    UpsertNewRows(rows, b, rejects);
    UpsertRefreshes(rows, b, rejects);
    forall i | 0 <= i < |u.rows| && u.rows[i].videoId == v.videoId
      ensures u.rows[i].viewCount == v.viewCount && u.rows[i].likeCount == v.likeCount
    {
      if i < |rows| {
        assert rows[i].videoId == u.rows[i].videoId;
      }
    }
  }

  // ---------------------------------------------------------------------------
  // What a check pass does to the table
  // ---------------------------------------------------------------------------

  /** A pass is one upsert over every fetched record: the table, the outcome and the
      video counters are those of upserting the concatenated batches. Whether a
      playlist counts as new has no effect on the table. */
  lemma {:induction false} PassIsUpsert(rows: seq<Row>, batches: seq<Batch>, rejects: Row -> bool)
    ensures var p := Pass(rows, batches, rejects);
            var u := Upsert(rows, Fetched(batches), rejects);
            p.rows == u.rows && p.failed == u.failed &&
            p.counts.newVideos == u.inserted && p.counts.updatedVideos == u.updated
    decreases |batches|
  {
    if batches != [] {
      var init := batches[..|batches| - 1];
      PassIsUpsert(rows, init, rejects);
      UpsertAppend(rows, Fetched(init), batches[|batches| - 1].videos, rejects);
    }
  }

  /** Once a prefix of the pass failed, the rest of the pass changes nothing. */
  lemma {:induction false} PassStopsAtFailure(rows: seq<Row>, batches: seq<Batch>, k: nat, rejects: Row -> bool)
    requires k <= |batches| && Pass(rows, batches[..k], rejects).failed
    ensures Pass(rows, batches, rejects) == Pass(rows, batches[..k], rejects)
    decreases |batches|
  {
    if k < |batches| {
      var init := batches[..|batches| - 1];
      assert init[..k] == batches[..k];
      PassStopsAtFailure(rows, init, k, rejects);
    } else {
      assert batches[..k] == batches;
    }
  }

  /** A pass that went through leaves the table holding every fetched id, with old
      rows kept in place (up to their counts) and one new row per counted new
      video. */
  lemma PassCovers(rows: seq<Row>, batches: seq<Batch>, rejects: Row -> bool)
    ensures var p := Pass(rows, batches, rejects);
            Refreshes(rows, p.rows) && |p.rows| == |rows| + p.counts.newVideos &&
            (!p.failed ==> forall k :: 0 <= k < |Fetched(batches)| ==> HasVideo(p.rows, Fetched(batches)[k].videoId))
  {
    PassIsUpsert(rows, batches, rejects);
    UpsertRefreshes(rows, Fetched(batches), rejects);
    UpsertCovers(rows, Fetched(batches), rejects);
  }

  /** The counters a pass that went through reports: every fetched record was
      either a new video or an updated one, and the new ones are the rows added. */
  lemma PassCounts(rows: seq<Row>, batches: seq<Batch>, rejects: Row -> bool)
    ensures var p := Pass(rows, batches, rejects);
            !p.failed ==> p.counts.newVideos + p.counts.updatedVideos == |Fetched(batches)| &&
                          |p.rows| == |rows| + p.counts.newVideos
  {
    PassIsUpsert(rows, batches, rejects);
    UpsertRefreshes(rows, Fetched(batches), rejects);
  }

  /** The records of the playlists visited before the pass stopped stay in the table:
      durability of everything `check_for_new_videos` stored before an INSERT failed. */
  lemma {:induction false} PassDurable(rows: seq<Row>, batches: seq<Batch>, k: nat, rejects: Row -> bool)
    requires k <= |batches| && !Pass(rows, batches[..k], rejects).failed
    ensures forall i :: 0 <= i < |Fetched(batches[..k])| ==>
              HasVideo(Pass(rows, batches, rejects).rows, Fetched(batches[..k])[i].videoId)
    decreases |batches|
  {
    if k == |batches| {
      assert batches[..k] == batches;
      PassCovers(rows, batches, rejects);
    } else {
      var init := batches[..|batches| - 1];
      assert init[..k] == batches[..k];
      PassDurable(rows, init, k, rejects);
      var p := Pass(rows, init, rejects);
      if !p.failed {
        var b := batches[|batches| - 1];
        var next := Upsert(p.rows, b.videos, rejects).rows;
        assert Pass(rows, batches, rejects).rows == next;
        UpsertRefreshes(p.rows, b.videos, rejects);
        forall i | 0 <= i < |Fetched(batches[..k])|
          ensures HasVideo(Pass(rows, batches, rejects).rows, Fetched(batches[..k])[i].videoId)
        {
          RefreshesKeepsVideos(p.rows, next, Fetched(batches[..k])[i].videoId);
        }
      }
    }
  }

  /** A pass never gives two rows the same video id. */
  lemma PassKeepsUnique(rows: seq<Row>, batches: seq<Batch>, rejects: Row -> bool)
    requires UniqueVideoIds(rows)
    ensures UniqueVideoIds(Pass(rows, batches, rejects).rows)
  {
    PassIsUpsert(rows, batches, rejects);
    UpsertKeepsUnique(rows, Fetched(batches), rejects);
  }

  /** Repeating a pass that went through, with the same records: nothing is
      inserted, nothing fails, every record is an update, and the table keeps its
      size. */
  lemma PassRerun(rows: seq<Row>, batches: seq<Batch>, rejects: Row -> bool)
    requires !Pass(rows, batches, rejects).failed
    ensures var p := Pass(rows, batches, rejects);
            var q := Pass(p.rows, batches, rejects);
            !q.failed && q.counts.newVideos == 0 && q.counts.updatedVideos == |Fetched(batches)| &&
            |q.rows| == |p.rows|
  {
    var p := Pass(rows, batches, rejects);
    PassIsUpsert(rows, batches, rejects);
    UpsertCovers(rows, Fetched(batches), rejects);
    PassIsUpsert(p.rows, batches, rejects);
    UpsertAllPresent(p.rows, Fetched(batches), rejects);
  }

  /** Records fetched for kept playlists belong to kept playlists. */
  lemma {:induction false} FetchedPlaylists(batches: seq<Batch>, remote: Remote, pls: seq<Playlist>, skip: seq<string>)
    requires FetchedFrom(batches, remote, pls)
    requires forall i :: 0 <= i < |pls| ==> pls[i].id !in skip
    ensures forall k :: 0 <= k < |Fetched(batches)| ==> Fetched(batches)[k].playlistId !in skip
    decreases |batches|
  {
    if batches != [] {
      var n := |batches| - 1;
      FetchedPlaylists(batches[..n], remote, pls[..n], skip);
      VideosWithStatsStamped(remote, pls[n].id, pls[n].title);
      assert batches[n].videos == VideosWithStats(remote, pls[n].id, pls[n].title);
    }
  }

  /** No row a check pass over the channel adds belongs to an excluded playlist. */
  lemma PassSkipsExcluded(rows: seq<Row>, batches: seq<Batch>, remote: Remote, skip: seq<string>, rejects: Row -> bool)
    requires |batches| <= |ChannelPlaylists(remote, skip)|
    requires FetchedFrom(batches, remote, ChannelPlaylists(remote, skip)[..|batches|])
    ensures var p := Pass(rows, batches, rejects);
            forall k :: |rows| <= k < |p.rows| ==> p.rows[k].playlistId !in skip
  {
    var pls := ChannelPlaylists(remote, skip);
    KeptPlaylistsFilter(Listing(remote.playlistPages), skip);
    FetchedPlaylists(batches, remote, pls[..|batches|], skip);
    PassIsUpsert(rows, batches, rejects);
    UpsertNewRows(rows, Fetched(batches), rejects);
  }

  // ---------------------------------------------------------------------------
  // What the initial load does to the table
  // ---------------------------------------------------------------------------

  /** The insert-if-absent loop only appends: the old rows stay as they were, there
      is one new row per counted insert, at most one per record, and each new row is
      a record the store accepted whose id no earlier row carries. */
  lemma {:induction false} SaveAllAppends(rows: seq<Row>, videos: seq<VideoRecord>, rejects: Row -> bool)
    ensures var s := SaveAll(rows, videos, rejects);
            |s.rows| == |rows| + s.added && s.added <= |videos| && s.rows[..|rows|] == rows &&
            forall k :: |rows| <= k < |s.rows| ==>
              s.rows[k] in videos && !rejects(s.rows[k]) && !HasVideo(s.rows[..k], s.rows[k].videoId)
    decreases |videos|
  {
    if videos != [] {
      var v := videos[0];
      var s := SaveAll(rows, videos, rejects);
      if !HasVideo(rows, v.videoId) && !rejects(v) {
        SaveAllAppends(rows + [v], videos[1..], rejects);
        assert s.rows == SaveAll(rows + [v], videos[1..], rejects).rows;
        assert s.rows[..|rows| + 1] == rows + [v];
        assert s.rows[..|rows|] == (rows + [v])[..|rows|] == rows;
        forall k | |rows| <= k < |s.rows|
          ensures s.rows[k] in videos && !rejects(s.rows[k]) && !HasVideo(s.rows[..k], s.rows[k].videoId)
        {
          if k == |rows| {
            assert s.rows[k] == (rows + [v])[k] == v;
          } else {
            assert s.rows[k] in videos[1..];
          }
        }
      } else {
        SaveAllAppends(rows, videos[1..], rejects);
        forall k | |rows| <= k < |s.rows| ensures s.rows[k] in videos {
          assert s.rows[k] in videos[1..];
        }
      }
    }
  }

  /** After the loop every record's id is in the table, unless the store refused
      that record. */
  lemma {:induction false} SaveAllCovers(rows: seq<Row>, videos: seq<VideoRecord>, rejects: Row -> bool)
    ensures var s := SaveAll(rows, videos, rejects);
            forall k :: 0 <= k < |videos| ==> HasVideo(s.rows, videos[k].videoId) || rejects(videos[k])
    decreases |videos|
  {
    if videos != [] {
      var v := videos[0];
      var s := SaveAll(rows, videos, rejects);
      var next := if !HasVideo(rows, v.videoId) && !rejects(v) then rows + [v] else rows;
      assert s == SaveAll(next, videos[1..], rejects).(added := s.added);
      SaveAllCovers(next, videos[1..], rejects);
      SaveAllAppends(next, videos[1..], rejects);
      assert Refreshes(next, s.rows) by {
        forall i | 0 <= i < |next| ensures s.rows[i] == next[i] {
          assert s.rows[i] == s.rows[..|next|][i];
        }
      }
      HasVideoSnoc(rows, v, v.videoId);
      if HasVideo(next, v.videoId) {
        RefreshesKeepsVideos(next, s.rows, v.videoId);
      }
      forall k | 0 <= k < |videos| ensures HasVideo(s.rows, videos[k].videoId) || rejects(videos[k]) {
        if k > 0 {
          assert videos[k] == videos[1..][k - 1];
        }
      }
    }
  }

  /** The loop never gives two rows the same video id. */
  lemma SaveAllKeepsUnique(rows: seq<Row>, videos: seq<VideoRecord>, rejects: Row -> bool)
    requires UniqueVideoIds(rows)
    ensures UniqueVideoIds(SaveAll(rows, videos, rejects).rows)
  {
    var s := SaveAll(rows, videos, rejects).rows;
    SaveAllAppends(rows, videos, rejects);
    forall i, j | 0 <= i < j < |s| ensures s[i].videoId != s[j].videoId {
      if j < |rows| {
        assert s[i] == rows[i] && s[j] == rows[j];
      } else {
        HasVideoIff(s[..j], s[j].videoId);
        assert s[..j][i] == s[i];
      }
    }
  }

  /** With every id already in the table or refused, the loop changes nothing. */
  lemma {:induction false} SaveAllNoop(rows: seq<Row>, videos: seq<VideoRecord>, rejects: Row -> bool)
    requires forall k :: 0 <= k < |videos| ==> HasVideo(rows, videos[k].videoId) || rejects(videos[k])
    ensures SaveAll(rows, videos, rejects) == Saved(rows, 0)
    decreases |videos|
  {
    if videos != [] {
      assert forall k :: 0 <= k < |videos[1..]| ==> videos[1..][k] == videos[k + 1];
      SaveAllNoop(rows, videos[1..], rejects);
    }
  }

  /** Saving the same records twice: the second time adds nothing, since a record
      the store refused is refused again. */
  lemma SaveAllTwice(rows: seq<Row>, videos: seq<VideoRecord>, rejects: Row -> bool)
    ensures var s := SaveAll(rows, videos, rejects);
            SaveAll(s.rows, videos, rejects) == Saved(s.rows, 0)
  {
    SaveAllCovers(rows, videos, rejects);
    SaveAllNoop(SaveAll(rows, videos, rejects).rows, videos, rejects);
  }

  /** Saving `a + b` is saving `a` and then `b`. */
  lemma {:induction false} SaveAllAppend(rows: seq<Row>, a: seq<VideoRecord>, b: seq<VideoRecord>, rejects: Row -> bool)
    ensures var s := SaveAll(rows, a, rejects);
            var t := SaveAll(s.rows, b, rejects);
            SaveAll(rows, a + b, rejects) == Saved(t.rows, s.added + t.added)
    decreases |a|
  {
    if a == [] {
      assert a + b == b;
    } else {
      assert (a + b)[0] == a[0] && (a + b)[1..] == a[1..] + b;
      var v := a[0];
      if !HasVideo(rows, v.videoId) && !rejects(v) {
        SaveAllAppend(rows + [v], a[1..], b, rejects);
      } else {
        SaveAllAppend(rows, a[1..], b, rejects);
      }
    }
  }

  /** The initial load is one insert-if-absent loop over every fetched record, and
      its total is that loop's count. */
  lemma {:induction false} InitialLoadIsSave(rows: seq<Row>, batches: seq<Batch>, rejects: Row -> bool)
    ensures InitialLoad(rows, batches, rejects) == SaveAll(rows, Fetched(batches), rejects)
    decreases |batches|
  {
    if batches != [] {
      var init := batches[..|batches| - 1];
      InitialLoadIsSave(rows, init, rejects);
      SaveAllAppend(rows, Fetched(init), batches[|batches| - 1].videos, rejects);
    }
  }

  /** Running the initial load again on the same records adds nothing, since a
      record the store refused is refused again. */
  lemma InitialLoadTwice(rows: seq<Row>, batches: seq<Batch>, rejects: Row -> bool)
    ensures var l := InitialLoad(rows, batches, rejects);
            InitialLoad(l.rows, batches, rejects) == Saved(l.rows, 0)
  {
    var l := InitialLoad(rows, batches, rejects);
    InitialLoadIsSave(rows, batches, rejects);
    InitialLoadIsSave(l.rows, batches, rejects);
    SaveAllTwice(rows, Fetched(batches), rejects);
  }

  /** The initial load keeps the old rows, gives no two rows the same id, covers
      every fetched record the store accepts, and adds no row of an excluded
      playlist. */
  lemma InitialLoadOutcome(rows: seq<Row>, batches: seq<Batch>, remote: Remote, skip: seq<string>, rejects: Row -> bool)
    requires UniqueVideoIds(rows)
    requires FetchedFrom(batches, remote, ChannelPlaylists(remote, skip))
    ensures var l := InitialLoad(rows, batches, rejects);
            var f := Fetched(batches);
            |l.rows| == |rows| + l.added && l.rows[..|rows|] == rows && UniqueVideoIds(l.rows) &&
            (forall k :: 0 <= k < |f| ==> HasVideo(l.rows, f[k].videoId) || rejects(f[k])) &&
            (forall k :: |rows| <= k < |l.rows| ==> l.rows[k].playlistId !in skip)
  {
    var l := InitialLoad(rows, batches, rejects);
    var f := Fetched(batches);
    InitialLoadIsSave(rows, batches, rejects);
    SaveAllAppends(rows, f, rejects);
    SaveAllCovers(rows, f, rejects);
    SaveAllKeepsUnique(rows, f, rejects);
    KeptPlaylistsFilter(Listing(remote.playlistPages), skip);
    FetchedPlaylists(batches, remote, ChannelPlaylists(remote, skip), skip);
    forall k | |rows| <= k < |l.rows| ensures l.rows[k].playlistId !in skip {
      var j :| 0 <= j < |f| && f[j] == l.rows[k];
    }
  }

  // ---------------------------------------------------------------------------
  // The synchroniser
  // ---------------------------------------------------------------------------

  class Loader {
    const db: DatabaseManager
    const remote: Remote
    /** The excluded playlist ids the client is configured with. */
    const skip: seq<string>

    constructor (db: DatabaseManager, remote: Remote, skip: seq<string>)
      ensures this.db == db && this.remote == remote && this.skip == skip
    {
      this.db := db;
      this.remote := remote;
      this.skip := skip;
    }

    /** `check_for_new_videos`: `batches` are the records fetched for a prefix of
        the channel's playlists, all of them unless an insert was refused; the
        table becomes that of the pass over them, and the counters are returned,
        or nothing when the pass was aborted. */
    method CheckForNewVideos() returns (outcome: Option<Counts>, ghost batches: seq<Batch>)
      modifies db
      ensures var pls := ChannelPlaylists(remote, skip);
              |batches| <= |pls| && FetchedFrom(batches, remote, pls[..|batches|])
      ensures var p := Pass(old(db.rows), batches, db.rejects);
              db.rows == p.rows && outcome == (if p.failed then None else Some(p.counts))
      ensures outcome.Some? ==> |batches| == |ChannelPlaylists(remote, skip)|
      ensures outcome.Some? ==> outcome.value.newVideos + outcome.value.updatedVideos == |Fetched(batches)|
    {
      var playlists, _, _ := GetChannelPlaylists(remote, skip);
      ghost var start := db.rows;
      batches := [];
      var counts := Counts(0, 0, 0);
      for i := 0 to |playlists|
        invariant |batches| == i && FetchedFrom(batches, remote, playlists[..i])
        invariant Pass(start, batches, db.rejects) == PassResult(db.rows, counts, false)
      {
        var p := playlists[i];
        PassSnoc(start, batches, Batch(p, VideosWithStats(remote, p.id, p.title)), db.rejects);
        var videos, next, ok := SyncPlaylist(p, counts);
        FetchedStep(batches, remote, playlists, i, videos);
        batches := batches + [Batch(p, videos)];
        if !ok {
          return None, batches;
        }
        counts := next;
      }
      assert playlists[..|playlists|] == playlists;
      PassCounts(start, batches, db.rejects);
      outcome := Some(counts);
    }

    /** One iteration of `check_for_new_videos`: the records fetched for the
        playlist, their upsert, and the counters advanced by one visit of the pass
        (a playlist counts as new when the table held no row of it); `ok` is false
        when an insert was refused, and the counters are then discarded. */
    method SyncPlaylist(p: Playlist, counts: Counts) returns (videos: seq<VideoRecord>, next: Counts, ok: bool)
      modifies db
      ensures videos == VideosWithStats(remote, p.id, p.title)
      ensures var v := Visit(PassResult(old(db.rows), counts, false), Batch(p, videos), db.rejects);
              db.rows == v.rows && ok == !v.failed && (ok ==> next == v.counts)
    {
      var known := db.PlaylistExists(p.id);
      videos := GetAllVideosWithStats(remote, p.id, p.title);
      var inserted, updated;
      inserted, updated, ok := UpsertVideos(videos);
      next := Counts(counts.newPlaylists + if known then 0 else 1, counts.newVideos + inserted, counts.updatedVideos + updated);
    }

    /** The loop over one playlist's records inside `check_for_new_videos`: the
        table becomes that of the upsert; `ok` is false when an insert was refused,
        which raises out of the pass. */
    method UpsertVideos(videos: seq<VideoRecord>) returns (inserted: nat, updated: nat, ok: bool)
      modifies db
      ensures var u := Upsert(old(db.rows), videos, db.rejects);
              db.rows == u.rows && ok == !u.failed && (ok ==> inserted == u.inserted && updated == u.updated)
    {
      ghost var goal := Upsert(db.rows, videos, db.rejects);
      inserted, updated := 0, 0;
      assert videos[0..] == videos;
      for j := 0 to |videos|
        invariant goal == Shift(Upsert(db.rows, videos[j..], db.rejects), inserted, updated)
      {
        var v := videos[j];
        ghost var rows := db.rows;
        UpsertStep(db.rows, videos, j, db.rejects);
        var present := db.VideoExists(v.videoId);
        assert present == HasVideo(rows, v.videoId);
        if present {
          ghost var next := SetStats(rows, v.videoId, v.viewCount, v.likeCount);
          db.UpdateVideoStats(v.videoId, v.viewCount, v.likeCount);
          assert db.rows == next;
          updated := updated + 1;
        } else {
          ok := db.InsertVideo(v);
          if !ok {
            return;
          }
          assert db.rows == rows + [v];
          inserted := inserted + 1;
        }
      }
      assert videos[|videos|..] == [];
      ok := true;
    }

    /** `_save_videos_to_database`: the table and the count of the insert-if-absent
        loop. */
    method SaveVideosToDatabase(videos: seq<VideoRecord>) returns (added: nat)
      modifies db
      ensures db.rows == SaveAll(old(db.rows), videos, db.rejects).rows
      ensures added == SaveAll(old(db.rows), videos, db.rejects).added
    {
      ghost var start := db.rows;
      added := 0;
      for j := 0 to |videos|
        invariant SaveAll(start, videos, db.rejects)
               == Saved(SaveAll(db.rows, videos[j..], db.rejects).rows, added + SaveAll(db.rows, videos[j..], db.rejects).added)
      {
        var v := videos[j];
        SaveStep(db.rows, videos, j, db.rejects);
        var present := db.VideoExists(v.videoId);
        if !present {
          var ok := db.InsertVideo(v);
          if ok {
            added := added + 1;
          }
        }
      }
    }

    /** `load_initial_data`: nothing happens when the channel has no playlists;
        otherwise each playlist's records are saved, and `total` is the number of
        rows added (the figure the loader logs). `batches` are the records
        fetched. */
    method LoadInitialData() returns (total: nat, ghost batches: seq<Batch>)
      modifies db
      ensures FetchedFrom(batches, remote, ChannelPlaylists(remote, skip))
      ensures var l := InitialLoad(old(db.rows), batches, db.rejects);
              db.rows == l.rows && total == l.added
    {
      var playlists, _, _ := GetChannelPlaylists(remote, skip);
      batches := [];
      if |playlists| == 0 {
        return 0, batches;
      }
      ghost var start := db.rows;
      total := 0;
      for i := 0 to |playlists|
        invariant |batches| == i && FetchedFrom(batches, remote, playlists[..i])
        invariant InitialLoad(start, batches, db.rejects) == Saved(db.rows, total)
      {
        var p := playlists[i];
        var videos, added := LoadPlaylist(p);
        InitialLoadSnoc(start, batches, Batch(p, videos), db.rejects);
        FetchedStep(batches, remote, playlists, i, videos);
        batches := batches + [Batch(p, videos)];
        total := total + added;
      }
      assert playlists[..|playlists|] == playlists;
    }

    /** One iteration of `load_initial_data`: the records fetched for the playlist
        and the outcome of saving them. */
    method LoadPlaylist(p: Playlist) returns (videos: seq<VideoRecord>, added: nat)
      modifies db
      ensures videos == VideosWithStats(remote, p.id, p.title)
      ensures db.rows == SaveAll(old(db.rows), videos, db.rejects).rows
      ensures added == SaveAll(old(db.rows), videos, db.rejects).added
    {
      videos := GetAllVideosWithStats(remote, p.id, p.title);
      added := SaveVideosToDatabase(videos);
    }
  }
}
