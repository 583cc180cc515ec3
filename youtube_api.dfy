/** The remote collection client: paginated playlist and playlist-item listings,
    statistics fetched in chunks of at most 50 ids, and the join of the two. The
    provider is an oracle: a listing is the sequence of replies its requests get, and
    a statistics request maps a chunk of ids to a reply. */
module YouTubeApi {
  import opened Common

  /** The reply to one listing request: a page of items with an optional
      continuation token, or a failed request (a network error or a non-success
      status). */
  datatype Response<T> = Failed | Page(items: seq<T>, nextPageToken: Option<string>)

  /** The token asks for a further page. An empty token is falsy in Python and ends
      the listing like a missing one. */
  predicate HasMore(tok: Option<string>)
  {
    tok.Some? && tok.value != ""
  }

  predicate Continues<T>(r: Response<T>)
  {
    r.Page? && HasMore(r.nextPageToken)
  }

  /** The provider as seen by the client. The k-th request of the channel's playlist
      listing gets `playlistPages[k]`, and a request beyond the last reply fails;
      `itemPages(pid)` is the same for the items of playlist `pid`; `stats(chunk)` is
      the reply to one statistics request. */
  datatype Remote = Remote(
    playlistPages: seq<Response<PlaylistItem>>,
    itemPages: string -> seq<Response<PlaylistVideoItem>>,
    stats: seq<string> -> StatsResponse)

  // ---------------------------------------------------------------------------
  // Pagination
  // ---------------------------------------------------------------------------

  /** The items a paginated listing accumulates: page after page, up to and including
      the first page without a continuation token; a failed request ends the listing
      and contributes nothing. */
  function Listing<T>(pages: seq<Response<T>>): seq<T>
  {
    if pages == [] then []
    else match pages[0]
      case Failed => []
      case Page(items, tok) => items + if HasMore(tok) then Listing(pages[1..]) else []
  }

  /** The number of requests a paginated listing issues. */
  function Requests<T>(pages: seq<Response<T>>): nat
  {
    if pages != [] && Continues(pages[0]) then 1 + Requests(pages[1..]) else 1
  }

  /** The items of every page reply, in page order. */
  function PageItems<T>(pages: seq<Response<T>>): seq<T>
  {
    if pages == [] then [] else (if pages[0].Page? then pages[0].items else []) + PageItems(pages[1..])
  }

  /** Pagination stops at the first page without a continuation token: that page's
      request is the last one, and the result is every item up to it. */
  lemma {:induction false} ListingEndsAtFinalPage<T>(pages: seq<Response<T>>, n: nat)
    requires n < |pages|
    requires forall i :: 0 <= i < n ==> Continues(pages[i])
    requires pages[n].Page? && !HasMore(pages[n].nextPageToken)
    ensures Requests(pages) == n + 1
    ensures Listing(pages) == PageItems(pages[..n + 1])
  {
    if n == 0 {
      assert PageItems(pages[..1]) == pages[0].items + PageItems(pages[..1][1..]);
      assert pages[..1][1..] == [];
    } else {
      ListingEndsAtFinalPage(pages[1..], n - 1);
      assert pages[..n + 1][1..] == pages[1..][..n];
    }
  }

  /** A failed request ends pagination without a retry; the items of the earlier
      pages are kept. A request beyond the provider's last reply counts as failed. */
  lemma {:induction false} ListingEndsAtFailure<T>(pages: seq<Response<T>>, n: nat)
    requires n <= |pages|
    requires forall i :: 0 <= i < n ==> Continues(pages[i])
    requires n == |pages| || pages[n].Failed?
    ensures Requests(pages) == n + 1
    ensures Listing(pages) == PageItems(pages[..n])
  {
    if n == 0 {
    } else {
      ListingEndsAtFailure(pages[1..], n - 1);
      assert pages[..n][1..] == pages[1..][..n - 1];
    }
  }

  /** The last request of the pagination loop: no further reply, a failure, or a
      page without a continuation token. */
  lemma ListingStop<T>(pages: seq<Response<T>>, k: nat, seen: seq<T>)
    requires k <= |pages| && (k == |pages| || !Continues(pages[k]))
    requires Listing(pages) == seen + Listing(pages[k..])
    requires Requests(pages) == k + Requests(pages[k..])
    ensures Listing(pages) == seen + if k < |pages| && pages[k].Page? then pages[k].items else []
    ensures Requests(pages) == k + 1
  {
    if k < |pages| {
      assert pages[k..][0] == pages[k];
    }
  }

  /** A request of the pagination loop that is followed by another. */
  lemma ListingAdvance<T>(pages: seq<Response<T>>, k: nat, seen: seq<T>)
    requires k < |pages| && Continues(pages[k])
    requires Listing(pages) == seen + Listing(pages[k..])
    requires Requests(pages) == k + Requests(pages[k..])
    ensures Listing(pages) == (seen + pages[k].items) + Listing(pages[k + 1..])
    ensures Requests(pages) == k + 1 + Requests(pages[k + 1..])
  {
    assert pages[k..][0] == pages[k];
    assert pages[k..][1..] == pages[k + 1..];
    assert Listing(pages[k..]) == pages[k].items + Listing(pages[k + 1..]);
  }

  // ---------------------------------------------------------------------------
  // Playlists of the channel
  // ---------------------------------------------------------------------------

  /** An item of the playlist listing; description, video count and date may be
      absent from the reply. */
  datatype PlaylistItem = PlaylistItem(
    id: string, title: string, description: Option<string>,
    videoCount: Option<nat>, publishedAt: Option<Stamp>)

  datatype Playlist = Playlist(
    id: string, title: string, description: string, videoCount: nat, publishedAt: Option<Stamp>)

  function ToPlaylist(item: PlaylistItem): Playlist
  {
    Playlist(item.id, item.title,
             if item.description.Some? then item.description.value else "",
             if item.videoCount.Some? then item.videoCount.value else 0,
             item.publishedAt)
  }

  /** The skip filter: the items whose id is not excluded, as playlists, in order. */
  function KeptPlaylists(items: seq<PlaylistItem>, skip: seq<string>): (r: seq<Playlist>)
    ensures |r| <= |items|
  {
    if items == [] then []
    else
      KeptPlaylists(items[..|items| - 1], skip)
        + if items[|items| - 1].id in skip then [] else [ToPlaylist(items[|items| - 1])]
  }

  /** The filter keeps exactly the items whose id is not excluded. */
  lemma {:induction false} KeptPlaylistsFilter(items: seq<PlaylistItem>, skip: seq<string>)
    ensures forall i :: 0 <= i < |KeptPlaylists(items, skip)| ==> KeptPlaylists(items, skip)[i].id !in skip
    ensures forall i :: 0 <= i < |items| && items[i].id !in skip ==> ToPlaylist(items[i]) in KeptPlaylists(items, skip)
  {
    if items != [] {
      var init := items[..|items| - 1];
      KeptPlaylistsFilter(init, skip);
      assert forall i :: 0 <= i < |items| - 1 ==> items[i] == init[i];
    }
  }

  lemma KeptPlaylistsSnoc(items: seq<PlaylistItem>, x: PlaylistItem, skip: seq<string>)
    ensures KeptPlaylists(items + [x], skip)
         == KeptPlaylists(items, skip) + if x.id in skip then [] else [ToPlaylist(x)]
  {
    assert (items + [x])[..|items|] == items;
  }

  /** The playlists the channel listing delivers once the excluded ids are dropped. */
  function ChannelPlaylists(remote: Remote, skip: seq<string>): seq<Playlist>
  {
    KeptPlaylists(Listing(remote.playlistPages), skip)
  }

  /** The loop over one page's items: each excluded id is counted as skipped, every
      other item is appended as a playlist. */
  method AppendKeptPlaylists(acc: seq<Playlist>, ghost seen: seq<PlaylistItem>, items: seq<PlaylistItem>, skip: seq<string>)
    returns (playlists: seq<Playlist>, skipped: nat)
    requires acc == KeptPlaylists(seen, skip)
    ensures playlists == KeptPlaylists(seen + items, skip)
    ensures |playlists| == |acc| + |items| - skipped
  {
    playlists, skipped := acc, 0;
    assert seen + items[..0] == seen;
    for j := 0 to |items|
      invariant playlists == KeptPlaylists(seen + items[..j], skip)
      invariant |playlists| + skipped == |acc| + j
    {
      KeptPlaylistsSnoc(seen + items[..j], items[j], skip);
      AppendPrefixSnoc(seen, items, j);
      if items[j].id in skip {
        skipped := skipped + 1;
      } else {
        playlists := playlists + [ToPlaylist(items[j])];
      }
    }
    assert items[..|items|] == items;
  }

  /** The channel's playlists: the listing's items minus the excluded ids, in page
      order and item order; `skipped` counts the excluded items and `requests` the
      listing requests issued. */
  method GetChannelPlaylists(remote: Remote, skip: seq<string>)
    returns (playlists: seq<Playlist>, skipped: nat, requests: nat)
    ensures playlists == ChannelPlaylists(remote, skip)
    ensures forall i :: 0 <= i < |playlists| ==> playlists[i].id !in skip
    ensures |playlists| + skipped == |Listing(remote.playlistPages)|
    ensures requests == Requests(remote.playlistPages)
  {
    var pages := remote.playlistPages;
    playlists, skipped, requests := [], 0, 0;
    ghost var seen: seq<PlaylistItem> := [];
    var k := 0;
    while true
      invariant 0 <= k <= |pages|
      invariant requests == k
      invariant Listing(pages) == seen + Listing(pages[k..])
      invariant Requests(pages) == k + Requests(pages[k..])
      invariant playlists == KeptPlaylists(seen, skip)
      invariant |playlists| + skipped == |seen|
      decreases |pages| - k
    {
      requests := requests + 1;
      if k == |pages| || pages[k].Failed? {
        ListingStop(pages, k, seen);
        assert seen + [] == seen;
        break;
      }
      var page := pages[k];
      var skippedHere;
      playlists, skippedHere := AppendKeptPlaylists(playlists, seen, page.items, skip);
      skipped := skipped + skippedHere;
      if !HasMore(page.nextPageToken) {
        ListingStop(pages, k, seen);
        seen := seen + page.items;
        break;
      }
      ListingAdvance(pages, k, seen);
      seen := seen + page.items;
      k := k + 1;
    }
    KeptPlaylistsFilter(Listing(pages), skip);
  }

  // ---------------------------------------------------------------------------
  // Videos of a playlist
  // ---------------------------------------------------------------------------

  /** An item of a playlist-item listing (the video id sits under resourceId). */
  datatype PlaylistVideoItem = PlaylistVideoItem(
    videoId: string, title: string, description: Option<string>, publishedAt: Option<Stamp>)

  datatype VideoStub = VideoStub(
    videoId: string, title: string, description: string, publishedAt: Option<Stamp>, playlistId: string)

  function ToStub(item: PlaylistVideoItem, pid: string): VideoStub
  {
    VideoStub(item.videoId, item.title,
              if item.description.Some? then item.description.value else "",
              item.publishedAt, pid)
  }

  /** Every item as a video of playlist `pid`, in order. */
  function Stubs(items: seq<PlaylistVideoItem>, pid: string): seq<VideoStub>
  {
    if items == [] then []
    else Stubs(items[..|items| - 1], pid) + [ToStub(items[|items| - 1], pid)]
  }

  /** One video per item, with the item's id, tagged with the playlist. */
  lemma {:induction false} StubsTagged(items: seq<PlaylistVideoItem>, pid: string)
    ensures |Stubs(items, pid)| == |items|
    ensures forall i :: 0 <= i < |items| ==>
      Stubs(items, pid)[i].videoId == items[i].videoId && Stubs(items, pid)[i].playlistId == pid
  {
    if items != [] {
      StubsTagged(items[..|items| - 1], pid);
    }
  }

  lemma StubsSnoc(items: seq<PlaylistVideoItem>, x: PlaylistVideoItem, pid: string)
    ensures Stubs(items + [x], pid) == Stubs(items, pid) + [ToStub(x, pid)]
  {
    assert (items + [x])[..|items|] == items;
  }

  /** The videos of playlist `pid` as its listing returns them. */
  function PlaylistVideos(remote: Remote, pid: string): seq<VideoStub>
  {
    Stubs(Listing(remote.itemPages(pid)), pid)
  }

  /** The loop over one page's items: each item is appended as a video of `pid`. */
  method AppendStubs(acc: seq<VideoStub>, ghost seen: seq<PlaylistVideoItem>, items: seq<PlaylistVideoItem>, pid: string)
    returns (videos: seq<VideoStub>)
    requires acc == Stubs(seen, pid)
    ensures videos == Stubs(seen + items, pid)
  {
    videos := acc;
    assert seen + items[..0] == seen;
    for j := 0 to |items|
      invariant videos == Stubs(seen + items[..j], pid)
    {
      StubsSnoc(seen + items[..j], items[j], pid);
      assert seen + items[..j + 1] == (seen + items[..j]) + [items[j]];
      videos := videos + [ToStub(items[j], pid)];
    }
    assert items[..|items|] == items;
  }

  /** The videos of one playlist, in listing order, each tagged with the playlist;
      `requests` counts the listing requests issued. */
  method GetPlaylistVideos(remote: Remote, pid: string) returns (videos: seq<VideoStub>, requests: nat)
    ensures videos == PlaylistVideos(remote, pid)
    ensures |videos| == |Listing(remote.itemPages(pid))|
    ensures forall i :: 0 <= i < |videos| ==> videos[i].playlistId == pid
    ensures requests == Requests(remote.itemPages(pid))
  {
    var pages := remote.itemPages(pid);
    videos, requests := [], 0;
    ghost var seen: seq<PlaylistVideoItem> := [];
    var k := 0;
    while true
      invariant 0 <= k <= |pages|
      invariant requests == k
      invariant Listing(pages) == seen + Listing(pages[k..])
      invariant Requests(pages) == k + Requests(pages[k..])
      invariant videos == Stubs(seen, pid)
      decreases |pages| - k
    {
      requests := requests + 1;
      if k == |pages| || pages[k].Failed? {
        ListingStop(pages, k, seen);
        assert seen + [] == seen;
        break;
      }
      var page := pages[k];
      videos := AppendStubs(videos, seen, page.items, pid);
      if !HasMore(page.nextPageToken) {
        ListingStop(pages, k, seen);
        seen := seen + page.items;
        break;
      }
      ListingAdvance(pages, k, seen);
      seen := seen + page.items;
      k := k + 1;
    }
    StubsTagged(Listing(pages), pid);
  }

  // ---------------------------------------------------------------------------
  // Statistics
  // ---------------------------------------------------------------------------

  /** An item of a statistics reply; each count may be absent. */
  datatype StatsItem = StatsItem(
    id: string, title: string, viewCount: Option<nat>, likeCount: Option<nat>,
    commentCount: Option<nat>, publishedAt: Option<Stamp>)

  datatype StatsResponse = StatsFailed | StatsPage(items: seq<StatsItem>)

  datatype VideoStats = VideoStats(
    videoId: string, title: string, viewCount: nat, likeCount: nat, commentCount: nat,
    publishedAt: Option<Stamp>)

  function OrZero(n: Option<nat>): nat
  {
    if n.Some? then n.value else 0
  }

  /** One reply item as statistics; an absent count reads as 0. */
  function ToStats(item: StatsItem): (s: VideoStats)
    ensures s.videoId == item.id
    ensures s.viewCount == OrZero(item.viewCount) && s.likeCount == OrZero(item.likeCount)
  {
    VideoStats(item.id, item.title, OrZero(item.viewCount), OrZero(item.likeCount),
               OrZero(item.commentCount), item.publishedAt)
  }

  /** The dictionary filled from one reply, item by item. */
  function StatsMap(items: seq<StatsItem>): map<string, VideoStats>
  {
    if items == [] then map[]
    else StatsMap(items[..|items| - 1])[items[|items| - 1].id := ToStats(items[|items| - 1])]
  }

  /** Every item's id is a key of the dictionary, and nothing else is. */
  lemma {:induction false} StatsMapKeys(items: seq<StatsItem>)
    ensures forall id :: id in StatsMap(items) <==> exists i :: 0 <= i < |items| && items[i].id == id
  {
    if items != [] {
      var n := |items| - 1;
      var init := items[..n];
      StatsMapKeys(init);
      forall id ensures id in StatsMap(items) <==> exists i :: 0 <= i < |items| && items[i].id == id {
        if i :| 0 <= i < n && init[i].id == id {
          assert items[i] == init[i];
        }
        if i :| 0 <= i < |items| && items[i].id == id {
          if i < n {
            assert init[i] == items[i];
          }
        }
      }
    }
  }

  /** A key repeated in the reply keeps the statistics of its last item. */
  lemma {:induction false} StatsMapLast(items: seq<StatsItem>, i: nat)
    requires i < |items| && forall j :: i < j < |items| ==> items[j].id != items[i].id
    ensures items[i].id in StatsMap(items) && StatsMap(items)[items[i].id] == ToStats(items[i])
  {
    var n := |items| - 1;
    if i < n {
      var init := items[..n];
      assert init[i] == items[i];
      assert forall j :: i < j < |init| ==> init[j] == items[j];
      StatsMapLast(init, i);
    }
  }

  /** What one statistics request contributes: the reply's dictionary, or nothing when
      the request fails. */
  function ChunkStats(stats: seq<string> -> StatsResponse, chunk: seq<string>): map<string, VideoStats>
  {
    match stats(chunk)
    case StatsFailed => map[]
    case StatsPage(items) => StatsMap(items)
  }

  method GetVideosStatsSingleBatch(remote: Remote, chunk: seq<string>) returns (m: map<string, VideoStats>)
    ensures m == ChunkStats(remote.stats, chunk)
  {
    var reply := remote.stats(chunk);
    match reply
    case StatsFailed =>
      m := map[];
    case StatsPage(items) =>
      m := map[];
      for i := 0 to |items|
        invariant m == StatsMap(items[..i])
      {
        assert items[..i + 1][..i] == items[..i];
        m := m[items[i].id := ToStats(items[i])];
      }
      assert items[..|items|] == items;
  }

  /** The provider's ceiling on ids per statistics request. */
  const BatchSize: nat := 50

  function Min(a: int, b: int): int
  {
    if a <= b then a else b
  }

  /** The consecutive slices of at most `BatchSize` ids that `range(0, n, 50)` cuts. */
  function Chunks(ids: seq<string>): seq<seq<string>>
  {
    if ids == [] then []
    else if |ids| <= BatchSize then [ids]
    else [ids[..BatchSize]] + Chunks(ids[BatchSize..])
  }

  function Flatten(chunks: seq<seq<string>>): seq<string>
  {
    if chunks == [] then [] else chunks[0] + Flatten(chunks[1..])
  }

  /** The chunks cover the input exactly and in order; every chunk but the last holds
      exactly `BatchSize` ids, and the last one between 1 and `BatchSize`. */
  lemma {:induction false} ChunksPartition(ids: seq<string>)
    ensures |Chunks(ids)| == (|ids| + BatchSize - 1) / BatchSize
    ensures Flatten(Chunks(ids)) == ids
    ensures forall k :: 0 <= k < |Chunks(ids)| - 1 ==> |Chunks(ids)[k]| == BatchSize
    ensures ids != [] ==> 0 < |Chunks(ids)[|Chunks(ids)| - 1]| <= BatchSize
  {
    if ids == [] {
    } else if |ids| <= BatchSize {
      assert Chunks(ids) == [ids];
      assert Flatten([ids]) == ids + Flatten([]);
    } else {
      var rest := Chunks(ids[BatchSize..]);
      ChunksPartition(ids[BatchSize..]);
      assert Chunks(ids) == [ids[..BatchSize]] + rest;
      assert ([ids[..BatchSize]] + rest)[1..] == rest;
      assert ids == ids[..BatchSize] + ids[BatchSize..];
    }
  }

  /** `all_stats.update(...)` over the chunks in order: a later chunk's entry
      replaces an earlier one. */
  function Merged(stats: seq<string> -> StatsResponse, chunks: seq<seq<string>>): map<string, VideoStats>
  {
    if chunks == [] then map[]
    else Merged(stats, chunks[..|chunks| - 1]) + ChunkStats(stats, chunks[|chunks| - 1])
  }

  /** The merged map's keys are those of the chunk replies: a failed chunk
      contributes nothing and does not stop the others. */
  lemma {:induction false} MergedKeys(stats: seq<string> -> StatsResponse, chunks: seq<seq<string>>, id: string)
    ensures id in Merged(stats, chunks) <==> exists k :: 0 <= k < |chunks| && id in ChunkStats(stats, chunks[k])
  {
    if chunks != [] {
      var n := |chunks| - 1;
      var init := chunks[..n];
      var front := Merged(stats, init);
      var back := ChunkStats(stats, chunks[n]);
      assert Merged(stats, chunks) == front + back;
      MergedKeys(stats, init, id);
      if id in front + back {
        if id in front {
          var k :| 0 <= k < |init| && id in ChunkStats(stats, init[k]);
          assert chunks[k] == init[k];
        } else {
          assert id in ChunkStats(stats, chunks[n]);
        }
      }
      if exists k :: 0 <= k < |chunks| && id in ChunkStats(stats, chunks[k]) {
        var k :| 0 <= k < |chunks| && id in ChunkStats(stats, chunks[k]);
        if k < n {
          assert init[k] == chunks[k];
          assert id in front;
        } else {
          assert id in back;
        }
      }
    }
  }

  /** A key takes its value from the last chunk reply that holds it. */
  lemma {:induction false} MergedValue(stats: seq<string> -> StatsResponse, chunks: seq<seq<string>>, k: nat, id: string)
    requires k < |chunks| && id in ChunkStats(stats, chunks[k])
    requires forall l :: k < l < |chunks| ==> id !in ChunkStats(stats, chunks[l])
    ensures id in Merged(stats, chunks) && Merged(stats, chunks)[id] == ChunkStats(stats, chunks[k])[id]
  {
    var init := chunks[..|chunks| - 1];
    if k < |chunks| - 1 {
      assert init[k] == chunks[k];
      forall l | k < l < |init| ensures id !in ChunkStats(stats, init[l]) {
        assert init[l] == chunks[l];
      }
      MergedValue(stats, init, k, id);
    }
  }

  /** One step of `range(0, len(ids), 50)`: the chunks from `i` on are the slice
      `ids[i:i + 50]` followed by the chunks from the next start. */
  lemma ChunksStep(ids: seq<string>, i: nat)
    requires i < |ids|
    ensures Chunks(ids[i..]) == [ids[i..Min(i + BatchSize, |ids|)]] + Chunks(ids[Min(i + BatchSize, |ids|)..])
  {
    var hi := Min(i + BatchSize, |ids|);
    if |ids[i..]| <= BatchSize {
      assert ids[i..] == ids[i..hi];
      assert ids[hi..] == [];
    } else {
      assert ids[i..][BatchSize..] == ids[hi..];
      assert ids[i..][..BatchSize] == ids[i..hi];
    }
  }

  /** The loop of `get_videos_stats_batch` after one more chunk. */
  lemma ChunksLoopStep(ids: seq<string>, i: nat, calls: seq<seq<string>>)
    requires i < |ids| && calls + Chunks(ids[i..]) == Chunks(ids)
    ensures var hi := Min(i + BatchSize, |ids|);
            (calls + [ids[i..hi]]) + Chunks(ids[hi..]) == Chunks(ids)
  {
    var hi := Min(i + BatchSize, |ids|);
    ChunksStep(ids, i);
    SnocAssoc(calls, ids[i..hi], Chunks(ids[hi..]));
  }

  lemma MergedSnoc(stats: seq<string> -> StatsResponse, chunks: seq<seq<string>>, chunk: seq<string>)
    ensures Merged(stats, chunks + [chunk]) == Merged(stats, chunks) + ChunkStats(stats, chunk)
  {
    assert (chunks + [chunk])[..|chunks|] == chunks;
  }

  /** `get_videos_stats_batch`: one request per chunk of at most 50 consecutive ids
      (`calls` lists them in order) and the merge of their replies; an empty input
      issues no request. */
  method GetVideosStatsBatch(remote: Remote, ids: seq<string>)
    returns (all: map<string, VideoStats>, calls: seq<seq<string>>)
    ensures calls == Chunks(ids)
    ensures all == Merged(remote.stats, calls)
    ensures ids == [] ==> all == map[] && calls == []
  {
    if |ids| == 0 {
      return map[], [];
    }
    all, calls := map[], [];
    var i := 0;
    while i < |ids|
      invariant 0 <= i <= |ids|
      invariant calls + Chunks(ids[i..]) == Chunks(ids)
      invariant all == Merged(remote.stats, calls)
      decreases |ids| - i
    {
      // the next start of range(0, len(ids), 50), or the end of the input
      var hi := Min(i + BatchSize, |ids|);
      var batch := ids[i..hi];
      var batchStats := GetVideosStatsSingleBatch(remote, batch);
      ChunksLoopStep(ids, i, calls);
      MergedSnoc(remote.stats, calls, batch);
      all := all + batchStats;
      calls := calls + [batch];
      i := hi;
    }
  }

  // ---------------------------------------------------------------------------
  // Videos with statistics
  // ---------------------------------------------------------------------------

  /** `[video['video_id'] for video in videos]`. */
  function VideoIds(vs: seq<VideoStub>): seq<string>
  {
    if vs == [] then [] else VideoIds(vs[..|vs| - 1]) + [vs[|vs| - 1].videoId]
  }

  /** A playlist video stamped with the playlist and its statistics. */
  function WithStats(v: VideoStub, s: VideoStats, pid: string, ptitle: string): VideoRecord
  {
    VideoRecord(v.videoId, v.title, pid, ptitle, s.viewCount, s.likeCount, v.publishedAt)
  }

  /** The join: the videos that have statistics, in order, each stamped with the
      playlist and its statistics; a video without statistics is dropped. */
  function Join(vs: seq<VideoStub>, stats: map<string, VideoStats>, pid: string, ptitle: string): seq<VideoRecord>
  {
    if vs == [] then []
    else
      var last := vs[|vs| - 1];
      Join(vs[..|vs| - 1], stats, pid, ptitle)
        + if last.videoId in stats then [WithStats(last, stats[last.videoId], pid, ptitle)] else []
  }

  /** No more records than videos; each record has statistics and carries the
      playlist's id and title and the statistics' counts; and every video with
      statistics yields its record. */
  lemma {:induction false} JoinStamped(vs: seq<VideoStub>, stats: map<string, VideoStats>, pid: string, ptitle: string)
    ensures |Join(vs, stats, pid, ptitle)| <= |vs|
    ensures forall i :: 0 <= i < |Join(vs, stats, pid, ptitle)| ==>
      var r := Join(vs, stats, pid, ptitle)[i];
      r.videoId in stats && r.playlistId == pid && r.playlistTitle == ptitle &&
      r.viewCount == stats[r.videoId].viewCount && r.likeCount == stats[r.videoId].likeCount
    ensures forall k :: 0 <= k < |vs| && vs[k].videoId in stats
                        ==> WithStats(vs[k], stats[vs[k].videoId], pid, ptitle) in Join(vs, stats, pid, ptitle)
  {
    if vs != [] {
      var init := vs[..|vs| - 1];
      JoinStamped(init, stats, pid, ptitle);
      assert forall k :: 0 <= k < |vs| - 1 ==> vs[k] == init[k];
    }
  }

  /** Every joined record comes from one of the playlist's videos, whose title and
      publication date it keeps. */
  lemma {:induction false} JoinFromVideos(vs: seq<VideoStub>, stats: map<string, VideoStats>, pid: string, ptitle: string, i: nat)
    requires i < |Join(vs, stats, pid, ptitle)|
    ensures exists k :: 0 <= k < |vs| && vs[k].videoId in stats
                        && Join(vs, stats, pid, ptitle)[i] == WithStats(vs[k], stats[vs[k].videoId], pid, ptitle)
  {
    var init := vs[..|vs| - 1];
    var last := vs[|vs| - 1];
    var front := Join(init, stats, pid, ptitle);
    if i < |front| {
      JoinFromVideos(init, stats, pid, ptitle, i);
      var k :| 0 <= k < |init| && init[k].videoId in stats && front[i] == WithStats(init[k], stats[init[k].videoId], pid, ptitle);
      assert vs[k] == init[k];
    } else {
      assert Join(vs, stats, pid, ptitle)[i] == WithStats(last, stats[last.videoId], pid, ptitle);
      assert vs[|vs| - 1] == last;
    }
  }

  /** The join keeps the order of the playlist's videos. */
  lemma {:induction false} JoinAppend(a: seq<VideoStub>, b: seq<VideoStub>, stats: map<string, VideoStats>, pid: string, ptitle: string)
    ensures Join(a + b, stats, pid, ptitle) == Join(a, stats, pid, ptitle) + Join(b, stats, pid, ptitle)
  {
    if b == [] {
      assert a + b == a;
    } else {
      var init, last := b[..|b| - 1], b[|b| - 1];
      var tail := if last.videoId in stats then [WithStats(last, stats[last.videoId], pid, ptitle)] else [];
      assert (a + b)[..|a + b| - 1] == a + init && (a + b)[|a + b| - 1] == last;
      assert Join(a + b, stats, pid, ptitle) == Join(a + init, stats, pid, ptitle) + tail;
      JoinAppend(a, init, stats, pid, ptitle);
      assert Join(b, stats, pid, ptitle) == Join(init, stats, pid, ptitle) + tail;
      AppendAssoc(Join(a, stats, pid, ptitle), Join(init, stats, pid, ptitle), tail);
    }
  }

  lemma JoinSnoc(vs: seq<VideoStub>, i: nat, stats: map<string, VideoStats>, pid: string, ptitle: string)
    requires i < |vs|
    ensures Join(vs[..i + 1], stats, pid, ptitle) == Join(vs[..i], stats, pid, ptitle)
      + if vs[i].videoId in stats then [WithStats(vs[i], stats[vs[i].videoId], pid, ptitle)] else []
  {
    assert vs[..i + 1][..i] == vs[..i];
  }

  function VideosWithStats(remote: Remote, pid: string, ptitle: string): seq<VideoRecord>
  {
    var vs := PlaylistVideos(remote, pid);
    if vs == [] then [] else Join(vs, Merged(remote.stats, Chunks(VideoIds(vs))), pid, ptitle)
  }

  /** Every record the client delivers for a playlist carries that playlist's id and
      title. */
  lemma VideosWithStatsStamped(remote: Remote, pid: string, ptitle: string)
    ensures forall i :: 0 <= i < |VideosWithStats(remote, pid, ptitle)| ==>
      VideosWithStats(remote, pid, ptitle)[i].playlistId == pid &&
      VideosWithStats(remote, pid, ptitle)[i].playlistTitle == ptitle
  {
    var vs := PlaylistVideos(remote, pid);
    if vs != [] {
      JoinStamped(vs, Merged(remote.stats, Chunks(VideoIds(vs))), pid, ptitle);
    }
  }

  method GetAllVideosWithStats(remote: Remote, pid: string, ptitle: string) returns (r: seq<VideoRecord>)
    ensures r == VideosWithStats(remote, pid, ptitle)
    ensures forall i :: 0 <= i < |r| ==> r[i].playlistId == pid && r[i].playlistTitle == ptitle
  {
    var videos, _ := GetPlaylistVideos(remote, pid);
    if |videos| == 0 {
      return [];
    }
    var ids := VideoIds(videos);
    var allStats, _ := GetVideosStatsBatch(remote, ids);
    r := [];
    for i := 0 to |videos|
      invariant r == Join(videos[..i], allStats, pid, ptitle)
    {
      JoinSnoc(videos, i, allStats, pid, ptitle);
      var v := videos[i];
      if v.videoId in allStats {
        var s := allStats[v.videoId];
        r := r + [WithStats(v, s, pid, ptitle)];
      }
    }
    assert videos[..|videos|] == videos;
    VideosWithStatsStamped(remote, pid, ptitle);
  }
}
