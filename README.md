# zero_stats core in Dafny

zero_stats mirrors a YouTube channel into a PostgreSQL table and shows dashboards
over it. This project models three parts of it and proves properties of them:

- **The synchroniser** (`app/data_loader`). It has:
  - the API client, which pages through the channel's playlists and each
    playlist's items, fetches statistics in chunks of at most 50 ids, and joins
    videos with their statistics;
  - the store adapter: one denormalised video table, keyed by `video_id` by
    convention;
  - the loader. Its check pass upserts every fetched video: a known id gets the
    fetched counts, an unknown one is inserted. Its initial load inserts only
    unknown ids.
- **The dashboard's two grouping views** (`playlists` and `playlists_monthly`).
  The first groups the per-playlist rows by playlist, sorts each group by
  publication date and picks its five most viewed videos. The second groups the
  monthly aggregate rows by playlist.
- **The configuration module**: the required schema and table names, the
  connection defaults, and the list of excluded playlist ids.

The model follows the structure of the source:

- Pure computations are functions with lemmas.
- The store is a class, `Database.DatabaseManager`, holding its table as a
  `seq` field.
- The loader is a class, `DataLoader.Loader`. Its methods change the store
  through the store's methods.
- The loops of the source are `while`/`for` loops, with invariants tying them to
  the specification functions. The in-place `list.sort` is an insertion sort on
  an `array`.

The YouTube provider is modelled as a value, `YouTubeApi.Remote`:

- The k-th request of a listing receives the k-th recorded reply. A request past
  the last recorded reply fails.
- A statistics request maps its chunk of ids to a reply.

Store failures are a predicate `rejects` on rows: an INSERT the store refuses
raises. The refusal is a fixed property of the row, as a constraint the store
enforces is, so a row refused once is refused again. `_save_videos_to_database`
swallows that exception. `check_for_new_videos` lets it end the pass, and the
model returns `None` in that case.

The specification functions are:

| function | what it describes |
|---|---|
| `Listing` / `Requests` | pagination |
| `KeptPlaylists` | the skip filter |
| `Chunks` / `Merged` | statistics batching |
| `Join` | the join of videos and statistics |
| `Upsert` / `Pass` | the check pass |
| `SaveAll` / `InitialLoad` | the initial load |
| `Keys` / `Entries` / `Distinct` | grouping |
| `Sort` / `TopVideos` | sorting and the top list |

The methods are proved equal to these functions. The lemmas state what they
mean: covering, uniqueness, idempotence, order, and the partition of rows into
groups.

The repository contains no table definition, so it does not show whether the
store enforces unique video ids. The model assumes no such constraint. It proves
uniqueness as an invariant the loader keeps (`PassKeepsUnique`,
`SaveAllKeepsUnique`).

The code and the written design of the system disagree in a few places. The model
follows the code:

- A continuation token that is an empty string ends pagination, like a missing
  one.
- The statistics client takes a list of ids, not a set. A repeated id is sent as
  often as it occurs.

## Model

| member | source | states |
|---|---|---|
| Config.Load | app/data_loader/config.py:7-34 | Among the checks modelled, loading fails exactly when DB_SCHEMA or DB_TABLE is unset or empty. A missing schema is reported first, and a missing table when the schema is set. On success the schema and table are the variables' values, the exclusion list is parsed from SKIP_PLAYLIST_IDS, and an unset DB_HOST or DB_PORT falls back to localhost or 5432. |
| Config.LoadErrorDependsOnlyOnSchemaAndTable | app/data_loader/config.py:16-21 | Whether loading fails, and with which error, depends on DB_SCHEMA and DB_TABLE alone. |
| Config.ParseSkipList | app/data_loader/config.py:32-34 | An unset or empty variable gives no exclusions. Every entry is non-empty and has no leading or trailing whitespace. |
| Config.ParseSkipListSegment | app/data_loader/config.py:32-34 | A value without a comma gives its stripped text, or nothing when that text is blank. |
| Config.ParseSkipListConcat | app/data_loader/config.py:32-34 | The list for `a,b` is the list for `a` followed by the list for `b`: the segments' order is kept. |
| Config.Strip | app/data_loader/config.py:34 | The stripped string is no longer than the input and neither begins nor ends with whitespace. |
| Config.StripKeepsInfix | app/data_loader/config.py:34 | Stripping returns an infix of the input and removes only whitespace around it. |
| Config.Split | app/data_loader/config.py:32 | Splitting gives at least one segment, and no segment contains the separator. |
| Config.JoinSplit | app/data_loader/config.py:32 | Joining the segments back with the separator gives the original string. |
| Config.SplitAtSeparator | app/data_loader/config.py:32 | Splitting distributes over the first separator. |
| Config.SplitWithoutSeparator | app/data_loader/config.py:32 | A string without the separator is one segment. |
| Config.NonBlankStripped | app/data_loader/config.py:34 | The comprehension keeps at most as many entries as segments, each non-empty and stripped. |
| Config.NonBlankStrippedAppend | app/data_loader/config.py:34 | The comprehension over `x + y` is the comprehension over `x` followed by that over `y`. |
| Common.Distinct | app/website/app/blueprints/playlists/playlists.py:13-21 | The dictionary's key order has no duplicates and holds exactly the keys that occur. |
| Common.DistinctSnoc | app/website/app/blueprints/playlists/playlists.py:16-21 | A key already present keeps the order; a new key goes at the end. |
| Database.HasVideoIff | app/data_loader/database.py:63-67 | The id lookup finds a row exactly when some row carries the id. |
| Database.HasPlaylistIff | app/data_loader/database.py:108-112 | The playlist lookup finds a row exactly when some row belongs to the playlist. |
| Database.SetStatsPointwise | app/data_loader/database.py:88-96 | The UPDATE gives every row with the id the new counts and leaves every other row and column as it was. |
| Database.SetStatsAbsent | app/data_loader/database.py:88-96 | Updating an id no row carries leaves the table unchanged. |
| Database.SetStatsRefreshes | app/data_loader/database.py:88-96 | The UPDATE adds and removes no row and changes only the count columns. |
| Database.SetStatsKeepsVideos | app/data_loader/database.py:88-96 | The UPDATE leaves the set of video ids alone. |
| Database.HasVideoSnoc | app/data_loader/database.py:69-86 | After an INSERT the lookup finds the new id as well as every old one. |
| Database.RowsOfPlaylist | app/data_loader/database.py:103-106 | Filtering by playlist keeps each of the playlist's rows as often as it occurs, and nothing else. |
| Database.SortNewestFirstSorts | app/data_loader/database.py:98-106 | `ORDER BY published_at DESC` gives a permutation of the rows: newest first, undated rows first. |
| Database.DatabaseManager.constructor | app/data_loader/database.py:12-14 | The adapter starts on the given table. |
| Database.DatabaseManager.VideoExists | app/data_loader/database.py:63-67 | The result is true exactly when some row carries the id. |
| Database.DatabaseManager.PlaylistExists | app/data_loader/database.py:108-112 | The result is true exactly when some row belongs to the playlist. |
| Database.DatabaseManager.InsertVideo | app/data_loader/database.py:69-86 | An accepted insert appends exactly the record; a refused insert changes nothing and is reported. |
| Database.DatabaseManager.UpdateVideoStats | app/data_loader/database.py:88-96 | The table becomes the UPDATE of the two count columns on the rows carrying the id. |
| Database.DatabaseManager.GetAllVideos | app/data_loader/database.py:98-101 | The result is a permutation of the table, newest first. |
| Database.DatabaseManager.GetVideosByPlaylist | app/data_loader/database.py:103-106 | The result is exactly the playlist's rows, with multiplicity, newest first. |
| Database.DatabaseManager.GetExistingPlaylists | app/data_loader/database.py:114-118 | Every playlist id in the table, each once, and nothing else. |
| YouTubeApi.ListingEndsAtFinalPage | app/data_loader/youtube_api.py:25-63 | Pagination stops at the first page without a continuation token. That request is the last, and the result is every item up to and including that page. |
| YouTubeApi.ListingEndsAtFailure | app/data_loader/youtube_api.py:68-70 | A failed request ends pagination without a retry, and the items of earlier pages are kept. |
| YouTubeApi.ListingStop | app/data_loader/youtube_api.py:60-70 | The loop's last request adds its page, if any, and no further request follows. |
| YouTubeApi.ListingAdvance | app/data_loader/youtube_api.py:60-66 | A page with a continuation token adds its items and leads to one more request. |
| YouTubeApi.KeptPlaylistsFilter | app/data_loader/youtube_api.py:42-58 | No kept playlist is excluded, and every item not excluded is kept. |
| YouTubeApi.KeptPlaylists | app/data_loader/youtube_api.py:42-58 | The filter keeps at most as many playlists as there are items. |
| YouTubeApi.KeptPlaylistsSnoc | app/data_loader/youtube_api.py:42-58 | One more item adds its playlist at the end unless its id is excluded. |
| YouTubeApi.AppendKeptPlaylists | app/data_loader/youtube_api.py:42-58 | The page loop appends the page's kept playlists in order and counts each excluded item. |
| YouTubeApi.GetChannelPlaylists | app/data_loader/youtube_api.py:19-73 | The result is the listing's items minus the excluded ids, in order. The kept and skipped counts add up to the listing's items, and one request is issued per page up to the final or failed one. |
| YouTubeApi.StubsTagged | app/data_loader/youtube_api.py:97-106 | One video per item, with the item's id and the playlist's id. |
| YouTubeApi.StubsSnoc | app/data_loader/youtube_api.py:97-106 | One more item adds its video at the end. |
| YouTubeApi.AppendStubs | app/data_loader/youtube_api.py:97-106 | The page loop appends one video per item, in order. |
| YouTubeApi.GetPlaylistVideos | app/data_loader/youtube_api.py:75-121 | The result is one video per listed item, in order, each tagged with the playlist. It issues the listing's number of requests. |
| YouTubeApi.ToStats | app/data_loader/youtube_api.py:227-237 | The statistics carry the item's id, and an absent view or like count reads as 0. |
| YouTubeApi.StatsMapKeys | app/data_loader/youtube_api.py:225-239 | The reply's dictionary has a key exactly for each item's id. |
| YouTubeApi.StatsMapLast | app/data_loader/youtube_api.py:225-239 | A repeated id keeps the statistics of its last item. |
| YouTubeApi.GetVideosStatsSingleBatch | app/data_loader/youtube_api.py:211-243 | The result is the reply's dictionary, or empty when the request fails. |
| YouTubeApi.ChunksPartition | app/data_loader/youtube_api.py:196-201 | The chunks cover the ids exactly and in order, and there are ceil(n/50) of them. Every chunk but the last has 50 ids; the last has 1 to 50. |
| YouTubeApi.ChunksStep | app/data_loader/youtube_api.py:200-201 | The chunks from `i` on are `ids[i:i+50]` followed by the chunks from the next start. |
| YouTubeApi.MergedKeys | app/data_loader/youtube_api.py:198-203 | The merged map's keys are those of the chunk replies. A failed chunk contributes nothing and does not stop the others. |
| YouTubeApi.MergedValue | app/data_loader/youtube_api.py:198-203 | A key takes its value from the last chunk reply that holds it. |
| YouTubeApi.MergedSnoc | app/data_loader/youtube_api.py:203 | One more chunk updates the map with its reply. |
| YouTubeApi.GetVideosStatsBatch | app/data_loader/youtube_api.py:191-209 | One request per chunk, in order, and the merge of their replies. An empty input issues no request and gives an empty map. |
| YouTubeApi.JoinStamped | app/data_loader/youtube_api.py:171-186 | The join yields no more records than videos. Each record has statistics, carries the playlist's id and title and the statistics' counts, and every video with statistics yields its record. |
| YouTubeApi.JoinFromVideos | app/data_loader/youtube_api.py:171-186 | Every joined record comes from one of the videos and keeps its title and date. |
| YouTubeApi.JoinAppend | app/data_loader/youtube_api.py:171-186 | The join keeps the order of the videos: the join of `a + b` is that of `a` followed by that of `b`. |
| YouTubeApi.JoinSnoc | app/data_loader/youtube_api.py:172-186 | One more video adds its record at the end when it has statistics. |
| YouTubeApi.VideosWithStatsStamped | app/data_loader/youtube_api.py:159-189 | Every record delivered for a playlist carries that playlist's id and title. |
| YouTubeApi.GetAllVideosWithStats | app/data_loader/youtube_api.py:159-189 | The result is the join of the playlist's videos with their batched statistics, or empty for an empty playlist. Every record carries the playlist. |
| DataLoader.UpsertAppend | app/data_loader/data_loader.py:101-114 | Upserting `a + b` is upserting `a` and then `b`, unless an insert of `a` was refused. |
| DataLoader.UpsertRefreshes | app/data_loader/data_loader.py:101-114 | Old rows stay in place with at most their counts changed, and one row is appended per insert. On success every record is an insert or an update; a refused insert leaves records uncounted. |
| DataLoader.UpsertNewRows | app/data_loader/data_loader.py:110-113 | Every appended row is one of the records, up to its counts. |
| DataLoader.UpsertCovers | app/data_loader/data_loader.py:101-114 | After an upsert that went through, the table holds every fetched id. |
| DataLoader.UpsertDurable | app/data_loader/data_loader.py:101-114 | The ids of the records upserted before the first refused insert stay in the table, even when a later insert is refused. |
| DataLoader.UpsertKeepsUnique | app/data_loader/data_loader.py:101-114 | An upsert never gives two rows the same video id. |
| DataLoader.UpsertAllPresent | app/data_loader/data_loader.py:102-109 | With every id already present, nothing is inserted, nothing fails and every record is an update. |
| DataLoader.UpsertUntouched | app/data_loader/data_loader.py:101-114 | Records not carrying an id leave the rows carrying it unchanged. |
| DataLoader.UpsertOne | app/data_loader/data_loader.py:102-108 | After upserting one record, every row with its id has its counts. |
| DataLoader.UpsertLastWins | app/data_loader/data_loader.py:101-114 | After an upsert that went through, the last record for an id decides the counts of every row carrying it. |
| DataLoader.UpsertLaterRecords | app/data_loader/data_loader.py:101-114 | Records for other ids do not disturb counts already written. |
| DataLoader.PassIsUpsert | app/data_loader/data_loader.py:87-114 | A pass is one upsert over every fetched record: the same table, outcome and video counters. Counting new playlists has no effect on the table. |
| DataLoader.PassStopsAtFailure | app/data_loader/data_loader.py:121-123 | Once an insert was refused, the rest of the pass changes nothing. |
| DataLoader.PassCovers | app/data_loader/data_loader.py:87-114 | A pass keeps old rows in place up to their counts. After a pass that went through, the table holds every fetched id. |
| DataLoader.PassKeepsUnique | app/data_loader/data_loader.py:87-114 | A pass never gives two rows the same video id. |
| DataLoader.PassCounts | app/data_loader/data_loader.py:101-119 | After a pass that went through, the new and updated video counters add up to the number of fetched records, and the table grew by the new ones. |
| DataLoader.PassDurable | app/data_loader/data_loader.py:87-123 | Playlists visited before a pass stops at a refused insert keep all their fetched ids in the table after the pass. |
| DataLoader.PassRerun | app/data_loader/data_loader.py:87-114 | Repeating a successful pass on the same records inserts nothing, cannot fail and updates every record. |
| DataLoader.PassSnoc | app/data_loader/data_loader.py:87-91 | The pass after one more playlist visits it unless the pass already failed. |
| DataLoader.FetchedPlaylists | app/data_loader/data_loader.py:81-99 | Records fetched for kept playlists belong to kept playlists. |
| DataLoader.PassSkipsExcluded | app/data_loader/data_loader.py:81-114 | No row a check pass adds belongs to an excluded playlist. |
| DataLoader.SaveAllAppends | app/data_loader/data_loader.py:125-139 | The insert-if-absent loop keeps the old rows and adds one row per counted insert, at most one per record. Each new row is an accepted record whose id no earlier row carries. |
| DataLoader.SaveAllCovers | app/data_loader/data_loader.py:125-139 | Afterwards every record's id is in the table, unless the store refused it. |
| DataLoader.SaveAllKeepsUnique | app/data_loader/data_loader.py:125-139 | The loop never gives two rows the same video id. |
| DataLoader.SaveAllNoop | app/data_loader/data_loader.py:130-135 | With every id present or refused, the loop changes nothing and counts 0. |
| DataLoader.SaveAllTwice | app/data_loader/data_loader.py:125-139 | Saving the same records again adds nothing, since a refused record is refused again. |
| DataLoader.SaveAllAppend | app/data_loader/data_loader.py:125-139 | Saving `a + b` is saving `a` and then `b`, and the counts add up. |
| DataLoader.SaveStep | app/data_loader/data_loader.py:129-137 | One record is inserted and counted when absent and accepted, and skipped otherwise. |
| DataLoader.InitialLoadIsSave | app/data_loader/data_loader.py:52-63 | The initial load is one insert-if-absent loop over every fetched record, and its total is that loop's count. |
| DataLoader.InitialLoadTwice | app/data_loader/data_loader.py:35-73 | Running the initial load again on the same records adds nothing, since a refused record is refused again. |
| DataLoader.InitialLoadOutcome | app/data_loader/data_loader.py:35-73 | The initial load keeps the old rows and gives no two rows the same id. It covers every accepted fetched record and adds no row of an excluded playlist. |
| DataLoader.Loader.constructor | app/data_loader/data_loader.py:22-24 | The loader works on the given store and provider, with the given exclusions. |
| DataLoader.Loader.CheckForNewVideos | app/data_loader/data_loader.py:75-123 | The records are fetched for a prefix of the channel's playlists, all of them unless an insert was refused. The table becomes the pass over them. The counters are returned, or nothing when the pass aborted. On success the new and updated counters add up to the fetched records. |
| DataLoader.Loader.SyncPlaylist | app/data_loader/data_loader.py:88-114 | One playlist's records are fetched and upserted; the new-playlist counter rises when the table held no row of it. |
| DataLoader.Loader.UpsertVideos | app/data_loader/data_loader.py:101-114 | The table becomes that of the upsert. A refused insert is reported; otherwise the insert and update counts are returned. |
| DataLoader.Loader.SaveVideosToDatabase | app/data_loader/data_loader.py:125-139 | The table and the count are those of the insert-if-absent loop. |
| DataLoader.Loader.LoadInitialData | app/data_loader/data_loader.py:35-73 | Every kept playlist's records are fetched in order and saved. The total is the number of rows added, and nothing happens without playlists. |
| DataLoader.Loader.LoadPlaylist | app/data_loader/data_loader.py:55-63 | One playlist's records are fetched and saved, and the number added is returned. |
| Grouping.KeysAndEntries | app/website/app/blueprints/playlists/playlists.py:13-29 | A playlist has a group exactly when some row belongs to it, and then its group is non-empty. |
| Grouping.EntriesFromRows | app/website/app/blueprints/playlists/playlists.py:23-29 | An entry is in a group exactly when it is made from a row of that playlist. |
| Grouping.PositionsExact | app/website/app/blueprints/playlists/playlists.py:14-16 | The listed positions are exactly the rows carrying the key, each once, in increasing order. |
| Grouping.EntriesAtPositions | app/website/app/blueprints/playlists/playlists.py:23-29 | The group of a key holds one entry per position, made from the row at that position. |
| Grouping.TotalIsRows | app/website/app/blueprints/playlists/playlists.py:13-29 | Every row lands in exactly one group: the groups hold as many entries as there are rows. |
| Playlists.SortSorts | app/website/app/blueprints/playlists/playlists.py:32-35 | For a total, transitive order the sort is ordered and is a permutation of its input. |
| Playlists.InsertionSort | app/website/app/blueprints/playlists/playlists.py:33 | The array after the in-place sort is the sort of its old contents. |
| Playlists.InsertNext | app/website/app/blueprints/playlists/playlists.py:33 | One pass inserts the next element into the sorted prefix and leaves the rest alone. |
| Playlists.InsertAt | app/website/app/blueprints/playlists/playlists.py:33 | The insertion places the element after the last one it may follow, moving later ones one place right. |
| Playlists.SortByPublishedSorts | app/website/app/blueprints/playlists/playlists.py:32-33 | Sorting by `published_at or ''` orders the videos by date, undated ones first, and permutes them. |
| Playlists.SortByViewsSorts | app/website/app/blueprints/playlists/playlists.py:35 | Sorting by views in reverse orders the videos most viewed first and permutes them. |
| Playlists.PrefixIsTop | app/website/app/blueprints/playlists/playlists.py:35 | Cutting a most-viewed-first list keeps its most viewed videos in order. Nothing cut has more views than the last one kept. |
| Playlists.TopVideosAreTop | app/website/app/blueprints/playlists/playlists.py:35 | The top list has min(5, n) of the group's videos, most viewed first. No video left out has more views than the least viewed one kept. |
| Playlists.FirstTitleIsFirst | app/website/app/blueprints/playlists/playlists.py:16-21 | A group's title is that of the first row of its playlist, and there is one exactly when the playlist has a row. |
| Playlists.GroupRows | app/website/app/blueprints/playlists/playlists.py:13-29 | Groups appear in order of first appearance. Each has its own id and its first row's title, and its videos are those of its rows, in row order. |
| Playlists.GroupStep | app/website/app/blueprints/playlists/playlists.py:14-29 | One row adds a group for a new playlist at the end of the order and appends its video to its group. |
| Playlists.FinishGroup | app/website/app/blueprints/playlists/playlists.py:32-35 | The group's videos are sorted by date in place, and its top list is the five most viewed of them. |
| Playlists.PlaylistsIndex | app/website/app/blueprints/playlists/playlists.py:7-37 | Groups appear in order of first appearance; each has its first row's title. Its videos are its rows' videos sorted by date, and its top list is the five most viewed of them. |
| Playlists.GroupIsItsRows | app/website/app/blueprints/playlists/playlists.py:14-29 | A group has one video per row of its playlist, made from that row, in row order. The indices it lists increase, and every row of the playlist is among them, so each group has its rows' multiplicities. |
| Playlists.GroupsPartitionRows | app/website/app/blueprints/playlists/playlists.py:13-33 | Each group's sorted videos are in date order and are a permutation of its videos. A video is in a group exactly when a row of that playlist makes it. The groups together hold one video per row. |
| PlaylistsMonthly.LastTitleIsLast | app/website/app/blueprints/playlists_monthly/playlists_monthly.py:19-22 | A group's title is that of the last row of its playlist, and there is one exactly when the playlist has a row. |
| PlaylistsMonthly.PlaylistsMonthlyIndex | app/website/app/blueprints/playlists_monthly/playlists_monthly.py:7-31 | Keys appear in order of first appearance. Each group has its own id, the title of its last row, and one month entry per row, in row order. |
| PlaylistsMonthly.GroupsAreFilled | app/website/app/blueprints/playlists_monthly/playlists_monthly.py:13-22 | No group is left at the dictionary's default: each has its id, a title and at least one month. |
| PlaylistsMonthly.MonthlyStep | app/website/app/blueprints/playlists_monthly/playlists_monthly.py:19-28 | One row sets its group's id and title and appends its month entry. A new playlist's key goes at the end. |
| PlaylistsMonthly.MonthlyGroupIsItsRows | app/website/app/blueprints/playlists_monthly/playlists_monthly.py:19-28 | A group has one month entry per row of its playlist, made from that row, in row order. Every row of the playlist is counted, with multiplicity. |
| PlaylistsMonthly.MonthlyPartitionsRows | app/website/app/blueprints/playlists_monthly/playlists_monthly.py:19-28 | An entry is in a group exactly when a row of that playlist makes it. The groups together hold one entry per row. |

## Left out

- **HTTP, JSON and the provider's reply format.** The provider is an oracle of
  recorded replies (`Remote`). The request parameters are not modelled: part,
  key, the page-token parameter, and `maxResults`, which sends the page size
  `MAX_RESULTS_PER_REQUEST` (50).
- **Listings that never end.** A recorded listing is finite, so the model cannot
  express a provider that always returns a continuation token. The source has no
  page limit or time-out, and would loop forever on such a listing.
- **Transient store failures.** A connection failure that refuses an INSERT once
  and accepts it later is not modelled; `rejects` is a fixed property of the row.
  `DataLoader.SaveAllTwice` and `DataLoader.InitialLoadTwice` depend on this.
- **`time.sleep`, logging, and the log messages.** They have no effect on the data.
  The counters `skipped`, `requests`, `added` and `total` are the values the
  source logs or returns.
- **psycopg2, connections, commit and rollback, and `fetch_one`/`fetch_all`.**
  The store is its table. A failing INSERT is modelled by `rejects`; other
  statements do not fail.
- **`connect`, `disconnect`, `initialize_database`, `cleanup` and
  `QUALIFIED_TABLE`.** They set up connections and quote identifiers, and hold
  no logic over the data.
- **`get_video_stats` and `check_quota_usage`.** No modelled operation calls
  them.
- **The API key check in the client's constructor.** This is a `ValueError` on a
  missing key, raised at start-up.
- **Config.Load:** a `CHECK_INTERVAL_HOURS` that is not an integer makes
  config.py:28 raise `ValueError` at import. `Load` does not model this parse
  and returns `Ok` for such an environment.
- **`CHECK_INTERVAL_HOURS`** (an `int` parse) **and the `.env` loading**. The
  scheduler is not part of this model.
- **Whitespace.** `Config.Strip` strips the ASCII whitespace Python recognises.
  Unicode whitespace beyond ASCII is not modelled.
- **Timestamps** are modelled as ordered integers (`Stamp`). Converting ISO 8601
  strings and comparing them, as `isoformat()` and the `or ''` key do, is
  assumed to be chronological.
- **Playlists.SortSorts:** stability of `list.sort` and `sorted` holds by
  construction of `Sort`, but is not stated as a lemma.
- **Truthiness of a statistics entry.** `if stats:` is modelled as key presence
  in the merged map. Every stored entry is a non-empty dictionary.
- **DataLoader.Loader.CheckForNewVideos:** when an insert is refused, the
  fetched batches cover only the playlists processed so far. The counters are
  then dropped, as the source raises.
- **DataLoader.Loader.SyncPlaylist:** after a refused insert it does not
  constrain the returned counters; the caller discards them.
- **Database.DatabaseManager.GetExistingPlaylists:** `SELECT DISTINCT` promises
  no order, so the contract states only membership and the absence of
  duplicates.
- **The website's queries `get_playlists_data` and
  `get_playlists_monthly_data`**, and the SQL aggregation behind them. Their
  rows are the inputs of the two views.
- **Rendering, and the error page on an exception.** `render_template`, the
  blueprints and the `try`/`except` fallback are not modelled. With non-NULL
  counts, as the model's integer types assume, the views' other steps raise
  nothing, so the model has no error path for them. A NULL `view_count` would
  make the sort by views raise.
- **Concurrency between runs.** Two synchronisers racing on one table are not
  modelled.
