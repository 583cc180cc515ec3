/** The playlists page of the dashboard: the rows of the per-playlist query are
    grouped by playlist, each group's videos are sorted by publication date, and
    the five most viewed videos of each group are picked out. */
module Playlists {
  import opened Common
  import opened Grouping

  /** One row of the per-playlist query. */
  datatype PlaylistRow = PlaylistRow(
    playlistId: string,
    playlistTitle: string,
    videoId: string,
    title: string,
    viewCount: int,
    likeCount: int,
    publishedAt: Option<Stamp>)

  /** A video as a group lists it. */
  datatype Video = Video(videoId: string, title: string, viewCount: int, likeCount: int, publishedAt: Option<Stamp>)

  /** One playlist of the page. `topVideos` stays empty until the second loop. */
  datatype Group = Group(id: string, title: string, videos: seq<Video>, topVideos: seq<Video>)

  function PlaylistIdOf(r: PlaylistRow): string
  {
    r.playlistId
  }

  function ToVideo(r: PlaylistRow): Video
  {
    Video(r.videoId, r.title, r.viewCount, r.likeCount, r.publishedAt)
  }

  // ---------------------------------------------------------------------------
  // Python's stable sort, as an insertion sort under "may precede"
  // ---------------------------------------------------------------------------

  /** `le` is total, as a sort key's order is. */
  ghost predicate Connex<T(!new)>(le: (T, T) -> bool)
  {
    forall a, b :: le(a, b) || le(b, a)
  }

  /** `le` is transitive, as a sort key's order is. */
  ghost predicate Transitive<T(!new)>(le: (T, T) -> bool)
  {
    forall a, b, c :: le(a, b) && le(b, c) ==> le(a, c)
  }

  predicate Sorted<T>(le: (T, T) -> bool, s: seq<T>)
  {
    forall i, j :: 0 <= i < j < |s| ==> le(s[i], s[j])
  }

  /** Each element may precede its successor. */
  predicate Chained<T>(le: (T, T) -> bool, s: seq<T>)
  {
    forall i :: 0 < i < |s| ==> le(s[i - 1], s[i])
  }

  lemma {:induction false} ChainedSorted<T(!new)>(le: (T, T) -> bool, s: seq<T>)
    requires Transitive(le) && Chained(le, s)
    ensures Sorted(le, s)
  {
    if s != [] {
      var n := |s| - 1;
      var init := s[..n];
      assert Chained(le, init) by {
        forall i | 0 < i < |init| ensures le(init[i - 1], init[i]) {
          assert init[i - 1] == s[i - 1] && init[i] == s[i];
        }
      }
      ChainedSorted(le, init);
      forall i, j | 0 <= i < j < |s| ensures le(s[i], s[j]) {
        if j < n {
          assert s[i] == init[i] && s[j] == init[j];
        } else if i < n - 1 {
          assert s[i] == init[i] && s[n - 1] == init[n - 1];
          assert le(s[i], s[n - 1]) && le(s[n - 1], s[n]);
        }
      }
    }
  }

  /** `x` placed after every element of `s` from the right end on that it may not
      precede: the step of a stable insertion sort. */
  function Insert<T>(le: (T, T) -> bool, s: seq<T>, x: T): (r: seq<T>)
    ensures |r| == |s| + 1
  {
    if s == [] then [x]
    else if le(s[|s| - 1], x) then s + [x]
    else Insert(le, s[..|s| - 1], x) + [s[|s| - 1]]
  }

  /** The stable sort of `s`: equal elements keep their relative order. */
  function Sort<T>(le: (T, T) -> bool, s: seq<T>): (r: seq<T>)
    ensures |r| == |s|
  {
    if s == [] then [] else Insert(le, Sort(le, s[..|s| - 1]), s[|s| - 1])
  }

  lemma {:induction false} InsertPermutes<T>(le: (T, T) -> bool, s: seq<T>, x: T)
    ensures multiset(Insert(le, s, x)) == multiset(s) + multiset{x}
  {
    if s != [] && !le(s[|s| - 1], x) {
      InsertPermutes(le, s[..|s| - 1], x);
      MultisetSnoc(s);
    }
  }

  lemma MultisetSnoc<T>(s: seq<T>)
    requires s != []
    ensures multiset(s) == multiset(s[..|s| - 1]) + multiset{s[|s| - 1]}
  {
    assert s == s[..|s| - 1] + [s[|s| - 1]];
  }

  /** The last element after an insertion is `x` or the old last element. */
  lemma InsertLast<T>(le: (T, T) -> bool, s: seq<T>, x: T)
    ensures var r := Insert(le, s, x);
            r[|r| - 1] == x || (s != [] && r[|r| - 1] == s[|s| - 1])
  {
  }

  lemma {:induction false} InsertChained<T(!new)>(le: (T, T) -> bool, s: seq<T>, x: T)
    requires Connex(le) && Chained(le, s)
    ensures Chained(le, Insert(le, s, x))
  {
    if s != [] {
      var n := |s| - 1;
      var init := s[..n];
      if !le(s[n], x) {
        assert le(x, s[n]);
        assert Chained(le, init) by {
          forall i | 0 < i < |init| ensures le(init[i - 1], init[i]) {
            assert init[i - 1] == s[i - 1] && init[i] == s[i];
          }
        }
        InsertChained(le, init, x);
        var r := Insert(le, init, x);
        InsertLast(le, init, x);
        if init != [] {
          assert init[|init| - 1] == s[n - 1];
        }
        assert Insert(le, s, x) == r + [s[n]];
      }
    }
  }

  /** The sort is a permutation of its input, in order. */
  lemma {:induction false} SortSorts<T(!new)>(le: (T, T) -> bool, s: seq<T>)
    requires Connex(le) && Transitive(le)
    ensures Sorted(le, Sort(le, s))
    ensures multiset(Sort(le, s)) == multiset(s)
  {
    SortChained(le, s);
    SortPermutes(le, s);
    ChainedSorted(le, Sort(le, s));
  }

  lemma {:induction false} SortPermutes<T>(le: (T, T) -> bool, s: seq<T>)
    ensures multiset(Sort(le, s)) == multiset(s)
  {
    if s != [] {
      var init, x := s[..|s| - 1], s[|s| - 1];
      SortPermutes(le, init);
      InsertPermutes(le, Sort(le, init), x);
      MultisetSnoc(s);
    }
  }

  lemma {:induction false} SortChained<T(!new)>(le: (T, T) -> bool, s: seq<T>)
    requires Connex(le)
    ensures Chained(le, Sort(le, s))
  {
    if s != [] {
      var init, x := s[..|s| - 1], s[|s| - 1];
      SortChained(le, init);
      InsertChained(le, Sort(le, init), x);
      assert Sort(le, s) == Insert(le, Sort(le, init), x);
    }
  }

  /** The sort in place (list.sort): element `i` is moved left past every element it
      must precede. */
  method InsertionSort<T>(a: array<T>, le: (T, T) -> bool)
    modifies a
    ensures a[..] == Sort(le, old(a[..]))
  {
    ghost var s := a[..];
    for i := 0 to a.Length
      invariant a[..i] == Sort(le, s[..i])
      invariant a[i..] == s[i..]
    {
      assert s[..i + 1][..i] == s[..i];
      assert a[i] == s[i];
      InsertNext(a, i, le);
    }
    assert a[..a.Length] == a[..] && s[..a.Length] == s;
  }

  /** Where the insertion puts `x`: right after the last element of `s[..i]` it may
      follow, every later one moving one place right. */
  lemma {:induction false} InsertAt<T>(le: (T, T) -> bool, s: seq<T>, i: nat, j: nat, x: T)
    requires j <= i <= |s|
    requires j == 0 || le(s[j - 1], x)
    requires forall k :: j <= k < i ==> !le(s[k], x)
    ensures Insert(le, s[..i], x) == s[..j] + [x] + s[j..i]
  {
    if i == j {
      if j > 0 {
        assert s[..i][i - 1] == s[j - 1];
      }
    } else {
      InsertAt(le, s, i - 1, j, x);
      assert s[..i][i - 1] == s[i - 1] && s[..i][..i - 1] == s[..i - 1];
      assert s[j..i] == s[j..i - 1] + [s[i - 1]];
    }
  }

  /** One pass of the insertion sort: `a[i]` joins the sorted prefix before it. */
  method InsertNext<T>(a: array<T>, i: nat, le: (T, T) -> bool)
    requires i < a.Length
    modifies a
    ensures a[..i + 1] == Insert(le, old(a[..i]), old(a[i]))
    ensures a[i + 1..] == old(a[i + 1..])
  {
    ghost var o := a[..];
    var x := a[i];
    var j := i;
    while j > 0 && !le(a[j - 1], x)
      invariant 0 <= j <= i
      invariant forall k :: 0 <= k < j ==> a[k] == o[k]
      invariant forall k :: j < k <= i ==> a[k] == o[k - 1]
      invariant forall k :: i < k < a.Length ==> a[k] == o[k]
      invariant forall k :: j <= k < i ==> !le(o[k], x)
    {
      a[j] := a[j - 1];
      j := j - 1;
    }
    InsertAt(le, o, i, j, x);
    a[j] := x;
    Shifted(a[..], o, i, j, x);
  }

  /** The array after the pass: the prefix before `j`, then `x`, then the rest of the
      sorted prefix shifted one place right, then the untouched suffix. */
  lemma Shifted<T>(r: seq<T>, o: seq<T>, i: nat, j: nat, x: T)
    requires j <= i < |r| == |o|
    requires forall k :: 0 <= k < j ==> r[k] == o[k]
    requires r[j] == x
    requires forall k :: j < k <= i ==> r[k] == o[k - 1]
    requires forall k :: i < k < |r| ==> r[k] == o[k]
    ensures r[..i + 1] == o[..j] + [x] + o[j..i]
    ensures r[i + 1..] == o[i + 1..]
  {
    assert forall k :: j < k <= i ==> (o[..j] + [x] + o[j..i])[k] == o[k - 1];
  }

  // ---------------------------------------------------------------------------
  // The two orders of the page
  // ---------------------------------------------------------------------------

  /** The key `published_at or ''`: a video without a date sorts before every dated
      one. */
  predicate PublishedLeq(a: Option<Stamp>, b: Option<Stamp>)
  {
    a.None? || (b.Some? && a.value <= b.value)
  }

  /** Ascending publication date. */
  predicate ByPublished(a: Video, b: Video)
  {
    PublishedLeq(a.publishedAt, b.publishedAt)
  }

  /** `reverse=True` on `view_count`: more views first. */
  predicate ByViews(a: Video, b: Video)
  {
    a.viewCount >= b.viewCount
  }

  /** Sorting by date orders the videos by date, undated ones first, and permutes
      them. */
  lemma SortByPublishedSorts(vs: seq<Video>)
    ensures var s := Sort(ByPublished, vs);
            (forall i, j :: 0 <= i < j < |s| ==> PublishedLeq(s[i].publishedAt, s[j].publishedAt)) &&
            multiset(s) == multiset(vs)
  {
    assert Connex(ByPublished) && Transitive(ByPublished);
    SortSorts(ByPublished, vs);
  }

  /** Sorting by views orders the videos most viewed first and permutes them. */
  lemma SortByViewsSorts(vs: seq<Video>)
    ensures MostViewedFirst(Sort(ByViews, vs)) && multiset(Sort(ByViews, vs)) == multiset(vs)
  {
    assert Connex(ByViews) && Transitive(ByViews);
    SortSorts(ByViews, vs);
  }

  const TopCount: nat := 5

  /** `sorted(videos, key=view_count, reverse=True)[:5]`. */
  function TopVideos(vs: seq<Video>): seq<Video>
  {
    Sort(ByViews, vs)[..if |vs| < TopCount then |vs| else TopCount]
  }

  /** The videos are ordered most viewed first. */
  predicate MostViewedFirst(s: seq<Video>)
  {
    forall i, j :: 0 <= i < j < |s| ==> s[i].viewCount >= s[j].viewCount
  }

  /** No video of `left` has more than `bound` views. */
  predicate NoneAbove(left: multiset<Video>, bound: int)
  {
    forall v :: v in left ==> v.viewCount <= bound
  }

  /** What a prefix leaves out of a sequence is its suffix. */
  lemma PrefixLeavesSuffix<T>(s: seq<T>, n: nat)
    requires n <= |s|
    ensures multiset(s[..n]) <= multiset(s)
    ensures multiset(s) - multiset(s[..n]) == multiset(s[n..])
  {
    assert s == s[..n] + s[n..];
  }

  lemma PrefixOrdered(s: seq<Video>, n: nat)
    requires n <= |s| && MostViewedFirst(s)
    ensures MostViewedFirst(s[..n])
  {
    assert forall i :: 0 <= i < n ==> s[..n][i] == s[i];
  }

  lemma {:induction false} SuffixBelow(s: seq<Video>, n: nat)
    requires 0 < n <= |s| && MostViewedFirst(s)
    ensures NoneAbove(multiset(s[n..]), s[n - 1].viewCount)
  {
    forall v | v in multiset(s[n..]) ensures v.viewCount <= s[n - 1].viewCount {
      var m :| 0 <= m < |s[n..]| && s[n..][m] == v;
      assert s[n + m] == v;
    }
  }

  /** Cutting a list sorted most viewed first after `n` videos keeps the most viewed
      ones, in order: nothing cut has more views than the last one kept. */
  lemma PrefixIsTop(s: seq<Video>, vs: seq<Video>, n: nat)
    requires n <= |s| && MostViewedFirst(s) && multiset(s) == multiset(vs)
    ensures multiset(s[..n]) <= multiset(vs)
    ensures MostViewedFirst(s[..n])
    ensures n > 0 ==> NoneAbove(multiset(vs) - multiset(s[..n]), s[n - 1].viewCount)
  {
    PrefixLeavesSuffix(s, n);
    PrefixOrdered(s, n);
    if n > 0 {
      SuffixBelow(s, n);
    }
  }

  /** The top list has min(5, n) videos taken from the list, most viewed first, and
      no video left out has more views than the least viewed one kept. */
  lemma TopVideosAreTop(vs: seq<Video>)
    ensures var top := TopVideos(vs);
            |top| == (if |vs| < TopCount then |vs| else TopCount) &&
            multiset(top) <= multiset(vs) &&
            MostViewedFirst(top) &&
            (top == [] ==> vs == []) &&
            (top != [] ==> NoneAbove(multiset(vs) - multiset(top), top[|top| - 1].viewCount))
  {
    SortByViewsSorts(vs);
    PrefixIsTop(Sort(ByViews, vs), vs, if |vs| < TopCount then |vs| else TopCount);
  }

  // ---------------------------------------------------------------------------
  // The page
  // ---------------------------------------------------------------------------

  /** The title of the first row of playlist `k`, which the group keeps. */
  function FirstTitle(rows: seq<PlaylistRow>, k: string): Option<string>
  {
    if rows == [] then None
    else
      var t := FirstTitle(rows[..|rows| - 1], k);
      var last := rows[|rows| - 1];
      if t.Some? then t else if last.playlistId == k then Some(last.playlistTitle) else None
  }

  /** The first row of `k` gives its title; there is one exactly when some row
      belongs to `k`. */
  lemma {:induction false} FirstTitleIsFirst(rows: seq<PlaylistRow>, k: string)
    ensures FirstTitle(rows, k).Some? <==> k in Keys(rows, PlaylistIdOf)
    ensures FirstTitle(rows, k).Some? ==>
              exists i :: 0 <= i < |rows| && rows[i].playlistId == k && rows[i].playlistTitle == FirstTitle(rows, k).value &&
                          forall j :: 0 <= j < i ==> rows[j].playlistId != k
  {
    if rows != [] {
      var init := rows[..|rows| - 1];
      FirstTitleIsFirst(init, k);
      var t := FirstTitle(rows, k);
      if FirstTitle(init, k).Some? {
        var i :| 0 <= i < |init| && init[i].playlistId == k && init[i].playlistTitle == t.value &&
                 forall j :: 0 <= j < i ==> init[j].playlistId != k;
        assert rows[i] == init[i] && forall j :: 0 <= j < i ==> rows[j] == init[j];
      } else if t.Some? {
        KeysAt(init, PlaylistIdOf);
        forall j | 0 <= j < |init| ensures rows[j].playlistId != k {
          assert rows[j] == init[j] && Keys(init, PlaylistIdOf)[j] == init[j].playlistId;
        }
        assert rows[|rows| - 1].playlistTitle == t.value;
      }
    }
  }

  /** `playlists_index` without the rendering: the groups in order of first
      appearance of their playlist, each with the title of its first row, its
      videos sorted by publication date and its five most viewed videos. */
  method PlaylistsIndex(rows: seq<PlaylistRow>) returns (order: seq<string>, groups: map<string, Group>)
    ensures order == Distinct(Keys(rows, PlaylistIdOf))
    ensures forall k :: k in groups <==> k in order
    ensures forall k :: k in groups ==>
              groups[k].id == k && FirstTitle(rows, k) == Some(groups[k].title) &&
              groups[k].videos == Sort(ByPublished, Entries(rows, PlaylistIdOf, ToVideo, k)) &&
              groups[k].topVideos == TopVideos(groups[k].videos)
  {
    order, groups := GroupRows(rows);
    ghost var grouped := groups;
    for j := 0 to |order|
      invariant forall k :: k in groups <==> k in order
      invariant FinishedUpTo(order, j, grouped, groups)
    {
      assert FinishedAt(order, j, grouped, groups, j);
      var g := FinishGroup(groups[order[j]]);
      FinishStep(order, j, grouped, groups, g);
      groups := groups[order[j] := g];
    }
    AllFinished(rows, order, grouped, groups);
  }

  /** The group of `order[n]` is finished once the loop has passed `n`. */
  ghost predicate FinishedAt(order: seq<string>, j: nat, grouped: map<string, Group>, groups: map<string, Group>, n: nat)
    requires n < |order|
  {
    && order[n] in grouped && order[n] in groups
    && groups[order[n]] == if n < j then Finished(grouped[order[n]]) else grouped[order[n]]
  }

  /** The groups of `order[..j]` are finished and the others are as they were. */
  ghost predicate FinishedUpTo(order: seq<string>, j: nat, grouped: map<string, Group>, groups: map<string, Group>)
  {
    forall n :: 0 <= n < |order| ==> FinishedAt(order, j, grouped, groups, n)
  }

  /** The second loop finishes group `j` and leaves the others as they were. */
  lemma FinishStep(order: seq<string>, j: nat, grouped: map<string, Group>, groups: map<string, Group>, g: Group)
    requires j < |order| && NoDuplicates(order)
    requires FinishedUpTo(order, j, grouped, groups)
    requires order[j] in groups && order[j] in grouped
    requires g == Finished(groups[order[j]]) && groups[order[j]] == grouped[order[j]]
    ensures FinishedUpTo(order, j + 1, grouped, groups[order[j] := g])
  {
    var next, after := j + 1, groups[order[j] := g];
    forall n | 0 <= n < |order| ensures FinishedAt(order, next, grouped, after, n) {
      assert FinishedAt(order, j, grouped, groups, n);
      if n != j {
        assert order[n] != order[j];
      }
    }
  }

  /** After the second loop every group is finished. */
  lemma AllFinished(rows: seq<PlaylistRow>, order: seq<string>, grouped: map<string, Group>, groups: map<string, Group>)
    requires forall k :: k in grouped ==>
               grouped[k].id == k && FirstTitle(rows, k) == Some(grouped[k].title) &&
               grouped[k].videos == Entries(rows, PlaylistIdOf, ToVideo, k)
    requires forall k :: k in groups <==> k in order
    requires FinishedUpTo(order, |order|, grouped, groups)
    ensures forall k :: k in groups ==>
              groups[k].id == k && FirstTitle(rows, k) == Some(groups[k].title) &&
              groups[k].videos == Sort(ByPublished, Entries(rows, PlaylistIdOf, ToVideo, k)) &&
              groups[k].topVideos == TopVideos(groups[k].videos)
  {
    forall k | k in groups
      ensures groups[k].id == k && FirstTitle(rows, k) == Some(groups[k].title) &&
              groups[k].videos == Sort(ByPublished, Entries(rows, PlaylistIdOf, ToVideo, k)) &&
              groups[k].topVideos == TopVideos(groups[k].videos)
    {
      var n :| 0 <= n < |order| && order[n] == k;
      assert FinishedAt(order, |order|, grouped, groups, n);
    }
  }

  /** A group once its videos are sorted and its top list is picked. */
  function Finished(g: Group): Group
  {
    var vs := Sort(ByPublished, g.videos);
    g.(videos := vs, topVideos := TopVideos(vs))
  }

  /** The second loop of `playlists_index` on one group. */
  method FinishGroup(g: Group) returns (h: Group)
    ensures h == Finished(g)
  {
    var a := new Video[|g.videos|](i requires 0 <= i < |g.videos| => g.videos[i]);
    assert a[..] == g.videos;
    InsertionSort(a, ByPublished);
    h := g.(videos := a[..], topVideos := TopVideos(a[..]));
  }

  /** The group of `k`, if there is one, is the one built from the first `i` rows. */
  ghost predicate GroupAt(rows: seq<PlaylistRow>, i: nat, groups: map<string, Group>, k: string)
    requires i <= |rows|
  {
    k in groups ==>
      FirstTitle(rows[..i], k).Some? &&
      groups[k] == Group(k, FirstTitle(rows[..i], k).value, Entries(rows[..i], PlaylistIdOf, ToVideo, k), [])
  }

  /** The groups built from the first `i` rows, in order of first appearance. */
  ghost predicate GroupedUpTo(rows: seq<PlaylistRow>, i: nat, order: seq<string>, groups: map<string, Group>)
    requires i <= |rows|
  {
    && order == Distinct(Keys(rows[..i], PlaylistIdOf))
    && (forall k :: k in groups <==> k in order)
    && (forall k :: GroupAt(rows, i, groups, k))
  }

  /** The groups after row `i`, given the groups before it. */
  function AddRow(groups: map<string, Group>, r: PlaylistRow): map<string, Group>
  {
    var started := if r.playlistId in groups then groups else groups[r.playlistId := Group(r.playlistId, r.playlistTitle, [], [])];
    var g := started[r.playlistId];
    started[r.playlistId := g.(videos := g.videos + [ToVideo(r)])]
  }

  /** Row `i` keeps the group of every playlist right, one playlist at a time. */
  lemma GroupAtStep(rows: seq<PlaylistRow>, i: nat, order: seq<string>, groups: map<string, Group>, k: string)
    requires i < |rows| && GroupAt(rows, i, groups, k)
    requires forall k :: k in groups <==> k in order
    requires order == Distinct(Keys(rows[..i], PlaylistIdOf))
    ensures GroupAt(rows, i + 1, AddRow(groups, rows[i]), k)
  {
    var r := rows[i];
    Snoc(rows, i, PlaylistIdOf, ToVideo, k);
    FirstTitleSnoc(rows, i, k);
    if k == r.playlistId && k !in groups {
      FirstTitleIsFirst(rows[..i], k);
      KeysAndEntries(rows[..i], PlaylistIdOf, ToVideo, k);
    }
  }

  /** One row of the first loop: a new playlist gets a group with the row's title and
      goes at the end of the order, and the row's video goes at the end of its
      group. */
  lemma GroupStep(rows: seq<PlaylistRow>, i: nat, order: seq<string>, groups: map<string, Group>)
    requires i < |rows| && GroupedUpTo(rows, i, order, groups)
    ensures var pid := rows[i].playlistId;
            GroupedUpTo(rows, i + 1, if pid in groups then order else order + [pid], AddRow(groups, rows[i]))
  {
    var pid := rows[i].playlistId;
    Snoc(rows, i, PlaylistIdOf, ToVideo, pid);
    DistinctSnoc(Keys(rows[..i], PlaylistIdOf), pid);
    var j, next := i + 1, AddRow(groups, rows[i]);
    forall k ensures GroupAt(rows, j, next, k) {
      GroupAtStep(rows, i, order, groups, k);
    }
  }

  /** The first loop of `playlists_index`: a group per playlist, created on its first
      row with that row's title, and each row's video appended to its group. */
  method GroupRows(rows: seq<PlaylistRow>) returns (order: seq<string>, groups: map<string, Group>)
    ensures order == Distinct(Keys(rows, PlaylistIdOf))
    ensures forall k :: k in groups <==> k in order
    ensures forall k :: k in groups ==>
              groups[k].id == k && FirstTitle(rows, k) == Some(groups[k].title) &&
              groups[k].videos == Entries(rows, PlaylistIdOf, ToVideo, k) && groups[k].topVideos == []
  {
    order, groups := [], map[];
    for i := 0 to |rows|
      invariant GroupedUpTo(rows, i, order, groups)
    {
      var r := rows[i];
      GroupStep(rows, i, order, groups);
      ghost var next := AddRow(groups, r);
      if r.playlistId !in groups {
        groups := groups[r.playlistId := Group(r.playlistId, r.playlistTitle, [], [])];
        order := order + [r.playlistId];
      }
      var g := groups[r.playlistId];
      groups := groups[r.playlistId := g.(videos := g.videos + [ToVideo(r)])];
      assert groups == next;
    }
    assert rows[..|rows|] == rows;
    forall k | k in groups
      ensures groups[k].id == k && FirstTitle(rows, k) == Some(groups[k].title) &&
              groups[k].videos == Entries(rows, PlaylistIdOf, ToVideo, k) && groups[k].topVideos == []
    {
      assert GroupAt(rows, |rows|, groups, k);
    }
  }

  lemma FirstTitleSnoc(rows: seq<PlaylistRow>, i: nat, k: string)
    requires i < |rows|
    ensures FirstTitle(rows[..i + 1], k)
            == if FirstTitle(rows[..i], k).Some? then FirstTitle(rows[..i], k)
               else if rows[i].playlistId == k then Some(rows[i].playlistTitle) else None
  {
    assert rows[..i + 1][..i] == rows[..i];
  }

  /** The group of `k` is its playlist's rows, one video per row and in row order:
      the rows carrying `k`, listed by increasing index, are exactly the rows that
      make the group's videos. */
  lemma GroupIsItsRows(rows: seq<PlaylistRow>, k: string)
    ensures var ps := Positions(rows, PlaylistIdOf, k);
            var g := Entries(rows, PlaylistIdOf, ToVideo, k);
            |g| == |ps| &&
            (forall j :: 0 <= j < |ps| ==> ps[j] < |rows| && rows[ps[j]].playlistId == k && g[j] == ToVideo(rows[ps[j]])) &&
            (forall j1, j2 :: 0 <= j1 < j2 < |ps| ==> ps[j1] < ps[j2]) &&
            (forall i :: 0 <= i < |rows| && rows[i].playlistId == k ==> i in ps)
  {
    PositionsExact(rows, PlaylistIdOf, k);
    EntriesAtPositions(rows, PlaylistIdOf, ToVideo, k);
  }

  /** Each group's sorted videos are in date order and are a permutation of its
      videos, which are the videos of its playlist's rows (GroupIsItsRows gives each
      row's share); and the groups together hold one video per row. */
  lemma GroupsPartitionRows(rows: seq<PlaylistRow>, k: string)
    ensures var s := Sort(ByPublished, Entries(rows, PlaylistIdOf, ToVideo, k));
            (forall i, j :: 0 <= i < j < |s| ==> PublishedLeq(s[i].publishedAt, s[j].publishedAt)) &&
            multiset(s) == multiset(Entries(rows, PlaylistIdOf, ToVideo, k))
    ensures forall v :: v in Entries(rows, PlaylistIdOf, ToVideo, k) <==>
                        exists i :: 0 <= i < |rows| && rows[i].playlistId == k && ToVideo(rows[i]) == v
    ensures Total(rows, PlaylistIdOf, ToVideo, Distinct(Keys(rows, PlaylistIdOf))) == |rows|
  {
    SortByPublishedSorts(Entries(rows, PlaylistIdOf, ToVideo, k));
    EntriesFromRows(rows, PlaylistIdOf, ToVideo, k);
    TotalIsRows(rows, PlaylistIdOf, ToVideo);
  }
}
