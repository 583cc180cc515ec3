/** The playlists-by-month page: the monthly totals the store aggregates per
    playlist, grouped by playlist in a dictionary whose missing entries default to
    an empty group. */
module PlaylistsMonthly {
  import opened Common
  import opened Grouping

  /** One row of the monthly aggregate: a playlist, a month and that month's
      totals. */
  datatype MonthlyRow = MonthlyRow(
    playlistId: string,
    playlistTitle: string,
    yearMonth: string,
    totalViews: int,
    totalLikes: int,
    videoCount: int)

  /** The entry a row contributes to its playlist's `monthly_data`. */
  datatype MonthEntry = MonthEntry(yearMonth: string, totalViews: int, totalLikes: int, videoCount: int)

  /** A group of the page; `id` and `title` are unset (`None`) in the default a
      missing key produces. */
  datatype MonthlyGroup = MonthlyGroup(id: Option<string>, title: Option<string>, monthlyData: seq<MonthEntry>)

  /** The default factory of the dictionary. */
  const EmptyGroup := MonthlyGroup(None, None, [])

  function MonthlyIdOf(r: MonthlyRow): string
  {
    r.playlistId
  }

  function ToEntry(r: MonthlyRow): MonthEntry
  {
    MonthEntry(r.yearMonth, r.totalViews, r.totalLikes, r.videoCount)
  }

  /** The title of the last row of playlist `k`: each row overwrites the title. */
  function LastTitle(rows: seq<MonthlyRow>, k: string): Option<string>
  {
    if rows == [] then None
    else if rows[|rows| - 1].playlistId == k then Some(rows[|rows| - 1].playlistTitle)
    else LastTitle(rows[..|rows| - 1], k)
  }

  /** A playlist has a title exactly when some row belongs to it, and the title is
      that of its last row. */
  lemma {:induction false} LastTitleIsLast(rows: seq<MonthlyRow>, k: string)
    ensures LastTitle(rows, k).Some? <==> k in Keys(rows, MonthlyIdOf)
    ensures LastTitle(rows, k).Some? ==>
              exists i :: 0 <= i < |rows| && rows[i].playlistId == k && rows[i].playlistTitle == LastTitle(rows, k).value &&
                          forall j :: i < j < |rows| ==> rows[j].playlistId != k
  {
    if rows != [] {
      var init := rows[..|rows| - 1];
      KeysAt(rows, MonthlyIdOf);
      KeysAt(init, MonthlyIdOf);
      LastTitleIsLast(init, k);
      var n := |rows| - 1;
      if rows[n].playlistId == k {
        assert Keys(rows, MonthlyIdOf)[n] == k;
      } else {
        assert Keys(rows, MonthlyIdOf) == Keys(init, MonthlyIdOf) + [rows[n].playlistId];
        if LastTitle(init, k).Some? {
          var i :| 0 <= i < |init| && init[i].playlistId == k && init[i].playlistTitle == LastTitle(init, k).value &&
                   forall j :: i < j < |init| ==> init[j].playlistId != k;
          assert rows[i] == init[i];
          assert forall j :: i < j < |init| ==> rows[j] == init[j];
        }
      }
    }
  }

  lemma LastTitleSnoc(rows: seq<MonthlyRow>, i: nat, k: string)
    requires i < |rows|
    ensures LastTitle(rows[..i + 1], k) == if rows[i].playlistId == k then Some(rows[i].playlistTitle) else LastTitle(rows[..i], k)
  {
    assert rows[..i + 1][..i] == rows[..i];
  }

  /** The group of `k`, if there is one, is the one built from the first `i` rows. */
  ghost predicate MonthlyAt(rows: seq<MonthlyRow>, i: nat, groups: map<string, MonthlyGroup>, k: string)
    requires i <= |rows|
  {
    k in groups ==>
      groups[k] == MonthlyGroup(Some(k), LastTitle(rows[..i], k), Entries(rows[..i], MonthlyIdOf, ToEntry, k))
  }

  /** The groups and the dictionary's key order after the first `i` rows. */
  ghost predicate MonthlyUpTo(rows: seq<MonthlyRow>, i: nat, order: seq<string>, groups: map<string, MonthlyGroup>)
    requires i <= |rows|
  {
    && order == Distinct(Keys(rows[..i], MonthlyIdOf))
    && (forall k :: k in groups <==> k in order)
    && (forall k :: MonthlyAt(rows, i, groups, k))
  }

  /** The dictionary after one more row: the row's group, or the default one, gets
      the row's id, its title and its entry at the end. */
  function AddMonthlyRow(groups: map<string, MonthlyGroup>, r: MonthlyRow): map<string, MonthlyGroup>
  {
    var g := if r.playlistId in groups then groups[r.playlistId] else EmptyGroup;
    groups[r.playlistId := g.(id := Some(r.playlistId), title := Some(r.playlistTitle),
                              monthlyData := g.monthlyData + [ToEntry(r)])]
  }

  /** Row `i` keeps the group of every playlist right, one playlist at a time. */
  lemma MonthlyAtStep(rows: seq<MonthlyRow>, i: nat, order: seq<string>, groups: map<string, MonthlyGroup>, k: string)
    requires i < |rows| && MonthlyAt(rows, i, groups, k)
    requires forall k :: k in groups <==> k in order
    requires order == Distinct(Keys(rows[..i], MonthlyIdOf))
    ensures MonthlyAt(rows, i + 1, AddMonthlyRow(groups, rows[i]), k)
  {
    Snoc(rows, i, MonthlyIdOf, ToEntry, k);
    LastTitleSnoc(rows, i, k);
    if k == rows[i].playlistId && k !in groups {
      KeysAndEntries(rows[..i], MonthlyIdOf, ToEntry, k);
    }
  }

  lemma MonthlyStep(rows: seq<MonthlyRow>, i: nat, order: seq<string>, groups: map<string, MonthlyGroup>)
    requires i < |rows| && MonthlyUpTo(rows, i, order, groups)
    ensures var pid := rows[i].playlistId;
            MonthlyUpTo(rows, i + 1, if pid in groups then order else order + [pid], AddMonthlyRow(groups, rows[i]))
  {
    var pid := rows[i].playlistId;
    Snoc(rows, i, MonthlyIdOf, ToEntry, pid);
    DistinctSnoc(Keys(rows[..i], MonthlyIdOf), pid);
    var j, next := i + 1, AddMonthlyRow(groups, rows[i]);
    forall k ensures MonthlyAt(rows, j, next, k) {
      MonthlyAtStep(rows, i, order, groups, k);
    }
  }

  /** `playlists_monthly_index` without the rendering: the dictionary's keys in
      insertion order (the first appearance of each playlist), and for each key its
      id, the title of its last row and one entry per row, in row order. */
  method PlaylistsMonthlyIndex(rows: seq<MonthlyRow>) returns (order: seq<string>, groups: map<string, MonthlyGroup>)
    ensures order == Distinct(Keys(rows, MonthlyIdOf))
    ensures forall k :: k in groups <==> k in order
    ensures forall k :: k in groups ==>
              groups[k] == MonthlyGroup(Some(k), LastTitle(rows, k), Entries(rows, MonthlyIdOf, ToEntry, k))
  {
    order, groups := [], map[];
    for i := 0 to |rows|
      invariant MonthlyUpTo(rows, i, order, groups)
    {
      var row := rows[i];
      MonthlyStep(rows, i, order, groups);
      ghost var next := AddMonthlyRow(groups, row);
      var pid := row.playlistId;
      var g := EmptyGroup;
      if pid in groups {
        g := groups[pid];
      } else {
        order := order + [pid];
      }
      g := g.(id := Some(pid));
      g := g.(title := Some(row.playlistTitle));
      g := g.(monthlyData := g.monthlyData + [ToEntry(row)]);
      groups := groups[pid := g];
      assert groups == next;
    }
    assert rows[..|rows|] == rows;
    forall k | k in groups
      ensures groups[k] == MonthlyGroup(Some(k), LastTitle(rows, k), Entries(rows, MonthlyIdOf, ToEntry, k))
    {
      assert MonthlyAt(rows, |rows|, groups, k);
    }
  }

  /** Every group of the page is filled in: it carries its own key and a title, so
      the default group never shows. */
  lemma GroupsAreFilled(rows: seq<MonthlyRow>, k: string)
    requires k in Keys(rows, MonthlyIdOf)
    ensures var g := MonthlyGroup(Some(k), LastTitle(rows, k), Entries(rows, MonthlyIdOf, ToEntry, k));
            g.id == Some(k) && g.title.Some? && g.monthlyData != []
  {
    LastTitleIsLast(rows, k);
    KeysAndEntries(rows, MonthlyIdOf, ToEntry, k);
  }

  /** The group of `k` is its playlist's rows, one entry per row and in row order:
      the rows carrying `k`, listed by increasing index, are exactly the rows that
      make the group's entrys. */
  lemma MonthlyGroupIsItsRows(rows: seq<MonthlyRow>, k: string)
    ensures var ps := Positions(rows, MonthlyIdOf, k);
            var g := Entries(rows, MonthlyIdOf, ToEntry, k);
            |g| == |ps| &&
            (forall j :: 0 <= j < |ps| ==> ps[j] < |rows| && rows[ps[j]].playlistId == k && g[j] == ToEntry(rows[ps[j]])) &&
            (forall j1, j2 :: 0 <= j1 < j2 < |ps| ==> ps[j1] < ps[j2]) &&
            (forall i :: 0 <= i < |rows| && rows[i].playlistId == k ==> i in ps)
  {
    PositionsExact(rows, MonthlyIdOf, k);
    EntriesAtPositions(rows, MonthlyIdOf, ToEntry, k);
  }

  /** An entry is in a group exactly when a row of its playlist makes it
      (MonthlyGroupIsItsRows gives each row's share), and the groups together hold one
      entry per row. */
  lemma MonthlyPartitionsRows(rows: seq<MonthlyRow>, k: string)
    ensures forall e :: e in Entries(rows, MonthlyIdOf, ToEntry, k) <==>
                        exists i :: 0 <= i < |rows| && rows[i].playlistId == k && ToEntry(rows[i]) == e
    ensures Total(rows, MonthlyIdOf, ToEntry, Distinct(Keys(rows, MonthlyIdOf))) == |rows|
  {
    EntriesFromRows(rows, MonthlyIdOf, ToEntry, k);
    TotalIsRows(rows, MonthlyIdOf, ToEntry);
  }
}
