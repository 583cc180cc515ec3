/** Grouping rows by a string key, as both dashboard views do with a dict keyed by
    playlist id: the keys in order of first appearance, and for each key the
    entries made from its rows, in row order. */
module Grouping {
  import opened Common

  /** The key of every row, in row order. */
  function Keys<R>(rows: seq<R>, key: R -> string): seq<string>
  {
    if rows == [] then [] else Keys(rows[..|rows| - 1], key) + [key(rows[|rows| - 1])]
  }

  /** The entries made from the rows carrying key `k`, in row order. */
  function Entries<R, E>(rows: seq<R>, key: R -> string, entry: R -> E, k: string): seq<E>
  {
    if rows == [] then []
    else
      var last := rows[|rows| - 1];
      Entries(rows[..|rows| - 1], key, entry, k) + if key(last) == k then [entry(last)] else []
  }

  /** The indices of the rows carrying key `k`, in row order. */
  function Positions<R>(rows: seq<R>, key: R -> string, k: string): seq<nat>
  {
    if rows == [] then []
    else Positions(rows[..|rows| - 1], key, k) + if key(rows[|rows| - 1]) == k then [|rows| - 1] else []
  }

  /** The number of entries of all the groups named in `keys`. */
  function Total<R, E>(rows: seq<R>, key: R -> string, entry: R -> E, keys: seq<string>): nat
  {
    if keys == [] then 0 else |Entries(rows, key, entry, keys[0])| + Total(rows, key, entry, keys[1..])
  }

  lemma {:induction false} KeysAt<R>(rows: seq<R>, key: R -> string)
    ensures |Keys(rows, key)| == |rows|
    ensures forall i :: 0 <= i < |rows| ==> Keys(rows, key)[i] == key(rows[i])
  {
    if rows != [] {
      KeysAt(rows[..|rows| - 1], key);
    }
  }

  /** The prefix of the rows after one more row. */
  lemma Snoc<R, E>(rows: seq<R>, i: nat, key: R -> string, entry: R -> E, k: string)
    requires i < |rows|
    ensures Keys(rows[..i + 1], key) == Keys(rows[..i], key) + [key(rows[i])]
    ensures Entries(rows[..i + 1], key, entry, k)
            == Entries(rows[..i], key, entry, k) + if key(rows[i]) == k then [entry(rows[i])] else []
  {
    assert rows[..i + 1][..i] == rows[..i];
  }

  /** A key is named by some row exactly when its group is non-empty. */
  lemma {:induction false} KeysAndEntries<R, E>(rows: seq<R>, key: R -> string, entry: R -> E, k: string)
    ensures k in Keys(rows, key) <==> Entries(rows, key, entry, k) != []
  {
    if rows != [] {
      KeysAndEntries(rows[..|rows| - 1], key, entry, k);
    }
  }

  /** The positions are exactly the rows carrying `k`, each once, in increasing
      order. */
  lemma {:induction false} PositionsExact<R>(rows: seq<R>, key: R -> string, k: string)
    ensures forall j :: 0 <= j < |Positions(rows, key, k)| ==>
              Positions(rows, key, k)[j] < |rows| && key(rows[Positions(rows, key, k)[j]]) == k
    ensures forall j1, j2 :: 0 <= j1 < j2 < |Positions(rows, key, k)| ==>
              Positions(rows, key, k)[j1] < Positions(rows, key, k)[j2]
    ensures forall i :: 0 <= i < |rows| && key(rows[i]) == k ==> i in Positions(rows, key, k)
  {
    if rows != [] {
      var n := |rows| - 1;
      var init := rows[..n];
      PositionsExact(init, key, k);
      var p := Positions(init, key, k);
      assert forall j :: 0 <= j < |p| ==> p[j] < n && rows[p[j]] == init[p[j]];
      forall i | 0 <= i < n && key(rows[i]) == k ensures i in p {
        assert init[i] == rows[i];
      }
    }
  }

  /** The group of `k` holds one entry per row carrying `k`, made from that row, in
      row order: each group is its playlist's rows, with their multiplicity. */
  lemma {:induction false} EntriesAtPositions<R, E>(rows: seq<R>, key: R -> string, entry: R -> E, k: string)
    ensures |Entries(rows, key, entry, k)| == |Positions(rows, key, k)|
    ensures forall j :: 0 <= j < |Positions(rows, key, k)| ==>
              Positions(rows, key, k)[j] < |rows| &&
              Entries(rows, key, entry, k)[j] == entry(rows[Positions(rows, key, k)[j]])
  {
    if rows != [] {
      var n := |rows| - 1;
      var init := rows[..n];
      EntriesAtPositions(init, key, entry, k);
      var p := Positions(init, key, k);
      assert forall j :: 0 <= j < |p| ==> p[j] < n && rows[p[j]] == init[p[j]];
    }
  }

  /** An entry is in the group of `k` exactly when it is made from a row carrying
      `k`. */
  lemma {:induction false} EntriesFromRows<R, E>(rows: seq<R>, key: R -> string, entry: R -> E, k: string)
    ensures forall e :: e in Entries(rows, key, entry, k) <==>
                        exists i :: 0 <= i < |rows| && key(rows[i]) == k && entry(rows[i]) == e
  {
    if rows != [] {
      var init := rows[..|rows| - 1];
      EntriesFromRows(init, key, entry, k);
      forall e ensures e in Entries(rows, key, entry, k) <==>
                       exists i :: 0 <= i < |rows| && key(rows[i]) == k && entry(rows[i]) == e
      {
        if e in Entries(init, key, entry, k) {
          var i :| 0 <= i < |init| && key(init[i]) == k && entry(init[i]) == e;
          assert rows[i] == init[i];
        }
        if i :| 0 <= i < |rows| && key(rows[i]) == k && entry(rows[i]) == e {
          if i < |init| {
            assert init[i] == rows[i];
          }
        }
      }
    }
  }

  lemma {:induction false} TotalAppendKey<R, E>(rows: seq<R>, key: R -> string, entry: R -> E, keys: seq<string>, k: string)
    ensures Total(rows, key, entry, keys + [k]) == Total(rows, key, entry, keys) + |Entries(rows, key, entry, k)|
  {
    if keys == [] {
      assert keys + [k] == [k];
    } else {
      assert (keys + [k])[1..] == keys[1..] + [k];
      TotalAppendKey(rows, key, entry, keys[1..], k);
    }
  }

  /** One more row adds one entry to each group named by its key. */
  lemma {:induction false} TotalAppendRow<R, E>(rows: seq<R>, key: R -> string, entry: R -> E, keys: seq<string>, r: R)
    requires NoDuplicates(keys)
    ensures Total(rows + [r], key, entry, keys) == Total(rows, key, entry, keys) + if key(r) in keys then 1 else 0
  {
    assert (rows + [r])[..|rows|] == rows;
    if keys != [] {
      assert NoDuplicates(keys[1..]) by {
        forall i, j | 0 <= i < j < |keys[1..]| ensures keys[1..][i] != keys[1..][j] {
          assert keys[1..][i] == keys[i + 1] && keys[1..][j] == keys[j + 1];
        }
      }
      TotalAppendRow(rows, key, entry, keys[1..], r);
      if key(r) == keys[0] {
        assert key(r) !in keys[1..] by {
          forall j | 0 <= j < |keys[1..]| ensures keys[1..][j] != keys[0] {
            assert keys[1..][j] == keys[j + 1];
          }
        }
      }
      assert key(r) in keys <==> key(r) == keys[0] || key(r) in keys[1..];
    }
  }

  /** Every row lands in exactly one group: the groups of the distinct keys hold as
      many entries as there are rows. */
  lemma {:induction false} TotalIsRows<R, E>(rows: seq<R>, key: R -> string, entry: R -> E)
    ensures Total(rows, key, entry, Distinct(Keys(rows, key))) == |rows|
  {
    if rows != [] {
      var init := rows[..|rows| - 1];
      var r := rows[|rows| - 1];
      var ks := Keys(init, key);
      TotalIsRows(init, key, entry);
      assert rows == init + [r];
      DistinctSnoc(ks, key(r));
      TotalAppendRow(init, key, entry, Distinct(ks), r);
      if key(r) !in ks {
        KeysAndEntries(init, key, entry, key(r));
        TotalAppendKey(rows, key, entry, Distinct(ks), key(r));
        assert Entries(rows, key, entry, key(r)) == [entry(r)];
      }
    }
  }
}
