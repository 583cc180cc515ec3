/** Types shared by the loader, the store and the dashboard. */
module Common {

  datatype Option<T> = None | Some(value: T)

  datatype Result<T, E> = Ok(value: T) | Err(error: E)

  /** A publication instant. The provider sends ISO 8601 strings and the store keeps
      timestamps; both are ordered chronologically, which is all the model uses. */
  type Stamp = int

  /** One video as the synchroniser writes it and as the table stores it: the seven
      columns of the raw video table. */
  datatype VideoRecord = VideoRecord(
    videoId: string,
    title: string,
    playlistId: string,
    playlistTitle: string,
    viewCount: nat,
    likeCount: nat,
    publishedAt: Option<Stamp>)

  predicate NoDuplicates<T(==)>(s: seq<T>)
  {
    forall i, j :: 0 <= i < j < |s| ==> s[i] != s[j]
  }

  /** The distinct elements of `s`, in the order of their first occurrence (the key
      order of a Python dict filled from `s`). */
  function Distinct<T(==, !new)>(s: seq<T>): (r: seq<T>)
    ensures NoDuplicates(r)
    ensures forall x :: x in r <==> x in s
  {
    if s == [] then []
    else
      var rest := Distinct(s[..|s| - 1]);
      assert forall x :: x in s <==> x in s[..|s| - 1] || x == s[|s| - 1];
      if s[|s| - 1] in rest then rest else rest + [s[|s| - 1]]
  }

  /** The prefix of `b` after `a` grows by one element. */
  lemma AppendPrefixSnoc<T>(a: seq<T>, b: seq<T>, j: nat)
    requires j < |b|
    ensures a + b[..j + 1] == (a + b[..j]) + [b[j]]
  {
    assert b[..j + 1] == b[..j] + [b[j]];
  }

  lemma SnocAssoc<T>(a: seq<T>, x: T, b: seq<T>)
    ensures (a + [x]) + b == a + ([x] + b)
  {
    AppendAssoc(a, [x], b);
  }

  lemma AppendAssoc<T>(a: seq<T>, b: seq<T>, c: seq<T>)
    ensures (a + b) + c == a + (b + c)
  {
  }

  /** Distinct on a sequence extended by one element. */
  lemma DistinctSnoc<T(!new)>(s: seq<T>, x: T)
    ensures Distinct(s + [x]) == if x in s then Distinct(s) else Distinct(s) + [x]
  {
    assert (s + [x])[..|s + [x]| - 1] == s;
  }
}
