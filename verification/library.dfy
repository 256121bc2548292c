/**
  The stored recordings and the order the list page shows them in:
  `recs.sort((a, b) => new Date(b.created) - new Date(a.created))`. The
  comparator puts larger `created` first, and JavaScript's `Array.prototype.sort`
  is stable, so records created at the same instant keep their stored order.
 */
module Library {
  import opened JsMath

  /** A `Blob`: its bytes and its MIME type. */
  datatype Blob = Blob(bytes: seq<Uint8>, mime: string)

  /**
    The record the recorder saves: id, display name, audio and creation time
    (milliseconds since the epoch). It carries no duration.
   */
  datatype Recording = Recording(id: string, name: string, blob: Blob, created: int)

  /** Newest first: `created` never increases along the list. */
  predicate NewestFirst(s: seq<Recording>) {
    forall i, j :: 0 <= i < j < |s| ==> s[i].created >= s[j].created
  }

  /** The records created at instant `t`, in list order. */
  function CreatedAt(s: seq<Recording>, t: int): (r: seq<Recording>)
    ensures |r| <= |s|
  {
    if s == [] then []
    else (if s[0].created == t then [s[0]] else []) + CreatedAt(s[1..], t)
  }

  /** Place `x` in front of the first record that is not newer than it. */
  function Insert(x: Recording, s: seq<Recording>): (r: seq<Recording>)
    requires NewestFirst(s)
    ensures NewestFirst(r)
    ensures multiset(r) == multiset(s) + multiset{x}
    ensures r[0] == x || (s != [] && r[0] == s[0])
    decreases |s|
  {
    if s == [] || x.created >= s[0].created then [x] + s
    else
      assert s == [s[0]] + s[1..];
      NewestFirstTail(s);
      var rest := Insert(x, s[1..]);
      PrependNewest(s[0], rest);
      [s[0]] + rest
  }

  lemma NewestFirstTail(s: seq<Recording>)
    requires NewestFirst(s) && s != []
    ensures NewestFirst(s[1..])
  {
    forall i, j | 0 <= i < j < |s| - 1
      ensures s[1..][i].created >= s[1..][j].created
    {
      assert s[1..][i] == s[i + 1] && s[1..][j] == s[j + 1];
    }
  }

  lemma PrependNewest(y: Recording, t: seq<Recording>)
    requires NewestFirst(t)
    requires t == [] || y.created >= t[0].created
    ensures NewestFirst([y] + t)
  {
    var u := [y] + t;
    forall i, j | 0 <= i < j < |u|
      ensures u[i].created >= u[j].created
    {
      if i == 0 {
        assert u[j] == t[j - 1];
      } else {
        assert u[i] == t[i - 1] && u[j] == t[j - 1];
      }
    }
  }

  /** The list page's order for the stored records. */
  function SortNewestFirst(recs: seq<Recording>): (r: seq<Recording>)
    ensures NewestFirst(r)
    ensures multiset(r) == multiset(recs)
    decreases |recs|
  {
    if recs == [] then []
    else
      assert recs == [recs[0]] + recs[1..];
      Insert(recs[0], SortNewestFirst(recs[1..]))
  }

  /** Inserting puts `x` before its ties and keeps the other ties in their order. */
  lemma {:induction false} InsertKeepsTies(x: Recording, s: seq<Recording>, t: int)
    requires NewestFirst(s)
    ensures CreatedAt(Insert(x, s), t) == (if x.created == t then [x] else []) + CreatedAt(s, t)
    decreases |s|
  {
    if s == [] || x.created >= s[0].created {
      assert Insert(x, s) == [x] + s;
      CreatedAtCons(x, s, t);
    } else {
      var y := s[0];
      NewestFirstTail(s);
      var rest := Insert(x, s[1..]);
      assert Insert(x, s) == [y] + rest;
      assert s == [y] + s[1..];
      CreatedAtCons(y, rest, t);
      CreatedAtCons(y, s[1..], t);
      InsertKeepsTies(x, s[1..], t);
      // a tie of x's sits after y, which is strictly newer, so y is never a tie when x is
      assert x.created == t ==> y.created != t;
    }
  }

  /** The records at instant `t` of a list with `y` in front. */
  lemma CreatedAtCons(y: Recording, s: seq<Recording>, t: int)
    ensures CreatedAt([y] + s, t) == (if y.created == t then [y] else []) + CreatedAt(s, t)
  {
    assert ([y] + s)[0] == y;
    assert ([y] + s)[1..] == s;
  }

  /** The sort is stable: records with equal `created` keep their relative order. */
  lemma {:induction false} SortIsStable(recs: seq<Recording>, t: int)
    ensures CreatedAt(SortNewestFirst(recs), t) == CreatedAt(recs, t)
    decreases |recs|
  {
    if recs != [] {
      SortIsStable(recs[1..], t);
      InsertKeepsTies(recs[0], SortNewestFirst(recs[1..]), t);
    }
  }
}
