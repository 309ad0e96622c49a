/**
 * The captured request record and the ordering of records by id. Ids are
 * time-sortable text; the model orders them with the ordinal string order.
 */
module Requests {
  import opened Text

  /** A captured request; the timestamp is an opaque clock reading. */
  datatype RequestRecord = RequestRecord(
    id: string,
    timestamp: int,
    httpMethod: string,
    path: string,
    queryString: string,
    headers: map<string, string>,
    body: Utf16)

  /** `a` sorts no later than `b`. */
  predicate AtMost(a: string, b: string) {
    !Before(b, a)
  }

  lemma AtMostTransitive(a: string, b: string, c: string)
    requires AtMost(a, b) && AtMost(b, c)
    ensures AtMost(a, c)
  {
    BeforeTotal(a, b);
    BeforeTotal(b, c);
    if a != b && b != c {
      BeforeTransitive(a, b, c);
      BeforeAsymmetric(a, c);
    } else if a != b {
      BeforeAsymmetric(a, b);
    } else if b != c {
      BeforeAsymmetric(b, c);
    }
  }

  /** Ascending by id (ties allowed). */
  ghost predicate SortedById(rs: seq<RequestRecord>) {
    forall i, j :: 0 <= i < j < |rs| ==> AtMost(rs[i].id, rs[j].id)
  }

  /** No two records share an id. */
  ghost predicate DistinctIds(rs: seq<RequestRecord>) {
    forall i, j :: 0 <= i < j < |rs| ==> rs[i].id != rs[j].id
  }

  /** Strictly ascending in the id order. */
  ghost predicate StrictlyAscending(ids: seq<string>) {
    forall i, j :: 0 <= i < j < |ids| ==> Before(ids[i], ids[j])
  }

  function Ids(rs: seq<RequestRecord>): (ids: seq<string>)
    ensures |ids| == |rs|
    ensures forall i :: 0 <= i < |rs| ==> ids[i] == rs[i].id
  {
    seq(|rs|, i requires 0 <= i < |rs| => rs[i].id)
  }

  /** Ids strictly ascending. */
  ghost predicate StrictById(rs: seq<RequestRecord>) {
    forall i, j :: 0 <= i < j < |rs| ==> Before(rs[i].id, rs[j].id)
  }

  /** Inserts `x` before the first record whose id is not below it. */
  function InsertById(x: RequestRecord, sorted: seq<RequestRecord>): (r: seq<RequestRecord>)
    ensures multiset(r) == multiset(sorted) + multiset{x}
    ensures forall y :: y in r <==> y == x || y in sorted
  {
    if sorted == [] then [x]
    else if Before(sorted[0].id, x.id) then
      assert sorted == [sorted[0]] + sorted[1..];
      [sorted[0]] + InsertById(x, sorted[1..])
    else
      [x] + sorted
  }

  lemma {:induction false} InsertByIdSorted(x: RequestRecord, sorted: seq<RequestRecord>)
    requires SortedById(sorted)
    ensures SortedById(InsertById(x, sorted))
  {
    if sorted == [] {
    } else if Before(sorted[0].id, x.id) {
      var tail := InsertById(x, sorted[1..]);
      InsertByIdSorted(x, sorted[1..]);
      forall k | 0 <= k < |tail| ensures AtMost(sorted[0].id, tail[k].id) {
        assert tail[k] in tail;
        if tail[k] == x {
          BeforeAsymmetric(sorted[0].id, x.id);
        } else {
          var m :| 0 <= m < |sorted| - 1 && sorted[1..][m] == tail[k];
          assert sorted[m + 1] == tail[k];
        }
      }
      var r := [sorted[0]] + tail;
      forall i, j | 0 <= i < j < |r| ensures AtMost(r[i].id, r[j].id) {
        if i > 0 {
          assert r[i] == tail[i - 1] && r[j] == tail[j - 1];
        }
      }
    } else {
      forall k | 0 <= k < |sorted| ensures AtMost(x.id, sorted[k].id) {
        if k > 0 {
          AtMostTransitive(x.id, sorted[0].id, sorted[k].id);
        }
      }
      var r := [x] + sorted;
      forall i, j | 0 <= i < j < |r| ensures AtMost(r[i].id, r[j].id) {
        if i > 0 {
          assert r[i] == sorted[i - 1] && r[j] == sorted[j - 1];
        }
      }
    }
  }

  /** `OrderBy(r => r.Id)`: a stable sort, ascending by id. */
  function SortById(rs: seq<RequestRecord>): (r: seq<RequestRecord>)
    ensures SortedById(r)
    ensures multiset(r) == multiset(rs)
    ensures |r| == |rs|
    ensures forall y :: y in r <==> y in rs
  {
    if rs == [] then []
    else
      assert rs == [rs[0]] + rs[1..];
      InsertByIdSorted(rs[0], SortById(rs[1..]));
      InsertById(rs[0], SortById(rs[1..]))
  }

  /** Inserting a record with a new id keeps the ids strictly ascending. */
  lemma {:induction false} InsertByIdStrict(x: RequestRecord, sorted: seq<RequestRecord>)
    requires StrictById(sorted)
    requires forall y :: y in sorted ==> y.id != x.id
    ensures StrictById(InsertById(x, sorted))
  {
    if sorted == [] {
    } else if Before(sorted[0].id, x.id) {
      var tail := InsertById(x, sorted[1..]);
      InsertByIdStrict(x, sorted[1..]);
      forall k | 0 <= k < |tail| ensures Before(sorted[0].id, tail[k].id) {
        assert tail[k] in tail;
        if tail[k] != x {
          var m :| 0 <= m < |sorted| - 1 && sorted[1..][m] == tail[k];
          assert sorted[m + 1] == tail[k];
        }
      }
      var r := [sorted[0]] + tail;
      forall i, j | 0 <= i < j < |r| ensures Before(r[i].id, r[j].id) {
        if i > 0 {
          assert r[i] == tail[i - 1] && r[j] == tail[j - 1];
        }
      }
    } else {
      assert sorted[0] in sorted;
      BeforeTotal(x.id, sorted[0].id);
      forall k | 0 <= k < |sorted| ensures Before(x.id, sorted[k].id) {
        if k > 0 {
          BeforeTransitive(x.id, sorted[0].id, sorted[k].id);
        }
      }
      var r := [x] + sorted;
      forall i, j | 0 <= i < j < |r| ensures Before(r[i].id, r[j].id) {
        if i > 0 {
          assert r[i] == sorted[i - 1] && r[j] == sorted[j - 1];
        }
      }
    }
  }

  /** Sorting records with distinct ids gives strictly ascending ids. */
  lemma {:induction false} SortByIdStrict(rs: seq<RequestRecord>)
    requires DistinctIds(rs)
    ensures StrictById(SortById(rs))
  {
    if rs != [] {
      var tail := rs[1..];
      assert DistinctIds(tail) by {
        forall i, j | 0 <= i < j < |tail| ensures tail[i].id != tail[j].id {
          assert rs[i + 1].id != rs[j + 1].id;
        }
      }
      SortByIdStrict(tail);
      forall y | y in SortById(tail) ensures y.id != rs[0].id {
        var m :| 0 <= m < |tail| && tail[m] == y;
        assert rs[m + 1] == y;
      }
      InsertByIdStrict(rs[0], SortById(tail));
    }
  }

  /** `TakeLast(n)`: the last `n` elements, or all of them. */
  function TakeLast<T>(s: seq<T>, n: nat): (r: seq<T>)
    ensures |r| == if |s| <= n then |s| else n
    ensures r == s[|s| - |r|..]
  {
    if |s| <= n then s else s[|s| - n..]
  }

  /** `Take(n)`: the first `n` elements, or all of them. */
  function Take<T>(s: seq<T>, n: nat): (r: seq<T>)
    ensures |r| == if |s| <= n then |s| else n
    ensures r == s[..|r|]
  {
    if |s| <= n then s else s[..n]
  }

  function Reverse<T>(s: seq<T>): (r: seq<T>)
    ensures |r| == |s|
    ensures forall i :: 0 <= i < |s| ==> r[i] == s[|s| - 1 - i]
  {
    if s == [] then [] else Reverse(s[1..]) + [s[0]]
  }
}
