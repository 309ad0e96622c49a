/**
 * The bounded history of captured requests: a dictionary from id to record
 * plus a queue of ids in arrival order. Recording past the bound evicts
 * from the front of the queue.
 */
module RequestRecorder {
  import opened Wrappers
  import opened Text
  import opened Errors
  import opened Results
  import opened Requests
  import opened RequestSummaries

  /** Default bound on the number of requests kept. */
  const DefaultMaxRequestHistory: nat := 1000
  /** Default bound on the stored body length, in UTF-16 units. */
  const DefaultMaxBodySize: nat := 51200

  ghost predicate NoDuplicates(ids: seq<string>) {
    forall i, j :: 0 <= i < j < |ids| ==> ids[i] != ids[j]
  }

  /** Sorted by id, newest (largest) first. */
  ghost predicate NewestFirst(rs: seq<RequestRecord>) {
    forall i, j :: 0 <= i < j < |rs| ==> AtMost(rs[j].id, rs[i].id)
  }

  class Recorder {
    const maxRequestHistory: nat
    const maxBodySize: nat
    var requests: map<string, RequestRecord>
    var order: seq<string>

    /** The queue and the dictionary hold the same ids, each record under its own id. */
    ghost predicate Valid()
      reads this
    {
      && |order| <= maxRequestHistory
      && NoDuplicates(order)
      && requests.Keys == Elems(order)
      && forall k :: k in requests ==> requests[k].id == k
    }

    /** The queue's arrival order is also id order. */
    ghost predicate Chronological()
      reads this
    {
      StrictlyAscending(order)
    }

    constructor(maxRequestHistory: nat, maxBodySize: nat)
      ensures Valid() && Chronological()
      ensures this.maxRequestHistory == maxRequestHistory && this.maxBodySize == maxBodySize
      ensures requests == map[] && order == []
    {
      this.maxRequestHistory := maxRequestHistory;
      this.maxBodySize := maxBodySize;
      requests := map[];
      order := [];
    }

    /**
     * Stores a new record, truncating the body, then evicts the oldest ids
     * while the queue is over the bound. The id and timestamp, drawn from
     * the id generator and the clock, are inputs.
     */
    method RecordRequest(httpMethod: string, path: string, queryString: string,
                         headers: map<string, string>, body: Utf16,
                         id: string, timestamp: int)
      returns (r: ValueResult<RequestRecord>)
      requires Valid()
      requires id !in order
      modifies this
      ensures Valid()
      ensures r == Ok(RequestRecord(id, timestamp, httpMethod, path, queryString, headers,
                                    Truncate(body, maxBodySize)))
      ensures order == TakeLast(old(order) + [id], maxRequestHistory)
      ensures forall k :: k in requests ==> requests[k] == old(requests)[id := r.value][k]
      ensures maxRequestHistory > 0 ==> id in requests && requests[id] == r.value
      ensures old(Chronological()) && (forall k :: k in old(order) ==> Before(k, id)) ==> Chronological()
    {
      ghost var before := order;
      var truncatedBody := if |body| > maxBodySize then body[..maxBodySize] else body;
      var record := RequestRecord(id, timestamp, httpMethod, path, queryString, headers, truncatedBody);
      EnqueueFresh(order, id);
      requests := requests[id := record];
      order := order + [id];
      EnforceBoundedHistory();
      if StrictlyAscending(before) && forall k :: k in before ==> Before(k, id) {
        RecordKeepsChronological(before, id, maxRequestHistory);
      }
      r := Ok(record);
    }

    /** Dequeues the oldest ids, dropping their records, until the queue fits the bound. */
    method EnforceBoundedHistory()
      requires NoDuplicates(order) && requests.Keys == Elems(order)
      modifies this
      ensures order == TakeLast(old(order), maxRequestHistory)
      ensures NoDuplicates(order) && requests.Keys == Elems(order)
      ensures forall k :: k in requests ==> k in old(requests) && requests[k] == old(requests)[k]
    {
      ghost var all := order;
      ghost var dropped := 0;
      while |order| > maxRequestHistory
        invariant 0 <= dropped <= |all| && order == all[dropped..]
        invariant dropped == 0 || |order| >= maxRequestHistory
        invariant NoDuplicates(order)
        invariant requests.Keys == Elems(order)
        invariant forall k :: k in requests ==> k in old(requests) && requests[k] == old(requests)[k]
        decreases |order|
      {
        var oldestId := order[0];
        DequeueDistinct(order);
        order := order[1..];
        requests := requests - {oldestId};
        dropped := dropped + 1;
      }
    }

    method GetRequest(id: string) returns (r: ValueResult<RequestRecord>)
      ensures r.IsSuccess() <==> id in requests
      ensures r.IsSuccess() ==> r.GetValue() == requests[id]
      ensures r.IsFailure() ==> r.GetError() == RequestNotFound(id)
    {
      if id in requests {
        r := Ok(requests[id]);
      } else {
        r := Err(RequestNotFound(id));
      }
    }

    /** The dictionary's values in some order. */
    method Values() returns (all: seq<RequestRecord>)
      ensures |all| == |requests|
      ensures forall rec :: rec in all <==> rec in requests.Values
    {
      var remaining := requests.Keys;
      all := [];
      while remaining != {}
        invariant remaining <= requests.Keys
        invariant |all| + |remaining| == |requests.Keys|
        invariant forall rec :: rec in all <==> exists k :: k in requests.Keys - remaining && requests[k] == rec
        decreases |remaining|
      {
        var k :| k in remaining;
        all := all + [requests[k]];
        remaining := remaining - {k};
      }
      assert |requests.Keys| == |requests|;
    }

    /** Every stored record, newest id first, at most the bound of them. */
    method GetAllRequests() returns (all: seq<RequestRecord>)
      requires Valid()
      ensures |all| <= maxRequestHistory
      ensures NewestFirst(all)
      ensures forall rec :: rec in all ==> rec in requests.Values
      ensures forall k :: k in requests ==> requests[k] in all
      ensures |all| == |requests|
    {
      var values := Values();
      var sorted := SortById(values);
      var descending := Reverse(sorted);
      ReversedNewestFirst(sorted);
      ReverseMembers(sorted);
      assert |requests| <= maxRequestHistory by {
        SetOfSeqSize(order);
        assert |requests.Keys| == |requests|;
      }
      all := Take(descending, maxRequestHistory);
      assert all == descending;
    }

    /** The summaries of `GetAllRequests`, in the same order. */
    method GetRequestSummaries() returns (summaries: seq<RequestSummary>)
      requires Valid()
      ensures |summaries| == |requests|
      ensures forall i :: 0 <= i < |summaries| ==>
        summaries[i].id in requests && summaries[i] == FromRequestRecord(requests[summaries[i].id])
      ensures forall k :: k in requests ==> exists i :: 0 <= i < |summaries| && summaries[i].id == k
      ensures forall i, j :: 0 <= i < j < |summaries| ==> AtMost(summaries[j].id, summaries[i].id)
    {
      var all := GetAllRequests();
      summaries := seq(|all|, i requires 0 <= i < |all| => FromRequestRecord(all[i]));
      assert forall i :: 0 <= i < |summaries| ==> summaries[i] == FromRequestRecord(all[i]) && summaries[i].id == all[i].id;
      forall i | 0 <= i < |summaries|
        ensures summaries[i].id in requests && summaries[i] == FromRequestRecord(requests[summaries[i].id])
      {
        assert all[i] in requests.Values;
      }
      forall k | k in requests ensures exists i :: 0 <= i < |summaries| && summaries[i].id == k {
        var i :| 0 <= i < |all| && all[i] == requests[k];
        assert summaries[i].id == k;
      }
      forall i, j | 0 <= i < j < |summaries| ensures AtMost(summaries[j].id, summaries[i].id) {
      }
    }

    method Clear()
      modifies this
      ensures requests == map[] && order == []
      ensures Valid() && Chronological()
    {
      requests := map[];
      order := [];
    }

    /**
     * Replaces the history with the latest records by id: clears, sorts
     * ascending by id, keeps the last `maxRequestHistory`, and enqueues
     * them in that order.
     */
    method LoadRequests(rs: seq<RequestRecord>)
      requires DistinctIds(rs)
      modifies this
      ensures Valid() && Chronological()
      ensures order == Ids(TakeLast(SortById(rs), maxRequestHistory))
      ensures forall rec :: rec in TakeLast(SortById(rs), maxRequestHistory) ==>
        rec.id in requests && requests[rec.id] == rec
      ensures forall k :: k in requests ==> requests[k] in rs
    {
      Clear();
      var sortedRequests := TakeLast(SortById(rs), maxRequestHistory);
      LatestStrict(rs, maxRequestHistory);
      EnqueueAll(sortedRequests);
      AscendingDistinct(order);
      forall k | k in requests ensures requests[k] in rs {
        assert requests[k] in SortById(rs);
      }
    }

    /** Enqueues each record of an id-ordered sequence onto an empty history. */
    method EnqueueAll(sortedRequests: seq<RequestRecord>)
      requires StrictById(sortedRequests)
      requires order == [] && requests == map[]
      modifies this
      ensures order == Ids(sortedRequests)
      ensures requests.Keys == Elems(order)
      ensures forall rec :: rec in sortedRequests ==> rec.id in requests && requests[rec.id] == rec
      ensures forall k :: k in requests ==> requests[k] in sortedRequests && requests[k].id == k
    {
      for i := 0 to |sortedRequests|
        invariant |order| == i
        invariant forall j :: 0 <= j < i ==> order[j] == sortedRequests[j].id
        invariant requests.Keys == Elems(order)
        invariant forall j :: 0 <= j < i ==> requests[sortedRequests[j].id] == sortedRequests[j]
        invariant forall k :: k in requests ==> requests[k] in sortedRequests[..i] && requests[k].id == k
      {
        var request := sortedRequests[i];
        forall j | 0 <= j < i ensures sortedRequests[j].id != request.id {
          BeforeIrreflexive(request.id);
        }
        requests := requests[request.id := request];
        order := order + [request.id];
        assert sortedRequests[..i + 1] == sortedRequests[..i] + [request];
      }
      assert sortedRequests[..|sortedRequests|] == sortedRequests;
      forall rec | rec in sortedRequests ensures rec.id in requests && requests[rec.id] == rec {
        var j :| 0 <= j < |sortedRequests| && sortedRequests[j] == rec;
      }
    }

    method GetAllRequestIds() returns (ids: seq<string>)
      requires Valid()
      ensures ids == order
      ensures forall k :: k in ids <==> k in requests
      ensures |ids| <= maxRequestHistory
    {
      ids := order;
    }
  }

  lemma {:induction false} SetOfSeqSize(s: seq<string>)
    ensures |set k | k in s| <= |s|
  {
    if s != [] {
      SetOfSeqSize(s[1..]);
      assert (set k | k in s) == (set k | k in s[1..]) + {s[0]};
    }
  }

  function Elems(ids: seq<string>): set<string> {
    set k | k in ids
  }

  lemma EnqueueFresh(ids: seq<string>, id: string)
    requires NoDuplicates(ids) && id !in ids
    ensures NoDuplicates(ids + [id])
    ensures Elems(ids + [id]) == Elems(ids) + {id}
  {
  }

  lemma DequeueDistinct(ids: seq<string>)
    requires NoDuplicates(ids) && |ids| > 0
    ensures NoDuplicates(ids[1..])
    ensures Elems(ids[1..]) == Elems(ids) - {ids[0]}
  {
    assert ids == [ids[0]] + ids[1..];
  }

  /**
   * When each new id sorts after every stored one, as time-ordered ids do,
   * recording keeps the queue in id order.
   */
  lemma RecordKeepsChronological(ids: seq<string>, id: string, bound: nat)
    requires StrictlyAscending(ids)
    requires forall k :: k in ids ==> Before(k, id)
    ensures StrictlyAscending(TakeLast(ids + [id], bound))
  {
    var all := ids + [id];
    assert StrictlyAscending(all) by {
      forall i, j | 0 <= i < j < |all| ensures Before(all[i], all[j]) {
        if j == |ids| {
          assert all[i] in ids;
        }
      }
    }
  }

  /** The latest `n` records by id have strictly ascending ids. */
  lemma LatestStrict(rs: seq<RequestRecord>, n: nat)
    requires DistinctIds(rs)
    ensures StrictById(TakeLast(SortById(rs), n))
  {
    SortByIdStrict(rs);
    var sorted := SortById(rs);
    var latest := TakeLast(sorted, n);
    forall i, j | 0 <= i < j < |latest| ensures Before(latest[i].id, latest[j].id) {
      var off := |sorted| - |latest|;
      assert latest[i] == sorted[off + i] && latest[j] == sorted[off + j];
    }
  }

  /** An id-sorted list read backwards is newest first. */
  lemma ReversedNewestFirst(sorted: seq<RequestRecord>)
    requires SortedById(sorted)
    ensures NewestFirst(Reverse(sorted))
  {
    var r := Reverse(sorted);
    forall i, j | 0 <= i < j < |r| ensures AtMost(r[j].id, r[i].id) {
      assert r[j] == sorted[|sorted| - 1 - j] && r[i] == sorted[|sorted| - 1 - i];
    }
  }

  /** Reversing keeps exactly the same elements. */
  lemma ReverseMembers<T>(s: seq<T>)
    ensures forall x :: x in Reverse(s) <==> x in s
  {
    var r := Reverse(s);
    forall x | x in r ensures x in s {
      var i :| 0 <= i < |r| && r[i] == x;
      assert s[|s| - 1 - i] == x;
    }
    forall x | x in s ensures x in r {
      var i :| 0 <= i < |s| && s[i] == x;
      assert r[|s| - 1 - i] == x;
    }
  }

  lemma AscendingDistinct(ids: seq<string>)
    requires StrictlyAscending(ids)
    ensures NoDuplicates(ids)
  {
    forall i, j | 0 <= i < j < |ids| ensures ids[i] != ids[j] {
      if ids[i] == ids[j] {
        BeforeIrreflexive(ids[i]);
      }
    }
  }
}
