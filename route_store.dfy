/**
 * The route table: a keyed registry of route rules with validation,
 * optimistic-concurrency upsert, delete, clear, bulk load and a change
 * notification, modelled by the number of times it has been raised.
 */
module RouteStore {
  import opened Wrappers
  import opened Text
  import opened Errors
  import opened Results
  import opened Routes

  /** The seven accepted methods. */
  const ValidMethods: seq<string> := ["GET", "POST", "PUT", "PATCH", "DELETE", "HEAD", "OPTIONS"]

  /** The storage key: the method upper-cased, a colon, the pattern as given. */
  function MakeKey(httpMethod: string, pathPattern: string): string
  {
    Upper(httpMethod) + ":" + pathPattern
  }

  function KeyOf(route: RouteConfiguration): string {
    MakeKey(route.httpMethod, route.pathPattern)
  }

  /** Two methods that differ only in case give the same key. */
  lemma MakeKeyIgnoresMethodCase(m1: string, m2: string, pathPattern: string)
    requires EqualsIgnoreCase(m1, m2)
    ensures MakeKey(m1, pathPattern) == MakeKey(m2, pathPattern)
  {
    EqualsIgnoreCaseIffSameUpper(m1, m2);
  }

  /**
   * For methods without a colon (every valid method) the key determines the
   * upper-cased method and the exact pattern.
   */
  lemma MakeKeyInjective(m1: string, p1: string, m2: string, p2: string)
    requires ':' !in m1 && ':' !in m2
    requires MakeKey(m1, p1) == MakeKey(m2, p2)
    ensures Upper(m1) == Upper(m2) && p1 == p2
  {
    var u1, u2 := Upper(m1), Upper(m2);
    assert ':' !in u1 && ':' !in u2 by {
      forall i | 0 <= i < |m1| ensures u1[i] != ':' { }
      forall i | 0 <= i < |m2| ensures u2[i] != ':' { }
    }
    var k := MakeKey(m1, p1);
    // the first colon of the key sits right after the upper-cased method
    assert k == u2 + [':'] + p2;
    assert forall i :: 0 <= i < |u1| ==> k[i] != ':';
    assert forall i :: 0 <= i < |u2| ==> k[i] != ':';
    assert k[|u1|] == ':' && k[|u2|] == ':';
    assert u1 == k[..|u1|] == u2;
    assert p1 == k[|u1| + 1..] == p2;
  }

  /** Rejects a method outside the seven and a status outside 100..599, in that order. */
  function ValidateRoute(route: RouteConfiguration): (r: Result)
    ensures r.IsSuccess() <==> Upper(route.httpMethod) in ValidMethods && 100 <= route.response.statusCode <= 599
    ensures Upper(route.httpMethod) !in ValidMethods ==> r == Result.Failure(InvalidMethod(route.httpMethod))
    ensures Upper(route.httpMethod) in ValidMethods && !(100 <= route.response.statusCode <= 599) ==>
              r == Result.Failure(InvalidStatusCode(route.response.statusCode as int))
    ensures r.IsFailure() ==> r.GetError().errorType == Validation
  {
    if Upper(route.httpMethod) !in ValidMethods then
      Result.Failure(InvalidMethod(route.httpMethod))
    else if route.response.statusCode < 100 || route.response.statusCode > 599 then
      Result.Failure(InvalidStatusCode(route.response.statusCode as int))
    else
      Success
  }

  type RouteMap = map<string, RouteConfiguration>

  /** Every rule is stored under its own key. */
  ghost predicate WellKeyed(routes: RouteMap) {
    forall k :: k in routes ==> k == KeyOf(routes[k])
  }

  /** At most one rule per upper-cased method and exact pattern. */
  lemma {:induction false} AtMostOneRulePerKey(routes: RouteMap, k1: string, k2: string)
    requires WellKeyed(routes)
    requires k1 in routes && k2 in routes
    requires Upper(routes[k1].httpMethod) == Upper(routes[k2].httpMethod)
    requires routes[k1].pathPattern == routes[k2].pathPattern
    ensures k1 == k2
  {
  }

  /** What `Get` answers for a store holding `routes`. */
  function Lookup(routes: RouteMap, httpMethod: string, pathPattern: string): (r: ValueResult<RouteConfiguration>)
    ensures r.IsSuccess() <==> MakeKey(httpMethod, pathPattern) in routes
    ensures r.IsSuccess() ==> r.GetValue() == routes[MakeKey(httpMethod, pathPattern)]
    ensures r.IsFailure() ==> r.GetError() == RouteNotFound(httpMethod, pathPattern)
  {
    var key := MakeKey(httpMethod, pathPattern);
    if key in routes then Ok(routes[key]) else Err(RouteNotFound(httpMethod, pathPattern))
  }

  /** The table and the answer after one `Upsert`. */
  datatype Upserted = Upserted(routes: RouteMap, result: ValueResult<RouteConfiguration>)

  /**
   * `Upsert` on a table holding `routes`: validate, then either an
   * unconditional create-or-replace, or a conditional replace checked
   * against the stored version.
   */
  function UpsertOn(routes: RouteMap, route: RouteConfiguration, expectedVersion: Option<int32>): (u: Upserted)
    // validation failure: the error, nothing written
    ensures ValidateRoute(route).IsFailure() ==>
              u.routes == routes && u.result == Err(ValidateRoute(route).GetError())
    // every success stores the returned rule under the rule's own key
    ensures u.result.IsSuccess() ==> u.routes == routes[KeyOf(route) := u.result.GetValue()]
    ensures WellKeyed(routes) && u.result.IsSuccess() ==> KeyOf(u.result.GetValue()) == KeyOf(route)
    // every failure leaves the table as it was
    ensures u.result.IsFailure() ==> u.routes == routes
    ensures WellKeyed(routes) ==> WellKeyed(u.routes)
  {
    var key := KeyOf(route);
    var validation := ValidateRoute(route);
    if validation.IsFailure() then
      Upserted(routes, Err(validation.GetError()))
    else if expectedVersion.None? then
      var saved := route.(version := if key in routes then NextVersion(routes[key].version) else 1);
      Upserted(routes[key := saved], Ok(saved))
    else if key !in routes then
      // absent key: stored with whatever version it carries
      Upserted(routes[key := route], Ok(route))
    else if routes[key].version == expectedVersion.value then
      var saved := route.(version := NextVersion(routes[key].version));
      Upserted(routes[key := saved], Ok(saved))
    else if routes[key].version != route.version then
      Upserted(routes, Err(ConcurrentModification(route.httpMethod, route.pathPattern)))
    else
      // mismatch, but the incoming rule carries the stored version: no conflict reported
      Upserted(routes[key := routes[key]], Ok(routes[key]))
  }

  /** An unconditional upsert stores version 1 for a new key and the next version otherwise. */
  lemma UnconditionalUpsertVersion(routes: RouteMap, route: RouteConfiguration)
    requires ValidateRoute(route).IsSuccess()
    ensures var u := UpsertOn(routes, route, None);
      && u.result.IsSuccess()
      && u.result.GetValue() == route.(version := u.result.GetValue().version)
      && (KeyOf(route) !in routes ==> u.result.GetValue().version == 1)
      && (KeyOf(route) in routes ==> u.result.GetValue().version == NextVersion(routes[KeyOf(route)].version))
  {
  }

  /** A conditional upsert naming the stored version replaces the rule and bumps the version. */
  lemma ConditionalUpsertMatching(routes: RouteMap, route: RouteConfiguration, v: int32)
    requires ValidateRoute(route).IsSuccess()
    requires KeyOf(route) in routes && routes[KeyOf(route)].version == v
    ensures var u := UpsertOn(routes, route, Some(v));
      && u.result == Ok(route.(version := NextVersion(v)))
      && u.routes == routes[KeyOf(route) := route.(version := NextVersion(v))]
  {
  }

  /** A conditional upsert on an absent key stores the rule with the version it carries. */
  lemma ConditionalUpsertAbsent(routes: RouteMap, route: RouteConfiguration, v: int32)
    requires ValidateRoute(route).IsSuccess()
    requires KeyOf(route) !in routes
    ensures UpsertOn(routes, route, Some(v)) == Upserted(routes[KeyOf(route) := route], Ok(route))
  {
  }

  /**
   * A conditional upsert with a stale version never changes the stored rule;
   * it reports a conflict exactly when the stored version differs from the
   * version the incoming rule carries, and otherwise answers the stored rule.
   */
  lemma ConditionalUpsertStale(routes: RouteMap, route: RouteConfiguration, v: int32)
    requires ValidateRoute(route).IsSuccess()
    requires KeyOf(route) in routes && routes[KeyOf(route)].version != v
    ensures var u := UpsertOn(routes, route, Some(v));
      && u.routes == routes
      && (u.result.IsFailure() <==> routes[KeyOf(route)].version != route.version)
      && (u.result.IsFailure() ==> u.result.GetError() == ConcurrentModification(route.httpMethod, route.pathPattern))
      && (u.result.IsSuccess() ==> u.result.GetValue() == routes[KeyOf(route)])
  {
    var u := UpsertOn(routes, route, Some(v));
    if routes[KeyOf(route)].version == route.version {
      assert routes[KeyOf(route) := routes[KeyOf(route)]] == routes;
    }
  }

  /**
   * `Get` finds what a successful `Upsert` wrote, under any spelling of the
   * method that differs only in case.
   */
  lemma GetAfterUpsert(routes: RouteMap, route: RouteConfiguration, expectedVersion: Option<int32>, m: string)
    requires EqualsIgnoreCase(m, route.httpMethod)
    requires UpsertOn(routes, route, expectedVersion).result.IsSuccess()
    ensures var u := UpsertOn(routes, route, expectedVersion);
      Lookup(u.routes, m, route.pathPattern) == Ok(u.result.GetValue())
  {
    MakeKeyIgnoresMethodCase(m, route.httpMethod, route.pathPattern);
  }

  /** `n` unconditional upserts of one new rule leave it at version `n`. */
  function UpsertRepeatedly(routes: RouteMap, route: RouteConfiguration, n: nat): RouteMap
  {
    if n == 0 then routes else UpsertOn(UpsertRepeatedly(routes, route, n - 1), route, None).routes
  }

  lemma {:induction false} RepeatedUpsertCountsVersions(routes: RouteMap, route: RouteConfiguration, n: nat)
    requires ValidateRoute(route).IsSuccess()
    requires KeyOf(route) !in routes
    requires 0 < n <= MaxInt32 as int
    ensures KeyOf(route) in UpsertRepeatedly(routes, route, n)
    ensures UpsertRepeatedly(routes, route, n)[KeyOf(route)] == route.(version := n as int32)
  {
    if n > 1 {
      RepeatedUpsertCountsVersions(routes, route, n - 1);
    }
  }

  /** The rules `LoadRoutes` leaves: each under its key, a later duplicate replacing an earlier one. */
  function LoadedMap(rs: seq<RouteConfiguration>): (m: RouteMap)
    ensures WellKeyed(m)
    ensures forall k :: k in m ==> m[k] in rs
  {
    if rs == [] then map[] else LoadedMap(rs[..|rs| - 1])[KeyOf(rs[|rs| - 1]) := rs[|rs| - 1]]
  }

  /**
   * After `LoadRoutes(rs)` a key is present exactly when some rule in `rs`
   * has it, and it holds the last such rule.
   */
  lemma {:induction false} LoadedMapHoldsLastRule(rs: seq<RouteConfiguration>, i: nat)
    requires i < |rs|
    requires forall j :: i < j < |rs| ==> KeyOf(rs[j]) != KeyOf(rs[i])
    ensures KeyOf(rs[i]) in LoadedMap(rs) && LoadedMap(rs)[KeyOf(rs[i])] == rs[i]
  {
    if i < |rs| - 1 {
      LoadedMapHoldsLastRule(rs[..|rs| - 1], i);
    }
  }

  lemma {:induction false} LoadedMapKeys(rs: seq<RouteConfiguration>, k: string)
    ensures k in LoadedMap(rs) <==> exists i :: 0 <= i < |rs| && KeyOf(rs[i]) == k
  {
    if rs != [] {
      var init := rs[..|rs| - 1];
      LoadedMapKeys(init, k);
      if k in LoadedMap(init) {
        var i :| 0 <= i < |init| && KeyOf(init[i]) == k;
        assert KeyOf(rs[i]) == k;
      }
      if k != KeyOf(rs[|rs| - 1]) && exists i :: 0 <= i < |rs| && KeyOf(rs[i]) == k {
        var i :| 0 <= i < |rs| && KeyOf(rs[i]) == k;
        assert KeyOf(init[i]) == k;
      }
    }
  }

  class RouteConfigStore {
    /** The dictionary of rules, keyed by `MakeKey`. */
    var routes: RouteMap
    /** How many times the change notification has been raised. */
    var notifications: nat

    ghost predicate Valid()
      reads this
    {
      WellKeyed(routes)
    }

    constructor ()
      ensures Valid() && routes == map[] && notifications == 0
    {
      routes := map[];
      notifications := 0;
    }

    /** A snapshot of every stored rule, in no particular order. */
    method GetAll() returns (all: seq<RouteConfiguration>)
      ensures |all| == |routes|
      ensures forall r :: r in all <==> r in routes.Values
    {
      var remaining := routes.Keys;
      all := [];
      while remaining != {}
        invariant remaining <= routes.Keys
        invariant |all| + |remaining| == |routes.Keys|
        invariant forall r :: r in all <==> exists k :: k in routes.Keys - remaining && routes[k] == r
        decreases |remaining|
      {
        var k :| k in remaining;
        all := all + [routes[k]];
        remaining := remaining - {k};
      }
      assert |routes.Keys| == |routes|;
    }

    method Get(httpMethod: string, pathPattern: string) returns (r: ValueResult<RouteConfiguration>)
      requires Valid()
      ensures r == Lookup(routes, httpMethod, pathPattern)
      ensures r.IsSuccess() ==> KeyOf(r.GetValue()) == MakeKey(httpMethod, pathPattern)
    {
      var key := MakeKey(httpMethod, pathPattern);
      if key in routes {
        r := Ok(routes[key]);
      } else {
        r := Err(RouteNotFound(httpMethod, pathPattern));
      }
    }

    /** Validates, then writes; raises the notification once on every success. */
    method Upsert(route: RouteConfiguration, expectedVersion: Option<int32>) returns (r: ValueResult<RouteConfiguration>)
      requires Valid()
      modifies this
      ensures Valid()
      ensures routes == UpsertOn(old(routes), route, expectedVersion).routes
      ensures r == UpsertOn(old(routes), route, expectedVersion).result
      ensures notifications == old(notifications) + (if r.IsSuccess() then 1 else 0)
    {
      var key := MakeKey(route.httpMethod, route.pathPattern);
      var validation := ValidateRoute(route);
      if validation.IsFailure() {
        return Err(validation.GetError());
      }
      var saved: RouteConfiguration;
      if expectedVersion.None? {
        if key in routes {
          saved := route.(version := NextVersion(routes[key].version));
        } else {
          saved := route.(version := 1);
        }
        routes := routes[key := saved];
      } else {
        var updated := false;
        if key !in routes {
          saved := route;
        } else if routes[key].version == expectedVersion.value {
          saved := route.(version := NextVersion(routes[key].version));
          updated := true;
        } else {
          saved := routes[key];
        }
        routes := routes[key := saved];
        if !updated && saved.version != route.version {
          return Err(ConcurrentModification(route.httpMethod, route.pathPattern));
        }
      }
      notifications := notifications + 1;
      r := Ok(saved);
    }

    /** Removes a present rule and notifies; an absent one is NotFound and changes nothing. */
    method Delete(httpMethod: string, pathPattern: string) returns (r: Result)
      requires Valid()
      modifies this
      ensures Valid()
      ensures r.IsSuccess() <==> MakeKey(httpMethod, pathPattern) in old(routes)
      ensures r.IsSuccess() ==> routes == old(routes) - {MakeKey(httpMethod, pathPattern)}
      ensures r.IsSuccess() ==> notifications == old(notifications) + 1
      ensures r.IsFailure() ==> r.GetError() == RouteNotFound(httpMethod, pathPattern)
      ensures r.IsFailure() ==> routes == old(routes) && notifications == old(notifications)
      ensures Lookup(routes, httpMethod, pathPattern) == Err(RouteNotFound(httpMethod, pathPattern))
    {
      var key := MakeKey(httpMethod, pathPattern);
      if key in routes {
        routes := routes - {key};
        notifications := notifications + 1;
        r := Success;
      } else {
        r := Result.Failure(RouteNotFound(httpMethod, pathPattern));
      }
    }

    method Clear()
      modifies this
      ensures Valid()
      ensures routes == map[] && notifications == old(notifications) + 1
    {
      routes := map[];
      notifications := notifications + 1;
    }

    /** Replaces all rules with `rs`, keeping their versions; raises no notification. */
    method LoadRoutes(rs: seq<RouteConfiguration>)
      modifies this
      ensures Valid()
      ensures routes == LoadedMap(rs)
      ensures notifications == old(notifications)
    {
      routes := map[];
      for i := 0 to |rs|
        invariant routes == LoadedMap(rs[..i])
        invariant notifications == old(notifications)
      {
        assert rs[..i + 1][..i] == rs[..i];
        routes := routes[KeyOf(rs[i]) := rs[i]];
      }
      assert rs[..|rs|] == rs;
    }
  }
}
