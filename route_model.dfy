/**
 * The route inventory of cmd/gost/main.go as values: a route, its identity,
 * the slice splice RemoveIndex, and the pure meaning of saveCfg and delCfg
 * over a sequence of routes, with the properties the control API relies on.
 */
module RouteModel {
  import opened Wrappers

  /** A forwarding unit: an ordered chain of hops and one or more listen endpoints. */
  datatype Route = Route(chainNodes: seq<string>, serveNodes: seq<string>)

  /** The status strings that saveCfg and delCfg return. */
  const StatusSuccess: string := "success"
  const StatusError: string := "error"

  /** A route whose identity can be read: Go indexes ServeNodes[0] without a check. */
  predicate WellFormed(r: Route) {
    |r.serveNodes| > 0
  }

  predicate AllWellFormed(rs: seq<Route>) {
    forall k :: 0 <= k < |rs| ==> WellFormed(rs[k])
  }

  /** A route's identity is its first serve node. */
  function Identity(r: Route): (id: string)
    requires WellFormed(r)
    ensures id in r.serveNodes
  {
    r.serveNodes[0]
  }

  /** Some stored route carries identity `id`. */
  predicate HasIdentity(rs: seq<Route>, id: string)
    requires AllWellFormed(rs)
  {
    exists k :: 0 <= k < |rs| && Identity(rs[k]) == id
  }

  /** No two stored routes share an identity. */
  predicate Distinct(rs: seq<Route>)
    requires AllWellFormed(rs)
  {
    forall i, j :: 0 <= i < j < |rs| ==> Identity(rs[i]) != Identity(rs[j])
  }

  /** The splice `append(r[:index], r[index+1:]...)`. */
  function RemoveIndex(rs: seq<Route>, index: nat): (out: seq<Route>)
    requires index < |rs|
    ensures |out| == |rs| - 1
    ensures forall k :: 0 <= k < index ==> out[k] == rs[k]
    ensures forall k :: index <= k < |out| ==> out[k] == rs[k + 1]
  {
    rs[..index] + rs[index + 1..]
  }

  /** Removing one element keeps every other element: a permutation of the rest. */
  lemma RemoveIndexMultiset(rs: seq<Route>, index: nat)
    requires index < |rs|
    ensures multiset(RemoveIndex(rs, index)) + multiset{rs[index]} == multiset(rs)
  {
    assert rs == rs[..index] + [rs[index]] + rs[index + 1..];
  }

  /** The position of the first stored route with identity `id`, as the scans of saveCfg and delCfg find it. */
  function FirstMatch(rs: seq<Route>, id: string): (found: Option<nat>)
    requires AllWellFormed(rs)
    ensures found.None? <==> !HasIdentity(rs, id)
    ensures found.Some? ==> found.value < |rs| && Identity(rs[found.value]) == id
    ensures found.Some? ==> forall k :: 0 <= k < found.value ==> Identity(rs[k]) != id
  {
    if |rs| == 0 then None
    else if Identity(rs[0]) == id then Some(0)
    else
      match FirstMatch(rs[1..], id)
      case None =>
        assert forall k :: 1 <= k < |rs| ==> rs[k] == rs[1..][k - 1];
        None
      case Some(i) =>
        assert rs[i + 1] == rs[1..][i];
        assert forall k :: 1 <= k < i + 1 ==> rs[k] == rs[1..][k - 1];
        Some(i + 1)
  }

  /** A stored inventory together with the status string an operation returned. */
  datatype Update = Update(routes: seq<Route>, status: string)

  /** What saveCfg does to the inventory: append unless the identity is already stored. */
  function AddRoute(rs: seq<Route>, r: Route): (u: Update)
    requires AllWellFormed(rs) && WellFormed(r)
    ensures AllWellFormed(u.routes)
    ensures u.status == StatusError <==> HasIdentity(rs, Identity(r))
    ensures u.status == StatusSuccess <==> !HasIdentity(rs, Identity(r))
    ensures u.status == StatusError ==> u.routes == rs
    ensures u.status == StatusSuccess ==> u.routes == rs + [r]
  {
    if HasIdentity(rs, Identity(r)) then Update(rs, StatusError)
    else Update(rs + [r], StatusSuccess)
  }

  /** What delCfg does to the inventory: drop the first route with the identity, if any. */
  function DeleteRoute(rs: seq<Route>, r: Route): (u: Update)
    requires AllWellFormed(rs) && WellFormed(r)
    ensures AllWellFormed(u.routes)
    ensures u.status == StatusError <==> !HasIdentity(rs, Identity(r))
    ensures u.status == StatusSuccess <==> HasIdentity(rs, Identity(r))
    ensures u.status == StatusError ==> u.routes == rs
    ensures u.status == StatusSuccess ==> |u.routes| == |rs| - 1
  {
    match FirstMatch(rs, Identity(r))
    case None => Update(rs, StatusError)
    case Some(i) => Update(RemoveIndex(rs, i), StatusSuccess)
  }

  // ---------------------------------------------------------------------------
  // Properties of the inventory operations

  /** A successful add keeps the identities pairwise distinct. */
  lemma AddRouteKeepsDistinct(rs: seq<Route>, r: Route)
    requires AllWellFormed(rs) && WellFormed(r) && Distinct(rs)
    ensures Distinct(AddRoute(rs, r).routes)
  {
    var u := AddRoute(rs, r);
    if u.status == StatusSuccess {
      forall i, j | 0 <= i < j < |u.routes|
        ensures Identity(u.routes[i]) != Identity(u.routes[j])
      {
        if j == |rs| {
          assert u.routes[i] == rs[i];
          assert !HasIdentity(rs, Identity(r));
        }
      }
    }
  }

  /** After an add, the stored identities are the old ones plus the added route's. */
  lemma AddRouteIdentities(rs: seq<Route>, r: Route, id: string)
    requires AllWellFormed(rs) && WellFormed(r)
    ensures HasIdentity(AddRoute(rs, r).routes, id) <==> HasIdentity(rs, id) || id == Identity(r)
  {
    var u := AddRoute(rs, r);
    if u.status == StatusSuccess {
      if HasIdentity(rs, id) {
        var k :| 0 <= k < |rs| && Identity(rs[k]) == id;
        assert u.routes[k] == rs[k];
      }
      if id == Identity(r) {
        assert u.routes[|rs|] == r;
      }
      if HasIdentity(u.routes, id) {
        var k :| 0 <= k < |u.routes| && Identity(u.routes[k]) == id;
        if k < |rs| { assert u.routes[k] == rs[k]; }
      }
    }
  }

  /** Adding a second route with an identity that a successful add just stored is rejected and changes nothing. */
  lemma AddRouteTwice(rs: seq<Route>, r1: Route, r2: Route)
    requires AllWellFormed(rs) && WellFormed(r1) && WellFormed(r2)
    requires Identity(r1) == Identity(r2)
    ensures var u := AddRoute(AddRoute(rs, r1).routes, r2);
      u.status == StatusError && u.routes == AddRoute(rs, r1).routes
  {
    AddRouteIdentities(rs, r1, Identity(r2));
  }

  /** delCfg removes exactly the first route with the identity and keeps the others in order. */
  lemma DeleteRouteRemovesFirst(rs: seq<Route>, r: Route)
    requires AllWellFormed(rs) && WellFormed(r)
    requires HasIdentity(rs, Identity(r))
    ensures exists i ::
              && 0 <= i < |rs| && Identity(rs[i]) == Identity(r)
              && (forall k :: 0 <= k < i ==> Identity(rs[k]) != Identity(r))
              && DeleteRoute(rs, r).routes == rs[..i] + rs[i + 1..]
              && multiset(DeleteRoute(rs, r).routes) + multiset{rs[i]} == multiset(rs)
  {
    var i := FirstMatch(rs, Identity(r)).value;
    RemoveIndexMultiset(rs, i);
  }

  /** Deleting from a duplicate-free inventory keeps it duplicate-free. */
  lemma DeleteRouteKeepsDistinct(rs: seq<Route>, r: Route)
    requires AllWellFormed(rs) && WellFormed(r) && Distinct(rs)
    ensures Distinct(DeleteRoute(rs, r).routes)
  {
    var u := DeleteRoute(rs, r);
    if u.status == StatusSuccess {
      var i := FirstMatch(rs, Identity(r)).value;
      forall a, b | 0 <= a < b < |u.routes|
        ensures Identity(u.routes[a]) != Identity(u.routes[b])
      {
        var a' := if a < i then a else a + 1;
        var b' := if b < i then b else b + 1;
        assert u.routes[a] == rs[a'] && u.routes[b] == rs[b'];
      }
    }
  }

  /**
   * In a duplicate-free inventory, a successful delete forgets the identity
   * and leaves every other identity stored exactly as before.
   */
  lemma DeleteRouteIdentities(rs: seq<Route>, r: Route, id: string)
    requires AllWellFormed(rs) && WellFormed(r) && Distinct(rs)
    ensures HasIdentity(DeleteRoute(rs, r).routes, id) <==> HasIdentity(rs, id) && id != Identity(r)
  {
    var u := DeleteRoute(rs, r);
    if u.status == StatusSuccess {
      var i := FirstMatch(rs, Identity(r)).value;
      if HasIdentity(u.routes, id) {
        var k :| 0 <= k < |u.routes| && Identity(u.routes[k]) == id;
        var k' := if k < i then k else k + 1;
        assert u.routes[k] == rs[k'];
        assert k' != i;
      }
      if HasIdentity(rs, id) && id != Identity(r) {
        var k :| 0 <= k < |rs| && Identity(rs[k]) == id;
        assert k != i;
        var k' := if k < i then k else k - 1;
        assert u.routes[k'] == rs[k];
      }
    }
  }

  /** Deleting a route and then adding one with the same identity succeeds, when identities were distinct. */
  lemma DeleteThenAdd(rs: seq<Route>, r1: Route, r2: Route)
    requires AllWellFormed(rs) && WellFormed(r1) && WellFormed(r2) && Distinct(rs)
    requires Identity(r1) == Identity(r2)
    ensures AddRoute(DeleteRoute(rs, r1).routes, r2).status == StatusSuccess
  {
    DeleteRouteIdentities(rs, r1, Identity(r2));
  }

  /** Without distinct identities the re-add can fail: delete removes only the first of two duplicates. */
  lemma DeleteThenAddWithDuplicates(r: Route)
    requires WellFormed(r)
    ensures var rs := [r, r];
      DeleteRoute(rs, r).status == StatusSuccess
      && AddRoute(DeleteRoute(rs, r).routes, r).status == StatusError
  {
    var rs := [r, r];
    assert Identity(rs[0]) == Identity(r);
    assert DeleteRoute(rs, r).routes == [r];
    assert Identity(DeleteRoute(rs, r).routes[0]) == Identity(r);
  }
}
