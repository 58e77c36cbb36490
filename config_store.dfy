/**
 * The process-wide baseConfig of cmd/gost/main.go and the two functions that
 * mutate it, saveCfg and delCfg. Both scan `Routes` with a loop, reassign the
 * field and write the configuration back through saveBaseConfig.
 */
module ConfigStore {
  import opened RouteModel

  class BaseConfig {
    /** The -D flag: engine verbosity. */
    var debug: bool
    /** The default route assembled from the -F and -L flags. */
    var route: Route
    /** The additional routes, mutated by the control API. */
    var routes: seq<Route>
    /** Every inventory written by saveBaseConfig, oldest first; the file holds the last one. */
    ghost var saved: seq<seq<Route>>

    /** Every stored route has a serve node, so the scans can read its identity. */
    ghost predicate Valid()
      reads this
    {
      AllWellFormed(routes)
    }

    /** The configuration as parseBaseConfig leaves it, before any control request. */
    constructor (debug: bool, route: Route, routes: seq<Route>)
      requires AllWellFormed(routes)
      ensures Valid()
      ensures this.debug == debug && this.route == route && this.routes == routes
      ensures saved == []
    {
      this.debug := debug;
      this.route := route;
      this.routes := routes;
      saved := [];
    }

    /** saveBaseConfig: the whole configuration is written back to its file. */
    method SaveBaseConfig()
      modifies this`saved
      ensures saved == old(saved) + [routes]
    {
      saved := saved + [routes];
    }

    /** saveCfg: append `r` unless a stored route already has its identity. */
    method SaveCfg(r: Route) returns (status: string)
      requires Valid() && WellFormed(r)
      modifies this`routes, this`saved
      ensures Valid()
      ensures Update(routes, status) == AddRoute(old(routes), r)
      ensures status == StatusSuccess ==> routes == old(routes) + [r] && saved == old(saved) + [routes]
      ensures status == StatusError ==> routes == old(routes) && saved == old(saved)
      ensures Distinct(old(routes)) ==> Distinct(routes)
    {
      var i := 0;
      while i < |routes|
        invariant 0 <= i <= |routes|
        invariant forall k :: 0 <= k < i ==> Identity(routes[k]) != Identity(r)
      {
        if Identity(routes[i]) == Identity(r) {
          return StatusError;
        }
        i := i + 1;
      }
      if Distinct(routes) {
        AddRouteKeepsDistinct(routes, r);
      }
      routes := routes + [r];
      SaveBaseConfig();
      status := StatusSuccess;
    }

    /** delCfg: remove the first route with the identity of `r`, if there is one. */
    method DelCfg(r: Route) returns (status: string)
      requires Valid() && WellFormed(r)
      modifies this`routes, this`saved
      ensures Valid()
      ensures Update(routes, status) == DeleteRoute(old(routes), r)
      ensures status == StatusSuccess ==> saved == old(saved) + [routes]
      ensures status == StatusError ==> routes == old(routes) && saved == old(saved)
      ensures Distinct(old(routes)) ==> Distinct(routes)
    {
      var i := 0;
      while i < |routes|
        invariant 0 <= i <= |routes|
        invariant forall k :: 0 <= k < i ==> Identity(routes[k]) != Identity(r)
      {
        if Identity(routes[i]) == Identity(r) {
          if Distinct(routes) {
            DeleteRouteKeepsDistinct(routes, r);
          }
          routes := RemoveIndex(routes, i);
          SaveBaseConfig();
          return StatusSuccess;
        }
        i := i + 1;
      }
      status := StatusError;
    }
  }
}
