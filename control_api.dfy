/**
 * The /add and /del handlers of cmd/gost/main.go without their HTTP plumbing:
 * the decoded request route goes in, the reply body comes out.
 */
module ControlApi {
  import opened Wrappers
  import opened RouteModel
  import opened ConfigStore
  import opened Activation

  const ReplyPrefix: string := "{code:200,data:"
  const ReplySuffix: string := "}"

  /** The reply body both handlers write: the status wrapped in a fixed envelope. */
  function Reply(status: string): (body: string)
    ensures |body| == |ReplyPrefix| + |status| + |ReplySuffix|
    ensures body[..|ReplyPrefix|] == ReplyPrefix
    ensures body[|ReplyPrefix|..|body| - |ReplySuffix|] == status
    ensures body[|body| - |ReplySuffix|..] == ReplySuffix
  {
    ReplyPrefix + status + ReplySuffix
  }

  /** The status can be read back from a reply body: different statuses give different replies. */
  lemma ReplyInjective(a: string, b: string)
    requires Reply(a) == Reply(b)
    ensures a == b
  {
    var n := |Reply(a)| - |ReplySuffix|;
    assert a == Reply(a)[|ReplyPrefix|..n];
    assert b == Reply(b)[|ReplyPrefix|..n];
  }

  /** The two replies the add and delete handlers can send. */
  lemma ReplyBodies()
    ensures Reply(StatusSuccess) == "{code:200,data:success}"
    ensures Reply(StatusError) == "{code:200,data:error}"
  {
  }

  /**
   * addHandler: record the route, then try to activate it whatever the outcome
   * of the add; the reply reports only the add. `served` is what the
   * activation started (empty when it failed).
   */
  method AddHandler(expand: Expander, cfg: BaseConfig, r: Route) returns (body: string, served: seq<Router>)
    requires cfg.Valid() && WellFormed(r)
    modifies cfg`routes, cfg`saved
    ensures cfg.Valid()
    ensures body == Reply(AddRoute(old(cfg.routes), r).status)
    ensures cfg.routes == AddRoute(old(cfg.routes), r).routes
    ensures cfg.saved == if cfg.routes == old(cfg.routes) then old(cfg.saved) else old(cfg.saved) + [cfg.routes]
    ensures Distinct(old(cfg.routes)) ==> Distinct(cfg.routes)
    ensures served == (match Activate(expand, [r]) case Ok(rs) => rs case Err(_) => [])
  {
    var status := cfg.SaveCfg(r);
    var activation := StartServe(expand, r);
    served := if activation.Ok? then activation.value else [];
    body := Reply(status);
  }

  /** delHandler: remove the route's identity from the inventory; running routers are left alone. */
  method DelHandler(cfg: BaseConfig, r: Route) returns (body: string)
    requires cfg.Valid() && WellFormed(r)
    modifies cfg`routes, cfg`saved
    ensures cfg.Valid()
    ensures body == Reply(DeleteRoute(old(cfg.routes), r).status)
    ensures cfg.routes == DeleteRoute(old(cfg.routes), r).routes
    ensures cfg.saved == if cfg.routes == old(cfg.routes) then old(cfg.saved) else old(cfg.saved) + [cfg.routes]
    ensures Distinct(old(cfg.routes)) ==> Distinct(cfg.routes)
  {
    var status := cfg.DelCfg(r);
    body := Reply(status);
  }

  /** A client of the store: with distinct identities, deleting a route lets the same identity be added again. */
  method DeleteThenReAdd(expand: Expander, cfg: BaseConfig, r: Route) returns (delBody: string, addBody: string)
    requires cfg.Valid() && WellFormed(r) && Distinct(cfg.routes) && HasIdentity(cfg.routes, Identity(r))
    modifies cfg`routes, cfg`saved
    ensures delBody == Reply(StatusSuccess) && addBody == Reply(StatusSuccess)
    ensures cfg.Valid() && Distinct(cfg.routes)
    ensures |cfg.saved| == |old(cfg.saved)| + 2 && cfg.saved[|cfg.saved| - 1] == cfg.routes
  {
    ghost var before := cfg.routes;
    delBody := DelHandler(cfg, r);
    DeleteThenAdd(before, r, r);
    var served;
    addBody, served := AddHandler(expand, cfg, r);
  }
}
