# gost control plane: route inventory and activation

A Dafny model of the control plane in `cmd/gost/main.go` of gost, a proxy/relay
process. A *route* pairs a forwarding chain (`chainNodes`) with listen endpoints
(`serveNodes`), and its identity is its first serve node. The process keeps a
global `baseConfig` holding a default route built from the command line and a list
of extra routes. The HTTP control API adds routes to that list (`saveCfg`, which
rejects a repeated identity) and removes them (`delCfg`, first match only). Both
write the configuration back to its file. Activation (`start` at boot and
`startServe` for a newly added route) expands routes into routers through the
proxy engine. It fails on the first expansion error, and fails with
"invalid config" when the routers add up to none.

Files:

- `wrappers.dfy`: `Option` and `Result`.
- `route_model.dfy`: the `Route` value, identity, `RemoveIndex`, the first-match
  scan and the pure meaning of add and delete, with their properties.
- `config_store.dfy`: class `BaseConfig`. It holds `routes`, which `SaveCfg` and
  `DelCfg` reassign with the source's loops. It also holds a ghost log `saved`
  of every inventory written back to the configuration file.
- `activation.dfy`: the expansion of a list of routes (`ExpandAll`), activation
  (`Activate`), and the methods `StartServe` and `Start`.
- `control_api.dfy`: the reply body and the `/add` and `/del` handlers.

The engine's `route.GenRouters` is a parameter `expand: Route -> Result<seq<Router>, string>`.
`Router` is an opaque type. A successful activation returns the routers that
would then be served.

Two behaviours of the Go code that the model keeps:

- `saveCfg` and `delCfg` both answer the literal `"error"` on failure (cmd/gost/main.go:70, 87).
- `addHandler` calls `startServe` even when `saveCfg` answered `"error"` (cmd/gost/main.go:127-128). `AddHandler` does the same.

## Model

| member | source | states |
|---|---|---|
| RouteModel.Identity | cmd/gost/main.go:69 | the identity is one of the route's serve nodes, and it can only be read when `serveNodes` is non-empty; the body defines it as `serveNodes[0]` |
| RouteModel.RemoveIndex | cmd/gost/main.go:63-65 | the result is one shorter; elements before the index are unchanged and those after it shift down by one, in order |
| RouteModel.RemoveIndexMultiset | cmd/gost/main.go:63-65 | the splice loses exactly the element at the index: the result plus that element is a permutation of the input |
| RouteModel.FirstMatch | cmd/gost/main.go:79-80 | the scan finds nothing exactly when no stored route has the identity; otherwise it finds a matching route with no match before it |
| RouteModel.AddRoute | cmd/gost/main.go:67-76 | add answers "error" exactly when the identity is already stored, leaving the list as it was; otherwise "success" with the route appended at the end |
| RouteModel.DeleteRoute | cmd/gost/main.go:78-88 | delete answers "success" exactly when the identity is stored, shortening the list by one; otherwise "error" with the list unchanged |
| RouteModel.AddRouteKeepsDistinct | cmd/gost/main.go:67-76 | add keeps stored identities pairwise distinct |
| RouteModel.AddRouteIdentities | cmd/gost/main.go:67-76 | after add, the stored identities are the old ones plus the new route's |
| RouteModel.AddRouteTwice | cmd/gost/main.go:68-72 | a second add with an identity that is already stored is rejected and changes nothing |
| RouteModel.DeleteRouteRemovesFirst | cmd/gost/main.go:79-85 | a successful delete removes the first route with the identity, keeps the rest in order, and is a permutation minus that route |
| RouteModel.DeleteRouteKeepsDistinct | cmd/gost/main.go:78-88 | delete keeps stored identities pairwise distinct |
| RouteModel.DeleteRouteIdentities | cmd/gost/main.go:78-88 | with distinct identities, after delete the identity is gone and every other identity is stored exactly as before |
| RouteModel.DeleteThenAdd | cmd/gost/main.go:67-88 | with distinct identities, deleting a route and then adding one with the same identity answers "success" |
| RouteModel.DeleteThenAddWithDuplicates | cmd/gost/main.go:78-88 | with two routes sharing an identity, delete removes only the first, so the re-add answers "error" |
| ConfigStore.BaseConfig.constructor | cmd/gost/main.go:50-56 | the loaded configuration holds the given flag, default route and routes, and nothing has been written yet |
| ConfigStore.BaseConfig.SaveBaseConfig | cmd/gost/main.go:74 | the current inventory is appended to the log of written configurations |
| ConfigStore.BaseConfig.SaveCfg | cmd/gost/main.go:67-76 | the new inventory and status are those of add; on success the route is appended and written back, on "error" nothing changes or is written; distinct identities are preserved |
| ConfigStore.BaseConfig.DelCfg | cmd/gost/main.go:78-88 | the new inventory and status are those of delete (first match removed); on success it is written back, on "error" nothing changes or is written; distinct identities are preserved |
| Activation.ExpandAll | cmd/gost/main.go:184-194 | expansion runs left to right, concatenates routers and stops at the first error; success means every route expanded, and an error is one some route returned |
| Activation.Activate | cmd/gost/main.go:180-205 | activation yields a non-empty router list only when every route expanded; "invalid config" only when the expansion produced no routers; an expansion error is one some route returned |
| Activation.ExpandAllCons | cmd/gost/main.go:184-194 | the expansion of a list is the first route's routers followed by the rest's, or the first error met |
| Activation.ExpandAllOk | cmd/gost/main.go:184-194 | expansion succeeds exactly when every route expands |
| Activation.ExpandAllFirstError | cmd/gost/main.go:184-194 | a failed expansion reports the error of the first route that fails, after only successful ones |
| Activation.ExpandAllPrefixErr | cmd/gost/main.go:189-193 | once a prefix fails, later routes cannot change the outcome: the error aborts the run |
| Activation.ExpandAllRouterOrigin | cmd/gost/main.go:188-194 | every router of a successful expansion comes from one of the routes |
| Activation.ActivateOk | cmd/gost/main.go:180-205 | activation yields routers exactly when every route expands and the concatenation is non-empty |
| Activation.StartServe | cmd/gost/main.go:90-107 | an expansion error is returned as is; no routers gives "invalid config"; otherwise the route's routers are served; this equals activating the one-route list |
| Activation.Start | cmd/gost/main.go:180-205 | boot activation equals activating the default route followed by every stored route in order |
| ControlApi.Reply | cmd/gost/main.go:129 | the reply is the fixed prefix `{code:200,data:`, the status, then `}` |
| ControlApi.ReplyInjective | cmd/gost/main.go:129 | the status can be recovered from the reply: distinct statuses give distinct replies |
| ControlApi.ReplyBodies | cmd/gost/main.go:139 | the two possible reply bodies, written out |
| ControlApi.AddHandler | cmd/gost/main.go:119-130 | the reply reports the add; the inventory and file follow add; the route is activated whatever the add answered |
| ControlApi.DelHandler | cmd/gost/main.go:132-140 | the reply reports the delete; the inventory and file follow delete; no router is touched |
| ControlApi.DeleteThenReAdd | cmd/gost/main.go:119-140 | through the handlers: with distinct identities, a delete followed by a re-add of the same route both answer success, and the last configuration written is the final inventory |

## Left out

- HTTP plumbing (`ioutil.ReadAll`, `w.Write`, handler registration, listening on `:999`) is not modelled. This includes the `"failed"` body that `addHandler` writes when the request body cannot be read. The handlers take the decoded route and return the reply body.
- JSON decoding (`redJosnToRotue`) is not modelled. The handlers receive the decoded `Route`.
- `parseBaseConfig` and `saveBaseConfig` are defined in a file that is not part of this model. Loading is the `BaseConfig` constructor. Saving appends the inventory to the ghost log `saved`.
- ConfigStore.BaseConfig.constructor, SaveCfg, DelCfg, AddHandler, DelHandler: require the argument route and every stored route to have a non-empty `serveNodes`. The Go code reads `ServeNodes[0]` without a check and panics otherwise. `parseBaseConfig` and `start` accept a loaded file that holds such a route, but the constructor excludes it. A malformed request body decodes to such a route. On an empty inventory `saveCfg` never reads the argument's identity, so it would store that route, and every later scan would panic. The model does not capture this.
- `route.GenRouters` is defined in a file that is not part of this model. It is the `expand` parameter.
- Serving is not modelled: the `go ... Serve()` goroutines, and the fact that deleting a route leaves its routers running. A successful activation returns the routers it would serve.
- `start` copies the debug flag into the engine (`gost.Debug`). That is engine state and is not modelled.
- Flag parsing, version printing, `os.Exit`, the profiling server and the TLS certificate bootstrap in `init` and `main` are I/O and calls into the engine. None of them is modelled.
- Unsynchronised concurrent handlers are not modelled. The model runs requests one at a time.
- RouteModel.RemoveIndex: Go's `append` reuses the slice's backing array in place. Only `cfg.Routes` refers to that array, so the model treats the splice as a value.
- `examples/http/http.go` is a standalone demo server with no control-plane logic. It is not modelled.
