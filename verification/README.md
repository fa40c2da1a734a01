# Backend-routing filter of the Extensible Service Proxy (Envoy HTTP filter)

This project models the backend-routing HTTP decoder filter. The filter picks
the backend address of a request from a per-operation routing rule. The
operation name and the query parameters extracted from path templates are
read from the stream's filter state, where the path-matcher filter left them.

- Construction turns the configured rules into a table keyed by operation
  name. A later rule for the same operation replaces an earlier one.
- `decodeHeaders` looks up the rule for the request's operation. A request
  with no operation, or with an operation that has no rule, passes through
  untouched. Otherwise the `:path` header is rewritten:
  - CONSTANT_ADDRESS: the path becomes the rule's address. The original query
    string is kept. The extra query parameters are added after `&` when
    there was a query, or after `?` when there was none.
  - APPEND_PATH_TO_ADDRESS: the rule's address is put in front of the whole
    original path.
- Each rewrite bumps one of two stats counters, chosen by the rule's kind.
  The `:path` header is then replaced by removing it and adding the new value.
- `decodeData` and `decodeTrailers` always let the stream continue.

Files:

- `strings.dfy` (module `Strings`): the first-occurrence search that
  `std::string::find` performs. It also defines the split of a request target
  (the `:path` value) into its path part and its query string, used to state what a rewrite
  means.
- `http.dfy` (module `Http`): header entries, the header map as a class that
  is edited in place, and the three filter statuses.
- `backend_routing.dfy` (module `BackendRouting`): rules, the rule table,
  the new-path computation, and the counters, configuration and filter as
  classes.

How the pieces connect:

- `Filter.Valid()` ties the filter's table to `RuleMap(config.rules)`.
- `Filter.DecodeHeaders` states its whole effect through `ApplicableRule`
  and `NewPath`.
- The lemmas about `RuleMap`, `ApplicableRule` and `NewPath` say which rule
  applies, and what the rewritten path and query string are.
- `RewriteScenario` is a client that uses only these contracts. It builds
  fresh stats, a configuration and a filter, then calls `DecodeHeaders`. It
  shows that the other headers are kept, the new `:path` is appended, and
  exactly one counter reads 1.

## Model

| member | source | states |
|---|---|---|
| `Strings.FindFirst` | src/envoy/http/backend_routing/filter.cc:70-71 | the result is the index of the first `?` in the original path, or `None` (npos) exactly when the path holds no `?` |
| `Http.HeaderMap.Get` | src/envoy/http/backend_routing/filter.cc:64-69 | the value read for the `:path` header comes from an entry of that name; `None` exactly when no entry has the name |
| `Http.Without` | src/envoy/http/backend_routing/filter.cc:99 | after removal, an entry is present iff it was present before and is not named `:path`, and every other entry occurs exactly as often as before |
| `Http.HeaderMap.Remove` | src/envoy/http/backend_routing/filter.cc:99 | the map's entries become those without the removed name |
| `Http.HeaderMap.AddCopy` | src/envoy/http/backend_routing/filter.cc:100 | the map gains one entry with the given name and value; the other entries stay as they were |
| `Http.ReplaceLeavesOneEntry` | src/envoy/http/backend_routing/filter.cc:98-100 | remove followed by addCopy leaves exactly one `:path` entry, holding the new value, and every non-`:path` entry unchanged |
| `BackendRouting.RuleMap` | src/envoy/http/backend_routing/filter.cc:36-40 | every table entry is stored under the operation its rule names |
| `BackendRouting.RuleMapKeys` | src/envoy/http/backend_routing/filter.cc:37-39 | the table's keys are exactly the operations named by the configured rules |
| `BackendRouting.RuleMapLastWins` | src/envoy/http/backend_routing/filter.cc:37-39 | when several rules name one operation, the last of them is the one stored |
| `BackendRouting.RoutedIffNamed` | src/envoy/http/backend_routing/filter.cc:45-60 | a request is routed iff its filter-state operation is non-empty and named by some configured rule |
| `BackendRouting.RoutedByLastRule` | src/envoy/http/backend_routing/filter.cc:49-61 | the rule applied is the last configured rule for the operation; a rule for the empty operation never applies |
| `BackendRouting.GetStringFilterState` | src/envoy/http/backend_routing/filter.cc:45-46 | a stored filter-state entry is read as its value, and a missing one reads as empty; this is the whole definition of the abstracted lookup, since its source is not part of this model (also the read at filter.cc:66-67) |
| `BackendRouting.ApplicableRule` | src/envoy/http/backend_routing/filter.cc:45-61 | no rule applies exactly when the operation is empty or has no table entry; an applied rule is one of the table's rules, and in a well-formed table it names the request's operation. Over a table built from config rules, `RoutedIffNamed` and `RoutedByLastRule` state which rule that is |
| `BackendRouting.QueryTail` | src/envoy/http/backend_routing/filter.cc:68-84 | what CONSTANT_ADDRESS puts after the address is the original query merged with the extra parameters (`MergedQuery`), rendered with a leading `?`, or nothing when the merged query is absent |
| `BackendRouting.NewPath` | src/envoy/http/backend_routing/filter.cc:62-97 | the new path starts with the rule's address. In CONSTANT_ADDRESS mode it is exactly the address followed by the merged query after a `?`, or the address alone when there is no merged query. This holds for any address, including one that holds a `?`. In APPEND_PATH_TO_ADDRESS mode, stripping the address gives back the original path, and the extra query parameters play no part |
| `BackendRouting.ConstantAddressRewrite` | src/envoy/http/backend_routing/filter.cc:65-84 | CONSTANT_ADDRESS: the new path part is the address; the new query string is the original one, with the extra parameters added as a further `&` part, or alone after `?` when there was no query |
| `BackendRouting.AppendPathRewrite` | src/envoy/http/backend_routing/filter.cc:89-91 | APPEND_PATH_TO_ADDRESS: the new path part is the address followed by the old path part; the query string is unchanged |
| `BackendRouting.Counter.Inc` | src/envoy/http/backend_routing/filter.cc:85 | a counter increment adds exactly one |
| `BackendRouting.Filter.constructor` | src/envoy/http/backend_routing/filter.cc:36-40 | the loop over the rules builds the table `RuleMap(config.rules)` |
| `BackendRouting.Filter.DecodeHeaders` | src/envoy/http/backend_routing/filter.cc:42-103 | always returns Continue. With no applicable rule, the headers and both counters are unchanged. Otherwise the headers become the old non-`:path` entries plus one `:path` entry holding `NewPath`, and exactly the counter of the rule's kind goes up by one |
| `BackendRouting.Filter.DecodeData` | src/envoy/http/backend_routing/filter.cc:105-107 | body chunks always continue |
| `BackendRouting.Filter.DecodeTrailers` | src/envoy/http/backend_routing/filter.cc:109-111 | trailers always continue |

## Left out

- Logging (`ENVOY_LOG`): it has no effect on the request.
- The filter-state store itself. `Utils::getStringFilterState` is not part
  of this model. It is abstracted as a lookup in a map with two keys,
  operation and query parameters, where a missing entry reads as empty. The
  key strings are not modelled.
- The callback plumbing (`setDecoderFilterCallbacks`, `decoder_callbacks_`).
  The filter state is passed to `DecodeHeaders` directly.
- Envoy's header-map internals. `AddCopy` appends the entry at the end,
  while Envoy keeps pseudo-headers such as `:path` ahead of regular headers.
  Entry order is therefore not claimed to match Envoy's. When the header is
  already present, Envoy's `addCopy` on an inline header joins the new value
  to the existing one with a comma. The model always adds a separate entry.
  That difference does not arise in this filter, because `:path` is removed
  just before it is added.
- `Http.HeaderMap.Get` reads the first `:path` entry. Envoy keeps this header
  in a single inline slot. The request's `:path` is required to exist only
  when a rule applies, because the source reads it without a check only on
  that branch.
- `BackendRouting.Counter.Inc`: counters are unbounded naturals; the 64-bit
  width of Envoy counters is not modelled. The other stats machinery is also
  left out.
- `BackendRouting.ConstantAddressRewrite`: the statement about the path part
  and the query string assumes the rule's address holds no `?`. Without that,
  the exact result is still given by `NewPath`'s contract, but the split at the first
  `?` falls inside the address.
- `BackendRouting.AppendPathRewrite`: same assumption, for the same reason.
- The `end_stream` flag and the body bytes: the filter ignores them, so the
  model takes them as parameters and does nothing with them.
- `tests/endpoints/bookstore_grpc/proto/bookstore.pb.go`: generated gRPC
  stubs. They hold no routing logic, and marshalling and dispatch belong to
  the protobuf and gRPC runtimes.
- `tests/e2e/client/jwt_client.go`: a JWT test client. It reads a file, reads
  the clock and calls signing libraries, with no logic of its own worth a
  model.
