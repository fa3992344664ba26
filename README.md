# uftrace dynamic instrumentation control — a Dafny model

This project models the core of a tool that switches the instrumentation of
functions in a running, traced program on and off. There are two sides.
The client (Python) keeps a cached copy of the server's function table. It
shows the functions in a filtered, sorted list with a focus and a selection,
and sends changes back. The server (C, embedded in the traced process)
answers `GET` with the function list and applies a `PUT` to its symbol
table.

The model has five modules:

- `FilterLanguage` (`filter.dfy`) is the `Filter` class. It parses the
  `op:op:regex` filter text into its three fields, including what a failed
  parse leaves behind. It also has the three-axis predicate
  `(name, active?, selected?)`. The regex engine is a parameter: which
  patterns compile, and for which names `re.match` of a pattern succeeds,
  i.e. the pattern matches at the start of the name.
- `Ordering` (`ordering.dfy`) is Python's string order and `sorted`, which
  the walker applies to the table's keys.
- `Communication` (`cache.dfy`) is the `Communicator`. It covers the session
  and URL state, port checks, the merge of a response into the cached table,
  the read-back into records, and the in-place, non-atomic setter. The cached
  dict is a `FunctionTable` object, because the getter hands out the object
  itself and the walker keeps it.
- `Navigation` (`walker.dfy`) is the `FilterFunctionWalker`. It covers the
  forward and backward nearest-match search, `next_position` and
  `prev_position`, the refocus rule of `notify_change`, the `position`
  rank/total count, and the selection operations.
- `InstrumentationServer` (`server.dfy`) is the request core of the server:
  `is_equal`, the routing in `ev_handler`, the exact `handle_list` response
  text (with a reader proving that the text determines the table), and the
  `handle_set` loop over the parsed elements of a `PUT` body.

The model keeps these behaviours of the code:

- The refocus rule looks backward first. When the focus no longer matches,
  it goes to the nearest match at or before it, and only if there is none,
  to the nearest match after it.
- `select_all` asks the filter with `selected=False`.
- The `function_list` setter is not all-or-nothing. Entries stored before
  the first unknown name stay stored, and no `PUT` is sent.
- Every response is merged into the cache, never substituted for it. Keys
  that are absent from the response stay.
- The walker's name list is fixed when the walker is built.
- `disconnect` with a session clears the URL and the cache but not
  `__session`, so `status()` still returns true afterwards.

## Model

| member | source | states |
|---|---|---|
| FilterLanguage.MatchesAt0 | client/dynamic_inst_client/util.py:97-98 | the name test is the engine's `re.match` at the start of the name; its contract is the engine's |
| FilterLanguage.LiteralMatchIsPrefix | client/dynamic_inst_client/util.py:97-98 | for a pattern without metacharacters, under the engine's treatment of literals, a name matches iff it starts with the pattern |
| FilterLanguage.Split | client/dynamic_inst_client/util.py:47 | `str.split(':')` gives at least one piece and no piece contains `:` |
| FilterLanguage.JoinSplit | client/dynamic_inst_client/util.py:47 | joining the pieces with `:` gives back the text |
| FilterLanguage.SplitJoin | client/dynamic_inst_client/util.py:47 | splitting the `:`-join of colon-free pieces gives back those pieces |
| FilterLanguage.SplitColonFreePrefix | client/dynamic_inst_client/util.py:47 | a colon-free head followed by `:` is the first piece, and the split of the rest follows |
| FilterLanguage.ScanAcceptsIff | client/dynamic_inst_client/util.py:53-71 | the op loop completes iff every word is one of the four op words, neither axis is named twice, and neither was set on entry |
| FilterLanguage.ScanNamesOps | client/dynamic_inst_client/util.py:53-71 | after a completed loop, the status and selection fields hold the ops the words name |
| FilterLanguage.ScanStopsAtFirstBadWord | client/dynamic_inst_client/util.py:53-71 | a failing loop stops at the first word it cannot apply, and the fields keep what the words before it set |
| FilterLanguage.Assign | client/dynamic_inst_client/util.py:36-75 | `None` clears status and regex but keeps the selection; otherwise success iff the op words are well formed and the last piece compiles; on success the fields are the named ops and the last piece; on failure the old regex stays |
| FilterLanguage.FailedAssignKeepsParsedOps | client/dynamic_inst_client/util.py:51-75 | after a ValueError the status and selection fields are exactly those set by the op words before the failing one (or by all of them when the pattern does not compile), and the next word cannot be applied to them |
| FilterLanguage.Filter.constructor | client/dynamic_inst_client/util.py:26-32 | `Filter()` starts with no status test, no selection test and no pattern |
| FilterLanguage.Filter.Create | client/dynamic_inst_client/util.py:26-34 | `Filter(text)` is a fresh filter followed by the assignment of `text`, with its success or ValueError |
| FilterLanguage.Filter.SetFilter | client/dynamic_inst_client/util.py:36-75 | the setter's loop leaves the fields and the outcome that `Assign` gives from the old fields, and keeps the stored pattern compilable |
| FilterLanguage.Filter.Admits | client/dynamic_inst_client/util.py:79-99 | `filter(name, active, selected)`; its contract is stated by `AdmitsIff` |
| FilterLanguage.AdmitsIff | client/dynamic_inst_client/util.py:79-99 | a triple is admitted iff every axis passed as non-None agrees with its test (active/nopped, selected/unselected) and, when a pattern is stored, the name matches it at the start |
| FilterLanguage.UnfilteredAdmitsAll | client/dynamic_inst_client/util.py:87-99 | a filter with no tests admits every triple |
| FilterLanguage.EmptyFilterAdmitsAll | client/dynamic_inst_client/util.py:47-98 | the empty filter text is accepted and then admits every triple |
| FilterLanguage.ResetKeepsSelection | client/dynamic_inst_client/util.py:42-45 | assigning `None` clears status and pattern and keeps the selection test |
| FilterLanguage.DuplicateStatusRejected | client/dynamic_inst_client/util.py:54-61 | `active:nopped:` raises ValueError |
| FilterLanguage.EmptyOpWordRejected | client/dynamic_inst_client/util.py:70-71 | `::x` raises ValueError (an empty op word) |
| FilterLanguage.EitherOrderAccepted | client/dynamic_inst_client/util.py:53-69 | `active:selected:x` and `selected:active:x` are both accepted with the same result |
| FilterLanguage.ActiveSelectedWords | client/dynamic_inst_client/util.py:53-69 | `active selected` and `selected active` are well-formed op words naming the active and selected tests |
| FilterLanguage.ActiveSelectedAssigned | client/dynamic_inst_client/util.py:36-75 | `active:selected:x` and `selected:active:x`, for a literal colon-free `x`, succeed and leave the fields active, selected and `x` |
| FilterLanguage.ActiveSelectedAdmits | client/dynamic_inst_client/util.py:36-99 | after `active:selected:x` a triple is admitted iff it is active, selected and its name starts with `x` |
| FilterLanguage.ActiveSelectedExample | client/dynamic_inst_client/util.py:36-99 | `active:selected:do_` admits exactly the active, selected names starting with `do_` |
| FilterLanguage.NoppedMainAssigned | client/dynamic_inst_client/util.py:36-75 | `nopped:main` succeeds and leaves the fields nopped, no selection test, pattern `main` |
| FilterLanguage.NoppedMainExample | client/dynamic_inst_client/util.py:36-99 | `nopped:main` admits exactly the nopped names starting with `main`, whatever the selection |
| Ordering.BelowTotal | client/uftrace_dynamic_client/ui.py:95 | string order is total |
| Ordering.BelowTransitive | client/uftrace_dynamic_client/ui.py:95 | string order is transitive |
| Ordering.BelowAntisymmetric | client/uftrace_dynamic_client/ui.py:95 | string order is antisymmetric |
| Ordering.Sort | client/uftrace_dynamic_client/ui.py:95 | `sorted` by insertion; its contract is stated by `SortSorted` |
| Ordering.InsertSorted | client/uftrace_dynamic_client/ui.py:95 | inserting into a sorted list keeps it sorted and adds exactly that element |
| Ordering.SortSorted | client/uftrace_dynamic_client/ui.py:95 | `sorted` gives a sorted permutation of its input |
| Communication.Put | client/uftrace_dynamic_client/communicator.py:116 | `d[k] = v` sets `k` to `v`, appends `k` only if new, and keeps every other entry and the key order |
| Communication.Merge | client/uftrace_dynamic_client/communicator.py:110-116 | `__write_to_cache`, one `d[k] = v` per record in order; its contract is stated by `MergeValid`, `MergeEntries` and `MergeKeepsOrder` |
| Communication.MergeValid | client/uftrace_dynamic_client/communicator.py:115-116 | the merge loop keeps the dict well formed |
| Communication.MergeSnoc | client/uftrace_dynamic_client/communicator.py:115-116 | merging one more record is one more `Put` |
| Communication.LastValueNamed | client/uftrace_dynamic_client/communicator.py:115-116 | the records give a key a value iff some record names that key |
| Communication.MergeEntries | client/uftrace_dynamic_client/communicator.py:110-116 | after `__write_to_cache`, a key is present iff it was present or is named by the response; its value is the last response value naming it, otherwise the old value |
| Communication.MergeKeepsOrder | client/uftrace_dynamic_client/communicator.py:115-116 | the old keys stay in front, in their order |
| Communication.Records | client/uftrace_dynamic_client/communicator.py:118-127 | `__read_from_cache` as records; its contract is stated by `RecordsOnePerEntry` |
| Communication.RecordsOnePerEntry | client/uftrace_dynamic_client/communicator.py:118-127 | `__read_from_cache` emits one record per cache entry, the `i`-th for the `i`-th key, with its value, and no name twice |
| Communication.MergeAgreeing | client/uftrace_dynamic_client/communicator.py:115-116 | merging records that agree with the dict changes nothing |
| Communication.ReadWriteRoundTrip | client/uftrace_dynamic_client/communicator.py:110-127 | writing back what `__read_from_cache` emitted leaves the cache unchanged |
| Communication.KnownPrefix | client/uftrace_dynamic_client/communicator.py:71-75 | the setter gets through exactly the names before the first one not in the cache |
| Communication.UpdateKnown | client/uftrace_dynamic_client/communicator.py:71-75 | the setter's result dict is well formed |
| Communication.UpdateKnownSemantics | client/uftrace_dynamic_client/communicator.py:71-75 | the setter succeeds iff every name is in the cache; the dict is the known prefix merged in; the key list never changes |
| Communication.KnownPrefixSameKeys | client/uftrace_dynamic_client/communicator.py:71-75 | how far the setter gets depends only on the cache's keys |
| Communication.Decimal | client/uftrace_dynamic_client/communicator.py:38 | `%d` of a port is a non-empty string of digits with no leading zero |
| Communication.DecimalRoundTrip | client/uftrace_dynamic_client/communicator.py:38 | the digits read back to the port |
| Communication.UrlDeterminesPort | client/uftrace_dynamic_client/communicator.py:38 | two ports give the same URL only if they are equal |
| Communication.FunctionTable.Store | client/uftrace_dynamic_client/communicator.py:73 | an in-place `d[k] = v` on the shared dict object |
| Communication.Communicator.constructor | client/uftrace_dynamic_client/communicator.py:23-26 | no session, no URL, an empty cache |
| Communication.Communicator.Status | client/uftrace_dynamic_client/communicator.py:80-85 | true iff a session object was ever set |
| Communication.Communicator.CheckConnected | client/uftrace_dynamic_client/communicator.py:129-135 | passes iff there is a session, else 'Not connected' |
| Communication.Communicator.Disconnect | client/uftrace_dynamic_client/communicator.py:41-48 | with a session: URL cleared and a fresh empty cache, the session flag kept; without one: nothing changes |
| Communication.Communicator.WriteToCache | client/uftrace_dynamic_client/communicator.py:110-116 | the cache object becomes the merge of the records into it |
| Communication.Communicator.ReadFromCache | client/uftrace_dynamic_client/communicator.py:118-127 | the loop builds exactly one record per cache entry in key order |
| Communication.Communicator.RequestGet | client/uftrace_dynamic_client/communicator.py:87-96 | a failed or impossible request fails without touching the cache; a good one merges the answer |
| Communication.Communicator.Connect | client/uftrace_dynamic_client/communicator.py:28-39 | disconnects first; a port outside 0..65535 fails with ValueError and leaves the disconnected state; otherwise session set, URL `http://127.0.0.1:<port>/instrumentation`, and the GET merged into the new empty cache; a cache object replaced by the disconnect, which a walker may still hold, is left as it was |
| Communication.Communicator.Refresh | client/uftrace_dynamic_client/communicator.py:50-54 | one GET merged in place; no key is ever lost |
| Communication.Communicator.GetFunctionList | client/uftrace_dynamic_client/communicator.py:56-62 | the cache object itself when connected, else 'Not connected' |
| Communication.Communicator.SetFunctionList | client/uftrace_dynamic_client/communicator.py:64-108 | 'Not connected' without a session; otherwise entries stored in order up to the first unknown name ('Function not in the process', earlier stores kept, no PUT); then the whole cache is sent and the answer merged, a failed PUT leaving the updated cache; no key is ever lost |
| Communication.Communicator.StoreKnown | client/uftrace_dynamic_client/communicator.py:71-75 | the setter's loop leaves the cache and the outcome `UpdateKnown` gives from the old cache |
| Communication.Communicator.RequestPut | client/uftrace_dynamic_client/communicator.py:98-108 | the body sent is the read-back of the cache; failure leaves the cache; success merges the answer |
| Navigation.FilterFunctionWalker.FirstMatchFrom | client/uftrace_dynamic_client/ui.py:172-188 | forward search: the least matching index in `[start, n)`, or none in that range |
| Navigation.FilterFunctionWalker.LastMatchUpTo | client/uftrace_dynamic_client/ui.py:172-188 | backward search: the greatest matching index in `[0, start]`, or none in that range |
| Navigation.FilterFunctionWalker.Refocused | client/uftrace_dynamic_client/ui.py:130-142 | the new focus is absent iff nothing matches; it always matches; a matching focus is kept |
| Navigation.FilterFunctionWalker.RefocusedIsNearest | client/uftrace_dynamic_client/ui.py:130-142 | with no old focus the new one is the first match; otherwise it is the nearest match at or before the old focus, or, if there is none, the first match after it |
| Navigation.FilterFunctionWalker.CountMatches | client/uftrace_dynamic_client/ui.py:147-162 | the number of matches below `k` is at most `k` |
| Navigation.FilterFunctionWalker.CountZeroIff | client/uftrace_dynamic_client/ui.py:147-162 | the count below `k` is zero iff none of the first `k` names matches |
| Navigation.FilterFunctionWalker.CountMonotone | client/uftrace_dynamic_client/ui.py:147-162 | the running count only grows |
| Navigation.FilterFunctionWalker.RankBounds | client/uftrace_dynamic_client/ui.py:147-162 | a matching focus has a rank between 1 and the total |
| Navigation.FilterFunctionWalker.constructor | client/uftrace_dynamic_client/ui.py:84-98 | names are the table's keys sorted (sorted, same multiset), the selection is empty, the default filter has no tests, focus is the first match from 0 |
| Navigation.FilterFunctionWalker.GetFirstMatching | client/uftrace_dynamic_client/ui.py:172-188 | the loop returns the forward or backward search result |
| Navigation.FilterFunctionWalker.NextPosition | client/uftrace_dynamic_client/ui.py:114-118 | the least match after `p`, or IndexError when there is none |
| Navigation.FilterFunctionWalker.PrevPosition | client/uftrace_dynamic_client/ui.py:120-124 | the greatest match before `p`, or IndexError when there is none or `p - 1` is past the list |
| Navigation.FilterFunctionWalker.Refocus | client/uftrace_dynamic_client/ui.py:135-142 | the searches of `notify_change` compute the refocus rule |
| Navigation.FilterFunctionWalker.NotifyChange | client/uftrace_dynamic_client/ui.py:130-145 | afterwards focus is absent exactly when nothing matches and otherwise on a match, by the refocus rule; the selection is untouched; `on_change` runs exactly once if registered |
| Navigation.FilterFunctionWalker.SetFocus | client/uftrace_dynamic_client/ui.py:126-128 | focus set to `p`, then the refocus rule from `p` |
| Navigation.FilterFunctionWalker.Position | client/uftrace_dynamic_client/ui.py:147-162 | `total` is the number of matches and is 0 iff nothing matches; `pos` is the 1-based rank of a matching focus, else None; after a refocus, `pos` is None iff `total == 0` |
| Navigation.FilterFunctionWalker.OnFunctionSelect | client/uftrace_dynamic_client/ui.py:190-199 | only that name's membership flips, then one `notify_change` |
| Navigation.FilterFunctionWalker.SelectAll | client/uftrace_dynamic_client/ui.py:201-208 | adds exactly the dict's names the filter admits with `selected=False`, removes nothing, then one `notify_change` |
| Navigation.FilterFunctionWalker.ClearSelection | client/uftrace_dynamic_client/ui.py:210-220 | removes exactly the dict's names the filter admits with `selected=True`, adds nothing, then one `notify_change` |
| Navigation.SortedKeysKnown | client/uftrace_dynamic_client/ui.py:95 | every sorted name is a key of the dict |
| Navigation.SelectAllUnderSelectedFilter | client/uftrace_dynamic_client/ui.py:201-208 | under a `selected:` filter `select_all` has nothing to add |
| Navigation.NamesStayKnown | client/uftrace_dynamic_client/communicator.py:71-116 | as long as the shared dict only gains keys, the walker's fixed names stay keys of it |
| InstrumentationServer.SameBytes | server/dynamic-server.c:26 | the byte comparison holds iff the first `n` bytes agree |
| InstrumentationServer.IsEqual | server/dynamic-server.c:24-27 | `is_equal` holds iff the two strings are equal (same length, same bytes) |
| InstrumentationServer.Entry | server/dynamic-server.c:42-48 | one printed `{"name":"N", "active":B}` (B is `true` or `false`) entry; its contract is stated by `ReadEntryOfEntry` |
| InstrumentationServer.ListBody | server/dynamic-server.c:40-50 | the whole list response text; its contract is stated by `ListBodyRoundTrip` and `Server.HandleList` |
| InstrumentationServer.JoinWithSnoc | server/dynamic-server.c:41-49 | adding one entry at the end adds `, ` (unless it is the first) and the entry |
| InstrumentationServer.ListStep | server/dynamic-server.c:41-49 | one loop turn (entry, then `, ` unless last) extends the text by exactly the next entry |
| InstrumentationServer.ReadEntryOfEntry | server/dynamic-server.c:42-48 | a printed entry whose name has no `"` reads back to the same name and flag |
| InstrumentationServer.ReadJoined | server/dynamic-server.c:41-49 | the joined entries read back to the table |
| InstrumentationServer.ListBodyRoundTrip | server/dynamic-server.c:40-50 | the whole list response reads back to the table it was printed from, for names without `"` |
| InstrumentationServer.FindSym | server/dynamic-server.c:78 | the first symbol with the name, or none has it |
| InstrumentationServer.ApplyElements | server/dynamic-server.c:65-87 | the set loop never changes the names or the number of symbols |
| InstrumentationServer.FirstUnknown | server/dynamic-server.c:75-84 | the first named element with an unknown name; none iff every named element is known |
| InstrumentationServer.ApplyOkIff | server/dynamic-server.c:65-89 | the set request succeeds iff every element with a name names a known symbol |
| InstrumentationServer.ApplyStopsAtFirstUnknown | server/dynamic-server.c:78-84 | a failed request leaves applied exactly the elements before the first unknown name |
| InstrumentationServer.LastSetting | server/dynamic-server.c:70-86 | the setting of the last element naming a symbol (on by default), present iff some element names it |
| InstrumentationServer.ApplyEffect | server/dynamic-server.c:65-87 | after a successful request the first symbol of each name has the last setting asked for it and every other symbol is unchanged |
| InstrumentationServer.ApplySnoc | server/dynamic-server.c:65-87 | one more element after a successful run is one more lookup and update |
| InstrumentationServer.Server.constructor | server/dynamic-server.c:22 | the server starts with the given table |
| InstrumentationServer.Server.HandleList | server/dynamic-server.c:29-55 | the loop sends `{ "functions": [`, the entries `{"name":"N", "active":B}` (B is `true` or `false`) joined by `, `, then `] }\n`, and the text determines the table |
| InstrumentationServer.Server.HandleSet | server/dynamic-server.c:57-90 | the table becomes the in-order application of the elements; the reply is 400 at the first unknown name, else the list response of the new table |
| InstrumentationServer.Server.EvHandler | server/dynamic-server.c:92-113 | non-HTTP events get no reply; a URI other than `/instrumentation` gets 404; there GET lists, PUT sets, any other method gets 405; only PUT changes the table |

## Left out

- The urwid user interface (`make_enableable`, `SelectableFunctionText`, `FilterFunctionWalker.__getitem__`, `FilterEdit`, `Ui`): it is rendering and key handling. The urwid `_modified()` signal in `notify_change` is not modelled.
- `client.py` (argument parsing, printing, exit codes) and `setup.py` (packaging).
- The `requests` session and JSON text. A GET answer is a value: a failure or a list of `(name, active)` records. A PUT is a function from the records sent to such an answer. Exceptions and non-success HTTP statuses are both the failure. `session.close()` is not modelled.
- Python's regex engine. Whether a pattern compiles, and whether `re.match` of it succeeds at the start of a name, are parameters. The examples assume that a pattern without metacharacters compiles and matches exactly the names that begin with it.
- FilterLanguage.MatchesAt0: does not decide any particular regex, because the engine is a parameter; only literal patterns are given a meaning, in the examples.
- Communication.Communicator.Connect: takes an `int`, so the `isinstance(port, int)` rejection of other types is not modelled.
- Communication.Communicator.SetFunctionList: the argument dict is a sequence of `(name, value)` records in iteration order. A Python dict cannot repeat a name; the sequence may, and the model then applies both in order.
- Navigation.FilterFunctionWalker.SetFocus: requires a position inside the list. Python would store an out-of-range focus and then raise IndexError from `notify_change`; urwid only passes positions the walker returned.
- Navigation.FilterFunctionWalker.constructor: takes the regex engine that the default `Filter()` would use. That filter has no pattern, so the engine is never consulted.
- Ordering: Python compares strings by code point. Characters are compared by their code, with no locale.
- The server's threads, socket loop, port from the environment and `/proc/self/exe` lookup (`run_server`, `start_dyn_server`, `init_dyn_server`).
- mongoose and frozen. `mg_vcmp(uri, "/instrumentation") == 0` is string equality. A chunked 200 response is a `Listing` reply with the concatenated chunks. The `PUT` body is the sequence of already parsed array elements, each with an optional name and an optional `active` flag.
- `server/dynamic-symbols.c` and the uftrace symbol code. `find_symname`'s source is not available; it is modelled as the first symbol with the given name. The function table is a sequence of `(name, active)` symbols, all of them patchable. Symbols whose patch status is `NO_PATCH`, and failures of `get_instrumentation` or `set_instrumentation`, are not modelled.
- InstrumentationServer.ListBodyRoundTrip: holds only for names without `"`, because names are printed without escaping.
