# Crater BiDi client multiplexer — a Dafny model

This project models the client side of Crater's WebDriver BiDi test tooling.
A WebDriver BiDi session carries commands, their responses and unsolicited events
over one WebSocket. The model covers two parts:

- **`CraterBidiSession`** (`scripts/crater_bidi_adapter.py`) — the routing core.
  - `send_command` allocates command ids and registers a future for each.
  - The `_receive_messages` loop sends each response to its pending future and each event
    to the handlers registered under its method.
  - `add_event_listener` and its `remove` closure maintain the event registry.
  - The `ScriptModule` helpers convert Python keyword names to the protocol's camelCase:
    `_to_camel_case`, `_convert_serialization_options`, and the keyword-argument loops of
    `evaluate` and `call_function`.
  - `get_tree` and `subscribe` build their parameter objects.
- **`BidiTester`** (`scripts/test-bidi-manual.py`) — the synchronous manual client.
  - `send` allocates an id, then reads until a reply arrives and queues any events it passes.
  - `check` counts passed and failed checks.
  - `main` turns those counts into the exit code.

Files, in dependency order:

| file | module | contents |
|---|---|---|
| `wrappers.dfy` | `Wrappers` | `Option`, with `GetOr` for Python's `dict.get(k, default)` |
| `json.dfy` | `Json` | decoded JSON values. An object is an ordered field list, as Python dicts keep insertion order: `Get`, `Put` (`d[k] = v`), `Keys`, truthiness |
| `messages.dfy` | `Messages` | an inbound message (each optional key as an `Option`), an outbound command, a command's outcome, a future's slot |
| `registry.dfy` | `Registry` | the event-name → handlers registry, `AddListener` and the remover |
| `session.dfy` | `Session` | the session state, `SendCommand`, `Dispatch` (one loop iteration), `DispatchAll` (the loop), and the properties of the pending-command table |
| `camel_case.dfy` | `CamelCase` | `split('_')`, ASCII `str.title()`, `_to_camel_case`, its character-wise reading and its inverse, `_convert_serialization_options` |
| `params.dfy` | `Params` | the parameter objects of `evaluate`, `call_function`, `get_tree` and `subscribe`, and `get_tree`'s return value |
| `tester.dfy` | `ManualTester` | `BidiTester.send`, `check`, and `main`'s exit code |

How the Python runtime is represented:

- **The WebSocket.** Commands written to it accumulate in `Session.sent`. The inbound
  stream is a finite sequence of already-decoded messages, and its end is the connection
  closing.
- **Futures.** `Session.futures` records every future handed out, keyed by id.
  `Session.pending` is the key set of `_pending_commands`.
- **Handlers.** Each awaited handler call is appended to `Session.trace`. Whether a handler
  raises an `Exception` is decided by an oracle parameter, and the loop only prints that
  failure. `Session.HandlerIsolation` proves that the oracle affects nothing else.
- **Python semantics.** These are modelled where they change the routing:
  - `True == 1`: a boolean id hits the pending entry 1 or 0.
  - A list or dict `id` cannot be hashed, and neither can a non-empty list or dict
    `method` (an empty one is falsy, and `method and …` stops before the lookup). Either
    raises `TypeError` out of the receive task, which ends it; this is the `halted` flag.
  - The empty method name is falsy and is never dispatched.
  - `params or {}`.
  - Assigning an existing key keeps its position in the dict.

Facts about the code that the model keeps:

- Pending commands are not drained on close: their futures stay unresolved.
- There is no dedicated lifecycle check. A command before `start` or after `end` fails with
  `AttributeError` on the missing event loop or socket, not with a session error (see
  "## Left out" for what that does to the id and the pending table).
- A message with an unhashable `id`, or with a non-empty list or dict `method`, kills the
  receive task, and later responses are never routed (`Session.Dispatch`,
  `Session.HaltedIgnoresRest`).

All files are verified together, with no options needed: `dafny verify *.dfy`.

## Model

| member | source | states |
|---|---|---|
| Session.SendCommand | scripts/crater_bidi_adapter.py:103-118 | The new id is the counter plus one. The command `{id, method, params}` is appended to what was sent, and the id becomes pending with an unresolved future. The listeners, the trace and the loop's liveness are untouched. From a valid state the id is fresh: no future exists for it, and it is larger than every id sent before. |
| Session.OutcomeOf | scripts/crater_bidi_adapter.py:79-87 | A response resolves to an error exactly when its `type` is `"error"`. The error carries `error`, `message` and `stacktrace`, defaulting to `"unknown error"`, `"Unknown error"` and `""`. A success carries `result`, defaulting to `{}`. |
| Session.Calls | scripts/crater_bidi_adapter.py:90-97 | Every handler registered under the method is awaited once, in registration order, with the same method and params. One handler raising an `Exception` does not stop the later ones. |
| Session.Dispatch | scripts/crater_bidi_adapter.py:69-101 | Routing never sends a command and never changes the registry, since handlers are taken not to act on the session. A response whose id is pending (with `True`/`False` as 1/0) removes exactly that entry and resolves its future with `OutcomeOf`. An event with a non-empty string method that has listeners runs exactly those handlers, with `params` defaulting to `{}`. An unhashable `id` or a non-empty list/dict `method` kills the loop and changes nothing else. Anything else has no effect. After that, every message is ignored. The bookkeeping invariant is preserved. |
| Session.DispatchAll | scripts/crater_bidi_adapter.py:71-101 | Over a whole stream, the counter, the commands sent and the registry stay the same. The pending set only shrinks. The handler trace is only appended to. A dead loop stays dead, and the invariant is preserved. |
| Session.Step | scripts/crater_bidi_adapter.py:103-130 | Sending, routing a message, adding a listener and calling a remover each preserve the bookkeeping invariant: the k-th command has id k, futures exist for exactly ids 1..counter, and an id is pending exactly when its future is unresolved. |
| Session.RunPreservesValid | scripts/crater_bidi_adapter.py:103-118 | Every state reachable from a valid state by any interleaving of client operations is valid. |
| Session.RunCounter | scripts/crater_bidi_adapter.py:105-106 | The command counter grows by exactly one per `send_command` and by nothing else. Earlier commands are never rewritten. |
| Session.IssuedIdsStrictlyIncrease | scripts/crater_bidi_adapter.py:105-112 | From a fresh session, the commands carry ids 1, 2, …, one per send. The ids are strictly increasing and never reused. |
| Session.ResolvedIsFinal | scripts/crater_bidi_adapter.py:77-78 | A resolved future keeps its outcome through any later operations, so each id is resolved at most once. |
| Session.DuplicateResponseIgnored | scripts/crater_bidi_adapter.py:77-78 | Routing the same response twice has the effect of routing it once, because the first copy already popped its id. |
| Session.SendThenRespond | scripts/crater_bidi_adapter.py:114-117 | The future is registered before the command goes out. A response to the command just sent, routed straight after, resolves that future and leaves the other pending entries as they were. |
| Session.ResponsesCommute | scripts/crater_bidi_adapter.py:74-87 | Responses to two different pending commands may arrive in either order and give the same end state. Each future gets its own response's outcome, and both ids leave the pending set. |
| Session.DispatchAllAppend | scripts/crater_bidi_adapter.py:72-72 | Consuming a stream in two parts is the same as consuming it at once. |
| Session.HaltedIgnoresRest | scripts/crater_bidi_adapter.py:71-101 | Once an uncaught exception has ended the receive task, no later message has any effect. |
| Session.HandlerIsolation | scripts/crater_bidi_adapter.py:93-97 | Whether handlers raise changes nothing but the failure reports. The same handlers run, the same futures are resolved, and the same state is reached. |
| Registry.AddListener | scripts/crater_bidi_adapter.py:120-124 | The handler is appended to its event name's list, which is created on first use. Other names are untouched. The remover returned is bound to that name and handler. |
| Registry.RemoveFirst | scripts/crater_bidi_adapter.py:127-128 | `list.remove` behind an `in` guard. An absent handler changes nothing. Otherwise exactly its first occurrence is dropped, the rest keep their order, and the multiset loses one copy. |
| Registry.Remove | scripts/crater_bidi_adapter.py:126-130 | The remover changes only its own name's list, which loses the first occurrence of its handler. It is a no-op when the handler or the name is absent, and the set of names is unchanged. |
| Registry.AddThenRemove | scripts/crater_bidi_adapter.py:120-130 | Adding then calling the remover restores the name's handlers as a multiset. The list itself is restored when the handler was not registered there before, and other names keep their lists. |
| Registry.AddThenRemoveRestoresIff | scripts/crater_bidi_adapter.py:120-130 | Because `list.remove` drops the first occurrence, the name's list is restored exactly when the handler was absent, or when every handler from its first occurrence on is that same handler (for example `[h]` becomes `[h, h]` and then `[h]` again). |
| Registry.RemoveTwiceAfterSingleAdd | scripts/crater_bidi_adapter.py:126-130 | For a handler registered once, the remover is idempotent: the second call finds nothing to remove. |
| Json.Put | scripts/crater_bidi_adapter.py:262-264 | Dict assignment. The key set gains the key. An existing key keeps its position and every other key keeps its position. A new key is appended. |
| Json.PutGet | scripts/crater_bidi_adapter.py:262-264 | After assignment, the key reads back the new value and every other key reads back what it held before. |
| CamelCase.Split | scripts/crater_bidi_adapter.py:270-270 | `split('_')` gives at least one piece. The pieces contain no `_`, joining them with `_` gives the input back, and input without `_` is a single piece. |
| CamelCase.TitleFrom | scripts/crater_bidi_adapter.py:271-271 | `str.title()` keeps the length and changes only letter case, position by position. |
| CamelCase.TitleLowerWord | scripts/crater_bidi_adapter.py:271-271 | Title-casing a lower-case word raises its first letter only. |
| CamelCase.ToCamelCase | scripts/crater_bidi_adapter.py:268-271 | The result contains no `_`. A name without `_` is returned unchanged. |
| CamelCase.CamelCaseCharacterwise | scripts/crater_bidi_adapter.py:268-271 | On lower-case input, split-and-title agrees with a character-wise reference: every `_` disappears and the character after it is raised. |
| CamelCase.CamelCaseRoundTrip | scripts/crater_bidi_adapter.py:268-271 | For a Python snake_case name, converting back (`_` plus lower case for each capital) gives the name again. So distinct snake_case names never collide. |
| CamelCase.ConvertSerializationOptions | scripts/crater_bidi_adapter.py:273-279 | The converted object has unique keys, and they are exactly the camelCase forms of the input's keys. |
| CamelCase.ConvertKeepsValues | scripts/crater_bidi_adapter.py:276-278 | Each converted key holds the value of the last input key that converts to it. |
| CamelCase.ConvertRenamesInOrder | scripts/crater_bidi_adapter.py:273-279 | When no two keys convert to the same name, the output has the input's entries in order, each key renamed and each value kept. |
| Params.ApplyKwargs | scripts/crater_bidi_adapter.py:258-264 | The keyword loop adds exactly the camelCase names of the keyword arguments to the fixed parameters. It keeps keys unique, and the fixed keys keep their positions. |
| Params.ApplyKwargsKeepsOthers | scripts/crater_bidi_adapter.py:258-264 | A parameter that no keyword argument converts to keeps its value. |
| Params.ApplyKwargsLastWins | scripts/crater_bidi_adapter.py:258-264 | A converted name holds the value of the last keyword argument converting to it. A `serializationOptions` object has its own keys converted. |
| Params.EvaluateParams | scripts/crater_bidi_adapter.py:251-264 | `evaluate`'s parameters start with `expression`, `target` and `awaitPromise`. Their keys are unique and are those three plus the converted keyword names. |
| Params.EvaluateFixedValues | scripts/crater_bidi_adapter.py:252-256 | `expression`, `target` and `awaitPromise` hold the caller's values unless a keyword argument converts to the same name. |
| Params.CallFunctionBase | scripts/crater_bidi_adapter.py:282-288 | Before the keyword arguments, `call_function`'s parameters are `functionDeclaration`, `target` and `awaitPromise` in that order, holding the given values. `arguments` is added with its value exactly when it is truthy. Keys are unique. |
| Params.CallFunctionParams | scripts/crater_bidi_adapter.py:281-295 | `call_function`'s parameters start with `functionDeclaration`, `target` and `awaitPromise`, and their keys are unique. `arguments` is present exactly when it is truthy, unless a keyword argument overrides it. |
| Params.CallFunctionFixedValues | scripts/crater_bidi_adapter.py:282-295 | `functionDeclaration`, `target` and `awaitPromise` hold the caller's values, and `arguments` holds its value when truthy and is absent otherwise, unless a keyword argument converts to the same name. |
| Params.GetTreeParams | scripts/crater_bidi_adapter.py:192-197 | `root` and `maxDepth` are present exactly when they are not `None`, each with its given value. No other key is present, and `root` comes first. |
| Params.GetTreeContexts | scripts/crater_bidi_adapter.py:199-200 | An error response raises with its code, message and stacktrace. An object result gives its `contexts`, or `[]` when absent. Any other result fails on `.get`. |
| Params.SubscribeParams | scripts/crater_bidi_adapter.py:229-234 | `events` is always first. `contexts` and `userContexts` are present exactly when truthy, each with its given value, and keys are unique. |
| ManualTester.Send | scripts/test-bidi-manual.py:36-60 | The id is the previous one plus one, and the command carries `params or {}`. The reply is the first non-event message that has an `id`, whatever that id is. The messages after the reply stay unread, and exactly the events before it are queued, in order. Without such a message the stream runs out, with all its events queued. |
| ManualTester.Check | scripts/test-bidi-manual.py:62-68 | A true condition adds one to `passed` and a false one adds one to `failed`. Nothing else changes. |
| ManualTester.CheckAllCounts | scripts/test-bidi-manual.py:62-68 | Over a series of checks, `passed` grows by the number of true conditions, and `passed + failed` grows by the number of checks. |
| ManualTester.ExitCode | scripts/test-bidi-manual.py:516-524 | The exit status is 0 or 1. It is 0 exactly when the run finished and no check failed; an aborted run exits with 1. |
| ManualTester.ExitZeroIffAllChecksPass | scripts/test-bidi-manual.py:512-516 | A finished run from a fresh tester exits with 0 exactly when every check's condition held. |

## Left out

- The WebSocket itself: connecting, `json.dumps`/`json.loads`, and the `websockets` library. Messages are taken as already decoded objects. A frame that is not JSON, or a JSON value that is not an object, would raise out of the receive task; the model does not represent such frames. If `json.dumps` rejects a command's `params`, `send_command` has already bumped the counter, so that id is skipped with no future and nothing sent. The same happens when a command is sent before `start`: `self.event_loop` is still `None`, so creating the future raises `AttributeError` after the counter was bumped. The model assumes every command serialises and that the session has been started, which the "k-th command has id k" part of the invariant relies on.
- `start` and `end`: the asyncio task's creation and cancellation, and the `CancelledError`/`ConnectionClosed` handlers. The end of the inbound sequence stands for the connection closing. Neither the code nor the model resolves pending futures on close.
- A failing `ws.send` inside `send_command`. It would leave the id pending with nobody awaiting it. This includes a command sent after `end`, where `self._ws` is `None`: the future is registered, then the send raises `AttributeError`, and the id stays pending for ever. The model assumes the write succeeds.
- Awaiting a future, and the asyncio scheduling between the loop and its callers. Setting the result of a future whose awaiter was cancelled is also left out.
- Handlers acting on the session. A handler is an arbitrary coroutine, and the model assumes it does not act on the session while an event is being dispatched: it does not add or remove listeners, does not call `send_command` or `end`, and does not await a command's future. Awaiting a future would deadlock the loop that resolves it. "Routing never sends a command" in `Session.Dispatch` rests on this assumption. A send from inside a handler has the same effect on the pending table as a `Send` operation placed after the `Receive`, so the invariant lemmas over `Run` still cover it.
- `bidi_error.from_error_details`: an error outcome keeps the raw code, message and stacktrace, not the exception class they map to.
- The printed text of handler failures and of the manual test's checks: only the fact that a handler raised is kept.
- The module wrappers that only forward their arguments (`create`, `navigate`, `close`, `reload`, `print`, `status`, `unsubscribe`, `add_preload_script` and the rest), the pytest fixtures, and the individual `test_*` functions of the manual script. For `main`, only how its outcome becomes the exit code is modelled.
- JSON numbers are integers. A float id such as `1.0`, which Python treats as equal to `1`, is not represented.
- CamelCase.TitleFrom: `str.title()` is modelled for ASCII only; other characters are treated as uncased.
- CamelCase.CamelCaseCharacterwise: the character-wise reading is proved for lower-case-and-underscore input only. On other input, `title()` also lowers capitals after the first letter of each piece.
- CamelCase.CamelCaseRoundTrip: proved for Python snake_case names only. A name with `__`, a trailing `_` or capitals does not round-trip; for example, `a__b` and `a_b` both become `aB`.
- Params.CallFunctionParams: the parameter values are stated in `Params.CallFunctionFixedValues`, `Params.ApplyKwargsKeepsOthers` and `Params.ApplyKwargsLastWins`, not in this member's own contract.
- Session.HandlerIsolation: only handlers that raise an `Exception` subclass are modelled. A handler that raises `asyncio.CancelledError` escapes the `except Exception` around it, and the outer handler swallows it, so the loop ends silently. No later handler runs and no later response is routed. The oracle has no such third outcome.
- Session.Calls: as for `Session.HandlerIsolation`, a handler raising `asyncio.CancelledError` would stop the later handlers; this is not modelled.
- ManualTester.Send: a `recv` that fails for reasons other than the stream ending, and a `send` that fails, are not modelled.
