# Rate-limited request relay: a Dafny model of its dispatcher

The service (`server/service.py`) receives work requests on the
`FraudDetection/v1` address. It appends to each request body a note naming
the host it runs on, and sends a reply to the request's `reply_to` address,
echoing its `correlation_id`. It never replies faster than a configured
rate allows. A second, control address lets an operator read or change that
rate.

Three inputs reach the service's single event loop:

- **A work message.** `on_message` on the service receiver pushes a
  `Request` onto `requests` and then runs `process_requests`.
- **A half-second tick.** `tick` refills the quota `can_process` to
  `rate / 2` and then runs `process_requests`.
- **A control message.** `handle_control_request` handles `SET_RATE` (only
  a positive rate is taken), `GET_RATE` (no change) and every other opcode
  (ignored).

`process_requests` pops requests off the end of the list while quota
remains. Requests are therefore served newest first (LIFO). For each popped
request it sends the reply, accepts the request's delivery and spends one
unit of quota.

The model is functional. The dispatcher state
`State(rate, canProcess, requests)` is an immutable value, with `requests`
a sequence used as a stack. Each transition returns the new state and the
trace of transport events it produced. A trace event is `Send(message)` or
`Accept(delivery)`.

Modules:

- `wrappers.dfy` (`Wrappers`): optional values.
- `messages.dfy` (`Messages`): the inbound work message, the pending
  request `Req`, the outbound message, trace events, and how the reply is
  built.
- `dispatch.dfy` (`Dispatch`): the state and the transitions. `Drain` is
  the recursive form of `process_requests` and `ProcessRequests` is its
  loop form. It also holds `Admit`, `Tick`, and the drain properties:
  count, LIFO order, pairing, conservation and exactly-once acceptance.
- `control.dfy` (`Control`): `handle_control_request` as written, and a
  corrected form of its reply block (see Findings).
- `service.dfy` (`Service`): one input step, runs over input sequences,
  the invariants every reachable state keeps, conservation over a run, and
  the worked scenarios.

`rate / 2` is modelled as Dafny's `rate / 2`. The source imports from
`__future__` only `print_function`, so under Python 2 `/` on integers is
floor division. For the divisor 2, floor division and Dafny's Euclidean
division agree on every integer, negative rates included.

Three behaviours of the code worth noting:

- **Work message without `reply_to`.** The code still sends the reply,
  with `address = None` (server/service.py:43, 46). It does not drop the
  reply (`Service.MissingReplyToScenario`).
- **Control replies.** The code never sends one successfully. A
  recognised opcode with a reply address raises NameError, which nothing
  catches, so the process ends (see Findings). Runs in `Service` model
  exactly that: the rate change of such a message takes effect, nothing is
  sent, and no later input is handled.
- **Initial rate.** The code does not validate it
  (server/service.py:53, 57). The invariants are therefore stated on
  condition of the initial rate: `rate >= 0` for the quota invariants, and
  `rate > 0` to keep the rate positive.

## Model

| member | source | states |
|---|---|---|
| `Messages.MakeRequest` | server/service.py:37-43 | The request keeps the message's delivery, correlation id and reply address unchanged, and its body is the original body followed by the annotation for the host; stripping that annotation gives back the original body. |
| `Messages.Response` | server/service.py:45-46 | The reply carries the request's body, is addressed to its reply address (absent stays absent), echoes its correlation id, and has the single property `location` set to the service location. |
| `Messages.StripAfterAppend` | server/service.py:40 | Round trip: removing the processing annotation from an annotated body gives back exactly the original body. |
| `Messages.ReplyEchoesRequest` | server/service.py:40-46 | End to end from inbound message to reply: the correlation id is echoed, the reply goes to the message's `reply_to`, it carries the location, and its body is the original body plus the annotation naming the host. |
| `Dispatch.Init` | server/service.py:53-57 | The initial state holds the given rate and no pending requests. Its quota is half the rate rounded down (`2q <= rate < 2q + 2`), which lies between 0 and the rate when the rate is non-negative. |
| `Dispatch.Drain` | server/service.py:60-65 | A drain serves exactly `DispatchCount` requests, the newest ones. It lowers the quota by that many and leaves the older requests pending in their order. Its trace serves the popped requests newest first, each as a reply followed by its acceptance. Afterwards the stack is empty or the quota is at most 0, and a non-negative quota stays non-negative. |
| `Dispatch.ProcessRequests` | server/service.py:60-65 | The while loop, written as in the source, gives the same rate, quota, remaining stack and trace as the closed-form description, so it equals `Drain`. |
| `Dispatch.Admit` | server/service.py:112-113 | With quota left, the new request is served first (its reply, then its acceptance), and the older stack is then drained with one unit less. Without quota it waits on top of the stack and nothing is emitted. |
| `Dispatch.Tick` | server/service.py:67-77 | The rate is unchanged. The quota is refilled to `rate / 2` whatever its prior value, and the refilled state is then drained. The stack keeps its older requests in order, the newest `DispatchCount` are served newest first (each reply followed by its acceptance), and the quota ends as `rate / 2` minus the number served. For a non-negative rate the quota stays between 0 and `rate / 2`. Afterwards the stack is empty or the quota is at most 0. |
| `Dispatch.TickIgnoresQuota` | server/service.py:72 | A tick's outcome does not depend on the quota left over from the previous period. |
| `Dispatch.DrainCount` | server/service.py:61-65 | With a non-negative quota, a drain serves min(quota, pending) requests, removes that many from the stack, emits two events per request, and leaves the quota non-negative. |
| `Dispatch.DrainLifo` | server/service.py:62-64 | LIFO order and pairing: the j-th pending request, when among those served, gets its reply at trace position 2(n-1-j), and its delivery is accepted at the next position. |
| `Dispatch.DrainConserves` | server/service.py:60-65 | No request is lost or duplicated: the pending deliveries before a drain equal, as a multiset, those pending after plus those accepted. |
| `Dispatch.DrainAcceptsOnce` | server/service.py:62-64 | With distinct delivery handles, each served request's delivery is accepted exactly once, and no still-pending request's delivery is accepted. |
| `Control.HandleControl` | server/service.py:88-100 | The quota and the stack are never touched. `SET_RATE` with a positive rate sets the rate to it, and any other message leaves the rate unchanged (an absent rate counts as 0). An unrecognised opcode returns early. A recognised opcode with a truthy `reply_to` reaches the reply block, which raises. |
| `Control.ControlReply` | server/service.py:100-104 | The intended control reply: no body, sent to the message's reply address with its correlation id, and carrying exactly the properties `api` (the version tag), `opcode`, `rate` and `location`. |
| `Control.HandleControlWithReply` | server/service.py:99-105 | Corrected reply block. The state change is the same as `HandleControl`'s. A reply is made exactly for a recognised opcode with a truthy `reply_to`; it goes to that address with the correlation id and carries the api tag, the echoed opcode, the resulting rate and the location. |
| `Control.RatePositivePreserved` | server/service.py:91-93 | No control message can make a positive rate non-positive. |
| `Control.OnlySetRateChangesState` | server/service.py:88-97 | A message whose opcode is not `SET_RATE` changes nothing, and any control message changes at most the rate. |
| `Control.ReplyBlockRaises` | server/service.py:99-105 | For every recognised opcode with a reply address, the handler as written raises before sending anything. The corrected handler replies with the same resulting state. |
| `Control.GetRateQueryRaises` | server/service.py:94-100 | Concrete case: a `GET_RATE` query with reply address "ctl" leaves the state unchanged and raises NameError as written; the corrected handler replies with the current rate. |
| `Control.SetRateExamples` | server/service.py:90-97 | `SET_RATE` with 0, with -5 or with no rate leaves the rate unchanged; with 50 it sets the rate to 50. An unknown opcode `FROBNICATE` changes nothing and is ignored. |
| `Service.OnEvent` | server/service.py:107-118 | Only a control message can change the rate. A control message emits nothing and touches neither the quota nor the stack. After a work message or a tick, the stack is empty or the quota is at most 0. |
| `Service.Run` | server/service.py:107-118 | Over a sequence of inputs handled one at a time, the rate changes only if some input is a control message. A sequence of control messages alone emits nothing and leaves the quota and the stack untouched. |
| `Service.RunHaltedIgnoresRest` | server/service.py:99-100 | Once a recognised control message with a reply address has raised, the process is gone: later inputs change neither the state, the trace nor the handled arrivals. |
| `Service.RunFatalControl` | server/service.py:88-100 | Such a fatal control message still applies its rate change, since the assignment at line 93 comes before the raise. It emits nothing and ends the run. |
| `Service.OnEventSettled` | server/service.py:107-118 | Every input keeps a settled state settled and a positive rate positive. Settled means a non-negative rate, a non-negative quota, and requests waiting only when the quota is 0. |
| `Service.AdmitWhenSettled` | server/service.py:112-113 | In a settled state with quota left, a new work message is answered and accepted at once, one unit of quota is spent, and nothing stays pending. |
| `Service.OnEventConserves` | server/service.py:107-118 | For any single input, the deliveries pending before plus the one arriving equal those pending after plus those accepted. |
| `Service.AdmitConserves` | server/service.py:112-113 | Admission adds exactly the new delivery to the pending multiset before draining. |
| `Service.ControlConserves` | server/service.py:88-97 | A control message leaves the pending requests unchanged and accepts no delivery. |
| `Service.RunSettled` | server/service.py:53-57 | From the initial state (quota `rate / 2`, nothing pending) with a non-negative rate, every reachable state is settled, and a positive initial rate stays positive forever. |
| `Service.RunConserves` | server/service.py:60-65 | Over any run, the deliveries pending at the start plus those of the work messages handled equal those still pending plus those accepted. |
| `Service.RunAcceptsAtMostOnce` | server/service.py:62-64 | With distinct delivery handles, no delivery is ever accepted twice over a run, and only deliveries that were pending or arrived are accepted. |
| `Service.LifoScenario` | server/service.py:60-65 | With A, B, C pending and a quota of 2, C is served, then B, and A stays pending with a quota of 0. |
| `Service.CarryoverScenario` | server/service.py:67-77 | With rate 2 and A, B, C pending, the first tick serves C, the second serves B, and A is still pending. |
| `Service.MissingReplyToScenario` | server/service.py:43-46 | A work message without `reply_to` is still answered (to no address), accepted, and charged one unit of quota. |

## Left out

- Transport plumbing is not modelled: the container, reactor, connection,
  receivers, the anonymous sender and `auto_accept = False`
  (server/service.py:22-24, 51, 79-86). Sending and accepting appear only
  as trace events, so a failed send is not modelled.
- Timer scheduling and the `Timer` callback (server/service.py:28-33, 71, 83)
  are not modelled. A tick is an abstract input.
- Process startup and environment lookups (server/service.py:120-131) are
  not modelled. The initial rate is a parameter of `Dispatch.Init`.
- `os.uname()[1]` is the opaque `host` of `Messages.Env`. The request's
  `start` timestamp (server/service.py:41) never affects behaviour and is
  dropped.
- Parsing of the control `rate` property with `int(...)` (server/service.py:90)
  is not modelled. The rate arrives as an already-parsed optional integer,
  with 0 when absent. A non-numeric value would raise for every opcode.
- Python 3 semantics of `self.rate / 2` (server/service.py:57, 72) are not
  modelled; the model uses Python 2 integer division. Under Python 3 the
  quota would be a float. For an odd rate, each period could then serve up to
  `(rate + 1) / 2` requests, which can leave a quota of -0.5.
- `Control.HandleControl` does not represent a control message that has
  no application properties. At server/service.py:89 `msg.properties` is
  then None, and `.get` raises AttributeError for every opcode.
  `ControlMessage` always has properties, so that case folds into "opcode
  absent" and is reported as `Ignored`. The state is unchanged either way,
  but the model does not end the process for it.
- `Service.Run` models the uncaught NameError only as the end of input
  handling. Later inputs are not handled. What the reactor does on the way
  out is not modelled, for example closing the connection or leaving
  pending deliveries unsettled.
- Message bodies are strings. A non-string body, for which the concatenation
  at server/service.py:40 would raise, is not modelled.
- Receivers other than the service and control receivers
  (server/service.py:107-118) are not modelled, since no other receiver is
  ever created.

## Findings

| source | as written | input that shows it | evidently intended | confidence | as-written member | corrected member |
|---|---|---|---|---|---|---|
| server/service.py:99-105 | The reply block stores into `response_properties`, which is never defined. For a recognised opcode with a reply address, the handler raises NameError after the rate change and sends no reply. | A control message with opcode `GET_RATE` and `reply_to` "ctl" | Reply to `reply_to` with the correlation id and properties `api`, `opcode`, the resulting `rate` and `location` | high; not executed | `Control.HandleControl`, `Control.GetRateQueryRaises` | `Control.HandleControlWithReply`, `Control.ReplyBlockRaises` |

`Service.OnEvent` and `Service.Run` use the handler as written. The
corrected handler reaches the same state (`Control.HandleControlWithReply`'s
first `ensures`) but also sends the reply, and the process would go on
handling inputs.
