/**
  The control handler of the service: `SET_RATE` changes the configured rate
  when the requested rate is positive, `GET_RATE` changes nothing, and every
  other opcode is ignored. Nothing here touches the quota or the pending
  requests.

  As written, the reply block that follows a recognised opcode stores into a
  dictionary that is never defined, so whenever the message names a reply
  address the handler raises NameError instead of replying; `HandleControl`
  models that, and `HandleControlWithReply` models the evidently intended
  reply.
 */
module Control {
  import opened Wrappers
  import opened Messages
  import opened Dispatch

  /** A message received on the control address: its `opcode` and `rate`
      properties (the rate already parsed to an integer) and the fields a
      reply would use. */
  datatype ControlMessage = ControlMessage(
    opcode: Option<string>,
    rate: Option<int>,
    correlationId: Option<string>,
    replyTo: Option<string>)

  const SetRate: string := "SET_RATE"
  const GetRate: string := "GET_RATE"

  /** The version tag a control reply carries under "api". */
  const ControlApi: string := "amq-demo.server-control.v1"

  /** How the handler, as written, ends: it returns early for an unknown
      opcode, completes for a recognised one without a reply address, and
      raises NameError in the reply block otherwise. */
  datatype Outcome = Ignored | Completed | RaisesNameError

  /** Python truthiness of an optional string: absent and empty are false. */
  predicate Truthy(a: Option<string>) {
    a.Some? && a.value != ""
  }

  predicate Recognized(m: ControlMessage) {
    m.opcode == Some(SetRate) || m.opcode == Some(GetRate)
  }

  /** The `rate` property, 0 when absent. */
  function RequestedRate(m: ControlMessage): int {
    m.rate.GetOr(0)
  }

  /** `handle_control_request` as written. */
  function HandleControl(s: State, m: ControlMessage): (r: (State, Outcome))
    ensures r.0.canProcess == s.canProcess && r.0.requests == s.requests
    ensures m.opcode == Some(SetRate) && RequestedRate(m) > 0 ==> r.0.rate == RequestedRate(m)
    ensures !(m.opcode == Some(SetRate) && RequestedRate(m) > 0) ==> r.0.rate == s.rate
    ensures r.1 == Ignored <==> !Recognized(m)
    ensures r.1 == RaisesNameError <==> Recognized(m) && Truthy(m.replyTo)
  {
    var rate := RequestedRate(m);
    var after := if m.opcode == Some(SetRate) && rate > 0 then s.(rate := rate) else s;
    if !Recognized(m) then (s, Ignored)
    else if Truthy(m.replyTo) then (after, RaisesNameError)
    else (after, Completed)
  }

  /** The reply a recognised control message evidently should get: the api
      tag, the echoed opcode, the resulting rate and the location, sent to
      the message's reply address with its correlation id. */
  function ControlReply(env: Env, opcode: string, m: ControlMessage, rate: int): (o: Outbound)
    ensures o.body == None && o.address == m.replyTo && o.correlationId == m.correlationId
    ensures o.properties.Keys == {"api", "opcode", "rate", LocationKey}
    ensures o.properties["api"] == Str(ControlApi) && o.properties["opcode"] == Str(opcode)
    ensures o.properties["rate"] == Int(rate) && o.properties[LocationKey] == Str(env.location)
  {
    Outbound(None, m.replyTo, m.correlationId,
      map["api" := Str(ControlApi), "opcode" := Str(opcode), "rate" := Int(rate), LocationKey := Str(env.location)])
  }

  /** The handler with the reply block corrected: same state change, and a
      reply exactly when the opcode is recognised and a reply address given. */
  function HandleControlWithReply(env: Env, s: State, m: ControlMessage): (r: (State, Option<Outbound>))
    ensures r.0 == HandleControl(s, m).0
    ensures r.1.Some? <==> Recognized(m) && Truthy(m.replyTo)
    ensures r.1.Some? ==>
      && m.opcode.Some?
      && r.1.value.address == m.replyTo
      && r.1.value.correlationId == m.correlationId
      && r.1.value.properties.Keys == {"api", "opcode", "rate", LocationKey}
      && r.1.value.properties["api"] == Str(ControlApi)
      && r.1.value.properties["opcode"] == Str(m.opcode.value)
      && r.1.value.properties["rate"] == Int(r.0.rate)
      && r.1.value.properties[LocationKey] == Str(env.location)
  {
    var (after, outcome) := HandleControl(s, m);
    if outcome == RaisesNameError then (after, Some(ControlReply(env, m.opcode.value, m, after.rate)))
    else (after, None)
  }

  /** A positive rate stays positive whatever control message arrives. */
  lemma RatePositivePreserved(s: State, m: ControlMessage)
    requires s.rate > 0
    ensures HandleControl(s, m).0.rate > 0
  {
  }

  /** Only a `SET_RATE` can change anything, and only the rate. */
  lemma OnlySetRateChangesState(s: State, m: ControlMessage)
    ensures m.opcode != Some(SetRate) ==> HandleControl(s, m).0 == s
    ensures HandleControl(s, m).0 == s.(rate := HandleControl(s, m).0.rate)
  {
  }

  /** The discrepancy: for every recognised opcode with a reply address the
      handler as written raises before sending anything, while the corrected
      handler replies with the same resulting state. */
  lemma ReplyBlockRaises(env: Env, s: State, m: ControlMessage)
    requires Recognized(m) && Truthy(m.replyTo)
    ensures HandleControl(s, m).1 == RaisesNameError
    ensures HandleControlWithReply(env, s, m).1.Some?
    ensures HandleControlWithReply(env, s, m).0 == HandleControl(s, m).0
  {
  }

  /** A concrete instance: a `GET_RATE` query naming reply address "ctl". */
  lemma GetRateQueryRaises(env: Env, s: State)
    ensures var m := ControlMessage(Some(GetRate), None, Some("q1"), Some("ctl"));
      && HandleControl(s, m) == (s, RaisesNameError)
      && HandleControlWithReply(env, s, m).1 == Some(ControlReply(env, GetRate, m, s.rate))
  {
  }

  /** Rate changes on invalid input leave the rate alone; a valid one sets it
      and a following query reports it. */
  lemma SetRateExamples(s: State)
    ensures HandleControl(s, ControlMessage(Some(SetRate), Some(0), None, None)).0.rate == s.rate
    ensures HandleControl(s, ControlMessage(Some(SetRate), Some(-5), None, None)).0.rate == s.rate
    ensures HandleControl(s, ControlMessage(Some(SetRate), None, None, None)).0.rate == s.rate
    ensures HandleControl(s, ControlMessage(Some(SetRate), Some(50), None, None)).0.rate == 50
    ensures HandleControl(s, ControlMessage(Some("FROBNICATE"), Some(50), None, Some("ctl"))) == (s, Ignored)
  {
  }
}
