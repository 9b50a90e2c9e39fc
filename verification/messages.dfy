/**
  The messages the service exchanges: an inbound work message, the pending
  request built from it, the outbound reply, and the transport events the
  dispatcher produces (sending a message and accepting a delivery).
 */
module Messages {
  import opened Wrappers

  /** An inbound delivery handle; only its identity matters to the service. */
  type Delivery = nat

  /** The configuration fixed when the service starts: the host name that
      annotates every reply body, and the location label carried in reply
      properties. */
  datatype Env = Env(host: string, location: string)

  /** A work message as received on the service address. */
  datatype WorkMessage = WorkMessage(body: string, correlationId: Option<string>, replyTo: Option<string>)

  /** A value in a message's application properties. */
  datatype Value = Str(s: string) | Int(i: int)

  /** An outbound message; a missing address or body stays `None`. */
  datatype Outbound = Outbound(
    body: Option<string>,
    address: Option<string>,
    correlationId: Option<string>,
    properties: map<string, Value>)

  /** A pending request: the annotated body, the echoed correlation id,
      the reply address and the delivery still to be accepted. */
  datatype Req = Req(body: string, cid: Option<string>, replyTo: Option<string>, delivery: Delivery)

  /** What the dispatcher hands to the transport. */
  datatype Event = Send(msg: Outbound) | Accept(delivery: Delivery)

  /** The processing annotation appended to every request body, before the host name. */
  const Annotation: string := "\nProcessed by service running on "

  /** The property key under which a work reply carries the service location. */
  const LocationKey: string := "location"

  /** Builds the pending request for a message received with delivery `d`;
      the annotation is appended here, at admission, not when replying. */
  function MakeRequest(env: Env, d: Delivery, m: WorkMessage): (r: Req)
    ensures r.delivery == d && r.cid == m.correlationId && r.replyTo == m.replyTo
    ensures StripAnnotation(env.host, r.body) == Some(m.body)
  {
    var r := Req(m.body + Annotation + env.host, m.correlationId, m.replyTo, d);
    StripAfterAppend(env.host, m.body);
    r
  }

  /** The reply for a pending request: its body, sent to its reply address
      (even when that is absent) with its correlation id and the location. */
  function Response(env: Env, req: Req): (o: Outbound)
    ensures o.body == Some(req.body)
    ensures o.address == req.replyTo && o.correlationId == req.cid
    ensures o.properties.Keys == {LocationKey} && o.properties[LocationKey] == Str(env.location)
  {
    Outbound(Some(req.body), req.replyTo, req.cid, map[LocationKey := Str(env.location)])
  }

  /** Recovers the original body from an annotated one, if it carries the
      annotation for `host` at its end. */
  function StripAnnotation(host: string, body: string): (r: Option<string>)
    ensures r.Some? <==> exists k :: 0 <= k <= |body| && body[k..] == Annotation + host
    ensures r.Some? ==> r.value + Annotation + host == body
  {
    var suffix := Annotation + host;
    if |suffix| <= |body| && body[|body| - |suffix|..] == suffix then
      assert body[..|body| - |suffix|] + suffix == body;
      Some(body[..|body| - |suffix|])
    else
      assert forall k :: 0 <= k <= |body| && body[k..] == suffix ==> k == |body| - |suffix|;
      None
  }

  /** Stripping undoes appending the annotation. */
  lemma StripAfterAppend(host: string, body: string)
    ensures StripAnnotation(host, body + Annotation + host) == Some(body)
  {
    var b := body + Annotation + host;
    var suffix := Annotation + host;
    assert b == body + suffix;
    assert b[|b| - |suffix|..] == suffix;
    assert b[..|b| - |suffix|] == body;
  }

  /** A work reply echoes the request's correlation id, goes to its reply
      address, carries the location, and its body is the original body
      followed by the annotation naming the host. */
  lemma ReplyEchoesRequest(env: Env, d: Delivery, m: WorkMessage)
    ensures var o := Response(env, MakeRequest(env, d, m));
      && o.correlationId == m.correlationId
      && o.address == m.replyTo
      && o.properties[LocationKey] == Str(env.location)
      && o.body.Some?
      && StripAnnotation(env.host, o.body.value) == Some(m.body)
      && o.body.value == m.body + Annotation + env.host
  {
  }
}
