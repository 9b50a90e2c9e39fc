/**
  The service as a whole: the three kinds of input the reactor serialises
  (a work message on the service address, a half-second tick, a control
  message), runs over input sequences, and the properties every run keeps.
 */
module Service {
  import opened Wrappers
  import opened Messages
  import opened Dispatch
  import opened Control

  /** One input to the service's single event loop. */
  datatype Input =
    | Arrival(delivery: Delivery, msg: WorkMessage)
    | TimerTick
    | ControlArrival(cmsg: ControlMessage)

  /** Handling this input ends the process: a recognised control opcode
      with a reply address raises NameError in the reply block, and nothing
      around the event loop catches it. */
  predicate Fatal(e: Input) {
    e.ControlArrival? && Recognized(e.cmsg) && Truthy(e.cmsg.replyTo)
  }

  /** Some input of `es` has ended the process. */
  predicate Halted(es: seq<Input>) {
    exists i :: 0 <= i < |es| && Fatal(es[i])
  }

  /** Handles one input: `on_message` on the service address admits, the
      timer ticks, `on_message` on the control address runs the control
      handler as written, which never sends anything (for a fatal input its
      state change has taken effect before it raises). */
  function OnEvent(env: Env, s: State, e: Input): (r: Step)
    ensures !e.ControlArrival? ==> r.state.rate == s.rate
    ensures !e.ControlArrival? ==> r.state.requests == [] || r.state.canProcess <= 0
    ensures e.ControlArrival? ==>
      r.trace == [] && r.state.canProcess == s.canProcess && r.state.requests == s.requests
  {
    match e
    case Arrival(d, m) => Admit(env, s, d, m)
    case TimerTick => Tick(env, s)
    case ControlArrival(m) => Step(HandleControl(s, m).0, [])
  }

  /** The state after a sequence of inputs and everything emitted on the way.
      Inputs after a fatal one are never handled. */
  function Run(env: Env, s: State, es: seq<Input>): (r: Step)
    ensures (forall i :: 0 <= i < |es| ==> !es[i].ControlArrival?) ==> r.state.rate == s.rate
    ensures (forall i :: 0 <= i < |es| ==> es[i].ControlArrival?) ==>
      r.trace == [] && r.state.canProcess == s.canProcess && r.state.requests == s.requests
    decreases |es|
  {
    if |es| == 0 then Step(s, [])
    else
      var init := es[..|es| - 1];
      assert forall i :: 0 <= i < |init| ==> init[i] == es[i];
      var before := Run(env, s, init);
      if Halted(init) then before
      else
        var last := OnEvent(env, before.state, es[|es| - 1]);
        Step(last.state, before.trace + last.trace)
  }

  /** The delivery handles of the work messages the process handled, in order. */
  function Arrivals(es: seq<Input>): seq<Delivery>
    decreases |es|
  {
    if |es| == 0 then []
    else if Halted(es[..|es| - 1]) then Arrivals(es[..|es| - 1])
    else Arrivals(es[..|es| - 1]) + (if es[|es| - 1].Arrival? then [es[|es| - 1].delivery] else [])
  }

  /** A state between events: the quota is never negative and a request
      only waits while the quota is exhausted. */
  predicate Settled(s: State) {
    && s.rate >= 0
    && s.canProcess >= 0
    && (|s.requests| > 0 ==> s.canProcess == 0)
  }

  // ---------------------------------------------------------------------------
  // One event

  /** Every input keeps a settled state settled, and a positive rate positive. */
  lemma OnEventSettled(env: Env, s: State, e: Input)
    requires Settled(s)
    ensures Settled(OnEvent(env, s, e).state)
    ensures s.rate > 0 ==> OnEvent(env, s, e).state.rate > 0
  {
    match e
    case Arrival(d, m) =>
      if s.canProcess > 0 {
        AdmitWhenSettled(env, s, d, m);
      }
    case TimerTick =>
    case ControlArrival(m) =>
  }

  /** In a settled state with quota left nothing is pending, so a new work
      message is answered and accepted at once and nothing stays pending. */
  lemma AdmitWhenSettled(env: Env, s: State, d: Delivery, m: WorkMessage)
    requires Settled(s) && s.canProcess > 0
    ensures var r := Admit(env, s, d, m);
      && r.trace == [Send(Response(env, MakeRequest(env, d, m))), Accept(d)]
      && r.state == State(s.rate, s.canProcess - 1, [])
  {
    var s' := s.(canProcess := s.canProcess - 1);
    assert s.requests == [];
    assert Drain(env, s') == Step(s', []);
  }

  /** Appending traces appends their accepted deliveries. */
  lemma {:induction false} AcceptedAppend(a: seq<Event>, b: seq<Event>)
    ensures Accepted(a + b) == Accepted(a) + Accepted(b)
    decreases |a|
  {
    if |a| == 0 {
      assert a + b == b;
    } else {
      assert (a + b)[1..] == a[1..] + b;
      AcceptedAppend(a[1..], b);
    }
  }

  /** No input loses or duplicates a request: the deliveries pending before,
      plus the one arriving, equal those pending after plus those accepted. */
  lemma OnEventConserves(env: Env, s: State, e: Input)
    ensures var r := OnEvent(env, s, e);
      multiset(Deliveries(s.requests)) + multiset(Arrivals([e]))
      == multiset(Deliveries(r.state.requests)) + multiset(Accepted(r.trace))
  {
    assert [e][..0] == [];
    assert Arrivals([e]) == if e.Arrival? then [e.delivery] else [];
    match e
    case Arrival(d, m) => AdmitConserves(env, s, d, m);
    case TimerTick => DrainConserves(env, s.(canProcess := s.rate / 2));
    case ControlArrival(m) => ControlConserves(env, s, m);
  }

  /** Admission adds the new delivery to those pending, then drains. */
  lemma AdmitConserves(env: Env, s: State, d: Delivery, m: WorkMessage)
    ensures var r := Admit(env, s, d, m);
      multiset(Deliveries(s.requests)) + multiset([d])
      == multiset(Deliveries(r.state.requests)) + multiset(Accepted(r.trace))
  {
    var pushed := s.(requests := s.requests + [MakeRequest(env, d, m)]);
    DrainConserves(env, pushed);
    assert Deliveries(pushed.requests) == Deliveries(s.requests) + [d];
  }

  /** A control message never accepts a delivery nor touches those pending. */
  lemma ControlConserves(env: Env, s: State, m: ControlMessage)
    ensures var r := OnEvent(env, s, ControlArrival(m));
      r.state.requests == s.requests && Accepted(r.trace) == []
  {
  }

  // ---------------------------------------------------------------------------
  // Runs

  /** Starting from the initial state with a non-negative rate, every
      reachable state is settled; a positive initial rate stays positive. */
  lemma {:induction false} RunSettled(env: Env, rate: int, es: seq<Input>)
    requires rate >= 0
    ensures Settled(Run(env, Init(rate), es).state)
    ensures rate > 0 ==> Run(env, Init(rate), es).state.rate > 0
    decreases |es|
  {
    if |es| > 0 {
      RunSettled(env, rate, es[..|es| - 1]);
      if !Halted(es[..|es| - 1]) {
        OnEventSettled(env, Run(env, Init(rate), es[..|es| - 1]).state, es[|es| - 1]);
      }
    }
  }

  /** Over any run nothing is lost or duplicated: the deliveries pending at
      the start plus those that arrived equal those still pending plus those
      accepted. */
  lemma {:induction false} RunConserves(env: Env, s: State, es: seq<Input>)
    ensures var r := Run(env, s, es);
      multiset(Deliveries(s.requests)) + multiset(Arrivals(es))
      == multiset(Deliveries(r.state.requests)) + multiset(Accepted(r.trace))
    decreases |es|
  {
    if |es| > 0 && Halted(es[..|es| - 1]) {
      RunConserves(env, s, es[..|es| - 1]);
    } else if |es| > 0 {
      var init := es[..|es| - 1];
      var e := es[|es| - 1];
      var before := Run(env, s, init);
      var last := OnEvent(env, before.state, e);
      assert Run(env, s, es) == Step(last.state, before.trace + last.trace);
      ArrivalsLast(es);
      RunConserves(env, s, init);
      OnEventConserves(env, before.state, e);
      AcceptedAppend(before.trace, last.trace);
      calc {
        multiset(Deliveries(s.requests)) + multiset(Arrivals(es));
        multiset(Deliveries(s.requests)) + multiset(Arrivals(init)) + multiset(Arrivals([e]));
        multiset(Deliveries(before.state.requests)) + multiset(Accepted(before.trace)) + multiset(Arrivals([e]));
        multiset(Deliveries(last.state.requests)) + multiset(Accepted(last.trace)) + multiset(Accepted(before.trace));
        multiset(Deliveries(last.state.requests)) + multiset(Accepted(before.trace + last.trace));
      }
    }
  }

  /** Until the process ends, the arrivals of a run split at its last input. */
  lemma ArrivalsLast(es: seq<Input>)
    requires |es| > 0 && !Halted(es[..|es| - 1])
    ensures Arrivals(es) == Arrivals(es[..|es| - 1]) + Arrivals([es[|es| - 1]])
  {
    assert [es[|es| - 1]][..0] == [];
  }

  /** Once a fatal input has been handled, the process is gone: further
      inputs change neither the state, the trace nor the arrivals. */
  lemma {:induction false} RunHaltedIgnoresRest(env: Env, s: State, es: seq<Input>, more: seq<Input>)
    requires Halted(es)
    ensures Run(env, s, es + more) == Run(env, s, es)
    ensures Arrivals(es + more) == Arrivals(es)
    decreases |more|
  {
    if |more| == 0 {
      assert es + more == es;
    } else {
      var prefix := es + more[..|more| - 1];
      assert (es + more)[..|es + more| - 1] == prefix;
      var i :| 0 <= i < |es| && Fatal(es[i]);
      assert prefix[i] == es[i];
      RunHaltedIgnoresRest(env, s, es, more[..|more| - 1]);
    }
  }

  /** A fatal control input still applies its rate change, emits nothing,
      and ends the process. */
  lemma RunFatalControl(env: Env, s: State, es: seq<Input>, m: ControlMessage)
    requires !Halted(es) && Fatal(ControlArrival(m))
    ensures var before := Run(env, s, es); var r := Run(env, s, es + [ControlArrival(m)]);
      && r.trace == before.trace
      && r.state == HandleControl(before.state, m).0
      && HandleControl(before.state, m).1 == RaisesNameError
      && Halted(es + [ControlArrival(m)])
  {
    var es' := es + [ControlArrival(m)];
    assert es'[..|es'| - 1] == es;
    assert es'[|es|] == ControlArrival(m);
  }

  /** With distinct delivery handles, no delivery is ever accepted twice,
      and only deliveries that were pending or arrived are accepted. */
  lemma RunAcceptsAtMostOnce(env: Env, s: State, es: seq<Input>, d: Delivery)
    requires Distinct(Deliveries(s.requests) + Arrivals(es))
    ensures var r := Run(env, s, es);
      && multiset(Accepted(r.trace))[d] <= 1
      && (d in Accepted(r.trace) ==> d in Deliveries(s.requests) + Arrivals(es))
  {
    var r := Run(env, s, es);
    var all := Deliveries(s.requests) + Arrivals(es);
    RunConserves(env, s, es);
    assert multiset(all) == multiset(Deliveries(r.state.requests)) + multiset(Accepted(r.trace));
    assert multiset(Accepted(r.trace))[d] <= multiset(all)[d];
    if d in all {
      var j :| 0 <= j < |all| && all[j] == d;
      DistinctOccursOnce(all, j);
    } else {
      assert multiset(all)[d] == 0;
    }
    if d in Accepted(r.trace) {
      assert multiset(all)[d] > 0;
    }
  }

  // ---------------------------------------------------------------------------
  // Scenarios

  /** Requests A, B, C pending and a quota of 2: C is answered, then B, and A
      stays pending. */
  lemma LifoScenario(env: Env, a: Req, b: Req, c: Req)
    ensures var r := Drain(env, State(4, 2, [a, b, c]));
      && r.trace == [Send(Response(env, c)), Accept(c.delivery), Send(Response(env, b)), Accept(b.delivery)]
      && r.state == State(4, 0, [a])
  {
    var s := State(4, 2, [a, b, c]);
    assert Served(s) == [b, c];
    assert Kept(s) == [a];
    assert Reverse([b, c]) == [c, b] by {
      assert [b, c][..1] == [b];
    }
    assert [c, b][1..] == [b];
  }

  /** With rate 2 (a quota of 1 per tick) and A, B, C pending, the first tick
      answers C, the second answers B, and A is still pending. */
  lemma CarryoverScenario(env: Env, a: Req, b: Req, c: Req)
    ensures var first := Tick(env, State(2, 0, [a, b, c]));
      && first.trace == [Send(Response(env, c)), Accept(c.delivery)]
      && first.state == State(2, 0, [a, b])
      && var second := Tick(env, first.state);
      && second.trace == [Send(Response(env, b)), Accept(b.delivery)]
      && second.state == State(2, 0, [a])
  {
    var s1 := State(2, 1, [a, b, c]);
    assert Served(s1) == [c] && Kept(s1) == [a, b];
    var s2 := State(2, 1, [a, b]);
    assert Served(s2) == [b] && Kept(s2) == [a];
  }

  /** A work message without a reply address is still answered (to no
      address), accepted, and charged one unit of quota. */
  lemma MissingReplyToScenario(env: Env, s: State, d: Delivery, body: string)
    requires Settled(s) && s.canProcess > 0
    ensures var r := Admit(env, s, d, WorkMessage(body, None, None));
      && |r.trace| == 2
      && r.trace[0].Send? && r.trace[0].msg.address == None
      && r.trace[1] == Accept(d)
      && r.state.canProcess == s.canProcess - 1
  {
    AdmitWhenSettled(env, s, d, WorkMessage(body, None, None));
  }
}
