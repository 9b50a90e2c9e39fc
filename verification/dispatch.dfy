/**
  The rate-limited dispatcher of the service: its state (configured rate,
  quota left in the current half-second period, pending requests kept as a
  stack), draining the stack against the quota, admitting a request and the
  periodic refill.
 */
module Dispatch {
  import opened Wrappers
  import opened Messages

  /** `rate` is the configured rate, `canProcess` the quota left in this
      period, `requests` the pending requests with the newest last. */
  datatype State = State(rate: int, canProcess: int, requests: seq<Req>)

  /** A new state together with what was handed to the transport, in order. */
  datatype Step = Step(state: State, trace: seq<Event>)

  /** The state right after construction: a quota of half the initial rate
      (Python 2 integer division, which is floor division like Dafny's for a
      divisor of 2) and no pending requests. */
  function Init(rate: int): (s: State)
    ensures s.rate == rate && s.requests == []
    ensures 2 * s.canProcess <= rate < 2 * s.canProcess + 2
    ensures rate >= 0 ==> 0 <= s.canProcess <= rate
  {
    State(rate, rate / 2, [])
  }

  /** The elements of `s` from last to first. */
  function Reverse<T>(s: seq<T>): (r: seq<T>)
    ensures |r| == |s|
  {
    if |s| == 0 then [] else [s[|s| - 1]] + Reverse(s[..|s| - 1])
  }

  /** The events for serving `rs` in order: each reply immediately followed
      by the acceptance of that request's delivery. */
  function Events(env: Env, rs: seq<Req>): (es: seq<Event>)
    ensures |es| == 2 * |rs|
  {
    if |rs| == 0 then []
    else [Send(Response(env, rs[0])), Accept(rs[0].delivery)] + Events(env, rs[1..])
  }

  /** The delivery handles of `rs`, in order. */
  function Deliveries(rs: seq<Req>): (ds: seq<Delivery>)
    ensures |ds| == |rs| && forall i :: 0 <= i < |rs| ==> ds[i] == rs[i].delivery
  {
    seq(|rs|, i requires 0 <= i < |rs| => rs[i].delivery)
  }

  /** The deliveries accepted in a trace, in order. */
  function Accepted(trace: seq<Event>): seq<Delivery> {
    if |trace| == 0 then []
    else (if trace[0].Accept? then [trace[0].delivery] else []) + Accepted(trace[1..])
  }

  /** How many requests a drain serves: the quota when positive, capped by
      the number pending. */
  function DispatchCount(s: State): (k: nat)
    ensures k <= |s.requests|
  {
    if s.canProcess <= 0 then 0
    else if s.canProcess < |s.requests| then s.canProcess
    else |s.requests|
  }

  /** The requests a drain serves: the newest `DispatchCount(s)` ones. */
  function Served(s: State): seq<Req> {
    s.requests[|s.requests| - DispatchCount(s)..]
  }

  /** The requests a drain leaves pending: all but the served ones, in their order. */
  function Kept(s: State): seq<Req> {
    s.requests[..|s.requests| - DispatchCount(s)]
  }

  /**
    `process_requests`: while quota remains and a request is pending, pop
    the newest request, send its reply, accept its delivery and spend one
    unit of quota.
   */
  function Drain(env: Env, s: State): (r: Step)
    ensures r.state.rate == s.rate
    ensures r.state.canProcess == s.canProcess - DispatchCount(s)
    ensures r.state.requests == Kept(s)
    ensures r.trace == Events(env, Reverse(Served(s)))
    ensures r.state.requests == [] || r.state.canProcess <= 0
    ensures s.canProcess >= 0 ==> r.state.canProcess >= 0
    decreases |s.requests|
  {
    if s.canProcess > 0 && |s.requests| > 0 then
      var n := |s.requests|;
      var req := s.requests[n - 1];
      var popped := State(s.rate, s.canProcess - 1, s.requests[..n - 1]);
      var rest := Drain(env, popped);
      PopStep(env, s);
      Step(rest.state, [Send(Response(env, req)), Accept(req.delivery)] + rest.trace)
    else
      Step(s, [])
  }

  /** One iteration of the drain loop: popping the newest request serves it
      first and leaves one fewer to serve from the rest. */
  lemma PopStep(env: Env, s: State)
    requires s.canProcess > 0 && |s.requests| > 0
    ensures var n := |s.requests|;
      var popped := State(s.rate, s.canProcess - 1, s.requests[..n - 1]);
      && DispatchCount(popped) == DispatchCount(s) - 1
      && Kept(popped) == Kept(s)
      && Events(env, Reverse(Served(s)))
         == [Send(Response(env, s.requests[n - 1])), Accept(s.requests[n - 1].delivery)] + Events(env, Reverse(Served(popped)))
  {
    var n := |s.requests|;
    var req := s.requests[n - 1];
    var popped := State(s.rate, s.canProcess - 1, s.requests[..n - 1]);
    var k := DispatchCount(s);
    assert DispatchCount(popped) == k - 1;
    assert Kept(popped) == Kept(s) by {
      assert s.requests[..n - 1][..n - k] == s.requests[..n - k];
    }
    assert Served(s) == Served(popped) + [req] by {
      assert s.requests[..n - 1][n - k..] == s.requests[n - k..n - 1];
    }
    ReverseSnoc(Served(popped), req);
    EventsCons(env, req, Reverse(Served(popped)));
  }

  /** Serving one request before `rs` emits its pair first. */
  lemma EventsCons(env: Env, req: Req, rs: seq<Req>)
    ensures Events(env, [req] + rs) == [Send(Response(env, req)), Accept(req.delivery)] + Events(env, rs)
  {
    assert ([req] + rs)[1..] == rs;
  }

  /** The loop of `process_requests`, written as the source writes it. */
  method ProcessRequests(env: Env, s: State) returns (r: Step)
    ensures r.state.rate == s.rate
    ensures r.state.canProcess == s.canProcess - DispatchCount(s)
    ensures r.state.requests == Kept(s)
    ensures r.trace == Events(env, Reverse(Served(s)))
    ensures r == Drain(env, s)
  {
    var requests := s.requests;
    var canProcess := s.canProcess;
    var trace: seq<Event> := [];
    while canProcess > 0 && |requests| > 0
      invariant |requests| <= |s.requests|
      invariant requests == s.requests[..|requests|]
      invariant canProcess == s.canProcess - (|s.requests| - |requests|)
      invariant |s.requests| - |requests| <= DispatchCount(s)
      invariant trace == Events(env, Reverse(s.requests[|requests|..]))
      decreases |requests|
    {
      var i := |requests|;
      var req := requests[i - 1];
      requests := requests[..i - 1];
      canProcess := canProcess - 1;
      LoopStep(env, s.requests, i);
      trace := trace + [Send(Response(env, req)), Accept(req.delivery)];
    }
    assert |s.requests| - |requests| == DispatchCount(s);
    assert requests == Kept(s) && s.requests[|requests|..] == Served(s);
    r := Step(State(s.rate, canProcess, requests), trace);
  }

  /** Popping one more request off the stack extends the trace by its pair. */
  lemma LoopStep(env: Env, rs: seq<Req>, i: int)
    requires 0 < i <= |rs|
    ensures Events(env, Reverse(rs[i - 1..]))
            == Events(env, Reverse(rs[i..])) + [Send(Response(env, rs[i - 1])), Accept(rs[i - 1].delivery)]
  {
    assert rs[i - 1..] == [rs[i - 1]] + rs[i..];
    ReverseCons(rs[i - 1], rs[i..]);
    EventsAppend(env, Reverse(rs[i..]), [rs[i - 1]]);
  }

  /** `on_message` on the service address: push the new request, then
      drain. With quota left the new request is served first, and the older
      requests are then drained with one unit less; without quota it just
      waits on top of the stack. */
  function Admit(env: Env, s: State, d: Delivery, m: WorkMessage): (r: Step)
    ensures var req := MakeRequest(env, d, m);
      var rest := Drain(env, s.(canProcess := s.canProcess - 1));
      && (s.canProcess > 0 ==> r == Step(rest.state, [Send(Response(env, req)), Accept(d)] + rest.trace))
      && (s.canProcess <= 0 ==> r == Step(s.(requests := s.requests + [req]), []))
  {
    var pushed := s.(requests := s.requests + [MakeRequest(env, d, m)]);
    assert pushed.requests[..|pushed.requests| - 1] == s.requests;
    Drain(env, pushed)
  }

  /** `tick`: refill the quota to half the rate, whatever it was, then drain. */
  function Tick(env: Env, s: State): (r: Step)
    ensures var refilled := s.(canProcess := s.rate / 2);
      && r.state.rate == s.rate
      && r.state.canProcess == s.rate / 2 - DispatchCount(refilled)
      && r.state.requests == Kept(refilled)
      && r.trace == Events(env, Reverse(Served(refilled)))
      && |r.state.requests| == |s.requests| - DispatchCount(refilled)
    ensures s.rate >= 0 ==> 0 <= r.state.canProcess <= s.rate / 2
    ensures r.state.requests == [] || r.state.canProcess <= 0
  {
    Drain(env, s.(canProcess := s.rate / 2))
  }

  /** A tick forgets the quota left from the previous period: its result
      does not depend on it. */
  lemma TickIgnoresQuota(env: Env, s: State, leftover: int)
    ensures Tick(env, s.(canProcess := leftover)) == Tick(env, s)
  {
    assert s.(canProcess := leftover).(canProcess := s.rate / 2) == s.(canProcess := s.rate / 2);
  }

  // ---------------------------------------------------------------------------
  // Sequence facts

  lemma {:induction false} ReverseSnoc<T>(s: seq<T>, x: T)
    ensures Reverse(s + [x]) == [x] + Reverse(s)
  {
    assert (s + [x])[..|s + [x]| - 1] == s;
  }

  /** Position `i` of the reversal holds the element `i` places from the end. */
  lemma {:induction false} ReverseAt<T>(s: seq<T>, i: int)
    requires 0 <= i < |s|
    ensures Reverse(s)[i] == s[|s| - 1 - i]
    decreases |s|
  {
    if i > 0 {
      ReverseAt(s[..|s| - 1], i - 1);
    }
  }

  lemma {:induction false} ReverseCons<T>(x: T, s: seq<T>)
    ensures Reverse([x] + s) == Reverse(s) + [x]
    decreases |s|
  {
    if |s| > 0 {
      var init := s[..|s| - 1];
      assert ([x] + s)[..|s|] == [x] + init;
      ReverseCons(x, init);
    }
  }

  lemma {:induction false} DeliveriesReverse(rs: seq<Req>)
    ensures Deliveries(Reverse(rs)) == Reverse(Deliveries(rs))
    decreases |rs|
  {
    if |rs| > 0 {
      DeliveriesReverse(rs[..|rs| - 1]);
      assert Deliveries(rs[..|rs| - 1]) == Deliveries(rs)[..|rs| - 1];
    }
  }

  /** Serving `a` then `b` emits `a`'s events followed by `b`'s. */
  lemma {:induction false} EventsAppend(env: Env, a: seq<Req>, b: seq<Req>)
    ensures Events(env, a + b) == Events(env, a) + Events(env, b)
    decreases |a|
  {
    if |a| == 0 {
      assert a + b == b;
    } else {
      assert (a + b)[1..] == a[1..] + b;
      EventsAppend(env, a[1..], b);
    }
  }

  /** The events for `rs` are pairs: the reply to `rs[i]` at `2i`, the
      acceptance of its delivery at `2i + 1`. */
  lemma {:induction false} EventsAt(env: Env, rs: seq<Req>, i: int)
    requires 0 <= i < |rs|
    ensures Events(env, rs)[2 * i] == Send(Response(env, rs[i]))
    ensures Events(env, rs)[2 * i + 1] == Accept(rs[i].delivery)
    decreases |rs|
  {
    if i > 0 {
      EventsAt(env, rs[1..], i - 1);
      assert rs[1..][i - 1] == rs[i];
    }
  }

  /** The deliveries accepted while serving `rs` are exactly theirs, in order. */
  lemma {:induction false} AcceptedEvents(env: Env, rs: seq<Req>)
    ensures Accepted(Events(env, rs)) == Deliveries(rs)
    decreases |rs|
  {
    if |rs| > 0 {
      var e := Events(env, rs);
      assert e[1..][1..] == Events(env, rs[1..]);
      AcceptedEvents(env, rs[1..]);
      assert Deliveries(rs) == [rs[0].delivery] + Deliveries(rs[1..]);
    }
  }

  lemma {:induction false} MultisetReverse<T>(s: seq<T>)
    ensures multiset(Reverse(s)) == multiset(s)
    decreases |s|
  {
    if |s| > 0 {
      MultisetReverse(s[..|s| - 1]);
      assert s == s[..|s| - 1] + [s[|s| - 1]];
    }
  }

  /** In a sequence without repetitions each element occurs exactly once. */
  lemma {:induction false} DistinctOccursOnce(s: seq<Delivery>, j: int)
    requires Distinct(s)
    requires 0 <= j < |s|
    ensures multiset(s)[s[j]] == 1
    decreases |s|
  {
    assert s == [s[0]] + s[1..];
    if j == 0 {
      assert s[0] !in s[1..];
    } else {
      DistinctOccursOnce(s[1..], j - 1);
    }
  }

  // ---------------------------------------------------------------------------
  // Properties of a drain

  /** A pending stack splits into the kept prefix and the served suffix,
      which holds `DispatchCount(s)` requests. */
  lemma ServedShape(s: State)
    ensures DispatchCount(s) <= |s.requests|
    ensures |Served(s)| == DispatchCount(s) && |Kept(s)| == |s.requests| - DispatchCount(s)
    ensures s.requests == Kept(s) + Served(s)
  {
  }

  /** Distinctness of a sequence of delivery handles. */
  predicate Distinct(ds: seq<Delivery>) {
    forall a, b :: 0 <= a < b < |ds| ==> ds[a] != ds[b]
  }

  /** With a non-negative quota a drain serves min(quota, pending) requests,
      emits two events per request and never drives the quota below zero. */
  lemma DrainCount(env: Env, s: State)
    requires s.canProcess >= 0
    ensures var r := Drain(env, s);
      && |s.requests| - |r.state.requests| == DispatchCount(s)
      && (DispatchCount(s) == s.canProcess || DispatchCount(s) == |s.requests|)
      && DispatchCount(s) <= s.canProcess && DispatchCount(s) <= |s.requests|
      && |r.trace| == 2 * DispatchCount(s)
      && r.state.canProcess >= 0
  {
    ServedShape(s);
  }

  /** Drain order is last-in-first-out: when the j-th pending request is
      among the newest `DispatchCount(s)`, its reply is the (n-1-j)-th reply
      sent, at trace position 2(n-1-j), and its delivery is accepted right
      after it. (That the older requests stay pending in order is part of
      the contract of Drain.) */
  lemma DrainLifo(env: Env, s: State, j: int)
    requires |s.requests| - DispatchCount(s) <= j < |s.requests|
    ensures var r := Drain(env, s); var i := |s.requests| - 1 - j;
      && |r.trace| == 2 * DispatchCount(s)
      && r.trace[2 * i] == Send(Response(env, s.requests[j]))
      && r.trace[2 * i + 1] == Accept(s.requests[j].delivery)
  {
    ServedEventsAt(env, s, j);
  }

  /** The pair of events for the j-th pending request among the served ones. */
  lemma ServedEventsAt(env: Env, s: State, j: int)
    requires |s.requests| - DispatchCount(s) <= j < |s.requests|
    ensures var i := |s.requests| - 1 - j;
      && Events(env, Reverse(Served(s)))[2 * i] == Send(Response(env, s.requests[j]))
      && Events(env, Reverse(Served(s)))[2 * i + 1] == Accept(s.requests[j].delivery)
  {
    var i := |s.requests| - 1 - j;
    ServedShape(s);
    ReverseAt(Served(s), i);
    EventsAt(env, Reverse(Served(s)), i);
  }

  /** No request is lost or duplicated by a drain: the deliveries pending
      before equal those pending after plus those accepted. */
  lemma DrainConserves(env: Env, s: State)
    ensures var r := Drain(env, s);
      multiset(Deliveries(s.requests)) == multiset(Deliveries(r.state.requests)) + multiset(Accepted(r.trace))
  {
    ServedShape(s);
    AcceptedEvents(env, Reverse(Served(s)));
    MultisetReverse(Deliveries(Served(s)));
    DeliveriesReverse(Served(s));
    assert Deliveries(s.requests) == Deliveries(Kept(s)) + Deliveries(Served(s));
  }

  /** When the pending deliveries are distinct, each served request's
      delivery is accepted exactly once and each kept one not at all. */
  lemma DrainAcceptsOnce(env: Env, s: State)
    requires Distinct(Deliveries(s.requests))
    ensures var r := Drain(env, s); var n := |s.requests|; var k := DispatchCount(s);
      forall j :: 0 <= j < n ==>
        multiset(Accepted(r.trace))[s.requests[j].delivery] == (if j >= n - k then 1 else 0)
  {
    forall j | 0 <= j < |s.requests|
      ensures multiset(Accepted(Drain(env, s).trace))[s.requests[j].delivery]
              == (if j >= |s.requests| - DispatchCount(s) then 1 else 0)
    {
      AcceptedOnceAt(env, s, j);
    }
  }

  lemma AcceptedOnceAt(env: Env, s: State, j: int)
    requires Distinct(Deliveries(s.requests))
    requires 0 <= j < |s.requests|
    ensures multiset(Accepted(Drain(env, s).trace))[s.requests[j].delivery]
            == (if j >= |s.requests| - DispatchCount(s) then 1 else 0)
  {
    var ds := Deliveries(s.requests);
    DrainAccepted(env, s);
    SuffixCount(ds, |s.requests| - DispatchCount(s), j);
  }

  /** The deliveries a drain accepts are, as a multiset, those of the newest
      `DispatchCount(s)` pending requests. */
  lemma DrainAccepted(env: Env, s: State)
    ensures multiset(Accepted(Drain(env, s).trace))
            == multiset(Deliveries(s.requests)[|s.requests| - DispatchCount(s)..])
  {
    AcceptedEvents(env, Reverse(Served(s)));
    DeliveriesReverse(Served(s));
    MultisetReverse(Deliveries(Served(s)));
    assert Deliveries(Served(s)) == Deliveries(s.requests)[|s.requests| - DispatchCount(s)..];
  }

  /** In a sequence without repetitions, an element occurs once in each
      suffix that contains its position and not at all in the others. */
  lemma SuffixCount(ds: seq<Delivery>, m: int, j: int)
    requires Distinct(ds)
    requires 0 <= m <= |ds| && 0 <= j < |ds|
    ensures multiset(ds[m..])[ds[j]] == (if j >= m then 1 else 0)
  {
    var suffix := ds[m..];
    if j >= m {
      assert suffix[j - m] == ds[j];
      assert Distinct(suffix) by {
        forall a, b | 0 <= a < b < |suffix| ensures suffix[a] != suffix[b] {
          assert suffix[a] == ds[m + a] && suffix[b] == ds[m + b];
        }
      }
      DistinctOccursOnce(suffix, j - m);
    } else {
      assert ds[j] !in suffix by {
        forall a | 0 <= a < |suffix| ensures suffix[a] != ds[j] {
          assert suffix[a] == ds[m + a];
        }
      }
    }
  }
}
