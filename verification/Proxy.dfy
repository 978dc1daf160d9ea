/**
 The proxy as code: Serve runs the failover loop on the heap state, with arbitrary
 interference from other requests, probes and timers at every lock boundary. It works
 on its own objects (the response writer, the upstream body, the idle reader) and on
 what the locked sections hand it; what it does is recorded step by step as a run of
 the transition system, which the objects are proved to agree with.
 */
module Proxy {
  import opened Common
  import R = Routing
  import IR = IdleReader
  import opened P = Protocol
  import opened RouterState
  import Guarantees

  /** The instruments the routing path touches; attempts and failovers are kept per alias. */
  class Metrics {
    var attempts: map<string, int>
    var failovers: map<string, int>
    var inflight: map<string, int>

    constructor (names: set<string>)
      ensures attempts == map[] && failovers == map[] && inflight == map n | n in names :: 0
    {
      attempts, failovers := map[], map[];
      inflight := map n | n in names :: 0;
    }

    method ObserveAttempt(alias: string)
      modifies this`attempts
      ensures attempts == Increment(old(attempts), alias)
    {
      attempts := Increment(attempts, alias);
    }

    method Failover(alias: string)
      modifies this`failovers
      ensures failovers == Increment(old(failovers), alias)
    {
      failovers := Increment(failovers, alias);
    }

    method SetInflight(backend: string, value: int)
      modifies this`inflight
      ensures inflight == old(inflight)[backend := value]
    {
      inflight := inflight[backend := value];
    }
  }

  /** The downstream side of one request. A write may be short or fail; `faulty` remembers that
      one did. */
  class ResponseWriter {
    const flushable: bool
    var statuses: seq<int>
    var body: seq<int>
    ghost var faulty: bool

    constructor (flushable: bool)
      ensures this.flushable == flushable && Pristine()
    {
      this.flushable := flushable;
      statuses, body, faulty := [], [], false;
    }

    /** Nothing has been written, or gone wrong. */
    ghost predicate Pristine()
      reads this
    {
      statuses == [] && body == [] && !faulty
    }

    method WriteHeader(status: int)
      modifies this`statuses
      ensures statuses == old(statuses) + [status]
    {
      statuses := statuses + [status];
    }

    method Write(data: seq<int>) returns (count: nat, ok: bool)
      modifies this`body, this`faulty
      ensures count <= |data| && body == old(body) + data[..count]
      ensures faulty == (old(faulty) || !ok || count < |data|)
    {
      count, ok := *, *;
      if count > |data| { count := |data|; }
      body, faulty := body + data[..count], faulty || !ok || count < |data|;
    }

    /** The copy loop's write: nothing to write is nothing done. */
    method WriteChunk(chunk: seq<int>) returns (count: nat, ok: bool)
      modifies this`body, this`faulty
      ensures count <= |chunk| && body == old(body) + chunk[..count]
      ensures faulty == (old(faulty) || !ok || count < |chunk|)
      ensures chunk == [] ==> ok
    {
      count, ok := 0, true;
      if chunk != [] {
        count, ok := Write(chunk);
      }
    }
  }

  /** One upstream call: the route it went to, how it ended, and the body it obtained. */
  datatype Call = Call(route: R.Route, outcome: Outcome, body: IR.Body?)

  /** The backends as one request meets them: every call made for it, in order. How a call
      ends is up to the network and the client; a response comes with a body of its own. */
  class Upstream {
    var calls: seq<Call>

    constructor ()
      ensures calls == []
    {
      calls := [];
    }

    method Do(route: R.Route) returns (outcome: Outcome, body: IR.Body?)
      modifies this
      ensures calls == old(calls) + [Call(route, outcome, body)]
      ensures body != null <==> outcome.Responded?
      ensures body != null ==> fresh(body) && Untouched(body)
    {
      outcome, body := *, null;
      if outcome.Responded? {
        body := new IR.Body();
      }
      calls := calls + [Call(route, outcome, body)];
    }
  }

  ghost function Bodies(calls: seq<Call>): set<object> {
    set c | c in calls && c.body != null :: c.body
  }

  /** Every body the calls obtained has been closed once, one perhaps excepted. */
  ghost predicate ClosedBut(calls: seq<Call>, body: IR.Body?)
    reads Bodies(calls)
  {
    forall c | c in calls && c.body != null && c.body != body :: c.body.closes == 1
  }

  /** The reader, if there is one, wraps the body of the last call, and every other body
      has been closed once. */
  ghost predicate Covers(calls: seq<Call>, reader: IR.IdleTimeoutReadCloser?)
    reads Bodies(calls)
  {
    && ClosedBut(calls, if reader == null then null else reader.body)
    && (reader != null ==> calls != [] && reader.body == calls[|calls| - 1].body)
  }

  lemma LastOneClosed(calls: seq<Call>, body: IR.Body)
    requires ClosedBut(calls, body) && body.closes == 1
    ensures Covers(calls, null)
  {
  }

  /** Every body the calls obtained is closed exactly once, or has its one close owed by
      a caller of the reader. */
  ghost predicate EachClosedOnce(calls: seq<Call>, reader: IR.IdleTimeoutReadCloser?)
    reads Bodies(calls), Cell(reader)
  {
    forall c | c in calls && c.body != null ::
      c.body.closes + (if reader != null && reader.body == c.body then reader.owed else 0) == 1
  }

  /** The calls are the attempts the request is recorded to have made. */
  ghost predicate Made(calls: seq<Call>, r: Request) {
    && |calls| == |r.outcomes| <= |r.tried|
    && forall k | 0 <= k < |calls| :: calls[k].route == r.tried[k] && calls[k].outcome == r.outcomes[k]
  }

  /** Every call but the last failed in transport or was answered 429, 502, 503 or 504. */
  ghost predicate MovedOn(calls: seq<Call>) {
    forall k | 0 <= k < |calls| - 1 ::
      var o := calls[k].outcome;
      o.Failed? || (o.Responded? && (o.status == 429 || o.status == 502 || o.status == 503 || o.status == 504))
  }

  /** The status the calls made and the alias call for. */
  ghost function Due(known: bool, calls: seq<Call>, flushable: bool): int {
    if calls == [] then (if known then 503 else 404) else
    match calls[|calls| - 1].outcome
    case Canceled => 499
    case Failed(timeout) => if timeout then 504 else 502
    case Responded(status, streaming) => if streaming && !flushable then 500 else status
  }

  /** The last call's response is one to be forwarded. */
  ghost predicate Forwards(calls: seq<Call>, flushable: bool) {
    && calls != []
    && calls[|calls| - 1].outcome.Responded?
    && (calls[|calls| - 1].outcome.streaming ==> flushable)
  }

  /** All that the body delivered has been written, unless a write was short or failed; and
      the copy ended for such a write, at an end of the body, or on a timeout. */
  ghost predicate Complete(w: ResponseWriter, reader: IR.IdleTimeoutReadCloser)
    reads w, Cell(reader)
  {
    && (w.faulty || w.body == reader.body.delivered)
    && (w.faulty || reader.body.ended || reader.timedOut)
  }

  /** No attempt has ended in between. */
  ghost predicate SameAttempts(r: Request, r': Request) {
    r'.outcomes == r.outcomes && r.tried <= r'.tried
  }

  /** The bytes, without where they came from. */
  function Data(bytes: seq<Tagged>): (d: seq<int>)
    ensures |d| == |bytes|
  {
    seq(|bytes|, i requires 0 <= i < |bytes| => bytes[i].data)
  }

  lemma DataOfTag(sent: seq<Tagged>, source: nat, data: seq<int>)
    ensures Data(sent + Tag(source, data)) == Data(sent) + data
  {
  }

  /** What went downstream is what the request is recorded to have sent. */
  ghost predicate Written(w: ResponseWriter, r: Request)
    reads w
  {
    w.statuses == r.headers && w.body == Data(r.sent) && w.faulty == r.cut
  }

  /** Nobody has read from the body or closed it. */
  ghost predicate Untouched(body: IR.Body)
    reads body
  {
    body.closes == 0 && body.delivered == [] && !body.ended
  }

  /** The objects an idle timer may act on. */
  function Cell(reader: IR.IdleTimeoutReadCloser?): set<object> {
    if reader == null then {} else {reader, reader.body}
  }

  ghost function Wraps(reader: IR.IdleTimeoutReadCloser?): Option<IR.Reader>
    reads Cell(reader)
  {
    if reader == null then None else Some(reader.Value())
  }

  /** The reader is in order, and its body has delivered just what the request received, and
      reported an end if the request has seen one. */
  ghost predicate Feeds(reader: IR.IdleTimeoutReadCloser?, r: Request)
    reads Cell(reader)
  {
    reader != null ==> reader.Valid() && reader.body.delivered == Data(r.received) && reader.body.ended == r.ended
  }

  /** The shared heap state and the metrics. `sys` records the whole system; the steps
      of all requests but the one being served are taken from it. */
  class World {
    const state: State
    const metrics: Metrics
    var sys: System
    ghost var states: seq<System>
    ghost var actions: seq<Action>

    /** A router that has just started: nothing checked, nothing in flight, no requests. */
    constructor (state: State)
      requires state.Valid() && state.View() == R.InitialView(state.Setup())
      ensures Valid() && fresh(metrics) && this.state == state
      ensures sys == Initial(state.Setup()) && actions == []
    {
      this.state := state;
      metrics := new Metrics(state.Setup().caps.Keys);
      sys := Initial(state.Setup());
      states, actions := [Initial(state.Setup())], [];
    }

    ghost predicate Linked(sh: Shared)
      reads state.backends.Values, metrics
    {
      && state.Valid()
      && state.View() == sh.view
      && metrics.attempts == sh.attempts
      && metrics.failovers == sh.failovers
      && metrics.inflight == sh.gauge
    }

    ghost predicate Recorded()
      reads this
    {
      IsRun(state.Setup(), states, actions) && states[|states| - 1] == sys
    }

    /** The heap is what the recorded run says it is. */
    ghost predicate Valid()
      reads this, state.backends.Values, metrics
    {
      Linked(sys.shared) && Recorded()
    }

    /** Request `me` is at `r`, and its reader is the object given. */
    ghost predicate At(me: nat, r: Request, reader: IR.IdleTimeoutReadCloser?)
      reads this, state.backends.Values, metrics, Cell(reader)
    {
      && Valid()
      && me < |sys.requests|
      && sys.requests[me] == r.(reader := Wraps(reader))
      && Feeds(reader, r)
    }

    /** Records an action whose effect on the heap has already happened. */
    method Record(a: Action)
      requires Recorded()
      requires R.Matches(state.Setup(), sys.shared.view) && Enabled(sys, a)
      requires Linked(Step(state.Setup(), sys, a).shared)
      modifies this
      ensures Valid()
      ensures Follows(state.Setup(), old(sys), a, sys)
      ensures states == old(states) + [sys] && actions == old(actions) + [a]
    {
      ghost var next := Step(state.Setup(), sys, a);
      RunExtends(state.Setup(), states, actions, a, next);
      sys, states, actions := Step(state.Setup(), sys, a), states + [next], actions + [a];
    }

    /** Records a request's own step, from `now` to `r'`, whose effect on the heap and on
        the request's own objects has already happened. */
    method RecordOwn(me: nat, ghost now: Request, input: Input, ghost r': Request, reader: IR.IdleTimeoutReadCloser?)
      requires Recorded() && me < |sys.requests| && sys.requests[me] == now
      requires R.Matches(state.Setup(), sys.shared.view) && Accepts(now, input)
      requires Linked(NextShared(state.Setup(), sys.shared, now))
      requires NextRequest(now, input, Look(state.Setup(), sys.shared.view, now)) == r'.(reader := Wraps(reader))
      requires Feeds(reader, r')
      modifies this
      ensures At(me, r', reader)
      ensures actions == old(actions) + [Act(me, input)]
    {
      Record(Act(me, input));
    }

    /** The same for a step that touches nothing shared. */
    method RecordLocal(me: nat, ghost now: Request, input: Input, ghost r': Request, reader: IR.IdleTimeoutReadCloser?)
      requires Valid() && me < |sys.requests| && sys.requests[me] == now
      requires Local(now) && Accepts(now, input)
      requires NextRequest(now, input, Look(state.Setup(), sys.shared.view, now)) == r'.(reader := Wraps(reader))
      requires Feeds(reader, r')
      modifies this
      ensures At(me, r', reader)
      ensures actions == old(actions) + [Act(me, input)]
    {
      LocalSteps(state.Setup(), sys.shared, now);
      RecordOwn(me, now, input, r', reader);
    }

    // ----- everybody else ----------------------------------------------------

    /** The heap effect of a step that takes the routing lock. */
    method PerformLocked(r: Request)
      requires Linked(sys.shared) && r.pending == [] && !Unlocked(r.pc)
      modifies state.backends.Values, metrics`inflight
      ensures Linked(NextShared(state.Setup(), sys.shared, r))
    {
      if r.pc.Begin? || r.pc.Retry? {
        ReserveSteps(state.Setup(), sys.shared, r, r);
        var res := ReserveAndPublish(r.alias, r.attempted);
      } else if r.pc.Swapping? {
        SwapSteps(state.Setup(), sys.shared, r, r);
        var res, _, _ := state.SwapReservation(r.alias, r.held, r.attempted);
      } else if r.pc.Quarantine? {
        QuarantineSteps(state.Setup(), sys.shared, r);
        if r.held.Some? {
          state.SetHealth(r.held.value.backend.name, false);
        }
      } else {
        ReleaseSteps(state.Setup(), sys.shared, r, r);
        var _ := state.Release(r.held);
      }
    }

    /** The heap effect of a request's next step. */
    method Perform(r: Request)
      requires Linked(sys.shared)
      modifies state.backends.Values, metrics
      ensures Linked(NextShared(state.Setup(), sys.shared, r))
    {
      if r.pending != [] {
        metrics.SetInflight(r.pending[0].0, r.pending[0].1);
      } else if !Unlocked(r.pc) {
        PerformLocked(r);
      } else if Observes(r.pc) {
        metrics.ObserveAttempt(r.alias);
      } else if r.pc.CountFailover? {
        metrics.Failover(r.alias);
      }
    }

    /** Reserve publishes the new counter before it gives up the lock. */
    method ReserveAndPublish(alias: string, attempted: set<R.Route>) returns (res: R.Reserved)
      requires state.Valid()
      modifies state.backends.Values, metrics`inflight
      ensures state.Valid()
      ensures (state.View(), res) == R.Reserve(state.Setup(), old(state.View()), alias, attempted)
      ensures metrics.inflight == if res.Reserved?
                then old(metrics.inflight)[res.route.backend.name := R.Inflight(state.View(), res.route.backend.name)]
                else old(metrics.inflight)
    {
      res := state.Reserve(alias, attempted);
      if res.Reserved? {
        metrics.SetInflight(res.route.backend.name, state.backends[res.route.backend.name].inflight);
      }
    }

    /** Any one action of the system, carried out on the shared state. */
    method Take(a: Action)
      requires Valid() && Enabled(sys, a)
      modifies this, state.backends.Values, metrics
      ensures Valid()
      ensures Follows(state.Setup(), old(sys), a, sys)
      ensures actions == old(actions) + [a]
    {
      if a.Act? {
        Perform(sys.requests[a.id]);
      } else if a.Probe? {
        state.SetHealth(a.name, a.healthy);
      }
      Record(a);
    }

    method TakeOther(me: nat, ghost r: Request, reader: IR.IdleTimeoutReadCloser?, a: Action)
      requires At(me, r, reader) && Enabled(sys, a) && !Concerns(a, me)
      modifies this, state.backends.Values, metrics
      ensures At(me, r, reader)
      ensures old(actions) <= actions
    {
      ghost var before := sys;
      Take(a);
      OthersLeave(state.Setup(), before, a, sys, me);
    }

    /** This request's own idle timer acts on its reader. */
    method TakeTimer(me: nat, ghost r: Request, reader: IR.IdleTimeoutReadCloser, event: IR.Action)
      requires At(me, r, reader) && Enabled(sys, Timer(me, event))
      modifies this, Cell(reader)
      ensures At(me, r, reader)
      ensures old(actions) <= actions
    {
      ghost var before := sys;
      reader.Perform(event);
      Record(Timer(me, event));
      assert sys.requests[me] == ReaderStep(before.requests[me], event);
    }

    /** Other requests, health probes and idle timers run for as long as they like. */
    method Interfere(me: nat, ghost r: Request, reader: IR.IdleTimeoutReadCloser?)
      requires At(me, r, reader)
      modifies this, state.backends.Values, metrics, Cell(reader)
      ensures At(me, r, reader)
      ensures old(actions) <= actions
    {
      var n: nat := *;
      while n > 0
        invariant At(me, r, reader)
        invariant old(actions) <= actions
      {
        var a: Action := *;
        if Enabled(sys, a) {
          if !Concerns(a, me) {
            TakeOther(me, r, reader, a);
          } else if a.Timer? {
            TakeTimer(me, r, reader, a.event);
          }
        }
        n := n - 1;
      }
    }

    // ----- the steps of a request, each after arbitrary interference --------

    method ReserveNow(me: nat, ghost r: Request, alias: string, attempted: set<R.Route>)
        returns (res: R.Reserved, ghost r': Request)
      requires At(me, r, null) && r.pending == []
      requires (r.pc.Begin? || r.pc.Retry?) && r.alias == alias && r.attempted == attempted
      modifies this, state.backends.Values, metrics
      ensures At(me, r', null) && Offers(state.Setup(), alias, attempted, res)
      ensures r' == if r.pc.Begin? then FirstReserve(r, res) else NextReserve(r, res)
      ensures old(actions) <= actions
    {
      ghost var now := sys.requests[me];
      ReserveSteps(state.Setup(), sys.shared, r, now);
      ReserveOffers(state.Setup(), sys.shared.view, alias, attempted);
      res := ReserveAndPublish(alias, attempted);
      r' := if r.pc.Begin? then FirstReserve(r, res) else NextReserve(r, res);
      RecordOwn(me, now, Tick, r', null);
    }

    /** Reserve, with the gauge published under the lock. */
    method Reserve(me: nat, ghost r: Request, alias: string, attempted: set<R.Route>)
        returns (res: R.Reserved, ghost r': Request)
      requires At(me, r, null) && r.pending == []
      requires (r.pc.Begin? || r.pc.Retry?) && r.alias == alias && r.attempted == attempted
      modifies this, state.backends.Values, metrics
      ensures At(me, r', null) && Offers(state.Setup(), alias, attempted, res)
      ensures r' == if r.pc.Begin? then FirstReserve(r, res) else NextReserve(r, res)
      ensures old(actions) <= actions
    {
      Interfere(me, r, null);
      res, r' := ReserveNow(me, r, alias, attempted);
    }

    /** Publishes a value read earlier under the lock. */
    method Publish(me: nat, ghost r: Request, reader: IR.IdleTimeoutReadCloser?, name: string, value: int)
        returns (ghost r': Request)
      requires At(me, r, reader) && r.pending != [] && r.pending[0] == (name, value)
      modifies this, state.backends.Values, metrics, Cell(reader)
      ensures At(me, r', reader) && r' == r.(pending := r.pending[1..])
      ensures old(actions) <= actions
    {
      Interfere(me, r, reader);
      ghost var now := sys.requests[me];
      PublishSteps(state.Setup(), sys.shared, now);
      metrics.SetInflight(name, value);
      r' := r.(pending := r.pending[1..]);
      RecordOwn(me, now, Tick, r', reader);
    }

    /** The critical section, with the counters read in it. */
    method SwapAndRead(alias: string, current: R.Route, attempted: set<R.Route>)
        returns (res: R.Reserved, currentInflight: int, selectedInflight: int)
      requires state.Valid()
      modifies state.backends.Values
      ensures state.Valid()
      ensures (state.View(), res) ==
              R.SwapReservation(state.Setup(), old(state.View()), alias, Some(current), attempted)
      ensures res.Reserved? ==>
                && currentInflight == R.Inflight(state.View(), current.backend.name)
                && selectedInflight == R.Inflight(state.View(), res.route.backend.name)
    {
      res, currentInflight, selectedInflight := state.SwapReservation(alias, Some(current), attempted);
    }

    /** The locked part of SwapReservation, with the counters it read. */
    method SwapNow(me: nat, ghost r: Request, alias: string, current: R.Route, attempted: set<R.Route>)
        returns (res: R.Reserved, currentInflight: int, selectedInflight: int, ghost r': Request)
      requires At(me, r, null) && r.pending == []
      requires r.pc.Swapping? && r.alias == alias && r.attempted == attempted && r.held == Some(current)
      modifies this, state.backends.Values, metrics
      ensures At(me, r', null) && Offers(state.Setup(), alias, attempted, res)
      ensures r' == if res.Reserved?
                then r.(held := Some(res.route), pc := Discard(res.route),
                        pending := Moved(current, currentInflight, res.route, selectedInflight))
                else r.(pc := Forward)
      ensures old(actions) <= actions
    {
      ghost var now := sys.requests[me];
      SwapSteps(state.Setup(), sys.shared, r, now);
      SwapOffers(state.Setup(), sys.shared.view, alias, Some(current), attempted);
      res, currentInflight, selectedInflight := SwapAndRead(alias, current, attempted);
      assert res.Reserved? ==>
          SwapReadings(state.View(), Some(current), res.route) ==
          Moved(current, currentInflight, res.route, selectedInflight);
      r' := if res.Reserved?
      then r.(held := Some(res.route), pc := Discard(res.route),
              pending := Moved(current, currentInflight, res.route, selectedInflight))
      else r.(pc := Forward);
      RecordOwn(me, now, Tick, r', null);
    }

    method SwapLocked(me: nat, ghost r: Request, alias: string, current: R.Route, attempted: set<R.Route>)
        returns (res: R.Reserved, currentInflight: int, selectedInflight: int, ghost r': Request)
      requires At(me, r, null) && r.pending == []
      requires r.pc.Swapping? && r.alias == alias && r.attempted == attempted && r.held == Some(current)
      modifies this, state.backends.Values, metrics
      ensures At(me, r', null) && Offers(state.Setup(), alias, attempted, res)
      ensures r' == if res.Reserved?
                then r.(held := Some(res.route), pc := Discard(res.route),
                        pending := Moved(current, currentInflight, res.route, selectedInflight))
                else r.(pc := Forward)
      ensures old(actions) <= actions
    {
      Interfere(me, r, null);
      res, currentInflight, selectedInflight, r' := SwapNow(me, r, alias, current, attempted);
    }

    /** After a swap: the old backend's counter first, and only once when the two are the
        same backend. */
    method PublishMoved(me: nat, ghost r: Request, current: R.Route, currentInflight: int, selected: R.Route,
                        selectedInflight: int)
        returns (ghost r': Request)
      requires At(me, r, null) && r.pending == Moved(current, currentInflight, selected, selectedInflight)
      modifies this, state.backends.Values, metrics
      ensures At(me, r', null) && r' == r.(pending := [])
      ensures old(actions) <= actions
    {
      r' := r;
      if current.backend.name != selected.backend.name {
        r' := Publish(me, r', null, current.backend.name, currentInflight);
      }
      r' := Publish(me, r', null, selected.backend.name, selectedInflight);
    }

    /** SwapReservation; the counters it read are published after the lock is released. */
    method SwapReservation(me: nat, ghost r: Request, alias: string, current: R.Route, attempted: set<R.Route>)
        returns (res: R.Reserved, ghost r': Request)
      requires At(me, r, null) && r.pending == []
      requires r.pc.Swapping? && r.alias == alias && r.attempted == attempted && r.held == Some(current)
      modifies this, state.backends.Values, metrics
      ensures At(me, r', null) && Offers(state.Setup(), alias, attempted, res)
      ensures r' == if res.Reserved? then r.(held := Some(res.route), pc := Discard(res.route)) else r.(pc := Forward)
      ensures old(actions) <= actions
    {
      var currentInflight, selectedInflight;
      res, currentInflight, selectedInflight, r' := SwapLocked(me, r, alias, current, attempted);
      if res.Reserved? {
        r' := PublishMoved(me, r', current, currentInflight, res.route, selectedInflight);
      }
    }

    /** The locked part of Release, with the counter it read. */
    method ReleaseLocked(me: nat, ghost r: Request, reader: IR.IdleTimeoutReadCloser?, route: R.Route)
        returns (value: Option<int>, ghost r': Request)
      requires At(me, r, reader) && r.pending == [] && Guarantees.Releasing(r.pc) && r.held == Some(route)
      modifies this, state.backends.Values
      ensures At(me, r', reader)
      ensures r' == r.(held := None, pending := OneReading(route, value), pc := AfterRelease(r.pc))
      ensures old(actions) <= actions
    {
      ghost var now := sys.requests[me];
      ReleaseSteps(state.Setup(), sys.shared, r, now);
      value := state.Release(Some(route));
      assert ReleaseReadings(state.View(), Some(route)) == OneReading(route, value);
      r' := r.(held := None, pending := OneReading(route, value), pc := AfterRelease(r.pc));
      RecordOwn(me, now, Tick, r', reader);
    }

    /** Release: the slot is given back under the lock, the gauge follows. */
    method Release(me: nat, ghost r: Request, reader: IR.IdleTimeoutReadCloser?, route: R.Route)
        returns (ghost r': Request)
      requires At(me, r, reader) && r.pending == [] && Guarantees.Releasing(r.pc) && r.held == Some(route)
      modifies this, state.backends.Values, metrics, Cell(reader)
      ensures At(me, r', reader) && r' == r.(held := None, pc := AfterRelease(r.pc))
      ensures old(actions) <= actions
    {
      Interfere(me, r, reader);
      var value;
      value, r' := ReleaseLocked(me, r, reader, route);
      if value.Some? {
        r' := Publish(me, r', reader, route.backend.name, value.value);
      }
    }

    /** Quarantine: SetHealth(false) on the backend the attempt failed on. */
    method Quarantine(me: nat, ghost r: Request, name: string) returns (ghost r': Request)
      requires At(me, r, null) && r.pending == [] && r.pc.Quarantine? && r.held.Some?
      requires r.held.value.backend.name == name
      modifies this, state.backends.Values, metrics
      ensures At(me, r', null) && r' == r.(pc := FailRelease)
      ensures old(actions) <= actions
    {
      Interfere(me, r, null);
      ghost var now := sys.requests[me];
      QuarantineSteps(state.Setup(), sys.shared, now);
      state.SetHealth(name, false);
      r' := r.(pc := FailRelease);
      RecordOwn(me, now, Tick, r', null);
    }

    method ObserveNow(me: nat, ghost r: Request, alias: string) returns (ghost r': Request)
      requires At(me, r, null) && r.pending == [] && Observes(r.pc) && r.alias == alias
      modifies this, metrics
      ensures At(me, r', null) && r' == Observed(r, AfterObserve(r))
      ensures old(actions) <= actions
    {
      ghost var now := sys.requests[me];
      ObserveSteps(state.Setup(), sys.shared, r, now, Look(state.Setup(), sys.shared.view, now));
      metrics.ObserveAttempt(alias);
      r' := Observed(r, AfterObserve(r));
      RecordOwn(me, now, Tick, r', null);
    }

    method Observe(me: nat, ghost r: Request, alias: string) returns (ghost r': Request)
      requires At(me, r, null) && r.pending == [] && Observes(r.pc) && r.alias == alias
      modifies this, state.backends.Values, metrics
      ensures At(me, r', null) && r' == Observed(r, AfterObserve(r))
      ensures old(actions) <= actions
    {
      Interfere(me, r, null);
      r' := ObserveNow(me, r, alias);
    }

    method CountNow(me: nat, ghost r: Request, alias: string) returns (ghost r': Request)
      requires At(me, r, null) && r.pending == [] && r.pc.CountFailover? && r.alias == alias
      modifies this, metrics
      ensures At(me, r', null) && r' == EnterAttempt(r.(failovers := r.failovers + 1), r.pc.next)
      ensures old(actions) <= actions
    {
      ghost var now := sys.requests[me];
      metrics.Failover(alias);
      r' := EnterAttempt(r.(failovers := r.failovers + 1), r.pc.next);
      RecordOwn(me, now, Tick, r', null);
    }

    method CountFailover(me: nat, ghost r: Request, alias: string) returns (ghost r': Request)
      requires At(me, r, null) && r.pending == [] && r.pc.CountFailover? && r.alias == alias
      modifies this, state.backends.Values, metrics
      ensures At(me, r', null) && r' == EnterAttempt(r.(failovers := r.failovers + 1), r.pc.next)
      ensures old(actions) <= actions
    {
      Interfere(me, r, null);
      r' := CountNow(me, r, alias);
    }

    // ----- forwarding --------------------------------------------------------

    /** Reads the upstream body; the reader's lock is not taken yet. */
    method ReadTurn(me: nat, ghost r: Request, reader: IR.IdleTimeoutReadCloser, last: bool)
        returns (data: seq<int>, end: IR.Ending, ghost r': Request)
      requires At(me, r, reader) && r.pending == [] && r.pc.Relaying?
      modifies this, state.backends.Values, metrics, Cell(reader)
      ensures At(me, r', reader) && r' == ReadBody(r, data, end)
      ensures !end.IdleTimeout? && (last ==> !end.More?)
      ensures old(actions) <= actions
    {
      Interfere(me, r, reader);
      ghost var now := sys.requests[me];
      data, end := reader.body.Read(last);
      ReadSteps(r, now.reader, data, end, Look(state.Setup(), sys.shared.view, now));
      r' := ReadBody(r, data, end);
      RecordLocal(me, now, Got(data, end), r', reader);
    }

    /** Takes the reader's lock: a recorded timeout replaces what the body said. */
    method LockTurn(me: nat, ghost r: Request, reader: IR.IdleTimeoutReadCloser, data: seq<int>, end: IR.Ending)
        returns (told: IR.Ending, ghost r': Request)
      requires At(me, r, reader) && r.pending == [] && r.pc == ReadLocked(data, end)
      modifies this, reader
      ensures At(me, r', reader) && r' == r.(pc := Writing(data, told))
      ensures told == if reader.timedOut then IR.IdleTimeout else end
      ensures old(actions) <= actions
    {
      ghost var now := sys.requests[me];
      LockSteps(r, reader.Value(), data, end, Look(state.Setup(), sys.shared.view, now));
      var expired := reader.ReadLocked(|data|);
      told := if expired then IR.IdleTimeout else end;
      r' := r.(pc := Writing(data, told));
      RecordLocal(me, now, Tick, r', reader);
    }

    /** The reader's Read: what it hands out is what the body has just delivered. */
    method ReadThrough(me: nat, ghost r: Request, reader: IR.IdleTimeoutReadCloser, last: bool)
        returns (data: seq<int>, told: IR.Ending, ghost r': Request)
      requires At(me, r, reader) && r.pending == [] && r.pc.Relaying?
      modifies this, state.backends.Values, metrics, Cell(reader)
      ensures At(me, r', reader)
      ensures r' == r.(received := r.received + Tag(r.source, data), ended := r'.ended, pc := Writing(data, told))
      ensures reader.body.delivered == old(reader.body.delivered) + data
      ensures told.IdleTimeout? <==> reader.timedOut
      ensures last ==> !told.More?
      ensures old(actions) <= actions
    {
      var end;
      data, end, r' := ReadTurn(me, r, reader, last);
      Interfere(me, r', reader);
      told, r' := LockTurn(me, r', reader, data, end);
      DataOfTag(r.received, r.source, data);
    }

    method RecordWrite(me: nat, ghost r: Request, reader: IR.IdleTimeoutReadCloser, chunk: seq<int>, told: IR.Ending,
                       count: nat, ok: bool)
        returns (ghost r': Request)
      requires At(me, r, reader) && r.pending == [] && r.pc == Writing(chunk, told) && LastOutcome(r).Responded?
      requires count <= |chunk| && (chunk == [] ==> ok)
      modifies this
      ensures At(me, r', reader) && r' == AfterWrite(r, chunk, count, ok, told.More? && ok && count == |chunk|)
      ensures old(actions) <= actions
    {
      ghost var now := sys.requests[me];
      WriteSteps(r, now.reader, chunk, told, count, ok, Look(state.Setup(), sys.shared.view, now));
      r' := AfterWrite(r, chunk, count, ok, told.More? && ok && count == |chunk|);
      RecordLocal(me, now, if chunk == [] then Tick else Wrote(count, ok), r', reader);
    }

    method WriteNow(me: nat, ghost r: Request, reader: IR.IdleTimeoutReadCloser, w: ResponseWriter, chunk: seq<int>,
                    told: IR.Ending)
        returns (count: nat, ok: bool, more: bool, ghost r': Request)
      requires At(me, r, reader) && r.pending == [] && r.pc == Writing(chunk, told) && LastOutcome(r).Responded?
      requires Written(w, r)
      modifies this, w`body, w`faulty
      ensures At(me, r', reader) && Written(w, r')
      ensures count <= |chunk| && w.body == old(w.body) + chunk[..count]
      ensures more <==> told.More? && ok && count == |chunk|
      ensures w.faulty == (old(w.faulty) || !ok || count < |chunk|)
      ensures r' == AfterWrite(r, chunk, count, ok, more)
      ensures old(actions) <= actions
    {
      count, ok := w.WriteChunk(chunk);
      more := told.More? && ok && count == |chunk|;
      DataOfTag(r.sent, r.source, chunk[..count]);
      r' := RecordWrite(me, r, reader, chunk, told, count, ok);
    }

    /** Writes a chunk downstream; the copy goes on only after a full write and a read that
        reported nothing but bytes. */
    method WriteTurn(me: nat, ghost r: Request, reader: IR.IdleTimeoutReadCloser, w: ResponseWriter, chunk: seq<int>,
                     told: IR.Ending)
        returns (count: nat, ok: bool, more: bool, ghost r': Request)
      requires At(me, r, reader) && r.pending == [] && r.pc == Writing(chunk, told) && LastOutcome(r).Responded?
      requires Written(w, r)
      modifies this, state.backends.Values, metrics, Cell(reader), w`body, w`faulty
      ensures At(me, r', reader) && Written(w, r')
      ensures count <= |chunk| && w.body == old(w.body) + chunk[..count]
      ensures more <==> told.More? && ok && count == |chunk|
      ensures w.faulty == (old(w.faulty) || !ok || count < |chunk|)
      ensures r' == AfterWrite(r, chunk, count, ok, more)
      ensures old(actions) <= actions
    {
      Interfere(me, r, reader);
      count, ok, more, r' := WriteNow(me, r, reader, w, chunk, told);
    }

    /** The request after some of the copy loop: only bytes have moved. */
    ghost predicate Relayed(r: Request, more: bool, r': Request)
      requires LastOutcome(r).Responded?
    {
      r' == r.(received := r'.received, sent := r'.sent, ended := r'.ended, cut := r'.cut,
               pc := if more then Relaying else CloseLocked(Reply(LastOutcome(r).status, None)))
    }

    /** One turn of the copy loop. What it writes is a prefix of what it read, and it goes on
        only if the read reported nothing but bytes and all of them were written. */
    method RelayTurn(me: nat, ghost r: Request, reader: IR.IdleTimeoutReadCloser, w: ResponseWriter, last: bool)
        returns (data: seq<int>, told: IR.Ending, more: bool, ghost r': Request)
      requires At(me, r, reader) && r.pending == [] && r.pc.Relaying? && LastOutcome(r).Responded? && Written(w, r)
      modifies this, state.backends.Values, metrics, Cell(reader), w`body, w`faulty
      ensures At(me, r', reader) && Written(w, r') && Relayed(r, more, r')
      ensures r'.received == r.received + Tag(r.source, data)
      ensures old(w.body) <= w.body <= old(w.body) + data
      ensures more ==> told.More? && w.body == old(w.body) + data
      ensures w.faulty || (w.body == old(w.body) + data && (told.More? ==> more))
      ensures last ==> !more
      ensures old(actions) <= actions
    {
      var count, ok;
      data, told, r' := ReadThrough(me, r, reader, last);
      count, ok, more, r' := WriteTurn(me, r', reader, w, data, told);
    }

    /** The copy loop, for a body that ends after finitely many reads. */
    method Relay(me: nat, ghost r: Request, reader: IR.IdleTimeoutReadCloser, w: ResponseWriter)
        returns (ghost r': Request)
      requires At(me, r, reader) && r.pending == [] && r.pc.Relaying? && LastOutcome(r).Responded? && Written(w, r)
      modifies this, state.backends.Values, metrics, Cell(reader), w`body, w`faulty
      ensures At(me, r', reader) && Written(w, r') && Relayed(r, false, r')
      ensures old(w.body) <= w.body
      ensures old(actions) <= actions
    {
      var turns: nat := *;
      var more := true;
      r' := r;
      while more
        invariant At(me, r', reader) && Written(w, r') && Relayed(r, more, r')
        invariant old(w.body) <= w.body
        invariant old(actions) <= actions
        decreases more, turns
      {
        var data, told;
        data, told, more, r' := RelayTurn(me, r', reader, w, turns == 0);
        turns := if turns > 0 then turns - 1 else 0;
      }
    }

    method CloseLock(me: nat, ghost r: Request, reader: IR.IdleTimeoutReadCloser)
        returns (mustClose: bool, ghost r': Request)
      requires At(me, r, reader) && r.pending == [] && r.pc.CloseLocked?
      modifies this, reader
      ensures At(me, r', reader) && reader.closed && (mustClose ==> reader.owed == 1)
      ensures r' == r.(pc := if mustClose then CloseOwed(r.pc.reply) else FinalRelease(r.pc.reply))
      ensures old(actions) <= actions
    {
      ghost var now := sys.requests[me];
      CloseSteps(r, reader.Value(), Look(state.Setup(), sys.shared.view, now));
      mustClose := reader.CloseLocked();
      r' := r.(pc := if mustClose then CloseOwed(r.pc.reply) else FinalRelease(r.pc.reply));
      RecordLocal(me, now, Tick, r', reader);
    }

    method CloseTheBody(me: nat, ghost r: Request, reader: IR.IdleTimeoutReadCloser) returns (ghost r': Request)
      requires At(me, r, reader) && r.pending == [] && r.pc.CloseOwed?
      modifies this, Cell(reader)
      ensures At(me, r', reader) && r' == r.(pc := FinalRelease(r.pc.reply))
      ensures reader.body.closes == 1
      ensures old(actions) <= actions
    {
      ghost var now := sys.requests[me];
      OwesItsClose(state.Setup(), states, actions, me);
      CloseBodySteps(r, reader.Value(), Look(state.Setup(), sys.shared.view, now));
      reader.CloseOwed();
      r' := r.(pc := FinalRelease(r.pc.reply));
      RecordLocal(me, now, Tick, r', reader);
    }

    /** The reader's Close: the body is closed here, and then exactly once, unless an expiry
        has claimed the close. */
    method CloseReader(me: nat, ghost r: Request, reader: IR.IdleTimeoutReadCloser) returns (ghost r': Request)
      requires At(me, r, reader) && r.pending == [] && r.pc.CloseLocked?
      modifies this, state.backends.Values, metrics, Cell(reader)
      ensures At(me, r', reader) && r' == r.(pc := FinalRelease(r.pc.reply))
      ensures reader.body.closes + reader.owed == 1
      ensures old(actions) <= actions
    {
      Interfere(me, r, reader);
      var mustClose;
      mustClose, r' := CloseLock(me, r, reader);
      if mustClose {
        Interfere(me, r', reader);
        r' := CloseTheBody(me, r', reader);
      }
    }

    method CommitNow(me: nat, ghost r: Request, outcome: Outcome, body: IR.Body, w: ResponseWriter, route: R.Route)
        returns (reader: IR.IdleTimeoutReadCloser, ghost r': Request)
      requires At(me, r, null) && r.pending == [] && r.pc.Forward? && r.held == Some(route)
      requires r.flushable == w.flushable && Written(w, r)
      requires LastOutcome(r) == outcome && outcome.Responded? && Untouched(body) && r.received == [] && !r.ended
      modifies this, w`statuses
      ensures fresh(reader) && reader.body == body && At(me, r', reader) && Written(w, r')
      ensures w.statuses == if outcome.streaming && !w.flushable
                then old(w.statuses)
                else old(w.statuses) + [outcome.status]
      ensures r' == AfterCommit(r, outcome, w.statuses)
      ensures old(actions) <= actions
    {
      ghost var now := sys.requests[me];
      CommitSteps(r, outcome, Look(state.Setup(), sys.shared.view, now));
      IdleTimeoutIsPositive(state.Setup(), states, actions, me);
      reader := IR.NewIdleTimeoutReadCloser(body, route.backend.idleTimeout);
      if !(outcome.streaming && !w.flushable) {
        w.WriteHeader(outcome.status);
      }
      r' := AfterCommit(r, outcome, w.statuses);
      RecordLocal(me, now, Tick, r', reader);
    }

    /** Wraps the body and, unless the stream cannot be flushed, commits the header. */
    method CommitHeader(me: nat, ghost r: Request, outcome: Outcome, body: IR.Body, w: ResponseWriter, route: R.Route)
        returns (reader: IR.IdleTimeoutReadCloser, ghost r': Request)
      requires At(me, r, null) && r.pending == [] && r.pc.Forward? && r.held == Some(route)
      requires r.flushable == w.flushable && Written(w, r)
      requires LastOutcome(r) == outcome && outcome.Responded? && Untouched(body) && r.received == [] && !r.ended
      modifies this, state.backends.Values, metrics, w`statuses
      ensures fresh(reader) && reader.body == body && At(me, r', reader) && Written(w, r')
      ensures w.statuses == if outcome.streaming && !w.flushable
                then old(w.statuses)
                else old(w.statuses) + [outcome.status]
      ensures r' == AfterCommit(r, outcome, w.statuses)
      ensures old(actions) <= actions
    {
      Interfere(me, r, null);
      reader, r' := CommitNow(me, r, outcome, body, w, route);
    }

    /** What follows the commitment: the copy loop unless the stream was refused, and the
        deferred Close. */
    method RelayAndClose(me: nat, ghost r: Request, reader: IR.IdleTimeoutReadCloser, w: ResponseWriter, reply: Reply)
        returns (ghost r': Request)
      requires At(me, r, reader) && r.pending == [] && LastOutcome(r).Responded? && Written(w, r)
      requires if reply.err.Some?
                then r.pc == CloseLocked(reply)
                else r.pc.Relaying? && reply == Reply(LastOutcome(r).status, None)
      modifies this, state.backends.Values, metrics, Cell(reader), w`body, w`faulty
      ensures At(me, r', reader) && Written(w, r')
      ensures reply.err.Some? ==> w.body == old(w.body)
      ensures reader.body.closes + reader.owed == 1
      ensures r' == r.(received := r'.received, sent := r'.sent, ended := r'.ended, cut := r'.cut,
                       pc := FinalRelease(reply))
      ensures old(actions) <= actions
    {
      r' := r;
      if reply.err.None? {
        r' := Relay(me, r', reader, w);
      }
      r' := CloseReader(me, r', reader);
    }

    /** Forwards the response: a stream that cannot be flushed is refused before anything
        is written; otherwise the header commits the response and the body is relayed. The
        deferred Close runs on both ways out. */
    method ForwardResponse(me: nat, ghost r: Request, outcome: Outcome, body: IR.Body, w: ResponseWriter,
                           route: R.Route)
        returns (reply: Reply, reader: IR.IdleTimeoutReadCloser, ghost r': Request)
      requires At(me, r, null) && r.pending == [] && r.pc.Forward? && r.held == Some(route)
      requires r.flushable == w.flushable && Written(w, r)
      requires LastOutcome(r) == outcome && outcome.Responded? && Untouched(body) && r.received == [] && !r.ended
      modifies this, state.backends.Values, metrics, w, body
      ensures fresh(reader) && reader.body == body && At(me, r', reader) && Written(w, r')
      ensures reply == if outcome.streaming && !w.flushable
                then Reply(0, Some(ErrStreamUnsupported))
                else Reply(outcome.status, None)
      ensures w.statuses == if reply.err.Some? then old(w.statuses) else old(w.statuses) + [outcome.status]
      ensures reply.err.Some? ==> w.body == old(w.body)
      ensures body.closes + reader.owed == 1
      ensures r' == r.(headers := r'.headers, received := r'.received, sent := r'.sent, ended := r'.ended,
                       cut := r'.cut, source := r'.source, pc := FinalRelease(reply))
      ensures old(actions) <= actions
    {
      reader, r' := CommitHeader(me, r, outcome, body, w, route);
      reply := if outcome.streaming && !w.flushable
      then Reply(0, Some(ErrStreamUnsupported))
      else Reply(outcome.status, None);
      r' := RelayAndClose(me, r', reader, w, reply);
    }

    // ----- Serve -------------------------------------------------------------

    /** Interference leaves the calls' bodies alone, but for the reader's own. */
    method AwaitTurn(me: nat, ghost r: Request, reader: IR.IdleTimeoutReadCloser?, up: Upstream)
      requires At(me, r, reader) && Covers(up.calls, reader)
      modifies this, state.backends.Values, metrics, Cell(reader)
      ensures At(me, r, reader) && Covers(up.calls, reader)
      ensures old(actions) <= actions
    {
      Interfere(me, r, reader);
    }

    /** The call itself; the bodies of earlier calls stay as they are. */
    method CallUpstream(up: Upstream, route: R.Route) returns (outcome: Outcome, body: IR.Body?)
      requires Covers(up.calls, null)
      modifies up
      ensures up.calls == old(up.calls) + [Call(route, outcome, body)] && ClosedBut(up.calls, body)
      ensures body != null <==> outcome.Responded?
      ensures body != null ==> fresh(body) && Untouched(body)
    {
      outcome, body := up.Do(route);
    }

    method AttemptNow(me: nat, ghost r: Request, up: Upstream, route: R.Route)
        returns (outcome: Outcome, body: IR.Body?, ghost r': Request)
      requires At(me, r, null) && r.pending == [] && r.pc.Trying? && Covers(up.calls, null)
      modifies this, up
      ensures At(me, r', null) && r' == EndAttempt(r, outcome)
      ensures up.calls == old(up.calls) + [Call(route, outcome, body)] && ClosedBut(up.calls, body)
      ensures body != null <==> outcome.Responded?
      ensures body != null ==> fresh(body) && Untouched(body)
      ensures old(actions) <= actions
    {
      outcome, body := CallUpstream(up, route);
      r' := EndAttempt(r, outcome);
      RecordLocal(me, sys.requests[me], Ended(outcome), r', null);
    }

    /** One upstream attempt. */
    method Attempt(me: nat, ghost r: Request, up: Upstream, route: R.Route)
        returns (outcome: Outcome, body: IR.Body?, ghost r': Request)
      requires At(me, r, null) && r.pending == [] && r.pc.Trying? && Covers(up.calls, null)
      modifies this, state.backends.Values, metrics, up
      ensures At(me, r', null) && r' == EndAttempt(r, outcome)
      ensures up.calls == old(up.calls) + [Call(route, outcome, body)] && ClosedBut(up.calls, body)
      ensures body != null <==> outcome.Responded?
      ensures body != null ==> fresh(body) && Untouched(body)
      ensures old(actions) <= actions
    {
      AwaitTurn(me, r, null, up);
      outcome, body, r' := AttemptNow(me, r, up, route);
    }

    method ReleaseAndObserve(me: nat, ghost r: Request, route: R.Route, alias: string) returns (ghost r': Request)
      requires At(me, r, null) && r.pending == [] && (r.pc.CancelRelease? || r.pc.FailRelease?) && r.held == Some(route)
      requires r.alias == alias
      modifies this, state.backends.Values, metrics
      ensures At(me, r', null)
      ensures r' == r.(held := None, observed := r.observed + 1,
                       pc := if r.pc.FailRelease? then Retry else Returned(Reply(STATUS_CLIENT_CLOSED, None)))
      ensures old(actions) <= actions
    {
      r' := Release(me, r, null, route);
      r' := Observe(me, r', alias);
    }

    /** The client left: give the slot back, record the attempt, change nothing else. */
    method GiveUp(me: nat, ghost r: Request, route: R.Route, alias: string) returns (ghost r': Request)
      requires At(me, r, null) && r.pending == [] && r.pc.CancelRelease? && r.held == Some(route) && r.alias == alias
      modifies this, state.backends.Values, metrics
      ensures At(me, r', null)
      ensures r' == r.(held := None, observed := r.observed + 1, pc := Returned(Reply(STATUS_CLIENT_CLOSED, None)))
      ensures old(actions) <= actions
    {
      r' := ReleaseAndObserve(me, r, route, alias);
    }

    /** A transport failure: quarantine, release, record; three separate steps. */
    method HandleFailure(me: nat, ghost r: Request, route: R.Route, alias: string) returns (ghost r': Request)
      requires At(me, r, null) && r.pending == [] && r.pc.Quarantine? && r.held == Some(route) && r.alias == alias
      modifies this, state.backends.Values, metrics
      ensures At(me, r', null)
      ensures r' == r.(held := None, observed := r.observed + 1, pc := Retry)
      ensures old(actions) <= actions
    {
      r' := Quarantine(me, r, route.backend.name);
      r' := ReleaseAndObserve(me, r', route, alias);
    }

    method DiscardNow(me: nat, ghost r: Request, body: IR.Body) returns (ghost r': Request)
      requires At(me, r, null) && r.pending == [] && r.pc.Discard?
      modifies this, body`closes
      ensures At(me, r', null) && r' == P.DiscardBody(r, r.pc.next)
      ensures body.closes == old(body.closes) + 1
      ensures old(actions) <= actions
    {
      DiscardSteps(r, Look(state.Setup(), sys.shared.view, sys.requests[me]));
      body.Close();
      r' := P.DiscardBody(r, r.pc.next);
      RecordLocal(me, sys.requests[me], Tick, r', null);
    }

    /** After a successful swap: close the abandoned body. */
    method DiscardBody(me: nat, ghost r: Request, body: IR.Body) returns (ghost r': Request)
      requires At(me, r, null) && r.pending == [] && r.pc.Discard?
      modifies this, state.backends.Values, metrics, body`closes
      ensures At(me, r', null) && r' == P.DiscardBody(r, r.pc.next)
      ensures body.closes == old(body.closes) + 1
      ensures old(actions) <= actions
    {
      Interfere(me, r, null);
      r' := DiscardNow(me, r, body);
    }

    /** The top of the failover loop, before `route` is marked attempted. */
    ghost predicate LoopTop(me: nat, r: Request, alias: string, flushable: bool, attempted: set<R.Route>,
                            route: R.Route)
      reads this, state.backends.Values, metrics
    {
      && At(me, r, null)
      && r.pc.Trying? && Serving(r, alias, flushable, attempted + {route})
      && r.held == Some(route) && route !in attempted
      && alias in state.Setup().aliases
      && route in state.Setup().aliases[alias]
    }

    /** Serve is about to return `reply`; the writer shows what the request sent. */
    ghost predicate Done(me: nat, r: Request, reader: IR.IdleTimeoutReadCloser?, w: ResponseWriter, alias: string,
                         reply: Reply)
      reads this, state.backends.Values, metrics, Cell(reader), w
    {
      && At(me, r, reader) && Written(w, r)
      && r.alias == alias && r.flushable == w.flushable
      && r.pending == [] && r.pc == Returned(reply)
    }

    /** Counts the failover and goes back to the top of the loop. */
    method Continue(me: nat, ghost r: Request, alias: string, ghost flushable: bool, attempted: set<R.Route>,
                    next: R.Route)
        returns (ghost r': Request)
      requires At(me, r, null) && r.pc == Pc.CountFailover(next) && r.held == Some(next)
      requires Serving(r, alias, flushable, attempted) && next !in attempted
      requires alias in state.Setup().aliases && next in state.Setup().aliases[alias]
      modifies this, state.backends.Values, metrics
      ensures LoopTop(me, r', alias, flushable, attempted, next)
      ensures SameAttempts(r, r')
      ensures old(actions) <= actions
    {
      r' := CountFailover(me, r, alias);
    }

    /** Reserve after a transport failure; without a route, the error fits the failure. */
    method ReserveAgain(me: nat, ghost r: Request, outcome: Outcome, alias: string, attempted: set<R.Route>)
        returns (res: R.Reserved, reply: Reply, ghost r': Request)
      requires At(me, r, null) && r.pending == [] && r.pc.Retry?
      requires r.alias == alias && r.attempted == attempted && LastOutcome(r) == outcome && outcome.Failed?
      modifies this, state.backends.Values, metrics
      ensures At(me, r', null)
      ensures r' == if res.Reserved?
                then r.(held := Some(res.route), pc := Pc.CountFailover(res.route))
                else r.(pc := Returned(reply))
      ensures Offers(state.Setup(), alias, attempted, res)
      ensures old(actions) <= actions
    {
      res, r' := Reserve(me, r, alias, attempted);
      reply := Reply(0, Some(if outcome.timeout then ErrUpstreamTimeout else ErrUpstreamUnavailable));
    }

    method Resume(me: nat, ghost r: Request, outcome: Outcome, w: ResponseWriter, alias: string,
                  attempted: set<R.Route>)
        returns (next: Option<R.Route>, reply: Reply, ghost r': Request)
      requires At(me, r, null) && r.pc.Retry? && Serving(r, alias, w.flushable, attempted) && Written(w, r)
      requires LastOutcome(r) == outcome && outcome.Failed?
      modifies this, state.backends.Values, metrics
      ensures next.Some? ==> LoopTop(me, r', alias, w.flushable, attempted, next.value)
      ensures next.None? ==> Done(me, r', null, w, alias, reply)
      ensures SameAttempts(r, r')
      ensures old(actions) <= actions
    {
      var res;
      res, reply, r' := ReserveAgain(me, r, outcome, alias, attempted);
      next := None;
      if res.Reserved? {
        next := Some(res.route);
        r' := Continue(me, r', alias, w.flushable, attempted, res.route);
      }
    }

    /** A transport failure's whole turn: answer with the fitting error, or continue on
        another route. */
    method FailOver(me: nat, ghost r: Request, outcome: Outcome, w: ResponseWriter, route: R.Route, alias: string,
                    attempted: set<R.Route>)
        returns (next: Option<R.Route>, reply: Reply, ghost r': Request)
      requires At(me, r, null) && r.pc.Quarantine? && r.held == Some(route) && Serving(r, alias, w.flushable, attempted)
      requires Written(w, r)
      requires LastOutcome(r) == outcome && outcome.Failed?
      modifies this, state.backends.Values, metrics
      ensures next.Some? ==> LoopTop(me, r', alias, w.flushable, attempted, next.value)
      ensures next.None? ==> Done(me, r', null, w, alias, reply)
      ensures SameAttempts(r, r')
      ensures old(actions) <= actions
    {
      r' := HandleFailure(me, r, route, alias);
      next, reply, r' := Resume(me, r', outcome, w, alias, attempted);
    }

    /** The same, with the body that has been left behind staying as it is. */
    method ContinueAfter(me: nat, ghost r: Request, body: IR.Body, alias: string, ghost flushable: bool,
                         attempted: set<R.Route>, next: R.Route)
        returns (ghost r': Request)
      requires At(me, r, null) && r.pc == Pc.CountFailover(next) && r.held == Some(next)
      requires Serving(r, alias, flushable, attempted) && next !in attempted
      requires alias in state.Setup().aliases && next in state.Setup().aliases[alias]
      modifies this, state.backends.Values, metrics
      ensures LoopTop(me, r', alias, flushable, attempted, next)
      ensures body.closes == old(body.closes)
      ensures SameAttempts(r, r')
      ensures old(actions) <= actions
    {
      r' := Continue(me, r, alias, flushable, attempted, next);
    }

    method LeaveBehind(me: nat, ghost r: Request, body: IR.Body, alias: string, ghost flushable: bool,
                       attempted: set<R.Route>, next: R.Route)
        returns (ghost r': Request)
      requires At(me, r, null) && r.pc == Discard(next) && r.held == Some(next)
      requires Serving(r, alias, flushable, attempted) && next !in attempted
      requires alias in state.Setup().aliases && next in state.Setup().aliases[alias]
      modifies this, state.backends.Values, metrics, body`closes
      ensures LoopTop(me, r', alias, flushable, attempted, next)
      ensures body.closes == old(body.closes) + 1
      ensures SameAttempts(r, r')
      ensures old(actions) <= actions
    {
      DiscardKeeps(r, alias, flushable, attempted);
      r' := DiscardBody(me, r, body);
      r' := ContinueAfter(me, r', body, alias, flushable, attempted, next);
    }

    /** A retryable status: move the reservation to another route, if there is one, and only
        then close the response's body. */
    method TryNext(me: nat, ghost r: Request, body: IR.Body, route: R.Route, alias: string, ghost flushable: bool,
                   attempted: set<R.Route>)
        returns (next: Option<R.Route>, ghost r': Request)
      requires At(me, r, null) && r.pc.Swapping? && r.held == Some(route) && Serving(r, alias, flushable, attempted)
      modifies this, state.backends.Values, metrics, body`closes
      ensures next.Some? ==> LoopTop(me, r', alias, flushable, attempted, next.value)
      ensures next.None? ==> At(me, r', null) && r' == r.(pc := Forward)
      ensures body.closes == old(body.closes) + if next.Some? then 1 else 0
      ensures SameAttempts(r, r')
      ensures old(actions) <= actions
    {
      var res;
      res, r' := SwapReservation(me, r, alias, route, attempted);
      if !res.Reserved? {
        return None, r';
      }
      r' := LeaveBehind(me, r', body, alias, flushable, attempted, res.route);
      next := Some(res.route);
    }

    /** Release, with what has been written staying as it is. */
    method ReleaseAfter(me: nat, ghost r: Request, reader: IR.IdleTimeoutReadCloser, w: ResponseWriter, route: R.Route)
        returns (ghost r': Request)
      requires At(me, r, reader) && r.pending == [] && r.pc.FinalRelease? && r.held == Some(route) && Written(w, r)
      modifies this, state.backends.Values, metrics, Cell(reader)
      ensures At(me, r', reader) && Written(w, r') && r' == r.(held := None, pc := Returned(r.pc.reply))
      ensures old(actions) <= actions
    {
      r' := Release(me, r, reader, route);
    }

    /** The final answer: forward the response, then give the slot back. */
    method Answer(me: nat, ghost r: Request, outcome: Outcome, body: IR.Body, w: ResponseWriter, route: R.Route,
                  ghost alias: string)
        returns (reply: Reply, reader: IR.IdleTimeoutReadCloser, ghost r': Request)
      requires At(me, r, null) && r.pc.Forward? && r.held == Some(route) && Serving(r, alias, w.flushable, r.attempted)
      requires Written(w, r)
      requires LastOutcome(r) == outcome && outcome.Responded? && Untouched(body)
      modifies this, state.backends.Values, metrics, w, body
      ensures fresh(reader) && reader.body == body && Done(me, r', reader, w, alias, reply)
      ensures SameAttempts(r, r')
      ensures old(actions) <= actions
    {
      reply, reader, r' := ForwardResponse(me, r, outcome, body, w, route);
      r' := ReleaseAfter(me, r', reader, w, route);
    }

    /** Records the response and, on a retryable status, tries to move on. */
    method MoveOn(me: nat, ghost r: Request, outcome: Outcome, body: IR.Body, route: R.Route, alias: string,
                  ghost flushable: bool, attempted: set<R.Route>)
        returns (next: Option<R.Route>, ghost r': Request)
      requires At(me, r, null) && r.pc.RespObserve? && r.held == Some(route) && Serving(r, alias, flushable, attempted)
      requires LastOutcome(r) == outcome && outcome.Responded?
      modifies this, state.backends.Values, metrics, body`closes
      ensures next.Some? ==> Retryable(outcome.status) && LoopTop(me, r', alias, flushable, attempted, next.value)
      ensures next.None? ==> At(me, r', null) && r' == r.(observed := r.observed + 1, pc := Forward)
      ensures body.closes == old(body.closes) + if next.Some? then 1 else 0
      ensures SameAttempts(r, r')
      ensures old(actions) <= actions
    {
      next := None;
      r' := Observe(me, r, alias);
      if Retryable(outcome.status) {
        next, r' := TryNext(me, r', body, route, alias, flushable, attempted);
      }
    }

    /** The same, with the bodies of earlier calls staying as they are. */
    method MoveOnFrom(me: nat, ghost r: Request, outcome: Outcome, body: IR.Body, up: Upstream, route: R.Route,
                      alias: string, ghost flushable: bool, attempted: set<R.Route>)
        returns (next: Option<R.Route>, ghost r': Request)
      requires At(me, r, null) && r.pc.RespObserve? && r.held == Some(route) && Serving(r, alias, flushable, attempted)
      requires LastOutcome(r) == outcome && outcome.Responded? && Untouched(body) && ClosedBut(up.calls, body)
      modifies this, state.backends.Values, metrics, body`closes
      ensures next.Some? ==> LoopTop(me, r', alias, flushable, attempted, next.value) && body.closes == 1
      ensures next.None? ==> At(me, r', null) && r' == r.(observed := r.observed + 1, pc := Forward)
      ensures next.None? ==> Untouched(body)
      ensures ClosedBut(up.calls, body)
      ensures SameAttempts(r, r')
      ensures old(actions) <= actions
    {
      ghost var calls := up.calls;
      assert Bodies(calls) !! state.backends.Values;
      next, r' := MoveOn(me, r, outcome, body, route, alias, flushable, attempted);
      assert up.calls == calls;
      assert forall c | c in calls && c.body != null && c.body != body :: c.body.closes == 1;
    }

    method AnswerFrom(me: nat, ghost r: Request, outcome: Outcome, body: IR.Body, up: Upstream, w: ResponseWriter,
                      route: R.Route, ghost alias: string)
        returns (reply: Reply, reader: IR.IdleTimeoutReadCloser, ghost r': Request)
      requires At(me, r, null) && r.pc.Forward? && r.held == Some(route)
      requires Serving(r, alias, w.flushable, r.attempted) && Written(w, r)
      requires LastOutcome(r) == outcome && outcome.Responded? && Untouched(body)
      requires ClosedBut(up.calls, body) && up.calls != [] && up.calls[|up.calls| - 1].body == body
      modifies this, state.backends.Values, metrics, w, body
      ensures fresh(reader) && reader.body == body && Done(me, r', reader, w, alias, reply)
      ensures Covers(up.calls, reader)
      ensures SameAttempts(r, r')
      ensures old(actions) <= actions
    {
      ghost var calls := up.calls;
      assert Bodies(calls) !! state.backends.Values;
      reply, reader, r' := Answer(me, r, outcome, body, w, route, alias);
      assert up.calls == calls;
      assert forall c | c in calls && c.body != null && c.body != body :: c.body.closes == 1;
    }

    /** A response's whole turn: a retryable status moves on if it can, closing the response's
        body once; anything else, and a retryable status with nowhere to go, is forwarded as
        it is, through a reader on its body. */
    method HandleResponse(me: nat, ghost r: Request, outcome: Outcome, body: IR.Body, up: Upstream, w: ResponseWriter,
                          route: R.Route, alias: string, attempted: set<R.Route>)
        returns (next: Option<R.Route>, reply: Reply, reader: IR.IdleTimeoutReadCloser?, ghost r': Request)
      requires At(me, r, null) && r.pc.RespObserve? && r.held == Some(route)
      requires Serving(r, alias, w.flushable, attempted) && Written(w, r)
      requires LastOutcome(r) == outcome && outcome.Responded? && Untouched(body)
      requires ClosedBut(up.calls, body) && up.calls != [] && up.calls[|up.calls| - 1].body == body
      modifies this, state.backends.Values, metrics, w, body
      ensures next.Some? ==>
                reader == null && Written(w, r') && LoopTop(me, r', alias, w.flushable, attempted, next.value)
      ensures next.None? ==>
                reader != null && fresh(reader) && reader.body == body && Done(me, r', reader, w, alias, reply)
      ensures Covers(up.calls, reader)
      ensures SameAttempts(r, r')
      ensures old(actions) <= actions
    {
      reply, reader := Reply(0, None), null;
      next, r' := MoveOnFrom(me, r, outcome, body, up, route, alias, w.flushable, attempted);
      if next.None? {
        reply, reader, r' := AnswerFrom(me, r', outcome, body, up, w, route, alias);
      } else {
        LastOneClosed(up.calls, body);
      }
    }

    /** No response: a departed client is let go, a failed attempt fails over. */
    method HandleError(me: nat, ghost r: Request, outcome: Outcome, w: ResponseWriter, route: R.Route, alias: string,
                       attempted: set<R.Route>)
        returns (next: Option<R.Route>, reply: Reply, ghost r': Request)
      requires At(me, r, null) && r.held == Some(route) && Serving(r, alias, w.flushable, attempted) && Written(w, r)
      requires LastOutcome(r) == outcome
      requires (outcome.Canceled? && r.pc.CancelRelease?) || (outcome.Failed? && r.pc.Quarantine?)
      modifies this, state.backends.Values, metrics
      ensures next.Some? ==> Written(w, r') && LoopTop(me, r', alias, w.flushable, attempted, next.value)
      ensures next.None? ==> Done(me, r', null, w, alias, reply)
      ensures outcome.Canceled? ==> next.None?
      ensures SameAttempts(r, r')
      ensures old(actions) <= actions
    {
      if outcome.Canceled? {
        next, reply := None, Reply(STATUS_CLIENT_CLOSED, None);
        r' := GiveUp(me, r, route, alias);
      } else {
        next, reply, r' := FailOver(me, r, outcome, w, route, alias, attempted);
      }
    }

    /** The same, with the bodies of the calls staying as they are. */
    method HandleErrorFrom(me: nat, ghost r: Request, outcome: Outcome, up: Upstream, w: ResponseWriter, route: R.Route,
                           alias: string, attempted: set<R.Route>)
        returns (next: Option<R.Route>, reply: Reply, ghost r': Request)
      requires At(me, r, null) && r.held == Some(route) && Serving(r, alias, w.flushable, attempted) && Written(w, r)
      requires LastOutcome(r) == outcome && Covers(up.calls, null)
      requires (outcome.Canceled? && r.pc.CancelRelease?) || (outcome.Failed? && r.pc.Quarantine?)
      modifies this, state.backends.Values, metrics
      ensures next.Some? ==> Written(w, r') && LoopTop(me, r', alias, w.flushable, attempted, next.value)
      ensures next.None? ==> Done(me, r', null, w, alias, reply)
      ensures Covers(up.calls, null)
      ensures SameAttempts(r, r')
      ensures old(actions) <= actions
    {
      ghost var calls := up.calls;
      assert Bodies(calls) !! state.backends.Values;
      next, reply, r' := HandleError(me, r, outcome, w, route, alias, attempted);
      assert up.calls == calls;
      assert forall c | c in calls && c.body != null :: c.body.closes == 1;
    }

    /** What follows an attempt: a response or an error is handled. */
    method Conclude(me: nat, ghost r: Request, outcome: Outcome, body: IR.Body?, up: Upstream, w: ResponseWriter,
                    route: R.Route, alias: string, attempted: set<R.Route>)
        returns (next: Option<R.Route>, reply: Reply, reader: IR.IdleTimeoutReadCloser?, ghost r': Request)
      requires At(me, r, null) && EndedWith(r, outcome) && r.held == Some(route)
      requires Serving(r, alias, w.flushable, attempted) && Written(w, r)
      requires body != null <==> outcome.Responded?
      requires body != null ==> Untouched(body)
      requires ClosedBut(up.calls, body) && up.calls != [] && up.calls[|up.calls| - 1].body == body
      modifies this, state.backends.Values, metrics, w, body
      ensures next.Some? ==>
                reader == null && Written(w, r') && LoopTop(me, r', alias, w.flushable, attempted, next.value)
      ensures next.None? ==> Done(me, r', reader, w, alias, reply)
      ensures Covers(up.calls, reader)
      ensures reader != null ==> fresh(reader) && reader.body == body
      ensures SameAttempts(r, r')
      ensures old(actions) <= actions
    {
      if body != null {
        next, reply, reader, r' := HandleResponse(me, r, outcome, body, up, w, route, alias, attempted);
      } else {
        reader := null;
        next, reply, r' := HandleErrorFrom(me, r, outcome, up, w, route, alias, attempted);
      }
    }

    /** One turn of the failover loop: an answer, or another route to try. */
    method ServeTurn(me: nat, ghost r: Request, up: Upstream, w: ResponseWriter, alias: string,
                     attempted: set<R.Route>, route: R.Route)
        returns (next: Option<R.Route>, reply: Reply, reader: IR.IdleTimeoutReadCloser?, ghost r': Request)
      requires At(me, r, null) && r.pc.Trying? && r.held == Some(route)
      requires Serving(r, alias, w.flushable, attempted) && Written(w, r)
      requires Made(up.calls, r) && Covers(up.calls, null)
      modifies this, state.backends.Values, metrics, up, w
      ensures next.Some? ==>
                reader == null && Written(w, r') && LoopTop(me, r', alias, w.flushable, attempted, next.value)
      ensures next.None? ==> Done(me, r', reader, w, alias, reply)
      ensures Made(up.calls, r') && |up.calls| == |old(up.calls)| + 1
      ensures Covers(up.calls, reader)
      ensures reader != null ==> fresh(reader) && fresh(reader.body)
      ensures old(actions) <= actions
    {
      TriesItsRoute(state.Setup(), states, actions, me);
      var outcome, body;
      outcome, body, r' := Attempt(me, r, up, route);
      AttemptMade(old(up.calls), r, route, outcome, body, alias, w.flushable, attempted);
      next, reply, reader, r' := Conclude(me, r', outcome, body, up, w, route, alias, attempted);
    }

    /** A request arrives and tries to reserve its first route. */
    method Admit(w: ResponseWriter, alias: string) returns (me: nat, res: R.Reserved, ghost r: Request)
      requires Valid() && w.Pristine()
      modifies this, state.backends.Values, metrics
      ensures me == old(|sys.requests|) && At(me, r, null) && Offers(state.Setup(), alias, {}, res)
      ensures r == FirstReserve(NewRequest(alias, w.flushable), res)
      ensures old(actions) <= actions
    {
      me := |sys.requests|;
      Take(Arrive(alias, w.flushable));
      res, r := Reserve(me, NewRequest(alias, w.flushable), alias, {});
    }

    /** The failover loop. Each turn tries a route of the alias not tried before, so the
        loop ends. */
    method ServeLoop(up: Upstream, w: ResponseWriter, alias: string)
        returns (me: nat, reply: Reply, reader: IR.IdleTimeoutReadCloser?, ghost r: Request)
      requires Valid() && up.calls == [] && w.Pristine()
      modifies this, state.backends.Values, metrics, up, w
      ensures me == old(|sys.requests|) && Done(me, r, reader, w, alias, reply)
      ensures Made(up.calls, r) && Covers(up.calls, reader)
      ensures reader != null ==> fresh(reader) && fresh(reader.body)
      ensures old(actions) <= actions
    {
      reader := null;
      var attempted: set<R.Route> := {};
      var res;
      me, res, r := Admit(w, alias);
      if res.UnknownAlias? {
        return me, Reply(0, Some(ErrUnknownAlias)), null, r;
      } else if res.NoRoute? {
        return me, Reply(0, Some(ErrNoRoute)), null, r;
      }
      reply := Reply(0, None);
      var next := Some(res.route);
      while next.Some?
        invariant old(actions) <= actions
        invariant reader != null ==> fresh(reader) && fresh(reader.body)
        invariant Made(up.calls, r) && Covers(up.calls, reader)
        invariant next.Some? ==> reader == null && Written(w, r)
        invariant next.Some? ==> LoopTop(me, r, alias, w.flushable, attempted, next.value)
        invariant next.None? ==> Done(me, r, reader, w, alias, reply)
        decreases next.Some?,
                  if alias in state.Setup().aliases then Elements(state.Setup().aliases[alias]) - attempted else {}
      {
        var route := next.value;
        attempted := attempted + {route};
        next, reply, reader, r := ServeTurn(me, r, up, w, alias, attempted, route);
      }
    }

    /** Serves one request among any number of others. It returns holding nothing, after at
        most one call to each route of the alias, and with the reply that the calls call
        for. With an error or a departed client nothing has been written; otherwise exactly
        one header, with the status of the last call's response, and what this response's
        body delivered, in order from its start and, unless a write was short or failed, to
        where the body ended or timed out. Every body the calls obtained is closed exactly
        once, the last perhaps still to be closed by an expiry of its reader. */
    method Serve(up: Upstream, w: ResponseWriter, alias: string)
        returns (me: nat, reply: Reply, reader: IR.IdleTimeoutReadCloser?, ghost r: Request)
      requires Valid() && up.calls == [] && w.Pristine()
      modifies this, state.backends.Values, metrics, up, w
      ensures me == old(|sys.requests|) && Done(me, r, reader, w, alias, reply)
      ensures reader != null ==> fresh(reader) && fresh(reader.body)
      ensures old(actions) <= actions
      ensures r.held.None? && Distinct(r.tried) && |r.tried| <= Guarantees.RouteCount(state.Setup(), alias)
      ensures Made(up.calls, r) && |up.calls| == |r.tried| && MovedOn(up.calls)
      ensures (if reply.err.Some? then ErrorStatus(reply.err.value) else reply.status) ==
              Due(alias in state.Setup().aliases, up.calls, w.flushable)
      ensures w.statuses == if Forwards(up.calls, w.flushable) then [up.calls[|up.calls| - 1].outcome.status] else []
      ensures !Forwards(up.calls, w.flushable) ==> w.body == []
      ensures Forwards(up.calls, w.flushable) ==> reply.err.None? && reader != null && Complete(w, reader)
      ensures EachClosedOnce(up.calls, reader) && Covers(up.calls, reader)
      ensures reader != null ==> w.body <= reader.body.delivered && r.source == |up.calls| - 1
      ensures w.body <= Data(r.received) && forall k | 0 <= k < |r.received| :: r.received[k].attempt == |r.tried| - 1
    {
      me, reply, reader, r := ServeLoop(up, w, alias);
      ServedWell(state.Setup(), states, actions, me);
      AnswerIsDue(state.Setup(), sys.requests[me], reply, up.calls);
    }

    /** The handler writes an error's status, and nothing else. */
    method WriteError(me: nat, ghost r: Request, reader: IR.IdleTimeoutReadCloser?, w: ResponseWriter, reply: Reply)
        returns (status: int, ghost r': Request)
      requires At(me, r, reader) && Written(w, r) && r.pending == [] && r.pc == Returned(reply)
      modifies this, w`statuses
      ensures At(me, r', reader) && Written(w, r') && r' == Handle(r, reply)
      ensures status == if reply.err.Some? then ErrorStatus(reply.err.value) else reply.status
      ensures old(actions) <= actions
    {
      status := reply.status;
      if reply.err.Some? {
        status := ErrorStatus(reply.err.value);
        w.WriteHeader(status);
      }
      r' := Handle(r, reply);
      RecordLocal(me, sys.requests[me], Tick, r', reader);
    }

    method WriteErrorAfter(me: nat, ghost r: Request, reader: IR.IdleTimeoutReadCloser?, up: Upstream,
                           w: ResponseWriter, reply: Reply)
        returns (status: int, ghost r': Request)
      requires At(me, r, reader) && Written(w, r) && r.pending == [] && r.pc == Returned(reply)
      requires Covers(up.calls, reader)
      modifies this, w`statuses
      ensures At(me, r', reader) && Written(w, r') && r' == Handle(r, reply)
      ensures status == if reply.err.Some? then ErrorStatus(reply.err.value) else reply.status
      ensures Covers(up.calls, reader)
      ensures old(actions) <= actions
    {
      status, r' := WriteError(me, r, reader, w, reply);
    }

    /** What a finished request has brought about. */
    lemma Concluded(me: nat, r: Request, reader: IR.IdleTimeoutReadCloser?, up: Upstream, w: ResponseWriter,
                    alias: string, reply: Reply)
      requires At(me, r, reader) && Written(w, r) && Covers(up.calls, reader) && Made(up.calls, r)
      requires r.pc == Pc.Finished(reply) && r.alias == alias && r.flushable == w.flushable
      ensures r.held.None? && Distinct(r.tried) && |r.tried| <= Guarantees.RouteCount(state.Setup(), alias)
      ensures |up.calls| == |r.tried| && MovedOn(up.calls)
      ensures var status := if reply.err.Some? then ErrorStatus(reply.err.value) else reply.status;
              && status == Due(alias in state.Setup().aliases, up.calls, w.flushable)
              && w.statuses == if Departed(r) then [] else [status]
      ensures !Forwards(up.calls, w.flushable) ==> w.body == []
      ensures Forwards(up.calls, w.flushable) ==> reader != null && Complete(w, reader)
      ensures EachClosedOnce(up.calls, reader)
      ensures reader != null ==> reader.closed && w.body <= reader.body.delivered && r.source == |up.calls| - 1
    {
      HandledWell(state.Setup(), states, actions, me);
      AnswerIsDue(state.Setup(), sys.requests[me], reply, up.calls);
    }

    method Finish(me: nat, ghost r: Request, reader: IR.IdleTimeoutReadCloser?, up: Upstream, w: ResponseWriter,
                  ghost alias: string, reply: Reply)
        returns (status: int, ghost r': Request)
      requires Done(me, r, reader, w, alias, reply) && Covers(up.calls, reader) && Made(up.calls, r)
      modifies this, w`statuses
      ensures At(me, r', reader) && Written(w, r') && r'.pc.Finished?
      ensures r'.held.None? && Distinct(r'.tried) && |r'.tried| <= Guarantees.RouteCount(state.Setup(), alias)
      ensures Made(up.calls, r') && |up.calls| == |r'.tried| && MovedOn(up.calls)
      ensures status == Due(alias in state.Setup().aliases, up.calls, w.flushable)
      ensures w.statuses == if Departed(r') then [] else [status]
      ensures !Forwards(up.calls, w.flushable) ==> w.body == []
      ensures Forwards(up.calls, w.flushable) ==> reader != null && Complete(w, reader)
      ensures EachClosedOnce(up.calls, reader) && Covers(up.calls, reader)
      ensures reader != null ==> reader.closed && w.body <= reader.body.delivered && r'.source == |up.calls| - 1
      ensures old(actions) <= actions
    {
      status, r' := WriteErrorAfter(me, r, reader, up, w, reply);
      Concluded(me, r', reader, up, w, alias, reply);
    }

    method Respond(me: nat, ghost r: Request, reader: IR.IdleTimeoutReadCloser?, up: Upstream, w: ResponseWriter,
                   ghost alias: string, reply: Reply)
        returns (status: int, ghost r': Request)
      requires Done(me, r, reader, w, alias, reply) && Covers(up.calls, reader) && Made(up.calls, r)
      modifies this, state.backends.Values, metrics, Cell(reader), w`statuses
      ensures At(me, r', reader) && Written(w, r') && r'.pc.Finished?
      ensures r'.held.None? && Distinct(r'.tried) && |r'.tried| <= Guarantees.RouteCount(state.Setup(), alias)
      ensures Made(up.calls, r') && |up.calls| == |r'.tried| && MovedOn(up.calls)
      ensures status == Due(alias in state.Setup().aliases, up.calls, w.flushable)
      ensures w.statuses == if Departed(r') then [] else [status]
      ensures !Forwards(up.calls, w.flushable) ==> w.body == []
      ensures Forwards(up.calls, w.flushable) ==> reader != null && Complete(w, reader)
      ensures EachClosedOnce(up.calls, reader) && Covers(up.calls, reader)
      ensures reader != null ==> reader.closed && w.body <= reader.body.delivered && r'.source == |up.calls| - 1
      ensures old(actions) <= actions
    {
      AwaitTurn(me, r, reader, up);
      status, r' := Finish(me, r, reader, up, w, alias, reply);
    }

    /** The handler around Serve: an error becomes the response, anything else is left as
        Serve left it. The status is the one the calls call for, and exactly one header goes
        out, carrying it, unless the client left; then nothing at all has been written. What
        Serve promises about calls, bytes and bodies still holds. */
    method HandleChat(up: Upstream, w: ResponseWriter, alias: string)
        returns (me: nat, status: int, reader: IR.IdleTimeoutReadCloser?, ghost r: Request)
      requires Valid() && up.calls == [] && w.Pristine()
      modifies this, state.backends.Values, metrics, up, w
      ensures me == old(|sys.requests|) && At(me, r, reader) && Written(w, r) && r.pc.Finished?
      ensures r.held.None? && Distinct(r.tried) && |r.tried| <= Guarantees.RouteCount(state.Setup(), alias)
      ensures Made(up.calls, r) && |up.calls| == |r.tried| && MovedOn(up.calls)
      ensures status == Due(alias in state.Setup().aliases, up.calls, w.flushable)
      ensures w.statuses == if Departed(r) then [] else [status]
      ensures !Forwards(up.calls, w.flushable) ==> w.body == []
      ensures Forwards(up.calls, w.flushable) ==> reader != null && Complete(w, reader)
      ensures EachClosedOnce(up.calls, reader) && Covers(up.calls, reader)
      ensures reader != null ==> reader.closed && w.body <= reader.body.delivered && r.source == |up.calls| - 1
      ensures old(actions) <= actions
    {
      var reply;
      me, reply, reader, r := Serve(up, w, alias);
      status, r := Respond(me, r, reader, up, w, alias, reply);
    }
  }

  /** The action is a step of request `me` or of its idle timer. */
  predicate Concerns(a: Action, me: nat) {
    (a.Act? || a.Timer?) && a.id == me
  }

  lemma OthersLeave(su: R.Setup, s: System, a: Action, s': System, me: nat)
    requires Follows(su, s, a, s') && me < |s.requests| && !Concerns(a, me)
    ensures me < |s'.requests| && s'.requests[me] == s.requests[me]
  {
  }

  function AfterRelease(pc: Pc): Pc
    requires Guarantees.Releasing(pc)
  {
    match pc
    case CancelRelease => CancelObserve
    case FailRelease => FailObserve
    case FinalRelease(reply) => Returned(reply)
  }

  function AfterObserve(r: Request): Pc
    requires Observes(r.pc)
  {
    match r.pc
    case CancelObserve => Returned(Reply(STATUS_CLIENT_CLOSED, None))
    case FailObserve => Retry
    case RespObserve => if MayFailOver(LastOutcome(r)) then Swapping else Forward
  }

  lemma ReserveSteps(su: R.Setup, sh: Shared, r: Request, now: Request)
    requires R.Matches(su, sh.view) && r.pending == [] && (r.pc.Begin? || r.pc.Retry?)
    requires now == r.(reader := now.reader)
    ensures var (view, res) := R.Reserve(su, sh.view, r.alias, r.attempted);
            var sh' := NextShared(su, sh, now);
            && sh'.view == view && sh'.attempts == sh.attempts && sh'.failovers == sh.failovers
            && sh'.gauge == (if res.Reserved?
                             then sh.gauge[res.route.backend.name := R.Inflight(view, res.route.backend.name)]
                             else sh.gauge)
            && NextRequest(now, Tick, Look(su, sh.view, now)) ==
               (if r.pc.Begin? then FirstReserve(r, res) else NextReserve(r, res)).(reader := now.reader)
  {
  }

  lemma SwapSteps(su: R.Setup, sh: Shared, r: Request, now: Request)
    requires R.Matches(su, sh.view) && r.pending == [] && r.pc.Swapping? && now == r.(reader := now.reader)
    ensures var (view, res) := R.SwapReservation(su, sh.view, r.alias, r.held, r.attempted);
            && NextShared(su, sh, now) == Commit(sh, view)
            && NextRequest(now, Tick, Look(su, sh.view, now)) ==
               (if res.Reserved?
                then r.(held := Some(res.route), pending := SwapReadings(view, r.held, res.route),
                    pc := Discard(res.route), reader := now.reader)
                else r.(pc := Forward, reader := now.reader))
  {
  }

  lemma QuarantineSteps(su: R.Setup, sh: Shared, r: Request)
    requires R.Matches(su, sh.view) && r.pending == [] && r.pc.Quarantine?
    ensures NextShared(su, sh, r) ==
            Commit(sh, if r.held.Some? then R.SetHealth(sh.view, r.held.value.backend.name, false) else sh.view)
  {
  }

  lemma ReleaseSteps(su: R.Setup, sh: Shared, r: Request, now: Request)
    requires R.Matches(su, sh.view) && r.pending == [] && Guarantees.Releasing(r.pc) && now == r.(reader := now.reader)
    ensures NextShared(su, sh, now) == Commit(sh, R.Release(sh.view, r.held))
    ensures NextRequest(now, Tick, Look(su, sh.view, now)) ==
            LetGo(r, ReleaseReadings(R.Release(sh.view, r.held), r.held), AfterRelease(r.pc)).(reader := now.reader)
  {
  }

  lemma ObserveSteps(su: R.Setup, sh: Shared, r: Request, now: Request, seen: Seen)
    requires R.Matches(su, sh.view) && r.pending == [] && Observes(r.pc) && now == r.(reader := now.reader)
    ensures NextShared(su, sh, now) == sh.(attempts := Increment(sh.attempts, r.alias))
    ensures NextRequest(now, Tick, seen) == Observed(r, AfterObserve(r)).(reader := now.reader)
  {
  }

  /** The reading a release carries away, if the backend is known. */
  function OneReading(route: R.Route, value: Option<int>): seq<Reading> {
    if value.Some? then [(route.backend.name, value.value)] else []
  }

  /** The readings a swap carries away. */
  function Moved(current: R.Route, currentInflight: int, selected: R.Route, selectedInflight: int): seq<Reading> {
    (if current.backend.name != selected.backend.name then [(current.backend.name, currentInflight)] else [])
    + [(selected.backend.name, selectedInflight)]
  }

  lemma PublishSteps(su: R.Setup, sh: Shared, now: Request)
    requires R.Matches(su, sh.view) && now.pending != []
    ensures NextShared(su, sh, now) == sh.(gauge := sh.gauge[now.pending[0].0 := now.pending[0].1],
                                           published := sh.published + {now.pending[0]})
  {
  }

  /** A step outside the lock that counts nothing leaves the shared state alone. */
  predicate Local(now: Request) {
    now.pending == [] && Unlocked(now.pc) && !Observes(now.pc) && !now.pc.CountFailover?
  }

  lemma LocalSteps(su: R.Setup, sh: Shared, now: Request)
    requires R.Matches(su, sh.view) && Local(now)
    ensures NextShared(su, sh, now) == sh
  {
  }

  /** A request on its way to close the body still owes that close. */
  lemma OwesItsClose(su: R.Setup, states: seq<System>, actions: seq<Action>, me: nat)
    requires R.SetupOk(su) && IsRun(su, states, actions) && me < |states[|states| - 1].requests|
    ensures var r := states[|states| - 1].requests[me];
            r.pc.CloseOwed? && r.reader.Some? ==> r.reader.value.owed == 1
  {
    Guarantees.RequestAt(su, states, actions, |states| - 1, me);
  }

  /** Forwarding happens on a configured route, and those have a positive idle timeout. */
  lemma IdleTimeoutIsPositive(su: R.Setup, states: seq<System>, actions: seq<Action>, me: nat)
    requires R.SetupOk(su) && IsRun(su, states, actions) && me < |states[|states| - 1].requests|
    ensures var r := states[|states| - 1].requests[me];
            r.held.Some? ==> r.held.value.backend.idleTimeout > 0
  {
    Guarantees.RequestAt(su, states, actions, |states| - 1, me);
    var r := states[|states| - 1].requests[me];
    if r.held.Some? {
      var routes := su.aliases[r.alias];
      assert r.tried != [] ==> r.tried[|r.tried| - 1] in r.tried;
      var k :| 0 <= k < |routes| && routes[k] == r.held.value;
      assert R.RoutesOk(su.caps, r.alias, routes);
    }
  }

  lemma ReadSteps(r: Request, reader: Option<IR.Reader>, data: seq<int>, end: IR.Ending, seen: Seen)
    requires r.pending == [] && r.pc.Relaying? && !end.IdleTimeout?
    ensures var now := r.(reader := reader);
            && Accepts(now, Got(data, end))
            && NextRequest(now, Got(data, end), seen) == ReadBody(r, data, end).(reader := reader)
    ensures Data(ReadBody(r, data, end).received) == Data(r.received) + data
  {
    DataOfTag(r.received, r.source, data);
  }

  lemma LockSteps(r: Request, v: IR.Reader, data: seq<int>, end: IR.Ending, seen: Seen)
    requires r.pending == [] && r.pc == ReadLocked(data, end)
    ensures var now := r.(reader := Some(v));
            && Accepts(now, Tick)
            && NextRequest(now, Tick, seen) == r.(reader := Some(IR.Step(v, IR.ReadLock(data != []))),
                                                  pc := Writing(data, if IR.Reports(v) then IR.IdleTimeout else end))
  {
  }

  /** What the write of a chunk makes of the request. */
  function AfterWrite(r: Request, chunk: seq<int>, count: nat, ok: bool, more: bool): Request
    requires count <= |chunk| && LastOutcome(r).Responded?
  {
    r.(sent := r.sent + Tag(r.source, chunk[..count]),
       cut := r.cut || !ok || count < |chunk|,
       pc := if more then Relaying else CloseLocked(Reply(LastOutcome(r).status, None)))
  }

  lemma WriteSteps(r: Request, reader: Option<IR.Reader>, chunk: seq<int>, told: IR.Ending, count: nat, ok: bool,
                   seen: Seen)
    requires r.pending == [] && r.pc == Writing(chunk, told) && LastOutcome(r).Responded?
    requires count <= |chunk| && (chunk == [] ==> ok)
    ensures var now := r.(reader := reader);
            var input := if chunk == [] then Tick else Wrote(count, ok);
            && Accepts(now, input)
            && NextRequest(now, input, seen) ==
               AfterWrite(r, chunk, count, ok, told.More? && ok && count == |chunk|).(reader := reader)
    ensures Data(AfterWrite(r, chunk, count, ok, ok).sent) == Data(r.sent) + chunk[..count]
  {
    DataOfTag(r.sent, r.source, chunk[..count]);
    assert chunk == [] ==> r.sent + Tag(r.source, chunk[..count]) == r.sent;
  }

  lemma CloseSteps(r: Request, v: IR.Reader, seen: Seen)
    requires r.pending == [] && r.pc.CloseLocked?
    ensures var now := r.(reader := Some(v));
            && Accepts(now, Tick)
            && NextRequest(now, Tick, seen) ==
               r.(reader := Some(IR.Step(v, IR.CloseLock)),
                  pc := if v.closed then FinalRelease(r.pc.reply) else CloseOwed(r.pc.reply))
  {
  }

  lemma CloseBodySteps(r: Request, v: IR.Reader, seen: Seen)
    requires r.pending == [] && r.pc.CloseOwed? && v.owed > 0
    ensures var now := r.(reader := Some(v));
            && Accepts(now, Tick)
            && NextRequest(now, Tick, seen) ==
               r.(reader := Some(IR.Step(v, IR.CloseBody)), pc := FinalRelease(r.pc.reply))
  {
  }

  /** What the start of forwarding makes of the request. */
  function AfterCommit(r: Request, outcome: Outcome, statuses: seq<int>): Request
    requires outcome.Responded?
  {
    var refused := outcome.streaming && !r.flushable;
    r.(headers := statuses, source := if r.outcomes == [] then 0 else |r.outcomes| - 1,
       pc := if refused then CloseLocked(Reply(0, Some(ErrStreamUnsupported))) else Relaying)
  }

  lemma CommitSteps(r: Request, outcome: Outcome, seen: Seen)
    requires r.pending == [] && r.pc.Forward? && LastOutcome(r) == outcome && outcome.Responded?
    ensures var now := r.(reader := None);
            var statuses := if outcome.streaming && !r.flushable then r.headers else r.headers + [outcome.status];
            && Accepts(now, Tick)
            && NextRequest(now, Tick, seen) == AfterCommit(r, outcome, statuses).(reader := Some(IR.Fresh()))
  {
  }

  /** What the run's invariant says of a request that has its answer: attempts, header, bytes
      and reader. */
  ghost predicate AnsweredWell(su: R.Setup, r: Request, reply: Reply) {
    && r.held.None? && Distinct(r.tried) && |r.tried| <= Guarantees.RouteCount(su, r.alias)
    && |r.outcomes| == |r.tried|
    && ReplyWell(su, r, reply)
    && ReaderWell(r, reply)
    && (forall k | 0 <= k < |r.outcomes| - 1 ::
          r.outcomes[k].Failed? || (r.outcomes[k].Responded? && r.outcomes[k].status in {429, 502, 503, 504}))
    && (forall k | 0 <= k < |r.received| :: r.received[k].attempt == |r.tried| - 1)
  }

  /** The reply fits the last attempt. */
  ghost predicate ReplyWell(su: R.Setup, r: Request, reply: Reply) {
    if r.outcomes == [] then
      reply.err == Some(if r.alias in su.aliases then ErrNoRoute else ErrUnknownAlias)
    else
      match LastOutcome(r)
      case Canceled => reply == Reply(499, None)
      case Failed(timeout) => reply.err == Some(if timeout then ErrUpstreamTimeout else ErrUpstreamUnavailable)
      case Responded(status, streaming) =>
        if streaming && !r.flushable then reply.err == Some(ErrStreamUnsupported) else reply == Reply(status, None)
  }

  /** The reader has been closed and its body's close made or owed; without a reader nothing
      was sent; what was sent is a prefix of what was received, and all of it where a
      response was forwarded and no write was cut. */
  ghost predicate ReaderWell(r: Request, reply: Reply) {
    && (r.reader.Some? <==> r.outcomes != [] && LastOutcome(r).Responded?)
    && (r.reader.Some? ==> r.reader.value.closed && r.reader.value.bodyCloses + r.reader.value.owed == 1)
    && (r.reader.Some? ==> r.source == |r.outcomes| - 1)
    && (r.reader.None? || reply.err.Some? ==> r.sent == [])
    && Data(r.sent) <= Data(r.received)
    && (r.reader.Some? && reply.err.None? ==>
          && (r.cut || Data(r.sent) == Data(r.received))
          && (r.cut || r.ended || r.reader.value.timedOut))
  }

  lemma ServedWell(su: R.Setup, states: seq<System>, actions: seq<Action>, me: nat)
    requires R.SetupOk(su) && IsRun(su, states, actions) && me < |states[|states| - 1].requests|
    ensures var r := states[|states| - 1].requests[me];
            r.pc.Returned? ==>
              && AnsweredWell(su, r, r.pc.reply)
              && r.headers == if r.reader.Some? && r.pc.reply.err.None? then [r.pc.reply.status] else []
  {
    Guarantees.RequestAt(su, states, actions, |states| - 1, me);
    Guarantees.AttemptsAreBounded(su, states, actions, |states| - 1, me);
  }

  lemma HandledWell(su: R.Setup, states: seq<System>, actions: seq<Action>, me: nat)
    requires R.SetupOk(su) && IsRun(su, states, actions) && me < |states[|states| - 1].requests|
    ensures var r := states[|states| - 1].requests[me];
            r.pc.Finished? ==>
              && AnsweredWell(su, r, r.pc.reply)
              && r.headers == if Departed(r) then [] else
                              if r.pc.reply.err.Some? then [ErrorStatus(r.pc.reply.err.value)] else [r.pc.reply.status]
  {
    Guarantees.RequestAt(su, states, actions, |states| - 1, me);
    Guarantees.AttemptsAreBounded(su, states, actions, |states| - 1, me);
  }

  /** In terms of the calls made. */
  lemma AnswerIsDue(su: R.Setup, r: Request, reply: Reply, calls: seq<Call>)
    requires AnsweredWell(su, r, reply) && Made(calls, r)
    ensures MovedOn(calls) && |calls| == |r.tried|
    ensures (if reply.err.Some? then ErrorStatus(reply.err.value) else reply.status) ==
            Due(r.alias in su.aliases, calls, r.flushable)
    ensures Forwards(calls, r.flushable) <==> r.reader.Some? && reply.err.None?
    ensures Forwards(calls, r.flushable) ==> reply.status == calls[|calls| - 1].outcome.status
  {
  }

  /** A request whose attempt is under way holds the route it tried last. */
  lemma TriesItsRoute(su: R.Setup, states: seq<System>, actions: seq<Action>, me: nat)
    requires R.SetupOk(su) && IsRun(su, states, actions) && me < |states[|states| - 1].requests|
    ensures var r := states[|states| - 1].requests[me];
            r.pc.Trying? ==> |r.tried| == |r.outcomes| + 1 && r.held == Some(r.tried[|r.outcomes|])
  {
    Guarantees.RequestAt(su, states, actions, |states| - 1, me);
  }

  lemma DiscardSteps(r: Request, seen: Seen)
    requires r.pending == [] && r.pc.Discard?
    ensures var now := r.(reader := None);
            && Local(now)
            && Accepts(now, Tick)
            && NextRequest(now, Tick, seen) == P.DiscardBody(r, r.pc.next).(reader := None)
  {
  }

  /** What does not change while a request is being served: who asks, and that nothing
      has gone downstream yet. */
  ghost predicate Serving(r: Request, alias: string, flushable: bool, attempted: set<R.Route>) {
    && r.alias == alias && r.flushable == flushable && r.attempted == attempted
    && r.pending == [] && r.headers == [] && r.received == [] && r.sent == [] && !r.ended && !r.cut
  }

  /** The attempt has ended so, and the request is about to deal with it. */
  ghost predicate EndedWith(r: Request, o: Outcome) {
    && LastOutcome(r) == o
    && (o.Canceled? <==> r.pc.CancelRelease?)
    && (o.Failed? <==> r.pc.Quarantine?)
    && (o.Responded? <==> r.pc.RespObserve?)
  }

  /** An attempt that has ended is one call more. */
  lemma AttemptMade(calls: seq<Call>, r: Request, route: R.Route, o: Outcome, body: IR.Body?,
                    alias: string, flushable: bool, attempted: set<R.Route>)
    requires Made(calls, r) && |r.tried| == |r.outcomes| + 1 && r.tried[|r.outcomes|] == route
    requires Serving(r, alias, flushable, attempted)
    ensures var r' := EndAttempt(r, o);
            && EndedWith(r', o)
            && r'.held == r.held
            && Serving(r', alias, flushable, attempted)
            && forall r'' | SameAttempts(r', r'') :: Made(calls + [Call(route, o, body)], r'')
  {
  }

  /** A route the request may move to. */
  predicate Offers(su: R.Setup, alias: string, attempted: set<R.Route>, res: R.Reserved) {
    res.Reserved? ==> alias in su.aliases && res.route in su.aliases[alias] && res.route !in attempted
  }

  lemma ReserveOffers(su: R.Setup, view: R.View, alias: string, attempted: set<R.Route>)
    requires R.Matches(su, view)
    ensures Offers(su, alias, attempted, R.Reserve(su, view, alias, attempted).1)
  {
  }

  lemma SwapOffers(su: R.Setup, view: R.View, alias: string, current: Option<R.Route>, attempted: set<R.Route>)
    requires R.Matches(su, view)
    ensures Offers(su, alias, attempted, R.SwapReservation(su, view, alias, current, attempted).1)
  {
  }

  lemma DiscardKeeps(r: Request, alias: string, flushable: bool, attempted: set<R.Route>)
    requires r.pc.Discard? && Serving(r, alias, flushable, attempted)
    ensures var r' := P.DiscardBody(r, r.pc.next);
            r'.pc == Pc.CountFailover(r.pc.next) && r'.held == r.held && Serving(r', alias, flushable, attempted)
  {
  }
}
