/**
 The router's promises, as theorems about every run: any number of requests, any
 interleaving of their steps with each other, with health probes and with idle timers.
 */
module Guarantees {
  import opened Common
  import opened Routing
  import opened Protocol
  import opened RequestInvariants
  import opened SystemInvariants
  import IR = IdleReader

  // ----- capacity ----------------------------------------------------------

  predicate HoldsOn(r: Request, name: string) {
    r.held.Some? && r.held.value.backend.name == name
  }

  /** The requests that hold a slot on a backend. */
  function Holders(requests: seq<Request>, name: string): set<int> {
    set id | 0 <= id < |requests| && HoldsOn(requests[id], name)
  }

  lemma SumIsHolders(requests: seq<Request>, name: string)
    ensures Sum(requests, HeldOn(name)) == |Holders(requests, name)|
  {
    SumIsCount(requests, HeldOn(name));
    assert Support(requests, HeldOn(name)) == Holders(requests, name);
  }

  /** In every reachable state each counter is exactly the number of requests holding a
      slot on that backend, over all aliases, and never exceeds the capacity. */
  lemma CapacityIsNeverExceeded(su: Setup, states: seq<System>, actions: seq<Action>, i: nat, name: string)
    requires SetupOk(su) && IsRun(su, states, actions) && i < |states| && name in su.caps
    ensures name in states[i].shared.view
    ensures states[i].shared.view[name].inflight == |Holders(states[i].requests, name)| <= su.caps[name]
  {
    RunInv(su, states, actions, i);
    SumIsHolders(states[i].requests, name);
    assert Inflight(states[i].shared.view, name) == Sum(states[i].requests, HeldOn(name));
  }

  /** All counters are at zero exactly when every request is at a point where it holds
      nothing: before its first reservation, between attempts, or once Serve has returned. */
  lemma QuietMeansEmpty(su: Setup, states: seq<System>, actions: seq<Action>, i: nat)
    requires SetupOk(su) && IsRun(su, states, actions) && i < |states|
    ensures (forall r | r in states[i].requests :: !Holding(r.pc))
            <==> forall n | n in states[i].shared.view :: states[i].shared.view[n].inflight == 0
  {
    RunInv(su, states, actions, i);
    var s := states[i];
    forall n | n in s.shared.view && forall r | r in s.requests :: !Holding(r.pc)
      ensures s.shared.view[n].inflight == 0
    {
      SumIsHolders(s.requests, n);
      assert forall r | r in s.requests :: RequestOk(su, r);
      assert Holders(s.requests, n) == {};
      assert Inflight(s.shared.view, n) == Sum(s.requests, HeldOn(n));
    }
    forall id | 0 <= id < |s.requests| && Holding(s.requests[id].pc)
      ensures exists n | n in s.shared.view :: s.shared.view[n].inflight != 0
    {
      HeldIsCounted(su, s, id);
      assert s.shared.view[s.requests[id].held.value.backend.name].inflight != 0;
    }
  }

  predicate Releasing(pc: Pc) { pc.CancelRelease? || pc.FailRelease? || pc.FinalRelease? }

  /** The guards against an empty counter never suppress a real release or swap: a
      release always frees one slot on the held backend, and a swap always gets past
      its guard. */
  lemma GuardsNeverSuppress(su: Setup, states: seq<System>, actions: seq<Action>, i: nat, id: nat)
    requires SetupOk(su) && IsRun(su, states, actions) && i < |actions|
    requires actions[i] == Act(id, Tick) && id < |states[i].requests|
    requires states[i].requests[id].pending == []
    requires Releasing(states[i].requests[id].pc) || states[i].requests[id].pc.Swapping?
    ensures var r := states[i].requests[id];
            && r.held.Some?
            && Inflight(states[i].shared.view, r.held.value.backend.name) > 0
            && (Releasing(r.pc) ==>
                  && id < |states[i + 1].requests|
                  && states[i + 1].requests[id].held.None?
                  && forall n ::
                       Inflight(states[i + 1].shared.view, n) == Inflight(states[i].shared.view, n) - On(r.held, n))
  {
    RunInv(su, states, actions, i);
    HeldIsCounted(su, states[i], id);
    var r := states[i].requests[id];
    assert TakesStep(su, states, actions, i);
    HeldAfter(r, Tick, Look(su, states[i].shared.view, r));
    ViewEffect(su, states[i].shared.view, r);
  }

  // ----- one request's life ------------------------------------------------

  /** A slot covers the work it was taken for: while an attempt is under way, and while a
      response is being forwarded and its body not yet claimed for closing, the request
      holds a slot on the backend of the last route it tried. */
  lemma SlotCoversTheWork(su: Setup, states: seq<System>, actions: seq<Action>, i: nat, id: nat)
    requires SetupOk(su) && IsRun(su, states, actions) && i < |states| && id < |states[i].requests|
    ensures var r := states[i].requests[id];
            r.pc.Trying? || (r.reader.Some? && !r.reader.value.closed) ==>
              r.tried != [] && r.held == Some(r.tried[|r.tried| - 1])
  {
    RequestAt(su, states, actions, i, id);
  }

  lemma RequestAt(su: Setup, states: seq<System>, actions: seq<Action>, i: nat, id: nat)
    requires SetupOk(su) && IsRun(su, states, actions) && i < |states| && id < |states[i].requests|
    ensures RequestOk(su, states[i].requests[id])
  {
    RunInv(su, states, actions, i);
    assert states[i].requests[id] in states[i].requests;
  }

  function RouteCount(su: Setup, alias: string): nat {
    if alias in su.aliases then |su.aliases[alias]| else 0
  }

  lemma TriedFits(su: Setup, r: Request)
    requires TriedOk(su, r)
    ensures |r.tried| <= RouteCount(su, r.alias)
    ensures r.tried != [] && Switching(r.pc) ==> |r.tried| < RouteCount(su, r.alias)
  {
    DistinctSize(r.tried);
    if r.tried != [] {
      var routes := su.aliases[r.alias];
      var extra := if Switching(r.pc) then [r.pc.next] else [];
      SubsetOfRoutes(r.tried + extra, routes);
    }
  }

  lemma SubsetOfRoutes(some: seq<Route>, routes: seq<Route>)
    requires Distinct(some) && forall x | x in some :: x in routes
    ensures |some| <= |routes|
  {
    DistinctSize(some);
    ElementsAtMost(routes);
    assert Elements(some) <= Elements(routes);
    SubsetSize(Elements(some), Elements(routes));
  }

  lemma SubsetSize<T>(a: set<T>, b: set<T>)
    requires a <= b
    ensures |a| <= |b|
  {
    assert b == a + (b - a);
  }

  lemma {:induction false} ElementsAtMost<T>(s: seq<T>)
    ensures |Elements(s)| <= |s|
  {
    if s == [] {
      assert Elements(s) == {};
    } else {
      ElementsAtMost(s[1..]);
      assert Elements(s) == Elements(s[1..]) + {s[0]};
    }
  }

  /** At any moment of any run: no route is tried twice, the attempts are bounded by the
      alias's routes, and every attempt but the last ended in a transport failure or a
      429, 502, 503 or 504. */
  lemma AttemptsAreBounded(su: Setup, states: seq<System>, actions: seq<Action>, i: nat, id: nat)
    requires SetupOk(su) && IsRun(su, states, actions) && i < |states| && id < |states[i].requests|
    ensures var r := states[i].requests[id];
            && Distinct(r.tried)
            && |r.tried| <= RouteCount(su, r.alias)
            && |r.outcomes| <= |r.tried| <= |r.outcomes| + 1
            && forall k | 0 <= k < |r.tried| - 1 ::
                 r.outcomes[k].Failed? || (r.outcomes[k].Responded? && r.outcomes[k].status in {429, 502, 503, 504})
  {
    RequestAt(su, states, actions, i, id);
    TriedFits(su, states[i].requests[id]);
  }

  /** A finished request holds nothing, whatever way it left. Its header was written at
      most once: by the handler when Serve returned an error, and then nothing of any
      upstream body was sent; not at all when the client left; otherwise by Serve, with
      the last upstream status. */
  lemma FinishedCleanly(su: Setup, states: seq<System>, actions: seq<Action>, i: nat, id: nat)
    requires SetupOk(su) && IsRun(su, states, actions) && i < |states| && id < |states[i].requests|
    requires states[i].requests[id].pc.Finished?
    ensures var r := states[i].requests[id];
            var reply := r.pc.reply;
            && r.held.None?
            && (reply.err.Some? ==> r.headers == [ErrorStatus(reply.err.value)] && r.sent == [])
            && (reply.err.None? && LastOutcome(r).Responded? ==> r.headers == [reply.status])
            && (reply.err.None? && !LastOutcome(r).Responded? ==>
                  Departed(r) && reply.status == STATUS_CLIENT_CLOSED && r.headers == [] && r.sent == [])
  {
    RequestAt(su, states, actions, i, id);
  }

  /** The reason for the answer: unknown alias and no route only without any attempt; 502
      and 504 of the router's own exactly as the last attempt failed. */
  lemma AnswerFitsTheLastAttempt(su: Setup, states: seq<System>, actions: seq<Action>, i: nat, id: nat)
    requires SetupOk(su) && IsRun(su, states, actions) && i < |states| && id < |states[i].requests|
    requires states[i].requests[id].pc.Finished?
    ensures var r := states[i].requests[id];
            var (reply, last) := (r.pc.reply, LastOutcome(r));
            && (reply.err == Some(ErrUnknownAlias) <==> r.alias !in su.aliases)
            && (reply.err == Some(ErrUnknownAlias) || reply.err == Some(ErrNoRoute) <==> r.tried == [])
            && (r.tried != [] ==>
                  && (reply.err == Some(ErrUpstreamTimeout) <==> last == Failed(true))
                  && (reply.err == Some(ErrUpstreamUnavailable) <==> last == Failed(false))
                  && (reply.err == Some(ErrStreamUnsupported) <==> last.Responded? && last.streaming && !r.flushable)
                  && (reply.err.None? ==> last.Canceled? || reply.status == last.status))
  {
    RequestAt(su, states, actions, i, id);
  }

  /** With this request's own slot given back, no unattempted route is usable. */
  ghost predicate NothingElse(su: Setup, view: View, r: Request)
    requires Matches(su, view)
  {
    r.alias in su.aliases ==>
      forall x | x in su.aliases[r.alias] :: !Eligible(su.caps, Release(view, r.held), r.attempted, x)
  }

  /** The request has stopped trying, although its alias is known and no attempt has
      succeeded or been cancelled. */
  predicate Settled(su: Setup, r: Request) {
    && (r.pc.Forward? || Late(r.pc))
    && r.alias in su.aliases
    && (r.outcomes == [] || MayFailOver(LastOutcome(r)))
  }

  /** Request `id` looks for a route with none usable, and gives up looking. */
  ghost predicate FindsNothing(su: Setup, s: System, a: Action, s': System, id: nat) {
    && a == Act(id, Tick)
    && id < |s.requests| && id < |s'.requests|
    && Matches(su, s.shared.view)
    && s.requests[id].pending == []
    && (s.requests[id].pc.Begin? || s.requests[id].pc.Retry? || s.requests[id].pc.Swapping?)
    && NothingElse(su, s.shared.view, s.requests[id])
    && (if s.requests[id].pc.Swapping? then s'.requests[id].pc.Forward? else s'.requests[id].pc.Returned?)
  }

  predicate SameHistory(r: Request, r': Request) { r'.tried == r.tried && r'.outcomes == r.outcomes }

  /** The request was settled before, or it has just looked for a route in vain. */
  ghost predicate JustSettled(su: Setup, r: Request, seen: Seen, r': Request) {
    Settled(su, r') ==>
      && SameHistory(r, r')
      && (Settled(su, r) ||
          (&& r.pending == []
           && (r.pc.Begin? || r.pc.Retry? || r.pc.Swapping?)
           && !seen.res.Reserved?
           && (if r.pc.Swapping? then r'.pc.Forward? else r'.pc.Returned?)))
  }

  lemma EarlySettled(su: Setup, r: Request, input: Input, seen: Seen)
    requires Accepts(r, input) && r.pending == [] && !Late(r.pc) && !Responding(r.pc)
    requires OutcomeOk(su, r) && (r.pc.Begin? ==> r.tried == []) && (r.tried == [] ==> r.pc.Begin? || Leaving(r.pc))
    ensures JustSettled(su, r, seen, NextRequest(r, input, seen))
  {
  }

  lemma RespondingSettled(su: Setup, r: Request, input: Input, seen: Seen)
    requires Accepts(r, input) && r.pending == [] && Responding(r.pc) && OutcomeOk(su, r)
    requires r.tried == [] ==> r.pc.Begin? || Leaving(r.pc)
    ensures JustSettled(su, r, seen, NextRequest(r, input, seen))
  {
  }

  lemma SettledAfter(su: Setup, r: Request, input: Input, seen: Seen)
    requires Accepts(r, input) && OutcomeOk(su, r) && (r.pc.Begin? ==> r.tried == [])
    requires r.tried == [] ==> r.pc.Begin? || Leaving(r.pc)
    ensures JustSettled(su, r, seen, NextRequest(r, input, seen))
  {
    if r.pending == [] {
      if Late(r.pc) {
        LateCommitted(r, input, seen);
      } else if Responding(r.pc) {
        RespondingSettled(su, r, input, seen);
      } else {
        EarlySettled(su, r, input, seen);
      }
    }
  }

  lemma SettledStep(su: Setup, s: System, a: Action, id: nat)
    requires Inv(su, s) && Enabled(s, a) && id < |s.requests|
    ensures var s' := Step(su, s, a);
            && id < |s'.requests|
            && (Settled(su, s'.requests[id]) ==>
                  && SameHistory(s.requests[id], s'.requests[id])
                  && (Settled(su, s.requests[id]) || FindsNothing(su, s, a, s', id)))
  {
    if a.Act? && a.id == id {
      var r := s.requests[id];
      assert RequestOk(su, r);
      HeldIsCounted(su, s, id);
      SettledAfter(su, r, a.input, Look(su, s.shared.view, r));
      if r.pc.Begin? || r.pc.Retry? || r.pc.Swapping? {
        NothingFound(su, s.shared.view, r);
      }
    }
  }

  lemma NothingFound(su: Setup, view: View, r: Request)
    requires ViewOk(su, view) && Counted(view, r) && (r.pc.Begin? || r.pc.Retry? || r.pc.Swapping?)
    ensures !Look(su, view, r).res.Reserved? ==> NothingElse(su, view, r)
  {
    if r.pc.Swapping? {
      SwapCounts(su, view, r.alias, r.held.value, r.attempted);
    } else {
      ReserveCounts(su, view, r.alias, r.attempted);
    }
  }

  /** A request for a known alias that has stopped trying, without an answer worth keeping
      and without its client having left, was stuck: at its last look for a route, with as
      many routes tried as now, no unattempted route was usable, although its own slot
      counted as free. */
  lemma {:induction false} GivesUpOnlyWhenStuck(su: Setup, states: seq<System>, actions: seq<Action>, i: nat, id: nat)
    requires SetupOk(su) && IsRun(su, states, actions) && i < |states| && id < |states[i].requests|
    requires Settled(su, states[i].requests[id])
    ensures exists j: nat | j < i ::
              && FindsNothing(su, states[j], actions[j], states[j + 1], id)
              && SameHistory(states[j].requests[id], states[i].requests[id])
  {
    if i > 0 {
      assert TakesStep(su, states, actions, i - 1);
      RunInv(su, states, actions, i - 1);
      if id < |states[i - 1].requests| {
        SettledStep(su, states[i - 1], actions[i - 1], id);
        if Settled(su, states[i - 1].requests[id]) {
          GivesUpOnlyWhenStuck(su, states, actions, i - 1, id);
        }
      }
    }
  }

  /** A 429, 502, 503 or 504 of a backend is on its way to the client only because the
      request's own swap, after this very attempt, failed, and at that instant no
      unattempted route was usable although the request's slot counted as free. */
  lemma RetryableForwardedOnlyWhenStuck(su: Setup, states: seq<System>, actions: seq<Action>, i: nat, id: nat)
    requires SetupOk(su) && IsRun(su, states, actions) && i < |states| && id < |states[i].requests|
    requires states[i].requests[id].pc.Forward? || Late(states[i].requests[id].pc)
    requires var last := LastOutcome(states[i].requests[id]); last.Responded? && last.status in {429, 502, 503, 504}
    ensures exists j: nat | j < i ::
              && FindsNothing(su, states[j], actions[j], states[j + 1], id)
              && states[j].requests[id].pc.Swapping? && states[j + 1].requests[id].pc.Forward?
              && SameHistory(states[j].requests[id], states[i].requests[id])
  {
    RequestAt(su, states, actions, i, id);
    GivesUpOnlyWhenStuck(su, states, actions, i, id);
    var j: nat :|
      && j < i
      && FindsNothing(su, states[j], actions[j], states[j + 1], id)
      && SameHistory(states[j].requests[id], states[i].requests[id]);
    RequestAt(su, states, actions, j, id);
  }

  /** At any moment, what has been relayed is a prefix of what was read from one body,
      the one the last attempt obtained; nothing is relayed before the header. */
  lemma RelayedBytesAreOneBodysPrefix(su: Setup, states: seq<System>, actions: seq<Action>, i: nat, id: nat)
    requires SetupOk(su) && IsRun(su, states, actions) && i < |states| && id < |states[i].requests|
    ensures var r := states[i].requests[id];
            && r.sent <= r.received
            && (r.sent != [] ==> r.tried != [] && r.headers != [])
            && forall k | 0 <= k < |r.sent| :: r.sent[k].attempt == |r.tried| - 1
  {
    RequestAt(su, states, actions, i, id);
    var r := states[i].requests[id];
    assert forall k | 0 <= k < |r.sent| :: r.sent[k] == r.received[k];
  }

  /** Request `id` writes a chunk, and the write is short or fails. */
  ghost predicate CutsWrite(s: System, a: Action, id: nat) {
    && a.Act? && a.id == id && id < |s.requests|
    && s.requests[id].pending == [] && s.requests[id].pc.Writing?
    && a.input.Wrote? && (!a.input.ok || a.input.count < |s.requests[id].pc.chunk|)
  }

  /** Request `id` reads the body, and the read reports an end. */
  ghost predicate ReadsEnd(s: System, a: Action, id: nat) {
    && a.Act? && a.id == id && id < |s.requests|
    && s.requests[id].pending == [] && s.requests[id].pc.Relaying?
    && a.input.Got? && !a.input.end.More?
  }

  lemma FlagsAfter(r: Request, input: Input, seen: Seen)
    requires Accepts(r, input)
    ensures var r' := NextRequest(r, input, seen);
            && (r'.cut ==> r.cut || (&& r.pending == [] && r.pc.Writing? && input.Wrote?
                                     && (!input.ok || input.count < |r.pc.chunk|)))
            && (r'.ended ==> r.ended || (r.pending == [] && r.pc.Relaying? && input.Got? && !input.end.More?))
  {
  }

  lemma FlagsStep(su: Setup, s: System, a: Action, s': System, id: nat)
    requires Follows(su, s, a, s') && id < |s'.requests|
    ensures s'.requests[id].cut ==> (id < |s.requests| && s.requests[id].cut) || CutsWrite(s, a, id)
    ensures s'.requests[id].ended ==> (id < |s.requests| && s.requests[id].ended) || ReadsEnd(s, a, id)
  {
    if a.Act? && a.id == id {
      FlagsAfter(s.requests[id], a.input, Look(su, s.shared.view, s.requests[id]));
    }
  }

  lemma {:induction false} FlagsAreReal(su: Setup, states: seq<System>, actions: seq<Action>, i: nat, id: nat)
    requires IsRun(su, states, actions) && i < |states| && id < |states[i].requests|
    ensures states[i].requests[id].cut ==> exists j: nat | j < i :: CutsWrite(states[j], actions[j], id)
    ensures states[i].requests[id].ended ==> exists j: nat | j < i :: ReadsEnd(states[j], actions[j], id)
  {
    if i > 0 {
      assert TakesStep(su, states, actions, i - 1);
      FlagsStep(su, states[i - 1], actions[i - 1], states[i], id);
      if id < |states[i - 1].requests| {
        FlagsAreReal(su, states, actions, i - 1, id);
      }
    }
  }

  /** Every byte read reaches the client: once the copy of a forwarded response is over, all
      that was read has been sent, unless one of the request's own writes was short or
      failed. And it was over for a reason: such a write, a read that reported an end, or a
      recorded idle timeout. */
  lemma CopyIsComplete(su: Setup, states: seq<System>, actions: seq<Action>, i: nat, id: nat)
    requires SetupOk(su) && IsRun(su, states, actions) && i < |states| && id < |states[i].requests|
    requires Copied(states[i].requests[id])
    ensures var r := states[i].requests[id];
            && (r.sent == r.received || exists j: nat | j < i :: CutsWrite(states[j], actions[j], id))
            && (|| TimedOut(r)
                || (exists j: nat | j < i :: CutsWrite(states[j], actions[j], id))
                || (exists j: nat | j < i :: ReadsEnd(states[j], actions[j], id)))
  {
    RequestAt(su, states, actions, i, id);
    FlagsAreReal(su, states, actions, i, id);
  }

  /** Close calls made or owed on the body that attempt k obtained. */
  function ClosedOrOwed(r: Request, k: nat): nat
    requires k < |r.closes|
  {
    r.closes[k] + (if r.reader.Some? && r.source == k then r.reader.value.bodyCloses + r.reader.value.owed else 0)
  }

  /** No body is ever closed twice, and nothing is closed where no body was obtained.
      Once the request has finished, every body its attempts obtained has been closed
      exactly once, or an idle expiry that has claimed the close still owes it. */
  lemma EveryBodyIsClosedOnce(su: Setup, states: seq<System>, actions: seq<Action>, i: nat, id: nat, k: nat)
    requires SetupOk(su) && IsRun(su, states, actions) && i < |states| && id < |states[i].requests|
    requires k < |states[i].requests[id].outcomes|
    ensures var r := states[i].requests[id];
            && |r.closes| == |r.outcomes|
            && ClosedOrOwed(r, k) <= (if r.outcomes[k].Responded? then 1 else 0)
            && (r.pc.Finished? && r.outcomes[k].Responded? ==> ClosedOrOwed(r, k) == 1)
            && (r.pc.Finished? && (r.reader.None? || r.reader.value.owed == 0) && r.outcomes[k].Responded? ==>
                  r.closes[k] + (if r.reader.Some? && r.source == k then r.reader.value.bodyCloses else 0) == 1)
  {
    RequestAt(su, states, actions, i, id);
  }

  // ----- commitment --------------------------------------------------------

  lemma CommittedStep(r: Request, input: Input, seen: Seen)
    requires Accepts(r, input) && HeaderOk(r) && r.headers != []
    ensures var r' := NextRequest(r, input, seen);
            r'.headers == r.headers && r'.tried == r.tried && r'.outcomes == r.outcomes
  {
    if r.pending == [] {
      LateCommitted(r, input, seen);
    }
  }

  /** Identity and history of a request survive any action. */
  lemma RequestPersists(su: Setup, s: System, a: Action, id: nat)
    requires Inv(su, s) && Enabled(s, a) && id < |s.requests|
    ensures var s' := Step(su, s, a);
            && id < |s'.requests|
            && s'.requests[id].alias == s.requests[id].alias
            && (s.requests[id].headers != [] ==>
                  && s'.requests[id].headers == s.requests[id].headers
                  && s'.requests[id].tried == s.requests[id].tried
                  && s'.requests[id].outcomes == s.requests[id].outcomes)
  {
    if a.Act? && a.id == id {
      var r := s.requests[id];
      assert r in s.requests;
      HeldIsCounted(su, s, id);
      LookOk(su, s.shared.view, r);
      CountsAfter(r, a.input, Look(su, s.shared.view, r));
      if r.headers != [] {
        CommittedStep(r, a.input, Look(su, s.shared.view, r));
      }
    }
  }

  /** Once a header is written the answer is settled: no later attempt, no second header. */
  lemma {:induction false} CommitIsFinal(su: Setup, states: seq<System>, actions: seq<Action>, i: nat, j: nat, id: nat)
    requires SetupOk(su) && IsRun(su, states, actions) && i <= j < |states| && id < |states[i].requests|
    requires states[i].requests[id].headers != []
    ensures id < |states[j].requests|
    ensures states[j].requests[id].headers == states[i].requests[id].headers
    ensures states[j].requests[id].tried == states[i].requests[id].tried
    ensures states[j].requests[id].outcomes == states[i].requests[id].outcomes
    decreases j - i
  {
    if i < j {
      CommitIsFinal(su, states, actions, i, j - 1, id);
      RunInv(su, states, actions, j - 1);
      assert TakesStep(su, states, actions, j - 1);
      RequestPersists(su, states[j - 1], actions[j - 1], id);
    }
  }

  // ----- health ------------------------------------------------------------

  ghost predicate Usable(s: System, name: string) {
    name in s.shared.view && s.shared.view[name].healthy
  }

  lemma HealthAfter(su: Setup, view: View, r: Request, name: string)
    requires ViewOk(su, view) && Counted(view, r) && r.pending == [] && name in view
    ensures var view' := NextView(su, view, r);
            && name in view'
            && (view[name].checked ==> view'[name].checked)
            && (view'[name].healthy ==> view[name].healthy)
            && (view[name].healthy && !view'[name].healthy ==> r.pc.Quarantine? && HoldsOn(r, name))
  {
    ViewEffect(su, view, r);
  }

  /** Health changes only through a probe of that backend or the quarantine of a failed
      attempt on it, and only a probe's success can make a backend healthy; once checked,
      always checked. */
  lemma HealthStep(su: Setup, s: System, a: Action, name: string)
    requires Inv(su, s) && Enabled(s, a) && name in s.shared.view
    ensures var s' := Step(su, s, a);
            && name in s'.shared.view
            && (s.shared.view[name].checked ==> s'.shared.view[name].checked)
            && (s'.shared.view[name].healthy && !s.shared.view[name].healthy ==> a == Probe(name, true))
            && (s.shared.view[name].healthy && !s'.shared.view[name].healthy ==>
                  a == Probe(name, false)
                  || (a.Act? && s.requests[a.id].pc.Quarantine? && LastOutcome(s.requests[a.id]).Failed?
                      && s.requests[a.id].held.Some? && s.requests[a.id].held.value.backend.name == name))
  {
    if a.Act? {
      var r := s.requests[a.id];
      assert RequestOk(su, r);
      HeldIsCounted(su, s, a.id);
      if r.pending == [] {
        HealthAfter(su, s.shared.view, r, name);
      }
    }
  }

  /** A request never takes a slot on an unhealthy backend. */
  lemma AcquiresHealthyOnly(su: Setup, s: System, id: nat, input: Input)
    requires Inv(su, s) && Enabled(s, Act(id, input))
    ensures var r := s.requests[id];
            var r' := Step(su, s, Act(id, input)).requests[id];
            r'.held.Some? && r'.held != r.held ==> Usable(s, r'.held.value.backend.name)
  {
    var r := s.requests[id];
    HeldIsCounted(su, s, id);
    HeldAfter(r, input, Look(su, s.shared.view, r));
    if r.pc.Begin? || r.pc.Retry? {
      ReserveCounts(su, s.shared.view, r.alias, r.attempted);
    } else if r.pc.Swapping? {
      SwapCounts(su, s.shared.view, r.alias, r.held.value, r.attempted);
    }
  }

  lemma {:induction false} StaysUnhealthy(su: Setup, states: seq<System>, actions: seq<Action>, i: nat, j: nat,
                                          name: string)
    requires SetupOk(su) && IsRun(su, states, actions) && i <= j < |states| && name in su.caps
    requires !Usable(states[i], name)
    requires forall k | i <= k < j :: actions[k] != Probe(name, true)
    ensures !Usable(states[j], name)
    decreases j - i
  {
    if i < j {
      StaysUnhealthy(su, states, actions, i, j - 1, name);
      RunInv(su, states, actions, j - 1);
      assert TakesStep(su, states, actions, j - 1);
      HealthStep(su, states[j - 1], actions[j - 1], name);
    }
  }

  /** Whatever the backend's health was, a probe of it settles it: one that succeeds makes it
      usable again, one that fails unusable. Counters and other backends stay as they are. */
  lemma ProbeSettlesHealth(su: Setup, states: seq<System>, actions: seq<Action>, i: nat, name: string, healthy: bool)
    requires SetupOk(su) && IsRun(su, states, actions) && i < |actions| && name in su.caps
    requires actions[i] == Probe(name, healthy)
    ensures Usable(states[i + 1], name) <==> healthy
    ensures var (view, view') := (states[i].shared.view, states[i + 1].shared.view);
            && name in view && name in view'
            && view'[name].checked && view'[name].inflight == view[name].inflight
            && forall n | n != name :: (n in view' <==> n in view) && (n in view ==> view'[n] == view[n])
  {
    RunInv(su, states, actions, i);
    assert TakesStep(su, states, actions, i);
  }

  /** Whenever a request comes to hold another route, on admission, after a failure or by a
      swap, it is the route that precedes every other eligible one of its alias at that
      instant, its own old slot counting as free. */
  lemma TakesTheBestRoute(su: Setup, states: seq<System>, actions: seq<Action>, i: nat, id: nat)
    requires SetupOk(su) && IsRun(su, states, actions) && i < |actions| && id < |states[i].requests|
    requires id < |states[i + 1].requests| && states[i + 1].requests[id].held.Some?
    requires states[i + 1].requests[id].held != states[i].requests[id].held
    ensures var (r, r') := (states[i].requests[id], states[i + 1].requests[id]);
            var view := Release(states[i].shared.view, r.held);
            && r.alias in su.aliases
            && Resolved(su.caps, view, su.aliases[r.alias])
            && IsBest(su.caps, view, su.aliases[r.alias], r.attempted, r'.held.value)
  {
    RunInv(su, states, actions, i);
    assert TakesStep(su, states, actions, i);
    var r := states[i].requests[id];
    HeldIsCounted(su, states[i], id);
    assert actions[i].Act? && actions[i].id == id;
    HeldAfter(r, actions[i].input, Look(su, states[i].shared.view, r));
    TakesBest(su, states[i].shared.view, r);
  }

  lemma TakesBest(su: Setup, view: View, r: Request)
    requires ViewOk(su, view) && Counted(view, r)
    requires r.pending == [] && (r.pc.Begin? || r.pc.Retry? || r.pc.Swapping?) && Look(su, view, r).res.Reserved?
    ensures r.alias in su.aliases
    ensures Resolved(su.caps, Release(view, r.held), su.aliases[r.alias])
    ensures IsBest(su.caps, Release(view, r.held), su.aliases[r.alias], r.attempted, Look(su, view, r).res.route)
  {
    if r.pc.Swapping? {
      SwapEffect(su, view, r.alias, r.held.value, r.attempted);
    } else {
      ReserveEffect(su, view, r.alias, r.attempted);
    }
  }

  /** From a moment at which a backend is unhealthy until a probe of it succeeds, no
      request, on any alias, takes a slot on it. */
  lemma QuarantineHolds(su: Setup, states: seq<System>, actions: seq<Action>, i: nat, j: nat, name: string)
    requires SetupOk(su) && IsRun(su, states, actions) && i <= j < |actions| && name in su.caps
    requires !Usable(states[i], name)
    requires forall k | i <= k < j :: actions[k] != Probe(name, true)
    requires actions[j].Act?
    ensures var id := actions[j].id;
            && id < |states[j].requests| && id < |states[j + 1].requests|
            && var (r, r') := (states[j].requests[id], states[j + 1].requests[id]);
               r'.held.Some? && r'.held != r.held ==> r'.held.value.backend.name != name
  {
    StaysUnhealthy(su, states, actions, i, j, name);
    RunInv(su, states, actions, j);
    assert TakesStep(su, states, actions, j);
    AcquiresHealthyOnly(su, states[j], actions[j].id, actions[j].input);
  }

  /** A transport failure starts such a period for the backend it happened on. */
  lemma TransportFailureQuarantines(su: Setup, states: seq<System>, actions: seq<Action>, i: nat, id: nat)
    requires SetupOk(su) && IsRun(su, states, actions) && i < |actions|
    requires actions[i] == Act(id, Tick) && id < |states[i].requests| && states[i].requests[id].pc.Quarantine?
    ensures var r := states[i].requests[id];
            && r.tried != []
            && LastOutcome(r).Failed?
            && var name := r.tried[|r.tried| - 1].backend.name;
               && name in states[i + 1].shared.view
               && states[i + 1].shared.view[name].checked
               && !Usable(states[i + 1], name)
  {
    RequestAt(su, states, actions, i, id);
    RunInv(su, states, actions, i);
    HeldIsCounted(su, states[i], id);
    assert TakesStep(su, states, actions, i);
  }

  /** Request `id` marks a backend unhealthy. */
  ghost predicate Quarantines(s: System, a: Action, s': System, id: nat, name: string) {
    && a == Act(id, Tick) && id < |s.requests|
    && s.requests[id].pending == [] && s.requests[id].pc.Quarantine?
    && name in s'.shared.view && !Usable(s', name)
  }

  /** Attempt k failed in transport, and the request has gone on since. */
  predicate FailedAt(r: Request, k: nat) {
    k < |r.outcomes| && k < |r.tried| && r.outcomes[k].Failed? && !(r.pc.Quarantine? && k == |r.outcomes| - 1)
  }

  /** An attempt that has newly failed and been left is the one being quarantined. */
  ghost predicate NewlyFailed(r: Request, r': Request, k: nat) {
    FailedAt(r', k) ==>
      || (FailedAt(r, k) && r.tried[k] == r'.tried[k])
      || (r.pending == [] && r.pc.Quarantine? && k == |r.tried| - 1 && r'.tried == r.tried)
  }

  lemma EarlyFailed(r: Request, input: Input, seen: Seen, k: nat)
    requires Accepts(r, input) && r.pending == [] && !Late(r.pc) && !Responding(r.pc)
    requires |r.outcomes| == (if r.pc.Trying? then |r.tried| - 1 else |r.tried|)
    ensures NewlyFailed(r, NextRequest(r, input, seen), k)
  {
  }

  lemma RespondingFailed(r: Request, input: Input, seen: Seen, k: nat)
    requires Accepts(r, input) && r.pending == [] && Responding(r.pc)
    ensures NewlyFailed(r, NextRequest(r, input, seen), k)
  {
  }

  lemma FailedAfter(r: Request, input: Input, seen: Seen, k: nat)
    requires Accepts(r, input) && |r.outcomes| == (if r.pc.Trying? then |r.tried| - 1 else |r.tried|)
    ensures NewlyFailed(r, NextRequest(r, input, seen), k)
  {
    if r.pending == [] {
      if Late(r.pc) {
        LateCommitted(r, input, seen);
      } else if Responding(r.pc) {
        RespondingFailed(r, input, seen, k);
      } else {
        EarlyFailed(r, input, seen, k);
      }
    }
  }

  lemma QuarantineMarks(su: Setup, s: System, id: nat, input: Input)
    requires Inv(su, s) && Enabled(s, Act(id, input))
    requires s.requests[id].pending == [] && s.requests[id].pc.Quarantine?
    ensures var r := s.requests[id];
            && r.tried != []
            && Quarantines(s, Act(id, input), Step(su, s, Act(id, input)), id, r.tried[|r.tried| - 1].backend.name)
  {
    assert RequestOk(su, s.requests[id]);
    HeldIsCounted(su, s, id);
  }

  lemma FailedStep(su: Setup, s: System, a: Action, id: nat, k: nat)
    requires Inv(su, s) && Enabled(s, a) && id < |s.requests|
    ensures var s' := Step(su, s, a);
            && id < |s'.requests|
            && var (r, r') := (s.requests[id], s'.requests[id]);
               FailedAt(r', k) ==>
                 || (FailedAt(r, k) && r.tried[k] == r'.tried[k])
                 || Quarantines(s, a, s', id, r'.tried[k].backend.name)
  {
    if a.Act? && a.id == id {
      var r := s.requests[id];
      assert RequestOk(su, r);
      FailedAfter(r, a.input, Look(su, s.shared.view, r), k);
      if r.pending == [] && r.pc.Quarantine? {
        QuarantineMarks(su, s, id, a.input);
      }
    }
  }

  /** No transport failure goes without consequence: before the request does anything else,
      it marks the backend of that very attempt unhealthy. */
  lemma {:induction false} FailuresAreQuarantined(su: Setup, states: seq<System>, actions: seq<Action>, i: nat, id: nat,
                                                  k: nat)
    requires SetupOk(su) && IsRun(su, states, actions) && i < |states| && id < |states[i].requests|
    requires FailedAt(states[i].requests[id], k)
    ensures exists j: nat | j < i ::
              Quarantines(states[j], actions[j], states[j + 1], id, states[i].requests[id].tried[k].backend.name)
  {
    if i > 0 {
      assert TakesStep(su, states, actions, i - 1);
      RunInv(su, states, actions, i - 1);
      if id < |states[i - 1].requests| {
        FailedStep(su, states[i - 1], actions[i - 1], id, k);
        if FailedAt(states[i - 1].requests[id], k) {
          FailuresAreQuarantined(su, states, actions, i - 1, id, k);
        }
      }
    }
  }

  // ----- metrics -----------------------------------------------------------

  lemma {:induction false} SumDifference(rs: seq<Request>, alias: string)
    requires forall r | r in rs :: CountOk(r) && r.pc.Finished?
    ensures Sum(rs, ObservedFor(alias)) - Sum(rs, FailoversFor(alias)) == Sum(rs, AdmittedFor(alias))
  {
    if rs != [] {
      SumDifference(rs[..|rs| - 1], alias);
    }
  }

  /** At rest, for each alias, recorded attempts minus recorded failovers is the number of
      requests admitted under it. */
  lemma AttemptsMinusFailovers(su: Setup, states: seq<System>, actions: seq<Action>, i: nat, alias: string)
    requires SetupOk(su) && IsRun(su, states, actions) && i < |states|
    requires forall r | r in states[i].requests :: r.pc.Finished?
    ensures Count(states[i].shared.attempts, alias) - Count(states[i].shared.failovers, alias)
            == Sum(states[i].requests, AdmittedFor(alias))
  {
    RunInv(su, states, actions, i);
    forall r | r in states[i].requests ensures CountOk(r) {
      assert RequestOk(su, r);
    }
    SumDifference(states[i].requests, alias);
  }

  /** Every admitted request that has finished was recorded with one attempt more than
      failovers, and one attempt for each route it tried. */
  lemma AttemptsAreFailoversPlusOne(su: Setup, states: seq<System>, actions: seq<Action>, i: nat, id: nat)
    requires SetupOk(su) && IsRun(su, states, actions) && i < |states| && id < |states[i].requests|
    requires states[i].requests[id].pc.Finished?
    ensures var r := states[i].requests[id];
            && r.observed == |r.tried|
            && (r.tried != [] ==> r.observed == r.failovers + 1)
            && (r.tried == [] ==> r.failovers == 0)
  {
    RequestAt(su, states, actions, i, id);
  }

  lemma {:induction false} PastWasReal(su: Setup, states: seq<System>, actions: seq<Action>, i: nat, p: Reading)
    requires SetupOk(su) && IsRun(su, states, actions) && i < |states| && p in states[i].shared.past
    ensures exists j: nat | j <= i :: p.0 in states[j].shared.view && states[j].shared.view[p.0].inflight == p.1
  {
    if p in Readings(states[i].shared.view) {
    } else if i > 0 {
      assert TakesStep(su, states, actions, i - 1);
      assert states[i].shared.past <= states[i - 1].shared.past + Readings(states[i].shared.view);
      PastWasReal(su, states, actions, i - 1, p);
    }
  }

  /** Publications may be delayed and reordered, but every value ever published for a
      backend is one its counter really had at that or an earlier moment, and the gauge
      never shows anything outside 0..capacity. */
  lemma PublishedValuesAreReal(su: Setup, states: seq<System>, actions: seq<Action>, i: nat, p: Reading)
    requires SetupOk(su) && IsRun(su, states, actions) && i < |states| && p in states[i].shared.published
    ensures InRange(su, p)
    ensures exists j: nat | j <= i :: p.0 in states[j].shared.view && states[j].shared.view[p.0].inflight == p.1
    ensures forall n | n in states[i].shared.gauge :: InRange(su, (n, states[i].shared.gauge[n]))
  {
    RunInv(su, states, actions, i);
    PastWasReal(su, states, actions, i, p);
    forall n | n in states[i].shared.gauge ensures InRange(su, (n, states[i].shared.gauge[n])) {
      assert (n, states[i].shared.gauge[n]) in states[i].shared.published;
    }
  }

  // ----- termination -------------------------------------------------------

  /** How far a request still is from its end, within one attempt. */
  function Place(pc: Pc): nat {
    match pc
    case Begin => 35
    case Trying => 30
    case CancelRelease => 29
    case CancelObserve => 27
    case Quarantine => 29
    case FailRelease => 28
    case FailObserve => 25
    case Retry => 24
    case CountFailover(_) => 23
    case RespObserve => 29
    case Swapping => 28
    case Discard(_) => 24
    case Forward => 22
    case Relaying => 20
    case ReadLocked(_, _) => 20
    case Writing(_, _) => 20
    case CloseLocked(_) => 10
    case CloseOwed(_) => 9
    case FinalRelease(_) => 8
    case Returned(_) => 5
    case Finished(_) => 0
  }

  function Rank(su: Setup, r: Request): int {
    40 * (RouteCount(su, r.alias) - |r.tried|) + Place(r.pc) + |r.pending|
  }

  lemma TriedAfter(r: Request, input: Input, seen: Seen)
    requires Accepts(r, input)
    ensures |NextRequest(r, input, seen).tried| ==
            |r.tried| +
            (if r.pending == [] && (r.pc.CountFailover? || (r.pc.Begin? && seen.res.Reserved?)) then 1 else 0)
  {
  }

  /** A step moves to a later place, by enough to pay for what it has yet to publish. */
  ghost predicate MovesOn(r: Request, res: Reserved, pc': Pc) {
    if Relay(r.pc) && Relay(pc') then Place(pc') == Place(r.pc)
    else if pc'.Trying? then r.pc.CountFailover? || (r.pc.Begin? && res.Reserved?)
    else Place(pc') + (if r.pc.Swapping? && res.Reserved? then 2 else if Releasing(r.pc) then 1 else 0) < Place(r.pc)
  }

  lemma EarlyPlace(r: Request, input: Input, seen: Seen)
    requires Accepts(r, input) && r.pending == [] && !Late(r.pc) && !Responding(r.pc)
    ensures MovesOn(r, seen.res, NextRequest(r, input, seen).pc)
  {
  }

  lemma RespondingPlace(r: Request, input: Input, seen: Seen)
    requires Accepts(r, input) && r.pending == [] && Responding(r.pc)
    ensures MovesOn(r, seen.res, NextRequest(r, input, seen).pc)
  {
  }

  lemma RelayPlace(r: Request, input: Input, seen: Seen)
    requires Accepts(r, input) && r.pending == [] && Relay(r.pc)
    ensures MovesOn(r, seen.res, NextRequest(r, input, seen).pc)
  {
  }

  lemma ClosingPlace(r: Request, input: Input, seen: Seen)
    requires Accepts(r, input) && r.pending == [] && (Closing(r.pc) || Leaving(r.pc))
    ensures MovesOn(r, seen.res, NextRequest(r, input, seen).pc)
  {
  }

  /** Only turns of the copy loop leave the rank as it is; every other step lowers it,
      whatever the rest of the system did in between. */
  lemma OwnStepLowersRank(su: Setup, r: Request, input: Input, seen: Seen)
    requires Accepts(r, input) && |seen.readings| <= 2
    requires Releasing(r.pc) ==> |seen.readings| <= 1
    ensures var r' := NextRequest(r, input, seen);
            && r'.alias == r.alias
            && (Rank(su, r') < Rank(su, r) || (Relay(r.pc) && Relay(r'.pc) && Rank(su, r') == Rank(su, r)))
  {
    CountsAfter(r, input, seen);
    PendingAfter(r, input, seen);
    TriedAfter(r, input, seen);
    if r.pending == [] {
      if Relay(r.pc) {
        RelayPlace(r, input, seen);
      } else if Closing(r.pc) || Leaving(r.pc) {
        ClosingPlace(r, input, seen);
      } else if Responding(r.pc) {
        RespondingPlace(r, input, seen);
      } else {
        EarlyPlace(r, input, seen);
      }
    }
  }

  /** An unfinished request can always take its next step. */
  lemma NeverStuck(r: Request)
    requires !r.pc.Finished? || r.pending != []
    ensures exists input :: Accepts(r, input)
  {
    assert Accepts(r, Tick) || Accepts(r, Ended(Canceled)) || Accepts(r, Got([], IR.Eof)) || Accepts(r, Wrote(0, true));
  }

  /** Steps request `id` has taken by moment i, not counting turns of the copy loop. */
  ghost function OwnSteps(states: seq<System>, actions: seq<Action>, id: nat, i: nat): nat
    requires |states| == |actions| + 1 && i < |states|
  {
    if i == 0 then 0 else
    OwnSteps(states, actions, id, i - 1) +
    (if actions[i - 1].Act? && actions[i - 1].id == id && id < |states[i - 1].requests| && id < |states[i].requests|
        && !(Relay(states[i - 1].requests[id].pc) && Relay(states[i].requests[id].pc)) then 1 else 0)
  }

  lemma RankStep(su: Setup, s: System, a: Action, id: nat)
    requires Inv(su, s) && Enabled(s, a) && id < |s.requests|
    ensures var s' := Step(su, s, a);
            && id < |s'.requests|
            && s'.requests[id].alias == s.requests[id].alias
            && Rank(su, s'.requests[id]) <= Rank(su, s.requests[id])
            && (a.Act? && a.id == id && !(Relay(s.requests[id].pc) && Relay(s'.requests[id].pc)) ==>
                  Rank(su, s'.requests[id]) < Rank(su, s.requests[id]))
  {
    if a.Act? && a.id == id {
      var r := s.requests[id];
      assert r in s.requests;
      HeldIsCounted(su, s, id);
      OwnStepLowersRank(su, r, a.input, Look(su, s.shared.view, r));
    }
  }

  lemma {:induction false} StepsAndRank(su: Setup, states: seq<System>, actions: seq<Action>, i: nat, id: nat)
    requires SetupOk(su) && IsRun(su, states, actions) && i < |states|
    ensures id >= |states[i].requests| ==> OwnSteps(states, actions, id, i) == 0
    ensures id < |states[i].requests| ==>
              OwnSteps(states, actions, id, i) + Rank(su, states[i].requests[id]) <=
              40 * RouteCount(su, states[i].requests[id].alias) + 35
  {
    if i > 0 {
      StepsAndRank(su, states, actions, i - 1, id);
      RunInv(su, states, actions, i - 1);
      assert TakesStep(su, states, actions, i - 1);
      if id < |states[i - 1].requests| {
        RankStep(su, states[i - 1], actions[i - 1], id);
      }
    }
  }

  /** Under any interference a request takes at most 40 steps for each of its alias's
      routes, and 35 more, besides the turns of its copy loop. */
  lemma RequestsTerminate(su: Setup, states: seq<System>, actions: seq<Action>, i: nat, id: nat)
    requires SetupOk(su) && IsRun(su, states, actions) && i < |states| && id < |states[i].requests|
    ensures OwnSteps(states, actions, id, i) <= 40 * RouteCount(su, states[i].requests[id].alias) + 35
  {
    RequestAt(su, states, actions, i, id);
    TriedFits(su, states[i].requests[id]);
    StepsAndRank(su, states, actions, i, id);
  }
}
