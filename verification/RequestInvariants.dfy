/**
 What every step of a single request keeps, whatever the shared state has become in
 the meantime. None of these mentions another request.
 */
module RequestInvariants {
  import opened Common
  import opened Routing
  import opened Protocol
  import IR = IdleReader

  /** The program points at which a request owns a slot on some backend. */
  predicate Holding(pc: Pc) {
    !(pc.Begin? || pc.CancelObserve? || pc.FailObserve? || pc.Retry? || pc.Returned? || pc.Finished?)
  }

  predicate Switching(pc: Pc) { pc.CountFailover? || pc.Discard? }

  /** Program points at which the current attempt is not yet in the metrics. */
  predicate Unobserved(pc: Pc) {
    || pc.Trying?
    || pc.CancelRelease? || pc.CancelObserve?
    || pc.Quarantine? || pc.FailRelease? || pc.FailObserve?
    || pc.RespObserve?
  }

  predicate Relay(pc: Pc) { pc.Relaying? || pc.ReadLocked? || pc.Writing? }

  predicate Closing(pc: Pc) { pc.CloseLocked? || pc.CloseOwed? || pc.FinalRelease? }

  predicate Leaving(pc: Pc) { pc.Returned? || pc.Finished? }

  /** No route is tried twice, and all are routes of the request's alias. */
  ghost predicate TriedOk(su: Setup, r: Request) {
    && Distinct(r.tried)
    && r.attempted == Elements(r.tried)
    && (r.tried != [] ==> r.alias in su.aliases)
    && (forall x | x in r.tried :: x in su.aliases[r.alias])
    && (r.tried == [] ==> r.pc.Begin? || Leaving(r.pc))
    && (r.pc.Begin? ==> r.tried == [])
    && (Switching(r.pc) ==> r.pc.next in su.aliases[r.alias] && r.pc.next !in r.attempted)
  }

  /** A slot is held exactly at the holding points: the next route's while switching,
      otherwise that of the last route tried. Readings are published before going on. */
  ghost predicate HoldOk(su: Setup, r: Request)
    requires TriedOk(su, r)
  {
    && (r.held.Some? <==> Holding(r.pc))
    && (r.held.Some? ==> r.held.value == if Switching(r.pc) then r.pc.next else r.tried[|r.tried| - 1])
    && (r.pending != [] ==> r.pc.Discard? || r.pc.CancelObserve? || r.pc.FailObserve? || r.pc.Returned?)
  }

  /** Why a request may answer what it answers. */
  ghost predicate ReplyOk(su: Setup, r: Request, reply: Reply) {
    var last := LastOutcome(r);
    match reply.err
    case Some(ErrUnknownAlias) => r.tried == [] && r.alias !in su.aliases
    case Some(ErrNoRoute) => r.tried == [] && r.alias in su.aliases
    case Some(ErrUpstreamTimeout) => r.tried != [] && last == Failed(true)
    case Some(ErrUpstreamUnavailable) => r.tried != [] && last == Failed(false)
    case Some(ErrStreamUnsupported) => r.tried != [] && last.Responded? && last.streaming && !r.flushable
    case None =>
      && r.tried != []
      && (|| (last.Canceled? && reply.status == STATUS_CLIENT_CLOSED)
          || (last.Responded? && reply.status == last.status && (last.streaming ==> r.flushable)))
  }

  /** Only transport failures and retryable statuses are ever left behind. */
  ghost predicate OutcomeOk(su: Setup, r: Request) {
    var last := LastOutcome(r);
    && |r.outcomes| == (if r.pc.Trying? then |r.tried| - 1 else |r.tried|)
    && (forall i | 0 <= i < |r.tried| - 1 :: MayFailOver(r.outcomes[i]))
    && (r.pc.CancelRelease? || r.pc.CancelObserve? ==> last.Canceled?)
    && (r.pc.Quarantine? || r.pc.FailRelease? || r.pc.FailObserve? || r.pc.Retry? ==> r.tried != [] && last.Failed?)
    && (Switching(r.pc) ==> r.tried != [] && MayFailOver(last))
    && (r.pc.RespObserve? ==> last.Responded?)
    && (r.pc.Swapping? || r.pc.Discard? ==> last.Responded? && MayFailOver(last))
    && (r.pc.Forward? || Relay(r.pc) || Closing(r.pc) ==> last.Responded?)
    && (Relay(r.pc) ==> !last.streaming || r.flushable)
    && (Closing(r.pc) || Leaving(r.pc) ==> ReplyOk(su, r, r.pc.reply))
  }

  /** Recorded attempts and failovers follow the routes tried. */
  predicate CountOk(r: Request) {
    && r.failovers == (if r.tried == [] then 0 else |r.tried| - 1)
    && r.observed == (if Unobserved(r.pc) then |r.tried| - 1 else |r.tried|)
  }

  /** The response header is Serve's exactly when an upstream response was forwarded,
      and the handler's exactly when Serve returned an error. */
  predicate HeaderOk(r: Request) {
    var last := LastOutcome(r);
    r.headers ==
      if Relay(r.pc) then [if last.Responded? then last.status else 0]
      else if Closing(r.pc) || r.pc.Returned? then
        (if r.pc.reply.err.None? && last.Responded? then [last.status] else [])
      else if r.pc.Finished? then
        (match r.pc.reply.err
         case Some(e) => [ErrorStatus(e)]
         case None => if last.Responded? then [last.status] else [])
      else []
  }

  /** The reply is that of a forwarded upstream response. */
  predicate Forwarded(r: Request, reply: Reply) {
    reply.err.None? && LastOutcome(r).Responded?
  }

  /** Bytes sent are a prefix of the bytes read, and all come from the last attempt's response. */
  ghost predicate BytesOk(r: Request) {
    && (r.received != [] ==>
          r.tried != [] && (Relay(r.pc) || ((Closing(r.pc) || Leaving(r.pc)) && Forwarded(r, r.pc.reply))))
    && (forall i | 0 <= i < |r.received| :: r.received[i].attempt == |r.tried| - 1)
    && r.sent <= r.received
    && (r.pc.Relaying? ==> r.sent == r.received)
    && (r.pc.ReadLocked? || r.pc.Writing? ==>
          r.tried != [] && r.received == r.sent + Tag(|r.tried| - 1, r.pc.chunk))
  }

  predicate TimedOut(r: Request) { r.reader.Some? && r.reader.value.timedOut }

  /** The response has been forwarded; what is left is to close and to leave. */
  predicate Copied(r: Request) { (Closing(r.pc) || Leaving(r.pc)) && Forwarded(r, r.pc.reply) }

  /** The copy goes on as long as reads deliver nothing but bytes and writes take them all.
      It leaves bytes behind only if a write was cut short, and stops otherwise only at an
      end of the body or a timeout. */
  ghost predicate CopyOk(r: Request) {
    && (r.cut || r.ended ==> Relay(r.pc) || Copied(r))
    && (Relay(r.pc) ==> !r.cut)
    && (r.pc.Relaying? ==> !r.ended)
    && (r.pc.ReadLocked? ==> (r.ended <==> !r.pc.end.More?))
    && (r.pc.Writing? ==> (r.ended ==> !r.pc.end.More?) && (!r.pc.end.More? ==> r.ended || TimedOut(r)))
    && (Copied(r) ==> r.cut || r.sent == r.received)
    && (Copied(r) ==> r.cut || r.ended || TimedOut(r))
  }

  /** The response of attempt k has been left behind by a failover. */
  predicate Abandoned(r: Request, k: nat) {
    k + 1 < |r.outcomes| || r.pc.Trying? || r.pc.CountFailover?
  }

  /** Each response left behind has been closed once, no other has; the reader, once there
      is one, wraps the last response's body and none else. */
  ghost predicate BodiesOk(r: Request) {
    && |r.closes| == |r.outcomes|
    && (forall k: nat | k < |r.outcomes| ::
          r.closes[k] == (if r.outcomes[k].Responded? && Abandoned(r, k) then 1 else 0))
    && (r.reader.Some? <==> Relay(r.pc) || Closing(r.pc) || (Leaving(r.pc) && LastOutcome(r).Responded?))
    && (r.reader.Some? ==> r.outcomes != [] && LastOutcome(r).Responded? && r.source == |r.outcomes| - 1)
    && (r.reader.Some? ==> IR.CloseOnce(r.reader.value))
    && (r.pc.CloseOwed? ==> r.reader.value.owed == 1)
    && (r.reader.Some? && (r.pc.CloseOwed? || r.pc.FinalRelease? || Leaving(r.pc)) ==> r.reader.value.closed)
  }

  /** The idle error reaches the copy loop only from a reader that has timed out. */
  ghost predicate VerdictOk(r: Request) {
    match r.pc
    case ReadLocked(_, end) => !end.IdleTimeout?
    case Writing(_, end) => end.IdleTimeout? ==> r.reader.Some? && r.reader.value.timedOut
    case _ => true
  }

  ghost predicate RequestOk(su: Setup, r: Request) {
    && TriedOk(su, r)
    && HoldOk(su, r)
    && OutcomeOk(su, r)
    && CountOk(r)
    && HeaderOk(r)
    && BytesOk(r)
    && CopyOk(r)
    && BodiesOk(r)
    && VerdictOk(r)
  }

  // ----- preservation ------------------------------------------------------

  /** What the request may rely on about a reservation attempt. */
  ghost predicate FoundOk(su: Setup, r: Request, res: Reserved) {
    match res
    case UnknownAlias => r.alias !in su.aliases
    case NoRoute => r.alias in su.aliases
    case Reserved(route) => r.alias in su.aliases && route in su.aliases[r.alias] && route !in r.attempted
  }

  /** What the request may rely on about its critical section. */
  ghost predicate SeenOk(su: Setup, r: Request, seen: Seen) {
    && (r.pc.Begin? || r.pc.Retry? ==> FoundOk(su, r, seen.res))
    && (r.pc.Swapping? && seen.res.Reserved? ==> FoundOk(su, r, seen.res))
  }

  lemma PublishStep(su: Setup, r: Request)
    requires RequestOk(su, r) && r.pending != []
    ensures RequestOk(su, r.(pending := r.pending[1..]))
  {
  }

  lemma AdmitStep(su: Setup, r: Request, res: Reserved)
    requires RequestOk(su, r) && r.pending == [] && r.pc.Begin? && FoundOk(su, r, res)
    ensures RequestOk(su, FirstReserve(r, res))
  {
    assert res.Reserved? ==> Elements([res.route]) == {res.route};
  }

  lemma AttemptStep(su: Setup, r: Request, o: Outcome)
    requires RequestOk(su, r) && r.pending == [] && r.pc.Trying?
    ensures RequestOk(su, EndAttempt(r, o))
  {
  }

  lemma CancelStep(su: Setup, r: Request, readings: seq<Reading>)
    requires RequestOk(su, r) && r.pending == [] && r.pc.CancelRelease?
    ensures RequestOk(su, LetGo(r, readings, CancelObserve))
  {
  }

  lemma CancelObserveStep(su: Setup, r: Request)
    requires RequestOk(su, r) && r.pending == [] && r.pc.CancelObserve?
    ensures RequestOk(su, Observed(r, Returned(Reply(STATUS_CLIENT_CLOSED, None))))
  {
  }

  lemma QuarantineStep(su: Setup, r: Request)
    requires RequestOk(su, r) && r.pending == [] && r.pc.Quarantine?
    ensures RequestOk(su, r.(pc := FailRelease))
  {
  }

  lemma FailReleaseStep(su: Setup, r: Request, readings: seq<Reading>)
    requires RequestOk(su, r) && r.pending == [] && r.pc.FailRelease?
    ensures RequestOk(su, LetGo(r, readings, FailObserve))
  {
  }

  lemma FailObserveStep(su: Setup, r: Request)
    requires RequestOk(su, r) && r.pending == [] && r.pc.FailObserve?
    ensures RequestOk(su, Observed(r, Retry))
  {
  }

  lemma RetryStep(su: Setup, r: Request, res: Reserved)
    requires RequestOk(su, r) && r.pending == [] && r.pc.Retry? && FoundOk(su, r, res)
    ensures RequestOk(su, NextReserve(r, res))
  {
  }

  lemma FailoverStep(su: Setup, r: Request)
    requires RequestOk(su, r) && r.pending == [] && r.pc.CountFailover?
    ensures RequestOk(su, EnterAttempt(r.(failovers := r.failovers + 1), r.pc.next))
  {
    assert Elements(r.tried + [r.pc.next]) == Elements(r.tried) + {r.pc.next};
  }

  lemma ResponseStep(su: Setup, r: Request)
    requires RequestOk(su, r) && r.pending == [] && r.pc.RespObserve?
    ensures RequestOk(su, Observed(r, if MayFailOver(LastOutcome(r)) then Swapping else Forward))
  {
  }

  lemma SwapStep(su: Setup, r: Request, seen: Seen)
    requires RequestOk(su, r) && r.pending == [] && r.pc.Swapping? && SeenOk(su, r, seen)
    ensures RequestOk(su, Swapped(r, seen))
  {
  }

  lemma DiscardStep(su: Setup, r: Request)
    requires RequestOk(su, r) && r.pending == [] && r.pc.Discard?
    ensures RequestOk(su, DiscardBody(r, r.pc.next))
  {
  }

  /** Wrapping the body in a reader hands it over; it is neither lost nor closed. */
  lemma RefuseStep(su: Setup, r: Request, reader: IR.Reader)
    requires RequestOk(su, r) && r.pending == [] && r.pc.Forward? && LastOutcome(r).streaming && !r.flushable
    requires IR.CloseOnce(reader) && !reader.closed
    ensures RequestOk(su, Commence(r, reader))
  {
  }

  lemma CommitStep(su: Setup, r: Request, reader: IR.Reader)
    requires RequestOk(su, r) && r.pending == [] && r.pc.Forward? && (!LastOutcome(r).streaming || r.flushable)
    requires IR.CloseOnce(reader) && !reader.closed
    ensures RequestOk(su, Commence(r, reader))
  {
  }

  lemma ReadStep(su: Setup, r: Request, data: seq<int>, end: IR.Ending)
    requires RequestOk(su, r) && r.pending == [] && r.pc.Relaying? && !end.IdleTimeout?
    ensures RequestOk(su, ReadBody(r, data, end))
  {
  }

  lemma ReadLockStep(su: Setup, r: Request)
    requires RequestOk(su, r) && r.pending == [] && r.pc.ReadLocked?
    ensures RequestOk(su, ReadReturns(r, r.pc.chunk, r.pc.end))
  {
  }

  lemma WriteBytes(r: Request, input: Input)
    requires BytesOk(r) && CopyOk(r) && r.pending == [] && r.pc.Writing? && Accepts(r, input)
    requires LastOutcome(r).Responded? && r.source == |r.tried| - 1
    ensures var r' := WriteReturns(r, r.pc.chunk, r.pc.end, input); BytesOk(r') && CopyOk(r')
  {
    if r.pc.chunk != [] {
      var from, chunk, n := r.source, r.pc.chunk, input.count;
      assert Tag(from, chunk[..n]) == Tag(from, chunk)[..n];
      assert r.sent + Tag(from, chunk)[..n] == r.received[..|r.sent| + n];
    } else {
      assert r.sent == r.received;
    }
  }

  lemma WriteStep(su: Setup, r: Request, input: Input)
    requires RequestOk(su, r) && r.pending == [] && r.pc.Writing? && Accepts(r, input)
    ensures RequestOk(su, WriteReturns(r, r.pc.chunk, r.pc.end, input))
  {
    WriteBytes(r, input);
  }

  lemma CloseStep(su: Setup, r: Request)
    requires RequestOk(su, r) && r.pending == [] && r.pc.CloseLocked?
    ensures RequestOk(su, CloseReader(r, r.pc.reply))
  {
  }

  lemma CloseBodyStep(su: Setup, r: Request)
    requires RequestOk(su, r) && r.pending == [] && r.pc.CloseOwed?
    ensures RequestOk(su, ReaderStep(r, IR.CloseBody).(pc := FinalRelease(r.pc.reply)))
  {
  }

  lemma LeaveStep(su: Setup, r: Request, readings: seq<Reading>)
    requires RequestOk(su, r) && r.pending == [] && r.pc.FinalRelease?
    ensures RequestOk(su, LetGo(r, readings, Returned(r.pc.reply)))
  {
  }

  lemma HandlerStep(su: Setup, r: Request)
    requires RequestOk(su, r) && r.pending == [] && r.pc.Returned?
    ensures RequestOk(su, Handle(r, r.pc.reply))
  {
  }

  ghost predicate MayStep(su: Setup, r: Request, input: Input, seen: Seen) {
    Accepts(r, input) && RequestOk(su, r) && SeenOk(su, r, seen)
  }

  predicate Late(pc: Pc) { Relay(pc) || Closing(pc) || Leaving(pc) }

  lemma EarlyStep(su: Setup, r: Request, input: Input, seen: Seen)
    requires MayStep(su, r, input, seen) && r.pending == [] && !Late(r.pc) && !Responding(r.pc)
    ensures RequestOk(su, NextRequest(r, input, seen))
  {
    match r.pc
    case Begin => AdmitStep(su, r, seen.res);
    case Trying => AttemptStep(su, r, input.outcome);
    case CancelRelease => CancelStep(su, r, seen.readings);
    case CancelObserve => CancelObserveStep(su, r);
    case Quarantine => QuarantineStep(su, r);
    case FailRelease => FailReleaseStep(su, r, seen.readings);
    case FailObserve => FailObserveStep(su, r);
    case Retry => RetryStep(su, r, seen.res);
    case CountFailover(_) => FailoverStep(su, r);
  }

  predicate Responding(pc: Pc) { pc.RespObserve? || pc.Swapping? || pc.Discard? || pc.Forward? }

  lemma RespondingStep(su: Setup, r: Request, input: Input, seen: Seen)
    requires MayStep(su, r, input, seen) && r.pending == [] && Responding(r.pc)
    ensures RequestOk(su, NextRequest(r, input, seen))
  {
    match r.pc
    case RespObserve => ResponseStep(su, r);
    case Swapping => SwapStep(su, r, seen);
    case Discard(_) => DiscardStep(su, r);
    case Forward =>
      if LastOutcome(r).streaming && !r.flushable {
        RefuseStep(su, r, IR.Fresh());
      } else {
        CommitStep(su, r, IR.Fresh());
      }
  }

  lemma LateStep(su: Setup, r: Request, input: Input, seen: Seen)
    requires MayStep(su, r, input, seen) && r.pending == [] && Late(r.pc)
    ensures RequestOk(su, NextRequest(r, input, seen))
  {
    match r.pc
    case Relaying => ReadStep(su, r, input.data, input.end);
    case ReadLocked(_, _) => ReadLockStep(su, r);
    case Writing(_, _) => WriteStep(su, r, input);
    case CloseLocked(_) => CloseStep(su, r);
    case CloseOwed(_) => CloseBodyStep(su, r);
    case FinalRelease(_) => LeaveStep(su, r, seen.readings);
    case Returned(_) => HandlerStep(su, r);
  }

  /** Every step of a request, whatever its critical section found, keeps all of it. */
  lemma RequestStep(su: Setup, r: Request, input: Input, seen: Seen)
    requires MayStep(su, r, input, seen)
    ensures RequestOk(su, NextRequest(r, input, seen))
  {
    if r.pending != [] {
      PublishStep(su, r);
    } else if Responding(r.pc) {
      RespondingStep(su, r, input, seen);
    } else if Late(r.pc) {
      LateStep(su, r, input, seen);
    } else {
      EarlyStep(su, r, input, seen);
    }
  }

  /** The reservation a request holds after its step. */
  function NextHeld(r: Request, res: Reserved): Option<Route> {
    if r.pending != [] then r.held
    else if r.pc.CancelRelease? || r.pc.FailRelease? || r.pc.FinalRelease? then None
    else if (r.pc.Begin? || r.pc.Retry? || r.pc.Swapping?) && res.Reserved? then Some(res.route)
    else r.held
  }

  lemma HeldAfter(r: Request, input: Input, seen: Seen)
    requires Accepts(r, input)
    ensures NextRequest(r, input, seen).held == NextHeld(r, seen.res)
  {
  }

  predicate Counts(r: Request, r': Request) {
    && r'.alias == r.alias
    && r'.observed == r.observed + (if r.pending == [] && Observes(r.pc) then 1 else 0)
    && r'.failovers == r.failovers + (if r.pending == [] && r.pc.CountFailover? then 1 else 0)
  }

  lemma EarlyCounts(r: Request, input: Input, seen: Seen)
    requires Accepts(r, input) && r.pending == [] && !Late(r.pc) && !Responding(r.pc)
    ensures Counts(r, NextRequest(r, input, seen))
  {
  }

  lemma RespondingCounts(r: Request, input: Input, seen: Seen)
    requires Accepts(r, input) && r.pending == [] && Responding(r.pc)
    ensures Counts(r, NextRequest(r, input, seen))
  {
  }

  /** From the header on, a request makes no attempt and counts nothing; the header is
      written at most by the handler, for an error. */
  predicate Committed(r: Request, r': Request) {
    && Late(r'.pc)
    && r'.alias == r.alias && r'.tried == r.tried && r'.outcomes == r.outcomes
    && r'.observed == r.observed && r'.failovers == r.failovers
    && (r'.headers == r.headers || (r.pc.Returned? && r.pc.reply.err.Some?))
  }

  lemma RelayCommitted(r: Request, input: Input, seen: Seen)
    requires Accepts(r, input) && r.pending == [] && Relay(r.pc)
    ensures Committed(r, NextRequest(r, input, seen))
  {
  }

  lemma ClosingCommitted(r: Request, input: Input, seen: Seen)
    requires Accepts(r, input) && r.pending == [] && (Closing(r.pc) || Leaving(r.pc))
    ensures Committed(r, NextRequest(r, input, seen))
  {
  }

  lemma LateCommitted(r: Request, input: Input, seen: Seen)
    requires Accepts(r, input) && r.pending == [] && Late(r.pc)
    ensures Committed(r, NextRequest(r, input, seen))
  {
    if Relay(r.pc) {
      RelayCommitted(r, input, seen);
    } else {
      ClosingCommitted(r, input, seen);
    }
  }

  /** A step counts an attempt or a failover exactly where the program does. */
  lemma CountsAfter(r: Request, input: Input, seen: Seen)
    requires Accepts(r, input)
    ensures Counts(r, NextRequest(r, input, seen))
  {
    if r.pending == [] {
      if Late(r.pc) {
        LateCommitted(r, input, seen);
      } else if Responding(r.pc) {
        RespondingCounts(r, input, seen);
      } else {
        EarlyCounts(r, input, seen);
      }
    }
  }

  /** An idle timer's step touches nothing of the request but its reader. */
  lemma TimerStep(su: Setup, r: Request, event: IR.Action)
    requires RequestOk(su, r) && TimerMay(r, event)
    ensures RequestOk(su, ReaderStep(r, event))
  {
    IR.StepKeeps(r.reader.value, event);
  }
}
