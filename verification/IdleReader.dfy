/**
 The idle-timeout reader that wraps an upstream response body: a timer, any number
 of Read calls and any number of Close calls, interleaved at every lock boundary.
 */
module IdleReader {

  /** `waiting` counts expiries that have fired and not yet taken the lock; `owed`
      counts callers that set `closed` and have not yet closed the body. */
  datatype Reader = Reader(armed: bool, waiting: nat, timedOut: bool, closed: bool, owed: nat, bodyCloses: nat)

  function Fresh(): Reader { Reader(true, 0, false, false, 0, 0) }

  datatype Action =
    | Fire                    // the timer goes off and starts an expiry
    | ExpireLock              // an expiry's critical section
    | ReadLock(got: bool)     // a Read's critical section; got: the read returned bytes
    | CloseLock               // a Close's critical section
    | CloseBody               // a caller that owes it closes the body

  predicate Enabled(r: Reader, a: Action) {
    match a
    case Fire => r.armed
    case ExpireLock => r.waiting > 0
    case CloseBody => r.owed > 0
    case _ => true
  }

  function Step(r: Reader, a: Action): Reader
    requires Enabled(r, a)
  {
    match a
    case Fire => r.(armed := false, waiting := r.waiting + 1)
    case ExpireLock =>
      if r.closed then r.(waiting := r.waiting - 1)
      else r.(waiting := r.waiting - 1, timedOut := true, closed := true, owed := r.owed + 1)
    case ReadLock(got) => if got && !r.closed then r.(armed := true) else r
    case CloseLock => if r.closed then r else r.(closed := true, armed := false, owed := r.owed + 1)
    case CloseBody => r.(owed := r.owed - 1, bodyCloses := r.bodyCloses + 1)
  }

  /** Closing is performed or owed exactly once after `closed`, never before. */
  predicate CloseOnce(r: Reader) {
    && r.bodyCloses + r.owed == (if r.closed then 1 else 0)
    && (r.timedOut ==> r.closed)
  }

  ghost predicate IsRun(states: seq<Reader>, actions: seq<Action>) {
    && |states| == |actions| + 1
    && forall i {:trigger actions[i]} | 0 <= i < |actions| ::
         Enabled(states[i], actions[i]) && states[i + 1] == Step(states[i], actions[i])
  }

  /** One step keeps the obligation, never undoes closing or a timeout, lets only an
      expiry that closes raise the timeout, and never arms a closed reader's timer. */
  lemma StepKeeps(r: Reader, a: Action)
    requires CloseOnce(r) && Enabled(r, a)
    ensures CloseOnce(Step(r, a))
    ensures r.closed ==> Step(r, a).closed && Step(r, a).timedOut == r.timedOut && (Step(r, a).armed ==> r.armed)
  {
  }

  /** Over every interleaving: the body is closed at most once, once `closed` is set
      exactly one close has happened or is owed, and if nothing is owed it happened. */
  lemma {:induction false} ClosedExactlyOnce(states: seq<Reader>, actions: seq<Action>, i: nat)
    requires IsRun(states, actions) && states[0] == Fresh() && i < |states|
    ensures CloseOnce(states[i])
  {
    if i > 0 {
      ClosedExactlyOnce(states, actions, i - 1);
      StepKeeps(states[i - 1], actions[i - 1]);
    }
  }

  /** What the caller of Read is told by its critical section. */
  function Reports(r: Reader): bool { r.timedOut }

  /** Whoever closes first settles the reader for good: from then on every Read that
      takes the lock gets the same verdict (idle timeout or not), and the timer
      is never armed again. */
  lemma {:induction false} VerdictIsFinal(states: seq<Reader>, actions: seq<Action>, i: nat, j: nat)
    requires IsRun(states, actions) && states[0] == Fresh()
    requires i <= j < |states| && states[i].closed
    ensures states[j].closed
    ensures Reports(states[j]) == Reports(states[i])
    ensures states[j].armed ==> states[i].armed
    decreases j - i
  {
    if i < j {
      VerdictIsFinal(states, actions, i, j - 1);
      ClosedExactlyOnce(states, actions, j - 1);
      StepKeeps(states[j - 1], actions[j - 1]);
    }
  }

  lemma WatchKeeps(r: Reader, a: Action)
    requires CloseOnce(r) && Enabled(r, a) && (!r.closed ==> r.armed || r.waiting > 0)
    ensures !Step(r, a).closed ==> Step(r, a).armed || Step(r, a).waiting > 0
  {
  }

  /** An open reader is always watched: its timer is armed, or an expiry that will close it
      is on its way. A Read that delivers bytes leaves the timer of an open reader armed. */
  lemma {:induction false} OpenReaderIsWatched(states: seq<Reader>, actions: seq<Action>, i: nat)
    requires IsRun(states, actions) && states[0] == Fresh() && i < |states|
    ensures !states[i].closed ==> states[i].armed || states[i].waiting > 0
    ensures i > 0 && actions[i - 1] == ReadLock(true) && !states[i].closed ==> states[i].armed
  {
    if i > 0 {
      OpenReaderIsWatched(states, actions, i - 1);
      ClosedExactlyOnce(states, actions, i - 1);
      WatchKeeps(states[i - 1], actions[i - 1]);
    }
  }

  /** A Close that gets there first stops the timer for good: it never fires again and no
      Read ever reports a timeout. */
  lemma {:induction false} CloseStopsTheTimer(states: seq<Reader>, actions: seq<Action>, i: nat, j: nat)
    requires IsRun(states, actions) && states[0] == Fresh()
    requires i < j < |states| && actions[i] == CloseLock && !states[i].closed
    ensures states[j].closed && !states[j].armed && !Reports(states[j])
    ensures j < |actions| ==> actions[j] != Fire
    decreases j - i
  {
    if i + 1 < j {
      CloseStopsTheTimer(states, actions, i, j - 1);
      ClosedExactlyOnce(states, actions, j - 1);
      StepKeeps(states[j - 1], actions[j - 1]);
    } else {
      ClosedExactlyOnce(states, actions, i);
    }
  }

  /** The timer has not gone off in the first i actions. */
  ghost predicate NeverFired(actions: seq<Action>, i: nat)
    requires i <= |actions|
  {
    forall m: nat | m < i :: actions[m] != Fire
  }

  /** A Read that delivered bytes took the lock in the first i actions, and the timer has
      not gone off since. */
  ghost predicate FedSinceFire(actions: seq<Action>, i: nat)
    requires i <= |actions|
  {
    exists k: nat | k < i && actions[k] == ReadLock(true) :: NoFireBetween(actions, k, i)
  }

  ghost predicate NoFireBetween(actions: seq<Action>, k: nat, i: nat)
    requires i <= |actions|
  {
    forall m: nat | k < m < i :: actions[m] != Fire
  }

  lemma FedStep(actions: seq<Action>, i: nat)
    requires 0 < i <= |actions|
    ensures FedSinceFire(actions, i) <==>
            actions[i - 1] == ReadLock(true) || (actions[i - 1] != Fire && FedSinceFire(actions, i - 1))
    ensures NeverFired(actions, i) <==> actions[i - 1] != Fire && NeverFired(actions, i - 1)
  {
    if actions[i - 1] != Fire && FedSinceFire(actions, i - 1) {
      var k: nat :| k < i - 1 && actions[k] == ReadLock(true) && NoFireBetween(actions, k, i - 1);
      assert NoFireBetween(actions, k, i);
    }
    if actions[i - 1] == ReadLock(true) {
      assert NoFireBetween(actions, i - 1, i);
    }
    if FedSinceFire(actions, i) {
      var k: nat :| k < i && actions[k] == ReadLock(true) && NoFireBetween(actions, k, i);
      assert k < i - 1 ==> NoFireBetween(actions, k, i - 1);
    }
  }

  /** An open reader's timer is armed exactly when it has never gone off, or bytes were
      delivered after it last did. */
  lemma {:induction false} ArmedExactly(states: seq<Reader>, actions: seq<Action>, i: nat)
    requires IsRun(states, actions) && states[0] == Fresh() && i < |states| && !states[i].closed
    ensures states[i].armed <==> NeverFired(actions, i) || FedSinceFire(actions, i)
  {
    if i > 0 {
      ClosedExactlyOnce(states, actions, i - 1);
      StepKeeps(states[i - 1], actions[i - 1]);
      ArmedExactly(states, actions, i - 1);
      FedStep(actions, i);
    }
  }

  lemma {:induction false} WaitingMeansFired(states: seq<Reader>, actions: seq<Action>, i: nat)
    requires IsRun(states, actions) && states[0] == Fresh() && i < |states| && NeverFired(actions, i)
    ensures states[i].waiting == 0
  {
    if i > 0 {
      FedStep(actions, i);
      WaitingMeansFired(states, actions, i - 1);
    }
  }

  /** An expiry that finds the reader open times it out, and the timeout is stale (the
      reader had been fed, and its timer set going again) exactly when a delivering Read
      took the lock after the timer last went off. */
  lemma TimeoutIsStaleExactly(states: seq<Reader>, actions: seq<Action>, j: nat)
    requires IsRun(states, actions) && states[0] == Fresh() && j < |actions|
    requires actions[j] == ExpireLock && !states[j].closed
    ensures states[j + 1].closed && Reports(states[j + 1])
    ensures states[j + 1].armed == states[j].armed
    ensures states[j].armed <==> FedSinceFire(actions, j)
  {
    ArmedExactly(states, actions, j);
    if NeverFired(actions, j) {
      WaitingMeansFired(states, actions, j);
    }
  }

  /** Such a timeout exists: an expiry may already be waiting for the lock when a Read
      delivers bytes and sets the timer going again. */
  lemma TimeoutAfterFreshBytes()
    ensures exists states: seq<Reader>, actions: seq<Action> :: IsRun(states, actions) && states[0] == Fresh() &&
              actions == [Fire, ReadLock(true), ExpireLock] && states[3].timedOut && states[3].armed
  {
    var s1 := Step(Fresh(), Fire);
    var s2 := Step(s1, ReadLock(true));
    var s3 := Step(s2, ExpireLock);
    var states := [Fresh(), s1, s2, s3];
    var actions := [Fire, ReadLock(true), ExpireLock];
    assert IsRun(states, actions);
  }

  lemma {:induction false} BodyClosesAreCounted(states: seq<Reader>, actions: seq<Action>, i: nat)
    requires IsRun(states, actions) && states[0] == Fresh() && i < |states|
    ensures states[i].bodyCloses == 0 <==> forall m: nat | m < i :: actions[m] != CloseBody
  {
    if i > 0 {
      BodyClosesAreCounted(states, actions, i - 1);
      assert Enabled(states[i - 1], actions[i - 1]);
    }
  }

  /** A Close that finds the reader open is the one that must close the body. A Close that
      finds it closed returns at once, and the body is then still open exactly when the
      caller that closed the reader still owes the close, that is, when nobody has yet
      got as far as closing the body. */
  lemma CloseReturnsEarlyExactly(states: seq<Reader>, actions: seq<Action>, i: nat)
    requires IsRun(states, actions) && states[0] == Fresh() && i < |actions| && actions[i] == CloseLock
    ensures !states[i].closed ==> states[i].owed == 0 && states[i + 1].owed == 1 && states[i + 1].bodyCloses == 0
    ensures states[i].closed ==> states[i + 1] == states[i]
    ensures states[i].closed ==> (states[i + 1].bodyCloses == 0 <==> states[i].owed == 1)
    ensures states[i].closed ==> (states[i + 1].bodyCloses == 0 <==> forall m: nat | m < i :: actions[m] != CloseBody)
  {
    ClosedExactlyOnce(states, actions, i);
    BodyClosesAreCounted(states, actions, i);
  }

  /** Close may return while the body is still open: an expiry set `closed` first and
      has not reached its own close. */
  lemma CloseMayReturnBeforeTheBodyIsClosed()
    ensures exists states: seq<Reader>, actions: seq<Action> :: IsRun(states, actions) && states[0] == Fresh() &&
              actions == [Fire, ExpireLock, CloseLock] && states[3] == states[2] && states[3].bodyCloses == 0
  {
    var s1 := Step(Fresh(), Fire);
    var s2 := Step(s1, ExpireLock);
    var s3 := Step(s2, CloseLock);
    var states := [Fresh(), s1, s2, s3];
    var actions := [Fire, ExpireLock, CloseLock];
    assert IsRun(states, actions);
  }

  lemma OwedStays(r: Reader, a: Action)
    requires CloseOnce(r) && Enabled(r, a)
    ensures r.owed == 1 && !a.CloseBody? ==> Step(r, a).owed == 1
    ensures Later(r, Step(r, a))
  {
  }

  /** What can have become of a reader in the meantime. */
  predicate Later(r: Reader, r': Reader) {
    && (r.closed ==> r'.closed && r'.timedOut == r.timedOut && (r'.armed ==> r.armed))
    && r.bodyCloses <= r'.bodyCloses
  }

  // ----- the reader object -------------------------------------------------

  /** What a body's Read hands back besides its bytes. */
  datatype Ending = More | Eof | Broken | IdleTimeout

  /** The upstream body: what it delivers is up to the network. */
  class Body {
    var closes: nat
    ghost var delivered: seq<int>   // all that its Reads have handed out, in order
    ghost var ended: bool           // some Read has reported an end

    constructor ()
      ensures closes == 0 && delivered == [] && !ended
    {
      closes := 0;
      delivered, ended := [], false;
    }

    /** `last`: there is nothing more to come. */
    method Read(last: bool) returns (data: seq<int>, end: Ending)
      modifies this`delivered, this`ended
      ensures delivered == old(delivered) + data && ended == (old(ended) || !end.More?)
      ensures !end.IdleTimeout? && (last ==> !end.More?)
    {
      data, end := *, *;
      if end.IdleTimeout? || (last && end.More?) { end := Broken; }
      delivered, ended := delivered + data, ended || !end.More?;
    }

    method Close()
      modifies this`closes
      ensures closes == old(closes) + 1
    {
      closes := closes + 1;
    }
  }

  /** The guard in front of the reader: without a positive timeout the body is used as it
      is, and there is no reader. */
  method NewIdleTimeoutReadCloser(body: Body, timeout: int) returns (reader: IdleTimeoutReadCloser?)
    requires body.closes == 0
    ensures reader == null <==> timeout <= 0
    ensures reader != null ==> fresh(reader) && reader.Valid() && reader.Value() == Fresh() && reader.body == body
  {
    if timeout <= 0 {
      return null;
    }
    reader := new IdleTimeoutReadCloser(body);
  }

  class IdleTimeoutReadCloser {
    const body: Body
    var armed: bool
    var timedOut: bool
    var closed: bool
    var waiting: nat     // expiries started and not yet at the lock
    var owed: nat        // callers on their way to close the body

    ghost function Value(): Reader
      reads this, body
    {
      Reader(armed, waiting, timedOut, closed, owed, body.closes)
    }

    ghost predicate Valid()
      reads this, body
    {
      CloseOnce(Value())
    }

    constructor (body: Body)
      requires body.closes == 0
      ensures Valid() && Value() == Fresh() && this.body == body
    {
      this.body := body;
      armed, timedOut, closed := true, false, false;
      waiting, owed := 0, 0;
    }

    method TimerFires()
      requires Valid() && armed
      modifies this
      ensures Valid() && Value() == Step(old(Value()), Fire)
    {
      armed := false;
      waiting := waiting + 1;
    }

    /** The locked part of an expiry; the caller closes the body when told to. */
    method ExpireLocked() returns (mustClose: bool)
      requires Valid() && waiting > 0
      modifies this
      ensures Valid() && Value() == Step(old(Value()), ExpireLock)
      ensures mustClose == !old(closed)
      ensures mustClose ==> owed > 0
    {
      waiting := waiting - 1;
      mustClose := !closed;
      if !closed {
        timedOut := true;
        closed := true;
        owed := owed + 1;
      }
    }

    method CloseOwed()
      requires Valid() && owed > 0
      modifies this, body`closes
      ensures Valid() && Value() == Step(old(Value()), CloseBody)
      ensures body.closes == 1
    {
      owed := owed - 1;
      body.Close();
    }

    method ReadLocked(n: nat) returns (timedOut: bool)
      requires Valid()
      modifies this
      ensures Valid() && Value() == Step(old(Value()), ReadLock(n > 0))
      ensures timedOut == Reports(old(Value()))
    {
      timedOut := this.timedOut;
      if n > 0 && !closed {
        armed := true;
      }
    }

    method CloseLocked() returns (mustClose: bool)
      requires Valid()
      modifies this
      ensures Valid() && Value() == Step(old(Value()), CloseLock)
      ensures mustClose == !old(closed)
      ensures mustClose ==> owed > 0
    {
      mustClose := !closed;
      if !closed {
        closed := true;
        armed := false;
        owed := owed + 1;
      }
    }

    /** Whatever the timer and other callers do to the reader in the meantime; the close
        that this caller owes, if it does, stays its own. */
    method Interfere(owing: bool)
      requires Valid() && (owing ==> owed == 1)
      modifies this, body`closes
      ensures Valid() && (owing ==> owed == 1)
      ensures Later(old(Value()), Value())
    {
      var n: nat := *;
      while n > 0
        invariant Valid() && (owing ==> owed == 1)
        invariant Later(old(Value()), Value())
        decreases n
      {
        var a: Action := *;
        if Enabled(Reader(armed, waiting, timedOut, closed, owed, body.closes), a) && !(owing && a.CloseBody?) {
          OwedStays(Value(), a);
          Perform(a);
        }
        n := n - 1;
      }
    }

    method Perform(a: Action)
      requires Valid() && Enabled(Value(), a)
      modifies this, body`closes
      ensures Valid() && Value() == Step(old(Value()), a)
    {
      match a
      case Fire => TimerFires();
      case ExpireLock => var _ := ExpireLocked();
      case ReadLock(got) => var _ := ReadLocked(if got then 1 else 0);
      case CloseLock => var _ := CloseLocked();
      case CloseBody => CloseOwed();
    }

    /** The body's bytes come back unchanged, whatever happened to the reader while the
        body was being read; the idle error replaces the body's own verdict exactly when
        a timeout has been recorded by the time the lock is taken, and bytes leave an
        open reader armed. */
    method Read() returns (data: seq<int>, end: Ending)
      requires Valid()
      modifies this, body
      ensures Valid() && Later(old(Value()), Value())
      ensures body.delivered == old(body.delivered) + data
      ensures end.IdleTimeout? <==> timedOut
      ensures data != [] && !closed ==> armed
    {
      var last: bool := *;
      data, end := body.Read(last);
      Interfere(false);
      var expired := ReadLocked(|data|);
      if expired {
        end := IdleTimeout;
      }
    }

    /** A Close that finds the reader open settles it without a timeout and returns with
        the body closed exactly once, whatever happens before it gets to the body; one
        that finds it closed changes nothing, and the body is closed or owed once. */
    method Close()
      requires Valid()
      modifies this, body`closes
      ensures Valid() && closed && body.closes + owed == 1
      ensures !old(closed) ==> body.closes == 1 && !timedOut && !armed
      ensures old(closed) ==> Value() == old(Value())
    {
      var mustClose := CloseLocked();
      if mustClose {
        Interfere(true);
        CloseOwed();
      }
    }
  }
}
