/** The browser's editor session: the closure of `createFileEditorSession` and
    the events that reach it.

    The session owns at most one heartbeat token: a heartbeat request in flight
    or an armed timer.  `Client` is its state together with what it left in the
    world (requests and timers); each event handler is a function on it, and the
    class performs the handlers in place. */
module EditorSession {

  datatype HeartbeatID = Unset | Sentinel | Timer(n: nat)

  /** Which promise `open` or `save` waits for before heartbeats start. */
  datatype Awaiting = Nothing | OpenAcquire | OpenRead | SaveAcquire

  datatype Client = Client(
    isOpen: bool,
    id: HeartbeatID,
    pending: bool,         // pendingHeartbeat is set
    awaiting: Awaiting,
    inFlight: nat,         // heartbeat requests without a completion
    armed: set<nat>,       // timers that will fire
    next: nat)

  const FRESH := Client(false, Unset, false, Nothing, 0, {}, 0)

  datatype Status = Succeeds | FailsWith(code: nat)

  predicate LosesLock(s: Status) {
    s == FailsWith(409) || s == FailsWith(423)
  }

  function Stopped(c: Client): Client {
    c.(armed := if c.id.Timer? then c.armed - {c.id.n} else c.armed, id := Unset, pending := false)
  }

  function Scheduled(c: Client): Client {
    if c.pending || !c.isOpen then c
    else c.(id := Sentinel, pending := true, inFlight := c.inFlight + 1)
  }

  function Started(c: Client): Client {
    Scheduled(Stopped(c))
  }

  function Closed(c: Client): Client {
    Stopped(c).(isOpen := false)
  }

  /** The handlers chained to a heartbeat request. */
  function Completed(c: Client, s: Status): Client
    requires c.inFlight > 0
  {
    var c1 := c.(inFlight := c.inFlight - 1);
    var c2 := if LosesLock(s) then Closed(c1) else c1;
    if c2.isOpen then
      c2.(pending := false, id := Timer(c2.next), armed := c2.armed + {c2.next}, next := c2.next + 1)
    else c2.(pending := false, id := Unset)
  }

  datatype Event =
    | OpenCalled
    | SaveCalled             // while the session is closed; otherwise save only writes
    | AcquireDone(works: bool)
    | ReadDone(works: bool)
    | BeatDone(status: Status)
    | TimerFires(n: nat)
    | CloseCalled            // close() or releaseForPageHide()

  /** Opening starts only once an earlier period is over, its last heartbeat
      request included. */
  predicate Possible(c: Client, e: Event) {
    match e
    case OpenCalled => !c.isOpen && c.awaiting.Nothing? && c.inFlight == 0
    case SaveCalled => !c.isOpen && c.awaiting.Nothing? && c.inFlight == 0
    case AcquireDone(_) => c.awaiting.OpenAcquire? || c.awaiting.SaveAcquire?
    case ReadDone(_) => c.awaiting.OpenRead?
    case BeatDone(_) => c.inFlight > 0
    case TimerFires(n) => n in c.armed
    case CloseCalled => true
  }

  function Handle(c: Client, e: Event): Client
    requires Possible(c, e)
  {
    match e
    case OpenCalled => c.(awaiting := OpenAcquire)
    case SaveCalled => c.(awaiting := SaveAcquire)
    case AcquireDone(works) =>
      if !works then c.(awaiting := Nothing)
      else if c.awaiting.OpenAcquire? then c.(isOpen := true, awaiting := OpenRead)
      else Started(c.(isOpen := true, awaiting := Nothing))
    case ReadDone(works) =>
      var c' := c.(awaiting := Nothing);
      if works then Started(c') else Closed(c')
    case BeatDone(status) => Completed(c, status)
    case TimerFires(n) => Scheduled(c.(armed := c.armed - {n}))
    case CloseCalled => Closed(c)
  }

  // ------------------------------------------------------------ the closure

  class Session {
    var isOpen: bool
    var heartbeatID: HeartbeatID
    var pendingHeartbeat: bool
    var awaiting: Awaiting
    var inFlight: nat
    var armed: set<nat>
    var next: nat

    function View(): Client
      reads this
    {
      Client(isOpen, heartbeatID, pendingHeartbeat, awaiting, inFlight, armed, next)
    }

    constructor ()
      ensures View() == FRESH
    {
      isOpen, heartbeatID, pendingHeartbeat, awaiting := false, Unset, false, Nothing;
      inFlight, armed, next := 0, {}, 0;
    }

    method StopHeartbeat()
      modifies this
      ensures View() == Stopped(old(View()))
    {
      if heartbeatID != Unset && heartbeatID != Sentinel {
        armed := armed - {heartbeatID.n};
      }
      heartbeatID := Unset;
      pendingHeartbeat := false;
    }

    method ScheduleHeartbeat()
      modifies this
      ensures View() == Scheduled(old(View()))
      ensures inFlight == old(inFlight) + if old(isOpen) && !old(pendingHeartbeat) then 1 else 0
    {
      if pendingHeartbeat {
        return;
      }
      if !isOpen {
        return;
      }
      heartbeatID := Sentinel;
      pendingHeartbeat := true;
      inFlight := inFlight + 1;
    }

    method StartHeartbeat()
      modifies this
      ensures View() == Started(old(View()))
    {
      StopHeartbeat();
      ScheduleHeartbeat();
    }

    method Close() returns (releases: bool)
      modifies this
      ensures View() == Closed(old(View())) && releases == old(isOpen)
    {
      StopHeartbeat();
      if !isOpen {
        return false;
      }
      isOpen := false;
      releases := true;
    }

    method OnAcquireDone(works: bool)
      requires Possible(View(), AcquireDone(works))
      modifies this
      ensures View() == Handle(old(View()), AcquireDone(works))
      ensures works ==> isOpen && awaiting == if old(awaiting).OpenAcquire? then OpenRead else Nothing
      ensures works && old(awaiting).SaveAcquire? ==> inFlight == old(inFlight) + 1 && pendingHeartbeat
      ensures !works ==> isOpen == old(isOpen) && inFlight == old(inFlight) && armed == old(armed) && awaiting == Nothing
    {
      var opening := awaiting.OpenAcquire?;
      awaiting := Nothing;
      if !works {
        return;
      }
      isOpen := true;
      if opening {
        awaiting := OpenRead;
      } else {
        StartHeartbeat();
      }
    }

    method OnReadDone(works: bool)
      requires Possible(View(), ReadDone(works))
      modifies this
      ensures View() == Handle(old(View()), ReadDone(works))
      ensures isOpen == (works && old(isOpen)) && awaiting == Nothing
      ensures inFlight == old(inFlight) + if works && old(isOpen) then 1 else 0
    {
      awaiting := Nothing;
      if works {
        StartHeartbeat();
      } else {
        var released := Close();
      }
    }

    method OnBeatDone(status: Status)
      requires Possible(View(), BeatDone(status))
      modifies this
      ensures View() == Handle(old(View()), BeatDone(status))
      ensures isOpen == (old(isOpen) && status != FailsWith(409) && status != FailsWith(423))
      ensures isOpen ==> heartbeatID == Timer(old(next)) && armed == old(armed) + {old(next)}
      ensures !isOpen ==> heartbeatID == Unset && armed <= old(armed)
      ensures !pendingHeartbeat && inFlight == old(inFlight) - 1 && awaiting == old(awaiting)
    {
      inFlight := inFlight - 1;
      if LosesLock(status) {
        StopHeartbeat();
        isOpen := false;
      }
      pendingHeartbeat := false;
      if isOpen {
        heartbeatID := Timer(next);
        armed := armed + {next};
        next := next + 1;
      } else {
        heartbeatID := Unset;
      }
    }

    method OnTimer(n: nat)
      requires Possible(View(), TimerFires(n))
      modifies this
      ensures View() == Handle(old(View()), TimerFires(n))
      ensures armed == old(armed) - {n} && isOpen == old(isOpen)
      ensures inFlight == old(inFlight) + if isOpen && !old(pendingHeartbeat) then 1 else 0
    {
      armed := armed - {n};
      ScheduleHeartbeat();
    }
  }

  // ------------------------------------------------------------ one token

  /** While the session is open and past its first read there is exactly one
      token; before that and after closing no timer is armed, and at most the
      last request of the period is still unanswered. */
  predicate TokenInv(c: Client) {
    && (c.awaiting.OpenAcquire? || c.awaiting.SaveAcquire? ==> !c.isOpen && c.inFlight == 0)
    && (forall n :: n in c.armed ==> n < c.next)
    && if c.isOpen && !c.awaiting.OpenRead? then
         || (c.inFlight == 1 && c.armed == {} && c.pending && c.id == Sentinel)
         || (c.inFlight == 0 && c.id.Timer? && c.armed == {c.id.n} && !c.pending)
       else
         c.armed == {} && c.id == Unset && !c.pending && c.inFlight <= (if c.isOpen then 0 else 1)
         && (c.awaiting.OpenRead? ==> c.inFlight == 0)
  }

  lemma TokenStep(c: Client, e: Event)
    requires TokenInv(c) && Possible(c, e)
    ensures TokenInv(Handle(c, e))
  {
  }

  /** A successful heartbeat of an open session turns into one armed timer. */
  lemma BeatSucceeds(c: Client)
    requires TokenInv(c) && c.inFlight == 1
    ensures Handle(c, BeatDone(Succeeds)) ==
      if c.isOpen then c.(inFlight := 0, pending := false, id := Timer(c.next), armed := {c.next}, next := c.next + 1)
      else c.(inFlight := 0)
  {
  }

  function HandleAll(c: Client, es: seq<Event>): Client
    requires AllPossible(c, es)
    decreases |es|
  {
    if es == [] then c else HandleAll(Handle(c, es[0]), es[1..])
  }

  predicate AllPossible(c: Client, es: seq<Event>)
    decreases |es|
  {
    es == [] || (Possible(c, es[0]) && AllPossible(Handle(c, es[0]), es[1..]))
  }

  /** In every run: an open session that has read its file has exactly one
      heartbeat token, no matter how heartbeats, saves and closes interleave. */
  lemma {:induction false} OneToken(c: Client, es: seq<Event>)
    requires TokenInv(c) && AllPossible(c, es)
    ensures TokenInv(HandleAll(c, es))
    ensures var c' := HandleAll(c, es);
      c'.isOpen && !c'.awaiting.OpenRead? ==> c'.inFlight + |c'.armed| == 1
    decreases |es|
  {
    if es != [] {
      TokenStep(c, es[0]);
      OneToken(Handle(c, es[0]), es[1..]);
    }
  }

  predicate Reopens(e: Event) {
    e == AcquireDone(true)
  }

  /** Once closed, or once a heartbeat was answered 409 or 423, no completion
      arms a timer and no heartbeat is sent until the session is reopened. */
  lemma {:induction false} QuietAfterClose(c: Client, es: seq<Event>)
    requires TokenInv(c) && !c.isOpen && AllPossible(c, es)
    requires forall i :: 0 <= i < |es| ==> !Reopens(es[i])
    ensures var c' := HandleAll(c, es);
      !c'.isOpen && c'.armed == {} && c'.inFlight <= c.inFlight && c'.next == c.next
    decreases |es|
  {
    if es != [] {
      TokenStep(c, es[0]);
      assert !Reopens(es[0]);
      QuietAfterClose(Handle(c, es[0]), es[1..]);
    }
  }

  /** Of all answers to a heartbeat exactly 409 and 423 close an open session; after
      any other it goes on with one armed timer and no request. */
  lemma BeatAnswerExact(c: Client, status: Status)
    requires TokenInv(c) && c.isOpen && !c.awaiting.OpenRead? && c.inFlight == 1
    ensures var c' := Handle(c, BeatDone(status));
      && (c'.isOpen <==> status != FailsWith(409) && status != FailsWith(423))
      && c'.inFlight == 0 && |c'.armed| == if c'.isOpen then 1 else 0
  {
    TokenStep(c, BeatDone(status));
  }

  /** A session that is opened reads its file, sends a heartbeat, and sends the next
      one each time its timer fires, whatever but 409 and 423 the last was answered. */
  lemma SessionLives(n: nat, status: Status)
    requires status != FailsWith(409) && status != FailsWith(423)
    ensures Handle(FRESH, OpenCalled) == Client(false, Unset, false, OpenAcquire, 0, {}, 0)
    ensures Handle(Handle(FRESH, OpenCalled), AcquireDone(true)) == Client(true, Unset, false, OpenRead, 0, {}, 0)
    ensures Handle(Client(true, Unset, false, OpenRead, 0, {}, 0), ReadDone(true))
         == Client(true, Sentinel, true, Nothing, 1, {}, 0)
    ensures Handle(Client(true, Sentinel, true, Nothing, 1, {}, n), BeatDone(status))
         == Client(true, Timer(n), false, Nothing, 0, {n}, n + 1)
    ensures Handle(Client(true, Timer(n), false, Nothing, 0, {n}, n + 1), TimerFires(n))
         == Client(true, Sentinel, true, Nothing, 1, {}, n + 1)
    ensures Handle(Client(true, Timer(n), false, Nothing, 0, {n}, n + 1), CloseCalled)
         == Client(false, Unset, false, Nothing, 0, {}, n + 1)
    ensures Handle(Handle(FRESH, SaveCalled), AcquireDone(true)) == Client(true, Sentinel, true, Nothing, 1, {}, 0)
  {
  }

  /** Losing the lock closes the session at once. */
  lemma LostLockCloses(c: Client, status: Status)
    requires TokenInv(c) && c.inFlight > 0
    ensures Handle(c, BeatDone(status)).isOpen <==> c.isOpen && status != FailsWith(409) && status != FailsWith(423)
    ensures !Handle(c, BeatDone(status)).isOpen ==> Handle(c, BeatDone(status)).armed == {}
  {
  }
}
