/** An open editor session against the lease table, in real time.

    One period of a session, from the call that opens it to its close, runs
    against the table while anybody performs statements of the lock service.  Time
    passes only as far as three assumptions allow: every call of the session is
    answered within `d`, a timer fires at most `h` after it was armed, and a save
    writes its row at most `lag` after its Acquire read the clock. */
module SessionLease {
  import opened Basics
  import opened Instants
  import L = Leases
  import S = EditorSession

  datatype Config = Config(key: L.Key, owner: string, source: string, d: nat, h: nat, lag: nat, ttl: nat)

  /** The two bounds under which the lease is safe. */
  predicate Adequate(k: Config) {
    && k.h + 2 * k.d + k.lag + NANOS < k.ttl
    && 3 * k.d + k.lag + NANOS < k.ttl
  }

  /** `mark` is when the request in flight was sent, or the latest moment at
      which the armed timer fires; `served` says that the server has performed
      the request in flight, `works` that it was a heartbeat that found its row. */
  datatype System = System(now: Instant, table: L.Table, c: S.Client, mark: Instant, served: bool, works: bool)

  /** `now` is what the clock said when the statement's call began. */
  datatype Step =
    | Tick(now: Instant)
    | Others(e: L.Event)          // any statement but those that renew the lease
    | Saving(now: Instant)        // the upsert of a save by the same owner
    | AcquireServed(now: Instant) // the upsert of the session's own Acquire
    | AcquireAnswered
    | ReadAnswered
    | BeatServed(now: Instant)
    | BeatAnswered
    | TimerFires(n: nat)
    | Close

  predicate Acquiring(c: S.Client) {
    c.awaiting.OpenAcquire? || c.awaiting.SaveAcquire?
  }

  /** How far time may pass. */
  function Deadline(k: Config, s: System): Instant {
    if s.c.armed != {} then s.mark else s.mark + k.d
  }

  predicate Enabled(k: Config, s: System, a: Step) {
    match a
    case Tick(now) => s.now <= now <= Deadline(k, s) && Writable(now + k.ttl)
    case Others(e) => e.now <= s.now && !L.Renews(e.statement, k.key, k.owner)
    case Saving(now) => s.c.isOpen && now <= s.now <= now + k.lag
    case AcquireServed(now) => Acquiring(s.c) && !s.served && s.mark <= now <= s.now
    case AcquireAnswered => Acquiring(s.c) && s.served
    case ReadAnswered => s.c.awaiting.OpenRead?
    case BeatServed(now) => s.c.inFlight == 1 && !s.served && s.mark <= now <= s.now
    case BeatAnswered => s.c.inFlight == 1 && s.served
    case TimerFires(n) => n in s.c.armed
    case Close => s.c.isOpen
  }

  /** The upsert of an Acquire of the owner. */
  function Granted(t: L.Table, k: Config, now: Instant): L.Table {
    L.Perform(t, L.Event(L.Upsert(k.key, k.owner, k.source, k.ttl), now, false))
  }

  /** A heartbeat that finds no row of its owner is answered 409. */
  function BeatStatus(s: System): S.Status {
    if s.works then S.Succeeds else S.FailsWith(409)
  }

  function Apply(k: Config, s: System, a: Step): System
    requires Enabled(k, s, a)
  {
    match a
    case Tick(now) => s.(now := now)
    case Others(e) => s.(table := L.Perform(s.table, e))
    case Saving(now) => s.(table := Granted(s.table, k, now))
    case AcquireServed(now) => s.(table := Granted(s.table, k, now), served := true)
    case AcquireAnswered => s.(c := S.Handle(s.c, S.AcquireDone(true)), mark := s.now, served := false)
    case ReadAnswered => s.(c := S.Handle(s.c, S.ReadDone(true)), mark := s.now, served := false)
    case BeatServed(now) =>
      var (t, r) := L.Beaten(s.table, k.key, k.owner, k.ttl, now, L.NoFault);
      s.(table := t, served := true, works := r.Ok?)
    case BeatAnswered => s.(c := S.Handle(s.c, S.BeatDone(BeatStatus(s))), mark := s.now + k.h, served := false)
    case TimerFires(n) => s.(c := S.Handle(s.c, S.TimerFires(n)), mark := s.now, served := false)
    case Close => s.(c := S.Handle(s.c, S.CloseCalled))
  }

  /** The period starts with the acquire of `open` or of a `save` on a closed session. */
  predicate Initial(k: Config, s: System) {
    && S.TokenInv(s.c) && Acquiring(s.c)
    && s.mark == s.now && !s.served && Writable(s.now + k.ttl)
  }

  /** The row is the session's and lasts at least until `until`. */
  predicate LeasedUntil(k: Config, s: System, until: int) {
    L.HeldUntil(s.table, k.key, k.owner, until)
  }

  predicate Over(s: System) {
    !s.c.isOpen && !Acquiring(s.c)
  }

  /** The session is open, or its Acquire is granted and about to be answered. */
  predicate NeedsLease(s: System) {
    s.c.isOpen || (Acquiring(s.c) && s.served)
  }

  /** How long after `mark` less `ttl` the lease may have been renewed at the least. */
  function Age(k: Config, s: System): int {
    if s.c.armed != {} then k.h + k.d
    else if s.served then 0
    else if s.c.awaiting.OpenRead? then k.d
    else if k.h < k.d then 2 * k.d
    else k.h + k.d
  }

  /** What is known of the lease in each stage; `ttl` after a moment that is at
      least the sending of the last request the server performed, less the lag. */
  predicate Timed(k: Config, s: System) {
    && s.now <= Deadline(k, s) && Writable(s.now + k.ttl)
    && (if s.c.armed == {} then s.mark <= s.now else s.mark - k.h <= s.now)
    && (NeedsLease(s) ==> LeasedUntil(k, s, s.mark - Age(k, s) - k.lag + k.ttl))
    && (s.c.isOpen && s.c.inFlight == 1 && s.served ==> s.works)
  }

  predicate Inv(k: Config, s: System) {
    S.TokenInv(s.c) && (Over(s) || Timed(k, s))
  }

  /** In every stage the bounds leave the lease more than a second. */
  lemma TimedIsSafe(k: Config, s: System)
    requires Adequate(k) && Inv(k, s) && NeedsLease(s)
    ensures LeasedUntil(k, s, s.now + NANOS)
  {
  }

  /** The statement takes the path from the session. */
  predicate Ends(k: Config, s: System, a: Step) {
    a.Others? && NeedsLease(s) && L.Breaks(a.e, k.key, k.owner)
  }

  lemma SecondLater(a: Instant, b: Instant)
    requires a <= b
    ensures Second(a) < Second(b + NANOS)
  {
  }

  lemma StepOthers(k: Config, s: System, e: L.Event)
    requires Adequate(k) && Inv(k, s) && e.now <= s.now && !L.Renews(e.statement, k.key, k.owner)
    requires NeedsLease(s) ==> !L.Breaks(e, k.key, k.owner)
    ensures Inv(k, s.(table := L.Perform(s.table, e)))
  {
    if NeedsLease(s) {
      TimedIsSafe(k, s);
      OthersKeep(k, s.table, s.now, s.mark - Age(k, s) - k.lag + k.ttl, e);
    }
  }

  lemma OthersKeep(k: Config, t: L.Table, now: Instant, until: int, e: L.Event)
    requires L.HeldUntil(t, k.key, k.owner, until) && L.HeldUntil(t, k.key, k.owner, now + NANOS)
    requires e.now <= now && !L.Renews(e.statement, k.key, k.owner) && !L.Breaks(e, k.key, k.owner)
    ensures L.HeldUntil(L.Perform(t, e), k.key, k.owner, until)
  {
    var expires := t[k.key].expires;
    SecondLater(e.now, expires - NANOS);
    L.HeldStep(t, k.key, k.owner, expires, e);
  }

  /** A new table keeps the invariant if it has the lease that is needed. */
  lemma TableHolds(k: Config, s: System, t: L.Table)
    requires Inv(k, s)
    requires !Over(s) && NeedsLease(s) ==> L.HeldUntil(t, k.key, k.owner, s.mark - Age(k, s) - k.lag + k.ttl)
    ensures Inv(k, s.(table := t))
  {
  }

  lemma GrantedHolds(k: Config, t: L.Table, now: Instant, until: int)
    requires until <= now + k.ttl && Writable(now + k.ttl)
    ensures L.HeldUntil(Granted(t, k, now), k.key, k.owner, until)
  {
  }

  lemma StepSaving(k: Config, s: System, now: Instant)
    requires Adequate(k) && Inv(k, s) && s.c.isOpen && now <= s.now <= now + k.lag
    ensures Inv(k, s.(table := Granted(s.table, k, now)))
  {
    WritableBefore(now + k.ttl, s.now + k.ttl);
    GrantedHolds(k, s.table, now, s.mark - Age(k, s) - k.lag + k.ttl);
    TableHolds(k, s, Granted(s.table, k, now));
  }

  lemma StepAcquireServed(k: Config, s: System, now: Instant)
    requires Adequate(k) && Inv(k, s) && Acquiring(s.c) && !s.served && s.mark <= now <= s.now
    ensures Inv(k, s.(table := Granted(s.table, k, now), served := true))
  {
    WritableBefore(now + k.ttl, s.now + k.ttl);
    GrantedHolds(k, s.table, now, s.mark - k.lag + k.ttl);
  }

  lemma StepBeatServed(k: Config, s: System, now: Instant)
    requires Adequate(k) && Inv(k, s) && s.c.inFlight == 1 && !s.served && s.mark <= now <= s.now
    ensures Inv(k, Apply(k, s, BeatServed(now)))
  {
    if s.c.isOpen {
      WritableBefore(now + k.ttl, s.now + k.ttl);
      assert LeasedUntil(k, s, s.mark - Age(k, s) - k.lag + k.ttl);
    }
  }

  lemma StepAcquireAnswered(k: Config, s: System)
    requires Adequate(k) && Inv(k, s) && Acquiring(s.c) && s.served
    ensures Inv(k, s.(c := S.Handle(s.c, S.AcquireDone(true)), mark := s.now, served := false))
  {
  }

  lemma StepReadAnswered(k: Config, s: System)
    requires Adequate(k) && Inv(k, s) && s.c.awaiting.OpenRead?
    ensures Inv(k, s.(c := S.Handle(s.c, S.ReadDone(true)), mark := s.now, served := false))
  {
  }

  lemma StepBeatAnswered(k: Config, s: System)
    requires Adequate(k) && Inv(k, s) && s.c.inFlight == 1 && s.served
    ensures Inv(k, s.(c := S.Handle(s.c, S.BeatDone(BeatStatus(s))), mark := s.now + k.h, served := false))
  {
    S.TokenStep(s.c, S.BeatDone(BeatStatus(s)));
    if s.c.isOpen {
      S.BeatSucceeds(s.c);
    }
  }

  lemma StepTimer(k: Config, s: System, n: nat)
    requires Adequate(k) && Inv(k, s) && n in s.c.armed
    ensures Inv(k, s.(c := S.Handle(s.c, S.TimerFires(n)), mark := s.now, served := false))
  {
  }

  lemma StepTick(k: Config, s: System, now: Instant)
    requires Adequate(k) && Inv(k, s) && s.now <= now <= Deadline(k, s) && Writable(now + k.ttl)
    ensures Inv(k, s.(now := now))
  {
  }

  lemma StepClose(k: Config, s: System)
    requires Inv(k, s) && s.c.isOpen
    ensures Inv(k, s.(c := S.Handle(s.c, S.CloseCalled)))
  {
    S.TokenStep(s.c, S.CloseCalled);
  }

  lemma InvStepClient(k: Config, s: System, a: Step)
    requires Adequate(k) && Inv(k, s) && Enabled(k, s, a)
    requires !a.Others? && !a.Saving? && !a.AcquireServed? && !a.BeatServed?
    ensures Inv(k, Apply(k, s, a))
  {
    match a
    case Tick(now) => StepTick(k, s, now);
    case AcquireAnswered => StepAcquireAnswered(k, s);
    case ReadAnswered => StepReadAnswered(k, s);
    case BeatAnswered => StepBeatAnswered(k, s);
    case TimerFires(n) => StepTimer(k, s, n);
    case Close => StepClose(k, s);
  }

  lemma InvStep(k: Config, s: System, a: Step)
    requires Adequate(k) && Inv(k, s) && Enabled(k, s, a) && !Ends(k, s, a)
    ensures Inv(k, Apply(k, s, a))
  {
    if a.Others? {
      StepOthers(k, s, a.e);
    } else if a.Saving? {
      StepSaving(k, s, a.now);
    } else if a.AcquireServed? {
      StepAcquireServed(k, s, a.now);
    } else if a.BeatServed? {
      StepBeatServed(k, s, a.now);
    } else {
      InvStepClient(k, s, a);
    }
  }

  ghost predicate Run(k: Config, tr: seq<System>, steps: seq<Step>) {
    && |tr| == |steps| + 1 && Initial(k, tr[0])
    && forall i :: 0 <= i < |steps| ==> Enabled(k, tr[i], steps[i]) && tr[i + 1] == Apply(k, tr[i], steps[i])
  }

  predicate NoneEnds(k: Config, tr: seq<System>, steps: seq<Step>)
    requires |tr| == |steps| + 1
  {
    forall i :: 0 <= i < |steps| ==> !Ends(k, tr[i], steps[i])
  }

  lemma {:induction false} InvAlways(k: Config, tr: seq<System>, steps: seq<Step>, i: nat)
    requires Adequate(k) && Run(k, tr, steps) && i < |tr|
    requires forall j :: 0 <= j < i ==> !Ends(k, tr[j], steps[j])
    ensures Inv(k, tr[i])
    decreases i
  {
    if i > 0 {
      InvAlways(k, tr, steps, i - 1);
      InvStep(k, tr[i - 1], steps[i - 1]);
    }
  }

  /** At this moment the row is the session's and has more than a second left. */
  predicate Safe(k: Config, s: System) {
    NeedsLease(s) ==> LeasedUntil(k, s, s.now + NANOS)
  }

  lemma EndsIsUnsafe(k: Config, s: System, a: Step)
    requires Enabled(k, s, a) && Ends(k, s, a) && Safe(k, s)
    ensures !Safe(k, Apply(k, s, a))
  {
  }

  /** An open editor session never loses its lease, unless it is taken.  In every
      run its row is its own, with more than a second left, at every moment at
      which it needs it, exactly if meanwhile no foreign Acquire that had passed its
      check before upserts and the owner does not release the path itself. */
  lemma OpenSessionKeepsLease(k: Config, tr: seq<System>, steps: seq<Step>)
    requires Adequate(k) && Run(k, tr, steps)
    ensures (forall i :: 0 <= i < |tr| ==> Safe(k, tr[i])) <==> NoneEnds(k, tr, steps)
  {
    if NoneEnds(k, tr, steps) {
      forall i | 0 <= i < |tr| ensures Safe(k, tr[i]) {
        InvAlways(k, tr, steps, i);
        if NeedsLease(tr[i]) {
          TimedIsSafe(k, tr[i]);
        }
      }
    } else {
      var i :| 0 <= i < |steps| && Ends(k, tr[i], steps[i]);
      if Safe(k, tr[i]) {
        EndsIsUnsafe(k, tr[i], steps[i]);
        assert !Safe(k, tr[i + 1]);
      }
    }
  }

  /** A foreign Acquire that comes to its check while the session is safe is refused. */
  lemma OthersRefused(k: Config, s: System, other: string, now: Instant)
    requires Safe(k, s) && NeedsLease(s) && other != k.owner && now <= s.now
    ensures !L.Passes(s.table, k.key, other, now)
  {
    SecondLater(now, s.now);
    L.OthersAreRefused(s.table, k.key, k.owner, s.now + NANOS, other, now);
  }

  /** No sweep of a call that began by now takes the row. */
  lemma NotSwept(k: Config, s: System, now: Instant)
    requires Safe(k, s) && NeedsLease(s) && now <= s.now
    ensures !L.Swept(s.table[k.key], now)
  {
    var expires := s.table[k.key].expires;
    SecondLater(now, expires - NANOS);
    L.NotSweptBefore(s.table[k.key], now);
  }

  /** So long as the lease has not been taken, heartbeats of the open session are
      never answered "not the owner". */
  lemma HeartbeatsSucceed(k: Config, tr: seq<System>, steps: seq<Step>, i: nat)
    requires Adequate(k) && Run(k, tr, steps) && i < |tr| && tr[i].c.isOpen
    requires forall j :: 0 <= j < i ==> !Ends(k, tr[j], steps[j])
    ensures L.Beaten(tr[i].table, k.key, k.owner, k.ttl, tr[i].now, L.NoFault).1.Ok?
    ensures tr[i].c.inFlight == 1 && tr[i].served ==> BeatStatus(tr[i]) == S.Succeeds
  {
    InvAlways(k, tr, steps, i);
    TimedIsSafe(k, tr[i]);
  }

  /** Once another owner has the path, the next heartbeat closes the session. */
  lemma TakenCloses(k: Config, s: System, now: Instant)
    requires S.TokenInv(s.c) && s.c.isOpen && Enabled(k, s, BeatServed(now))
    requires !(k.key in s.table && s.table[k.key].owner == k.owner)
    ensures var served := Apply(k, s, BeatServed(now));
      && Enabled(k, served, BeatAnswered)
      && !Apply(k, served, BeatAnswered).c.isOpen && served.table == s.table
  {
  }
}
