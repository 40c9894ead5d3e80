/** Acceptor::stop called from any number of threads at once, the transport's own
    threads among them: a mutex, a condition variable, and threads to be joined.
    Every action is one step of one thread. */
module AcceptorStop {

  /** Where a thread is. A thread inside stop is anywhere but at the ends. */
  datatype PC =
    | Outside                      // not in stop, or before its first call
    | AtLock                       // about to lock m_stopMutex
    | Deciding                     // holds it, at the first test of m_stopping
    | Waiting                      // blocked on m_stopDone
    | Woken                        // woken, about to lock again
    | Rechecking                   // holds it, at the test of the wait's predicate
    | LoggingOut                   // the claim is taken; sessions are logged out
    | Sleeping(second: nat)        // waiting for the sessions to log out
    | Stopping                     // about to set m_stop
    | JoiningOthers                // onStop, which joins the connection threads
    | JoiningMain                  // thread_join(m_threadid)
    | Clearing                     // m_threadid = 0
    | LoggingOn                    // sessions are logged on again
    | AtRelease                    // the scope guard, about to lock
    | Releasing                    // holds it, about to give the claim back
    | Returned                     // stop has returned
    | Exited                       // the thread has ended

  /** own: the transport's threads (TransportThread::isOwnedBy); main: the one that
      start spawned. The claimant is recorded when it takes the claim. */
  datatype State = State(
    pc: seq<PC>, own: set<nat>, main: nat,
    holder: int, stopping: bool, stop: bool, threadId: bool,
    claimant: int, claims: nat)

  /** After start: the transport's threads run, nobody has called stop. */
  ghost predicate Started(s: State) {
    && (forall t :: 0 <= t < |s.pc| ==> s.pc[t] == Outside)
    && s.main in s.own && (forall t :: t in s.own ==> t < |s.pc|)
    && s.holder == -1 && !s.stopping && !s.stop && s.threadId && s.claimant == -1 && s.claims == 0
  }

  datatype Action =
    | Call(t: nat)
    | Lock(t: nat)
    | Proceed(t: nat, force: bool, loggedOn: bool)
    | SpuriousWakeup(t: nat)
    | Exit(t: nat)

  predicate Inside(pc: PC) {
    !pc.Outside? && !pc.Returned? && !pc.Exited?
  }

  predicate Holds(pc: PC) {
    pc.Deciding? || pc.Rechecking? || pc.Releasing?
  }

  predicate WantsLock(pc: PC) {
    pc.AtLock? || pc.Woken? || pc.AtRelease?
  }

  /** onStop joins the transport's threads other than main. */
  ghost predicate OthersExited(s: State) {
    forall t :: t in s.own && t != s.main ==> t < |s.pc| && s.pc[t] == Exited
  }

  ghost predicate Enabled(s: State, a: Action) {
    a.t < |s.pc| && match a
      case Call(t) => s.pc[t] == Outside || s.pc[t] == Returned
      case Lock(t) => s.holder == -1 && WantsLock(s.pc[t])
      case Proceed(t, _, _) =>
        Inside(s.pc[t]) && !WantsLock(s.pc[t]) && s.pc[t] != Waiting
        && (s.pc[t] == JoiningOthers ==> OthersExited(s))
        && (s.pc[t] == JoiningMain && s.threadId ==> s.main < |s.pc| && s.pc[s.main] == Exited)
      case SpuriousWakeup(t) => s.pc[t] == Waiting
      case Exit(t) => t in s.own && s.stop && (s.pc[t] == Outside || s.pc[t] == Returned)
  }

  function Move(s: State, t: nat, pc: PC): State
    requires t < |s.pc|
  {
    s.(pc := s.pc[t := pc])
  }

  /** notify_all */
  function WakeAll(pcs: seq<PC>): (r: seq<PC>)
    ensures |r| == |pcs|
    ensures forall t :: 0 <= t < |pcs| ==> r[t] == if pcs[t] == Waiting then Woken else pcs[t]
  {
    seq(|pcs|, t requires 0 <= t < |pcs| => if pcs[t] == Waiting then Woken else pcs[t])
  }

  /** One statement of stop, by the thread t. */
  function ProceedFrom(s: State, t: nat, force: bool, loggedOn: bool): State
    requires t < |s.pc|
  {
    match s.pc[t]
    case Deciding =>
      if s.stopping then
        if t !in s.own then Move(s, t, Waiting).(holder := -1) else Move(s, t, Returned).(holder := -1)
      else if s.stop then Move(s, t, Returned).(holder := -1)
      else Move(s, t, LoggingOut).(holder := -1, stopping := true, claimant := t, claims := s.claims + 1)
    case Rechecking =>
      Move(s, t, if s.stopping then Waiting else Returned).(holder := -1)
    case LoggingOut => Move(s, t, if force then Stopping else Sleeping(1))
    case Sleeping(second) =>
      Move(s, t, if second <= 10 && loggedOn then Sleeping(second + 1) else Stopping)
    case Stopping => Move(s, t, JoiningOthers).(stop := true)
    case JoiningOthers => Move(s, t, JoiningMain)
    case JoiningMain => Move(s, t, Clearing)
    case Clearing => Move(s, t, LoggingOn).(threadId := false)
    case LoggingOn => Move(s, t, AtRelease)
    case Releasing =>
      var r := Move(s, t, Returned);
      r.(pc := WakeAll(r.pc), holder := -1, stopping := false)
    case _ => s
  }

  function Locked(pc: PC): PC {
    match pc
    case AtLock => Deciding
    case Woken => Rechecking
    case AtRelease => Releasing
    case _ => pc
  }

  ghost function Next(s: State, a: Action): State
    requires Enabled(s, a)
  {
    match a
    case Call(t) => Move(s, t, AtLock)
    case Lock(t) => Move(s, t, Locked(s.pc[t])).(holder := t)
    case Proceed(t, force, loggedOn) => ProceedFrom(s, t, force, loggedOn)
    case SpuriousWakeup(t) => Move(s, t, Woken)
    case Exit(t) => Move(s, t, Exited)
  }

  /** The part of stop that only the claimant runs. */
  predicate InBody(pc: PC) {
    pc.LoggingOut? || pc.Sleeping? || pc.Stopping? || AfterStop(pc)
  }

  predicate AfterStop(pc: PC) {
    pc.JoiningOthers? || AfterOthers(pc)
  }

  predicate AfterOthers(pc: PC) {
    pc.JoiningMain? || AfterMain(pc)
  }

  predicate AfterMain(pc: PC) {
    pc.Clearing? || AfterClear(pc)
  }

  predicate AfterClear(pc: PC) {
    pc.LoggingOn? || pc.AtRelease? || pc.Releasing?
  }

  /** The transport's threads have ended and been joined. */
  ghost predicate Joined(s: State) {
    s.stop && !s.threadId && forall t :: t in s.own ==> t < |s.pc| && s.pc[t] == Exited
  }

  /** What the claim, its stage, m_stop and m_threadid say about one another. */
  ghost predicate ClaimInvariant(s: State) {
    && s.main in s.own && (forall t :: t in s.own ==> t < |s.pc|)
    && (forall t :: 0 <= t < |s.pc| && InBody(s.pc[t]) ==> s.stopping && t == s.claimant)
    && s.claims == (if s.claimant == -1 then 0 else 1)
    && (s.claimant == -1 ==> !s.stopping && !s.stop && s.threadId)
    && (s.claimant != -1 && !s.stopping ==> Joined(s) && s.claimant !in s.own)
    && (s.stopping ==>
      && 0 <= s.claimant < |s.pc|
      && var pc := s.pc[s.claimant];
      && InBody(pc)
      && (s.stop <==> AfterStop(pc))
      && (s.threadId <==> !AfterClear(pc))
      && (AfterOthers(pc) ==> OthersExited(s))
      && (AfterMain(pc) ==> s.pc[s.main] == Exited))
  }

  /** The mutex, and no lost wake-up: a blocked thread has a claimant to wake it. */
  ghost predicate LockInvariant(s: State) {
    && (forall t :: 0 <= t < |s.pc| && Holds(s.pc[t]) ==> s.holder == t)
    && (s.holder != -1 ==> 0 <= s.holder < |s.pc| && Holds(s.pc[s.holder]))
    && (forall t :: 0 <= t < |s.pc| && s.pc[t] == Waiting ==> s.stopping)
    && (forall t :: 0 <= t < |s.pc| && (s.pc[t] == Waiting || s.pc[t] == Woken || s.pc[t] == Rechecking)
          ==> t !in s.own && s.claimant != -1)
  }

  /** A caller that is not one of the transport's threads returns only to a transport
      whose threads have been joined. */
  ghost predicate ReturnInvariant(s: State) {
    && (forall t :: 0 <= t < |s.pc| && s.pc[t] == Returned && t !in s.own ==> Joined(s))
    && (forall t :: 0 <= t < |s.pc| && s.pc[t] == Exited ==> t in s.own && s.stop)
  }

  ghost predicate Inv(s: State) {
    ClaimInvariant(s) && LockInvariant(s) && ReturnInvariant(s)
  }

  lemma StartedInv(s: State)
    requires Started(s)
    ensures Inv(s)
  {
  }

  lemma CallKeepsClaim(s: State, t: nat)
    requires Inv(s) && t < |s.pc| && (s.pc[t] == Outside || s.pc[t] == Returned)
    ensures ClaimInvariant(Move(s, t, AtLock))
  {
  }

  lemma CallKeepsLock(s: State, t: nat)
    requires Inv(s) && t < |s.pc| && (s.pc[t] == Outside || s.pc[t] == Returned)
    ensures LockInvariant(Move(s, t, AtLock))
  {
  }

  lemma CallKeepsReturn(s: State, t: nat)
    requires Inv(s) && t < |s.pc| && (s.pc[t] == Outside || s.pc[t] == Returned)
    ensures ReturnInvariant(Move(s, t, AtLock))
  {
  }

  lemma CallKeeps(s: State, t: nat)
    requires Inv(s) && t < |s.pc| && (s.pc[t] == Outside || s.pc[t] == Returned)
    ensures Inv(Move(s, t, AtLock))
  {
    CallKeepsClaim(s, t);
    CallKeepsLock(s, t);
    CallKeepsReturn(s, t);
  }

  lemma WakeupKeeps(s: State, t: nat)
    requires Inv(s) && t < |s.pc| && s.pc[t] == Waiting
    ensures Inv(Move(s, t, Woken))
  {
  }

  lemma LockKeepsClaim(s: State, t: nat)
    requires Inv(s) && t < |s.pc| && s.pc[t] == AtLock && s.holder == -1
    ensures ClaimInvariant(Move(s, t, Deciding).(holder := t))
  {
  }

  lemma LockKeepsLock(s: State, t: nat)
    requires Inv(s) && t < |s.pc| && s.pc[t] == AtLock && s.holder == -1
    ensures LockInvariant(Move(s, t, Deciding).(holder := t))
  {
  }

  lemma LockKeepsReturn(s: State, t: nat)
    requires Inv(s) && t < |s.pc| && s.pc[t] == AtLock && s.holder == -1
    ensures ReturnInvariant(Move(s, t, Deciding).(holder := t))
  {
  }

  lemma LockKeeps(s: State, t: nat)
    requires Inv(s) && t < |s.pc| && s.pc[t] == AtLock && s.holder == -1
    ensures Inv(Move(s, t, Deciding).(holder := t))
  {
    LockKeepsClaim(s, t);
    LockKeepsLock(s, t);
    LockKeepsReturn(s, t);
  }

  lemma RelockKeeps(s: State, t: nat)
    requires Inv(s) && t < |s.pc| && s.pc[t] == Woken && s.holder == -1
    ensures Inv(Move(s, t, Rechecking).(holder := t))
  {
  }

  lemma LockToReleaseKeeps(s: State, t: nat)
    requires Inv(s) && t < |s.pc| && s.pc[t] == AtRelease && s.holder == -1
    ensures Inv(Move(s, t, Releasing).(holder := t))
  {
  }

  lemma ExitKeeps(s: State, t: nat)
    requires Inv(s) && t < |s.pc| && t in s.own && s.stop && (s.pc[t] == Outside || s.pc[t] == Returned)
    ensures Inv(Move(s, t, Exited))
  {
  }

  /** The first caller. */
  lemma ClaimKeeps(s: State, t: nat)
    requires Inv(s) && t < |s.pc| && s.pc[t] == Deciding && !s.stopping && !s.stop
    ensures Inv(Move(s, t, LoggingOut).(holder := -1, stopping := true, claimant := t, claims := s.claims + 1))
  {
  }

  /** A second caller from outside the transport waits. */
  lemma BlockKeeps(s: State, t: nat)
    requires Inv(s) && t < |s.pc| && s.pc[t] == Deciding && s.stopping && t !in s.own
    ensures Inv(Move(s, t, Waiting).(holder := -1))
  {
  }

  /** A second caller that is one of the transport's threads does not wait. */
  lemma PassByKeeps(s: State, t: nat)
    requires Inv(s) && t < |s.pc| && s.pc[t] == Deciding && s.stopping && t in s.own
    ensures Inv(Move(s, t, Returned).(holder := -1))
  {
  }

  /** A caller after the stop is complete. */
  lemma LateKeeps(s: State, t: nat)
    requires Inv(s) && t < |s.pc| && s.pc[t] == Deciding && !s.stopping && s.stop
    ensures Inv(Move(s, t, Returned).(holder := -1))
  {
  }

  lemma ReblockKeeps(s: State, t: nat)
    requires Inv(s) && t < |s.pc| && s.pc[t] == Rechecking && s.stopping
    ensures Inv(Move(s, t, Waiting).(holder := -1))
  {
  }

  lemma WaitEndsKeeps(s: State, t: nat)
    requires Inv(s) && t < |s.pc| && s.pc[t] == Rechecking && !s.stopping
    ensures Inv(Move(s, t, Returned).(holder := -1))
  {
  }

  lemma LogoutKeeps(s: State, t: nat, pc: PC)
    requires Inv(s) && t < |s.pc| && InBody(s.pc[t]) && !AfterStop(s.pc[t]) && InBody(pc) && !AfterStop(pc)
    ensures Inv(Move(s, t, pc))
  {
  }

  lemma SetStopKeeps(s: State, t: nat)
    requires Inv(s) && t < |s.pc| && s.pc[t] == Stopping
    ensures Inv(Move(s, t, JoiningOthers).(stop := true))
  {
  }

  lemma JoinOthersKeeps(s: State, t: nat)
    requires Inv(s) && t < |s.pc| && s.pc[t] == JoiningOthers && OthersExited(s)
    ensures Inv(Move(s, t, JoiningMain))
  {
  }

  lemma JoinMainKeeps(s: State, t: nat)
    requires Inv(s) && t < |s.pc| && s.pc[t] == JoiningMain && s.pc[s.main] == Exited
    ensures Inv(Move(s, t, Clearing))
  {
  }

  lemma ClearKeeps(s: State, t: nat)
    requires Inv(s) && t < |s.pc| && s.pc[t] == Clearing
    ensures Inv(Move(s, t, LoggingOn).(threadId := false))
  {
  }

  lemma LogonKeeps(s: State, t: nat)
    requires Inv(s) && t < |s.pc| && s.pc[t] == LoggingOn
    ensures Inv(Move(s, t, AtRelease))
  {
  }

  lemma ReleaseKeeps(s: State, t: nat)
    requires Inv(s) && t < |s.pc| && s.pc[t] == Releasing
    ensures Inv(s.(pc := WakeAll(s.pc[t := Returned]), holder := -1, stopping := false))
  {
  }

  lemma TestKeeps(s: State, a: Action)
    requires Inv(s) && Enabled(s, a) && a.Proceed? && (s.pc[a.t].Deciding? || s.pc[a.t].Rechecking?)
    ensures Inv(Next(s, a))
  {
    var t := a.t;
    if s.pc[t] == Rechecking {
      if s.stopping {
        ReblockKeeps(s, t);
      } else {
        WaitEndsKeeps(s, t);
      }
    } else if s.stopping {
      if t in s.own {
        PassByKeeps(s, t);
      } else {
        BlockKeeps(s, t);
      }
    } else if s.stop {
      LateKeeps(s, t);
    } else {
      ClaimKeeps(s, t);
    }
  }

  lemma EarlyBodyKeeps(s: State, a: Action)
    requires Inv(s) && Enabled(s, a) && a.Proceed? && InBody(s.pc[a.t]) && !AfterStop(s.pc[a.t])
    ensures Inv(Next(s, a))
  {
    if s.pc[a.t] == Stopping {
      SetStopKeeps(s, a.t);
    } else {
      LogoutStepKeeps(s, a);
    }
  }

  lemma LogoutStepKeeps(s: State, a: Action)
    requires Inv(s) && Enabled(s, a) && a.Proceed? && (s.pc[a.t].LoggingOut? || s.pc[a.t].Sleeping?)
    ensures Inv(Next(s, a))
  {
    LogoutStep(s, a);
    LogoutKeeps(s, a.t, AfterLogout(s.pc[a.t], a));
  }

  function AfterLogout(pc: PC, a: Action): PC
    requires a.Proceed? && (pc.LoggingOut? || pc.Sleeping?)
  {
    if pc.LoggingOut? then (if a.force then Stopping else Sleeping(1))
    else if pc.second <= 10 && a.loggedOn then Sleeping(pc.second + 1)
    else Stopping
  }

  lemma LogoutStep(s: State, a: Action)
    requires Enabled(s, a) && a.Proceed? && (s.pc[a.t].LoggingOut? || s.pc[a.t].Sleeping?)
    ensures Next(s, a) == Move(s, a.t, AfterLogout(s.pc[a.t], a))
  {
  }

  lemma JoiningKeeps(s: State, a: Action)
    requires Inv(s) && Enabled(s, a) && a.Proceed? && AfterStop(s.pc[a.t]) && !AfterMain(s.pc[a.t])
    ensures Inv(Next(s, a))
  {
    if s.pc[a.t] == JoiningOthers {
      JoinOthersKeeps(s, a.t);
    } else {
      JoinMainKeeps(s, a.t);
    }
  }

  lemma LateBodyKeeps(s: State, a: Action)
    requires Inv(s) && Enabled(s, a) && a.Proceed? && AfterMain(s.pc[a.t])
    ensures Inv(Next(s, a))
  {
    match s.pc[a.t]
    case Clearing => ClearKeeps(s, a.t);
    case LoggingOn => LogonKeeps(s, a.t);
    case Releasing => ReleaseKeeps(s, a.t);
    case _ =>
  }

  lemma AnyLockKeeps(s: State, t: nat)
    requires Inv(s) && t < |s.pc| && WantsLock(s.pc[t]) && s.holder == -1
    ensures Inv(Move(s, t, Locked(s.pc[t])).(holder := t))
  {
    if s.pc[t] == AtLock {
      LockKeeps(s, t);
    } else if s.pc[t] == Woken {
      RelockKeeps(s, t);
    } else {
      LockToReleaseKeeps(s, t);
    }
  }

  lemma NextKeeps(s: State, a: Action)
    requires Inv(s) && Enabled(s, a)
    ensures Inv(Next(s, a))
  {
    match a
    case Call(t) => CallKeeps(s, t);
    case Lock(t) => AnyLockKeeps(s, t);
    case SpuriousWakeup(t) => WakeupKeeps(s, t);
    case Exit(t) => ExitKeeps(s, t);
    case Proceed(t, _, _) =>
      if AfterMain(s.pc[t]) {
        LateBodyKeeps(s, a);
      } else if AfterStop(s.pc[t]) {
        JoiningKeeps(s, a);
      } else if InBody(s.pc[t]) {
        EarlyBodyKeeps(s, a);
      } else {
        TestKeeps(s, a);
      }
  }

  // ----- runs

  ghost predicate Run(s: State, actions: seq<Action>, r: State)
    decreases |actions|
  {
    if actions == [] then s == r
    else Enabled(s, actions[0]) && Run(Next(s, actions[0]), actions[1..], r)
  }

  lemma NextFields(s: State, a: Action)
    requires Enabled(s, a)
    ensures Next(s, a).own == s.own && |Next(s, a).pc| == |s.pc|
    ensures (s.claimant != -1 && !s.stopping ==> s.stop) && s.claimant != -1 ==> Next(s, a).claimant == s.claimant
  {
  }

  lemma {:induction false} RunKeeps(s: State, actions: seq<Action>, r: State)
    requires Inv(s) && Run(s, actions, r)
    ensures Inv(r)
    decreases |actions|
  {
    if actions != [] {
      NextKeeps(s, actions[0]);
      RunKeeps(Next(s, actions[0]), actions[1..], r);
    }
  }

  lemma {:induction false} RunKeepsClaimant(s: State, actions: seq<Action>, r: State)
    requires Inv(s) && s.claimant != -1 && Run(s, actions, r)
    ensures r.own == s.own && |r.pc| == |s.pc| && r.claimant == s.claimant
    decreases |actions|
  {
    if actions != [] {
      NextFields(s, actions[0]);
      NextKeeps(s, actions[0]);
      RunKeepsClaimant(Next(s, actions[0]), actions[1..], r);
    }
  }

  /** In every run at most one thread takes the claim and runs the body, and a caller that
      is not one of the transport's threads returns only when all of them are joined. */
  lemma StopsOnceAndJoins(s: State, actions: seq<Action>, r: State)
    requires Started(s) && Run(s, actions, r)
    ensures r.claims <= 1
    ensures forall t, u :: 0 <= t < |r.pc| && 0 <= u < |r.pc| && InBody(r.pc[t]) && InBody(r.pc[u]) ==> t == u
    ensures forall t :: 0 <= t < |r.pc| && r.pc[t] == Returned && t !in r.own ==> Joined(r)
  {
    StartedInv(s);
    RunKeeps(s, actions, r);
  }

  /** The actions that are not new calls, and not wake-ups without a notification. */
  predicate Internal(a: Action) {
    a.Lock? || a.Proceed? || a.Exit?
  }

  ghost predicate Quiet(s: State) {
    forall a :: Internal(a) ==> !Enabled(s, a)
  }

  /** No deadlock: while a call is under way some thread can take a step, provided the
      claimant is not one of the transport's own threads. */
  lemma NoDeadlock(s: State, t: nat) returns (a: Action)
    requires Inv(s) && t < |s.pc| && Inside(s.pc[t]) && s.claimant !in s.own
    ensures Internal(a) && Enabled(s, a)
  {
    if s.holder != -1 {
      a := Proceed(s.holder, false, false);
    } else if WantsLock(s.pc[t]) {
      a := Lock(t);
    } else {
      assert s.stopping;
      var c := s.claimant;
      if WantsLock(s.pc[c]) {
        a := Lock(c);
      } else if s.pc[c] == JoiningOthers && !OthersExited(s) {
        var u :| u in s.own && u != s.main && s.pc[u] != Exited;
        a := OwnThreadCanStep(s, u);
      } else if s.pc[c] == JoiningMain && s.pc[s.main] != Exited {
        a := OwnThreadCanStep(s, s.main);
      } else {
        a := Proceed(c, false, false);
      }
    }
  }

  /** One of the transport's threads that has not ended can take a step once m_stop is set. */
  lemma OwnThreadCanStep(s: State, u: nat) returns (a: Action)
    requires Inv(s) && s.holder == -1 && s.stop && u in s.own && s.pc[u] != Exited && s.claimant !in s.own
    ensures Internal(a) && Enabled(s, a)
  {
    if WantsLock(s.pc[u]) {
      a := Lock(u);
    } else {
      a := Exit(u);
    }
  }

  // ----- every call returns

  function Weight(pc: PC, n: nat): (w: nat) {
    match pc
    case Exited => 0
    case Outside => 1
    case Returned => 1
    case Waiting => 2
    case Rechecking => 3
    case Woken => 4
    case Releasing => 2 * n + 2
    case AtRelease => 2 * n + 3
    case LoggingOn => 2 * n + 4
    case Clearing => 2 * n + 5
    case JoiningMain => 2 * n + 6
    case JoiningOthers => 2 * n + 7
    case Stopping => 2 * n + 8
    case Sleeping(second) => 2 * n + 9 + (if second <= 11 then 11 - second else 0)
    case LoggingOut => 2 * n + 20
    case Deciding => 2 * n + 21
    case AtLock => 2 * n + 22
  }

  function Total(pcs: seq<PC>, n: nat): nat {
    if pcs == [] then 0 else Weight(pcs[0], n) + Total(pcs[1..], n)
  }

  lemma {:induction false} TotalUpdate(pcs: seq<PC>, n: nat, t: nat, pc: PC)
    requires t < |pcs|
    ensures Total(pcs[t := pc], n) == Total(pcs, n) - Weight(pcs[t], n) + Weight(pc, n)
  {
    if t == 0 {
      assert pcs[0 := pc][1..] == pcs[1..];
    } else {
      assert pcs[t := pc][1..] == pcs[1..][t - 1 := pc];
      TotalUpdate(pcs[1..], n, t - 1, pc);
    }
  }

  lemma {:induction false} TotalWakeAll(pcs: seq<PC>, n: nat)
    ensures Total(WakeAll(pcs), n) <= Total(pcs, n) + 2 * |pcs|
  {
    if pcs != [] {
      assert WakeAll(pcs)[1..] == WakeAll(pcs[1..]);
      TotalWakeAll(pcs[1..], n);
    }
  }

  /** Each internal step but the release moves its own thread to a lighter place. */
  lemma StepIsLighter(s: State, a: Action) returns (pc: PC)
    requires Internal(a) && Enabled(s, a) && !(a.Proceed? && s.pc[a.t].Releasing?)
    ensures Next(s, a).pc == s.pc[a.t := pc] && Weight(pc, |s.pc|) < Weight(s.pc[a.t], |s.pc|)
  {
    if a.Proceed? {
      pc := ProceedIsLighter(s, a.t, a.force, a.loggedOn);
    } else {
      pc := if a.Lock? then Locked(s.pc[a.t]) else Exited;
    }
  }

  lemma ProceedIsLighter(s: State, t: nat, force: bool, loggedOn: bool) returns (pc: PC)
    requires t < |s.pc| && Inside(s.pc[t]) && !WantsLock(s.pc[t]) && s.pc[t] != Waiting && s.pc[t] != Releasing
    ensures ProceedFrom(s, t, force, loggedOn).pc == s.pc[t := pc]
    ensures Weight(pc, |s.pc|) < Weight(s.pc[t], |s.pc|)
  {
    pc := ProceedFrom(s, t, force, loggedOn).pc[t];
  }

  lemma InternalDescends(s: State, a: Action)
    requires Internal(a) && Enabled(s, a)
    ensures Total(Next(s, a).pc, |s.pc|) < Total(s.pc, |s.pc|)
  {
    if a.Proceed? && s.pc[a.t].Releasing? {
      TotalUpdate(s.pc, |s.pc|, a.t, Returned);
      TotalWakeAll(s.pc[a.t := Returned], |s.pc|);
    } else {
      var pc := StepIsLighter(s, a);
      TotalUpdate(s.pc, |s.pc|, a.t, pc);
    }
  }

  lemma {:induction false} StepsAreBounded(s: State, actions: seq<Action>, r: State)
    requires Run(s, actions, r) && forall a :: a in actions ==> Internal(a)
    ensures |actions| <= Total(s.pc, |s.pc|)
    decreases |actions|
  {
    if actions != [] {
      assert actions[0] in actions && forall a :: a in actions[1..] ==> a in actions;
      InternalDescends(s, actions[0]);
      NextFields(s, actions[0]);
      StepsAreBounded(Next(s, actions[0]), actions[1..], r);
    }
  }

  /** When no more calls come, and blocked threads are woken only by the notification, the
      threads can take only so many steps; and when they can take no more, every call has
      returned, if the claimant is not one of the transport's own threads. */
  lemma EveryCallReturns(s: State, actions: seq<Action>, r: State)
    requires Inv(s) && Run(s, actions, r) && forall a :: a in actions ==> Internal(a)
    ensures |actions| <= Total(s.pc, |s.pc|)
    ensures Quiet(r) && r.claimant !in r.own ==> forall t :: 0 <= t < |r.pc| ==> !Inside(r.pc[t])
  {
    StepsAreBounded(s, actions, r);
    RunKeeps(s, actions, r);
    if t :| Quiet(r) && r.claimant !in r.own && 0 <= t < |r.pc| && Inside(r.pc[t]) {
      var a := NoDeadlock(r, t);
    }
  }

  /** Nothing keeps one of the transport's threads from being the first to call stop. */
  lemma OwnThreadCanClaim(s: State)
    requires Started(s)
    ensures Run(s, [Call(s.main), Lock(s.main), Proceed(s.main, false, false)],
      s.(pc := s.pc[s.main := LoggingOut], stopping := true, claimant := s.main, claims := 1))
  {
    var s1 := Next(s, Call(s.main));
    var s2 := Next(s1, Lock(s.main));
    var s3 := Next(s2, Proceed(s.main, false, false));
    assert Run(s3, [], s3) && Run(s2, [Proceed(s.main, false, false)], s3);
    assert [Lock(s.main), Proceed(s.main, false, false)][1..] == [Proceed(s.main, false, false)];
    assert [Call(s.main), Lock(s.main), Proceed(s.main, false, false)][1..]
        == [Lock(s.main), Proceed(s.main, false, false)];
    assert s3.pc == s.pc[s.main := LoggingOut];
  }

  /** The condition is needed: when one of the transport's own threads takes the claim, it
      waits for itself, and no caller from outside the transport ever returns. */
  lemma OwnClaimantNeverFinishes(s: State, actions: seq<Action>, r: State)
    requires Inv(s) && s.claimant in s.own && Run(s, actions, r)
    ensures 0 <= s.claimant < |r.pc| && InBody(r.pc[s.claimant])
    ensures forall t :: 0 <= t < |r.pc| && t !in r.own ==> r.pc[t] != Returned
  {
    RunKeeps(s, actions, r);
    RunKeepsClaimant(s, actions, r);
  }

  // ----- how long the sessions are waited for

  function Times(a: Action, n: nat): seq<Action> {
    if n == 0 then [] else [a] + Times(a, n - 1)
  }

  lemma OneStepMore(s: State, a: Action, next: State, actions: seq<Action>, r: State)
    requires Enabled(s, a) && next == Next(s, a) && Run(next, actions, r)
    ensures Run(s, [a] + actions, r)
  {
    assert ([a] + actions)[1..] == actions;
  }

  lemma {:induction false} SleepsOn(s: State, t: nat, k: nat, n: nat)
    requires t < |s.pc| && s.pc[t] == Sleeping(k + 1) && k + n <= 10
    ensures Run(s, Times(Proceed(t, false, true), n), Move(s, t, Sleeping(k + n + 1)))
    decreases n
  {
    if n == 0 {
      assert s.pc[t := Sleeping(k + 1)] == s.pc;
    } else {
      var a := Proceed(t, false, true);
      var next := Next(s, a);
      SleepsOn(next, t, k + 1, n - 1);
      assert Move(next, t, Sleeping(k + n + 1)) == Move(s, t, Sleeping(k + n + 1));
      OneStepMore(s, a, next, Times(a, n - 1), Move(s, t, Sleeping(k + n + 1)));
    }
  }

  /** Without force the claimant sleeps as long as a session is logged on, ten seconds at most;
      with force it does not sleep. */
  lemma WaitsForLogout(s: State, t: nat, seconds: nat, loggedOn: bool)
    requires t < |s.pc| && s.pc[t] == LoggingOut && seconds <= 10
    ensures Enabled(s, Proceed(t, true, loggedOn)) && Next(s, Proceed(t, true, loggedOn)) == Move(s, t, Stopping)
    ensures Run(s, [Proceed(t, false, true)] + Times(Proceed(t, false, true), seconds), Move(s, t, Sleeping(seconds + 1)))
    ensures
      var r := Move(s, t, Sleeping(seconds + 1));
      Next(r, Proceed(t, false, loggedOn)).pc[t] == if loggedOn && seconds < 10 then Sleeping(seconds + 2) else Stopping
  {
    WithForce(s, t, loggedOn);
    SleepsFor(s, t, seconds);
    SleepEnds(s, t, seconds, loggedOn);
  }

  lemma WithForce(s: State, t: nat, loggedOn: bool)
    requires t < |s.pc| && s.pc[t] == LoggingOut
    ensures Enabled(s, Proceed(t, true, loggedOn)) && Next(s, Proceed(t, true, loggedOn)) == Move(s, t, Stopping)
  {
  }

  lemma SleepsFor(s: State, t: nat, seconds: nat)
    requires t < |s.pc| && s.pc[t] == LoggingOut && seconds <= 10
    ensures Run(s, [Proceed(t, false, true)] + Times(Proceed(t, false, true), seconds), Move(s, t, Sleeping(seconds + 1)))
  {
    var a := Proceed(t, false, true);
    var first := Next(s, a);
    SleepsOn(first, t, 0, seconds);
    assert Move(first, t, Sleeping(seconds + 1)) == Move(s, t, Sleeping(seconds + 1));
    OneStepMore(s, a, first, Times(a, seconds), Move(s, t, Sleeping(seconds + 1)));
  }

  lemma SleepEnds(s: State, t: nat, seconds: nat, loggedOn: bool)
    requires t < |s.pc| && seconds <= 10
    ensures
      var r := Move(s, t, Sleeping(seconds + 1));
      Next(r, Proceed(t, false, loggedOn)).pc[t] == if loggedOn && seconds < 10 then Sleeping(seconds + 2) else Stopping
  {
  }
}
