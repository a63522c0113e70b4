/** The sign-in gate of the agent portal. */
module AuthGate {
  // An epoch decides which session answer may still set the identity. The entrance (retry and sign-in) is on screen exactly
  // when nothing is loading and nobody is signed in.

  import opened Common

  /** A signed-in account; booking stays off until the server's own context says otherwise. */
  datatype Identity = Identity(user: string, bookingEnabled: bool)

  datatype Task = Restore(epoch: nat) | Confirm(epoch: nat, signedIn: Identity)

  datatype Answer = Context(identity: Identity) | SessionExpired(hadMark: bool) | Failed

  datatype Screen = Screen(epoch: nat, identity: Option<Identity>, loading: bool, sessionExpired: bool, restoreError: bool)

  datatype Started = Started(screen: Screen, task: Task)

  function BookingOff(identity: Identity): Identity {
    identity.(bookingEnabled := false)
  }

  function RestoreStarted(s: Screen): Started {
    Started(s.(epoch := s.epoch + 1, loading := true, restoreError := false), Restore(s.epoch + 1))
  }

  function SignInStarted(s: Screen, signedIn: Identity): Started {
    Started(s.(epoch := s.epoch + 1, identity := Some(BookingOff(signedIn)), sessionExpired := false, restoreError := false),
            Confirm(s.epoch + 1, signedIn))
  }

  function Expired(s: Screen): Screen {
    if s.identity.None? then s else s.(epoch := s.epoch + 1, identity := None, restoreError := false, sessionExpired := true)
  }

  function Answered(s: Screen, task: Task, answer: Answer): Screen {
    if s.epoch != task.epoch then s
    else
      match task
      case Restore(_) =>
        if answer.Context? then s.(identity := Some(answer.identity), sessionExpired := false, loading := false)
        else s.(identity := None, sessionExpired := answer.SessionExpired? && answer.hadMark, restoreError := answer.Failed?, loading := false)
      case Confirm(_, signedIn) =>
        s.(identity := Some(if answer.Context? then answer.identity else BookingOff(signedIn)))
  }

  class Gate {
    var sessionEpoch: nat
    var identity: Option<Identity>
    var loading: bool
    var sessionExpired: bool
    var restoreError: bool

    function View(): Screen
      reads this
    {
      Screen(sessionEpoch, identity, loading, sessionExpired, restoreError)
    }

    constructor ()
      ensures View() == Screen(0, None, true, false, false)
    {
      sessionEpoch, identity, loading, sessionExpired, restoreError := 0, None, true, false, false;
    }

    method RestoreSession() returns (task: Task)
      modifies this
      ensures Started(View(), task) == RestoreStarted(old(View()))
    {
      sessionEpoch := sessionEpoch + 1;
      loading := true;
      restoreError := false;
      task := Restore(sessionEpoch);
    }

    method AcceptSignIn(signedIn: Identity) returns (task: Task)
      modifies this
      ensures Started(View(), task) == SignInStarted(old(View()), signedIn)
    {
      sessionEpoch := sessionEpoch + 1;
      identity := Some(BookingOff(signedIn));
      sessionExpired := false;
      restoreError := false;
      task := Confirm(sessionEpoch, signedIn);
    }

    method OnExpired()
      modifies this
      ensures View() == Expired(old(View()))
    {
      if identity.None? {
        return;
      }
      sessionEpoch := sessionEpoch + 1;
      identity := None;
      restoreError := false;
      sessionExpired := true;
    }

    method FinishRestore(generation: nat, answer: Answer)
      modifies this
      ensures View() == Answered(old(View()), Restore(generation), answer)
    {
      if sessionEpoch != generation {
        return;
      }
      if answer.Context? {
        identity := Some(answer.identity);
        sessionExpired := false;
      } else {
        identity := None;
        sessionExpired := answer.SessionExpired? && answer.hadMark;
        restoreError := !answer.SessionExpired?;
      }
      if sessionEpoch == generation {
        loading := false;
      }
    }

    method FinishSignIn(generation: nat, signedIn: Identity, answer: Answer)
      modifies this
      ensures View() == Answered(old(View()), Confirm(generation, signedIn), answer)
    {
      if sessionEpoch != generation {
        return;
      }
      identity := Some(if answer.Context? then answer.identity else BookingOff(signedIn));
    }
  }

  // ----- every interleaving

  // A sign-in has two phases: submitting the form puts a login in flight, and its answer calls `acceptSignIn` whenever it
  // comes, whether or not the entrance it was submitted from is still on screen. Each time the entrance appears it is a new
  // instance whose form can be submitted while none of its own logins is in flight.

  datatype Event =
    | Retry
    | Submit
    | Expire
    | Reply(id: nat, answer: Answer)
    | LoginReply(id: nat, signedIn: Option<Identity>)

  /** The screen, the session requests in flight, and for every login in flight the entrance it was submitted from. */
  datatype System = System(screen: Screen, tasks: map<nat, Task>, logins: map<nat, nat>, entrance: nat, nextId: nat)

  predicate EntranceShown(s: Screen) {
    !s.loading && s.identity.None?
  }

  /** The next screen; an entrance that appears is a new one. */
  function Showing(y: System, s: Screen): System {
    y.(screen := s, entrance := if EntranceShown(s) && !EntranceShown(y.screen) then y.entrance + 1 else y.entrance)
  }

  function Launched(y: System, started: Started): System {
    Showing(y, started.screen).(tasks := y.tasks[y.nextId := started.task], nextId := y.nextId + 1)
  }

  const BLANK := Screen(0, None, true, false, false)

  /** The gate mounts and restores at once. */
  function Mounted(): System {
    Launched(System(BLANK, map[], map[], 0, 0), RestoreStarted(BLANK))
  }

  predicate CanSubmit(y: System) {
    EntranceShown(y.screen) && forall id | id in y.logins :: y.logins[id] != y.entrance
  }

  function Step(y: System, e: Event): System {
    match e
    case Retry => if EntranceShown(y.screen) && y.screen.restoreError then Launched(y, RestoreStarted(y.screen)) else y
    case Submit => if CanSubmit(y) then y.(logins := y.logins[y.nextId := y.entrance], nextId := y.nextId + 1) else y
    case Expire => Showing(y, Expired(y.screen))
    case Reply(id, answer) =>
      if id !in y.tasks then y
      else Showing(y, Answered(y.screen, y.tasks[id], answer)).(tasks := y.tasks - {id})
    case LoginReply(id, signedIn) =>
      if id !in y.logins then y
      else
        var answered := y.(logins := y.logins - {id});
        if signedIn.None? then answered else Launched(answered, SignInStarted(y.screen, signedIn.value))
  }

  function After(y: System, events: seq<Event>): System {
    if events == [] then y else Step(After(y, events[..|events| - 1]), events[|events| - 1])
  }

  predicate IsCurrent(y: System, id: nat) {
    id in y.tasks && y.tasks[id].epoch == y.screen.epoch
  }

  /** A restore in flight whose answer will still be taken. */
  ghost predicate Restoring(y: System) {
    exists id :: IsCurrent(y, id) && y.tasks[id].Restore?
  }

  /** The loading screen is up and no answer can take it down. */
  ghost predicate Stuck(y: System) {
    y.screen.loading && !Restoring(y)
  }

  ghost predicate Inv(y: System) {
    && (forall id | id in y.tasks :: id < y.nextId && y.tasks[id].epoch <= y.screen.epoch)
    && (forall id, id' | IsCurrent(y, id) && IsCurrent(y, id') :: id == id')
    && (Restoring(y) ==> y.screen.loading && y.screen.identity.None?)
    && (forall id | IsCurrent(y, id) && y.tasks[id].Confirm? :: y.screen.identity == Some(BookingOff(y.tasks[id].signedIn)))
  }

  /** The event that leaves the loading screen up for good: a login that signs in while a restore is still awaited. */
  ghost predicate Overtakes(y: System, e: Event) {
    e.LoginReply? && e.id in y.logins && e.signedIn.Some? && Restoring(y)
  }

  lemma LaunchKept(y: System, started: Started)
    requires Inv(y) && started.task.epoch == started.screen.epoch == y.screen.epoch + 1
    requires started.task.Restore? ==> started.screen.loading && started.screen.identity.None?
    requires started.task.Confirm? ==> started.screen.identity == Some(BookingOff(started.task.signedIn))
    ensures Inv(Launched(y, started)) && (Restoring(Launched(y, started)) <==> started.task.Restore?)
  {
    var z := Launched(y, started);
    assert IsCurrent(z, y.nextId) && z.tasks[y.nextId] == started.task;
    assert forall id | id in y.tasks :: z.tasks[id] == y.tasks[id];
  }

  lemma ReplyKept(y: System, id: nat, answer: Answer)
    requires Inv(y) && id in y.tasks
    ensures Inv(Step(y, Reply(id, answer)))
    ensures Stuck(Step(y, Reply(id, answer))) <==> Stuck(y)
  {
    var z := Step(y, Reply(id, answer));
    assert forall i | IsCurrent(z, i) :: IsCurrent(y, i) && z.tasks[i] == y.tasks[i];
    if !IsCurrent(y, id) {
      assert forall i | IsCurrent(y, i) :: IsCurrent(z, i) && z.tasks[i] == y.tasks[i];
    }
  }

  lemma ExpireKept(y: System)
    requires Inv(y)
    ensures Inv(Step(y, Expire))
    ensures Stuck(Step(y, Expire)) <==> Stuck(y)
  {
    var z := Step(y, Expire);
    if y.screen.identity.Some? {
      assert forall i :: !IsCurrent(z, i);
    } else {
      assert forall i :: IsCurrent(z, i) <==> IsCurrent(y, i);
    }
  }

  /** One step keeps the invariant, and the screen gets stuck at a sign-in that overtakes a restore and nowhere else. */
  lemma StepKept(y: System, e: Event)
    requires Inv(y)
    ensures Inv(Step(y, e))
    ensures Stuck(Step(y, e)) <==> Stuck(y) || Overtakes(y, e)
  {
    match e
    case Retry =>
      if EntranceShown(y.screen) && y.screen.restoreError {
        LaunchKept(y, RestoreStarted(y.screen));
      }
    case Submit =>
      var z := Step(y, e);
      assert forall i :: IsCurrent(z, i) <==> IsCurrent(y, i);
    case Expire => ExpireKept(y);
    case Reply(id, answer) =>
      if id in y.tasks {
        ReplyKept(y, id, answer);
      }
    case LoginReply(id, signedIn) =>
      if id in y.logins {
        var answered := y.(logins := y.logins - {id});
        assert forall i :: IsCurrent(answered, i) <==> IsCurrent(y, i);
        if signedIn.Some? {
          LaunchKept(answered, SignInStarted(y.screen, signedIn.value));
        }
      }
  }

  /**
   * In every run at most one session answer can still be taken, a restore that is awaited shows loading over no identity, and
   * until a sign-in is confirmed the identity shown is that sign-in with booking off.
   */
  lemma {:induction false} EveryRun(events: seq<Event>)
    ensures Inv(After(Mounted(), events))
  {
    if events == [] {
      assert IsCurrent(Mounted(), 0);
    } else {
      EveryRun(events[..|events| - 1]);
      StepKept(After(Mounted(), events[..|events| - 1]), events[|events| - 1]);
    }
  }

  /** Somewhere in the run a login signed in while a restore was still awaited. */
  ghost predicate Overtaken(events: seq<Event>) {
    exists k | 0 <= k < |events| :: Overtakes(After(Mounted(), events[..k]), events[k])
  }

  lemma OvertakenNext(front: seq<Event>, e: Event)
    ensures Overtaken(front + [e]) <==> Overtaken(front) || Overtakes(After(Mounted(), front), e)
  {
    hide Overtakes, After;
    var events := front + [e];
    assert events[..|front|] == front && events[|front|] == e;
    assert forall k | 0 <= k < |front| :: events[..k] == front[..k] && events[k] == front[k];
    if k :| 0 <= k < |front| && Overtakes(After(Mounted(), front[..k]), front[k]) {
      assert Overtakes(After(Mounted(), events[..k]), events[k]);
    }
    if Overtakes(After(Mounted(), front), e) {
      assert Overtakes(After(Mounted(), events[..|front|]), events[|front|]);
    }
  }

  lemma {:induction false} StuckIffOvertaken(events: seq<Event>)
    ensures Stuck(After(Mounted(), events)) <==> Overtaken(events)
  {
    hide Stuck, Step, Overtakes, Mounted;
    if events == [] {
      MountedIsRestoring();
    } else {
      var front, e := events[..|events| - 1], events[|events| - 1];
      StuckIffOvertaken(front);
      EveryRun(front);
      StepKept(After(Mounted(), front), e);
      OvertakenNext(front, e);
      assert events == front + [e];
      hide Overtaken;
    }
  }

  lemma MountedIsRestoring()
    ensures Restoring(Mounted()) && !Stuck(Mounted())
  {
    assert IsCurrent(Mounted(), 0);
  }

  /**
   * Loading is shown exactly while one restore carries the newest epoch, never over an identity, in the runs in which no login
   * signed in while a restore was awaited; and in every other run loading stays up although no awaited answer can end it.
   */
  lemma {:induction false} LoadingIsExactIff(events: seq<Event>)
    ensures var y := After(Mounted(), events);
            && ((y.screen.loading <==> Restoring(y)) <==> !Overtaken(events))
            && (!Overtaken(events) ==> !(y.screen.loading && y.screen.identity.Some?))
  {
    EveryRun(events);
    StuckIffOvertaken(events);
    hide After, Mounted, Overtaken;
  }

  lemma PrefixOvertaken(events: seq<Event>, more: seq<Event>)
    requires Overtaken(events)
    ensures Overtaken(events + more)
  {
    hide Overtakes, After;
    var all := events + more;
    var k :| 0 <= k < |events| && Overtakes(After(Mounted(), events[..k]), events[k]);
    assert all[..k] == events[..k] && all[k] == events[k];
    assert Overtakes(After(Mounted(), all[..k]), all[k]);
  }

  /** Once stuck, no further answer, login, expiry or click takes the loading screen down. */
  lemma {:induction false} StuckForGood(events: seq<Event>, more: seq<Event>)
    requires Overtaken(events)
    ensures After(Mounted(), events + more).screen.loading
  {
    PrefixOvertaken(events, more);
    StuckIffOvertaken(events + more);
    hide After, Mounted, Overtaken;
  }

  /** A run that gets stuck: the restore fails, the form is submitted, Retry is clicked, and then the login succeeds; every answer came. */
  lemma StuckRun(identity: Identity, context: Identity) returns (events: seq<Event>)
    ensures var y := After(Mounted(), events);
            && y.screen.loading && y.screen.identity == Some(context) && y.tasks == map[] && y.logins == map[]
            && Overtaken(events)
  {
    events := [Reply(0, Failed), Submit, Retry, LoginReply(1, Some(identity)), Reply(2, Failed), Reply(3, Context(context))];
    var y0 := Mounted();
    var y1 := Step(y0, events[0]);
    var y2 := Step(y1, events[1]);
    var y3 := Step(y2, events[2]);
    var y4 := Step(y3, events[3]);
    var y5 := Step(y4, events[4]);
    var y6 := Step(y5, events[5]);
    assert CanSubmit(y1);
    assert y2.logins.Keys == {1} && y3.tasks == map[2 := Restore(2)];
    assert y4.tasks == map[2 := Restore(2), 3 := Confirm(3, identity)] && y4.logins == map[];
    assert y5.tasks == map[3 := Confirm(3, identity)] && y6.tasks == map[];
    RunSteps(events);
    StuckIffOvertaken(events);
    assert forall id :: !IsCurrent(y6, id);
  }

  lemma RunSteps(events: seq<Event>)
    requires |events| == 6
    ensures After(Mounted(), events)
         == Step(Step(Step(Step(Step(Step(Mounted(), events[0]), events[1]), events[2]), events[3]), events[4]), events[5])
  {
    hide Step, Mounted;
    assert events[..5][..4] == events[..4] && events[..4][..3] == events[..3] && events[..3][..2] == events[..2] && events[..2][..1] == events[..1];
    assert events[..1][..0] == [];
    assert After(Mounted(), events[..1]) == Step(Mounted(), events[0]);
    assert After(Mounted(), events[..2]) == Step(After(Mounted(), events[..1]), events[1]);
    assert After(Mounted(), events[..3]) == Step(After(Mounted(), events[..2]), events[2]);
    assert After(Mounted(), events[..4]) == Step(After(Mounted(), events[..3]), events[3]);
    assert After(Mounted(), events[..5]) == Step(After(Mounted(), events[..4]), events[4]);
  }

  /** An answer to something the expired session had in flight, another expiry, or a refused login. */
  predicate IsLate(e: Event) {
    e.Reply? || e.Expire? || (e.LoginReply? && e.signedIn.None?)
  }

  /**
   * After a session expired under a signed-in agent, no late answer can bring an identity back: only a login that signs in, or a
   * retry that is answered, can.
   */
  lemma {:induction false} ExpiryIsFinal(events: seq<Event>, late: seq<Event>)
    requires After(Mounted(), events).screen.identity.Some?
    requires forall i | 0 <= i < |late| :: IsLate(late[i])
    ensures After(Step(After(Mounted(), events), Expire), late).screen == Expired(After(Mounted(), events).screen)
    ensures After(Step(After(Mounted(), events), Expire), late).screen.identity == None
    ensures forall id :: !IsCurrent(After(Step(After(Mounted(), events), Expire), late), id)
  {
    var y := Step(After(Mounted(), events), Expire);
    EveryRun(events);
    if late == [] {
      assert forall id :: !IsCurrent(y, id);
    } else {
      ExpiryIsFinal(events, late[..|late| - 1]);
      LateStep(After(y, late[..|late| - 1]), late[|late| - 1]);
    }
  }

  lemma LateStep(y: System, e: Event)
    requires IsLate(e) && y.screen.identity.None? && forall id :: !IsCurrent(y, id)
    ensures Step(y, e).screen == y.screen && forall id :: !IsCurrent(Step(y, e), id)
  {
    var z := Step(y, e);
    assert e.Reply? ==> !IsCurrent(y, e.id);
    assert z.screen == y.screen;
    assert forall id | id in z.tasks :: id in y.tasks && z.tasks[id] == y.tasks[id];
    assert forall id | IsCurrent(z, id) :: IsCurrent(y, id);
  }
}
