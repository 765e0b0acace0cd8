/**
 One TCP relay (scripts/lifecycle_devnet_soak_lib.py): the accept thread and
 the controller calling `cut` and `heal`, interleaved one critical section or
 one unlocked read at a time. Sockets are numbers; the network decides every
 accept, connect and bind. Calls that time out do not return and are not modelled.
 */
module Relay {

  import opened Options

  type Socket = nat

  /** Where the accept thread stands, with what it holds. */
  datatype AcceptThread =
    | Top                                        // about to read the listener and the enabled flag
    | Binding                                    // read: no listener, enabled
    | Acknowledging                              // read: no listener, disabled
    | Accepting(listener: Socket)
    | Checking(client: Socket)                   // about to read the enabled flag
    | Connecting(client: Socket)                 // past the enabled check
    | Registering(client: Socket, upstream: Socket)

  /** Where the controller stands. */
  datatype Controller =
    | Up                                         // started, or a heal has returned
    | Closing(listener: Option<Socket>, todo: set<Socket>)
    | Dropping(todo: set<Socket>)
    | Waiting                                    // for the acknowledgement
    | Down                                       // a cut has returned
    | Healing                                    // waiting to be bound

  datatype State = State(
    enabled: bool,
    listener: Option<Socket>,
    conns: set<Socket>,
    unbound: bool,                               // the event `cut` waits on
    accepted: nat,
    thread: AcceptThread,
    controller: Controller,
    open: set<Socket>,                           // listening sockets the kernel still serves
    unused: Socket,                              // every socket so far is below this
    // bookkeeping of the current cut
    cuts: nat,                                   // critical sections of `cut` so far
    readAt: nat,                                 // value of `cuts` when the thread last read the flags
    ackAt: nat,                                  // value of `readAt` at the last acknowledgement
    fromUp: bool,                                // did the cut find the relay up?
    inFlight: bool,                              // was a client past the enabled check when the cut began?
    live: set<Socket>,                           // connections registered when the cut began
    late: seq<(Socket, Socket)>)                 // pairs registered since the cut began

  datatype Turn =
    | ReadFlags
    | Bind(ok: bool)
    | Acknowledge
    | Accept(outcome: bool)                      // a client, or a timeout or error
    | CheckEnabled
    | Connect(ok: bool)
    | Register

  datatype Call =
    | Cut
    | CloseListener
    | DropOne(socket: Socket)
    | DropsDone
    | CutReturns
    | Heal
    | HealReturns

  datatype Action =
    | Thread(turn: Turn)                         // the accept thread
    | PumpDrops(socket: Socket)                  // a pump thread ends and discards a socket
    | Control(call: Call)                        // whoever calls `cut` and `heal`

  /** After `start`: bound, enabled, the thread at the top of its loop. */
  function Started(): State {
    State(true, Some(0), {}, false, 0, Top, Up, {0}, 1, 0, 0, 0, false, false, {}, [])
  }

  predicate PastCheck(t: AcceptThread) {
    t.Connecting? || t.Registering?
  }

  /** One atomic step of the accept loop; a turn that is not due changes nothing. */
  function ThreadStep(s: State, t: Turn): State {
    match t
    case ReadFlags =>
      if !s.thread.Top? then s
      else if s.listener.Some? then s.(thread := Accepting(s.listener.value), readAt := s.cuts)
      else if s.enabled then s.(thread := Binding, readAt := s.cuts)
      else s.(thread := Acknowledging, readAt := s.cuts)
    case Bind(ok) =>
      if !s.thread.Binding? then s
      else if ok then s.(thread := Top, listener := Some(s.unused), open := s.open + {s.unused}, unused := s.unused + 1)
      else s.(thread := Top)
    case Acknowledge =>
      if !s.thread.Acknowledging? then s else s.(thread := Top, unbound := true, ackAt := s.readAt)
    case Accept(outcome) =>
      if !s.thread.Accepting? then s
      else if outcome && s.thread.listener in s.open then s.(thread := Checking(s.unused), unused := s.unused + 1)
      else s.(thread := Top)
    case CheckEnabled =>
      if !s.thread.Checking? then s
      else if s.enabled then s.(thread := Connecting(s.thread.client)) else s.(thread := Top)
    case Connect(ok) =>
      if !s.thread.Connecting? then s
      else if ok then s.(thread := Registering(s.thread.client, s.unused), unused := s.unused + 1)
      else s.(thread := Top)
    case Register =>
      if !s.thread.Registering? then s
      else s.(thread := Top, conns := s.conns + {s.thread.client, s.thread.upstream},
              accepted := s.accepted + 1, late := s.late + [(s.thread.client, s.thread.upstream)])
  }

  /** One atomic step of `cut` or `heal`. */
  function ControlStep(s: State, c: Call): State {
    match c
    case Cut =>
      if !s.controller.Up? && !s.controller.Down? then s
      else s.(enabled := false, unbound := false, listener := None, controller := Closing(s.listener, s.conns),
              cuts := s.cuts + 1, fromUp := s.controller.Up?, inFlight := PastCheck(s.thread), live := s.conns,
              late := [])
    case CloseListener =>
      if !s.controller.Closing? then s
      else s.(open := if s.controller.listener.Some? then s.open - {s.controller.listener.value} else s.open,
              controller := Dropping(s.controller.todo))
    case DropOne(socket) =>
      if !s.controller.Dropping? || socket !in s.controller.todo then s
      else s.(conns := s.conns - {socket}, controller := Dropping(s.controller.todo - {socket}))
    case DropsDone =>
      if !s.controller.Dropping? || s.controller.todo != {} then s else s.(controller := Waiting)
    case CutReturns =>
      if !s.controller.Waiting? || !s.unbound then s else s.(controller := Down)
    case Heal =>
      if !s.controller.Up? && !s.controller.Down? then s
      else s.(enabled := true, unbound := false, controller := Healing)
    case HealReturns =>
      if !s.controller.Healing? || s.listener.None? then s else s.(controller := Up)
  }

  function Step(s: State, a: Action): State {
    match a
    case Thread(t) => ThreadStep(s, t)
    case PumpDrops(socket) => s.(conns := s.conns - {socket})
    case Control(c) => ControlStep(s, c)
  }

  function After(s: State, run: seq<Action>): State {
    if run == [] then s else Step(After(s, run[..|run| - 1]), run[|run| - 1])
  }

  // ── What every interleaving keeps ────────────────────────────────────────

  predicate BeingCut(s: State) {
    s.controller.Closing? || s.controller.Dropping? || s.controller.Waiting? || s.controller.Down?
  }

  /** The flags agree with the controller, and only a healing relay is ever rebound. */
  predicate FlagsAgree(s: State) {
    && (s.enabled <==> !BeingCut(s))
    && (s.controller.Up? ==> s.listener.Some?)
    && (s.listener.Some? ==> s.enabled && s.listener.value in s.open && !s.thread.Acknowledging? && !s.thread.Binding?)
    && (s.thread.Binding? ==> s.controller.Healing? && s.listener.None?)
  }

  /** Only the current listener, or the one being closed, is open. */
  predicate OpenAgrees(s: State) {
    && (forall l :: l in s.open
          ==> Some(l) == s.listener || (s.controller.Closing? && Some(l) == s.controller.listener))
  }

  /** Once a cut is acknowledged the thread holds no client, and the acknowledgement is this cut's own. */
  predicate AckAgrees(s: State) {
    && (BeingCut(s) && s.unbound ==> s.thread.Top? || s.thread.Acknowledging?)
    && (s.controller.Down? ==> s.unbound)
    && (BeingCut(s) && s.fromUp && s.thread.Acknowledging? ==> s.readAt == s.cuts)
    && (BeingCut(s) && s.fromUp && s.unbound ==> s.ackAt == s.cuts)
  }

  /** A socket the thread holds is new: neither registered nor live when the cut began. */
  predicate New(s: State, c: Socket) {
    c < s.unused && c !in s.conns && c !in s.live
  }

  predicate Below(sockets: set<Socket>, bound: Socket) {
    forall c :: c in sockets ==> c < bound
  }

  predicate SocketsAgree(s: State) {
    && Below(s.conns, s.unused)
    && Below(s.live, s.unused)
    && match s.thread
       case Checking(c) => New(s, c)
       case Connecting(c) => New(s, c)
       case Registering(c, u) => New(s, c) && New(s, u)
       case _ => true
  }

  function Ends(pairs: seq<(Socket, Socket)>): set<Socket> {
    (set i | 0 <= i < |pairs| :: pairs[i].0) + (set i | 0 <= i < |pairs| :: pairs[i].1)
  }

  /** What is still registered during a cut is waiting to be dropped or was registered late. */
  predicate DropsAgree(s: State) {
    && (s.controller.Closing? ==> s.conns <= s.controller.todo + Ends(s.late))
    && (s.controller.Dropping? ==> s.conns <= s.controller.todo + Ends(s.late))
    && (s.controller.Waiting? || s.controller.Down? ==> s.conns <= Ends(s.late))
  }

  /** After the cut began, at most the one client already past the check is registered. */
  predicate LateAgrees(s: State) {
    BeingCut(s) ==>
      && |s.late| + (if PastCheck(s.thread) then 1 else 0) <= (if s.inFlight then 1 else 0)
      && Ends(s.late) !! s.live
  }

  predicate Inv(s: State) {
    FlagsAgree(s) && OpenAgrees(s) && AckAgrees(s) && SocketsAgree(s) && DropsAgree(s) && LateAgrees(s)
  }

  lemma EndsOfNext(pairs: seq<(Socket, Socket)>, p: (Socket, Socket))
    ensures Ends(pairs + [p]) == Ends(pairs) + {p.0, p.1}
  {
    var more := pairs + [p];
    assert more[|pairs|] == p;
    forall i | 0 <= i < |pairs| ensures more[i] == pairs[i] {}
    forall x | x in Ends(pairs) ensures x in Ends(more) {
      var i :| 0 <= i < |pairs| && (pairs[i].0 == x || pairs[i].1 == x);
      assert more[i] == pairs[i];
    }
  }

  lemma ThreadFlags(s: State, t: Turn)
    requires FlagsAgree(s) && OpenAgrees(s)
    ensures FlagsAgree(ThreadStep(s, t)) && OpenAgrees(ThreadStep(s, t))
  {
  }

  lemma ControlFlags(s: State, c: Call)
    requires FlagsAgree(s) && OpenAgrees(s)
    ensures FlagsAgree(ControlStep(s, c)) && OpenAgrees(ControlStep(s, c))
  {
  }

  lemma ThreadAcks(s: State, t: Turn)
    requires FlagsAgree(s) && AckAgrees(s)
    ensures AckAgrees(ThreadStep(s, t))
  {
  }

  lemma ControlAcks(s: State, c: Call)
    requires FlagsAgree(s) && AckAgrees(s)
    ensures AckAgrees(ControlStep(s, c))
  {
  }

  lemma ThreadSockets(s: State, t: Turn)
    requires SocketsAgree(s)
    ensures SocketsAgree(ThreadStep(s, t))
  {
  }

  lemma ControlSockets(s: State, c: Call)
    requires SocketsAgree(s)
    ensures SocketsAgree(ControlStep(s, c))
  {
  }

  lemma ThreadDrops(s: State, t: Turn)
    requires DropsAgree(s)
    ensures DropsAgree(ThreadStep(s, t))
  {
    hide Ends;
    if t.Register? && s.thread.Registering? {
      EndsOfNext(s.late, (s.thread.client, s.thread.upstream));
    }
  }

  lemma ControlDrops(s: State, c: Call)
    requires DropsAgree(s)
    ensures DropsAgree(ControlStep(s, c))
  {
    hide Ends;
  }

  lemma ThreadLate(s: State, t: Turn)
    requires FlagsAgree(s) && SocketsAgree(s) && LateAgrees(s)
    ensures LateAgrees(ThreadStep(s, t))
  {
    hide Ends, Below;
    if t.Register? && s.thread.Registering? {
      EndsOfNext(s.late, (s.thread.client, s.thread.upstream));
    }
  }

  lemma ControlLate(s: State, c: Call)
    requires LateAgrees(s)
    ensures LateAgrees(ControlStep(s, c))
  {
    assert Ends([]) == {};
    hide Ends;
  }

  lemma StepKeeps(s: State, a: Action)
    requires Inv(s)
    ensures Inv(Step(s, a))
  {
    match a
    case Thread(t) =>
      hide FlagsAgree, OpenAgrees, AckAgrees, SocketsAgree, DropsAgree, LateAgrees, ThreadStep;
      ThreadFlags(s, t);
      ThreadAcks(s, t);
      ThreadSockets(s, t);
      ThreadDrops(s, t);
      ThreadLate(s, t);
    case PumpDrops(_) =>
    case Control(c) =>
      hide FlagsAgree, OpenAgrees, AckAgrees, SocketsAgree, DropsAgree, LateAgrees, ControlStep;
      ControlFlags(s, c);
      ControlAcks(s, c);
      ControlSockets(s, c);
      ControlDrops(s, c);
      ControlLate(s, c);
  }

  /** Every interleaving of the accept thread, the pumps and the controller keeps the invariant. */
  lemma {:induction false} EveryRun(s: State, run: seq<Action>)
    requires Inv(s)
    ensures Inv(After(s, run))
  {
    hide Inv, Step;
    if run != [] {
      EveryRun(s, run[..|run| - 1]);
      StepKeeps(After(s, run[..|run| - 1]), run[|run| - 1]);
    }
  }

  // ── What a cut that returns has achieved ─────────────────────────────────

  /**
   When `cut` has returned, whatever was interleaved with it: nothing listens,
   the accept thread holds no client, every connection registered before the
   cut's critical section is gone, and what may remain is the one pair whose
   client was already past the enabled check. The event it waited on was set
   by a thread that read the flags after this very cut.
   */
  lemma CutReturned(run: seq<Action>)
    requires After(Started(), run).controller.Down?
    ensures var s := After(Started(), run);
            && !s.enabled && s.listener.None? && s.open == {}
            && (s.thread.Top? || s.thread.Acknowledging?)
            && s.live !! s.conns
            && |s.late| <= 1 && s.conns <= Ends(s.late)
            && (!s.inFlight ==> s.conns == {})
            && (s.fromUp ==> s.ackAt == s.cuts)
  {
    EveryRun(Started(), run);
    assert !After(Started(), run).inFlight ==> After(Started(), run).late == [];
  }

  predicate Quiet(s: State) {
    !s.enabled && s.listener.None? && (s.thread.Top? || s.thread.Acknowledging?)
  }

  predicate Has(run: seq<Action>, c: Call) {
    exists i :: 0 <= i < |run| && run[i] == Control(c)
  }

  lemma QuietStep(s: State, a: Action)
    requires Quiet(s) && a != Control(Heal)
    ensures Quiet(Step(s, a))
    ensures Step(s, a).accepted == s.accepted && Step(s, a).conns <= s.conns && Step(s, a).open <= s.open
  {
  }

  /** From there until the next `heal`, nothing is bound, registered or counted. */
  lemma {:induction false} QuietUntilHeal(s: State, run: seq<Action>)
    requires Quiet(s) && !Has(run, Heal)
    ensures Quiet(After(s, run))
    ensures After(s, run).accepted == s.accepted && After(s, run).conns <= s.conns && After(s, run).open <= s.open
  {
    if run != [] {
      var before, last := run[..|run| - 1], run[|run| - 1];
      assert !Has(before, Heal) by {
        forall i | 0 <= i < |before| ensures before[i] != Control(Heal) {
          assert before[i] == run[i];
        }
      }
      QuietUntilHeal(s, before);
      QuietStep(After(s, before), last);
    }
  }

  /** Both together: the partition a returned `cut` makes lasts, over every interleaving, until `heal`. */
  lemma PartitionHolds(run: seq<Action>, more: seq<Action>)
    requires After(Started(), run).controller.Down? && !Has(more, Heal)
    ensures var s, s' := After(Started(), run), After(After(Started(), run), more);
            s'.listener.None? && s'.open == {} && s'.accepted == s.accepted && s'.conns <= s.conns
  {
    CutReturned(run);
    QuietUntilHeal(After(Started(), run), more);
  }

  // ── When a returned cut leaves a connection behind ───────────────────────

  /** Can a cut begun in s return with a connection still registered? */
  ghost predicate MayLeaveOne(s: State) {
    exists rest :: LeavesOne(Step(s, Control(Cut)), rest)
  }

  predicate LeavesOne(s: State, rest: seq<Action>) {
    Returns(s, rest) && After(s, rest).conns != {}
  }

  /** Does this run end the cut that s has begun? */
  predicate Returns(s: State, rest: seq<Action>) {
    !Has(rest, Cut) && After(s, rest).controller.Down?
  }

  lemma {:induction false} InFlightFixed(s: State, run: seq<Action>)
    requires !Has(run, Cut)
    ensures After(s, run).inFlight == s.inFlight
  {
    if run != [] {
      var before := run[..|run| - 1];
      assert !Has(before, Cut) by {
        forall i | 0 <= i < |before| ensures before[i] != Control(Cut) {
          assert before[i] == run[i];
        }
      }
      InFlightFixed(s, before);
    }
  }

  /** What happens while a call runs: anything but another call. */
  predicate Calm(run: seq<Action>) {
    !Has(run, Cut) && !Has(run, Heal)
  }

  /** One more action at the end of such a run. */
  lemma Extend(s: State, run: seq<Action>, a: Action)
    requires Calm(run) && a != Control(Cut) && a != Control(Heal)
    ensures After(s, run + [a]) == Step(After(s, run), a)
    ensures Calm(run + [a])
  {
    hide Step;
    assert (run + [a])[..|run|] == run;
  }

  lemma DropAll(s: State, run: seq<Action>, some: set<Socket>) returns (more: seq<Action>)
    requires Calm(run)
    requires After(s, run).controller.Dropping? && some <= After(s, run).controller.todo
    ensures Calm(more)
    ensures var was := After(s, run);
            After(s, more) == was.(conns := was.conns - some, controller := Dropping(was.controller.todo - some))
    decreases |some|
  {
    var was := After(s, run);
    if some == {} {
      more := run;
      assert was.conns - some == was.conns && was.controller.todo - some == was.controller.todo;
    } else {
      var x :| x in some;
      more := DropAll(s, run, some - {x});
      Extend(s, more, Control(DropOne(x)));
      more := more + [Control(DropOne(x))];
      assert was.conns - (some - {x}) - {x} == was.conns - some;
      assert was.controller.todo - (some - {x}) - {x} == was.controller.todo - some;
    }
  }

  /** The client past the check is connected and registered after the cut has begun. */
  lemma RegisterLate(s: State) returns (run: seq<Action>)
    requires PastCheck(s.thread) && s.controller.Closing?
    ensures Calm(run)
    ensures var t := After(s, run);
            && t.controller == s.controller && t.thread.Top? && t.enabled == s.enabled && t.listener == s.listener
            && s.thread.client in t.conns
  {
    run := [];
    if s.thread.Connecting? {
      Extend(s, run, Thread(Connect(true)));
      run := run + [Thread(Connect(true))];
    }
    Extend(s, run, Thread(Register));
    run := run + [Thread(Register)];
  }

  /** The cut closes its listener, drops what it listed and is acknowledged. */
  lemma FinishCut(s: State, begun: seq<Action>) returns (run: seq<Action>)
    requires Calm(begun)
    requires var t := After(s, begun); t.controller.Closing? && t.thread.Top? && !t.enabled && t.listener.None?
    ensures Calm(run) && After(s, run).controller.Down?
    ensures After(s, run).conns == After(s, begun).conns - After(s, begun).controller.todo
  {
    var todo := After(s, begun).controller.todo;
    Extend(s, begun, Control(CloseListener));
    run := DropAll(s, begun + [Control(CloseListener)], todo);
    Extend(s, run, Control(DropsDone));
    run := run + [Control(DropsDone)];
    Extend(s, run, Thread(ReadFlags));
    run := run + [Thread(ReadFlags)];
    Extend(s, run, Thread(Acknowledge));
    run := run + [Thread(Acknowledge)];
    Extend(s, run, Control(CutReturns));
    run := run + [Control(CutReturns)];
  }

  /** The accept thread can always finish its turn. */
  lemma FinishTurn(s: State) returns (run: seq<Action>)
    requires !s.thread.Binding? && s.controller.Closing? && !s.enabled && s.listener.None?
    ensures Calm(run)
    ensures var t := After(s, run); t.controller == s.controller && t.thread.Top? && !t.enabled && t.listener.None?
  {
    if PastCheck(s.thread) {
      run := RegisterLate(s);
    } else if s.thread.Top? {
      run := [];
    } else {
      var turn :=
        if s.thread.Acknowledging? then Acknowledge
        else if s.thread.Accepting? then Accept(false)
        else CheckEnabled;
      Extend(s, [], Thread(turn));
      run := [Thread(turn)];
    }
  }

  /** A cut can always return. */
  lemma CutCanReturn(run: seq<Action>) returns (rest: seq<Action>)
    requires var s := After(Started(), run); s.controller.Up? || s.controller.Down?
    ensures Returns(Step(After(Started(), run), Control(Cut)), rest) && Calm(rest)
  {
    var s := After(Started(), run);
    EveryRun(Started(), run);
    var begun := Step(s, Control(Cut));
    var turn := FinishTurn(begun);
    rest := FinishCut(begun, turn);
  }

  /**
   A cut can return with a connection still registered exactly when, as it
   begins, the accept thread holds a client already past the enabled check.
   */
  lemma CutLeavesOneExactly(run: seq<Action>)
    requires var s := After(Started(), run); s.controller.Up? || s.controller.Down?
    ensures MayLeaveOne(After(Started(), run)) <==> PastCheck(After(Started(), run).thread)
  {
    var s := After(Started(), run);
    var begun := Step(s, Control(Cut));
    EveryRun(Started(), run);
    if PastCheck(s.thread) {
      var late := RegisterLate(begun);
      var rest := FinishCut(begun, late);
      assert s.thread.client in After(begun, rest).conns;
      assert LeavesOne(begun, rest);
    } else if MayLeaveOne(s) {
      var rest :| LeavesOne(begun, rest);
      StepKeeps(s, Control(Cut));
      EveryRun(begun, rest);
      InFlightFixed(begun, rest);
      NothingLate(After(begun, rest));
      assert false;
    }
  }

  lemma NothingLate(s: State)
    requires Inv(s) && s.controller.Down? && !s.inFlight
    ensures s.conns == {}
  {
    assert s.late == [];
  }

  /** So `cut` does not reset every live connection, as its class promises. */
  lemma NotEveryConnectionIsReset() returns (run: seq<Action>)
    ensures After(Started(), run).controller.Up? && MayLeaveOne(After(Started(), run))
  {
    run := [];
    Extend(Started(), run, Thread(ReadFlags));
    run := run + [Thread(ReadFlags)];
    Extend(Started(), run, Thread(Accept(true)));
    run := run + [Thread(Accept(true))];
    Extend(Started(), run, Thread(CheckEnabled));
    run := run + [Thread(CheckEnabled)];
    CutLeavesOneExactly(run);
  }

  // ── What a heal that returns has achieved ────────────────────────────────

  /** When a relay is up, started or healed, exactly its listener is open and clients are let through. */
  lemma HealReturned(run: seq<Action>)
    requires After(Started(), run).controller.Up?
    ensures var s := After(Started(), run);
            && s.enabled && s.listener.Some? && s.open == {s.listener.value}
            && !s.thread.Binding? && !s.thread.Acknowledging?
  {
    EveryRun(Started(), run);
  }

  /** A heal that has begun rebinds, if need be, and returns. */
  lemma FinishHeal(s: State) returns (rest: seq<Action>)
    requires s.controller.Healing? && s.enabled
    requires s.listener.Some? || s.thread.Top? || s.thread.Acknowledging?
    ensures Calm(rest) && After(s, rest).controller.Up?
  {
    rest := [];
    if s.listener.None? {
      if s.thread.Acknowledging? {
        Extend(s, rest, Thread(Acknowledge));
        rest := rest + [Thread(Acknowledge)];
      }
      Extend(s, rest, Thread(ReadFlags));
      rest := rest + [Thread(ReadFlags)];
      Extend(s, rest, Thread(Bind(true)));
      rest := rest + [Thread(Bind(true))];
    }
    Extend(s, rest, Control(HealReturns));
    rest := rest + [Control(HealReturns)];
  }

  /** A heal can always return, however the relay was cut before. */
  lemma HealCanReturn(run: seq<Action>) returns (rest: seq<Action>)
    requires var s := After(Started(), run); s.controller.Up? || s.controller.Down?
    ensures Calm(rest) && After(Step(After(Started(), run), Control(Heal)), rest).controller.Up?
  {
    hide After, Inv, Ends;
    var s := After(Started(), run);
    if s.controller.Up? {
      HealReturned(run);
    } else {
      CutReturned(run);
    }
    rest := FinishHeal(Step(s, Control(Heal)));
  }

  /** From s to t the thread has gone on, no connection is lost, and the relay is as it was otherwise. */
  predicate GoneOn(s: State, t: State, counted: nat) {
    && t.enabled && t.controller == s.controller && t.listener == s.listener && t.open == s.open
    && t.accepted == s.accepted + counted && s.conns <= t.conns && s.unused <= t.unused
  }

  /** One step of a client given up or registered. */
  lemma OneStepUp(s: State) returns (a: Turn)
    requires s.enabled && !s.thread.Binding? && !s.thread.Acknowledging? && !s.thread.Top?
    ensures GoneOn(s, Step(s, Thread(a)), if s.thread.Registering? then 1 else 0)
    ensures var next := Step(s, Thread(a)).thread; if s.thread.Checking? then next.Connecting? else next.Top?
  {
    a := match s.thread
      case Accepting(_) => Accept(false)
      case Registering(_, _) => Register
      case Checking(_) => CheckEnabled
      case _ => Connect(false);
  }

  /** The accept thread of a relay that is up gets back to the top of its loop. */
  lemma BackToTop(s: State) returns (run: seq<Action>)
    requires s.enabled && !s.thread.Binding? && !s.thread.Acknowledging?
    ensures Calm(run) && After(s, run).thread.Top?
    ensures GoneOn(s, After(s, run), if s.thread.Registering? then 1 else 0)
  {
    hide Step;
    run := [];
    if !s.thread.Top? {
      var a := OneStepUp(s);
      Extend(s, run, Thread(a));
      run := run + [Thread(a)];
      var t := After(s, run);
      if !t.thread.Top? {
        a := OneStepUp(t);
        Extend(s, run, Thread(a));
        run := run + [Thread(a)];
      }
    }
  }

  /** A client that dials a relay that is up can be accepted, connected, registered and counted. */
  lemma ClientGetsThrough(run: seq<Action>) returns (rest: seq<Action>)
    requires After(Started(), run).controller.Up?
    ensures Calm(rest)
    ensures var s, t := After(Started(), run), After(After(Started(), run), rest);
            && t.controller.Up? && s.conns <= t.conns
            && t.accepted == s.accepted + (if s.thread.Registering? then 2 else 1)
            && exists c, u :: Fresh(s, t, c, u)
  {
    HealReturned(run);
    var s := After(Started(), run);
    rest := BackToTop(s);
    var top := After(s, rest);
    Extend(s, rest, Thread(ReadFlags));
    rest := rest + [Thread(ReadFlags)];
    Extend(s, rest, Thread(Accept(true)));
    rest := rest + [Thread(Accept(true))];
    Extend(s, rest, Thread(CheckEnabled));
    rest := rest + [Thread(CheckEnabled)];
    Extend(s, rest, Thread(Connect(true)));
    rest := rest + [Thread(Connect(true))];
    Extend(s, rest, Thread(Register));
    rest := rest + [Thread(Register)];
    EveryRun(Started(), run);
    assert Fresh(s, After(s, rest), top.unused, top.unused + 1);
  }

  /** Client and upstream are registered now and were not before. */
  predicate Fresh(s: State, t: State, c: Socket, u: Socket) {
    c != u && c in t.conns && u in t.conns && c !in s.conns && u !in s.conns
  }

  /** Connections end by themselves: the pumps can drop every one that is registered, also one left by a cut. */
  lemma PumpsCanEnd(s: State, some: set<Socket>) returns (run: seq<Action>)
    ensures Calm(run) && After(s, run) == s.(conns := s.conns - some)
    decreases |some|
  {
    if some == {} {
      run := [];
      assert s.conns - some == s.conns;
    } else {
      var x :| x in some;
      run := PumpsCanEnd(s, some - {x});
      Extend(s, run, PumpDrops(x));
      run := run + [PumpDrops(x)];
      assert s.conns - (some - {x}) - {x} == s.conns - some;
    }
  }

  // ── One turn at a time, and nothing without the network ──────────────────

  predicate SameKind(t: Turn, u: Turn) {
    match t
    case ReadFlags => u.ReadFlags?
    case Bind(_) => u.Bind?
    case Acknowledge => u.Acknowledge?
    case Accept(_) => u.Accept?
    case CheckEnabled => u.CheckEnabled?
    case Connect(_) => u.Connect?
    case Register => u.Register?
  }

  /** The accept thread is one thread: at any time only one kind of turn is due. */
  lemma OneTurnDue(s: State, t: Turn, u: Turn)
    requires ThreadStep(s, t).thread != s.thread && ThreadStep(s, u).thread != s.thread
    ensures SameKind(t, u)
  {
  }

  predicate IsRefused(a: Action) {
    a.Thread? ==> a.turn != Bind(true) && a.turn != Accept(true) && a.turn != Connect(true)
  }

  /** Nothing is connected, counted or held, and a relay that was cut has no listener. */
  predicate Bare(s: State) {
    && s.conns == {} && s.accepted == 0 && s.unused == Started().unused
    && !s.thread.Checking? && !PastCheck(s.thread)
    && (s.cuts > 0 ==> s.listener.None?)
  }

  lemma BareTurn(s: State, t: Turn)
    requires Bare(s) && IsRefused(Thread(t))
    ensures Bare(ThreadStep(s, t))
  {
  }

  lemma BareCall(s: State, c: Call)
    requires Bare(s)
    ensures Bare(ControlStep(s, c))
  {
  }

  lemma BareStep(s: State, a: Action)
    requires Bare(s) && IsRefused(a)
    ensures Bare(Step(s, a))
  {
    if a.Thread? {
      hide ThreadStep, Bare;
      BareTurn(s, a.turn);
    } else if a.Control? {
      hide ControlStep, Bare;
      BareCall(s, a.call);
    }
  }

  /** If every bind, accept and connect fails, nothing comes about, whatever else happens in which order. */
  lemma {:induction false} RefusedRuns(run: seq<Action>)
    requires forall i :: 0 <= i < |run| ==> IsRefused(run[i])
    ensures Bare(After(Started(), run))
  {
    hide Step, Bare;
    if run == [] {
      assert Bare(Started()) by { StartsBare(); }
    } else {
      var before := run[..|run| - 1];
      forall i | 0 <= i < |before| ensures IsRefused(before[i]) {
        assert before[i] == run[i];
      }
      RefusedRuns(before);
      BareStep(After(Started(), before), run[|run| - 1]);
    }
  }

  lemma StartsBare()
    ensures Bare(Started())
  {
  }
}
