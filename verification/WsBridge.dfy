/**
  The websocket bridge (wsBridge, internal/api/gateway_ws.go) as a step system:
  two pumps, the idle watchdog and the joining handler, sharing a once-only stop
  and a context. A run is any schedule of the steps below.

  Of the websocket library the model keeps: a read or write may fail at any time,
  a failure closes that connection, and on a closed connection both always fail.
  A pump that has read a frame takes the time and stores it in two further steps,
  and the watchdog loads it and takes the time in two: the variable is shared.
*/
module WsBridge {
  type Frame = seq<nat>

  datatype Side = Client | Upstream {
    function Other(): Side {
      if Client? then Upstream else Client
    }
  }

  datatype Pair<T> = Pair(client: T, upstream: T) {
    function Get(s: Side): T {
      if s.Client? then client else upstream
    }

    function Set(s: Side, v: T): Pair<T> {
      if s.Client? then Pair(v, upstream) else Pair(client, v)
    }
  }

  /** pump[s] reads from connection s and writes to the other; Stopping is inside stop(). */
  datatype Pump =
    | Reading
    | Got(frame: Frame)               // read, time not yet taken
    | Timed(frame: Frame, at: int)    // time taken, not yet stored
    | Holding(frame: Frame)
    | PumpStopping
    | PumpDone

  /** Checking has loaded the last activity and not yet compared it with the time. */
  datatype Dog = Polling | Checking(seen: int) | DogStopping | DogDone

  /** wg.Wait; cancel and wait for the watchdog; the last stop(); returned. */
  datatype Handler = JoiningPumps | JoiningDog | LastStop | Returned

  datatype Caller = PumpCaller(side: Side) | DogCaller | HandlerCaller

  /** sync.Once around the two Close calls. */
  datatype Once = Idle | Running(who: Caller, clientDone: bool) | Complete

  datatype Bridge = Bridge(
    open: Pair<bool>,
    closeCalls: Pair<nat>,
    pump: Pair<Pump>,
    read: Pair<seq<Frame>>,     // frames read from each connection
    written: Pair<seq<Frame>>,  // frames written to each connection
    dog: Dog,
    handler: Handler,
    once: Once,
    cancelled: bool,
    now: int,
    lastActivity: int)

  datatype Action =
    | ReadOk(side: Side, frame: Frame)
    | ReadFail(side: Side)
    | TakeTime(side: Side)
    | StoreTime(side: Side)
    | WriteOk(side: Side)
    | WriteFail(side: Side)
    | Tick(to: int)
    | DogLoads
    | DogPasses
    | DogFires
    | DogLeaves
    | EnterStop(who: Caller)
    | CloseClient
    | CloseUpstream
    | LeaveStop(who: Caller)
    | JoinPumps
    | JoinDog

  function Begin(now: int): Bridge {
    Bridge(Pair(true, true), Pair(0, 0), Pair(Reading, Reading), Pair([], []), Pair([], []),
           Polling, JoiningPumps, Idle, false, now, now)
  }

  predicate InStop(b: Bridge, who: Caller) {
    match who
    case PumpCaller(s) => b.pump.Get(s).PumpStopping?
    case DogCaller => b.dog.DogStopping?
    case HandlerCaller => b.handler.LastStop?
  }

  predicate Enabled(b: Bridge, a: Action, idle: int) {
    match a
    case ReadOk(s, _) => b.pump.Get(s).Reading? && b.open.Get(s)
    case ReadFail(s) => b.pump.Get(s).Reading?
    case TakeTime(s) => b.pump.Get(s).Got?
    case StoreTime(s) => b.pump.Get(s).Timed?
    case WriteOk(s) => b.pump.Get(s).Holding? && b.open.Get(s.Other())
    case WriteFail(s) => b.pump.Get(s).Holding?
    case Tick(to) => to >= b.now
    case DogLoads => b.dog.Polling?
    case DogPasses => b.dog.Checking? && b.now - b.dog.seen < idle
    case DogFires => b.dog.Checking? && b.now - b.dog.seen >= idle
    case DogLeaves => b.dog.Polling? && b.cancelled
    case EnterStop(who) => InStop(b, who) && b.once.Idle?
    case CloseClient => b.once.Running? && !b.once.clientDone
    case CloseUpstream => b.once.Running? && b.once.clientDone
    case LeaveStop(who) => InStop(b, who) && b.once.Complete?
    case JoinPumps => b.handler.JoiningPumps? && b.pump == Pair(PumpDone, PumpDone)
    case JoinDog => b.handler.JoiningDog? && b.dog.DogDone?
  }

  function Apply(b: Bridge, a: Action, idle: int): Bridge
    requires Enabled(b, a, idle)
  {
    match a
    case ReadOk(s, f) =>
      b.(pump := b.pump.Set(s, Got(f)), read := b.read.Set(s, b.read.Get(s) + [f]))
    case TakeTime(s) => b.(pump := b.pump.Set(s, Timed(b.pump.Get(s).frame, b.now)))
    case StoreTime(s) =>
      b.(pump := b.pump.Set(s, Holding(b.pump.Get(s).frame)), lastActivity := b.pump.Get(s).at)
    case ReadFail(s) => b.(pump := b.pump.Set(s, PumpStopping), open := b.open.Set(s, false))
    case WriteOk(s) =>
      b.(pump := b.pump.Set(s, Reading),
         written := b.written.Set(s.Other(), b.written.Get(s.Other()) + [b.pump.Get(s).frame]))
    case WriteFail(s) => b.(pump := b.pump.Set(s, PumpStopping), open := b.open.Set(s.Other(), false))
    case Tick(to) => b.(now := to)
    case DogLoads => b.(dog := Checking(b.lastActivity))
    case DogPasses => b.(dog := Polling)
    case DogFires => b.(dog := DogStopping)
    case DogLeaves => b.(dog := DogDone)
    case EnterStop(who) => b.(once := Running(who, false))
    case CloseClient =>
      b.(open := b.open.Set(Client, false), once := Running(b.once.who, true),
         closeCalls := b.closeCalls.Set(Client, b.closeCalls.client + 1))
    case CloseUpstream =>
      b.(open := b.open.Set(Upstream, false), once := Complete,
         closeCalls := b.closeCalls.Set(Upstream, b.closeCalls.upstream + 1))
    case LeaveStop(who) =>
      (match who
       case PumpCaller(s) => b.(pump := b.pump.Set(s, PumpDone))
       case DogCaller => b.(dog := DogDone)
       case HandlerCaller => b.(handler := Returned))
    case JoinPumps => b.(handler := JoiningDog, cancelled := true)
    case JoinDog => b.(handler := LastStop)
  }

  // -------------------------------------------------------------- invariant

  /** What the pump out of `s` has passed on, by where it stands. */
  predicate Relayed(b: Bridge, s: Side) {
    var r, w := b.read.Get(s), b.written.Get(s.Other());
    match b.pump.Get(s)
    case Reading => w == r
    case Got(f) => w + [f] == r
    case Timed(f, _) => w + [f] == r
    case Holding(f) => w + [f] == r
    case _ => w <= r && |r| - |w| <= 1
  }

  predicate Closed(b: Bridge) {
    match b.once
    case Idle =>
      b.closeCalls == Pair(0, 0)
      && (b.open == Pair(true, true) || b.pump.client.PumpStopping? || b.pump.upstream.PumpStopping?)
    case Running(who, clientDone) =>
      InStop(b, who) && b.closeCalls == Pair(if clientDone then 1 else 0, 0) && (clientDone ==> !b.open.client)
    case Complete => b.closeCalls == Pair(1, 1) && b.open == Pair(false, false)
  }

  predicate Joined(b: Bridge) {
    && (b.pump.client.PumpDone? || b.pump.upstream.PumpDone? ==> b.once.Complete?)
    && (b.cancelled <==> !b.handler.JoiningPumps?)
    && (b.cancelled ==> b.pump == Pair(PumpDone, PumpDone))
    && (b.handler.LastStop? || b.handler.Returned? ==> b.dog.DogDone?)
  }

  predicate Inv(b: Bridge) {
    Relayed(b, Client) && Relayed(b, Upstream) && Closed(b) && Joined(b)
  }

  lemma StepKeepsRelayed(b: Bridge, a: Action, idle: int, s: Side)
    requires Relayed(b, s) && Enabled(b, a, idle)
    ensures Relayed(Apply(b, a, idle), s)
  {
  }

  lemma StepKeepsClosed(b: Bridge, a: Action, idle: int)
    requires Closed(b) && Joined(b) && Enabled(b, a, idle)
    ensures Closed(Apply(b, a, idle))
  {
  }

  lemma StepKeepsJoined(b: Bridge, a: Action, idle: int)
    requires Joined(b) && Enabled(b, a, idle)
    ensures Joined(Apply(b, a, idle))
  {
  }

  lemma StepKeeps(b: Bridge, a: Action, idle: int)
    requires Inv(b) && Enabled(b, a, idle)
    ensures Inv(Apply(b, a, idle))
  {
    StepKeepsRelayed(b, a, idle, Client);
    StepKeepsRelayed(b, a, idle, Upstream);
    StepKeepsClosed(b, a, idle);
    StepKeepsJoined(b, a, idle);
  }

  ghost predicate Run(states: seq<Bridge>, actions: seq<Action>, idle: int) {
    && |states| == |actions| + 1
    && forall i :: 0 <= i < |actions| ==>
         Enabled(states[i], actions[i], idle) && states[i + 1] == Apply(states[i], actions[i], idle)
  }

  lemma {:induction false} RunKeeps(states: seq<Bridge>, actions: seq<Action>, idle: int, n: nat)
    requires Run(states, actions, idle) && Inv(states[0]) && n <= |actions|
    ensures Inv(states[n])
  {
    if n > 0 {
      RunKeeps(states, actions, idle, n - 1);
      StepKeeps(states[n - 1], actions[n - 1], idle);
    }
  }

  /**
    In every schedule: each side has received a prefix of what the other sent,
    lagging by at most one frame; neither connection is closed twice; and when
    the handler returns, both were closed exactly once and every goroutine is done.
  */
  lemma BridgeSafety(states: seq<Bridge>, actions: seq<Action>, idle: int, start: int, n: nat)
    requires Run(states, actions, idle) && states[0] == Begin(start) && n <= |actions|
    ensures forall s: Side ::
      && states[n].written.Get(s) <= states[n].read.Get(s.Other())
      && |states[n].read.Get(s.Other())| - |states[n].written.Get(s)| <= 1
    ensures states[n].closeCalls.client <= 1 && states[n].closeCalls.upstream <= 1
    ensures states[n].handler.Returned? ==>
      && states[n].closeCalls == Pair(1, 1) && states[n].open == Pair(false, false)
      && states[n].pump == Pair(PumpDone, PumpDone) && states[n].dog.DogDone?
  {
    RunKeeps(states, actions, idle, n);
    var b := states[n];
    forall s: Side
      ensures b.written.Get(s) <= b.read.Get(s.Other()) && |b.read.Get(s.Other())| - |b.written.Get(s)| <= 1
    {
      assert Relayed(b, s.Other());
    }
  }

  /** The handler's own stop() is always the no-op its comment says: a pump got there first. */
  lemma LastStopIsNoOp(states: seq<Bridge>, actions: seq<Action>, idle: int, start: int, n: nat)
    requires Run(states, actions, idle) && states[0] == Begin(start) && n < |actions|
    ensures actions[n] != EnterStop(HandlerCaller)
  {
    RunKeeps(states, actions, idle, n);
  }

  // --------------------------------------------------------------- delivery

  /** A frame in hand can be passed on whenever the side it is for is open. */
  lemma HeldIsDelivered(b: Bridge, s: Side, idle: int)
    requires b.pump.Get(s).Holding? && b.open.Get(s.Other())
    ensures exists a ::
      && Enabled(b, a, idle)
      && Apply(b, a, idle).written == b.written.Set(s.Other(), b.written.Get(s.Other()) + [b.pump.Get(s).frame])
      && Apply(b, a, idle).pump.Get(s) == Reading && Apply(b, a, idle).open == b.open
  {
    assert Enabled(b, WriteOk(s), idle);
  }

  lemma Extend(states: seq<Bridge>, actions: seq<Action>, idle: int, a: Action)
    requires Run(states, actions, idle) && Enabled(states[|actions|], a, idle)
    ensures Run(states + [Apply(states[|actions|], a, idle)], actions + [a], idle)
  {
    hide Enabled, Apply;
  }

  /** Both pumps waiting on open connections, having passed on everything read. */
  function AtRest(start: int, a: seq<Frame>, b: seq<Frame>): Bridge {
    Begin(start).(read := Pair(a, b), written := Pair(b, a))
  }

  /** The four steps of one frame. */
  function Passage(s: Side, f: Frame, i: nat): Action
    requires i < 4
  {
    match i
    case 0 => ReadOk(s, f)
    case 1 => TakeTime(s)
    case 2 => StoreTime(s)
    case 3 => WriteOk(s)
  }

  function Passing(b: Bridge, s: Side, f: Frame, start: int, i: nat): Bridge
    requires i <= 4
  {
    var got := b.read.Set(s, b.read.Get(s) + [f]);
    match i
    case 0 => b
    case 1 => b.(pump := b.pump.Set(s, Got(f)), read := got)
    case 2 => b.(pump := b.pump.Set(s, Timed(f, start)), read := got)
    case 3 => b.(pump := b.pump.Set(s, Holding(f)), read := got)
    case 4 => b.(read := got, written := b.written.Set(s.Other(), b.written.Get(s.Other()) + [f]))
  }

  lemma PassageStep(start: int, a: seq<Frame>, b: seq<Frame>, s: Side, f: Frame, idle: int, i: nat)
    requires i < 4
    ensures var rest := AtRest(start, a, b);
      && Enabled(Passing(rest, s, f, start, i), Passage(s, f, i), idle)
      && Apply(Passing(rest, s, f, start, i), Passage(s, f, i), idle) == Passing(rest, s, f, start, i + 1)
  {
  }

  lemma {:induction false} PassesOne(states: seq<Bridge>, actions: seq<Action>, idle: int,
                                     start: int, a: seq<Frame>, b: seq<Frame>, s: Side, f: Frame, i: nat)
    returns (more: seq<Bridge>, steps: seq<Action>)
    requires i <= 4 && Run(states, actions, idle) && states[|actions|] == AtRest(start, a, b)
    ensures Run(more, steps, idle) && more[0] == states[0]
    ensures more[|steps|] == Passing(AtRest(start, a, b), s, f, start, i)
  {
    hide Enabled, Apply, AtRest, Passing, Passage;
    if i == 0 {
      more, steps := states, actions;
      PassingStarts(start, a, b, s, f);
    } else {
      more, steps := PassesOne(states, actions, idle, start, a, b, s, f, i - 1);
      PassageStep(start, a, b, s, f, idle, i - 1);
      Extend(more, steps, idle, Passage(s, f, i - 1));
      more := more + [Apply(more[|steps|], Passage(s, f, i - 1), idle)];
      steps := steps + [Passage(s, f, i - 1)];
    }
  }

  lemma PassingStarts(start: int, a: seq<Frame>, b: seq<Frame>, s: Side, f: Frame)
    ensures Passing(AtRest(start, a, b), s, f, start, 0) == AtRest(start, a, b)
    ensures Passing(AtRest(start, a, b), s, f, start, 4) ==
      if s.Client? then AtRest(start, a + [f], b) else AtRest(start, a, b + [f])
  {
  }

  /**
    Whatever frames a and b the two peers send, some schedule delivers all of
    them, each to the other side and in order, and leaves the bridge open.
  */
  lemma {:induction false} DeliversEverything(start: int, idle: int, a: seq<Frame>, b: seq<Frame>)
    returns (states: seq<Bridge>, actions: seq<Action>)
    ensures Run(states, actions, idle) && states[0] == Begin(start)
    ensures var end := states[|actions|];
      && end.read == Pair(a, b) && end.written == Pair(b, a)
      && end.pump == Pair(Reading, Reading) && end.open == Pair(true, true)
    ensures states[|actions|] == AtRest(start, a, b)
    decreases |a| + |b|
  {
    if b != [] {
      var n := |b| - 1;
      states, actions := DeliversEverything(start, idle, a, b[..n]);
      PassingStarts(start, a, b[..n], Upstream, b[n]);
      states, actions := PassesOne(states, actions, idle, start, a, b[..n], Upstream, b[n], 4);
      assert b[..n] + [b[n]] == b;
    } else if a != [] {
      var n := |a| - 1;
      states, actions := DeliversEverything(start, idle, a[..n], b);
      PassingStarts(start, a[..n], b, Client, a[n]);
      states, actions := PassesOne(states, actions, idle, start, a[..n], b, Client, a[n], 4);
      assert a[..n] + [a[n]] == a;
    } else {
      states, actions := [Begin(start)], [];
    }
  }

  /** The steps of the watchdog and of the stop it starts. */
  predicate OfWatchdog(a: Action) {
    a in {DogLoads, DogFires, EnterStop(DogCaller), CloseClient, CloseUpstream}
  }

  /** Idle long enough, the bridge is closed by the watchdog alone: five steps, no party's help. */
  lemma IdleCloses(b: Bridge, idle: int) returns (states: seq<Bridge>, actions: seq<Action>)
    requires Inv(b) && b.once.Idle? && b.dog.Polling? && b.now - b.lastActivity >= idle
    ensures Run(states, actions, idle) && states[0] == b
    ensures forall i :: 0 <= i < |actions| ==> OfWatchdog(actions[i])
    ensures states[|actions|].open == Pair(false, false) && states[|actions|].closeCalls == Pair(1, 1)
  {
    actions := [DogLoads, DogFires, EnterStop(DogCaller), CloseClient, CloseUpstream];
    var b1 := b.(dog := Checking(b.lastActivity));
    var b2 := b1.(dog := DogStopping);
    var b3 := b2.(once := Running(DogCaller, false));
    var b4 := b3.(open := b.open.Set(Client, false), once := Running(DogCaller, true), closeCalls := Pair(1, 0));
    var b5 := b4.(open := Pair(false, false), once := Complete, closeCalls := Pair(1, 1));
    states := [b, b1, b2, b3, b4, b5];
  }

  // --------------------------------------------------------------- teardown

  function PumpRank(p: Pump): nat {
    match p
    case PumpStopping => 1
    case PumpDone => 0
    case _ => 2
  }

  /** Steps a pump takes with a frame before it must notice that the side it reads from is gone. */
  function Delivering(p: Pump): nat {
    match p
    case Got(_) => 3
    case Timed(_, _) => 2
    case Holding(_) => 1
    case _ => 0
  }

  /** And before it must notice that the side it writes to is. */
  function Fetching(p: Pump): nat {
    match p
    case Reading => 3
    case Got(_) => 2
    case Timed(_, _) => 1
    case _ => 0
  }

  function OthersRank(b: Bridge): nat {
    (match b.dog case DogStopping => 1 case DogDone => 0 case _ => 2)
    + (match b.handler case JoiningPumps => 3 case JoiningDog => 2 case LastStop => 1 case Returned => 0)
    + (match b.once case Idle => 3 case Running(_, false) => 2 case Running(_, true) => 1 case Complete => 0)
  }

  /** At most 12; only relaying a frame leaves it unchanged. */
  function Rank(b: Bridge): nat {
    PumpRank(b.pump.client) + PumpRank(b.pump.upstream) + OthersRank(b)
  }

  /** With side s gone, its pump can still deliver the frame it holds and the other can still pick one up. */
  function TeardownRank(b: Bridge, s: Side): nat {
    PumpsRank(b.pump, s) + OthersRank(b)
  }

  /** The way of a frame through a pump. */
  predicate Relays(a: Action) {
    a.ReadOk? || a.TakeTime? || a.StoreTime? || a.WriteOk?
  }

  /** The passing of time, and the watchdog's polls, which it paces. */
  predicate Clockwork(a: Action) {
    a.Tick? || a.DogLoads? || a.DogPasses?
  }

  /** Every step but relaying a frame and the clock brings the end nearer, and none moves it away. */
  lemma RankFalls(b: Bridge, a: Action, idle: int)
    requires Inv(b) && Enabled(b, a, idle)
    ensures Rank(Apply(b, a, idle)) <= Rank(b)
    ensures !Clockwork(a) && !Relays(a) ==> Rank(Apply(b, a, idle)) < Rank(b)
  {
  }

  /** What the two pumps add to the teardown rank once side s is gone. */
  function PumpsRank(pump: Pair<Pump>, s: Side): nat {
    PumpRank(pump.Get(s)) + Delivering(pump.Get(s))
    + PumpRank(pump.Get(s.Other())) + Fetching(pump.Get(s.Other()))
  }

  predicate PumpStep(a: Action) {
    Relays(a) || a.ReadFail? || a.WriteFail?
  }

  lemma PumpStepFalls(b: Bridge, a: Action, idle: int, s: Side)
    requires Enabled(b, a, idle) && !b.open.Get(s) && PumpStep(a)
    ensures !Apply(b, a, idle).open.Get(s)
    ensures PumpsRank(Apply(b, a, idle).pump, s) < PumpsRank(b.pump, s)
    ensures OthersRank(Apply(b, a, idle)) == OthersRank(b)
  {
    var b' := Apply(b, a, idle);
    assert b'.pump.Get(a.side.Other()) == b.pump.Get(a.side.Other());
    assert a.side == s || a.side == s.Other();
  }

  lemma OtherStepFalls(b: Bridge, a: Action, idle: int, s: Side)
    requires Enabled(b, a, idle) && !b.open.Get(s) && !PumpStep(a)
    ensures !Apply(b, a, idle).open.Get(s)
    ensures PumpsRank(Apply(b, a, idle).pump, s) <= PumpsRank(b.pump, s)
    ensures OthersRank(Apply(b, a, idle)) <= OthersRank(b)
    ensures !Clockwork(a) ==>
      PumpsRank(Apply(b, a, idle).pump, s) < PumpsRank(b.pump, s) || OthersRank(Apply(b, a, idle)) < OthersRank(b)
  {
    var b' := Apply(b, a, idle);
    if a.LeaveStop? && a.who.PumpCaller? {
      assert OthersRank(b') == OthersRank(b);
      assert b'.pump.Get(a.who.side.Other()) == b.pump.Get(a.who.side.Other());
    } else {
      assert b'.pump == b.pump;
    }
  }

  /** Once a side is gone, whichever it is, relaying does so too. */
  lemma TeardownRankFalls(b: Bridge, a: Action, idle: int, s: Side)
    requires Enabled(b, a, idle) && !b.open.Get(s)
    ensures !Apply(b, a, idle).open.Get(s)
    ensures TeardownRank(Apply(b, a, idle), s) <= TeardownRank(b, s)
    ensures !Clockwork(a) ==> TeardownRank(Apply(b, a, idle), s) < TeardownRank(b, s)
  {
    hide Enabled, Apply, PumpsRank, OthersRank, PumpStep, Clockwork;
    if PumpStep(a) {
      PumpStepFalls(b, a, idle, s);
    } else {
      OtherStepFalls(b, a, idle, s);
    }
  }

  /** Steps other than clockwork, with and without relaying. */
  function Steps(actions: seq<Action>, relaying: bool): nat {
    if actions == [] then 0
    else
      (if Clockwork(actions[0]) || (Relays(actions[0]) && !relaying) then 0 else 1) + Steps(actions[1..], relaying)
  }

  lemma {:induction false} StepsBounded(states: seq<Bridge>, actions: seq<Action>, idle: int, s: Side)
    requires Run(states, actions, idle) && Inv(states[0])
    ensures Steps(actions, false) <= Rank(states[0])
    ensures !states[0].open.Get(s) ==> Steps(actions, true) <= TeardownRank(states[0], s)
    decreases |actions|
  {
    if actions != [] {
      var b := states[0];
      assert Enabled(b, actions[0], idle) && states[1] == Apply(b, actions[0], idle);
      StepKeeps(b, actions[0], idle);
      RankFalls(b, actions[0], idle);
      if !b.open.Get(s) {
        TeardownRankFalls(b, actions[0], idle, s);
      }
      hide Inv, Enabled, Apply, Rank, TeardownRank;
      RunFrom(states, actions, idle, 1);
      StepsBounded(states[1..], actions[1..], idle, s);
    }
  }

  lemma RunFrom(states: seq<Bridge>, actions: seq<Action>, idle: int, n: nat)
    requires Run(states, actions, idle) && n <= |actions|
    ensures Run(states[n..], actions[n..], idle)
  {
    forall i | 0 <= i < |actions[n..]|
      ensures Enabled(states[n..][i], actions[n..][i], idle)
        && states[n..][i + 1] == Apply(states[n..][i], actions[n..][i], idle)
    {
      assert states[n..][i] == states[i + n] && actions[n..][i] == actions[i + n];
    }
  }

  /** A step the process takes by itself, whatever the peers and the clock do. */
  predicate Must(b: Bridge, a: Action, idle: int) {
    Enabled(b, a, idle) &&
    match a
    case ReadFail(s) => !b.open.Get(s)
    case WriteFail(s) => !b.open.Get(s.Other())
    case ReadOk(_, _) => false
    case WriteOk(_) => false
    case Tick(_) => false
    case DogLoads => false
    case _ => true
  }

  /** Some party has called stop(), or its one execution has begun. */
  ghost predicate Stopping(b: Bridge) {
    !b.once.Idle? || exists who :: InStop(b, who)
  }

  /** Once any party calls stop() the bridge can always move on by itself until it has returned. */
  lemma NeverStuck(b: Bridge, idle: int)
    requires Inv(b) && !b.handler.Returned? && Stopping(b)
    ensures exists a :: Must(b, a, idle)
  {
    if b.once.Idle? {
      var who :| InStop(b, who);
      assert Must(b, EnterStop(who), idle);
    } else if b.once.Running? {
      assert Must(b, if b.once.clientDone then CloseUpstream else CloseClient, idle);
    } else if b.pump != Pair(PumpDone, PumpDone) {
      var s := if b.pump.client.PumpDone? then Upstream else Client;
      assert Must(b, match b.pump.Get(s)
        case Reading => ReadFail(s)
        case Got(_) => TakeTime(s)
        case Timed(_, _) => StoreTime(s)
        case Holding(_) => WriteFail(s)
        case _ => LeaveStop(PumpCaller(s)), idle);
    } else if b.handler.JoiningPumps? {
      assert Must(b, JoinPumps, idle);
    } else if b.handler.JoiningDog? {
      assert Must(b, match b.dog
        case Polling => DogLeaves
        case Checking(seen) => if b.now - seen < idle then DogPasses else DogFires
        case DogStopping => LeaveStop(DogCaller)
        case DogDone => JoinDog, idle);
    } else {
      assert Must(b, LeaveStop(HandlerCaller), idle);
    }
  }

  lemma {:induction false} StaysStopping(states: seq<Bridge>, actions: seq<Action>, idle: int, n: nat, m: nat)
    requires Run(states, actions, idle) && n <= m <= |actions| && Stopping(states[n])
    ensures Stopping(states[m])
    decreases m
  {
    if n < m {
      StaysStopping(states, actions, idle, n, m - 1);
      var b, b' := states[m - 1], states[m];
      assert Enabled(b, actions[m - 1], idle) && b' == Apply(b, actions[m - 1], idle);
      if b.once.Idle? {
        var who :| InStop(b, who);
        assert InStop(b', who);
      }
    }
  }

  /** A connection is closed only with or after a call of stop(). */
  lemma ClosedIsStopping(b: Bridge)
    requires Inv(b) && b.open != Pair(true, true)
    ensures Stopping(b)
  {
    if b.once.Idle? {
      assert InStop(b, PumpCaller(if b.pump.client.PumpStopping? then Client else Upstream));
    }
  }

  lemma StoppingRank(b: Bridge, s: Side)
    requires Inv(b) && Stopping(b)
    ensures Rank(b) <= 11
    ensures !b.open.Get(s) ==> TeardownRank(b, s) <= 16
  {
    if b.once.Idle? {
      var who :| InStop(b, who);
      assert who != HandlerCaller;
    }
  }

  /**
    Teardown finishes, whoever calls stop() first, pump or watchdog: from then on every schedule has at
    most 11 steps besides relaying and clockwork, at most 16 besides clockwork alone once either
    connection is closed, and one that the process itself cannot extend has returned.
  */
  lemma TeardownFinishes(states: seq<Bridge>, actions: seq<Action>, idle: int, start: int, n: nat, s: Side)
    requires Run(states, actions, idle) && states[0] == Begin(start) && n <= |actions|
    requires Stopping(states[n])
    ensures Steps(actions[n..], false) <= 11
    ensures !states[n].open.Get(s) ==> Steps(actions[n..], true) <= 16
    ensures (forall a :: !Must(states[|actions|], a, idle)) ==> states[|actions|].handler.Returned?
  {
    RunKeeps(states, actions, idle, n);
    RunKeeps(states, actions, idle, |actions|);
    RunFrom(states, actions, idle, n);
    StepsBounded(states[n..], actions[n..], idle, s);
    StoppingRank(states[n], s);
    StaysStopping(states, actions, idle, n, |actions|);
    if !states[|actions|].handler.Returned? {
      NeverStuck(states[|actions|], idle);
    }
  }

  // --------------------------------------------------------------- watchdog

  /** The reading in the shared variable before step n: the last one stored, or the start. */
  function LastStored(states: seq<Bridge>, actions: seq<Action>, n: nat): int
    requires n <= |actions| && |states| == |actions| + 1
    decreases n
  {
    if n == 0 then states[0].lastActivity
    else if actions[n - 1].StoreTime? && states[n - 1].pump.Get(actions[n - 1].side).Timed?
    then states[n - 1].pump.Get(actions[n - 1].side).at
    else LastStored(states, actions, n - 1)
  }

  lemma {:induction false} HoldsLastStored(states: seq<Bridge>, actions: seq<Action>, idle: int, n: nat)
    requires Run(states, actions, idle) && n <= |actions|
    ensures states[n].lastActivity == LastStored(states, actions, n)
  {
    if n > 0 {
      HoldsLastStored(states, actions, idle, n - 1);
      assert Enabled(states[n - 1], actions[n - 1], idle);
    }
  }

  /** When the watchdog is comparing, it is comparing what it loaded at an earlier step. */
  lemma {:induction false} LoadedAt(states: seq<Bridge>, actions: seq<Action>, idle: int, n: nat) returns (i: nat)
    requires Run(states, actions, idle) && n <= |actions| && !states[0].dog.Checking? && states[n].dog.Checking?
    ensures i < n && actions[i].DogLoads? && states[n].dog.seen == states[i].lastActivity
    ensures forall k :: i < k < n ==> !actions[k].DogLoads?
  {
    assert Enabled(states[n - 1], actions[n - 1], idle) && states[n] == Apply(states[n - 1], actions[n - 1], idle);
    if actions[n - 1].DogLoads? {
      i := n - 1;
    } else {
      i := LoadedAt(states, actions, idle, n - 1);
    }
  }

  /**
    In every schedule the watchdog stops the bridge only a full idle timeout after the reading that was the last
    one stored when it loaded the variable.
  */
  lemma WatchdogWaits(states: seq<Bridge>, actions: seq<Action>, idle: int, start: int, j: nat) returns (i: nat)
    requires Run(states, actions, idle) && states[0] == Begin(start) && j < |actions| && actions[j].DogFires?
    ensures i < j && actions[i].DogLoads? && (forall k :: i < k < j ==> !actions[k].DogLoads?)
    ensures states[j].dog.Checking? && states[j].dog.seen == LastStored(states, actions, i)
    ensures states[j].now - LastStored(states, actions, i) >= idle
  {
    assert Enabled(states[j], actions[j], idle);
    i := LoadedAt(states, actions, idle, j);
    HoldsLastStored(states, actions, idle, i);
  }

  /** Every frame read before step j was read at least an idle timeout before its time. */
  ghost predicate Quiet(states: seq<Bridge>, actions: seq<Action>, j: nat, idle: int)
    requires j < |actions| < |states|
  {
    forall k :: 0 <= k < j && actions[k].ReadOk? ==> states[j].now - states[k].now >= idle
  }

  /** No frame was read later than the reading the watchdog compares. */
  ghost predicate Covered(states: seq<Bridge>, actions: seq<Action>, j: nat, seen: int)
    requires j < |actions| < |states|
  {
    forall k :: 0 <= k < j && actions[k].ReadOk? ==> states[k].now <= seen
  }

  /**
    Whether a stopped bridge was really quiet: the guard guarantees it, for every idle timeout it can fire at, exactly
    when no frame was read after the stored reading it compares was taken.
  */
  lemma QuietIffCovered(states: seq<Bridge>, actions: seq<Action>, j: nat, seen: int)
    requires j < |actions| < |states|
    ensures (forall idle: int :: states[j].now - seen >= idle ==> Quiet(states, actions, j, idle)) <==>
      Covered(states, actions, j, seen)
  {
    if Covered(states, actions, j, seen) {
      forall idle: int | states[j].now - seen >= idle
        ensures Quiet(states, actions, j, idle)
      {
      }
    } else {
      assert !Quiet(states, actions, j, states[j].now - seen);
    }
  }

  /** No reading stored before step n replaced a later one. */
  ghost predicate InOrder(states: seq<Bridge>, actions: seq<Action>, n: nat)
    requires n <= |actions| < |states|
  {
    forall k :: 0 <= k < n && actions[k].StoreTime? ==> states[k].lastActivity <= states[k + 1].lastActivity
  }

  /** The pump stands between reading a frame and storing the time. */
  predicate Unstored(p: Pump) {
    p.Got? || p.Timed?
  }

  lemma {:induction false} ClockRuns(states: seq<Bridge>, actions: seq<Action>, idle: int, i: nat, j: nat)
    requires Run(states, actions, idle) && i <= j <= |actions|
    ensures states[i].now <= states[j].now
    decreases j
  {
    if i < j {
      ClockRuns(states, actions, idle, i, j - 1);
      assert Enabled(states[j - 1], actions[j - 1], idle);
    }
  }

  /** A reading no earlier than t has been stored, or the pump of side s is still to store one. */
  predicate Recorded(b: Bridge, s: Side, t: int) {
    var p := b.pump.Get(s);
    t <= b.lastActivity || p.Got? || (p.Timed? && t <= p.at)
  }

  lemma StepRecorded(b: Bridge, a: Action, idle: int, s: Side, t: int)
    requires Enabled(b, a, idle) && Recorded(b, s, t) && t <= b.now
    requires a.StoreTime? ==> b.lastActivity <= Apply(b, a, idle).lastActivity
    ensures Recorded(Apply(b, a, idle), s, t)
  {
  }

  lemma ReadRecords(b: Bridge, a: Action, idle: int)
    requires Enabled(b, a, idle) && a.ReadOk?
    ensures Recorded(Apply(b, a, idle), a.side, b.now)
  {
  }

  lemma {:induction false} ReadIsRecorded(states: seq<Bridge>, actions: seq<Action>, idle: int, k: nat, n: nat)
    requires Run(states, actions, idle) && k < n <= |actions| && actions[k].ReadOk? && InOrder(states, actions, n)
    ensures Recorded(states[n], actions[k].side, states[k].now)
    decreases n
  {
    hide Enabled, Apply, Recorded;
    var m := n - 1;
    assert Enabled(states[m], actions[m], idle) && states[m + 1] == Apply(states[m], actions[m], idle);
    if k < m {
      ReadIsRecorded(states, actions, idle, k, m);
      ClockRuns(states, actions, idle, k, m);
      StepRecorded(states[m], actions[m], idle, actions[k].side, states[k].now);
    } else {
      ReadRecords(states[k], actions[k], idle);
    }
  }

  /**
    In terms of steps: if no pump stood between read and store when the watchdog loaded the variable, no older reading
    had been stored over a newer one, and no frame was read between the load and the stop, then every
    frame was read a full idle timeout before the stop.
  */
  lemma SettledReadingsCover(states: seq<Bridge>, actions: seq<Action>, idle: int, start: int, i: nat, j: nat)
    requires Run(states, actions, idle) && states[0] == Begin(start) && i < j < |actions|
    requires actions[i].DogLoads? && (forall k :: i < k < j ==> !actions[k].DogLoads?) && actions[j].DogFires?
    requires !Unstored(states[i].pump.client) && !Unstored(states[i].pump.upstream)
    requires InOrder(states, actions, i) && forall k :: i < k < j ==> !actions[k].ReadOk?
    ensures Quiet(states, actions, j, idle)
  {
    var i' := WatchdogWaits(states, actions, idle, start, j);
    assert i' == i;
    HoldsLastStored(states, actions, idle, i);
    var seen := states[i].lastActivity;
    forall k | 0 <= k < j && actions[k].ReadOk?
      ensures states[k].now <= seen
    {
      ReadIsRecorded(states, actions, idle, k, i);
    }
    QuietIffCovered(states, actions, j, seen);
  }

  function LateStore(i: nat): Action {
    match i
    case 0 => ReadOk(Client, [])
    case 1 => TakeTime(Client)
    case 2 => Tick(50)
    case 3 => ReadOk(Upstream, [])
    case 4 => TakeTime(Upstream)
    case 5 => StoreTime(Upstream)
    case 6 => StoreTime(Client)
    case 7 => Tick(100)
    case 8 => DogLoads
    case _ => DogFires
  }

  function LateStoreAt(i: nat): Bridge {
    var now := if i <= 2 then 0 else if i <= 7 then 50 else 100;
    var b := Begin(0).(read := Pair([[]], if i <= 3 then [] else [[]]), now := now);
    match i
    case 0 => Begin(0)
    case 1 => b.(pump := Pair(Got([]), Reading))
    case 2 => b.(pump := Pair(Timed([], 0), Reading))
    case 3 => b.(pump := Pair(Timed([], 0), Reading))
    case 4 => b.(pump := Pair(Timed([], 0), Got([])))
    case 5 => b.(pump := Pair(Timed([], 0), Timed([], 50)))
    case 6 => b.(pump := Pair(Timed([], 0), Holding([])), lastActivity := 50)
    case 7 => b.(pump := Pair(Holding([]), Holding([])))
    case 8 => b.(pump := Pair(Holding([]), Holding([])))
    case 9 => b.(pump := Pair(Holding([]), Holding([])), dog := Checking(0))
    case _ => b.(pump := Pair(Holding([]), Holding([])), dog := DogStopping)
  }

  predicate LateStoreStep(i: nat) {
    Enabled(LateStoreAt(i), LateStore(i), 100) && LateStoreAt(i + 1) == Apply(LateStoreAt(i), LateStore(i), 100)
  }

  lemma LateStoreReads(i: nat)
    requires i < 5
    ensures LateStoreStep(i)
  {
    var none: seq<Frame> := [];
    assert none + [[]] == [[]];
  }

  lemma LateStoreStores(i: nat)
    requires 5 <= i < 10
    ensures LateStoreStep(i)
  {
  }

  /**
    Without that it fails: one pump takes the time at 0 and stores it only after the other has read a frame and stored
    50. With a timeout of 100 the watchdog stops the bridge at 100, half a timeout after that frame.
  */
  lemma LateStoreFires()
    ensures exists states: seq<Bridge>, actions: seq<Action> ::
      && Run(states, actions, 100) && states[0] == Begin(0) && |actions| == 10
      && actions[9] == DogFires && !Quiet(states, actions, 9, 100)
  {
    var states := seq(11, i requires i >= 0 => LateStoreAt(i));
    var actions := seq(10, i requires i >= 0 => LateStore(i));
    forall i | 0 <= i < 10
      ensures Enabled(states[i], actions[i], 100) && states[i + 1] == Apply(states[i], actions[i], 100)
    {
      if i < 5 {
        LateStoreReads(i);
      } else {
        LateStoreStores(i);
      }
    }
    hide Enabled, Apply;
    assert Run(states, actions, 100);
    assert actions[3].ReadOk? && states[9].now - states[3].now == 50;
  }
}

/**
  The gateway's inflight permits (internal/api/gateway.go): every proxied request,
  plain or websocket, holds one from before it is served until its handler returns.
*/
module GatewayInflight {
  import opened WsBridge

  /** A send on the buffered channel that gives up when it is full. */
  function Acquired(taken: nat, max: nat): nat {
    if taken < max then taken + 1 else taken
  }

  /** The buffered channel used as a counter. */
  class Permits {
    const max: nat
    var taken: nat

    ghost predicate Valid()
      reads this
    {
      taken <= max
    }

    constructor (max: nat)
      ensures Valid() && this.max == max && taken == 0
    {
      this.max := max;
      taken := 0;
    }

    method TryAcquire() returns (ok: bool)
      requires Valid()
      modifies this
      ensures Valid() && ok == (old(taken) < max) && taken == Acquired(old(taken), max)
    {
      if taken < max {
        taken := taken + 1;
        return true;
      }
      return false;
    }

    /** A receive; on an empty channel it would block. */
    method Release()
      requires Valid() && taken > 0
      modifies this
      ensures Valid() && taken == old(taken) - 1
    {
      taken := taken - 1;
    }
  }

  datatype Served = Proxying | Bridging(bridge: Bridge)

  datatype Gateway = Gateway(taken: nat, open: map<nat, Served>)

  datatype Event = Arrive(h: nat, websocket: bool, now: int) | BridgeStep(h: nat, a: Action) | Finish(h: nat)

  predicate Finished(g: Gateway, h: nat)
    requires h in g.open
  {
    g.open[h].Proxying? || g.open[h].bridge.handler.Returned?
  }

  /** A handler that is done releases its permit, which needs one to be there. */
  predicate Possible(g: Gateway, e: Event, idle: int) {
    match e
    case Arrive(h, _, _) => h !in g.open
    case BridgeStep(h, a) => h in g.open && g.open[h].Bridging? && Enabled(g.open[h].bridge, a, idle)
    case Finish(h) => h in g.open && Finished(g, h) && g.taken > 0
  }

  function Next(g: Gateway, e: Event, max: nat, idle: int): Gateway
    requires Possible(g, e, idle)
  {
    match e
    case Arrive(h, websocket, now) =>
      if Acquired(g.taken, max) == g.taken then g
      else Gateway(Acquired(g.taken, max), g.open[h := if websocket then Bridging(Begin(now)) else Proxying])
    case BridgeStep(h, a) => g.(open := g.open[h := Bridging(Apply(g.open[h].bridge, a, idle))])
    case Finish(h) => Gateway(g.taken - 1, g.open - {h})
  }

  predicate Safe(s: Served) {
    s.Bridging? ==> Inv(s.bridge)
  }

  ghost predicate Accounted(g: Gateway, max: nat) {
    && g.taken == |g.open| <= max
    && forall h :: h in g.open ==> Safe(g.open[h])
  }

  lemma BeginIsSafe(now: int)
    ensures Safe(Bridging(Begin(now))) && Safe(Proxying)
  {
  }

  lemma ArriveKeeps(g: Gateway, e: Event, max: nat, idle: int)
    requires Accounted(g, max) && Possible(g, e, idle) && e.Arrive?
    ensures Accounted(Next(g, e, max, idle), max)
  {
    hide Safe, Begin;
    BeginIsSafe(e.now);
  }

  lemma BridgeKeeps(g: Gateway, e: Event, max: nat, idle: int)
    requires Accounted(g, max) && Possible(g, e, idle) && e.BridgeStep?
    ensures Accounted(Next(g, e, max, idle), max)
  {
    hide Inv, Enabled, Apply;
    StepKeeps(g.open[e.h].bridge, e.a, idle);
    assert Next(g, e, max, idle).open.Keys == g.open.Keys;
  }

  lemma FinishKeeps(g: Gateway, e: Event, max: nat, idle: int)
    requires Accounted(g, max) && Possible(g, e, idle) && e.Finish?
    ensures Accounted(Next(g, e, max, idle), max)
  {
    hide Safe;
    assert g.open.Keys == (g.open - {e.h}).Keys + {e.h};
  }

  lemma NextKeeps(g: Gateway, e: Event, max: nat, idle: int)
    requires Accounted(g, max) && Possible(g, e, idle)
    ensures Accounted(Next(g, e, max, idle), max)
  {
    hide Accounted, Next;
    match e
    case Arrive(_, _, _) => ArriveKeeps(g, e, max, idle);
    case BridgeStep(_, _) => BridgeKeeps(g, e, max, idle);
    case Finish(_) => FinishKeeps(g, e, max, idle);
  }

  /**
    Over every run: never more than `max` requests are being served, every open
    bridge is in a safe state and still holds its permit, a request is turned away
    only while `max` others are being served, and releasing never blocks.
  */
  lemma {:induction false} NeverMoreThanMax(states: seq<Gateway>, events: seq<Event>, max: nat, idle: int, n: nat)
    requires |states| == |events| + 1 && n <= |events| && states[0] == Gateway(0, map[])
    requires forall i :: 0 <= i < |events| ==>
      Possible(states[i], events[i], idle) && states[i + 1] == Next(states[i], events[i], max, idle)
    ensures Accounted(states[n], max)
    ensures n < |events| && events[n].Arrive? && states[n + 1] == states[n] ==> |states[n].open| == max
    ensures n < |events| && events[n].Arrive? && |states[n].open| < max ==>
      states[n + 1].open == states[n].open[events[n].h := if events[n].websocket then Bridging(Begin(events[n].now))
                                                        else Proxying]
    ensures n < |events| && events[n].Finish? ==> states[n + 1].open == states[n].open - {events[n].h}
    ensures forall h :: h in states[n].open && Finished(states[n], h) ==> Possible(states[n], Finish(h), idle)
  {
    hide Safe;
    if n > 0 {
      NeverMoreThanMax(states, events, max, idle, n - 1);
      NextKeeps(states[n - 1], events[n - 1], max, idle);
    }
    forall h | h in states[n].open
      ensures states[n].taken > 0
    {
      assert h in states[n].open.Keys && |states[n].open.Keys| == |states[n].open|;
    }
  }
}
