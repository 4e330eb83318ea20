/**
 * The viewer's model animation: a facade over one engine animation group that
 * keeps a five-valued state label and a play-mode flag and forwards every
 * control operation to the group. After start and stop it sets the label from
 * the started flag the group then reports; pause sets PAUSED unconditionally;
 * reset and restart leave the label alone.
 */
module ModelAnimation {
  import opened Engine
  import opened Readings

  datatype PlayMode = Once | Loop

  datatype State = Init | Playing | Paused | Stopped | Ended

  /** The facade's own data: its label and its play mode. */
  datatype Facade = Facade(state: State, playMode: PlayMode)

  /** The facade right after construction. */
  const Initial: Facade := Facade(Init, Loop)

  /** The facade's control operations; EndOp is the end-of-animation notification. */
  datatype Op =
    | StartOp
    | StopOp
    | PauseOp
    | SetPlayModeOp(mode: PlayMode)
    | EndOp
    | ResetOp
    | RestartOp

  /** The label and mode after `op`, when the group reports `started` as its
      started flag right after the op's call. */
  function Next(f: Facade, op: Op, started: bool): Facade
  {
    match op
    case StartOp => if started then f.(state := Playing) else f
    case StopOp => if !started then f.(state := Stopped) else f
    case PauseOp => f.(state := Paused)
    case SetPlayModeOp(mode) =>
      if mode == f.playMode then f
      else if f.state == Playing then Facade(Playing, mode)
      else Facade(Init, mode)
    case EndOp => f.(state := Ended)
    case ResetOp => f
    case RestartOp => f
  }

  /** The calls `op` sends to the group, from the facade's data before the op
      and the group's speed ratio. */
  function Issued(f: Facade, op: Op, speedRatio: real): seq<Call>
  {
    match op
    case StartOp => [StartCall(f.playMode == Loop, speedRatio)]
    case StopOp => [StopCall]
    case PauseOp => [PauseCall]
    case SetPlayModeOp(mode) =>
      if mode == f.playMode then []
      else if f.state == Playing then [PlayCall(mode == Loop)]
      else [ResetCall]
    case EndOp => [StopCall]
    case ResetOp => [ResetCall]
    case RestartOp => [RestartCall]
  }

  /** Setting the same play mode twice acts, and calls the group, only once. */
  lemma SetPlayModeTwice(f: Facade, mode: PlayMode, started: bool, started': bool, speedRatio: real)
    ensures Next(Next(f, SetPlayModeOp(mode), started), SetPlayModeOp(mode), started') ==
            Next(f, SetPlayModeOp(mode), started)
    ensures Issued(Next(f, SetPlayModeOp(mode), started), SetPlayModeOp(mode), speedRatio) == []
  {
  }

  // ---------------------------------------------------------------------
  // Runs: sequences of operations, each with the started flag the group
  // reports after it.

  datatype Event = Event(op: Op, started: bool)

  function Run(f: Facade, events: seq<Event>): Facade
  {
    if |events| == 0 then f
    else
      var last := events[|events| - 1];
      Next(Run(f, events[..|events| - 1]), last.op, last.started)
  }

  /** The mode of the last play-mode change among `events`, or `mode` if none. */
  function LastModeSet(events: seq<Event>, mode: PlayMode): PlayMode
  {
    if |events| == 0 then mode
    else match events[|events| - 1].op
      case SetPlayModeOp(m) => m
      case _ => LastModeSet(events[..|events| - 1], mode)
  }

  /** `event` on its own sets the label to `s`, whatever the label was. */
  predicate SetsState(event: Event, s: State)
  {
    match event.op
    case StartOp => event.started && s == Playing
    case StopOp => !event.started && s == Stopped
    case PauseOp => s == Paused
    case SetPlayModeOp(_) => s == Init
    case EndOp => s == Ended
    case ResetOp => false
    case RestartOp => false
  }

  /** After any run, the play mode is the one last set (the initial one if
      the run sets none). */
  lemma {:induction false} RunPlayMode(f: Facade, events: seq<Event>)
    ensures Run(f, events).playMode == LastModeSet(events, f.playMode)
  {
    if |events| > 0 {
      RunPlayMode(f, events[..|events| - 1]);
    }
  }

  /** After any run, the label is either the one it started with or one that
      some event of the run sets on its own: PLAYING needs a start the group
      confirmed, STOPPED a stop it confirmed, ENDED an end notification, INIT
      a play-mode change. */
  lemma {:induction false} RunStateHasCause(f: Facade, events: seq<Event>)
    ensures Run(f, events).state == f.state ||
            exists i :: 0 <= i < |events| && SetsState(events[i], Run(f, events).state)
  {
    if |events| > 0 {
      var n := |events| - 1;
      var before := events[..n];
      RunStateHasCause(f, before);
      var s := Run(f, events).state;
      if s == Run(f, before).state {
        if s != f.state {
          var i :| 0 <= i < |before| && SetsState(before[i], s);
          assert events[i] == before[i];
        }
      } else {
        assert SetsState(events[n], s);
      }
    }
  }

  /** A run from construction that never reports a confirmed start never
      reaches PLAYING. */
  lemma {:induction false} NeverPlayingWithoutStart(events: seq<Event>)
    requires forall i :: 0 <= i < |events| ==> !(events[i].op == StartOp && events[i].started)
    ensures Run(Initial, events).state != Playing
  {
    RunStateHasCause(Initial, events);
  }

  // ---------------------------------------------------------------------
  // The facade as an object over the group handle.

  class GroupModelAnimation {
    const group: AnimationGroup
    var playMode: PlayMode
    var state: State

    function Snapshot(): Facade
      reads this
    {
      Facade(state, playMode)
    }

    /** Starts in INIT with mode LOOP without calling the group; the
        end-of-animation callback the source registers here is the method `OnEnd`. */
    constructor (group: AnimationGroup)
      ensures this.group == group
      ensures state == Init && playMode == Loop
      ensures Snapshot() == Initial
    {
      this.group := group;
      state := Init;
      playMode := Loop;
    }

    /** Starts the group with the current loop flag and speed ratio; PLAYING
        only if the group then reports started. */
    method Start(startedAfter: bool)
      modifies this`state, group`calls, group`isStarted, group`animatables
      ensures group.calls == old(group.calls) + [StartCall(playMode == Loop, group.speedRatio)]
      ensures group.isStarted == startedAfter
      ensures state == (if startedAfter then Playing else old(state))
      ensures playMode == old(playMode)
      ensures Snapshot() == Next(old(Snapshot()), StartOp, startedAfter)
      ensures group.calls == old(group.calls) + Issued(old(Snapshot()), StartOp, group.speedRatio)
    {
      group.Issue(StartCall(playMode == Loop, group.speedRatio), startedAfter);
      if group.isStarted {
        state := Playing;
      }
    }

    /** Pauses the group; PAUSED whatever the group reports. */
    method Pause(startedAfter: bool)
      modifies this`state, group`calls, group`isStarted, group`animatables
      ensures group.calls == old(group.calls) + [PauseCall]
      ensures group.isStarted == startedAfter
      ensures state == Paused && playMode == old(playMode)
      ensures Snapshot() == Next(old(Snapshot()), PauseOp, startedAfter)
      ensures group.calls == old(group.calls) + Issued(old(Snapshot()), PauseOp, group.speedRatio)
    {
      group.Issue(PauseCall, startedAfter);
      state := Paused;
    }

    /** Stops the group; STOPPED only if the group then reports not started. */
    method Stop(startedAfter: bool)
      modifies this`state, group`calls, group`isStarted, group`animatables
      ensures group.calls == old(group.calls) + [StopCall]
      ensures group.isStarted == startedAfter
      ensures state == (if startedAfter then old(state) else Stopped)
      ensures playMode == old(playMode)
      ensures Snapshot() == Next(old(Snapshot()), StopOp, startedAfter)
      ensures group.calls == old(group.calls) + Issued(old(Snapshot()), StopOp, group.speedRatio)
    {
      group.Issue(StopCall, startedAfter);
      if !group.isStarted {
        state := Stopped;
      }
    }

    /** The end-of-animation notification: stops, then ENDED whatever the stop set. */
    method OnEnd(startedAfterStop: bool)
      modifies this`state, group`calls, group`isStarted, group`animatables
      ensures group.calls == old(group.calls) + [StopCall]
      ensures group.isStarted == startedAfterStop
      ensures state == Ended && playMode == old(playMode)
      ensures Snapshot() == Next(old(Snapshot()), EndOp, startedAfterStop)
      ensures group.calls == old(group.calls) + Issued(old(Snapshot()), EndOp, group.speedRatio)
    {
      Stop(startedAfterStop);
      state := Ended;
    }

    /** Changes the play mode. The same mode changes nothing and calls nothing.
        A new mode while PLAYING replays the group with the new loop flag and
        stays PLAYING; otherwise it resets the group and returns to INIT. */
    method SetPlayMode(value: PlayMode, startedAfter: bool)
      modifies this`playMode, this`state, group`calls, group`isStarted, group`animatables
      ensures playMode == value
      ensures value == old(playMode) ==>
        state == old(state) && group.calls == old(group.calls) && group.isStarted == old(group.isStarted) &&
        group.animatables == old(group.animatables)
      ensures value != old(playMode) && old(state) == Playing ==>
        state == Playing && group.calls == old(group.calls) + [PlayCall(value == Loop)] &&
        group.isStarted == startedAfter
      ensures value != old(playMode) && old(state) != Playing ==>
        state == Init && group.calls == old(group.calls) + [ResetCall] && group.isStarted == startedAfter
      ensures Snapshot() == Next(old(Snapshot()), SetPlayModeOp(value), startedAfter)
      ensures group.calls == old(group.calls) + Issued(old(Snapshot()), SetPlayModeOp(value), group.speedRatio)
    {
      if value == playMode {
        return;
      }
      playMode := value;
      if state == Playing {
        group.Issue(PlayCall(playMode == Loop), startedAfter);
      } else {
        group.Issue(ResetCall, startedAfter);
        state := Init;
      }
    }

    /** Resets the group; the facade's label and mode are untouched. */
    method Reset(startedAfter: bool)
      modifies group`calls, group`isStarted, group`animatables
      ensures group.calls == old(group.calls) + [ResetCall]
      ensures group.isStarted == startedAfter
      ensures Snapshot() == Next(old(Snapshot()), ResetOp, startedAfter)
      ensures group.calls == old(group.calls) + Issued(old(Snapshot()), ResetOp, group.speedRatio)
    {
      group.Issue(ResetCall, startedAfter);
    }

    /** Restarts the group; the facade's label and mode are untouched. */
    method Restart(startedAfter: bool)
      modifies group`calls, group`isStarted, group`animatables
      ensures group.calls == old(group.calls) + [RestartCall]
      ensures group.isStarted == startedAfter
      ensures Snapshot() == Next(old(Snapshot()), RestartOp, startedAfter)
      ensures group.calls == old(group.calls) + Issued(old(Snapshot()), RestartOp, group.speedRatio)
    {
      group.Issue(RestartCall, startedAfter);
    }

    /** The animation's length in frames: the largest last-key frame over the
        group's targeted animations. */
    function Frames(): (r: int)
      reads group
      requires HasFrames(group.targetedAnimations)
      ensures forall i :: 0 <= i < |group.targetedAnimations| ==> LastFrame(group.targetedAnimations[i]) <= r
      ensures exists i :: 0 <= i < |group.targetedAnimations| && LastFrame(group.targetedAnimations[i]) == r
    {
      TotalFrames(group.targetedAnimations)
    }

    /** The first nonzero current frame in animatable-then-animation order, or 0. */
    method CurrentFrame() returns (r: int)
      ensures r == FirstNonzero(group.animatables, FrameReading)
    {
      r := Scan(group.animatables, FrameReading);
    }

    /** The first attached, nonzero frame rate in the same order, or 0. */
    method Fps() returns (r: int)
      ensures r == FirstNonzero(group.animatables, FpsReading)
    {
      r := Scan(group.animatables, FpsReading);
    }
  }
}
