/**
 * The daemon's entry point: find the pedal, optionally grab it, print the
 * status lines, then run the relay loop over the pedal's events.
 */
module Daemon {
  import opened Optional
  import opened InputEvents
  import opened MpvIpc
  import opened Locator
  import opened EventRelay

  /** Whether the daemon asks for exclusive delivery of the pedal's events. */
  const GRAB_DEVICE: bool := true

  /** How a run ends: no pedal at startup, an uncaught socket error, or the end of the given events. */
  datatype Exit = DeviceMissing | SendFailed | InputEnded

  datatype DaemonRun = DaemonRun(exit: Exit, log: seq<Effect>, consumed: nat)

  /** Effects before the loop: a warning when the grab was attempted and failed, then the status lines. */
  function Startup(grabbed: bool): (log: seq<Effect>)
    ensures |log| > 0 && log[|log| - 1] == Ready
    ensures GrabWarning in log <==> !grabbed
  {
    (if GRAB_DEVICE && !grabbed then [GrabWarning] else []) + [Ready]
  }

  /**
   * A run of the daemon on the enumerated device names, the outcome of the
   * grab, the pedal's events and the socket oracle.
   */
  function DaemonSpec(names: seq<string>, grabbed: bool, events: seq<Event>, sock: nat -> Outcome): (run: DaemonRun)
    ensures run.exit == DeviceMissing <==> DEVICE_NAME !in names
    ensures run.exit == DeviceMissing ==> run.log == [] && run.consumed == 0
    ensures run.exit == InputEnded ==> run.consumed == |events|
    ensures run.consumed <= |events|
  {
    match FirstMatch(names, DEVICE_NAME)
    case None => DaemonRun(DeviceMissing, [], 0)
    case Some(_) =>
      var st := RelaySpec(events, sock);
      DaemonRun(if st.crashed then SendFailed else InputEnded, Startup(grabbed) + st.log, st.consumed)
  }

  method RunDaemon(names: seq<string>, grabbed: bool, events: seq<Event>, sock: nat -> Outcome)
    returns (run: DaemonRun)
    ensures run == DaemonSpec(names, grabbed, events, sock)
    ensures run.exit == DeviceMissing <==> DEVICE_NAME !in names
    ensures run.exit == DeviceMissing ==> run.log == [] && run.consumed == 0
  {
    var dev := FindPedal(names);
    if dev.None? {
      return DaemonRun(DeviceMissing, [], 0);
    }
    var log: seq<Effect> := [];
    if GRAB_DEVICE {
      if !grabbed {
        log := log + [GrabWarning];
      }
    }
    log := log + [Ready];
    assert log == Startup(grabbed);
    var st := Relay(events, sock);
    run := DaemonRun(if st.crashed then SendFailed else InputEnded, log + st.log, st.consumed);
  }

  /** A failed grab adds one warning and changes nothing else. */
  lemma GrabFailureIsHarmless(names: seq<string>, events: seq<Event>, sock: nat -> Outcome)
    requires DEVICE_NAME in names
    ensures DaemonSpec(names, false, events, sock).exit == DaemonSpec(names, true, events, sock).exit
    ensures DaemonSpec(names, false, events, sock).consumed == DaemonSpec(names, true, events, sock).consumed
    ensures DaemonSpec(names, false, events, sock).log == [GrabWarning] + DaemonSpec(names, true, events, sock).log
  {
  }

  /**
   * With the pedal present and no uncaught socket error, every event is read and
   * every button press leaves, after the startup effects, one effect in order:
   * its line written, or the diagnostic of its failed send.
   */
  lemma DaemonRelaysEveryPress(names: seq<string>, grabbed: bool, events: seq<Event>, sock: nat -> Outcome)
    requires DEVICE_NAME in names
    requires forall k :: sock(k) != OtherError
    ensures DaemonSpec(names, grabbed, events, sock).exit == InputEnded
    ensures DaemonSpec(names, grabbed, events, sock).consumed == |events|
    ensures |DaemonSpec(names, grabbed, events, sock).log| == |Startup(grabbed)| + |Commands(events)|
    ensures forall k :: 0 <= k < |Commands(events)| ==>
      DaemonSpec(names, grabbed, events, sock).log[|Startup(grabbed)| + k] == Report(Commands(events)[k], sock(k))
  {
    var st := RelaySpec(events, sock);
    var run := DaemonSpec(names, grabbed, events, sock);
    assert run.log == Startup(grabbed) + st.log && run.consumed == st.consumed;
    NoUncaughtErrorReadsAll(events, sock);
    forall k | 0 <= k < |Commands(events)|
      ensures run.log[|Startup(grabbed)| + k] == Report(Commands(events)[k], sock(k))
    {
      assert run.log[|Startup(grabbed)| + k] == st.log[k];
    }
  }

  /**
   * The startup scenario: with the pedal present and grabbed, a press of the
   * right button writes exactly the forward-seek line.
   */
  lemma RightPressEndToEnd(names: seq<string>, sock: nat -> Outcome)
    requires DEVICE_NAME in names
    requires sock(0) == Delivered
    ensures DaemonSpec(names, true, [Event(EV_KEY, BTN_RIGHT, KEY_PRESS)], sock)
         == DaemonRun(InputEnded, [Ready, Wrote("{\"command\": [\"seek\", 0.5, \"relative\"]}\n")], 1)
  {
    SeekForwardFrame();
    var es := [Event(EV_KEY, BTN_RIGHT, KEY_PRESS)];
    assert es[..0] == [];
    assert Dispatch(es[0]) == Some(SEEK_FORWARD);
    assert RelaySpec(es, sock) == Step(START, es[0], sock);
    assert RelaySpec(es, sock) == RelayState([SEEK_FORWARD], [Wrote(Frame(SEEK_FORWARD))], false, 1);
  }
}
