/**
 * The event relay: the daemon's read loop. Every event is filtered (key events
 * only, presses only), a pressed pedal button is mapped to its player command,
 * and the command is sent on a fresh connection to the control socket. A
 * missing or refusing socket is reported and the loop goes on; any other
 * socket error ends the daemon.
 *
 * The socket is an oracle: sock(k) is how the k-th connection attempt ends
 * (attempts are numbered from 0 in the order the commands are sent).
 */
module EventRelay {
  import opened Optional
  import opened InputEvents
  import opened MpvIpc

  /** How one connection attempt to the control socket ends. */
  datatype Outcome =
    | Delivered   // connected, the line was written, the connection closed
    | NoSocket    // the socket path does not exist
    | Refused     // the path exists but nobody accepts the connection
    | OtherError  // any other socket error: it is not caught and ends the daemon

  /** What the daemon does that can be seen from outside it. */
  datatype Effect =
    | Wrote(line: string)  // one connection, carrying exactly this line
    | SocketMissing        // the "socket not found" diagnostic
    | ConnectionRefused    // the "could not connect" diagnostic
    | GrabWarning          // the "could not grab device" warning
    | Ready                // the two status lines printed before the loop

  // ---------------------------------------------------------------------------
  // Filtering and dispatch

  /** The command one event triggers, if any. */
  function Dispatch(e: Event): (r: Option<Command>)
    ensures r.Some? <==> IsPress(e) && e.code in {BTN_LEFT, BTN_RIGHT, BTN_MIDDLE}
  {
    if e.kind != EV_KEY then None
    else if e.value != KEY_PRESS then None
    else if e.code == BTN_LEFT then Some(SEEK_BACK)
    else if e.code == BTN_RIGHT then Some(SEEK_FORWARD)
    else if e.code == BTN_MIDDLE then Some(TOGGLE_PAUSE)
    else None
  }

  /**
   * Only presses of the three pedal buttons trigger a command: left seeks back,
   * right seeks forward, middle toggles pause.
   */
  lemma DispatchMapsButtons(e: Event)
    ensures Dispatch(e).Some? <==> IsPress(e) && e.code in {BTN_LEFT, BTN_RIGHT, BTN_MIDDLE}
    ensures Dispatch(e) == Some(SEEK_BACK) <==> IsPress(e) && e.code == BTN_LEFT
    ensures Dispatch(e) == Some(SEEK_FORWARD) <==> IsPress(e) && e.code == BTN_RIGHT
    ensures Dispatch(e) == Some(TOGGLE_PAUSE) <==> IsPress(e) && e.code == BTN_MIDDLE
  {
  }

  /** The commands a stream of events triggers, in the order of their events. */
  function Commands(es: seq<Event>): (cs: seq<Command>)
    ensures |cs| <= |es|
    ensures forall i :: 0 <= i < |cs| ==> IsPedalCommand(cs[i])
  {
    if es == [] then [] else Commands(es[..|es| - 1]) + ToSeq(Dispatch(es[|es| - 1]))
  }

  /** Positions of the events that trigger a command. */
  function Origins(es: seq<Event>): seq<nat> {
    if es == [] then []
    else Origins(es[..|es| - 1]) + (if Dispatch(es[|es| - 1]).Some? then [|es| - 1] else [])
  }

  // ---------------------------------------------------------------------------
  // Sending

  /** The effect of one attempt that did not end the daemon. */
  function Report(c: Command, o: Outcome): (r: Effect)
    requires o != OtherError
    ensures r.Wrote? <==> o == Delivered
    ensures r == SocketMissing <==> o == NoSocket
    ensures r == ConnectionRefused <==> o == Refused
  {
    match o
    case Delivered => Wrote(Frame(c))
    case NoSocket => SocketMissing
    case Refused => ConnectionRefused
  }

  datatype Run = Run(log: seq<Effect>, crashed: bool)

  /** Sending a sequence of commands, attempt k ending as sock(k). */
  function Deliver(cs: seq<Command>, sock: nat -> Outcome): Run {
    if cs == [] then Run([], false)
    else
      var r := Deliver(cs[..|cs| - 1], sock);
      if r.crashed then r
      else if sock(|cs| - 1) == OtherError then Run(r.log, true)
      else Run(r.log + [Report(cs[|cs| - 1], sock(|cs| - 1))], false)
  }

  // ---------------------------------------------------------------------------
  // The read loop, one event at a time

  /**
   * The loop's state: the commands sent so far (one connection attempt each),
   * the effects so far, whether a socket error ended the loop, and the number
   * of events read.
   */
  datatype RelayState = RelayState(calls: seq<Command>, log: seq<Effect>, crashed: bool, consumed: nat)

  const START: RelayState := RelayState([], [], false, 0)

  /** One iteration of the loop on a state the loop has not left. */
  function Step(st: RelayState, e: Event, sock: nat -> Outcome): (r: RelayState)
    requires !st.crashed
    ensures r.consumed == st.consumed + 1
    ensures |r.calls| == |st.calls| + (if Dispatch(e).Some? then 1 else 0)
    ensures r.crashed <==> Dispatch(e).Some? && sock(|st.calls|) == OtherError
    ensures |r.log| == |st.log| + (if Dispatch(e).Some? && !r.crashed then 1 else 0)
  {
    match Dispatch(e)
    case None => st.(consumed := st.consumed + 1)
    case Some(c) =>
      var o := sock(|st.calls|);
      if o == OtherError then
        st.(calls := st.calls + [c], crashed := true, consumed := st.consumed + 1)
      else
        st.(calls := st.calls + [c], log := st.log + [Report(c, o)], consumed := st.consumed + 1)
  }

  /** The state after the loop has been offered the events es. */
  function RelaySpec(es: seq<Event>, sock: nat -> Outcome): (r: RelayState)
    ensures r.consumed <= |es|
    ensures !r.crashed ==> r.consumed == |es| && |r.log| == |r.calls|
    ensures |r.calls| <= r.consumed
  {
    if es == [] then START
    else
      var prev := RelaySpec(es[..|es| - 1], sock);
      if prev.crashed then prev else Step(prev, es[|es| - 1], sock)
  }

  /**
   * The read loop of the daemon over a finite stream of events. It stops when
   * the events run out or when a send fails with an error that is not caught.
   */
  method Relay(events: seq<Event>, sock: nat -> Outcome) returns (st: RelayState)
    ensures st == RelaySpec(events, sock)
    ensures st.consumed <= |events| && st.calls == Commands(events[..st.consumed])
    ensures !st.crashed ==> st.consumed == |events|
    ensures Run(st.log, st.crashed) == Deliver(st.calls, sock)
  {
    var calls: seq<Command>, log: seq<Effect>, crashed, consumed: nat := [], [], false, 0;
    while consumed < |events| && !crashed
      invariant consumed <= |events|
      invariant RelayState(calls, log, crashed, consumed) == RelaySpec(events[..consumed], sock)
    {
      var event := events[consumed];
      consumed := consumed + 1;
      assert events[..consumed][..consumed - 1] == events[..consumed - 1];
      if event.kind != EV_KEY {
        continue;
      }
      if event.value != KEY_PRESS {
        continue;
      }
      var cmd: Option<Command> := None;
      if event.code == BTN_LEFT {
        cmd := Some(SEEK_BACK);
      } else if event.code == BTN_RIGHT {
        cmd := Some(SEEK_FORWARD);
      } else if event.code == BTN_MIDDLE {
        cmd := Some(TOGGLE_PAUSE);
      }
      if cmd.Some? {
        var outcome := sock(|calls|);
        calls := calls + [cmd.value];
        match outcome
        case Delivered => log := log + [Wrote(Frame(cmd.value))];
        case NoSocket => log := log + [SocketMissing];
        case Refused => log := log + [ConnectionRefused];
        case OtherError => crashed := true;
      }
    }
    if consumed < |events| {
      CrashIsFinal(events, consumed, sock);
    } else {
      assert events[..consumed] == events;
    }
    RelayDecomposes(events, sock);
    st := RelayState(calls, log, crashed, consumed);
  }

  // ---------------------------------------------------------------------------
  // Lemmas

  /** Once a socket error has ended the loop, later events change nothing. */
  lemma {:induction false} CrashIsFinal(es: seq<Event>, i: nat, sock: nat -> Outcome)
    requires i <= |es| && RelaySpec(es[..i], sock).crashed
    ensures RelaySpec(es, sock) == RelaySpec(es[..i], sock)
    decreases |es|
  {
    if i < |es| {
      assert es[..|es| - 1][..i] == es[..i];
      CrashIsFinal(es[..|es| - 1], i, sock);
    } else {
      assert es[..i] == es;
    }
  }

  /** The commands of two streams read one after the other. */
  lemma {:induction false} CommandsAppend(es: seq<Event>, fs: seq<Event>)
    ensures Commands(es + fs) == Commands(es) + Commands(fs)
    decreases |fs|
  {
    if fs == [] {
      assert es + fs == es;
    } else {
      var last := fs[|fs| - 1];
      assert (es + fs)[..|es + fs| - 1] == es + fs[..|fs| - 1];
      CommandsAppend(es, fs[..|fs| - 1]);
      assert Commands(es + fs) == Commands(es + fs[..|fs| - 1]) + ToSeq(Dispatch(last));
    }
  }

  /** An event that triggers nothing (not a key event, not a press, another button) can be dropped. */
  lemma IgnoredEventInvisible(es: seq<Event>, e: Event, fs: seq<Event>)
    requires Dispatch(e).None?
    ensures Commands(es + [e] + fs) == Commands(es + fs)
  {
    assert Commands([e]) == [] by {
      assert [e][..0] == [];
    }
    calc {
      Commands(es + [e] + fs);
      { CommandsAppend(es + [e], fs); }
      Commands(es + [e]) + Commands(fs);
      { CommandsAppend(es, [e]); }
      Commands(es) + Commands(fs);
      { CommandsAppend(es, fs); }
      Commands(es + fs);
    }
  }

  /**
   * Every command comes from exactly one press of a pedal button, every such press
   * gives exactly one command, and the commands are in the order of their events.
   */
  lemma {:induction false} CommandsTraceEvents(es: seq<Event>)
    ensures |Origins(es)| == |Commands(es)|
    ensures forall k :: 0 <= k < |Origins(es)| ==>
      Origins(es)[k] < |es| && Dispatch(es[Origins(es)[k]]) == Some(Commands(es)[k])
    ensures forall k, l :: 0 <= k < l < |Origins(es)| ==> Origins(es)[k] < Origins(es)[l]
    ensures forall i :: 0 <= i < |es| ==> (Dispatch(es[i]).Some? <==> i in Origins(es))
  {
    OriginsMatchCommands(es);
    OriginsAreTriggers(es);
  }

  /** Each origin, in increasing order, is the event behind the command at the same index. */
  lemma {:induction false} OriginsMatchCommands(es: seq<Event>)
    ensures |Origins(es)| == |Commands(es)|
    ensures forall k :: 0 <= k < |Origins(es)| ==>
      Origins(es)[k] < |es| && Dispatch(es[Origins(es)[k]]) == Some(Commands(es)[k])
    ensures forall k, l :: 0 <= k < l < |Origins(es)| ==> Origins(es)[k] < Origins(es)[l]
  {
    if es != [] {
      var init := es[..|es| - 1];
      var last := es[|es| - 1];
      OriginsMatchCommands(init);
      assert forall i :: 0 <= i < |init| ==> init[i] == es[i];
      if Dispatch(last).Some? {
        assert Origins(es) == Origins(init) + [|es| - 1];
        assert Commands(es) == Commands(init) + [Dispatch(last).value];
      } else {
        assert Origins(es) == Origins(init);
        assert Commands(es) == Commands(init);
      }
    }
  }

  /** An event position is an origin exactly when that event triggers a command. */
  lemma {:induction false} OriginsAreTriggers(es: seq<Event>)
    ensures forall i :: 0 <= i < |es| ==> (Dispatch(es[i]).Some? <==> i in Origins(es))
    ensures forall k :: 0 <= k < |Origins(es)| ==> Origins(es)[k] < |es|
  {
    if es != [] {
      var init := es[..|es| - 1];
      OriginsAreTriggers(init);
      assert forall i :: 0 <= i < |init| ==> init[i] == es[i];
      if Dispatch(es[|es| - 1]).Some? {
        assert Origins(es) == Origins(init) + [|es| - 1];
      } else {
        assert Origins(es) == Origins(init);
      }
    }
  }

  /** A press followed by the release of the left button seeks back exactly once. */
  lemma PressThenReleaseSeeksOnce()
    ensures Commands([Event(EV_KEY, BTN_LEFT, KEY_PRESS), Event(EV_KEY, BTN_LEFT, KEY_RELEASE)])
         == [SEEK_BACK]
  {
    var press := Event(EV_KEY, BTN_LEFT, KEY_PRESS);
    var release := Event(EV_KEY, BTN_LEFT, KEY_RELEASE);
    assert [press, release][..1] == [press];
    assert Commands([press]) == Commands([press][..0]) + [SEEK_BACK];
  }

  /**
   * Sending: the attempts that did not end the daemon each leave one effect, in
   * order; the daemon ends exactly at the first attempt that fails with an
   * uncaught error.
   */
  lemma {:induction false} DeliverShape(cs: seq<Command>, sock: nat -> Outcome)
    ensures |Deliver(cs, sock).log| <= |cs|
    ensures forall k :: 0 <= k < |Deliver(cs, sock).log| ==>
      sock(k) != OtherError && Deliver(cs, sock).log[k] == Report(cs[k], sock(k))
    ensures Deliver(cs, sock).crashed ==> sock(|Deliver(cs, sock).log|) == OtherError
    ensures !Deliver(cs, sock).crashed ==> |Deliver(cs, sock).log| == |cs|
    ensures Deliver(cs, sock).crashed ==> |Deliver(cs, sock).log| < |cs|
  {
    if cs != [] {
      var init := cs[..|cs| - 1];
      DeliverShape(init, sock);
      assert forall k :: 0 <= k < |init| ==> init[k] == cs[k];
    }
  }

  /**
   * The state st of the loop after the events es is filtering followed by
   * sending: the commands sent are those of the events read, the effects are
   * those of sending them, every event is read unless an uncaught socket error
   * ended the loop, and that error came from the last command sent.
   */
  ghost predicate FilterThenSend(es: seq<Event>, sock: nat -> Outcome, st: RelayState) {
    && st.consumed <= |es|
    && st.calls == Commands(es[..st.consumed])
    && Run(st.log, st.crashed) == Deliver(st.calls, sock)
    && (!st.crashed ==> st.consumed == |es|)
    && (st.crashed ==> st.calls != [] && |st.log| == |st.calls| - 1 && sock(|st.calls| - 1) == OtherError)
  }

  lemma {:induction false} RelayDecomposes(es: seq<Event>, sock: nat -> Outcome)
    ensures FilterThenSend(es, sock, RelaySpec(es, sock))
  {
    if es != [] {
      var init := es[..|es| - 1];
      RelayDecomposes(init, sock);
      if RelaySpec(init, sock).crashed {
        CrashedStaysDecomposed(es, sock);
      } else {
        StepDecomposes(es, sock);
      }
    }
  }

  lemma {:induction false} CrashedStaysDecomposed(es: seq<Event>, sock: nat -> Outcome)
    requires es != []
    requires FilterThenSend(es[..|es| - 1], sock, RelaySpec(es[..|es| - 1], sock))
    requires RelaySpec(es[..|es| - 1], sock).crashed
    ensures FilterThenSend(es, sock, RelaySpec(es, sock))
  {
    var prev := RelaySpec(es[..|es| - 1], sock);
    assert RelaySpec(es, sock) == prev;
    assert es[..prev.consumed] == es[..|es| - 1][..prev.consumed];
  }

  lemma {:induction false} StepDecomposes(es: seq<Event>, sock: nat -> Outcome)
    requires es != []
    requires FilterThenSend(es[..|es| - 1], sock, RelaySpec(es[..|es| - 1], sock))
    requires !RelaySpec(es[..|es| - 1], sock).crashed
    ensures FilterThenSend(es, sock, RelaySpec(es, sock))
  {
    var init := es[..|es| - 1];
    var prev := RelaySpec(init, sock);
    assert RelaySpec(es, sock) == Step(prev, es[|es| - 1], sock);
    assert init[..prev.consumed] == init;
    assert es[..|es|] == es;
    DeliverShape(prev.calls, sock);
    var c := Dispatch(es[|es| - 1]);
    assert Commands(es) == prev.calls + ToSeq(c);
    if c.Some? {
      SendStepDelivers(prev.calls, prev.log, c.value, sock);
    }
  }

  /** Sending one more command after a run that did not end the loop. */
  lemma SendStepDelivers(calls: seq<Command>, log: seq<Effect>, c: Command, sock: nat -> Outcome)
    requires Deliver(calls, sock) == Run(log, false)
    ensures sock(|calls|) == OtherError ==> Deliver(calls + [c], sock) == Run(log, true)
    ensures sock(|calls|) != OtherError ==>
      Deliver(calls + [c], sock) == Run(log + [Report(c, sock(|calls|))], false)
  {
    var cs := calls + [c];
    assert cs[..|cs| - 1] == calls;
    if sock(|calls|) == OtherError {
      assert Deliver(cs, sock) == Run(log, true);
    } else {
      assert Deliver(cs, sock) == Run(log + [Report(c, sock(|calls|))], false);
    }
  }

  /**
   * A send that fails because the socket is missing or refuses is reported and
   * the loop goes on: the events read, the commands sent and every other effect
   * are the same as if that send had gone through.
   */
  lemma {:induction false} FailedSendDoesNotStopRelay(
    es: seq<Event>, sock: nat -> Outcome, delivered: nat -> Outcome, k: nat)
    requires sock(k) == NoSocket || sock(k) == Refused
    requires delivered(k) == Delivered
    requires forall j :: j != k ==> delivered(j) == sock(j)
    ensures RelaySpec(es, sock).calls == RelaySpec(es, delivered).calls
    ensures RelaySpec(es, sock).consumed == RelaySpec(es, delivered).consumed
    ensures RelaySpec(es, sock).crashed == RelaySpec(es, delivered).crashed
    ensures |RelaySpec(es, sock).log| == |RelaySpec(es, delivered).log|
    ensures forall j :: 0 <= j < |RelaySpec(es, sock).log| && j != k ==>
      RelaySpec(es, sock).log[j] == RelaySpec(es, delivered).log[j]
    ensures k < |RelaySpec(es, sock).calls| ==>
      k < |RelaySpec(es, sock).log| && RelaySpec(es, sock).log[k] == Report(RelaySpec(es, sock).calls[k], sock(k))
  {
    FailedSendIsReported(es, sock, k);
    if es != [] {
      FailedSendDoesNotStopRelay(es[..|es| - 1], sock, delivered, k);
      var prev := RelaySpec(es[..|es| - 1], sock);
      var prev' := RelaySpec(es[..|es| - 1], delivered);
      if !prev.crashed {
        assert |prev.log| == |prev.calls| by {
          RelayDecomposes(es[..|es| - 1], sock);
          DeliverShape(prev.calls, sock);
        }
      }
    }
  }

  /** The send numbered k, when it was attempted and failed in a caught way, left its diagnostic at position k. */
  lemma FailedSendIsReported(es: seq<Event>, sock: nat -> Outcome, k: nat)
    requires sock(k) == NoSocket || sock(k) == Refused
    ensures k < |RelaySpec(es, sock).calls| ==>
      k < |RelaySpec(es, sock).log| && RelaySpec(es, sock).log[k] == Report(RelaySpec(es, sock).calls[k], sock(k))
  {
    var st := RelaySpec(es, sock);
    RelayDecomposes(es, sock);
    var run := Deliver(st.calls, sock);
    assert run.log == st.log && run.crashed == st.crashed;
    DeliverShape(st.calls, sock);
    if k < |st.calls| {
      assert k < |run.log| by {
        if run.crashed {
          assert sock(|run.log|) == OtherError;
        }
      }
    }
  }

  /**
   * As long as no send fails with an uncaught error, every event is read, every
   * command is sent, and each leaves its one effect, in order.
   */
  lemma NoUncaughtErrorReadsAll(es: seq<Event>, sock: nat -> Outcome)
    requires forall k :: sock(k) != OtherError
    ensures !RelaySpec(es, sock).crashed
    ensures RelaySpec(es, sock).consumed == |es|
    ensures RelaySpec(es, sock).calls == Commands(es)
    ensures |RelaySpec(es, sock).log| == |Commands(es)|
    ensures forall k :: 0 <= k < |Commands(es)| ==> RelaySpec(es, sock).log[k] == Report(Commands(es)[k], sock(k))
  {
    RelayDecomposes(es, sock);
    assert es[..|es|] == es;
    DeliverShape(RelaySpec(es, sock).calls, sock);
  }

  /**
   * Every connection carries exactly one line, the frame of the command sent on
   * it, from which ParseFrame recovers that command.
   */
  lemma WrittenLinesAreFrames(es: seq<Event>, sock: nat -> Outcome)
    ensures |RelaySpec(es, sock).log| <= |RelaySpec(es, sock).calls|
    ensures forall j :: 0 <= j < |RelaySpec(es, sock).log| && RelaySpec(es, sock).log[j].Wrote? ==>
      var line := RelaySpec(es, sock).log[j].line;
      && IsPedalCommand(RelaySpec(es, sock).calls[j])
      && line == Frame(RelaySpec(es, sock).calls[j])
      && ParseFrame(line) == Some(RelaySpec(es, sock).calls[j])
      && line[|line| - 1] == '\n'
      && forall i :: 0 <= i < |line| - 1 ==> line[i] != '\n'
  {
    var st := RelaySpec(es, sock);
    RelayDecomposes(es, sock);
    DeliverShape(st.calls, sock);
    forall j | 0 <= j < |st.log| && st.log[j].Wrote?
      ensures IsPedalCommand(st.calls[j]) && st.log[j].line == Frame(st.calls[j])
      ensures ParseFrame(st.log[j].line) == Some(st.calls[j])
      ensures |st.log[j].line| > 0 && st.log[j].line[|st.log[j].line| - 1] == '\n'
      ensures forall i :: 0 <= i < |st.log[j].line| - 1 ==> st.log[j].line[i] != '\n'
    {
      PedalCommandIsPlain(st.calls[j]);
      FrameRoundTrip(st.calls[j]);
      FrameIsOneLine(st.calls[j]);
    }
  }
}
