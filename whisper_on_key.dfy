/**
 * The `WhisperOnKey` node: key presses start inference goals or shut the node
 * down, and the callbacks of the inference action (goal response, feedback,
 * result) drive what is logged, shown and published.
 *
 * The middleware is abstracted to a stream of events. Each goal that
 * `send_goal_async` submits gets an identifier (its position in send order);
 * the middleware resolves only futures it created, so a goal response arrives
 * only for a goal awaiting acceptance and a result only for a goal whose result
 * was requested. `Step` is the specification of one event; the class below
 * implements it with one method per callback of the node.
 */
module WhisperNode {
  import opened CommandMapper
  import opened FeedbackTracker

  datatype Key = Esc | Space | OtherKey(name: string)

  datatype Duration = Duration(sec: int, nanosec: int)

  /** `max_duration` of every inference goal: one second. */
  const MaxDuration := Duration(1, 0)

  datatype Event =
    | KeyPress(key: Key)                                   // the key listener's on_press
    | GoalResponse(goal: nat, accepted: bool)              // the future of send_goal_async resolves
    | FeedbackMsg(update: Update)                          // the feedback callback of a goal
    | ResultReady(goal: nat, transcriptions: seq<string>)  // the future of get_result_async resolves

  datatype Output =
    | GoalSent(goal: nat, maxDuration: Duration)           // "Requesting inference ...", send_goal_async
    | GoalRejected(goal: nat)                              // error "Goal rejected."
    | ResultRequested(goal: nat)                           // "Goal accepted.", get_result_async
    | ResultReceived(goal: nat, transcriptions: seq<string>) // "Result: ..."
    | Published(cmd: Velocity)                             // publish on /cmd_vel
    | UnknownCommand(text: string)                         // warning "Unknown command: ..."
    | ShutDown                                             // listener stopped, rclpy shut down

  /**
   * The node's state: whether it still runs, the stored batch index, the goals
   * whose futures are pending, how many goals were sent, the log (logger and
   * publisher, in order) and the terminal display of the feedback.
   */
  datatype NodeState = NodeState(
    running: bool,
    batchIdx: int,
    awaitingAcceptance: set<nat>,
    awaitingResult: set<nat>,
    goalsSent: nat,
    out: seq<Output>,
    screen: seq<Display>)

  /** The node as `__init__` leaves it: running, no feedback yet, nothing sent or logged. */
  function Init(): (s: NodeState)
    ensures s.running && s.batchIdx == InitialBatchIdx && s.goalsSent == 0
  {
    NodeState(true, InitialBatchIdx, {}, {}, 0, [], [])
  }

  /** What `send_velocity_cmds` logs or publishes for a final transcript: exactly one output. */
  function CommandOutputs(text: string): (r: seq<Output>)
    ensures |r| == 1
    ensures r[0].Published? <==> Normalize(text) in Table
    ensures r[0].Published? ==> r[0].cmd == Table[Normalize(text)]
    ensures !r[0].Published? ==> r[0] == UnknownCommand(text)
  {
    match MapCommand(text)
    case Move(v) => [Published(v)]
    case Unknown(t) => [UnknownCommand(t)]
  }

  /** `on_done` reads `transcriptions[0]` unchecked: a result carries at least one transcription. */
  predicate WellFormed(e: Event)
  {
    e.ResultReady? ==> |e.transcriptions| > 0
  }

  predicate AllWellFormed(es: seq<Event>)
  {
    forall i :: 0 <= i < |es| ==> WellFormed(es[i])
  }

  /**
   * One event. After shutdown nothing is delivered any more. No event restarts
   * the node, takes back a goal number, or rewrites what was logged or shown.
   */
  function Step(s: NodeState, e: Event): (r: NodeState)
    requires WellFormed(e)
    ensures !s.running ==> r == s
    ensures r.running ==> s.running
    ensures s.goalsSent <= r.goalsSent
    ensures |s.out| <= |r.out| && |s.screen| <= |r.screen|
  {
    if !s.running then s
    else match e
      case KeyPress(k) =>
        if k == Esc then s.(running := false, out := s.out + [ShutDown])
        else if k == Space then
          s.(awaitingAcceptance := s.awaitingAcceptance + {s.goalsSent},
             goalsSent := s.goalsSent + 1,
             out := s.out + [GoalSent(s.goalsSent, MaxDuration)])
        else s
      case GoalResponse(g, accepted) =>
        if g !in s.awaitingAcceptance then s
        else if !accepted then
          s.(awaitingAcceptance := s.awaitingAcceptance - {g}, out := s.out + [GoalRejected(g)])
        else
          s.(awaitingAcceptance := s.awaitingAcceptance - {g},
             awaitingResult := s.awaitingResult + {g},
             out := s.out + [ResultRequested(g)])
      case FeedbackMsg(u) =>
        s.(batchIdx := u.batchIdx, screen := s.screen + RenderOne(s.batchIdx, u))
      case ResultReady(g, ts) =>
        if g !in s.awaitingResult then s
        else
          s.(awaitingResult := s.awaitingResult - {g},
             out := s.out + [ResultReceived(g, ts)] + CommandOutputs(ts[0]))
  }

  /** A stream of events, in delivery order. */
  function Steps(s: NodeState, es: seq<Event>): (r: NodeState)
    requires AllWellFormed(es)
    ensures !s.running ==> r == s
    ensures r.running ==> s.running
    ensures s.goalsSent <= r.goalsSent
    ensures |s.out| <= |r.out| && |s.screen| <= |r.screen|
  {
    if es == [] then s else Step(Steps(s, es[..|es| - 1]), es[|es| - 1])
  }

  // ---------------------------------------------------------------------------
  // The invariant of every reachable state
  // ---------------------------------------------------------------------------

  /** A goal that was sent and whose futures have all resolved. */
  predicate Settled(s: NodeState, g: nat)
  {
    g < s.goalsSent && g !in s.awaitingAcceptance && g !in s.awaitingResult
  }

  predicate PendingGoalsSent(s: NodeState)
  {
    && (forall g :: g in s.awaitingAcceptance ==> g < s.goalsSent)
    && (forall g :: g in s.awaitingResult ==> g < s.goalsSent)
    && s.awaitingAcceptance !! s.awaitingResult
  }

  /** Every logged result and rejection belongs to a settled goal. */
  predicate OutcomesSettled(s: NodeState)
  {
    forall k :: 0 <= k < |s.out| ==>
      (s.out[k].ResultReceived? ==> Settled(s, s.out[k].goal) && |s.out[k].transcriptions| > 0) &&
      (s.out[k].GoalRejected? ==> Settled(s, s.out[k].goal))
  }

  /** No goal has its result handled twice. */
  predicate ResultsOnce(out: seq<Output>)
  {
    forall i, j :: 0 <= i < j < |out| && out[i].ResultReceived? && out[j].ResultReceived? ==>
      out[i].goal != out[j].goal
  }

  /** A rejected goal never has a result handled. */
  predicate RejectedNeverCompleted(out: seq<Output>)
  {
    forall i, j :: 0 <= i < |out| && 0 <= j < |out| && out[i].GoalRejected? && out[j].ResultReceived? ==>
      out[i].goal != out[j].goal
  }

  /**
   * Every published command or unknown-command warning comes right after a
   * handled result, and is what the mapper makes of that result's first
   * transcription.
   */
  predicate CommandsFollowResults(out: seq<Output>)
  {
    forall k :: 0 <= k < |out| && (out[k].Published? || out[k].UnknownCommand?) ==>
      && 0 < k
      && out[k - 1].ResultReceived?
      && |out[k - 1].transcriptions| > 0
      && CommandOutputs(out[k - 1].transcriptions[0]) == [out[k]]
  }

  /** Number of goals submitted according to the log. */
  function CountSent(out: seq<Output>): nat
  {
    if out == [] then 0 else CountSent(out[..|out| - 1]) + (if out[|out| - 1].GoalSent? then 1 else 0)
  }

  /** The node has shut down exactly when the log ends with the shutdown, and only then. */
  predicate ShutDownLast(s: NodeState)
  {
    && (ShutDown in s.out <==> !s.running)
    && (!s.running ==> s.out[|s.out| - 1] == ShutDown)
  }

  predicate Valid(s: NodeState)
  {
    && PendingGoalsSent(s)
    && OutcomesSettled(s)
    && ResultsOnce(s.out)
    && RejectedNeverCompleted(s.out)
    && CommandsFollowResults(s.out)
    && CountSent(s.out) == s.goalsSent
    && ShutDownLast(s)
  }

  lemma InitValid()
    ensures Valid(Init())
  {
  }

  lemma CountSentSnoc(out: seq<Output>, o: Output)
    ensures CountSent(out + [o]) == CountSent(out) + (if o.GoalSent? then 1 else 0)
  {
    assert (out + [o])[..|out|] == out;
  }

  /** Appending one output to the log keeps every settled outcome settled. */
  lemma OutcomesSettledSnoc(s: NodeState, s': NodeState, o: Output)
    requires OutcomesSettled(s)
    requires s'.out == s.out + [o]
    requires s.goalsSent <= s'.goalsSent
    requires s'.awaitingAcceptance <= s.awaitingAcceptance + {s.goalsSent}
    requires s'.awaitingResult <= s.awaitingResult + s.awaitingAcceptance
    requires o.ResultReceived? ==> Settled(s', o.goal) && |o.transcriptions| > 0
    requires o.GoalRejected? ==> Settled(s', o.goal)
    ensures OutcomesSettled(s')
  {
    forall k | 0 <= k < |s'.out|
      ensures s'.out[k].ResultReceived? ==> Settled(s', s'.out[k].goal) && |s'.out[k].transcriptions| > 0
      ensures s'.out[k].GoalRejected? ==> Settled(s', s'.out[k].goal)
    {
      if k < |s.out| {
        assert s'.out[k] == s.out[k];
      }
    }
  }

  lemma ResultsOnceSnoc(out: seq<Output>, o: Output)
    requires ResultsOnce(out)
    requires o.ResultReceived? ==> forall i :: 0 <= i < |out| && out[i].ResultReceived? ==> out[i].goal != o.goal
    ensures ResultsOnce(out + [o])
  {
  }

  lemma RejectedNeverCompletedSnoc(out: seq<Output>, o: Output)
    requires RejectedNeverCompleted(out)
    requires o.ResultReceived? ==> forall i :: 0 <= i < |out| && out[i].GoalRejected? ==> out[i].goal != o.goal
    requires o.GoalRejected? ==> forall i :: 0 <= i < |out| && out[i].ResultReceived? ==> out[i].goal != o.goal
    ensures RejectedNeverCompleted(out + [o])
  {
  }

  lemma CommandsFollowResultsSnoc(out: seq<Output>, o: Output)
    requires CommandsFollowResults(out)
    requires o.Published? || o.UnknownCommand? ==>
      && 0 < |out|
      && out[|out| - 1].ResultReceived?
      && |out[|out| - 1].transcriptions| > 0
      && CommandOutputs(out[|out| - 1].transcriptions[0]) == [o]
    ensures CommandsFollowResults(out + [o])
  {
    var out' := out + [o];
    forall k | 0 <= k < |out'| && (out'[k].Published? || out'[k].UnknownCommand?)
      ensures 0 < k && out'[k - 1].ResultReceived? && |out'[k - 1].transcriptions| > 0
      ensures CommandOutputs(out'[k - 1].transcriptions[0]) == [out'[k]]
    {
      if k < |out| {
        assert out'[k] == out[k] && out'[k - 1] == out[k - 1];
      }
    }
  }

  /** A goal settled in `s` is not pending, so it differs from any pending goal. */
  lemma SettledNotPending(s: NodeState, g: nat)
    requires OutcomesSettled(s)
    requires g in s.awaitingAcceptance || g in s.awaitingResult
    ensures forall i :: 0 <= i < |s.out| && s.out[i].ResultReceived? ==> s.out[i].goal != g
    ensures forall i :: 0 <= i < |s.out| && s.out[i].GoalRejected? ==> s.out[i].goal != g
  {
  }

  lemma KeyPreservesValid(s: NodeState, k: Key)
    requires Valid(s) && s.running
    ensures Valid(Step(s, KeyPress(k)))
  {
    if k == Esc {
      EscStepValid(s, s.(running := false, out := s.out + [ShutDown]));
    } else if k == Space {
      var o := GoalSent(s.goalsSent, MaxDuration);
      SpaceStepValid(s, s.(awaitingAcceptance := s.awaitingAcceptance + {s.goalsSent},
                           goalsSent := s.goalsSent + 1, out := s.out + [o]));
    }
  }

  lemma EscStepValid(s: NodeState, s': NodeState)
    requires Valid(s) && s.running
    requires s' == s.(running := false, out := s.out + [ShutDown])
    ensures Valid(s')
  {
    CountSentSnoc(s.out, ShutDown);
    OutcomesSettledSnoc(s, s', ShutDown);
    ResultsOnceSnoc(s.out, ShutDown);
    RejectedNeverCompletedSnoc(s.out, ShutDown);
    CommandsFollowResultsSnoc(s.out, ShutDown);
  }

  lemma SpaceStepValid(s: NodeState, s': NodeState)
    requires Valid(s) && s.running
    requires s' == s.(awaitingAcceptance := s.awaitingAcceptance + {s.goalsSent},
                      goalsSent := s.goalsSent + 1, out := s.out + [GoalSent(s.goalsSent, MaxDuration)])
    ensures Valid(s')
  {
    var o := GoalSent(s.goalsSent, MaxDuration);
    CountSentSnoc(s.out, o);
    OutcomesSettledSnoc(s, s', o);
    ResultsOnceSnoc(s.out, o);
    RejectedNeverCompletedSnoc(s.out, o);
    CommandsFollowResultsSnoc(s.out, o);
    assert ShutDown !in s'.out;
  }

  lemma GoalResponsePreservesValid(s: NodeState, g: nat, accepted: bool)
    requires Valid(s) && s.running
    ensures Valid(Step(s, GoalResponse(g, accepted)))
  {
    if g in s.awaitingAcceptance {
      var s' := Step(s, GoalResponse(g, accepted));
      var o := if accepted then ResultRequested(g) else GoalRejected(g);
      assert s'.out == s.out + [o];
      SettledNotPending(s, g);
      CountSentSnoc(s.out, o);
      OutcomesSettledSnoc(s, s', o);
      ResultsOnceSnoc(s.out, o);
      RejectedNeverCompletedSnoc(s.out, o);
      CommandsFollowResultsSnoc(s.out, o);
      assert ShutDown !in s'.out;
    }
  }

  lemma ResultPreservesValid(s: NodeState, g: nat, ts: seq<string>)
    requires Valid(s) && s.running && |ts| > 0
    ensures Valid(Step(s, ResultReady(g, ts)))
  {
    if g in s.awaitingResult {
      var r := ResultReceived(g, ts);
      var c := CommandOutputs(ts[0])[0];
      assert CommandOutputs(ts[0]) == [c];
      var s1 := s.(awaitingResult := s.awaitingResult - {g}, out := s.out + [r]);
      var s' := s1.(out := s1.out + [c]);
      assert Step(s, ResultReady(g, ts)) == s';
      ResultStepValid(s, s1, s', g, ts, c);
    }
  }

  lemma ResultStepValid(s: NodeState, s1: NodeState, s': NodeState, g: nat, ts: seq<string>, c: Output)
    requires Valid(s) && s.running && |ts| > 0 && g in s.awaitingResult
    requires CommandOutputs(ts[0]) == [c]
    requires s1 == s.(awaitingResult := s.awaitingResult - {g}, out := s.out + [ResultReceived(g, ts)])
    requires s' == s1.(out := s1.out + [c])
    ensures Valid(s')
  {
    var r := ResultReceived(g, ts);
    SettledNotPending(s, g);
    CountSentSnoc(s.out, r);
    CountSentSnoc(s1.out, c);
    OutcomesSettledSnoc(s, s1, r);
    OutcomesSettledSnoc(s1, s', c);
    ResultsOnceSnoc(s.out, r);
    ResultsOnceSnoc(s1.out, c);
    RejectedNeverCompletedSnoc(s.out, r);
    RejectedNeverCompletedSnoc(s1.out, c);
    CommandsFollowResultsSnoc(s.out, r);
    CommandsFollowResultsSnoc(s1.out, c);
    assert ShutDown !in s'.out;
  }

  /** Every event keeps the invariant. */
  lemma StepPreservesValid(s: NodeState, e: Event)
    requires Valid(s) && WellFormed(e)
    ensures Valid(Step(s, e))
  {
    if s.running {
      match e
      case KeyPress(k) => KeyPreservesValid(s, k);
      case GoalResponse(g, accepted) => GoalResponsePreservesValid(s, g, accepted);
      case FeedbackMsg(u) =>
      case ResultReady(g, ts) => ResultPreservesValid(s, g, ts);
    }
  }

  /** Every state reached from the start satisfies the invariant. */
  lemma {:induction false} ReachableValid(es: seq<Event>)
    requires AllWellFormed(es)
    ensures Valid(Steps(Init(), es))
  {
    if es == [] {
      InitValid();
    } else {
      ReachableValid(es[..|es| - 1]);
      StepPreservesValid(Steps(Init(), es[..|es| - 1]), es[|es| - 1]);
    }
  }

  /** One event only appends to the log and to the display: nothing shown or logged is rewritten. */
  lemma StepAppendsOnly(s: NodeState, e: Event)
    requires WellFormed(e)
    ensures Step(s, e).out[..|s.out|] == s.out
    ensures Step(s, e).screen[..|s.screen|] == s.screen
  {
  }

  /** A stream of events only appends to the log and to the display. */
  lemma {:induction false} StepsAppendOnly(s: NodeState, es: seq<Event>)
    requires AllWellFormed(es)
    ensures Steps(s, es).out[..|s.out|] == s.out
    ensures Steps(s, es).screen[..|s.screen|] == s.screen
  {
    if es != [] {
      var m := Steps(s, es[..|es| - 1]);
      StepsAppendOnly(s, es[..|es| - 1]);
      StepAppendsOnly(m, es[|es| - 1]);
      var r := Step(m, es[|es| - 1]);
      assert r.out[..|s.out|] == r.out[..|m.out|][..|s.out|];
      assert r.screen[..|s.screen|] == r.screen[..|m.screen|][..|s.screen|];
    }
  }

  // ---------------------------------------------------------------------------
  // Properties of single events
  // ---------------------------------------------------------------------------

  /** Esc shuts the node down and sends no goal. */
  lemma EscShutsDown(s: NodeState)
    requires s.running
    ensures var s' := Step(s, KeyPress(Esc));
      !s'.running && s'.goalsSent == s.goalsSent && s'.out == s.out + [ShutDown]
  {
  }

  /**
   * Space always submits exactly one new goal of one second, whatever goals are
   * still pending: the node has no "request already active" guard.
   */
  lemma SpaceAlwaysSubmits(s: NodeState)
    requires Valid(s) && s.running
    ensures var s' := Step(s, KeyPress(Space));
      && s'.goalsSent == s.goalsSent + 1
      && s'.out == s.out + [GoalSent(s.goalsSent, MaxDuration)]
      && s.goalsSent !in s.awaitingAcceptance + s.awaitingResult
      && s'.awaitingAcceptance == s.awaitingAcceptance + {s.goalsSent}
      && s'.awaitingResult == s.awaitingResult
  {
  }

  /** Any other key does nothing. */
  lemma OtherKeyIgnored(s: NodeState, name: string)
    ensures Step(s, KeyPress(OtherKey(name))) == s
  {
  }

  /** Once shut down, no event changes anything. */
  lemma {:induction false} NothingAfterShutdown(s: NodeState, es: seq<Event>)
    requires !s.running && AllWellFormed(es)
    ensures Steps(s, es) == s
  {
    if es != [] {
      NothingAfterShutdown(s, es[..|es| - 1]);
    }
  }

  /** A rejected goal is settled: its result is never requested and it publishes nothing. */
  lemma RejectionSettles(s: NodeState, g: nat)
    requires PendingGoalsSent(s) && s.running && g in s.awaitingAcceptance
    ensures var s' := Step(s, GoalResponse(g, false));
      && s'.out == s.out + [GoalRejected(g)]
      && Settled(s', g)
      && (forall ts' :: |ts'| > 0 ==> Step(s', ResultReady(g, ts')) == s')
  {
  }

  /**
   * The result of an accepted goal is handled once: the first transcription is
   * mapped, giving exactly one publish or one unknown-command warning, and the
   * goal is settled so that a second result for it would be ignored.
   */
  lemma ResultHandledOnce(s: NodeState, g: nat, ts: seq<string>)
    requires PendingGoalsSent(s) && s.running && g in s.awaitingResult && |ts| > 0
    ensures var s' := Step(s, ResultReady(g, ts));
      && |s'.out| == |s.out| + 2
      && s'.out[..|s.out|] == s.out
      && s'.out[|s.out|] == ResultReceived(g, ts)
      && (s'.out[|s.out| + 1].Published? <==> Normalize(ts[0]) in Table)
      && (s'.out[|s.out| + 1].Published? ==> s'.out[|s.out| + 1].cmd == Table[Normalize(ts[0])])
      && (!s'.out[|s.out| + 1].Published? ==> s'.out[|s.out| + 1] == UnknownCommand(ts[0]))
      && Settled(s', g)
      && (forall ts' :: |ts'| > 0 ==> Step(s', ResultReady(g, ts')) == s')
  {
  }

  /** A feedback message breaks the line iff its batch index differs, and stores the new index. */
  lemma FeedbackStep(s: NodeState, u: Update)
    requires s.running
    ensures var s' := Step(s, FeedbackMsg(u));
      && s'.batchIdx == u.batchIdx
      && s'.screen == s.screen + (if u.batchIdx != s.batchIdx then [Break] else []) + [Line(u.transcription)]
      && s'.out == s.out
  {
  }

  /** The events that deliver the feedback messages `us`, in order. */
  function FeedbackEvents(us: seq<Update>): (es: seq<Event>)
    ensures |es| == |us| && AllWellFormed(es)
  {
    seq(|us|, i requires 0 <= i < |us| => FeedbackMsg(us[i]))
  }

  /** A stream of feedback messages shows exactly what `Render` describes. */
  lemma {:induction false} FeedbackStream(s: NodeState, us: seq<Update>)
    requires s.running
    ensures Steps(s, FeedbackEvents(us))
         == s.(batchIdx := LastIdx(s.batchIdx, us), screen := s.screen + Render(s.batchIdx, us))
  {
    if us != [] {
      var init := us[..|us| - 1];
      var u := us[|us| - 1];
      var es := FeedbackEvents(us);
      assert es[..|es| - 1] == FeedbackEvents(init);
      assert es[|es| - 1] == FeedbackMsg(u);
      var m := Steps(s, FeedbackEvents(init));
      FeedbackStream(s, init);
      assert Steps(s, es) == Step(m, FeedbackMsg(u));
      assert m.running;
      assert Step(m, FeedbackMsg(u)) == m.(batchIdx := u.batchIdx, screen := m.screen + RenderOne(m.batchIdx, u));
      assert init + [u] == us;
      RenderSnoc(s.batchIdx, init, u);
      var tail := RenderOne(LastIdx(s.batchIdx, init), u);
      assert Render(s.batchIdx, us) == Render(s.batchIdx, init) + tail;
      assert m.screen + tail == s.screen + Render(s.batchIdx, us);
      assert LastIdx(s.batchIdx, us) == u.batchIdx;
    } else {
      assert FeedbackEvents(us) == [];
      assert Render(s.batchIdx, us) == [] && s.screen + [] == s.screen;
    }
  }

  // ---------------------------------------------------------------------------
  // The node
  // ---------------------------------------------------------------------------

  class WhisperOnKey {
    var running: bool
    var batchIdx: int
    var awaitingAcceptance: set<nat>
    var awaitingResult: set<nat>
    var goalsSent: nat
    var out: seq<Output>
    var screen: seq<Display>

    function State(): NodeState
      reads this
    {
      NodeState(running, batchIdx, awaitingAcceptance, awaitingResult, goalsSent, out, screen)
    }

    /** The node once it has started: batch index -1, nothing pending, nothing logged. */
    constructor ()
      ensures State() == Init()
    {
      running := true;
      batchIdx := InitialBatchIdx;
      awaitingAcceptance, awaitingResult := {}, {};
      goalsSent := 0;
      out, screen := [], [];
    }

    /** `on_key`: Esc shuts down, Space submits a goal, any other key is ignored. */
    method OnKey(key: Key)
      requires running
      modifies this
      ensures key == Esc ==> State() == old(State()).(running := false, out := old(out) + [ShutDown])
      ensures key == Space ==>
        State() == old(State()).(awaitingAcceptance := old(awaitingAcceptance) + {old(goalsSent)},
                                 goalsSent := old(goalsSent) + 1,
                                 out := old(out) + [GoalSent(old(goalsSent), MaxDuration)])
      ensures key.OtherKey? ==> State() == old(State())
    {
      if key == Esc {
        out := out + [ShutDown];
        running := false;
        return;
      }
      if key == Space {
        OnSpace();
        return;
      }
    }

    /** `on_space`: submits one goal of one second, unconditionally. */
    method OnSpace()
      modifies this
      ensures State() == old(State()).(awaitingAcceptance := old(awaitingAcceptance) + {old(goalsSent)},
                                       goalsSent := old(goalsSent) + 1,
                                       out := old(out) + [GoalSent(old(goalsSent), MaxDuration)])
    {
      out := out + [GoalSent(goalsSent, MaxDuration)];
      awaitingAcceptance := awaitingAcceptance + {goalsSent};
      goalsSent := goalsSent + 1;
    }

    /** `on_goal_accepted`: a rejected goal ends with an error; an accepted one has its result requested. */
    method OnGoalAccepted(goal: nat, accepted: bool)
      requires goal in awaitingAcceptance
      modifies this
      ensures !accepted ==>
        State() == old(State()).(awaitingAcceptance := old(awaitingAcceptance) - {goal},
                                 out := old(out) + [GoalRejected(goal)])
      ensures accepted ==>
        State() == old(State()).(awaitingAcceptance := old(awaitingAcceptance) - {goal},
                                 awaitingResult := old(awaitingResult) + {goal},
                                 out := old(out) + [ResultRequested(goal)])
    {
      awaitingAcceptance := awaitingAcceptance - {goal};
      if !accepted {
        out := out + [GoalRejected(goal)];
        return;
      }
      out := out + [ResultRequested(goal)];
      awaitingResult := awaitingResult + {goal};
    }

    /** `on_done`: logs the result and maps its first transcription. */
    method OnDone(goal: nat, transcriptions: seq<string>)
      requires goal in awaitingResult && |transcriptions| > 0
      modifies this
      ensures State() == old(State()).(awaitingResult := old(awaitingResult) - {goal},
                                       out := old(out) + [ResultReceived(goal, transcriptions)]
                                              + CommandOutputs(transcriptions[0]))
    {
      awaitingResult := awaitingResult - {goal};
      out := out + [ResultReceived(goal, transcriptions)];
      SendVelocityCmds(transcriptions[0]);
    }

    /** `send_velocity_cmds`: publishes the table's velocity, or warns with the original text. */
    method SendVelocityCmds(output: string)
      modifies this
      ensures State() == old(State()).(out := old(out) + CommandOutputs(output))
    {
      var cleaned := Normalize(output);
      var velocity := Lookup(cleaned);
      match velocity
      case None =>
        out := out + [UnknownCommand(output)];
      case Some(v) =>
        out := out + [Published(v)];
    }

    /** `on_feedback`: a new batch index starts a new line; the line then shows the transcription. */
    method OnFeedback(update: Update)
      modifies this
      ensures batchIdx == update.batchIdx
      ensures screen == old(screen) + (if update.batchIdx != old(batchIdx) then [Break] else [])
                                    + [Line(update.transcription)]
      ensures State() == old(State()).(batchIdx := batchIdx, screen := screen)
    {
      if batchIdx != update.batchIdx {
        screen := screen + [Break];
        batchIdx := update.batchIdx;
      }
      screen := screen + [Line(update.transcription)];
    }

    /** Delivers one event to the callback it is meant for. */
    method Handle(e: Event)
      requires running && WellFormed(e)
      modifies this
      ensures State() == Step(old(State()), e)
    {
      match e
      case KeyPress(k) =>
        OnKey(k);
      case GoalResponse(g, accepted) =>
        if g in awaitingAcceptance {
          OnGoalAccepted(g, accepted);
        }
      case FeedbackMsg(u) =>
        OnFeedback(u);
      case ResultReady(g, ts) =>
        if g in awaitingResult {
          OnDone(g, ts);
        }
    }

    /** `rclpy.spin`: delivers the events in order until the node shuts down. */
    method Run(events: seq<Event>)
      requires AllWellFormed(events)
      modifies this
      ensures State() == Steps(old(State()), events)
    {
      var i := 0;
      while i < |events|
        invariant 0 <= i <= |events|
        invariant State() == Steps(old(State()), events[..i])
      {
        assert events[..i + 1][..i] == events[..i];
        if running {
          Handle(events[i]);
        }
        i := i + 1;
      }
      assert events[..i] == events;
    }
  }
}
