/**
 * End-to-end runs of the node from its start state, one event stream each.
 */
module Scenarios {
  import opened CommandMapper
  import opened FeedbackTracker
  import opened WhisperNode

  /** Delivering one more event is one more `Step`. */
  lemma StepsSnoc(s: NodeState, es: seq<Event>, e: Event)
    requires AllWellFormed(es) && WellFormed(e)
    ensures AllWellFormed(es + [e])
    ensures Steps(s, es + [e]) == Step(Steps(s, es), e)
  {
    assert (es + [e])[..|es|] == es;
  }

  /** Space, goal accepted, two partial transcripts of batch 0. */
  lemma AcceptedWithFeedback(partial: string, full: string)
    ensures var es := [KeyPress(Space), GoalResponse(0, true), FeedbackMsg(Update(0, partial)),
                       FeedbackMsg(Update(0, full))];
      && AllWellFormed(es)
      && Steps(Init(), es)
         == NodeState(true, 0, {}, {0}, 1, [GoalSent(0, MaxDuration), ResultRequested(0)],
                      [Break, Line(partial), Line(full)])
  {
    var s0 := Init();
    var e0, e1 := KeyPress(Space), GoalResponse(0, true);
    var e2, e3 := FeedbackMsg(Update(0, partial)), FeedbackMsg(Update(0, full));
    StepsSnoc(s0, [], e0);
    StepsSnoc(s0, [e0], e1);
    StepsSnoc(s0, [e0, e1], e2);
    StepsSnoc(s0, [e0, e1, e2], e3);
    assert [] + [e0] == [e0] && [e0] + [e1] == [e0, e1] && [e0, e1] + [e2] == [e0, e1, e2];
    assert [e0, e1, e2] + [e3] == [e0, e1, e2, e3];
    var s1 := Step(s0, e0);
    assert s1 == NodeState(true, InitialBatchIdx, {0}, {}, 1, [GoalSent(0, MaxDuration)], []);
    var s2 := Step(s1, e1);
    assert s2 == NodeState(true, InitialBatchIdx, {}, {0}, 1, [GoalSent(0, MaxDuration), ResultRequested(0)], []);
    var s3 := Step(s2, e2);
    assert s3 == s2.(batchIdx := 0, screen := [Break, Line(partial)]);
  }

  /**
   * Space, goal accepted, two partial transcripts of batch 0, then the result
   * "forward.": the robot is sent (0.25, 0), the terminal shows one segment, and
   * nothing is left pending.
   */
  lemma ForwardScenario(partial: string, full: string)
    ensures var es := [KeyPress(Space), GoalResponse(0, true), FeedbackMsg(Update(0, partial)),
                       FeedbackMsg(Update(0, full)), ResultReady(0, ["forward."])];
      && AllWellFormed(es)
      && Steps(Init(), es).out
         == [GoalSent(0, MaxDuration), ResultRequested(0), ResultReceived(0, ["forward."]),
             Published(Velocity(0.25, 0.0))]
      && Steps(Init(), es).screen == [Break, Line(partial), Line(full)]
      && Steps(Init(), es).awaitingAcceptance == {} && Steps(Init(), es).awaitingResult == {}
  {
    var prefix := [KeyPress(Space), GoalResponse(0, true), FeedbackMsg(Update(0, partial)),
                   FeedbackMsg(Update(0, full))];
    var text := "forward.";
    var e4 := ResultReady(0, [text]);
    AcceptedWithFeedback(partial, full);
    StepsSnoc(Init(), prefix, e4);
    assert prefix + [e4] == [KeyPress(Space), GoalResponse(0, true), FeedbackMsg(Update(0, partial)),
                             FeedbackMsg(Update(0, full)), ResultReady(0, [text])];
    var s4 := NodeState(true, 0, {}, {0}, 1, [GoalSent(0, MaxDuration), ResultRequested(0)],
                        [Break, Line(partial), Line(full)]);
    ForwardExample();
    assert CommandOutputs(text) == [Published(Forward)];
    assert Step(s4, e4) == s4.(awaitingResult := {}, out := s4.out + [ResultReceived(0, [text]), Published(Forward)]);
  }

  /**
   * A result whose first transcription is not a command (such as "go faster"):
   * nothing is published and the warning carries the original text.
   */
  lemma UnknownScenario(text: string)
    requires Normalize(text) !in Table
    ensures var es := [KeyPress(Space), GoalResponse(0, true), ResultReady(0, [text])];
      && AllWellFormed(es)
      && Steps(Init(), es).out
         == [GoalSent(0, MaxDuration), ResultRequested(0), ResultReceived(0, [text]),
             UnknownCommand(text)]
  {
    var s0 := Init();
    var e0, e1, e2 := KeyPress(Space), GoalResponse(0, true), ResultReady(0, [text]);
    StepsSnoc(s0, [], e0);
    StepsSnoc(s0, [e0], e1);
    StepsSnoc(s0, [e0, e1], e2);
    assert [] + [e0] == [e0] && [e0] + [e1] == [e0, e1] && [e0, e1] + [e2] == [e0, e1, e2];
    var s1 := Step(s0, e0);
    assert s1 == NodeState(true, InitialBatchIdx, {0}, {}, 1, [GoalSent(0, MaxDuration)], []);
    var s2 := Step(s1, e1);
    assert s2 == NodeState(true, InitialBatchIdx, {}, {0}, 1, [GoalSent(0, MaxDuration), ResultRequested(0)], []);
    assert CommandOutputs(text) == [UnknownCommand(text)];
  }

  /** A goal rejected, then a stale result for it ignored. */
  lemma RejectThenStale(stale: seq<string>)
    requires |stale| > 0
    ensures var es := [KeyPress(Space), GoalResponse(0, false), ResultReady(0, stale)];
      && AllWellFormed(es)
      && Steps(Init(), es)
         == NodeState(true, InitialBatchIdx, {}, {}, 1, [GoalSent(0, MaxDuration), GoalRejected(0)], [])
  {
    var s0 := Init();
    var e0, e1, e2 := KeyPress(Space), GoalResponse(0, false), ResultReady(0, stale);
    StepsSnoc(s0, [], e0);
    StepsSnoc(s0, [e0], e1);
    StepsSnoc(s0, [e0, e1], e2);
    assert [] + [e0] == [e0] && [e0] + [e1] == [e0, e1] && [e0, e1] + [e2] == [e0, e1, e2];
    var s1 := Step(s0, e0);
    assert s1 == NodeState(true, InitialBatchIdx, {0}, {}, 1, [GoalSent(0, MaxDuration)], []);
    var s2 := Step(s1, e1);
    assert s2 == NodeState(true, InitialBatchIdx, {}, {}, 1, [GoalSent(0, MaxDuration), GoalRejected(0)], []);
  }

  /** A goal rejected, a stale result for it ignored, and a second Space press. */
  lemma RejectThenRetry(stale: seq<string>)
    requires |stale| > 0
    ensures var es := [KeyPress(Space), GoalResponse(0, false), ResultReady(0, stale), KeyPress(Space)];
      && AllWellFormed(es)
      && Steps(Init(), es)
         == NodeState(true, InitialBatchIdx, {1}, {}, 2,
                      [GoalSent(0, MaxDuration), GoalRejected(0), GoalSent(1, MaxDuration)], [])
  {
    var prefix := [KeyPress(Space), GoalResponse(0, false), ResultReady(0, stale)];
    var e3 := KeyPress(Space);
    RejectThenStale(stale);
    StepsSnoc(Init(), prefix, e3);
    assert prefix + [e3] == [KeyPress(Space), GoalResponse(0, false), ResultReady(0, stale), KeyPress(Space)];
  }

  /** After the rejection and the stale result, the second goal is accepted and its result requested. */
  lemma RetryAccepted(stale: seq<string>)
    requires |stale| > 0
    ensures var es := [KeyPress(Space), GoalResponse(0, false), ResultReady(0, stale),
                       KeyPress(Space), GoalResponse(1, true)];
      && AllWellFormed(es)
      && Steps(Init(), es)
         == NodeState(true, InitialBatchIdx, {}, {1}, 2,
                      [GoalSent(0, MaxDuration), GoalRejected(0), GoalSent(1, MaxDuration), ResultRequested(1)], [])
  {
    var prefix := [KeyPress(Space), GoalResponse(0, false), ResultReady(0, stale), KeyPress(Space)];
    var e4 := GoalResponse(1, true);
    RejectThenRetry(stale);
    StepsSnoc(Init(), prefix, e4);
    assert prefix + [e4] == [KeyPress(Space), GoalResponse(0, false), ResultReady(0, stale),
                             KeyPress(Space), GoalResponse(1, true)];
  }

  /**
   * A rejected goal publishes nothing, even if a result for it were delivered,
   * and the next Space press is served normally: its goal is accepted and the
   * result "left" turns the robot.
   */
  lemma RetryAfterRejectionScenario(stale: seq<string>)
    requires |stale| > 0
    ensures var es := [KeyPress(Space), GoalResponse(0, false), ResultReady(0, stale),
                       KeyPress(Space), GoalResponse(1, true), ResultReady(1, ["left"])];
      && AllWellFormed(es)
      && Steps(Init(), es).out
         == [GoalSent(0, MaxDuration), GoalRejected(0),
             GoalSent(1, MaxDuration), ResultRequested(1), ResultReceived(1, ["left"]),
             Published(Velocity(0.0, 0.25))]
  {
    var prefix := [KeyPress(Space), GoalResponse(0, false), ResultReady(0, stale),
                   KeyPress(Space), GoalResponse(1, true)];
    var e5 := ResultReady(1, ["left"]);
    RetryAccepted(stale);
    StepsSnoc(Init(), prefix, e5);
    assert prefix + [e5] == [KeyPress(Space), GoalResponse(0, false), ResultReady(0, stale),
                             KeyPress(Space), GoalResponse(1, true), ResultReady(1, ["left"])];
    var s5 := NodeState(true, InitialBatchIdx, {}, {1}, 2,
                        [GoalSent(0, MaxDuration), GoalRejected(0), GoalSent(1, MaxDuration), ResultRequested(1)], []);
    TableKeysAreClean("left");
    assert CommandOutputs("left") == [Published(Left)];
    assert Step(s5, e5) == s5.(awaitingResult := {}, out := s5.out + [ResultReceived(1, ["left"]), Published(Left)]);
  }

  /** Esc first: the node shuts down without sending a goal, and later keys do nothing. */
  lemma EscapeScenario()
    ensures var es := [KeyPress(Esc), KeyPress(Space), KeyPress(Space)];
      && AllWellFormed(es)
      && Steps(Init(), es).out == [ShutDown]
      && Steps(Init(), es).goalsSent == 0
  {
    var s0 := Init();
    StepsSnoc(s0, [], KeyPress(Esc));
    StepsSnoc(s0, [KeyPress(Esc)], KeyPress(Space));
    StepsSnoc(s0, [KeyPress(Esc), KeyPress(Space)], KeyPress(Space));
  }
}
