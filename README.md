# whisper_on_key: a Dafny model

This project models the `WhisperOnKey` ROS 2 node of the voice-command robot. The node turns a key press into a speech-to-text inference goal. It shows the partial transcripts as they stream in. It then maps the final transcript to a velocity command for `/cmd_vel`.

The model has three parts.

- `CommandMapper` (`command_mapper.dfy`) is the pure logic of `send_velocity_cmds`. The transcript is lower-cased and stripped of spaces, dots and exclamation marks at both ends. The cleaned text is then matched exactly against five commands: stop, forward, backward, left and right. A match gives one velocity `(linear.x, angular.z)`. Anything else gives an "unknown command" warning that carries the original text.
- `FeedbackTracker` (`feedback.dfy`) specifies what `on_feedback` shows on the terminal. Terminal output is abstracted to `Break` (a new line) and `Line(text)` (the current line rewritten).
- `WhisperNode` (`whisper_on_key.dfy`) models the node and its callbacks.
  - `Step` specifies one event and `Steps` a stream of events. An event is a key press, a goal response, a feedback message or a result.
  - The class `WhisperOnKey` has the node's `batch_idx` and the pending futures as fields. It has one method per callback, and `Run` delivers a stream of events in order, as `rclpy.spin` does.
  - Every goal sent gets an identifier, which is its position in send order. The middleware resolves only futures it created, so a response or result for an unknown goal is not delivered (`Step` leaves the state unchanged).
  - `Valid` is an invariant that holds in every reachable state. It says that no goal's result is handled twice, that a rejected goal never has a result handled, and that every publish or unknown-command warning directly follows a handled result and is what the mapper makes of that result's first transcription.
- `Scenarios` (`scenarios.dfy`) holds end-to-end runs from the start state.

Three behaviours of the code deserve mention, and the model keeps each of them:

- `on_space` has no guard against a goal already in flight. Every Space press sends a new goal, whatever is pending (`SpaceAlwaysSubmits`).
- `batch_idx` starts at -1, so the first feedback update always starts a new line when its batch index is 0 or more. The batch indices [0, 0, 1, 1] break before the first and the third update (`SegmentExample`).
- The code has no handler for a failure in the middle of a stream of feedback, and neither does the model.

One choice of the model allows more than the code does. A feedback message is an event of its own, tied to no goal, so the model also accepts feedback before any Space press. In the code, the feedback callback is only registered when a goal is sent (`whisper_on_key.py`, lines 56-57). The model thus admits more event streams than the node can see, and every property proved for all streams holds for the node's streams too.

## Model

| member | source | states |
|---|---|---|
| CommandMapper.LowerChar | whisper_demos/whisper_demos/whisper_on_key.py:84 | an ASCII capital becomes its own small letter (`'S'` to `'s'`); every other character is unchanged; no capital is left |
| CommandMapper.Lower | whisper_demos/whisper_demos/whisper_on_key.py:84 | `lower()` keeps the length and leaves no upper-case letter |
| CommandMapper.StripLeft | whisper_demos/whisper_demos/whisper_on_key.py:84 | the result is a suffix of the input; what was removed is all strip characters; the result does not start with one |
| CommandMapper.StripRight | whisper_demos/whisper_demos/whisper_on_key.py:84 | the result is a prefix of the input; what was removed is all strip characters; the result does not end with one |
| CommandMapper.Strip | whisper_demos/whisper_demos/whisper_on_key.py:84 | `strip(' .!')` leaves no space, dot or exclamation mark at either end |
| CommandMapper.Normalize | whisper_demos/whisper_demos/whisper_on_key.py:84 | the cleaned transcript is lower-case and has no strip character at either end |
| CommandMapper.StripLeftAt | whisper_demos/whisper_demos/whisper_on_key.py:84 | the leading cut falls exactly at the first character that is not a strip character |
| CommandMapper.StripRightAt | whisper_demos/whisper_demos/whisper_on_key.py:84 | the trailing cut falls exactly after the last character that is not a strip character |
| CommandMapper.StripCharacterization | whisper_demos/whisper_demos/whisper_on_key.py:84 | any split into strip characters, a middle that neither starts nor ends with one, and strip characters determines the stripped text as that middle |
| CommandMapper.StripIsSlice | whisper_demos/whisper_demos/whisper_on_key.py:84 | stripping removes only end characters: the result is a contiguous slice of the input with only strip characters around it, so interior characters keep their order |
| CommandMapper.LowerIdempotent | whisper_demos/whisper_demos/whisper_on_key.py:84 | lower-casing text that is already lower-case changes nothing |
| CommandMapper.NormalizeIdempotent | whisper_demos/whisper_demos/whisper_on_key.py:84 | cleaning a cleaned transcript changes nothing |
| CommandMapper.StripLeftPrefix | whisper_demos/whisper_demos/whisper_on_key.py:84 | strip characters added in front do not change the leading strip |
| CommandMapper.StripRightSuffix | whisper_demos/whisper_demos/whisper_on_key.py:84 | strip characters added at the end do not change the trailing strip |
| CommandMapper.StripLeftAppend | whisper_demos/whisper_demos/whisper_on_key.py:84 | how the leading strip of a concatenation splits over its two parts |
| CommandMapper.StripIgnoresPadding | whisper_demos/whisper_demos/whisper_on_key.py:84 | stripping ignores any run of spaces, dots and exclamation marks added at either end |
| CommandMapper.NormalizeIgnoresPadding | whisper_demos/whisper_demos/whisper_on_key.py:84 | " stop. " and "stop!!" clean to the same text as "stop": cleaning ignores added padding at either end |
| CommandMapper.NormalizeIgnoresCase | whisper_demos/whisper_demos/whisper_on_key.py:84 | two transcripts that differ only in the case of ASCII letters clean to the same text |
| CommandMapper.NormalizeClean | whisper_demos/whisper_demos/whisper_on_key.py:84 | lower-case text with no strip character at its ends is its own cleaned form |
| CommandMapper.Lookup | whisper_demos/whisper_demos/whisper_on_key.py:91-108 | the if/elif chain finds a velocity iff the cleaned text is a table key, and then it is that key's velocity: stop (0, 0), forward (0.25, 0), backward (-0.25, 0), left (0, 0.25), right (0, -0.25) |
| CommandMapper.TableKeysAreClean | whisper_demos/whisper_demos/whisper_on_key.py:84-105 | every command word is already in cleaned form |
| CommandMapper.MapCommand | whisper_demos/whisper_demos/whisper_on_key.py:79-111 | one command is produced iff the cleaned transcript is a table key, with that key's velocity; otherwise the warning carries the original, uncleaned text |
| CommandMapper.MapCommandRespectsNormalize | whisper_demos/whisper_demos/whisper_on_key.py:84-111 | transcripts that clean alike are mapped to the same command |
| CommandMapper.MapCommandOfNormalized | whisper_demos/whisper_demos/whisper_on_key.py:84-111 | mapping the cleaned transcript gives the same command as mapping the raw one |
| CommandMapper.MapCommandOfKey | whisper_demos/whisper_demos/whisper_on_key.py:84-105 | a command word in any letter case, with any padding of spaces, dots and exclamation marks, selects that word's velocity |
| CommandMapper.StopExample | whisper_demos/whisper_demos/whisper_on_key.py:84-93 | " Stop!! " is the stop command (0, 0) |
| CommandMapper.ForwardExample | whisper_demos/whisper_demos/whisper_on_key.py:84-96 | "forward." cleans to "forward" and gives (0.25, 0) |
| CommandMapper.UnknownClean | whisper_demos/whisper_demos/whisper_on_key.py:84-108 | a lower-case transcript with clean edges (the empty one included) that is not a key is reported unchanged as an unknown command |
| CommandMapper.GoFasterExample | whisper_demos/whisper_demos/whisper_on_key.py:84-108 | "go faster" is no command, and the warning carries "go faster" |
| CommandMapper.EmptyTranscriptExample | whisper_demos/whisper_demos/whisper_on_key.py:84-108 | the empty transcript of a silent recording is an unknown command, and the warning carries the empty text |
| FeedbackTracker.Render | whisper_demos/whisper_demos/whisper_on_key.py:113-119 | `on_feedback` over a stream of updates: one line per update and at most one break before each; `BreakCount` gives how many breaks there are, `RenderSnoc` with `RenderOne` gives where each one falls, and `LinesInOrder` says that the lines are the transcriptions in order |
| FeedbackTracker.RenderOne | whisper_demos/whisper_demos/whisper_on_key.py:113-119 | one update breaks the line iff its batch index differs from the stored one, then shows its transcription, and shows nothing else |
| FeedbackTracker.BreakCount | whisper_demos/whisper_demos/whisper_on_key.py:113-119 | over a stream, the number of line breaks equals the number of updates whose index differs from its predecessor's (the stored index before the first) |
| FeedbackTracker.LinesInOrder | whisper_demos/whisper_demos/whisper_on_key.py:117-119 | every update's transcription is shown, once each and in order |
| FeedbackTracker.RenderSnoc | whisper_demos/whisper_demos/whisper_on_key.py:113-119 | one more update extends the display by what that update shows against the last stored index |
| FeedbackTracker.LatestWins | whisper_demos/whisper_demos/whisper_on_key.py:117-119 | the last thing shown is the latest update's transcription |
| FeedbackTracker.FirstUpdateBreaks | whisper_demos/whisper_demos/whisper_on_key.py:20 | from the initial -1, a first update with index 0 or more always breaks |
| FeedbackTracker.SegmentExample | whisper_demos/whisper_demos/whisper_on_key.py:113-119 | indices [0, 0, 1, 1] break before the first and the third update only |
| WhisperNode.CommandOutputs | whisper_demos/whisper_demos/whisper_on_key.py:91-111 | each call logs or publishes exactly one thing: a publish iff the cleaned text is a key, with its velocity, and otherwise one warning with the original text |
| WhisperNode.Init | whisper_demos/whisper_demos/whisper_on_key.py:16-37 | the constructed node runs, has sent no goal and stores batch index -1; `InitValid` shows it satisfies the invariant |
| WhisperNode.Step | whisper_demos/whisper_demos/whisper_on_key.py:39-119 | the dispatch of one event to its callback: after shutdown nothing changes, no event restarts the node, takes back a goal number or shortens the log or the display; `StepPreservesValid` shows it keeps the invariant |
| WhisperNode.Steps | whisper_demos/whisper_demos/whisper_on_key.py:131-134 | the events delivered by the spin, in order, with the same guarantees as one event; `ReachableValid` gives the invariant of every reachable state |
| WhisperNode.StepAppendsOnly | whisper_demos/whisper_demos/whisper_on_key.py:39-119 | one event only appends to the log and to the display: nothing logged or shown is rewritten |
| WhisperNode.StepsAppendOnly | whisper_demos/whisper_demos/whisper_on_key.py:39-134 | a stream of events only appends to the log and to the display |
| WhisperNode.InitValid | whisper_demos/whisper_demos/whisper_on_key.py:16-37 | the started node satisfies the invariant |
| WhisperNode.StepPreservesValid | whisper_demos/whisper_demos/whisper_on_key.py:39-119 | every event keeps the invariant |
| WhisperNode.ReachableValid | whisper_demos/whisper_demos/whisper_on_key.py:39-77 | in every reachable state, no goal's result is handled twice, a rejected goal never has a result handled, every publish or warning follows a handled result and maps its first transcription, and one goal is logged per goal sent |
| WhisperNode.EscShutsDown | whisper_demos/whisper_demos/whisper_on_key.py:40-43 | Esc stops the node and sends no goal |
| WhisperNode.SpaceAlwaysSubmits | whisper_demos/whisper_demos/whisper_on_key.py:45-59 | Space always sends exactly one new goal of one second with a fresh identifier, whatever is pending |
| WhisperNode.OtherKeyIgnored | whisper_demos/whisper_demos/whisper_on_key.py:39-48 | any other key changes nothing |
| WhisperNode.NothingAfterShutdown | whisper_demos/whisper_demos/whisper_on_key.py:40-43 | after shutdown no event changes anything |
| WhisperNode.RejectionSettles | whisper_demos/whisper_demos/whisper_on_key.py:61-65 | a rejected goal logs one error and has no result requested; any later result for it, whatever its transcriptions, changes nothing |
| WhisperNode.ResultHandledOnce | whisper_demos/whisper_demos/whisper_on_key.py:72-77 | a result logs the transcriptions and passes the first one to the mapper once, giving exactly one publish or warning; any later result for the same goal, whatever its transcriptions, changes nothing |
| WhisperNode.FeedbackStep | whisper_demos/whisper_demos/whisper_on_key.py:113-119 | a feedback message breaks the line iff its index differs, stores the new index and logs nothing |
| WhisperNode.FeedbackStream | whisper_demos/whisper_demos/whisper_on_key.py:113-119 | a stream of feedback messages leaves the last index stored and shows exactly what `Render` describes |
| WhisperNode.WhisperOnKey.constructor | whisper_demos/whisper_demos/whisper_on_key.py:16-37 | the node starts running with batch index -1, nothing pending and nothing logged |
| WhisperNode.WhisperOnKey.OnKey | whisper_demos/whisper_demos/whisper_on_key.py:39-48 | Esc shuts down, Space submits one goal, any other key changes nothing |
| WhisperNode.WhisperOnKey.OnSpace | whisper_demos/whisper_demos/whisper_on_key.py:50-59 | one goal of one second is sent and awaits acceptance; nothing else changes |
| WhisperNode.WhisperOnKey.OnGoalAccepted | whisper_demos/whisper_demos/whisper_on_key.py:61-70 | a rejection logs an error and ends the goal; an acceptance requests its result |
| WhisperNode.WhisperOnKey.OnDone | whisper_demos/whisper_demos/whisper_on_key.py:72-77 | the result is logged and its first transcription is mapped |
| WhisperNode.WhisperOnKey.SendVelocityCmds | whisper_demos/whisper_demos/whisper_on_key.py:79-111 | the log grows by exactly what `CommandOutputs` gives |
| WhisperNode.WhisperOnKey.OnFeedback | whisper_demos/whisper_demos/whisper_on_key.py:113-119 | a break iff the index differs, then the transcription; the stored index becomes the update's |
| WhisperNode.WhisperOnKey.Handle | whisper_demos/whisper_demos/whisper_on_key.py:39-119 | delivering one event to its callback has the effect `Step` specifies |
| WhisperNode.WhisperOnKey.Run | whisper_demos/whisper_demos/whisper_on_key.py:131-134 | delivering a stream of events has the effect `Steps` specifies |
| Scenarios.AcceptedWithFeedback | whisper_demos/whisper_demos/whisper_on_key.py:50-119 | Space, acceptance and two partials of batch 0 leave goal 0 awaiting its result and the screen showing one break and both lines |
| Scenarios.ForwardScenario | whisper_demos/whisper_demos/whisper_on_key.py:39-119 | Space, acceptance, two partials of batch 0 and the result "forward." publish (0.25, 0), show one segment and leave nothing pending |
| Scenarios.UnknownScenario | whisper_demos/whisper_demos/whisper_on_key.py:72-108 | a result that is no command publishes nothing and warns with the original text |
| Scenarios.RejectThenStale | whisper_demos/whisper_demos/whisper_on_key.py:50-65 | after a rejection, a stale result for the rejected goal is ignored |
| Scenarios.RejectThenRetry | whisper_demos/whisper_demos/whisper_on_key.py:50-65 | after a rejection, a stale result is ignored and the next Space sends goal 1 |
| Scenarios.RetryAccepted | whisper_demos/whisper_demos/whisper_on_key.py:50-70 | after a rejection and a stale result, the second goal is accepted and its result requested |
| Scenarios.RetryAfterRejectionScenario | whisper_demos/whisper_demos/whisper_on_key.py:50-111 | after a rejected goal, a second Space press is served normally and the result "left" publishes (0, 0.25) |
| Scenarios.EscapeScenario | whisper_demos/whisper_demos/whisper_on_key.py:39-48 | Esc first: shutdown, no goal, later keys ignored |

## Left out

- The ROS 2 middleware is not modelled: node setup, the action client, `send_goal_async` and `get_result_async` futures, the publisher, `rclpy.spin` and `rclpy.shutdown`. Its behaviour is reduced to a sequential stream of events and an output log.
- The blocking `wait_for_server(1)` retry loop in the constructor is left out. It is I/O against a remote service, with unbounded retries.
- The key-listener thread is left out, and so is any interleaving between key callbacks and action callbacks. Events are delivered one at a time.
- Terminal escape sequences and `print` formatting are abstracted to `Break` and `Line` events.
- The wording of log messages is left out. So are the info logs "Sending velocity commands for ..." and the one in `info_string`. Goal sent, rejected, accepted, result and unknown command are kept as events.
- `str.lower()` is modelled for ASCII letters only. Python also folds other Unicode upper-case letters.
- Velocities are exact `real` constants. The source's floating-point values 0.0, 0.25 and -0.25 are exactly representable, and no arithmetic is done on them.
- An empty `transcriptions` list makes `on_done` raise an IndexError. The model excludes it instead: `WellFormed` requires at least one transcription, and `OnDone` requires it too.
- Transcriptions after the first are logged but never used, as in the source.
