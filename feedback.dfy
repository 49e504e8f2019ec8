/**
 * What `on_feedback` shows on the terminal for a stream of partial transcripts.
 * The node keeps the batch index of the last update; an update with a different
 * index starts a new line, and every update then rewrites the current line with
 * its transcription. Terminal escape codes are abstracted to two display events.
 */
module FeedbackTracker {

  /** One feedback message of the inference action. */
  datatype Update = Update(batchIdx: int, transcription: string)

  /** A line break (`print("")`), or the current line rewritten with a text. */
  datatype Display = Break | Line(text: string)

  /** The value `batch_idx` holds before any feedback arrives. */
  const InitialBatchIdx: int := -1

  /** What a single update shows, given the batch index stored before it. */
  function RenderOne(prev: int, u: Update): (r: seq<Display>)
    ensures |r| == 1 || |r| == 2
    ensures |r| == if u.batchIdx != prev then 2 else 1
    ensures r[|r| - 1] == Line(u.transcription)
    ensures r[0] == Break <==> u.batchIdx != prev
  {
    (if u.batchIdx != prev then [Break] else []) + [Line(u.transcription)]
  }

  /**
   * What a stream of updates shows, starting from stored index `prev`: one line
   * per update, and at most one break before each.
   */
  function Render(prev: int, us: seq<Update>): (r: seq<Display>)
    ensures |us| <= |r| <= 2 * |us|
    decreases |us|
  {
    if us == [] then [] else RenderOne(prev, us[0]) + Render(us[0].batchIdx, us[1..])
  }

  /** The stored batch index after the updates `us`. */
  function LastIdx(prev: int, us: seq<Update>): int
  {
    if us == [] then prev else us[|us| - 1].batchIdx
  }

  /** The batch index an update is compared with: the previous update's, or `prev` for the first. */
  function Predecessor(prev: int, us: seq<Update>, i: nat): int
    requires i < |us|
  {
    if i == 0 then prev else us[i - 1].batchIdx
  }

  /** For each update, whether its index differs from its predecessor's. */
  function Changes(prev: int, us: seq<Update>): seq<bool>
  {
    seq(|us|, i requires 0 <= i < |us| => us[i].batchIdx != Predecessor(prev, us, i))
  }

  function CountTrue(bs: seq<bool>): nat
  {
    if bs == [] then 0 else (if bs[0] then 1 else 0) + CountTrue(bs[1..])
  }

  /** The number of line breaks in a display log. */
  function Breaks(ds: seq<Display>): nat
  {
    if ds == [] then 0 else (if ds[0] == Break then 1 else 0) + Breaks(ds[1..])
  }

  /** The texts written to the current line, in order. */
  function Lines(ds: seq<Display>): seq<string>
  {
    if ds == [] then []
    else (if ds[0].Line? then [ds[0].text] else []) + Lines(ds[1..])
  }

  function Transcriptions(us: seq<Update>): seq<string>
  {
    seq(|us|, i requires 0 <= i < |us| => us[i].transcription)
  }

  // ---------------------------------------------------------------------------
  // Properties
  // ---------------------------------------------------------------------------

  lemma {:induction false} BreaksAppend(a: seq<Display>, b: seq<Display>)
    ensures Breaks(a + b) == Breaks(a) + Breaks(b)
  {
    if a == [] {
      assert a + b == b;
    } else {
      assert (a + b)[1..] == a[1..] + b;
      BreaksAppend(a[1..], b);
    }
  }

  lemma {:induction false} LinesAppend(a: seq<Display>, b: seq<Display>)
    ensures Lines(a + b) == Lines(a) + Lines(b)
  {
    if a == [] {
      assert a + b == b;
    } else {
      assert (a + b)[1..] == a[1..] + b;
      LinesAppend(a[1..], b);
    }
  }

  /**
   * The number of line breaks equals the number of updates whose batch index
   * differs from its predecessor's (with `prev` before the first).
   */
  lemma {:induction false} BreakCount(prev: int, us: seq<Update>)
    ensures Breaks(Render(prev, us)) == CountTrue(Changes(prev, us))
    decreases |us|
  {
    if us != [] {
      var one := RenderOne(prev, us[0]);
      BreaksAppend(one, Render(us[0].batchIdx, us[1..]));
      assert Breaks(one) == if us[0].batchIdx != prev then 1 else 0 by {
        assert one == [Break, Line(us[0].transcription)] || one == [Line(us[0].transcription)];
      }
      BreakCount(us[0].batchIdx, us[1..]);
      assert Changes(prev, us)[1..] == Changes(us[0].batchIdx, us[1..]);
    }
  }

  /** Every update's transcription is written, once and in order: no update is lost. */
  lemma {:induction false} LinesInOrder(prev: int, us: seq<Update>)
    ensures Lines(Render(prev, us)) == Transcriptions(us)
    decreases |us|
  {
    if us != [] {
      var one := RenderOne(prev, us[0]);
      LinesAppend(one, Render(us[0].batchIdx, us[1..]));
      assert Lines(one) == [us[0].transcription] by {
        assert one == [Break, Line(us[0].transcription)] || one == [Line(us[0].transcription)];
      }
      LinesInOrder(us[0].batchIdx, us[1..]);
      assert Transcriptions(us) == [us[0].transcription] + Transcriptions(us[1..]);
    }
  }

  /** Rendering one more update extends the display by what that update alone shows. */
  lemma {:induction false} RenderSnoc(prev: int, us: seq<Update>, u: Update)
    ensures Render(prev, us + [u]) == Render(prev, us) + RenderOne(LastIdx(prev, us), u)
    decreases |us|
  {
    if us == [] {
      assert us + [u] == [u];
    } else {
      assert (us + [u])[1..] == us[1..] + [u];
      RenderSnoc(us[0].batchIdx, us[1..], u);
    }
  }

  /** The latest update wins: the last thing shown is the last update's transcription. */
  lemma LatestWins(prev: int, us: seq<Update>)
    requires us != []
    ensures Render(prev, us) != []
    ensures Render(prev, us)[|Render(prev, us)| - 1] == Line(us[|us| - 1].transcription)
  {
    var init := us[..|us| - 1];
    assert init + [us[|us| - 1]] == us;
    RenderSnoc(prev, init, us[|us| - 1]);
  }

  /** Starting from the initial -1, the first update with a valid index always breaks. */
  lemma FirstUpdateBreaks(us: seq<Update>)
    requires us != [] && us[0].batchIdx >= 0
    ensures Render(InitialBatchIdx, us)[0] == Break
  {
  }

  /** Indices [0, 0, 1, 1]: a break before the first and before the third update, nowhere else. */
  lemma SegmentExample(a: string, b: string, c: string, d: string)
    ensures Render(InitialBatchIdx, [Update(0, a), Update(0, b), Update(1, c), Update(1, d)])
         == [Break, Line(a), Line(b), Break, Line(c), Line(d)]
  {
    var us := [Update(0, a), Update(0, b), Update(1, c), Update(1, d)];
    var r3 := Render(1, [Update(1, d)]);
    assert [Update(1, d)][1..] == [];
    assert RenderOne(1, Update(1, d)) == [Line(d)];
    assert Render(1, []) == [];
    assert r3 == [Line(d)];
    var r2 := Render(0, [Update(1, c), Update(1, d)]);
    assert [Update(1, c), Update(1, d)][1..] == [Update(1, d)];
    assert r2 == [Break, Line(c), Line(d)];
    var r1 := Render(0, [Update(0, b), Update(1, c), Update(1, d)]);
    assert [Update(0, b), Update(1, c), Update(1, d)][1..] == [Update(1, c), Update(1, d)];
    assert r1 == [Line(b), Break, Line(c), Line(d)];
    assert us[1..] == [Update(0, b), Update(1, c), Update(1, d)];
  }
}
