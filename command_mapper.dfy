/**
 * The text-to-velocity mapping of `send_velocity_cmds`: the final transcript is
 * lower-cased, stripped of spaces, dots and exclamation marks at both ends, and
 * looked up by exact match in a five-entry command table.
 */
module CommandMapper {

  datatype Option<T> = None | Some(value: T)

  /** The two components of a Twist message that the node sets. */
  datatype Velocity = Velocity(linearX: real, angularZ: real)

  /** What one call of `send_velocity_cmds` does: publish one command, or warn with the original text. */
  datatype Command = Move(cmd: Velocity) | Unknown(text: string)

  // ---------------------------------------------------------------------------
  // Normalisation: output.lower().strip(' .!')
  // ---------------------------------------------------------------------------

  /** The characters removed from both ends by `strip(' .!')`. */
  predicate IsStripChar(c: char) {
    c == ' ' || c == '.' || c == '!'
  }

  predicate AllStrip(s: string) {
    forall i :: 0 <= i < |s| ==> IsStripChar(s[i])
  }

  predicate IsUpper(c: char) {
    'A' <= c <= 'Z'
  }

  predicate IsLowerCase(s: string) {
    forall i :: 0 <= i < |s| ==> !IsUpper(s[i])
  }

  /** ASCII case folding of one character. */
  function LowerChar(c: char): (r: char)
    ensures !IsUpper(r)
    ensures !IsUpper(c) ==> r == c
    ensures IsUpper(c) ==> 'a' <= r <= 'z' && r as int == c as int - 'A' as int + 'a' as int
  {
    if IsUpper(c) then (c as int - 'A' as int + 'a' as int) as char else c
  }

  /** `str.lower()`, restricted to ASCII letters. */
  function Lower(s: string): (r: string)
    ensures |r| == |s| && IsLowerCase(r)
    ensures forall i :: 0 <= i < |s| ==> r[i] == LowerChar(s[i])
  {
    seq(|s|, i requires 0 <= i < |s| => LowerChar(s[i]))
  }

  /** Removes the leading run of strip characters. */
  function StripLeft(s: string): (r: string)
    ensures |r| <= |s| && r == s[|s| - |r|..]
    ensures AllStrip(s[..|s| - |r|])
    ensures r == [] || !IsStripChar(r[0])
  {
    if |s| > 0 && IsStripChar(s[0]) then
      var t := s[1..];
      var r := StripLeft(t);
      assert t[|t| - |r|..] == s[|s| - |r|..];
      assert s[..|s| - |r|] == [s[0]] + t[..|t| - |r|];
      r
    else s
  }

  /** Removes the trailing run of strip characters. */
  function StripRight(s: string): (r: string)
    ensures |r| <= |s| && r == s[..|r|]
    ensures AllStrip(s[|r|..])
    ensures r == [] || !IsStripChar(r[|r| - 1])
  {
    if |s| > 0 && IsStripChar(s[|s| - 1]) then
      var t := s[..|s| - 1];
      var r := StripRight(t);
      assert t[..|r|] == s[..|r|];
      assert s[|r|..] == t[|r|..] + [s[|s| - 1]];
      r
    else s
  }

  /** `str.strip(' .!')`. */
  function Strip(s: string): (r: string)
    ensures r == [] || (!IsStripChar(r[0]) && !IsStripChar(r[|r| - 1]))
  {
    StripRight(StripLeft(s))
  }

  /** The cleaned transcript that is looked up in the table. */
  function Normalize(s: string): (r: string)
    ensures IsLowerCase(r)
    ensures r == [] || (!IsStripChar(r[0]) && !IsStripChar(r[|r| - 1]))
  {
    Strip(Lower(s))
  }

  // ---------------------------------------------------------------------------
  // Properties of normalisation
  // ---------------------------------------------------------------------------

  /** If the first `i` characters are strip characters and the next is not, StripLeft cuts exactly there. */
  lemma {:induction false} StripLeftAt(s: string, i: nat)
    requires i <= |s| && AllStrip(s[..i])
    requires i < |s| ==> !IsStripChar(s[i])
    ensures StripLeft(s) == s[i..]
  {
    if i > 0 {
      assert IsStripChar(s[..i][0]);
      assert s[1..][..i - 1] == s[..i][1..];
      StripLeftAt(s[1..], i - 1);
      assert s[1..][i - 1..] == s[i..];
    }
  }

  /** If everything from `j` on is a strip character and the one before is not, StripRight cuts exactly there. */
  lemma {:induction false} StripRightAt(s: string, j: nat)
    requires j <= |s| && AllStrip(s[j..])
    requires 0 < j ==> !IsStripChar(s[j - 1])
    ensures StripRight(s) == s[..j]
  {
    if j < |s| {
      assert IsStripChar(s[j..][|s| - 1 - j]);
      var t := s[..|s| - 1];
      assert t[j..] == s[j..][..|s| - 1 - j];
      StripRightAt(t, j);
      assert t[..j] == s[..j];
    }
  }

  /**
   * Any split of `s` into a run of strip characters, a middle that neither starts
   * nor ends with one, and a run of strip characters determines `Strip(s)`.
   */
  lemma StripCharacterization(s: string, i: nat, j: nat)
    requires i <= j <= |s|
    requires AllStrip(s[..i]) && AllStrip(s[j..])
    requires i < j ==> !IsStripChar(s[i]) && !IsStripChar(s[j - 1])
    ensures Strip(s) == s[i..j]
  {
    if i < j {
      StripLeftAt(s, i);
      StripSliceRight(s, i, j);
    } else {
      forall k | 0 <= k < |s|
        ensures IsStripChar(s[k])
      {
        if k < i {
          assert s[..i][k] == s[k];
        } else {
          assert s[j..][k - j] == s[k];
        }
      }
      assert s[..|s|] == s;
      StripLeftAt(s, |s|);
      assert StripLeft(s) == [];
    }
  }

  lemma StripSliceRight(s: string, i: nat, j: nat)
    requires i < j <= |s|
    requires AllStrip(s[j..]) && !IsStripChar(s[j - 1])
    ensures StripRight(s[i..]) == s[i..j]
  {
    var t := s[i..];
    assert t[j - i..] == s[j..];
    assert t[j - i - 1] == s[j - 1];
    StripRightAt(t, j - i);
    assert t[..j - i] == s[i..j];
  }

  /**
   * `Strip` removes only end characters: its result is a contiguous slice of the
   * input, with nothing but strip characters on either side.
   */
  lemma StripIsSlice(s: string) returns (i: nat, j: nat)
    ensures i <= j <= |s| && Strip(s) == s[i..j]
    ensures AllStrip(s[..i]) && AllStrip(s[j..])
  {
    var l := StripLeft(s);
    i := |s| - |l|;
    j := StripRightOfSuffix(s, i);
  }

  /** Right-stripping the suffix of `s` from `i` cuts `s` at some `j` with only strip characters after it. */
  lemma StripRightOfSuffix(s: string, i: nat) returns (j: nat)
    requires i <= |s|
    ensures i <= j <= |s| && StripRight(s[i..]) == s[i..j]
    ensures AllStrip(s[j..])
  {
    var l := s[i..];
    var r := StripRight(l);
    j := i + |r|;
    assert l[|r|..] == s[j..];
    assert l[..|r|] == s[i..j];
  }

  lemma {:induction false} LowerIdempotent(s: string)
    requires IsLowerCase(s)
    ensures Lower(s) == s
  {
    assert forall i :: 0 <= i < |s| ==> Lower(s)[i] == s[i];
  }

  /** Normalisation is idempotent. */
  lemma NormalizeIdempotent(s: string)
    ensures Normalize(Normalize(s)) == Normalize(s)
  {
    NormalizeClean(Normalize(s));
  }

  lemma LowerAppend(a: string, b: string)
    ensures Lower(a + b) == Lower(a) + Lower(b)
  {
  }

  lemma LowerKeepsStrip(s: string)
    requires AllStrip(s)
    ensures Lower(s) == s
  {
    LowerIdempotent(s);
  }

  lemma {:induction false} StripLeftPrefix(p: string, t: string)
    requires AllStrip(p)
    ensures StripLeft(p + t) == StripLeft(t)
  {
    if p == [] {
      assert p + t == t;
    } else {
      assert (p + t)[1..] == p[1..] + t;
      StripLeftPrefix(p[1..], t);
    }
  }

  lemma {:induction false} StripRightSuffix(t: string, q: string)
    requires AllStrip(q)
    ensures StripRight(t + q) == StripRight(t)
  {
    if q == [] {
      assert t + q == t;
    } else {
      assert (t + q)[..|t + q| - 1] == t + q[..|q| - 1];
      StripRightSuffix(t, q[..|q| - 1]);
    }
  }

  lemma {:induction false} StripLeftAppend(t: string, q: string)
    ensures StripLeft(t + q) == if StripLeft(t) == [] then StripLeft(q) else StripLeft(t) + q
  {
    if t == [] {
      assert t + q == q;
    } else if IsStripChar(t[0]) {
      assert (t + q)[1..] == t[1..] + q;
      StripLeftAppend(t[1..], q);
    }
  }

  /** Stripping ignores any run of strip characters added at either end. */
  lemma StripIgnoresPadding(p: string, t: string, q: string)
    requires AllStrip(p) && AllStrip(q)
    ensures Strip(p + t + q) == Strip(t)
  {
    assert p + t + q == p + (t + q);
    StripLeftPrefix(p, t + q);
    StripLeftAppend(t, q);
    if StripLeft(t) == [] {
      StripLeftPrefix(q, []);
      assert q + [] == q;
    } else {
      StripRightSuffix(StripLeft(t), q);
    }
  }

  /**
   * Normalisation ignores any run of spaces, dots and exclamation marks added at
   * either end: " stop. " and "Stop!!" normalise like "stop".
   */
  lemma NormalizeIgnoresPadding(p: string, s: string, q: string)
    requires AllStrip(p) && AllStrip(q)
    ensures Normalize(p + s + q) == Normalize(s)
  {
    LowerAppend(p + s, q);
    LowerAppend(p, s);
    LowerKeepsStrip(p);
    LowerKeepsStrip(q);
    assert Lower(p + s + q) == p + Lower(s) + q;
    StripIgnoresPadding(p, Lower(s), q);
  }

  /** `a` and `b` are the same letter, or one is the ASCII capital of the other. */
  predicate SameUpToCase(a: char, b: char) {
    a == b
    || (IsUpper(a) && b as int == a as int - 'A' as int + 'a' as int)
    || (IsUpper(b) && a as int == b as int - 'A' as int + 'a' as int)
  }

  /** Normalisation ignores letter case: transcripts that differ only in case clean alike. */
  lemma NormalizeIgnoresCase(s: string, t: string)
    requires |s| == |t|
    requires forall i :: 0 <= i < |s| ==> SameUpToCase(s[i], t[i])
    ensures Normalize(s) == Normalize(t)
  {
    forall i | 0 <= i < |s|
      ensures Lower(s)[i] == Lower(t)[i]
    {
      LowerCharSameUpToCase(s[i], t[i]);
    }
    assert Lower(s) == Lower(t);
  }

  lemma LowerCharSameUpToCase(a: char, b: char)
    requires SameUpToCase(a, b)
    ensures LowerChar(a) == LowerChar(b)
  {
  }

  // ---------------------------------------------------------------------------
  // The command table
  // ---------------------------------------------------------------------------

  const Stop := Velocity(0.0, 0.0)
  const Forward := Velocity(0.25, 0.0)
  const Backward := Velocity(-0.25, 0.0)
  const Left := Velocity(0.0, 0.25)
  const Right := Velocity(0.0, -0.25)

  /** The recognised commands, as a table independent of the if/elif chain below. */
  const Table: map<string, Velocity> :=
    map["stop" := Stop, "forward" := Forward, "backward" := Backward, "left" := Left, "right" := Right]

  /** The if/elif chain on the cleaned transcript. */
  function Lookup(cleaned: string): (r: Option<Velocity>)
    ensures r.Some? <==> cleaned in Table
    ensures r.Some? ==> r.value == Table[cleaned]
  {
    if cleaned == "stop" then Some(Stop)
    else if cleaned == "forward" then Some(Forward)
    else if cleaned == "backward" then Some(Backward)
    else if cleaned == "left" then Some(Left)
    else if cleaned == "right" then Some(Right)
    else None
  }

  /**
   * `send_velocity_cmds`: a recognised transcript yields exactly the table's
   * velocity; anything else yields a warning carrying the ORIGINAL text.
   */
  function MapCommand(output: string): (r: Command)
    ensures r.Move? <==> Normalize(output) in Table
    ensures r.Move? ==> r.cmd == Table[Normalize(output)]
    ensures r.Unknown? ==> r.text == output
  {
    match Lookup(Normalize(output))
    case Some(v) => Move(v)
    case None => Unknown(output)
  }

  /** Transcripts that normalise alike are mapped alike (up to the text of the warning). */
  lemma MapCommandRespectsNormalize(a: string, b: string)
    requires Normalize(a) == Normalize(b)
    ensures MapCommand(a).Move? <==> MapCommand(b).Move?
    ensures MapCommand(a).Move? ==> MapCommand(a) == MapCommand(b)
  {
  }

  /** Mapping a cleaned transcript gives the same command as mapping the raw one. */
  lemma MapCommandOfNormalized(s: string)
    ensures MapCommand(Normalize(s)).Move? <==> MapCommand(s).Move?
    ensures MapCommand(s).Move? ==> MapCommand(Normalize(s)) == MapCommand(s)
  {
    NormalizeIdempotent(s);
  }

  /** A transcript that is already clean normalises to itself. */
  lemma NormalizeClean(s: string)
    requires IsLowerCase(s)
    requires s == [] || (!IsStripChar(s[0]) && !IsStripChar(s[|s| - 1]))
    ensures Normalize(s) == s
  {
    LowerIdempotent(s);
    if s == [] {
      StripCharacterization(s, 0, 0);
    } else {
      assert s[..0] == [] && s[|s|..] == [];
      StripCharacterization(s, 0, |s|);
    }
  }

  /** Every key of the table is already in normal form. */
  lemma TableKeysAreClean(key: string)
    requires key in Table
    ensures Normalize(key) == key
  {
    assert key == "stop" || key == "forward" || key == "backward" || key == "left" || key == "right";
    assert IsLowerCase(key);
    assert !IsStripChar(key[0]) && !IsStripChar(key[|key| - 1]);
    NormalizeClean(key);
  }

  /** Each table key, in any letter case and with any padding, selects its own velocity. */
  lemma MapCommandOfKey(p: string, word: string, q: string)
    requires Lower(word) in Table
    requires AllStrip(p) && AllStrip(q)
    ensures MapCommand(p + word + q) == Move(Table[Lower(word)])
  {
    NormalizeIgnoresPadding(p, word, q);
    NormalizeIgnoresCase(word, Lower(word));
    LowerIdempotent(Lower(word));
    TableKeysAreClean(Lower(word));
  }

  /** " Stop!! " is the stop command. */
  lemma StopExample()
    ensures MapCommand(" Stop!! ") == Move(Velocity(0.0, 0.0))
  {
    assert Lower("Stop") == "stop" by {
      assert LowerChar('S') == 's';
    }
    assert " Stop!! " == " " + "Stop" + "!! ";
    MapCommandOfKey(" ", "Stop", "!! ");
  }

  /** "forward." is the forward command. */
  lemma ForwardExample()
    ensures Normalize("forward.") == "forward"
    ensures MapCommand("forward.") == Move(Velocity(0.25, 0.0))
  {
    assert "forward." == "" + "forward" + ".";
    NormalizeIgnoresPadding("", "forward", ".");
    TableKeysAreClean("forward");
  }

  /** A clean transcript that is not a key is reported as it is. */
  lemma UnknownClean(s: string)
    requires IsLowerCase(s) && (s == [] || (!IsStripChar(s[0]) && !IsStripChar(s[|s| - 1])))
    requires s !in Table
    ensures MapCommand(s) == Unknown(s)
  {
    NormalizeClean(s);
  }

  /** "go faster" is not a command: the warning carries it unchanged. */
  lemma GoFasterExample()
    ensures MapCommand("go faster") == Unknown("go faster")
  {
    UnknownClean("go faster");
  }

  /** A silent recording gives the empty transcript, which is an unknown command too. */
  lemma EmptyTranscriptExample()
    ensures MapCommand("") == Unknown("")
  {
    UnknownClean("");
  }


}
