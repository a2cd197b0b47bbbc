/**
 * The quiet mode of `run_claude_code`: the agent's JSON-lines output is
 * read line by line, the records of the three known types are counted,
 * the status spinner advances once per counted record, and the run ends
 * with a check mark only after a clean zero exit.
 */
module EventTally {
  import opened Wrappers
  import opened Text
  import opened Json

  /** One line of the agent's output, after `json.loads`. */
  datatype StreamLine =
    | Decoded(v: Json)  // the line held a JSON document
    | NotJson           // `json.loads` raised

  /** How reading the agent's output ended. */
  datatype Ending =
    | Exited(code: int)  // the stream ended and the process exited with `code`
    | Interrupted        // `KeyboardInterrupt` while reading or waiting
    | Failed             // any other exception while reading or waiting

  /** The record types that are counted. */
  const System: string := "system"
  const Assistant: string := "assistant"
  const User: string := "user"

  /** The frames of the status spinner. */
  const Spinner: string := "|/-\\"

  /** The final marker of a clean run, and of any other run. */
  const Success: string := "✓"
  const Failure: string := "❌"

  predicate Allowed(t: string) {
    t == System || t == Assistant || t == User
  }

  /**
   * The counted type of a line, if any: a JSON object whose `type` is a
   * string naming an allowed type once stripped. Every other line is
   * ignored, either because `.get` raises on a non-object or because
   * `str()` of a missing, null, numeric, boolean, list or object `type`
   * never strips to an allowed name.
   */
  function Kind(l: StreamLine): (k: Option<string>)
    ensures k.Some? ==> Allowed(k.value)
  {
    match l
    case NotJson => None
    case Decoded(v) =>
      if !v.Obj? then None
      else
        var t := Get(v.fields, "type");
        if t.Str? && Allowed(Strip(t.s)) then Some(Strip(t.s)) else None
  }

  /** The number of lines of type `k`. */
  function Count(lines: seq<StreamLine>, k: string): nat {
    if lines == [] then 0
    else Count(lines[..|lines| - 1], k) + (if Kind(lines[|lines| - 1]) == Some(k) then 1 else 0)
  }

  /** The number of counted lines, whatever their type. */
  function Recognised(lines: seq<StreamLine>): nat {
    if lines == [] then 0
    else Recognised(lines[..|lines| - 1]) + (if Kind(lines[|lines| - 1]).Some? then 1 else 0)
  }

  /** The three counters after reading `lines`. */
  function Counts(lines: seq<StreamLine>): (r: map<string, nat>)
    ensures r.Keys == {System, Assistant, User}
  {
    map[System := Count(lines, System), Assistant := Count(lines, Assistant), User := Count(lines, User)]
  }

  /** The return code of the run: the exit status, or the initial 1 when reading was cut short. */
  function ExitCode(e: Ending): int {
    if e.Exited? then e.code else 1
  }

  /** The reading loop: each counted line bumps its counter and advances the spinner. */
  method CountEvents(lines: seq<StreamLine>) returns (counts: map<string, nat>, spinIdx: nat)
    ensures counts == Counts(lines)
    ensures spinIdx == Recognised(lines) % |Spinner|
  {
    counts := map[System := 0, Assistant := 0, User := 0];
    spinIdx := 0;
    for i := 0 to |lines|
      invariant counts == Counts(lines[..i])
      invariant spinIdx == Recognised(lines[..i]) % |Spinner|
    {
      ghost var counts0, spinIdx0 := counts, spinIdx;
      var dirty := false;
      var k := Kind(lines[i]);
      if k.Some? {
        var t := k.value;
        counts := counts[t := counts[t] + 1];
        dirty := true;
      }
      if dirty {
        spinIdx := (spinIdx + 1) % |Spinner|;
      }
      CountEventsStep(lines, i, counts0, spinIdx0, counts, spinIdx);
    }
    assert lines[..|lines|] == lines;
  }

  /**
   * The quiet-mode run: the counting loop, then the return code and the
   * final marker. Returns the counters, the spinner index, the return code
   * and the marker.
   */
  method Tally(lines: seq<StreamLine>, ending: Ending)
    returns (counts: map<string, nat>, spinIdx: nat, rc: int, marker: string)
    ensures counts == Counts(lines)
    ensures spinIdx == Recognised(lines) % |Spinner|
    ensures rc == ExitCode(ending)
    ensures marker == Success <==> ending == Exited(0)
  {
    rc := 1;
    var aborted := false;
    var errored := false;
    counts, spinIdx := CountEvents(lines);
    match ending {
      case Exited(code) => rc := code;
      case Interrupted => aborted := true;
      case Failed => errored := true;
    }
    marker := if !aborted && !errored && rc == 0 then Success else Failure;
  }

  /** Advancing the spinner once more is advancing it by one more recognised line. */
  lemma SpinnerStep(n: nat)
    ensures (n % |Spinner| + 1) % |Spinner| == (n + 1) % |Spinner|
  {
    assert |Spinner| == 4;
  }

  /** One turn of the reading loop keeps the counters and the spinner index in step with the lines read. */
  lemma CountEventsStep(lines: seq<StreamLine>, i: nat, counts0: map<string, nat>, spinIdx0: nat,
                        counts: map<string, nat>, spinIdx: nat)
    requires i < |lines|
    requires counts0 == Counts(lines[..i]) && spinIdx0 == Recognised(lines[..i]) % |Spinner|
    requires Kind(lines[i]).None? ==> counts == counts0 && spinIdx == spinIdx0
    requires Kind(lines[i]).Some? ==>
      var t := Kind(lines[i]).value;
      t in counts0 && counts == counts0[t := counts0[t] + 1] && spinIdx == (spinIdx0 + 1) % |Spinner|
    ensures counts == Counts(lines[..i + 1]) && spinIdx == Recognised(lines[..i + 1]) % |Spinner|
  {
    assert lines[..i + 1] == lines[..i] + [lines[i]];
    CountsStep(lines[..i], lines[i]);
    RecognisedStep(lines[..i], lines[i]);
    SpinnerStep(Recognised(lines[..i]));
  }

  /** Each line adds one to the counter of its type, and nothing to the others. */
  lemma CountStep(lines: seq<StreamLine>, l: StreamLine, k: string)
    ensures Count(lines + [l], k) == Count(lines, k) + (if Kind(l) == Some(k) then 1 else 0)
  {
    assert (lines + [l])[..|lines|] == lines;
  }

  /** The counters after one more line: the counter of its type, if it has one, goes up by one. */
  lemma CountsStep(lines: seq<StreamLine>, l: StreamLine)
    ensures Kind(l).None? ==> Counts(lines + [l]) == Counts(lines)
    ensures Kind(l).Some? ==>
      Counts(lines + [l]) == Counts(lines)[Kind(l).value := Counts(lines)[Kind(l).value] + 1]
  {
    var s, a, u := Count(lines, System), Count(lines, Assistant), Count(lines, User);
    CountStep(lines, l, System);
    CountStep(lines, l, Assistant);
    CountStep(lines, l, User);
    assert Counts(lines) == map[System := s, Assistant := a, User := u];
    if Kind(l).Some? {
      Bump(s, a, u, Kind(l).value);
    }
  }

  /** Raising the count of one allowed type is a one-key update of the counts. */
  lemma Bump(s: nat, a: nat, u: nat, t: string)
    requires Allowed(t)
    ensures var m := map[System := s, Assistant := a, User := u];
      map[System := s + (if t == System then 1 else 0),
          Assistant := a + (if t == Assistant then 1 else 0),
          User := u + (if t == User then 1 else 0)]
      == m[t := m[t] + 1]
  {
    assert System != Assistant && System != User && Assistant != User by {
      assert System[0] != Assistant[0] && System[0] != User[0] && Assistant[0] != User[0];
    }
  }

  /** One more line adds one recognised line when it has a counted type. */
  lemma RecognisedStep(lines: seq<StreamLine>, l: StreamLine)
    ensures Recognised(lines + [l]) == Recognised(lines) + (if Kind(l).Some? then 1 else 0)
  {
    assert (lines + [l])[..|lines|] == lines;
  }

  /** Counting is additive over concatenated output. */
  lemma {:induction false} CountAppend(a: seq<StreamLine>, b: seq<StreamLine>, k: string)
    ensures Count(a + b, k) == Count(a, k) + Count(b, k)
    decreases |b|
  {
    if b == [] {
      assert a + b == a;
    } else {
      var init, last := b[..|b| - 1], b[|b| - 1];
      var d := if Kind(last) == Some(k) then 1 else 0;
      assert a + b == (a + init) + [last];
      assert init + [last] == b;
      CountStep(a + init, last, k);
      assert Count(a + b, k) == Count(a + init, k) + d;
      CountAppend(a, init, k);
      CountStep(init, last, k);
      assert Count(b, k) == Count(init, k) + d;
    }
  }

  /** A line that is not JSON changes no counter. */
  lemma NotJsonIgnored(a: seq<StreamLine>, b: seq<StreamLine>, k: string)
    ensures Count(a + [NotJson] + b, k) == Count(a + b, k)
  {
    CountAppend(a + [NotJson], b, k);
    CountStep(a, NotJson, k);
    CountAppend(a, b, k);
  }

  /** Every counted line is counted under exactly one of the three types. */
  lemma {:induction false} RecognisedIsSum(lines: seq<StreamLine>)
    ensures Recognised(lines) == Count(lines, System) + Count(lines, Assistant) + Count(lines, User)
  {
    if lines != [] {
      RecognisedIsSum(lines[..|lines| - 1]);
    }
  }

  /** A type other than the three is never counted. */
  lemma {:induction false} OtherTypesUncounted(lines: seq<StreamLine>, k: string)
    requires !Allowed(k)
    ensures Count(lines, k) == 0
  {
    if lines != [] {
      OtherTypesUncounted(lines[..|lines| - 1], k);
    }
  }
}
