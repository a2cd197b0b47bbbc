/**
 * The Stop-hook gate that `ensure_hooks_config` installs into the project
 * (the script template of `_write_stop_hook_script`). Each time the agent
 * wants to stop, the gate reads the hook input, lets the agent stop once
 * the transcript holds the done token, and otherwise blocks the stop up to
 * `MAX_ASK` times per session, keeping the per-session count in a JSON
 * state file.
 */
module StopGate {
  import opened Wrappers
  import opened Text
  import opened Json

  // ----- Reading the transcript -----

  /** The length of the first line of `text` as a text file yields it: up to and including its first "\n". */
  function FirstLineEnd(text: string): (n: nat)
    requires text != []
    ensures 0 < n <= |text|
    ensures '\n' !in text[..n - 1]
    ensures n < |text| ==> text[n - 1] == '\n'
  {
    if text[0] == '\n' || |text| == 1 then 1
    else
      var n := 1 + FirstLineEnd(text[1..]);
      assert text[..n - 1] == [text[0]] + text[1..][..n - 2];
      n
  }

  /** The lines of a text file, each with its "\n" (the last one may have none). */
  function LinesOf(text: string): (lines: seq<string>)
    ensures forall k :: 0 <= k < |lines| ==> lines[k] != []
    decreases |text|
  {
    if text == [] then []
    else
      var n := FirstLineEnd(text);
      [text[..n]] + LinesOf(text[n..])
  }

  /**
   * `transcript_has_done(path, token)`, decided by the lines of the file.
   * `transcript` is the file's content as Python reads it (decoding errors
   * dropped, line ends translated to "\n"), or `None` when it cannot be
   * opened. A path that is empty, null or not a string never matches.
   */
  predicate TranscriptDone(path: Json, transcript: Option<string>, token: string) {
    path.Str? && path.s != [] && transcript.Some? && SomeLineHas(LinesOf(transcript.value), token)
  }

  /** Some line of `lines` contains `token`. */
  predicate SomeLineHas(lines: seq<string>, token: string) {
    exists k :: 0 <= k < |lines| && Contains(lines[k], token)
  }

  lemma SomeLineHasCons(l: string, ls: seq<string>, token: string)
    ensures SomeLineHas([l] + ls, token) <==> Contains(l, token) || SomeLineHas(ls, token)
  {
    var all := [l] + ls;
    if SomeLineHas(ls, token) {
      var k :| 0 <= k < |ls| && Contains(ls[k], token);
      assert all[k + 1] == ls[k];
    }
    if SomeLineHas(all, token) {
      var k :| 0 <= k < |all| && Contains(all[k], token);
      if k > 0 {
        assert ls[k - 1] == all[k];
      }
    }
    if Contains(l, token) {
      assert all[0] == l;
    }
  }

  /** `transcript_has_done`: the loop over the file's lines with its early return. */
  method TranscriptHasDone(path: Json, transcript: Option<string>, token: string) returns (found: bool)
    ensures found <==> TranscriptDone(path, transcript, token)
  {
    if !(path.Str? && path.s != []) || transcript.None? {
      return false;
    }
    var lines := LinesOf(transcript.value);
    for k := 0 to |lines|
      invariant forall j :: 0 <= j < k ==> !Contains(lines[j], token)
    {
      if Contains(lines[k], token) {
        return true;
      }
    }
    return false;
  }

  /** The lines of a text put back together give the text. */
  lemma {:induction false} LinesOfConcat(text: string)
    ensures Concat(LinesOf(text)) == text
    decreases |text|
  {
    if text != [] {
      var n := FirstLineEnd(text);
      LinesOfConcat(text[n..]);
      assert [text[..n]] + LinesOf(text[n..]) == LinesOf(text);
      assert text[..n] + text[n..] == text;
    }
  }

  function Concat(lines: seq<string>): string {
    if lines == [] then [] else lines[0] + Concat(lines[1..])
  }

  /**
   * For a non-empty token without a line break, the line-by-line search
   * finds the token exactly when it occurs anywhere in the text.
   */
  lemma {:induction false} LineSearchIsTextSearch(text: string, token: string)
    requires token != [] && '\n' !in token
    ensures SomeLineHas(LinesOf(text), token) <==> Contains(text, token)
    decreases |text|
  {
    if text != [] {
      var n := FirstLineEnd(text);
      var first, rest := text[..n], text[n..];
      assert text == first + rest;
      LineSearchIsTextSearch(rest, token);
      ContainsSplit(first, rest, token);
      SomeLineHasCons(first, LinesOf(rest), token);
    }
  }

  /** Every character under an occurrence of `token` belongs to `token`. */
  lemma CharOfOccurrence(s: string, token: string, i: int, j: int)
    requires OccursAt(s, token, i) && i <= j < i + |token|
    ensures s[j] in token
  {
    assert token[j - i] == s[i..i + |token|][j - i];
  }

  /** An occurrence of a token without line breaks cannot straddle the end of a line. */
  lemma ContainsSplit(first: string, rest: string, token: string)
    requires token != [] && '\n' !in token
    requires first != [] && '\n' !in first[..|first| - 1]
    requires rest != [] ==> first[|first| - 1] == '\n'
    ensures Contains(first + rest, token) <==> Contains(first, token) || Contains(rest, token)
  {
    var s := first + rest;
    if Contains(s, token) {
      var i :| OccursAt(s, token, i);
      if i + |token| <= |first| {
        assert s[i..i + |token|] == first[i..i + |token|];
        assert OccursAt(first, token, i);
      } else if i >= |first| {
        assert s[i..i + |token|] == rest[i - |first|..i - |first| + |token|];
        assert OccursAt(rest, token, i - |first|);
      } else {
        CharOfOccurrence(s, token, i, |first| - 1);
        assert false;
      }
    }
    if Contains(first, token) {
      var i :| OccursAt(first, token, i);
      assert s[i..i + |token|] == first[i..i + |token|];
      assert OccursAt(s, token, i);
    }
    if Contains(rest, token) {
      var i :| OccursAt(rest, token, i);
      assert s[|first| + i..|first| + i + |token|] == rest[i..i + |token|];
      assert OccursAt(s, token, |first| + i);
    }
  }

  // ----- `int()` of a stored count -----

  /** A decimal numeral as `int()` accepts it: ASCII digits, single underscores only between digits. */
  predicate Numeral(b: string) {
    b != [] && IsDigit(b[0]) && IsDigit(b[|b| - 1])
    && (forall i :: 0 <= i < |b| ==> IsDigit(b[i]) || b[i] == '_')
    && (forall i :: 0 <= i < |b| - 1 ==> !(b[i] == '_' && b[i + 1] == '_'))
  }

  /** The digits of a numeral without its underscores. */
  function WithoutUnderscores(b: string): (r: string)
    requires forall i :: 0 <= i < |b| ==> IsDigit(b[i]) || b[i] == '_'
    ensures AllDigits(r)
  {
    if b == [] then []
    else (if b[0] == '_' then [] else [b[0]]) + WithoutUnderscores(b[1..])
  }

  /**
   * `int(s)` for a string: surrounding whitespace, an optional sign and a
   * numeral; `None` where `int` raises `ValueError`.
   */
  function IntText(s: string): (r: Option<int>)
    ensures r.Some? ==> Strip(s) != []
  {
    var t := Strip(s);
    if t == [] then None
    else
      var negative := t[0] == '-';
      var body := if t[0] == '-' || t[0] == '+' then t[1..] else t;
      if !Numeral(body) then None
      else
        var n: int := DigitsValue(WithoutUnderscores(body));
        Some(if negative then -n else n)
  }

  /** A numeral free of underscores is its own digit string. */
  lemma {:induction false} WithoutUnderscoresOfDigits(b: string)
    requires AllDigits(b)
    ensures WithoutUnderscores(b) == b
  {
    if b != [] {
      WithoutUnderscoresOfDigits(b[1..]);
      assert [b[0]] + b[1..] == b;
    }
  }

  /** Whitespace-free text is its own strip. */
  lemma StripOfSolid(s: string)
    requires s != [] && !IsSpace(s[0]) && !IsSpace(s[|s| - 1])
    ensures Strip(s) == s
  {
    var r := Strip(s);
    assert LeadingSpaces(s) == 0;
    assert s[0..|s|] == s;
  }

  /** `int(str(n)) == n`: a count written as text reads back unchanged. */
  lemma IntTextOfNat(n: nat)
    ensures IntText(NatToString(n)) == Some(n)
  {
    IntTextOfDigits(NatToString(n));
    NatToStringValue(n);
  }

  /** A plain run of ASCII digits reads back as its value. */
  lemma IntTextOfDigits(t: string)
    requires t != [] && AllDigits(t)
    ensures IntText(t) == Some(DigitsValue(t))
  {
    assert IsDigit(t[0]) && IsDigit(t[|t| - 1]);
    StripOfSolid(t);
    WithoutUnderscoresOfDigits(t);
    IntTextOfClean(t);
  }

  /** A numeral without sign or surrounding whitespace reads as the value of its digits. */
  lemma IntTextOfClean(t: string)
    requires Strip(t) == t && Numeral(t) && t[0] != '-' && t[0] != '+'
    ensures IntText(t) == Some(DigitsValue(WithoutUnderscores(t)))
  {
  }

  /** `int(v)` for a value read from the state file; `None` where `int` raises. */
  function IntOf(v: Json): Option<int> {
    match v
    case Num(n) => Some(n)
    case Bool(b) => Some(if b then 1 else 0)
    case Str(s) => IntText(s)
    case _ => None
  }

  // ----- The gate -----

  /** The state file as `load_state` meets it. */
  datatype Stored =
    | Missing            // no file: `open` raises and `{}` is used
    | Unreadable         // not JSON: `json.load` raises and `{}` is used
    | Document(doc: Json) // what `json.load` returned

  /** What the gate reports, or how it ends. */
  datatype Outcome =
    | Silent                 // the hook input is not JSON: `sys.exit(0)` without output
    | Allow                  // `{"continue": true, "suppressOutput": true}`
    | Block(reason: string)  // `{"decision": "block", "reason": ..., "suppressOutput": true}`
    | Crash                  // an exception escapes `main`

  /** The values substituted into the script: `MAX_ASK` and `DONE_TOKEN`. */
  datatype Script = Script(maxAsk: int, token: string)

  /**
   * One invocation: the decoded hook input (`None` when it is not JSON),
   * the transcript as the gate would read it, whether `save_state` manages
   * to write, and Python's `str()` of a non-string session id.
   */
  datatype Call = Call(input: Option<Json>, transcript: Option<string>, saves: bool, repr: Json -> string)

  /** The reason shown to the agent when its stop is blocked. */
  function BlockReason(token: string): string {
    "続けて。実装が終了し終わっていたら、" + token + "と返して。"
  }

  /** `data.get("session_id") or ""`, as the f-string renders it. */
  function SessionText(v: Json, repr: Json -> string): string {
    if !Truthy(v) then [] else if v.Str? then v.s else repr(v)
  }

  /** `f"{sid}:asks"`: the state key of a session's count. */
  function CountKey(sid: string): string {
    sid + ":asks"
  }

  /** `data.get("transcript_path") or ""` */
  function TranscriptPath(data: map<string, Json>): Json {
    var v := Get(data, "transcript_path");
    if Truthy(v) then v else Str([])
  }

  /** The state dict `main` works on, or `None` when the file holds JSON that is not an object (`.get` raises). */
  function LoadedState(stored: Stored): Option<map<string, Json>> {
    match stored
    case Missing => Some(map[])
    case Unreadable => Some(map[])
    case Document(doc) => if doc.Obj? then Some(doc.fields) else None
  }

  /** `int(state.get(key, 0))`, or `None` when `int` raises. */
  function CountIn(state: map<string, Json>, key: string): Option<int> {
    if key in state then IntOf(state[key]) else Some(0)
  }

  /** The count `main` would read for `key` from the stored state, if reading it does not raise. */
  function Asks(stored: Stored, key: string): (r: Option<int>)
    ensures stored.Missing? || stored.Unreadable? ==> r == Some(0)
  {
    var loaded := LoadedState(stored);
    if loaded.None? then None else CountIn(loaded.value, key)
  }

  /** The state key of the session named in the hook input. */
  function KeyOf(call: Call): string
    requires call.input.Some? && call.input.value.Obj?
  {
    CountKey(SessionText(Get(call.input.value.fields, "session_id"), call.repr))
  }

  /** The transcript already holds the done token. */
  predicate Done(script: Script, call: Call)
    requires call.input.Some? && call.input.value.Obj?
  {
    TranscriptDone(TranscriptPath(call.input.value.fields), call.transcript, script.token)
  }

  /** The outcome of one invocation and the state file after it. */
  datatype Step = Step(outcome: Outcome, stored: Stored)

  /** `main()`: the gate's decision and its effect on the state file. */
  function Gate(script: Script, call: Call, stored: Stored): (r: Step)
    ensures r.outcome == Silent <==> call.input.None?
    ensures r.stored != stored ==> call.saves && r.outcome.Block?
  {
    if call.input.None? then Step(Silent, stored)
    else if !call.input.value.Obj? then Step(Crash, stored)
    else if Done(script, call) then Step(Allow, stored)
    else
      var loaded := LoadedState(stored);
      if loaded.None? then Step(Crash, stored)
      else
        var key := KeyOf(call);
        var cnt := CountIn(loaded.value, key);
        if cnt.None? then Step(Crash, stored)
        else if cnt.value < script.maxAsk then
          var state := loaded.value[key := Num(cnt.value + 1)];
          Step(Block(BlockReason(script.token)), if call.saves then Document(Obj(state)) else stored)
        else Step(Allow, stored)
  }

  /** The gate's state file, which each invocation may rewrite. */
  class StateFile {
    var stored: Stored

    constructor(initial: Stored)
      ensures stored == initial
    {
      stored := initial;
    }

    /** `main()` run once against this state file. */
    method Run(script: Script, call: Call) returns (outcome: Outcome)
      modifies this
      ensures Step(outcome, stored) == Gate(script, call, old(stored))
    {
      if call.input.None? {
        return Silent;
      }
      if !call.input.value.Obj? {
        return Crash;
      }
      var data := call.input.value.fields;
      var sid := SessionText(Get(data, "session_id"), call.repr);
      var done := TranscriptHasDone(TranscriptPath(data), call.transcript, script.token);
      if done {
        return Allow;
      }
      var loaded := LoadedState(stored);
      if loaded.None? {
        return Crash;
      }
      var state := loaded.value;
      var key := CountKey(sid);
      var cnt := CountIn(state, key);
      if cnt.None? {
        return Crash;
      }
      if cnt.value < script.maxAsk {
        state := state[key := Num(cnt.value + 1)];
        if call.saves {
          stored := Document(Obj(state));
        }
        return Block(BlockReason(script.token));
      }
      return Allow;
    }
  }

  // ----- Properties of the gate -----

  /** Once the transcript holds the done token the agent may stop, and the state file is left alone. */
  lemma DoneAllowsStop(script: Script, call: Call, stored: Stored)
    requires call.input.Some? && call.input.value.Obj? && Done(script, call)
    ensures Gate(script, call, stored) == Step(Allow, stored)
  {
  }

  /**
   * Below the limit the stop is blocked with the reason naming the token,
   * and a successful save raises this session's count by one and changes
   * no other key.
   */
  lemma BelowLimitBlocks(script: Script, call: Call, stored: Stored)
    requires call.input.Some? && call.input.value.Obj? && !Done(script, call)
    requires Asks(stored, KeyOf(call)).Some? && Asks(stored, KeyOf(call)).value < script.maxAsk
    ensures Gate(script, call, stored).outcome == Block(BlockReason(script.token))
    ensures call.saves ==> Asks(Gate(script, call, stored).stored, KeyOf(call)) == Some(Asks(stored, KeyOf(call)).value + 1)
    ensures call.saves ==> forall k :: k != KeyOf(call) && k in LoadedState(stored).value ==>
      k in LoadedState(Gate(script, call, stored).stored).value
      && LoadedState(Gate(script, call, stored).stored).value[k] == LoadedState(stored).value[k]
    ensures call.saves ==> forall k :: k != KeyOf(call) ==>
      (k in LoadedState(Gate(script, call, stored).stored).value <==> k in LoadedState(stored).value)
    ensures !call.saves ==> Gate(script, call, stored).stored == stored
  {
    var key := KeyOf(call);
    var loaded := LoadedState(stored).value;
    var cnt := CountIn(loaded, key).value;
    var state := loaded[key := Num(cnt + 1)];
    assert Gate(script, call, stored)
      == Step(Block(BlockReason(script.token)), if call.saves then Document(Obj(state)) else stored);
    if call.saves {
      assert LoadedState(Document(Obj(state))) == Some(state);
      assert CountIn(state, key) == Some(cnt + 1);
    }
  }

  /** At or above the limit the agent may stop, and the state file is left alone. */
  lemma AtLimitAllows(script: Script, call: Call, stored: Stored)
    requires call.input.Some? && call.input.value.Obj? && !Done(script, call)
    requires Asks(stored, KeyOf(call)).Some? && Asks(stored, KeyOf(call)).value >= script.maxAsk
    ensures Gate(script, call, stored) == Step(Allow, stored)
  {
  }

  /** A count that is within the limit stays within it, for every session. */
  lemma CountStaysWithinLimit(script: Script, call: Call, stored: Stored, key: string)
    requires Asks(stored, key).Some? && Asks(stored, key).value <= script.maxAsk
    ensures Asks(Gate(script, call, stored).stored, key).Some?
    ensures Asks(Gate(script, call, stored).stored, key).value <= script.maxAsk
  {
  }

  /** Another session's count is never changed. */
  lemma OtherSessionsUntouched(script: Script, call: Call, stored: Stored, key: string)
    requires call.input.Some? && call.input.value.Obj? && key != KeyOf(call)
    requires LoadedState(stored).Some?
    ensures Asks(Gate(script, call, stored).stored, key) == Asks(stored, key)
  {
  }

  /** The state file after `n` invocations with the same input. */
  function Repeat(script: Script, call: Call, stored: Stored, n: nat): Stored {
    if n == 0 then stored else Gate(script, call, Repeat(script, call, stored, n - 1)).stored
  }

  /**
   * A session that has no count yet, whose transcript never shows the token
   * and whose saves succeed, is blocked on asks 1 to `MAX_ASK` and allowed
   * to stop on the next one.
   */
  lemma {:induction false} FreshSession(script: Script, call: Call, stored: Stored, n: nat)
    requires call.input.Some? && call.input.value.Obj? && !Done(script, call) && call.saves
    requires Asks(stored, KeyOf(call)) == Some(0)
    requires n <= script.maxAsk
    ensures Asks(Repeat(script, call, stored, n), KeyOf(call)) == Some(n)
    ensures n < script.maxAsk ==> Gate(script, call, Repeat(script, call, stored, n)).outcome == Block(BlockReason(script.token))
    ensures n == script.maxAsk ==> Gate(script, call, Repeat(script, call, stored, n)).outcome == Allow
  {
    if n > 0 {
      FreshSession(script, call, stored, n - 1);
      BelowLimitBlocks(script, call, Repeat(script, call, stored, n - 1));
    }
  }
}
