/**
 * The command line the manager gives the `claude` agent: the user's extra
 * argument string is split into words, two flags are looked up in it, and
 * the headless invocation `claude -p <prompt>` is completed with an output
 * format and `--verbose` where the user did not choose them.
 */
module AgentCommand {
  import opened Wrappers
  import opened Text

  /** `[x for x in xs if x]` */
  function NonEmptyWords(xs: seq<string>): seq<string> {
    if xs == [] then [] else (if xs[0] != [] then [xs[0]] else []) + NonEmptyWords(xs[1..])
  }

  /** The filter keeps a list whose members are all non-empty as it is. */
  lemma {:induction false} NonEmptyWordsKeepsWords(xs: seq<string>)
    requires forall k :: 0 <= k < |xs| ==> IsWord(xs[k])
    ensures NonEmptyWords(xs) == xs
  {
    if xs != [] {
      NonEmptyWordsKeepsWords(xs[1..]);
    }
  }

  /**
   * `_args_list(args)`: the whitespace-separated words of `args`. The
   * emptiness filter drops nothing, since `split()` never yields an empty word.
   */
  function ArgsList(args: string): (r: seq<string>)
    ensures r == SplitWhitespace(args)
    ensures forall k :: 0 <= k < |r| ==> IsWord(r[k])
  {
    var words := SplitWhitespace(args);
    NonEmptyWordsKeepsWords(words);
    NonEmptyWords(words)
  }

  /** Words typed with single spaces between them come back unchanged. */
  lemma ArgsListOfJoined(words: seq<string>)
    requires forall k :: 0 <= k < |words| ==> IsWord(words[k])
    ensures ArgsList(JoinSpaced(words)) == words
  {
    SplitJoinSpaced(words);
  }

  /** A token that names `flag`, alone or in the `flag=value` form. */
  predicate FlagToken(a: string, flag: string) {
    a == flag || StartsWith(a, flag + "=")
  }

  /**
   * `_args_has_flag(args_list, flag)`. Its second test (`flag` followed by
   * another token) can only hold when the first one does, so the flag is
   * present exactly when some token names it.
   */
  function HasFlag(xs: seq<string>, flag: string): (r: bool)
    ensures r <==> exists i :: 0 <= i < |xs| && FlagToken(xs[i], flag)
  {
    (exists a :: a in xs && FlagToken(a, flag))
    || (exists i :: 0 <= i < |xs| && xs[i] == flag && i + 1 < |xs|)
  }

  /** The index of the first `c` in `s`. */
  function IndexOf(s: string, c: char): (n: nat)
    requires c in s
    ensures n < |s| && s[n] == c && c !in s[..n]
  {
    if s[0] == c then 0
    else
      var n := 1 + IndexOf(s[1..], c);
      assert s[..n] == [s[0]] + s[1..][..n - 1];
      n
  }

  /** `a.split("=", 1)[1]`: what follows the first `=` of `a`. */
  function AfterFirstEquals(a: string): string
    requires '=' in a
  {
    a[IndexOf(a, '=') + 1..]
  }

  /** Position `i` carries a value for `flag`: `flag` with a token after it, or `flag=value`. */
  predicate ValueAt(xs: seq<string>, flag: string, i: int) {
    0 <= i < |xs| && ((xs[i] == flag && i + 1 < |xs|) || StartsWith(xs[i], flag + "="))
  }

  /** The value that position `i` carries for `flag`. */
  function ValueOf(xs: seq<string>, flag: string, i: int): string
    requires ValueAt(xs, flag, i)
  {
    if xs[i] == flag && i + 1 < |xs| then xs[i + 1]
    else
      assert xs[i][|flag|] == (flag + "=")[|flag|];
      AfterFirstEquals(xs[i])
  }

  /** `i` is the first position at which `flag` carries a value. */
  predicate FirstValueAt(xs: seq<string>, flag: string, i: int) {
    ValueAt(xs, flag, i) && forall j :: 0 <= j < i ==> !ValueAt(xs, flag, j)
  }

  /** The scan of `_get_flag_value`, resumed at position `from`. */
  function FlagValueFrom(xs: seq<string>, flag: string, from: nat): Option<string>
    requires from <= |xs|
    decreases |xs| - from
  {
    if from == |xs| then None
    else if ValueAt(xs, flag, from) then Some(ValueOf(xs, flag, from))
    else FlagValueFrom(xs, flag, from + 1)
  }

  /** The scan from `from` finds nothing exactly when no position at or after `from` carries a value. */
  lemma {:induction false} FlagValueFromNone(xs: seq<string>, flag: string, from: nat)
    requires from <= |xs|
    ensures FlagValueFrom(xs, flag, from).None? <==> forall i :: from <= i < |xs| ==> !ValueAt(xs, flag, i)
    decreases |xs| - from
  {
    if from < |xs| && !ValueAt(xs, flag, from) {
      FlagValueFromNone(xs, flag, from + 1);
    }
  }

  /** What the scan from `from` finds is the value at the first position at or after `from` that carries one. */
  lemma {:induction false} FlagValueFromFirst(xs: seq<string>, flag: string, from: nat)
    requires from <= |xs|
    ensures var r := FlagValueFrom(xs, flag, from);
      r.Some? ==> exists i :: (from <= i < |xs| && ValueAt(xs, flag, i)
        && (forall j :: from <= j < i ==> !ValueAt(xs, flag, j)) && r.value == ValueOf(xs, flag, i))
    decreases |xs| - from
  {
    if from == |xs| {
    } else if ValueAt(xs, flag, from) {
      assert FlagValueFrom(xs, flag, from) == Some(ValueOf(xs, flag, from));
    } else {
      FlagValueFromFirst(xs, flag, from + 1);
      var r := FlagValueFrom(xs, flag, from + 1);
      if r.Some? {
        var i :| from + 1 <= i < |xs| && ValueAt(xs, flag, i)
          && (forall j :: from + 1 <= j < i ==> !ValueAt(xs, flag, j)) && r.value == ValueOf(xs, flag, i);
        assert forall j :: from <= j < i ==> !ValueAt(xs, flag, j);
      }
    }
  }

  /**
   * `_get_flag_value(args_list, flag)`: the value carried at the first
   * position that carries one, and `None` when no position does.
   */
  function GetFlagValue(xs: seq<string>, flag: string): (r: Option<string>)
    ensures r.None? <==> forall i :: 0 <= i < |xs| ==> !ValueAt(xs, flag, i)
    ensures r.Some? ==> exists i :: FirstValueAt(xs, flag, i) && r.value == ValueOf(xs, flag, i)
  {
    FlagValueFromNone(xs, flag, 0);
    FlagValueFromFirst(xs, flag, 0);
    FlagValueFrom(xs, flag, 0)
  }

  /** A flag that carries a value is present. */
  lemma FlagValueMeansFlag(xs: seq<string>, flag: string)
    requires GetFlagValue(xs, flag).Some?
    ensures HasFlag(xs, flag)
  {
    var i :| FirstValueAt(xs, flag, i);
    assert FlagToken(xs[i], flag);
  }

  /** For a flag without `=`, `flag=v` carries exactly `v`. */
  lemma EqualsFormValue(flag: string, v: string)
    requires '=' !in flag
    ensures '=' in flag + "=" + v
    ensures AfterFirstEquals(flag + "=" + v) == v
  {
    var a := flag + "=" + v;
    assert a[|flag|] == '=';
    assert a[..|flag|] == flag;
    assert IndexOf(a, '=') == |flag|;
    assert a[|flag| + 1..] == v;
  }

  /** A leading token that carries no value does not change the scan. */
  lemma {:induction false} FlagValueFromShift(a: string, xs: seq<string>, flag: string, from: nat)
    requires from <= |xs|
    requires from == 0 ==> !ValueAt([a] + xs, flag, 0)
    ensures FlagValueFrom([a] + xs, flag, from + 1) == FlagValueFrom(xs, flag, from)
    decreases |xs| - from
  {
    if from < |xs| {
      ValueAtShift(a, xs, flag, from);
      FlagValueFromShift(a, xs, flag, from + 1);
    }
  }

  lemma ValueAtShift(a: string, xs: seq<string>, flag: string, i: nat)
    requires i < |xs|
    ensures ValueAt([a] + xs, flag, i + 1) == ValueAt(xs, flag, i)
    ensures ValueAt(xs, flag, i) ==> ValueOf([a] + xs, flag, i + 1) == ValueOf(xs, flag, i)
  {
    var ys := [a] + xs;
    assert ys[i + 1] == xs[i];
    if i + 1 < |xs| {
      assert ys[i + 2] == xs[i + 1];
    }
  }

  lemma FlagValueSkipsFirst(a: string, xs: seq<string>, flag: string)
    requires !ValueAt([a] + xs, flag, 0)
    ensures GetFlagValue([a] + xs, flag) == GetFlagValue(xs, flag)
  {
    FlagValueFromShift(a, xs, flag, 0);
  }

  lemma FlagValueOfPair(v: string, xs: seq<string>, flag: string)
    ensures GetFlagValue([flag, v] + xs, flag) == Some(v)
  {
    assert ([flag, v] + xs)[0] == flag && ([flag, v] + xs)[1] == v;
  }

  /** The output format option of the agent. */
  const OutputFormatFlag: string := "--output-format"

  /** The verbosity option the agent needs to emit structured stream events. */
  const VerboseFlag: string := "--verbose"

  /** The default of `run_claude_code`'s `output_format`. */
  const StreamJson: string := "stream-json"

  /** The user chose an output format: `provided_fmt` is truthy. */
  predicate FormatProvided(extra: seq<string>) {
    var p := GetFlagValue(extra, OutputFormatFlag);
    p.Some? && p.value != []
  }

  /** `provided_fmt or output_format` */
  function EffectiveFormat(extra: seq<string>, outputFormat: string): string {
    if FormatProvided(extra) then GetFlagValue(extra, OutputFormatFlag).value else outputFormat
  }

  /** The options the manager adds between the prompt and the user's words. */
  function AddedOptions(extra: seq<string>, outputFormat: string): seq<string> {
    (if FormatProvided(extra) then [] else [OutputFormatFlag, outputFormat])
    + (if EffectiveFormat(extra, outputFormat) == StreamJson && !HasFlag(extra, VerboseFlag)
       then [VerboseFlag] else [])
  }

  /**
   * `cmd` as `run_claude_code` builds it: the headless invocation, the
   * added options, and the user's words last and unchanged.
   */
  function Command(args: string, prompt: string, outputFormat: string): (cmd: seq<string>)
    ensures 3 <= |cmd| && cmd[..3] == ["claude", "-p", prompt]
    ensures |ArgsList(args)| <= |cmd| - 3 && cmd[|cmd| - |ArgsList(args)|..] == ArgsList(args)
  {
    var extra := ArgsList(args);
    var cmd := ["claude", "-p", prompt] + AddedOptions(extra, outputFormat) + extra;
    assert cmd[|cmd| - |extra|..] == extra;
    cmd
  }

  /** `--output-format` is added exactly when the user did not choose a format. */
  lemma FormatAddedOnlyWhenMissing(extra: seq<string>, outputFormat: string)
    ensures HasFlag(AddedOptions(extra, outputFormat), OutputFormatFlag) <==> !FormatProvided(extra)
  {
    assert !StartsWith(VerboseFlag, OutputFormatFlag + "=");
    if !FormatProvided(extra) {
      assert AddedOptions(extra, outputFormat)[0] == OutputFormatFlag;
    }
  }

  /** After the prompt, a format the user chose is found past an added `--verbose`. */
  lemma ProvidedFormatFound(extra: seq<string>, outputFormat: string)
    requires FormatProvided(extra)
    ensures GetFlagValue(AddedOptions(extra, outputFormat) + extra, OutputFormatFlag) == GetFlagValue(extra, OutputFormatFlag)
  {
    var added := AddedOptions(extra, outputFormat);
    if added != [] {
      assert added == [VerboseFlag];
      assert !StartsWith(VerboseFlag, OutputFormatFlag + "=");
      FlagValueSkipsFirst(VerboseFlag, extra, OutputFormatFlag);
    } else {
      assert added + extra == extra;
    }
  }

  /** After the prompt, the added `--output-format <fmt>` pair comes first and is the one found. */
  lemma AddedFormatFound(extra: seq<string>, outputFormat: string)
    requires !FormatProvided(extra)
    ensures GetFlagValue(AddedOptions(extra, outputFormat) + extra, OutputFormatFlag) == Some(outputFormat)
  {
    var rest := AddedOptions(extra, outputFormat)[2..] + extra;
    assert AddedOptions(extra, outputFormat) + extra == [OutputFormatFlag, outputFormat] + rest;
    FlagValueOfPair(outputFormat, rest, OutputFormatFlag);
  }

  /** The format option the agent reads after the prompt is the effective format. */
  lemma CommandFormat(args: string, prompt: string, outputFormat: string)
    ensures var cmd := Command(args, prompt, outputFormat);
      GetFlagValue(cmd[3..], OutputFormatFlag) == Some(EffectiveFormat(ArgsList(args), outputFormat))
  {
    var extra := ArgsList(args);
    assert Command(args, prompt, outputFormat)[3..] == AddedOptions(extra, outputFormat) + extra;
    if FormatProvided(extra) {
      ProvidedFormatFound(extra, outputFormat);
    } else {
      AddedFormatFound(extra, outputFormat);
    }
  }

  /** `--verbose` is among the added options exactly when the manager adds it. */
  lemma AddedVerbose(extra: seq<string>, outputFormat: string)
    requires !FlagToken(outputFormat, VerboseFlag)
    ensures HasFlag(AddedOptions(extra, outputFormat), VerboseFlag)
      <==> EffectiveFormat(extra, outputFormat) == StreamJson && !HasFlag(extra, VerboseFlag)
  {
    assert !FlagToken(OutputFormatFlag, VerboseFlag) by {
      assert OutputFormatFlag[2] != VerboseFlag[2];
    }
    assert FlagToken(VerboseFlag, VerboseFlag);
    var fmt: seq<string> := if FormatProvided(extra) then [] else [OutputFormatFlag, outputFormat];
    var verbose: seq<string> := if EffectiveFormat(extra, outputFormat) == StreamJson && !HasFlag(extra, VerboseFlag)
      then [VerboseFlag] else [];
    assert AddedOptions(extra, outputFormat) == fmt + verbose;
    HasFlagAppend(fmt, verbose, VerboseFlag);
    assert !HasFlag(fmt, VerboseFlag);
    assert HasFlag(verbose, VerboseFlag) <==> verbose != [];
  }

  /**
   * `--verbose` reaches the agent exactly when the effective format is
   * `stream-json` or the user passed it, provided the format value does not
   * itself look like the verbosity option.
   */
  lemma CommandVerbose(args: string, prompt: string, outputFormat: string)
    requires !FlagToken(outputFormat, VerboseFlag)
    ensures var cmd := Command(args, prompt, outputFormat);
      HasFlag(cmd[3..], VerboseFlag)
      <==> EffectiveFormat(ArgsList(args), outputFormat) == StreamJson || HasFlag(ArgsList(args), VerboseFlag)
  {
    var extra := ArgsList(args);
    assert Command(args, prompt, outputFormat)[3..] == AddedOptions(extra, outputFormat) + extra;
    VerboseFound(extra, outputFormat);
  }

  /** After the prompt, `--verbose` is present exactly when the format is `stream-json` or the user passed it. */
  lemma VerboseFound(extra: seq<string>, outputFormat: string)
    requires !FlagToken(outputFormat, VerboseFlag)
    ensures HasFlag(AddedOptions(extra, outputFormat) + extra, VerboseFlag)
      <==> EffectiveFormat(extra, outputFormat) == StreamJson || HasFlag(extra, VerboseFlag)
  {
    HasFlagAppend(AddedOptions(extra, outputFormat), extra, VerboseFlag);
    AddedVerbose(extra, outputFormat);
  }

  /** A flag is present in a concatenation exactly when it is present in one of the parts. */
  lemma HasFlagAppend(a: seq<string>, b: seq<string>, flag: string)
    ensures HasFlag(a + b, flag) <==> HasFlag(a, flag) || HasFlag(b, flag)
  {
    var ab := a + b;
    if HasFlag(ab, flag) {
      var i :| 0 <= i < |ab| && FlagToken(ab[i], flag);
      if i >= |a| {
        assert ab[i] == b[i - |a|];
      }
    }
    if HasFlag(b, flag) {
      var i :| 0 <= i < |b| && FlagToken(b[i], flag);
      assert ab[|a| + i] == b[i];
    }
    if HasFlag(a, flag) {
      var i :| 0 <= i < |a| && FlagToken(a[i], flag);
      assert ab[i] == a[i];
    }
  }

  /** With no extra arguments the agent runs headless, streaming JSON events verbosely. */
  lemma DefaultCommand(prompt: string)
    ensures Command("", prompt, StreamJson)
      == ["claude", "-p", prompt, OutputFormatFlag, StreamJson, VerboseFlag]
  {
    assert ArgsList("") == [];
    assert !FormatProvided([]);
    assert !HasFlag([], VerboseFlag);
  }
}
