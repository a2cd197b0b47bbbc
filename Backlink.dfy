/**
 * Linking a finished work item to its pull request: `pr_number_from_url`
 * reads the number out of a pull-request URL, and `update_todo_with_pr`
 * ticks the item's line in the checklist file and appends a link.
 *
 * The rewrite works on the file's text as `read_text` returns it, so line
 * ends are already "\n". The source rewrites with
 * `re.compile(rf"^- \[ \] {re.escape(title)}\s*$", re.MULTILINE).subn(...)`;
 * `UpdateTodoAsWritten` models that call, and `UpdateTodo` is the
 * rewrite the source evidently intends (see the two lemmas on each).
 */
module Backlink {
  import opened Wrappers
  import opened Text

  // ----- pr_number_from_url -----

  /** The text searched for ahead of the number. */
  const PullSegment: string := "/pull/"

  /** `/pull/(\d+)` matches at `i`: the segment followed by at least one digit. */
  predicate PullAt(url: string, i: int) {
    0 <= i && i + |PullSegment| < |url| && url[i..i + |PullSegment|] == PullSegment
    && IsDigit(url[i + |PullSegment|])
  }

  /** The length of the run of digits starting at `from`. */
  function DigitRun(s: string, from: nat): (n: nat)
    requires from <= |s|
    ensures from + n <= |s| && AllDigits(s[from..from + n])
    ensures from + n < |s| ==> !IsDigit(s[from + n])
    decreases |s| - from
  {
    if from == |s| || !IsDigit(s[from]) then 0
    else
      var n := 1 + DigitRun(s, from + 1);
      assert forall i :: from + 1 <= i < from + n ==> IsDigit(s[i]);
      n
  }

  /** The number that `/pull/(\d+)` captures at `i`: the whole run of digits. */
  function NumberAt(url: string, i: int): nat
    requires PullAt(url, i)
  {
    var d := i + |PullSegment|;
    DigitsValue(url[d..d + DigitRun(url, d)])
  }

  /** The leftmost-first search of `re.search`, resumed at `from`. */
  function PrNumberFrom(url: string, from: nat): Option<nat>
    decreases |url| - from
  {
    if from >= |url| then None
    else if PullAt(url, from) then Some(NumberAt(url, from))
    else PrNumberFrom(url, from + 1)
  }

  lemma {:induction false} PrNumberFromNone(url: string, from: nat)
    ensures PrNumberFrom(url, from).None? <==> forall i :: from <= i ==> !PullAt(url, i)
    decreases |url| - from
  {
    if from < |url| && !PullAt(url, from) {
      PrNumberFromNone(url, from + 1);
    }
  }

  lemma {:induction false} PrNumberFromSome(url: string, from: nat) returns (i: nat)
    requires PrNumberFrom(url, from).Some?
    ensures from <= i && PullAt(url, i) && PrNumberFrom(url, from).value == NumberAt(url, i)
    ensures forall j :: from <= j < i ==> !PullAt(url, j)
    decreases |url| - from
  {
    if PullAt(url, from) {
      i := from;
    } else {
      i := PrNumberFromSome(url, from + 1);
    }
  }

  /**
   * `pr_number_from_url(url)`: the number after the first `/pull/` that is
   * followed by a digit, read up to the first non-digit; `None` when there
   * is no such place.
   */
  function PrNumber(url: string): (r: Option<nat>)
    ensures r.None? <==> forall i :: !PullAt(url, i)
    ensures r.Some? ==> exists i :: (PullAt(url, i) && (forall j :: 0 <= j < i ==> !PullAt(url, j))
      && r.value == NumberAt(url, i))
  {
    PrNumberFromNone(url, 0);
    assert PrNumberFrom(url, 0).Some? ==> exists i :: (PullAt(url, i) && (forall j :: 0 <= j < i ==> !PullAt(url, j))
      && PrNumberFrom(url, 0).value == NumberAt(url, i)) by {
      if PrNumberFrom(url, 0).Some? {
        var i := PrNumberFromSome(url, 0);
      }
    }
    PrNumberFrom(url, 0)
  }

  /** Skipping places where nothing matches does not change the search. */
  lemma {:induction false} PrNumberFromSkips(url: string, from: nat, until: nat)
    requires from <= until
    requires forall j :: from <= j < until ==> !PullAt(url, j)
    ensures PrNumberFrom(url, from) == PrNumberFrom(url, until)
    decreases until - from
  {
    if from < until && from < |url| {
      PrNumberFromSkips(url, from + 1, until);
    }
  }

  /** The digits of a number in a URL, ended by a non-digit or the end, read back as that number. */
  lemma PrNumberOfUrl(pre: string, n: nat, post: string)
    requires post == [] || !IsDigit(post[0])
    requires forall j :: 0 <= j < |pre| ==> !PullAt(pre + PullSegment + NatToString(n) + post, j)
    ensures PrNumber(pre + PullSegment + NatToString(n) + post) == Some(n)
  {
    var digits := NatToString(n);
    var url := pre + PullSegment + digits + post;
    var d := |pre| + |PullSegment|;
    assert url[|pre|..d] == PullSegment;
    assert url[d..d + |digits|] == digits;
    assert PullAt(url, |pre|);
    PrNumberFromSkips(url, 0, |pre|);
    assert DigitRun(url, d) == |digits| by {
      DigitRunOf(url, d, |digits|);
    }
    NatToStringValue(n);
  }

  lemma DigitRunOf(s: string, from: nat, n: nat)
    requires from + n <= |s| && AllDigits(s[from..from + n])
    requires from + n < |s| ==> !IsDigit(s[from + n])
    ensures DigitRun(s, from) == n
    decreases n
  {
    if n > 0 {
      assert IsDigit(s[from..from + n][0]);
      assert s[from + 1..from + n] == s[from..from + n][1..];
      DigitRunOf(s, from + 1, n - 1);
    }
  }

  /**
   * The link appended to a ticked line: ` [#n](url)` for a pull-request
   * URL, ` (url)` for any other URL, nothing without a URL (`None` or "").
   */
  function Suffix(prUrl: Option<string>): (r: string)
    ensures r == [] <==> prUrl.None? || prUrl.value == []
    ensures r != [] ==> r[0] == ' ' && r[|r| - 1] == ')'
  {
    if prUrl.None? || prUrl.value == [] then []
    else
      var url := prUrl.value;
      match PrNumber(url)
      case Some(n) => " [#" + NatToString(n) + "](" + url + ")"
      case None => " (" + url + ")"
  }

  /** A pull-request URL is linked as ` [#n](url)`, with `n` the number it holds. */
  lemma SuffixOfPullRequest(pre: string, n: nat, post: string)
    requires post == [] || !IsDigit(post[0])
    requires forall j :: 0 <= j < |pre| ==> !PullAt(pre + PullSegment + NatToString(n) + post, j)
    ensures var url := pre + PullSegment + NatToString(n) + post;
      Suffix(Some(url)) == " [#" + NatToString(n) + "](" + url + ")"
  {
    PrNumberOfUrl(pre, n, post);
  }

  /** Any other non-empty URL is linked as ` (url)`, and no URL adds nothing. */
  lemma SuffixOfOtherUrl(url: string)
    ensures url != [] && (forall i :: !PullAt(url, i)) ==> Suffix(Some(url)) == " (" + url + ")"
    ensures Suffix(Some([])) == [] && Suffix(None) == []
  {
  }

  // ----- The line pattern -----

  /** The unchecked box that the pattern requires at the start of the line. */
  const OpenBox: string := "- [ ] "

  /** The checked box written in its place. */
  const DoneBox: string := "- [x] "

  /** MULTILINE `^`: the start of the text or just after a "\n". */
  predicate LineStartAt(text: string, p: int) {
    p == 0 || (0 < p <= |text| && text[p - 1] == '\n')
  }

  /** MULTILINE `$`: the end of the text or just before a "\n". */
  predicate LineEndAt(text: string, e: int) {
    e == |text| || (0 <= e < |text| && text[e] == '\n')
  }

  /** `^- \[ \] <title>` matches at `p`; the rest of the pattern starts at `p + |OpenBox + title|`. */
  predicate HeadAt(text: string, title: string, p: int) {
    0 <= p <= |text| && LineStartAt(text, p) && StartsWith(text[p..], OpenBox + title)
  }

  /**
   * Greedy `\s*$` after backing off: the largest end in `q..q + k` at which
   * `$` holds, or `None`.
   */
  function BackOff(text: string, q: nat, k: nat): (r: Option<nat>)
    requires q + k <= |text|
    ensures r.Some? ==> q <= r.value <= q + k && LineEndAt(text, r.value)
    ensures r.Some? ==> forall j :: r.value < j <= q + k ==> !LineEndAt(text, j)
    ensures r.None? ==> forall j :: q <= j <= q + k ==> !LineEndAt(text, j)
    decreases k
  {
    if LineEndAt(text, q + k) then Some(q + k)
    else if k == 0 then None
    else BackOff(text, q, k - 1)
  }

  /**
   * The end of the match of the whole pattern at `p`, as `re` finds it:
   * `\s*` first takes the entire run of whitespace after the title, line
   * breaks included, and then gives characters back until `$` holds.
   */
  function MatchEnd(text: string, title: string, p: int): Option<nat> {
    if !HeadAt(text, title, p) then None
    else
      var q := p + |OpenBox + title|;
      BackOff(text, q, LeadingSpaces(text[q..]))
  }

  /** The match at `p` ends at `e`, and no match starts before `p`. */
  predicate IsFirstMatch(text: string, title: string, p: int, e: int) {
    MatchEnd(text, title, p) == Some(e) && forall p' :: 0 <= p' < p ==> MatchEnd(text, title, p').None?
  }

  /** The leftmost match at or after `from`: its start and end. */
  function FirstMatchFrom(text: string, title: string, from: nat): Option<(nat, nat)>
    decreases |text| + 1 - from
  {
    if from > |text| then None
    else if MatchEnd(text, title, from).Some? then Some((from, MatchEnd(text, title, from).value))
    else FirstMatchFrom(text, title, from + 1)
  }

  lemma {:induction false} FirstMatchFromNone(text: string, title: string, from: nat)
    ensures FirstMatchFrom(text, title, from).None? <==> forall p :: from <= p ==> MatchEnd(text, title, p).None?
    decreases |text| + 1 - from
  {
    if from <= |text| && MatchEnd(text, title, from).None? {
      FirstMatchFromNone(text, title, from + 1);
    }
  }

  lemma {:induction false} FirstMatchFromSome(text: string, title: string, from: nat)
    requires FirstMatchFrom(text, title, from).Some?
    ensures var r := FirstMatchFrom(text, title, from).value;
      from <= r.0 && MatchEnd(text, title, r.0) == Some(r.1)
    ensures var r := FirstMatchFrom(text, title, from).value;
      forall p :: from <= p < r.0 ==> MatchEnd(text, title, p).None?
    decreases |text| + 1 - from
  {
    if MatchEnd(text, title, from).None? {
      FirstMatchFromSome(text, title, from + 1);
    }
  }

  /**
   * The match `subn(..., count=1)` replaces: the leftmost one, with the end
   * `re` gives it; `None` when the pattern matches nowhere.
   */
  function FirstMatch(text: string, title: string): (r: Option<(nat, nat)>)
    ensures r.None? <==> forall p :: MatchEnd(text, title, p).None?
    ensures r.Some? ==> IsFirstMatch(text, title, r.value.0, r.value.1)
  {
    FirstMatchFromNone(text, title, 0);
    assert forall p :: p < 0 ==> MatchEnd(text, title, p).None?;
    assert FirstMatchFrom(text, title, 0).Some? ==> IsFirstMatch(text, title, FirstMatchFrom(text, title, 0).value.0, FirstMatchFrom(text, title, 0).value.1) by {
      if FirstMatchFrom(text, title, 0).Some? {
        FirstMatchFromSome(text, title, 0);
      }
    }
    FirstMatchFrom(text, title, 0)
  }

  /** A match covers the open line of the title and whitespace after it, and ends where `$` holds. */
  lemma MatchShape(text: string, title: string, p: int)
    requires MatchEnd(text, title, p).Some?
    ensures var e := MatchEnd(text, title, p).value;
      var q := p + |OpenBox + title|;
      0 <= p && q <= e <= |text| && LineStartAt(text, p) && LineEndAt(text, e)
      && text[p..q] == OpenBox + title
      && (forall i :: q <= i < e ==> IsSpace(text[i]))
  {
    var q := p + |OpenBox + title|;
    var w := LeadingSpaces(text[q..]);
    var e := MatchEnd(text, title, p).value;
    assert HeadAt(text, title, p) && q <= e <= q + w <= |text|;
    assert text[p..q] == OpenBox + title by {
      assert text[p..][..|OpenBox + title|] == text[p..q];
    }
    forall i | q <= i < e
      ensures IsSpace(text[i])
    {
      assert text[q..][i - q] == text[i];
    }
  }

  // ----- The replacement template of `re` -----

  /** A piece of a compiled replacement template: literal text, or the whole match (`\g<0>`). */
  datatype Piece = Lit(s: string) | WholeMatch

  /** `re.error` (or `IndexError` for an unknown group name) raised while compiling the template. */
  datatype TemplateError = InvalidTemplate

  predicate IsOctal(c: char) {
    '0' <= c <= '7'
  }

  predicate IsAsciiLetter(c: char) {
    ('a' <= c <= 'z') || ('A' <= c <= 'Z')
  }

  /** The character of a one-letter escape in a template (`\a \b \f \n \r \t \v \\`), if `c` names one. */
  function LetterEscape(c: char): Option<char> {
    if c == 'a' then Some(7 as char)
    else if c == 'b' then Some(8 as char)
    else if c == 'f' then Some(12 as char)
    else if c == 'n' then Some(10 as char)
    else if c == 'r' then Some(13 as char)
    else if c == 't' then Some(9 as char)
    else if c == 'v' then Some(11 as char)
    else if c == '\\' then Some('\\')
    else None
  }

  /** The index of the first `>` at or after `from`, or `|t|`. */
  function CloseAngle(t: string, from: nat): (n: nat)
    requires from <= |t|
    ensures from <= n <= |t| && (n < |t| ==> t[n] == '>')
    decreases |t| - from
  {
    if from == |t| || t[from] == '>' then from else CloseAngle(t, from + 1)
  }

  function OctalValue(s: string): nat
    requires forall i :: 0 <= i < |s| ==> IsOctal(s[i])
  {
    if s == [] then 0
    else
      assert IsOctal(s[|s| - 1]);
      8 * OctalValue(s[..|s| - 1]) + (s[|s| - 1] as int - '0' as int)
  }

  /** The number of octal digits (at most `max`) starting at `from`. */
  function OctalRun(t: string, from: nat, max: nat): (n: nat)
    requires from <= |t|
    ensures n <= max && from + n <= |t|
    ensures forall i :: from <= i < from + n ==> IsOctal(t[i])
    decreases max
  {
    if max == 0 || from == |t| || !IsOctal(t[from]) then 0 else 1 + OctalRun(t, from + 1, max - 1)
  }

  /**
   * The escape starting with the backslash at `i` in a template of the
   * template compiler of `re` (`_parser.parse_template`), for a pattern
   * without groups: the piece it stands for and the position after it.
   */
  function EscapeAt(t: string, i: nat): (r: Result<(Piece, nat), TemplateError>)
    requires i < |t| && t[i] == '\\'
    ensures r.Ok? ==> i < r.value.1 <= |t|
  {
    if i + 1 == |t| then Err(InvalidTemplate)
    else
      var c := t[i + 1];
      if c == 'g' then
        // `\g<name>`: only a decimal name with value 0, the whole match, is valid here
        if i + 2 < |t| && t[i + 2] == '<' then
          var close := CloseAngle(t, i + 3);
          var name := t[i + 3..close];
          if close < |t| && name != [] && AllDigits(name) && DigitsValue(name) == 0
          then Ok((WholeMatch, close + 1))
          else Err(InvalidTemplate)
        else Err(InvalidTemplate)
      else if c == '0' then
        // `\0` and up to two more octal digits, taken modulo 256
        var n := OctalRun(t, i + 2, 2);
        Ok((Lit([(OctalValue(t[i + 1..i + 2 + n]) % 256) as char]), i + 2 + n))
      else if IsDigit(c) then
        // three octal digits up to 0o377 are a character; anything else refers to a group
        if i + 3 < |t| && IsOctal(c) && IsOctal(t[i + 2]) && IsOctal(t[i + 3]) then
          var v := OctalValue(t[i + 1..i + 4]);
          if v > 255 then Err(InvalidTemplate) else Ok((Lit([v as char]), i + 4))
        else Err(InvalidTemplate)
      else if LetterEscape(c).Some? then Ok((Lit([LetterEscape(c).value]), i + 2))
      else if IsAsciiLetter(c) then Err(InvalidTemplate)
      else Ok((Lit(['\\', c]), i + 2))
  }

  /** The compiled template from position `i` on: plain characters are literal, escapes as `EscapeAt` reads them. */
  function ParseTemplateFrom(t: string, i: nat): Result<seq<Piece>, TemplateError>
    decreases |t| - i
  {
    if i >= |t| then Ok([])
    else if t[i] != '\\' then Prepend(Lit([t[i]]), ParseTemplateFrom(t, i + 1))
    else
      var esc := EscapeAt(t, i);
      if esc.Err? then Err(InvalidTemplate)
      else Prepend(esc.value.0, ParseTemplateFrom(t, esc.value.1))
  }

  function Prepend(p: Piece, rest: Result<seq<Piece>, TemplateError>): Result<seq<Piece>, TemplateError> {
    if rest.Err? then rest else Ok([p] + rest.value)
  }

  /** The text a compiled template produces for a match whose text is `whole`. */
  function Expand(pieces: seq<Piece>, whole: string): string {
    if pieces == [] then []
    else (match pieces[0] case Lit(s) => s case WholeMatch => whole) + Expand(pieces[1..], whole)
  }

  /** A template without backslashes is plain text. */
  lemma PlainTemplate(t: string, i: nat, whole: string)
    requires i <= |t| && '\\' !in t[i..]
    ensures ParseTemplateFrom(t, i).Ok?
    ensures Expand(ParseTemplateFrom(t, i).value, whole) == t[i..]
  {
    forall k | i <= k < |t|
      ensures t[k] != '\\'
    {
      assert t[k] == t[i..][k - i];
    }
    PlainStretch(t, i, |t|, whole);
    assert t[i..|t|] + [] == t[i..];
  }

  /** A backslash followed by an ASCII letter that names no escape makes the template invalid. */
  lemma {:induction false} BadLetterEscape(t: string, i: nat, j: nat)
    requires i <= j && j + 1 < |t| && t[j] == '\\' && IsAsciiLetter(t[j + 1])
    requires t[j + 1] != 'g' && LetterEscape(t[j + 1]).None?
    requires '\\' !in t[i..j]
    ensures ParseTemplateFrom(t, i).Err?
    decreases j - i
  {
    if i < j {
      assert t[i] == t[i..j][0];
      assert t[i + 1..j] == t[i..j][1..];
      BadLetterEscape(t, i + 1, j);
    }
  }

  // ----- update_todo_with_pr -----

  /** What the call leaves in the checklist file. */
  datatype Update =
    | Unchanged               // the function returns False and writes nothing
    | Rewritten(text: string) // the function writes `text` and returns True

  /** The text written in place of the matched line. */
  function DoneLine(title: string, prUrl: Option<string>): (r: string)
    ensures DoneBox + title <= r
  {
    DoneBox + title + Suffix(prUrl)
  }

  /**
   * `update_todo_with_pr` as written: `file` is the checklist's
   * text (`None` when it does not exist). The replacement goes through the
   * template compiler of `re`, which raises before any search when it
   * rejects the title or URL, and the match ends where greedy `\s*$` ends.
   */
  function UpdateTodoAsWritten(file: Option<string>, title: string, prUrl: Option<string>): (r: Result<Update, TemplateError>)
    ensures file.None? ==> r == Ok(Unchanged)
    ensures file.Some? && '\\' !in DoneLine(title, prUrl) ==> r.Ok?
    ensures r.Ok? && r.value.Rewritten? ==> file.Some? && FirstMatch(file.value, title).Some?
  {
    if file.None? then Ok(Unchanged)
    else
      var text := file.value;
      var repl := DoneLine(title, prUrl);
      var template := ParseTemplateFrom(repl, 0);
      assert '\\' !in repl ==> template.Ok? by {
        if '\\' !in repl {
          PlainTemplate(repl, 0, []);
        }
      }
      if template.Err? then Err(InvalidTemplate)
      else
        match FirstMatch(text, title)
        case None => Ok(Unchanged)
        case Some(m) =>
          var p, e := m.0, m.1;
          MatchShape(text, title, p);
          Ok(Rewritten(text[..p] + Expand(template.value, text[p..e]) + text[e..]))
  }

  /** With no backslash in the replacement, the rewrite as written inserts it as it is. */
  lemma PlainRewrite(text: string, title: string, prUrl: Option<string>)
    requires '\\' !in DoneLine(title, prUrl)
    ensures var m := FirstMatch(text, title);
      UpdateTodoAsWritten(Some(text), title, prUrl)
      == if m.None? then Ok(Unchanged)
         else Ok(Rewritten(text[..m.value.0] + DoneLine(title, prUrl) + text[m.value.1..]))
  {
    var repl := DoneLine(title, prUrl);
    var m := FirstMatch(text, title);
    if m.Some? {
      var p, e := m.value.0, m.value.1;
      MatchShape(text, title, p);
      PlainTemplate(repl, 0, text[p..e]);
      assert repl[0..] == repl;
    } else {
      PlainTemplate(repl, 0, []);
    }
  }

  /**
   * As written, a plain title and URL replace the leftmost match, which
   * starts with the open line of the title; the file is left alone when
   * there is no match.
   */
  lemma AsWrittenRewritesFirstMatch(text: string, title: string, prUrl: Option<string>)
    requires '\\' !in DoneLine(title, prUrl)
    ensures UpdateTodoAsWritten(Some(text), title, prUrl).Ok?
    ensures UpdateTodoAsWritten(Some(text), title, prUrl).value.Unchanged?
      <==> forall p :: MatchEnd(text, title, p).None?
    ensures var r := UpdateTodoAsWritten(Some(text), title, prUrl).value;
      r.Rewritten? ==> exists p, e :: (IsFirstMatch(text, title, p, e) && HeadAt(text, title, p)
        && p + |OpenBox + title| <= e <= |text| && r.text == text[..p] + DoneLine(title, prUrl) + text[e..])
  {
    PlainRewrite(text, title, prUrl);
    var m := FirstMatch(text, title);
    if m.Some? {
      var p, e := m.value.0, m.value.1;
      MatchShape(text, title, p);
      assert IsFirstMatch(text, title, p, e);
    }
  }

  // Finding 1: `\s*` also matches "\n", so the match runs on through the
  // line breaks that follow the title as long as `$` can still hold.

  /** The item's line is the last of a file that ends in "\n": the rewrite drops that final "\n". */
  lemma AsWrittenDropsFinalNewline(title: string)
    requires '\\' !in title
    ensures UpdateTodoAsWritten(Some(OpenBox + title + "\n"), title, None) == Ok(Rewritten(DoneBox + title))
  {
    var text := OpenBox + title + "\n";
    var q := |OpenBox + title|;
    assert FirstMatch(text, title) == Some((0, |text|)) by {
      assert MatchEnd(text, title, 0) == Some(|text|) by {
        TitleLineHead(title, "\n");
        assert LeadingSpaces(text[q..]) == 1 by {
          assert IsSpace(text[q..][0]);
          assert text[q..][1..] == [];
        }
      }
      FirstMatchAtStart(text, title);
    }
    AsWrittenAtStart(text, title, |text|);
    assert DoneLine(title, None) + text[|text|..] == DoneBox + title;
  }

  lemma AsWrittenSwallowsBlankLine(title: string, rest: string)
    requires '\\' !in title
    requires rest != [] && !IsSpace(rest[0])
    ensures UpdateTodoAsWritten(Some(OpenBox + title + "\n\n" + rest), title, None)
      == Ok(Rewritten(DoneBox + title + "\n" + rest))
  {
    var text := OpenBox + title + "\n\n" + rest;
    var q := |OpenBox + title|;
    assert FirstMatch(text, title) == Some((0, q + 1)) by {
      BlankLineMatchEnd(title, rest);
      FirstMatchAtStart(text, title);
    }
    AsWrittenAtStart(text, title, q + 1);
    BlankLineRest(title, rest);
  }

  /** What is left after the match of the blank-line case, behind the done line. */
  lemma BlankLineRest(title: string, rest: string)
    ensures var text := OpenBox + title + "\n\n" + rest;
      |OpenBox + title| + 1 <= |text|
      && DoneLine(title, None) + text[|OpenBox + title| + 1..] == DoneBox + title + "\n" + rest
  {
    var text := OpenBox + title + "\n\n" + rest;
    var q := |OpenBox + title|;
    TitleLineHead(title, "\n\n" + rest);
    assert text == OpenBox + title + ("\n\n" + rest);
    assert text[q + 1..] == "\n" + rest;
    assert DoneLine(title, None) == DoneBox + title;
    assert DoneBox + title + ("\n" + rest) == DoneBox + title + "\n" + rest;
  }

  /** With a plain title, the first match starting the text, ending at `e`, leaves the done line and `text[e..]`. */
  lemma AsWrittenAtStart(text: string, title: string, e: nat)
    requires '\\' !in title && e <= |text|
    requires FirstMatch(text, title) == Some((0, e))
    ensures UpdateTodoAsWritten(Some(text), title, None) == Ok(Rewritten(DoneLine(title, None) + text[e..]))
  {
    assert '\\' !in DoneLine(title, None) by {
      assert DoneLine(title, None) == DoneBox + title;
    }
    PlainRewrite(text, title, None);
    EmptyHead(text, DoneLine(title, None), e);
  }

  lemma EmptyHead<T>(xs: seq<T>, ys: seq<T>, e: nat)
    requires e <= |xs|
    ensures xs[..0] + ys + xs[e..] == ys + xs[e..]
  {
    assert xs[..0] == [];
  }

  /** With a blank line after the title's line, `\\s*` takes both line breaks and gives back one. */
  lemma BlankLineMatchEnd(title: string, rest: string)
    requires rest != [] && !IsSpace(rest[0])
    ensures MatchEnd(OpenBox + title + "\n\n" + rest, title, 0) == Some(|OpenBox + title| + 1)
  {
    var text := OpenBox + title + "\n\n" + rest;
    var q := |OpenBox + title|;
    TitleLineHead(title, "\n\n" + rest);
    assert text == OpenBox + title + ("\n\n" + rest);
    assert LeadingSpaces(text[q..]) == 2 by {
      assert text[q..][1..] == "\n" + rest;
      assert text[q..][1..][1..] == rest;
    }
    assert text[q + 2] == rest[0];
    assert !LineEndAt(text, q + 2);
    assert LineEndAt(text, q + 1);
  }

  /** A text that starts with the title's open line has its head at 0, and what follows the title is the tail. */
  lemma TitleLineHead(title: string, tail: string)
    ensures var text := OpenBox + title + tail;
      HeadAt(text, title, 0) && text[|OpenBox + title|..] == tail
  {
    var text := OpenBox + title + tail;
    assert text[0..][..|OpenBox + title|] == OpenBox + title;
  }

  /** A match at the very start of the text is the first one. */
  lemma FirstMatchAtStart(text: string, title: string)
    requires MatchEnd(text, title, 0).Some?
    ensures FirstMatch(text, title) == Some((0, MatchEnd(text, title, 0).value))
  {
    var m := FirstMatch(text, title).value;
    assert IsFirstMatch(text, title, m.0, m.1);
  }

  // Finding 2: the replacement is a `re` template, so a backslash in the
  // title or URL is an escape rather than text.

  /** A title holding `\d` (or any other unknown letter escape) makes the call raise. */
  lemma AsWrittenRejectsBackslashLetter(text: string, pre: string, post: string)
    requires '\\' !in pre
    ensures UpdateTodoAsWritten(Some(text), pre + "\\d" + post, None).Err?
  {
    var title := pre + "\\d" + post;
    var repl := DoneLine(title, None);
    assert repl == DoneBox + pre + "\\d" + post;
    var j := |DoneBox + pre|;
    assert repl[j] == '\\' && repl[j + 1] == 'd';
    assert repl[0..j] == DoneBox + pre;
    BadLetterEscape(repl, 0, j);
  }

  /** One character other than a backslash is one literal piece in front of the rest. */
  lemma PlainPiece(t: string, i: nat, whole: string)
    requires i < |t| && t[i] != '\\'
    requires ParseTemplateFrom(t, i + 1).Ok?
    ensures ParseTemplateFrom(t, i).Ok?
    ensures Expand(ParseTemplateFrom(t, i).value, whole) == [t[i]] + Expand(ParseTemplateFrom(t, i + 1).value, whole)
  {
    var tail := ParseTemplateFrom(t, i + 1).value;
    assert ParseTemplateFrom(t, i) == Ok([Lit([t[i]])] + tail);
    assert ([Lit([t[i]])] + tail)[1..] == tail;
  }

  /** The induction step of `PlainStretch`: one more plain character in front. */
  lemma PlainStep(t: string, i: nat, j: nat, whole: string, rest: string)
    requires i < j <= |t| && t[i] != '\\'
    requires ParseTemplateFrom(t, i + 1).Ok?
    requires Expand(ParseTemplateFrom(t, i + 1).value, whole) == t[i + 1..j] + rest
    ensures ParseTemplateFrom(t, i).Ok?
    ensures Expand(ParseTemplateFrom(t, i).value, whole) == t[i..j] + rest
  {
    PlainPiece(t, i, whole);
    assert t[i..j] == [t[i]] + t[i + 1..j];
  }

  /** A stretch of template without backslashes expands to itself. */
  lemma {:induction false} PlainStretch(t: string, i: nat, j: nat, whole: string)
    requires i <= j <= |t| && forall k :: i <= k < j ==> t[k] != '\\'
    requires ParseTemplateFrom(t, j).Ok?
    ensures ParseTemplateFrom(t, i).Ok?
    ensures Expand(ParseTemplateFrom(t, i).value, whole) == t[i..j] + Expand(ParseTemplateFrom(t, j).value, whole)
    decreases j - i
  {
    if i < j {
      PlainStretch(t, i + 1, j, whole);
      PlainStep(t, i, j, whole, Expand(ParseTemplateFrom(t, j).value, whole));
    }
  }

  /** `\n` in a template expands to a line break. */
  lemma LineBreakEscape(t: string, j: nat, whole: string)
    requires j + 1 < |t| && t[j] == '\\' && t[j + 1] == 'n'
    requires ParseTemplateFrom(t, j + 2).Ok?
    ensures ParseTemplateFrom(t, j).Ok?
    ensures Expand(ParseTemplateFrom(t, j).value, whole) == "\n" + Expand(ParseTemplateFrom(t, j + 2).value, whole)
  {
    assert !IsDigit('n') && LetterEscape('n') == Some('\n');
    var rest := ParseTemplateFrom(t, j + 2).value;
    assert ParseTemplateFrom(t, j) == Ok([Lit("\n")] + rest);
    assert ([Lit("\n")] + rest)[1..] == rest;
  }

  /** The template `- [x] <pre>\n<post>` expands to a line break between `pre` and `post`. */
  lemma LineBreakTemplate(pre: string, post: string, whole: string)
    requires '\\' !in pre && '\\' !in post
    ensures ParseTemplateFrom(DoneBox + pre + "\\n" + post, 0).Ok?
    ensures Expand(ParseTemplateFrom(DoneBox + pre + "\\n" + post, 0).value, whole) == DoneBox + pre + "\n" + post
  {
    var repl := DoneBox + pre + "\\n" + post;
    var j := |DoneBox + pre|;
    assert repl[j] == '\\' && repl[j + 1] == 'n';
    assert repl[j + 2..] == post && repl[0..j] == DoneBox + pre;
    PlainTemplate(repl, j + 2, whole);
    LineBreakEscape(repl, j, whole);
    forall k | 0 <= k < j
      ensures repl[k] != '\\'
    {
      assert repl[k] == repl[0..j][k];
    }
    PlainStretch(repl, 0, j, whole);
  }

  /** A text that is exactly the title's open line matches as a whole. */
  lemma WholeLineMatch(title: string)
    ensures FirstMatch(OpenBox + title, title) == Some((0, |OpenBox + title|))
  {
    var text := OpenBox + title;
    var q := |text|;
    assert HeadAt(text, title, 0) by {
      assert text[0..][..q] == text;
    }
    assert text[q..] == [];
    assert MatchEnd(text, title, 0) == Some(q);
  }

  /** A title holding `\n` as two characters is ticked with a line break in their place. */
  lemma AsWrittenTurnsEscapeIntoLineBreak(pre: string, post: string)
    requires '\\' !in pre && '\\' !in post
    ensures var title := pre + "\\n" + post;
      UpdateTodoAsWritten(Some(OpenBox + title), title, None) == Ok(Rewritten(DoneBox + pre + "\n" + post))
  {
    var title := pre + "\\n" + post;
    var text := OpenBox + title;
    WholeLineMatch(title);
    assert DoneLine(title, None) == DoneBox + pre + "\\n" + post;
    var template := ParseTemplateFrom(DoneLine(title, None), 0);
    LineBreakTemplate(pre, post, text[0..|text|]);
    assert template.Ok? && Expand(template.value, text[0..|text|]) == DoneBox + pre + "\n" + post;
    assert text[..0] + (DoneBox + pre + "\n" + post) + text[|text|..] == DoneBox + pre + "\n" + post;
  }

  // ----- The rewrite as intended -----

  /** The number of whitespace characters other than "\n" starting at `q`. */
  function BlankRun(text: string, q: nat): (n: nat)
    requires q <= |text|
    ensures q + n <= |text|
    ensures forall i :: q <= i < q + n ==> IsSpace(text[i]) && text[i] != '\n'
    ensures q + n < |text| ==> !IsSpace(text[q + n]) || text[q + n] == '\n'
    decreases |text| - q
  {
    if q == |text| || !IsSpace(text[q]) || text[q] == '\n' then 0 else 1 + BlankRun(text, q + 1)
  }

  /** Every character of `text[q..e]` is whitespace other than "\n". */
  predicate BlankTail(text: string, q: int, e: int)
    requires 0 <= q <= e <= |text|
  {
    forall i :: q <= i < e ==> IsSpace(text[i]) && text[i] != '\n'
  }

  /** The end of the title's open line at `p`, when the line holds only whitespace after the title. */
  function LineMatchEnd(text: string, title: string, p: int): Option<nat> {
    if !HeadAt(text, title, p) then None
    else
      var q := p + |OpenBox + title|;
      var e := q + BlankRun(text, q);
      if LineEndAt(text, e) then Some(e) else None
  }

  /** The title's open line at `p` ends at `e`, and no such line starts before `p`. */
  predicate IsFirstLine(text: string, title: string, p: int, e: int) {
    LineMatchEnd(text, title, p) == Some(e) && forall p' :: 0 <= p' < p ==> LineMatchEnd(text, title, p').None?
  }

  function FirstLineMatchFrom(text: string, title: string, from: nat): Option<(nat, nat)>
    decreases |text| + 1 - from
  {
    if from > |text| then None
    else if LineMatchEnd(text, title, from).Some? then Some((from, LineMatchEnd(text, title, from).value))
    else FirstLineMatchFrom(text, title, from + 1)
  }

  lemma {:induction false} FirstLineMatchFromNone(text: string, title: string, from: nat)
    ensures FirstLineMatchFrom(text, title, from).None? <==> forall p :: from <= p ==> LineMatchEnd(text, title, p).None?
    decreases |text| + 1 - from
  {
    if from <= |text| && LineMatchEnd(text, title, from).None? {
      FirstLineMatchFromNone(text, title, from + 1);
    }
  }

  lemma {:induction false} FirstLineMatchFromSome(text: string, title: string, from: nat)
    requires FirstLineMatchFrom(text, title, from).Some?
    ensures var r := FirstLineMatchFrom(text, title, from).value;
      from <= r.0 && LineMatchEnd(text, title, r.0) == Some(r.1)
    ensures var r := FirstLineMatchFrom(text, title, from).value;
      forall p :: from <= p < r.0 ==> LineMatchEnd(text, title, p).None?
    decreases |text| + 1 - from
  {
    if LineMatchEnd(text, title, from).None? {
      FirstLineMatchFromSome(text, title, from + 1);
    }
  }

  /** The title's first open line that holds only whitespace after the title: its start and the end before its "\n". */
  function FirstLineMatch(text: string, title: string): (r: Option<(nat, nat)>)
    ensures r.None? <==> forall p :: LineMatchEnd(text, title, p).None?
    ensures r.Some? ==> IsFirstLine(text, title, r.value.0, r.value.1)
  {
    FirstLineMatchFromNone(text, title, 0);
    assert forall p :: p < 0 ==> LineMatchEnd(text, title, p).None?;
    assert FirstLineMatchFrom(text, title, 0).Some? ==> IsFirstLine(text, title, FirstLineMatchFrom(text, title, 0).value.0, FirstLineMatchFrom(text, title, 0).value.1) by {
      if FirstLineMatchFrom(text, title, 0).Some? {
        FirstLineMatchFromSome(text, title, 0);
      }
    }
    FirstLineMatchFrom(text, title, 0)
  }

  /**
   * `update_todo_with_pr` as intended: the first line reading
   * `- [ ] <title>` plus trailing blanks becomes `- [x] <title><suffix>`,
   * with the title and URL inserted as they are, and everything from that
   * line's "\n" on is kept.
   */
  function UpdateTodo(file: Option<string>, title: string, prUrl: Option<string>): (r: Update)
    ensures r.Rewritten? <==> file.Some? && exists p :: LineMatchEnd(file.value, title, p).Some?
  {
    if file.None? then Unchanged
    else
      var text := file.value;
      var m := FirstLineMatch(text, title);
      if m.None? then Unchanged
      else
        var p := m.value.0;
        var e := m.value.1;
        Rewritten(text[..p] + DoneLine(title, prUrl) + text[e..])
  }

  /**
   * The intended rewrite replaces the first open line of the title that
   * holds only blanks after it, and keeps everything before that line and
   * from its "\n" on.
   */
  lemma UpdateTodoRewritesFirstLine(file: Option<string>, title: string, prUrl: Option<string>)
    requires UpdateTodo(file, title, prUrl).Rewritten?
    ensures file.Some?
    ensures var text, r := file.value, UpdateTodo(file, title, prUrl);
      exists p, e :: (IsFirstLine(text, title, p, e) && HeadAt(text, title, p) && LineEndAt(text, e)
        && p + |OpenBox + title| <= e <= |text| && BlankTail(text, p + |OpenBox + title|, e)
        && r.text == text[..p] + DoneLine(title, prUrl) + text[e..])
  {
    var text := file.value;
    var m := FirstLineMatch(text, title);
    var p, e := m.value.0, m.value.1;
    assert IsFirstLine(text, title, p, e);
  }

  /** Intended: the final "\n" after the item's line is kept. */
  lemma IntendedKeepsFinalNewline(title: string)
    ensures UpdateTodo(Some(OpenBox + title + "\n"), title, None) == Rewritten(DoneBox + title + "\n")
  {
    var text := OpenBox + title + "\n";
    var q := |OpenBox + title|;
    assert HeadAt(text, title, 0) by {
      assert text[0..][..q] == OpenBox + title;
    }
    assert BlankRun(text, q) == 0;
    assert LineMatchEnd(text, title, 0) == Some(q);
    assert text[..0] == [] && text[q..] == "\n";
  }

  /** Intended: with no URL, the backslashes of a title are written as they are. */
  lemma IntendedKeepsBackslashes()
    ensures UpdateTodo(Some("- [ ] a\\n"), "a\\n", None) == Rewritten("- [x] a\\n")
  {
    var text := "- [ ] a\\n";
    var title := "a\\n";
    assert text == OpenBox + title;
    var q := |text|;
    assert HeadAt(text, title, 0) by {
      assert text[0..][..q] == text;
    }
    assert LineMatchEnd(text, title, 0) == Some(q);
    assert text[..0] == [] && text[q..] == [];
  }

  /** Intended: the rewrite keeps the number of line breaks when the title and the link hold none. */
  lemma IntendedKeepsLineCount(text: string, title: string, prUrl: Option<string>)
    requires '\n' !in title && '\n' !in Suffix(prUrl)
    requires UpdateTodo(Some(text), title, prUrl).Rewritten?
    ensures multiset(UpdateTodo(Some(text), title, prUrl).text)['\n'] == multiset(text)['\n']
  {
    var m := FirstLineMatch(text, title).value;
    var p, e := m.0, m.1;
    assert LineMatchEnd(text, title, p) == Some(e) by {
      assert IsFirstLine(text, title, p, e);
    }
    LineSpliceKeepsBreaks(text, title, p, e, prUrl);
  }

  /** Replacing the title's open line by its done line keeps every line break. */
  lemma LineSpliceKeepsBreaks(text: string, title: string, p: int, e: int, prUrl: Option<string>)
    requires '\n' !in title && '\n' !in Suffix(prUrl)
    requires LineMatchEnd(text, title, p) == Some(e)
    ensures 0 <= p <= e <= |text|
    ensures multiset(text[..p] + DoneLine(title, prUrl) + text[e..])['\n'] == multiset(text)['\n']
  {
    var q := p + |OpenBox + title|;
    assert HeadAt(text, title, p) && q <= e <= |text| && BlankTail(text, q, e);
    NoBreakInLine(text, title, p, e);
    SpliceKeepsBreaks(text, p, e, DoneLine(title, prUrl));
  }

  /** The matched line holds no "\n" when the title holds none. */
  lemma NoBreakInLine(text: string, title: string, p: int, e: int)
    requires '\n' !in title
    requires HeadAt(text, title, p) && p + |OpenBox + title| <= e <= |text|
    requires BlankTail(text, p + |OpenBox + title|, e)
    ensures '\n' !in text[p..e]
  {
    var q := p + |OpenBox + title|;
    assert text[p..][..|OpenBox + title|] == text[p..q];
    forall k | 0 <= k < e - p
      ensures text[p..e][k] != '\n'
    {
      assert text[p..e][k] == text[p + k];
      if k < |OpenBox| {
        assert text[p + k] == OpenBox[k];
      } else if k < q - p {
        assert text[p + k] == text[p..q][k] == title[k - |OpenBox|];
      }
    }
  }

  /** Replacing a stretch without "\n" by a text without "\n" keeps the number of "\n". */
  lemma SpliceKeepsBreaks(text: string, p: int, e: int, ins: string)
    requires 0 <= p <= e <= |text| && '\n' !in text[p..e] && '\n' !in ins
    ensures multiset(text[..p] + ins + text[e..])['\n'] == multiset(text)['\n']
  {
    assert text == text[..p] + text[p..e] + text[e..];
  }
}
