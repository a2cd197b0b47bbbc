/**
 * The Stop-hook part of `ensure_hooks_config`: the settings document's
 * `hooks.Stop` list is cleaned of this manager's own gate command, of
 * non-dict hooks, of repeated `(type, command)` pairs and of entries left
 * empty, and one canonical entry running the gate is appended at the end.
 */
module Hooks {
  import opened Wrappers
  import opened Json

  /** `STOP_HOOK_COMMAND`: the gate script, relative to the project directory. */
  const StopHookCommand: string := "$CLAUDE_PROJECT_DIR/.claude/hooks/stop-keep-asking.py"

  /** `{"type": "command", "command": STOP_HOOK_COMMAND}` */
  const CanonicalHook: Json := Obj(map["type" := Str("command"), "command" := Str(StopHookCommand)])

  /** The entry appended at the end of the Stop list: no matcher, one hook. */
  const CanonicalEntry: Json := Obj(map["hooks" := Arr([CanonicalHook])])

  /** The exceptions the cleaning code can raise on odd input. */
  datatype Crash =
    | AttributeErr   // `.get` called on a value that is not a dict
    | UnhashableErr  // a `(type, command)` key holding a list or dict, looked up in the `seen` set

  /** A hashable Python value; as dict and set keys `True == 1` and `False == 0`. */
  datatype Atom = NoneAtom | NumAtom(n: int) | StrAtom(s: string)

  /** The hashable form of a hook's `type` or `command`, or `None` for a list or dict. */
  function AtomOf(v: Json): Option<Atom> {
    match v
    case Null => Some(NoneAtom)
    case Bool(b) => Some(NumAtom(if b then 1 else 0))
    case Num(n) => Some(NumAtom(n))
    case Str(s) => Some(StrAtom(s))
    case Arr(_) => None
    case Obj(_) => None
  }

  /** `(h.get("type"), h.get("command"))` of a dict hook, when both parts are hashable. */
  function KeyOf(h: Json): Option<(Atom, Atom)> {
    if !h.Obj? then None
    else
    var t := AtomOf(Get(h.fields, "type"));
    var c := AtomOf(Get(h.fields, "command"));
    if t.Some? && c.Some? then Some((t.value, c.value)) else None
  }

  /** A hook that runs this manager's gate script. */
  predicate IsOurs(h: Json) {
    h.Obj? && Get(h.fields, "type") == Str("command") && Get(h.fields, "command") == Str(StopHookCommand)
  }

  /** A hook that survives the shape tests: a dict that is not the gate's own. */
  predicate IsCandidate(h: Json) {
    h.Obj? && !IsOurs(h)
  }

  /** Every candidate hook has a hashable key, so the `seen` test never raises. */
  predicate AllHashable(hs: seq<Json>) {
    forall i :: 0 <= i < |hs| && IsCandidate(hs[i]) ==> KeyOf(hs[i]).Some?
  }

  /** `hs[i]` is a candidate whose key no earlier candidate has. */
  predicate FirstOfKey(hs: seq<Json>, i: nat)
    requires i < |hs|
  {
    IsCandidate(hs[i]) && forall j :: 0 <= j < i && IsCandidate(hs[j]) ==> KeyOf(hs[j]) != KeyOf(hs[i])
  }

  /** The hooks of one entry that the cleaning keeps: the first candidate of each key, in order. */
  function KeptHooks(hs: seq<Json>): (r: seq<Json>)
    ensures |r| <= |hs|
  {
    if hs == [] then []
    else KeptHooks(hs[..|hs| - 1]) + (if FirstOfKey(hs, |hs| - 1) then [hs[|hs| - 1]] else [])
  }

  /** The keys of the candidates among `hs`: the `seen` set after scanning `hs`. */
  function SeenKeys(hs: seq<Json>): set<(Atom, Atom)> {
    set j | 0 <= j < |hs| && IsCandidate(hs[j]) && KeyOf(hs[j]).Some? :: KeyOf(hs[j]).value
  }

  /** The inner loop of the cleaning: drop non-dicts and the gate's own hook, keep the first hook of each key. */
  method FilterHooks(hs: seq<Json>) returns (r: Result<seq<Json>, Crash>)
    ensures r == if AllHashable(hs) then Ok(KeptHooks(hs)) else Err(UnhashableErr)
  {
    var filtered: seq<Json> := [];
    var seen: set<(Atom, Atom)> := {};
    var i := 0;
    while i < |hs|
      invariant 0 <= i <= |hs|
      invariant AllHashable(hs[..i])
      invariant filtered == KeptHooks(hs[..i])
      invariant seen == SeenKeys(hs[..i])
    {
      var h := hs[i];
      HashableStep(hs, i);
      KeptStep(hs, i);
      SeenStep(hs, i);
      if h.Obj? && !IsOurs(h) {
        var key := KeyOf(h);
        if key.None? {
          assert !AllHashable(hs) by {
            assert IsCandidate(hs[i]) && KeyOf(hs[i]).None?;
          }
          return Err(UnhashableErr);
        }
        FirstOfKeyBySeen(hs, i);
        if key.value !in seen {
          seen := seen + {key.value};
          filtered := filtered + [h];
        }
      }
      i := i + 1;
    }
    assert hs[..i] == hs;
    return Ok(filtered);
  }

  /** One more hook keeps the prefix hashable exactly when it is not an unhashable candidate. */
  lemma HashableStep(hs: seq<Json>, i: nat)
    requires i < |hs|
    ensures AllHashable(hs[..i + 1]) <==> AllHashable(hs[..i]) && (IsCandidate(hs[i]) ==> KeyOf(hs[i]).Some?)
  {
    var pre := hs[..i + 1];
    assert forall j :: 0 <= j < i ==> pre[j] == hs[..i][j];
    assert pre[i] == hs[i];
  }

  /** One more hook is kept exactly when it is the first candidate of its key. */
  lemma KeptStep(hs: seq<Json>, i: nat)
    requires i < |hs|
    ensures KeptHooks(hs[..i + 1]) == KeptHooks(hs[..i]) + (if FirstOfKey(hs[..i + 1], i) then [hs[i]] else [])
  {
    assert hs[..i + 1][..i] == hs[..i];
  }

  /** One more candidate adds its key to the seen keys. */
  lemma SeenStep(hs: seq<Json>, i: nat)
    requires i < |hs|
    ensures SeenKeys(hs[..i + 1])
      == SeenKeys(hs[..i]) + (if IsCandidate(hs[i]) && KeyOf(hs[i]).Some? then {KeyOf(hs[i]).value} else {})
  {
    var pre := hs[..i + 1];
    assert forall j :: 0 <= j < i ==> pre[j] == hs[..i][j];
    assert pre[i] == hs[i];
  }

  /** Over a hashable prefix, a candidate is the first of its key exactly when its key has not been seen. */
  lemma FirstOfKeyBySeen(hs: seq<Json>, i: nat)
    requires i < |hs| && AllHashable(hs[..i]) && IsCandidate(hs[i]) && KeyOf(hs[i]).Some?
    ensures FirstOfKey(hs[..i + 1], i) <==> KeyOf(hs[i]).value !in SeenKeys(hs[..i])
  {
    var pre := hs[..i + 1];
    assert forall j :: 0 <= j < i ==> pre[j] == hs[..i][j];
    assert pre[i] == hs[i];
    if !FirstOfKey(pre, i) {
      var j :| 0 <= j < i && IsCandidate(pre[j]) && KeyOf(pre[j]) == KeyOf(pre[i]);
      assert KeyOf(hs[..i][j]).value in SeenKeys(hs[..i]);
    }
  }

  /** The hooks list of an entry: `entry.get("hooks") or []`, replaced by `[]` when not a list. */
  function HooksListOf(fields: map<string, Json>): seq<Json> {
    var v := Get(fields, "hooks");
    if v.Arr? then v.items else []
  }

  /** One entry of the Stop list after cleaning: `None` when it is dropped. */
  function CleanEntry(e: Json): Result<Option<Json>, Crash> {
    if !e.Obj? then Err(AttributeErr)
    else
      var hs := HooksListOf(e.fields);
      if !AllHashable(hs) then Err(UnhashableErr)
      else
        var kept := KeptHooks(hs);
        if kept == [] then Ok(None) else Ok(Some(Obj(e.fields["hooks" := Arr(kept)])))
  }

  /** The results `f` keeps from `xs`, in order; the first error aborts the whole pass. */
  function Collect<A, B, E>(f: A -> Result<Option<B>, E>, xs: seq<A>): Result<seq<B>, E> {
    if xs == [] then Ok([])
    else
      match Collect(f, xs[..|xs| - 1])
      case Err(e) => Err(e)
      case Ok(done) =>
        match f(xs[|xs| - 1])
        case Err(e) => Err(e)
        case Ok(c) => Ok(done + if c.Some? then [c.value] else [])
  }

  /** The cleaned Stop list: the surviving entries in their order; the first entry that raises aborts. */
  function CleanedEntries(entries: seq<Json>): Result<seq<Json>, Crash> {
    Collect(CleanEntry, entries)
  }

  /** The outer loop of the cleaning, building `cleaned_stop_arr`. */
  method CleanStopEntries(entries: seq<Json>) returns (r: Result<seq<Json>, Crash>)
    ensures r == CleanedEntries(entries)
  {
    var cleaned: seq<Json> := [];
    var i := 0;
    while i < |entries|
      invariant 0 <= i <= |entries|
      invariant CleanedEntries(entries[..i]) == Ok(cleaned)
    {
      var entry := entries[i];
      ghost var upTo, before := entries[..i + 1], cleaned;
      assert upTo[..|upTo| - 1] == entries[..i] && upTo[|upTo| - 1] == entry;
      if !entry.Obj? {
        assert CleanedEntries(entries[..i + 1]) == Err(AttributeErr);
        PrefixErrSticks(CleanEntry, entries, i + 1);
        return Err(AttributeErr);
      }
      var filtered := FilterHooks(HooksListOf(entry.fields));
      if filtered.Err? {
        assert CleanedEntries(entries[..i + 1]) == Err(UnhashableErr);
        PrefixErrSticks(CleanEntry, entries, i + 1);
        return Err(UnhashableErr);
      }
      assert CleanEntry(entry) == Ok(if filtered.value == [] then None
                                     else Some(Obj(entry.fields["hooks" := Arr(filtered.value)])));
      if filtered.value != [] {
        cleaned := cleaned + [Obj(entry.fields["hooks" := Arr(filtered.value)])];
      }
      assert CleanedEntries(upTo[..|upTo| - 1]) == Ok(before);
      assert CleanedEntries(upTo) == Ok(before + if filtered.value == [] then []
                                       else [Obj(entry.fields["hooks" := Arr(filtered.value)])]);
      assert cleaned == before + if filtered.value == [] then []
                                 else [Obj(entry.fields["hooks" := Arr(filtered.value)])];
      i := i + 1;
    }
    assert entries[..i] == entries;
    return Ok(cleaned);
  }

  /** Once a prefix raises, the whole pass raises the same way. */
  lemma {:induction false} PrefixErrSticks<A, B, E>(f: A -> Result<Option<B>, E>, xs: seq<A>, n: nat)
    requires n <= |xs|
    requires Collect(f, xs[..n]).Err?
    ensures Collect(f, xs) == Collect(f, xs[..n])
    decreases |xs| - n
  {
    if n < |xs| {
      assert xs[..n + 1][..n] == xs[..n];
      PrefixErrSticks(f, xs, n + 1);
    } else {
      assert xs[..n] == xs;
    }
  }

  /** The Stop entries to clean: `hooks.get("Stop") or []`, a single dict read as a one-element list, other non-lists as `[]`. */
  function StopEntries(hooks: map<string, Json>): seq<Json> {
    var v := Get(hooks, "Stop");
    if !Truthy(v) then []
    else match v
      case Obj(_) => [v]
      case Arr(items) => items
      case _ => []
  }

  /** The settings document written back by `ensure_hooks_config`; `existing` is `None` when the file is missing or not valid JSON. */
  function NormalizedSettings(existing: Option<Json>): (r: Result<Json, Crash>)
    ensures r.Ok? ==> r.value.Obj? && "hooks" in r.value.fields && r.value.fields["hooks"].Obj?
  {
    var data := if existing.Some? then existing.value else Obj(map[]);
    if !data.Obj? then Err(AttributeErr)
    else
      var hv := Get(data.fields, "hooks");
      if Truthy(hv) && !hv.Obj? then Err(AttributeErr)
      else
        var hooks := if Truthy(hv) then hv.fields else map[];
        match CleanedEntries(StopEntries(hooks))
        case Err(e) => Err(e)
        case Ok(cleaned) =>
          Ok(Obj(data.fields["hooks" := Obj(hooks["Stop" := Arr(cleaned + [CanonicalEntry])])]))
  }

  /** `ensure_hooks_config` without the file system: the new settings document, or the exception it raises. */
  method EnsureHooksConfig(existing: Option<Json>) returns (r: Result<Json, Crash>)
    ensures r == NormalizedSettings(existing)
  {
    var data := if existing.Some? then existing.value else Obj(map[]);
    if !data.Obj? {
      return Err(AttributeErr);
    }
    var hv := Get(data.fields, "hooks");
    var hooks: map<string, Json>;
    if !Truthy(hv) {
      hooks := map[];
    } else if hv.Obj? {
      hooks := hv.fields;
    } else {
      return Err(AttributeErr);
    }
    var cleaned := CleanStopEntries(StopEntries(hooks));
    if cleaned.Err? {
      return Err(cleaned.error);
    }
    hooks := hooks["Stop" := Arr(cleaned.value + [CanonicalEntry])];
    return Ok(Obj(data.fields["hooks" := Obj(hooks)]));
  }

  // ----- Properties of the kept hooks -----

  /** Dict hooks other than the gate's own, no two with the same `(type, command)` key. */
  predicate DistinctCandidates(hs: seq<Json>) {
    && (forall k :: 0 <= k < |hs| ==> IsCandidate(hs[k]))
    && (forall a, b :: 0 <= a < b < |hs| ==> KeyOf(hs[a]) != KeyOf(hs[b]))
  }

  /** Every kept hook is one of the input's candidate hooks. */
  lemma {:induction false} KeptHooksFrom(hs: seq<Json>, k: nat)
    requires k < |KeptHooks(hs)|
    ensures exists j :: 0 <= j < |hs| && FirstOfKey(hs, j) && hs[j] == KeptHooks(hs)[k]
    decreases |hs|
  {
    var init := hs[..|hs| - 1];
    if k < |KeptHooks(init)| {
      KeptHooksFrom(init, k);
      var j :| 0 <= j < |init| && FirstOfKey(init, j) && init[j] == KeptHooks(init)[k];
      assert FirstOfKey(hs, j);
    } else {
      assert FirstOfKey(hs, |hs| - 1);
    }
  }

  /** The kept hooks are dicts, none is the gate's own, and no two share a `(type, command)` key. */
  lemma {:induction false} KeptHooksClean(hs: seq<Json>)
    ensures DistinctCandidates(KeptHooks(hs))
    decreases |hs|
  {
    if hs != [] {
      var init := hs[..|hs| - 1];
      KeptHooksClean(init);
      var kept := KeptHooks(hs);
      forall k | 0 <= k < |kept| ensures IsCandidate(kept[k]) {
        KeptHooksFrom(hs, k);
      }
      if FirstOfKey(hs, |hs| - 1) {
        forall a | 0 <= a < |KeptHooks(init)|
          ensures KeyOf(kept[a]) != KeyOf(hs[|hs| - 1])
        {
          KeptHooksFrom(init, a);
          var j :| 0 <= j < |init| && FirstOfKey(init, j) && init[j] == KeptHooks(init)[a];
          assert hs[j] == init[j];
        }
      }
    }
  }

  /** The first candidate of every key is kept, so cleaning loses no distinct hook. */
  lemma {:induction false} KeptHooksComplete(hs: seq<Json>, i: nat)
    requires i < |hs| && FirstOfKey(hs, i)
    ensures hs[i] in KeptHooks(hs)
    decreases |hs|
  {
    if i < |hs| - 1 {
      var init := hs[..|hs| - 1];
      assert FirstOfKey(init, i);
      KeptHooksComplete(init, i);
    }
  }

  /** A list that is already clean is kept whole. */
  lemma {:induction false} KeptHooksOfClean(hs: seq<Json>)
    requires DistinctCandidates(hs)
    ensures KeptHooks(hs) == hs
    decreases |hs|
  {
    if hs != [] {
      KeptHooksOfClean(hs[..|hs| - 1]);
      assert FirstOfKey(hs, |hs| - 1);
    }
  }

  /** Cleaning an entry's hooks twice is the same as cleaning them once. */
  lemma KeptHooksIdempotent(hs: seq<Json>)
    ensures KeptHooks(KeptHooks(hs)) == KeptHooks(hs)
  {
    KeptHooksClean(hs);
    KeptHooksOfClean(KeptHooks(hs));
  }

  // ----- Properties of the cleaned Stop list -----

  /** A hooks list as the cleaning leaves it: distinct, hashable, foreign dict hooks. */
  predicate HooksClean(hs: seq<Json>) {
    DistinctCandidates(hs) && forall k :: 0 <= k < |hs| ==> KeyOf(hs[k]).Some?
  }

  /** An entry as the cleaning leaves it: a dict whose `hooks` is a non-empty clean list. */
  predicate IsCleanEntry(e: Json) {
    e.Obj? && Get(e.fields, "hooks").Arr? && Get(e.fields, "hooks").items != []
    && HooksClean(Get(e.fields, "hooks").items)
  }

  /** An entry that survives cleaning is clean and keeps every key other than `hooks`. */
  lemma CleanEntryIsClean(e: Json)
    requires CleanEntry(e).Ok? && CleanEntry(e).value.Some?
    ensures IsCleanEntry(CleanEntry(e).value.value)
    ensures CleanEntry(e).value.value.fields - {"hooks"} == e.fields - {"hooks"}
  {
    var hs := HooksListOf(e.fields);
    var kept := KeptHooks(hs);
    KeptHooksClean(hs);
    forall k | 0 <= k < |kept| ensures KeyOf(kept[k]).Some? {
      KeptHooksFrom(hs, k);
    }
    var x := CleanEntry(e).value.value;
    assert Get(x.fields, "hooks") == Arr(kept);
  }

  /** Cleaning a clean entry gives it back unchanged. */
  lemma CleanEntryOfClean(e: Json)
    requires IsCleanEntry(e)
    ensures CleanEntry(e) == Ok(Some(e))
  {
    var hs := Get(e.fields, "hooks").items;
    assert HooksListOf(e.fields) == hs;
    assert AllHashable(hs) by {
      assert HooksClean(hs);
    }
    assert KeptHooks(hs) == hs by {
      KeptHooksOfClean(hs);
    }
    assert e.fields["hooks" := Arr(hs)] == e.fields;
  }

  /** The canonical entry holds only the gate's own hook, so cleaning drops it. */
  lemma CanonicalEntryDropped()
    ensures IsOurs(CanonicalHook)
    ensures CleanEntry(CanonicalEntry) == Ok(None)
  {
    assert CanonicalHook.fields["type"] == Str("command");
    assert CanonicalHook.fields["command"] == Str(StopHookCommand);
    var hs := HooksListOf(CanonicalEntry.fields);
    assert hs == [CanonicalHook];
    assert AllHashable(hs);
    assert hs[..0] == [];
    assert !FirstOfKey(hs, 0);
    assert KeptHooks(hs) == [];
  }

  /** A pass over `a + b` is the pass over `a` followed by the pass over `b`: results keep their order. */
  lemma {:induction false} CollectAppend<A, B, E>(f: A -> Result<Option<B>, E>, a: seq<A>, b: seq<A>)
    requires Collect(f, a).Ok? && Collect(f, b).Ok?
    ensures Collect(f, a + b) == Ok(Collect(f, a).value + Collect(f, b).value)
    decreases |b|
  {
    if b == [] {
      assert a + b == a && Collect(f, b) == Ok([]);
      assert Collect(f, a).value + [] == Collect(f, a).value;
    } else {
      var init, last := b[..|b| - 1], b[|b| - 1];
      CollectAppend(f, a, init);
      var ab := a + b;
      assert ab[..|ab| - 1] == a + init && ab[|ab| - 1] == last;
      var c := f(last).value;
      var tail := if c.Some? then [c.value] else [];
      assert Collect(f, a).value + Collect(f, init).value + tail
          == Collect(f, a).value + (Collect(f, init).value + tail);
    }
  }

  /** Cleaning distributes over concatenation: entries keep their relative order. */
  lemma CleanedEntriesAppend(a: seq<Json>, b: seq<Json>)
    requires CleanedEntries(a).Ok? && CleanedEntries(b).Ok?
    ensures CleanedEntries(a + b) == Ok(CleanedEntries(a).value + CleanedEntries(b).value)
  {
    CollectAppend(CleanEntry, a, b);
  }

  /** Every entry of a cleaned list is clean. */
  lemma {:induction false} CleanedEntriesClean(entries: seq<Json>)
    requires CleanedEntries(entries).Ok?
    ensures forall k :: 0 <= k < |CleanedEntries(entries).value| ==> IsCleanEntry(CleanedEntries(entries).value[k])
    decreases |entries|
  {
    if entries != [] {
      var last := entries[|entries| - 1];
      CleanedEntriesClean(entries[..|entries| - 1]);
      if CleanEntry(last).value.Some? {
        CleanEntryIsClean(last);
      }
    }
  }

  /** A pass that keeps every element as it is gives the list back. */
  lemma {:induction false} CollectIdentity<A, E>(f: A -> Result<Option<A>, E>, xs: seq<A>)
    requires forall k :: 0 <= k < |xs| ==> f(xs[k]) == Ok(Some(xs[k]))
    ensures Collect(f, xs) == Ok(xs)
    decreases |xs|
  {
    if xs != [] {
      var init := xs[..|xs| - 1];
      assert forall k :: 0 <= k < |init| ==> init[k] == xs[k];
      CollectIdentity(f, init);
      assert xs == init + [xs[|xs| - 1]];
    }
  }

  /** A list of clean entries is its own cleaning. */
  lemma CleanedEntriesOfClean(entries: seq<Json>)
    requires forall k :: 0 <= k < |entries| ==> IsCleanEntry(entries[k])
    ensures CleanedEntries(entries) == Ok(entries)
  {
    forall k | 0 <= k < |entries|
      ensures CleanEntry(entries[k]) == Ok(Some(entries[k]))
    {
      CleanEntryOfClean(entries[k]);
    }
    CollectIdentity(CleanEntry, entries);
  }

  /** The Stop list `ensure_hooks_config` writes, when it succeeds. */
  function StopListOf(out: Json): seq<Json> {
    if out.Obj? && Get(out.fields, "hooks").Obj? && Get(Get(out.fields, "hooks").fields, "Stop").Arr?
    then Get(Get(out.fields, "hooks").fields, "Stop").items
    else []
  }

  /**
   * After normalisation the Stop list ends with the canonical entry, no
   * other entry holds the gate's hook, every other entry is clean, and
   * the rest of the document is untouched.
   */
  lemma NormalizedStopList(existing: Option<Json>)
    requires NormalizedSettings(existing).Ok?
    ensures var out := NormalizedSettings(existing).value;
      var stop := StopListOf(out);
      && stop != []
      && stop[|stop| - 1] == CanonicalEntry
      && IsOurs(CanonicalHook)
      && (forall k :: 0 <= k < |stop| - 1 ==> IsCleanEntry(stop[k]))
      && (forall k, j :: 0 <= k < |stop| - 1 && 0 <= j < |HooksListOf(stop[k].fields)| ==>
            !IsOurs(HooksListOf(stop[k].fields)[j]))
      && (existing.Some? ==> out.fields - {"hooks"} == existing.value.fields - {"hooks"})
      && Get(out.fields, "hooks").Obj?
      && Get(out.fields, "hooks").fields - {"Stop"} == InputHooks(existing) - {"Stop"}
      && CleanedEntries(StopEntries(InputHooks(existing))) == Ok(stop[..|stop| - 1])
  {
    var data := if existing.Some? then existing.value else Obj(map[]);
    var hooks := InputHooks(existing);
    NormalizedIsWritten(existing);
    var cleaned := CleanedEntries(StopEntries(hooks)).value;
    WrittenStopList(data.fields, hooks, cleaned + [CanonicalEntry]);
    assert (cleaned + [CanonicalEntry])[..|cleaned|] == cleaned;
    CleanedEntriesClean(StopEntries(hooks));
    CanonicalEntryDropped();
    CleanStopList(cleaned);
  }

  /** The `hooks` object of the settings read in: `data.get("hooks") or {}`, when that is an object. */
  function InputHooks(existing: Option<Json>): map<string, Json> {
    var data := if existing.Some? then existing.value else Obj(map[]);
    if data.Obj? && Truthy(Get(data.fields, "hooks")) && Get(data.fields, "hooks").Obj?
    then Get(data.fields, "hooks").fields
    else map[]
  }

  /** A successful run writes the input's `hooks` with the cleaned Stop entries and the canonical one. */
  lemma NormalizedIsWritten(existing: Option<Json>)
    requires NormalizedSettings(existing).Ok?
    ensures var data := if existing.Some? then existing.value else Obj(map[]);
      && data.Obj?
      && CleanedEntries(StopEntries(InputHooks(existing))).Ok?
      && NormalizedSettings(existing).value
         == Written(data.fields, InputHooks(existing), CleanedEntries(StopEntries(InputHooks(existing))).value + [CanonicalEntry])
  {
  }

  /** The document written with `stop` as the Stop list of `hooks`. */
  function Written(fields: map<string, Json>, hooks: map<string, Json>, stop: seq<Json>): Json {
    Obj(fields["hooks" := Obj(hooks["Stop" := Arr(stop)])])
  }

  /** The written document's Stop list is `stop`, and its other keys are untouched. */
  lemma WrittenStopList(fields: map<string, Json>, hooks: map<string, Json>, stop: seq<Json>)
    ensures StopListOf(Written(fields, hooks, stop)) == stop
    ensures Written(fields, hooks, stop).fields - {"hooks"} == fields - {"hooks"}
    ensures Get(Written(fields, hooks, stop).fields, "hooks").Obj?
    ensures Get(Written(fields, hooks, stop).fields, "hooks").fields - {"Stop"} == hooks - {"Stop"}
  {
    var out := Written(fields, hooks, stop);
    assert Get(out.fields, "hooks") == Obj(hooks["Stop" := Arr(stop)]);
  }

  /** Clean entries followed by the canonical one: no entry but the last holds the gate's hook. */
  lemma CleanStopList(cleaned: seq<Json>)
    requires forall k :: 0 <= k < |cleaned| ==> IsCleanEntry(cleaned[k])
    ensures var stop := cleaned + [CanonicalEntry];
      && (forall k :: 0 <= k < |stop| - 1 ==> IsCleanEntry(stop[k]))
      && (forall k, j :: 0 <= k < |stop| - 1 && 0 <= j < |HooksListOf(stop[k].fields)| ==>
            !IsOurs(HooksListOf(stop[k].fields)[j]))
  {
    var stop := cleaned + [CanonicalEntry];
    assert forall k :: 0 <= k < |stop| - 1 ==> stop[k] == cleaned[k];
    forall k, j | 0 <= k < |stop| - 1 && 0 <= j < |HooksListOf(stop[k].fields)|
      ensures !IsOurs(HooksListOf(stop[k].fields)[j])
    {
      CleanEntryNotOurs(cleaned[k], j);
    }
  }

  /** No hook of a clean entry is the gate's own. */
  lemma CleanEntryNotOurs(e: Json, j: int)
    requires IsCleanEntry(e) && 0 <= j < |HooksListOf(e.fields)|
    ensures !IsOurs(HooksListOf(e.fields)[j])
  {
    assert HooksListOf(e.fields) == Get(e.fields, "hooks").items;
    assert IsCandidate(Get(e.fields, "hooks").items[j]);
  }

  /** Running `ensure_hooks_config` on its own output writes the same document again. */
  lemma NormalizeIdempotent(existing: Option<Json>)
    requires NormalizedSettings(existing).Ok?
    ensures NormalizedSettings(Some(NormalizedSettings(existing).value)) == NormalizedSettings(existing)
  {
    var data := if existing.Some? then existing.value else Obj(map[]);
    var hv := Get(data.fields, "hooks");
    var hooks := if Truthy(hv) then hv.fields else map[];
    var cleaned := CleanedEntries(StopEntries(hooks)).value;
    assert NormalizedSettings(existing).value == Written(data.fields, hooks, cleaned + [CanonicalEntry]);
    CleanedEntriesClean(StopEntries(hooks));
    RecleanStop(cleaned);
    RenormalizeWritten(data.fields, hooks, cleaned);
  }

  /** Cleaning clean entries followed by the canonical one gives back the clean entries. */
  lemma RecleanStop(cleaned: seq<Json>)
    requires forall k :: 0 <= k < |cleaned| ==> IsCleanEntry(cleaned[k])
    ensures CleanedEntries(cleaned + [CanonicalEntry]) == Ok(cleaned)
  {
    CleanedEntriesOfClean(cleaned);
    assert CleanedEntries([CanonicalEntry]) == Ok([]) by {
      CanonicalEntryDropped();
      var one := [CanonicalEntry];
      assert one[..0] == [] && one[0] == CanonicalEntry;
      assert Collect(CleanEntry, one[..0]) == Ok([]);
      assert Collect(CleanEntry, one) == Ok([] + []);
    }
    CleanedEntriesAppend(cleaned, [CanonicalEntry]);
    assert cleaned + [] == cleaned;
  }

  /** A written document whose Stop list re-cleans to the same entries is normalised to itself. */
  lemma RenormalizeWritten(fields: map<string, Json>, hooks: map<string, Json>, cleaned: seq<Json>)
    requires CleanedEntries(cleaned + [CanonicalEntry]) == Ok(cleaned)
    ensures NormalizedSettings(Some(Written(fields, hooks, cleaned + [CanonicalEntry])))
      == Ok(Written(fields, hooks, cleaned + [CanonicalEntry]))
  {
    var stop := cleaned + [CanonicalEntry];
    var newHooks := hooks["Stop" := Arr(stop)];
    var out := Written(fields, hooks, stop);
    assert "Stop" in newHooks;
    assert Get(out.fields, "hooks") == Obj(newHooks) && Truthy(Obj(newHooks));
    assert Get(newHooks, "Stop") == Arr(stop) && Truthy(Arr(stop));
    assert StopEntries(newHooks) == stop;
    assert newHooks["Stop" := Arr(stop)] == newHooks;
    assert out.fields["hooks" := Obj(newHooks)] == out.fields;
  }
}
