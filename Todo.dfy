/**
 * `parse_todo_markdown`: the two-level checklist parser. Each line of the
 * document is classified by three fixed patterns (a top-level unchecked box,
 * an indented unchecked box, a checked box at column 0); a top-level line
 * opens a new work item and an indented one adds a subtask to the item
 * opened last.
 */
module Todo {
  import opened Wrappers
  import opened Text

  /** `TodoItem`: a work item's title and its subtask titles. */
  datatype TodoItem = TodoItem(title: string, children: seq<string>)

  /** The unchecked box that starts both kinds of open entry. */
  const OpenBox: string := "- [ ] "

  /** The checked box of a finished entry. */
  const DoneBox: string := "- [x] "

  // The lines handled here come from `splitlines`, so they hold no line
  // break and the patterns' `.+$` is "at least one more character".

  /** `TODO_DONE_PATTERN.match(line)`: a checked box at column 0 followed by text. */
  predicate IsDone(line: string) {
    |line| > |DoneBox| && StartsWith(line, DoneBox)
  }

  /** `TODO_TOP_PATTERN.match(line)`: an unchecked box at column 0 followed by text. */
  predicate IsTop(line: string) {
    |line| > |OpenBox| && StartsWith(line, OpenBox)
  }

  /** The stripped `title` group of a top-level line. */
  function TopTitle(line: string): string
    requires IsTop(line)
  {
    Strip(line[|OpenBox|..])
  }

  /**
   * `TODO_CHILD_PATTERN.match(line)`: two or more whitespace characters, an
   * unchecked box, then text. The box starts with `-`, which is not
   * whitespace, so `\s{2,}` can only match the whole leading whitespace run.
   */
  predicate IsChild(line: string) {
    var w := LeadingSpaces(line);
    w >= 2 && |line| > w + |OpenBox| && StartsWith(line[w..], OpenBox)
  }

  /** The stripped `title` group of a child line. */
  function ChildTitle(line: string): string
    requires IsChild(line)
  {
    Strip(line[LeadingSpaces(line) + |OpenBox|..])
  }

  /** A checked line matches neither open-entry pattern. */
  lemma DoneIsNeitherTopNorChild(line: string)
    requires IsDone(line)
    ensures !IsTop(line) && !IsChild(line)
  {
    assert line[3] == 'x';
    assert LeadingSpaces(line) == 0 by {
      assert !IsSpace(line[0]);
    }
  }

  // ----- The reference reading of a checklist: one item per block -----

  /** The first index at or after `from` holding a top-level line, or `|lines|`. */
  function NextTop(lines: seq<string>, from: nat): (n: nat)
    requires from <= |lines|
    ensures from <= n <= |lines|
    ensures forall j :: from <= j < n ==> !IsTop(lines[j])
    ensures n < |lines| ==> IsTop(lines[n])
    decreases |lines| - from
  {
    if from == |lines| || IsTop(lines[from]) then from else NextTop(lines, from + 1)
  }

  /** The titles of the child lines among `ls`, in order. */
  function ChildTitles(ls: seq<string>): seq<string> {
    if ls == [] then []
    else (if IsChild(ls[0]) then [ChildTitle(ls[0])] else []) + ChildTitles(ls[1..])
  }

  /**
   * The items of a checklist: every top-level line opens an item whose
   * children are the child lines between it and the next top-level line;
   * lines before the first top-level line contribute nothing.
   */
  function Items(lines: seq<string>): seq<TodoItem>
    decreases |lines|
  {
    if lines == [] then []
    else if !IsTop(lines[0]) then Items(lines[1..])
    else
      var n := NextTop(lines, 1);
      [TodoItem(TopTitle(lines[0]), ChildTitles(lines[1..n]))] + Items(lines[n..])
  }

  /** The effect of one more line on the items read so far. */
  function AddLine(items: seq<TodoItem>, line: string): (r: seq<TodoItem>)
    ensures |r| == |items| + (if IsTop(line) then 1 else 0)
  {
    if IsTop(line) then items + [TodoItem(TopTitle(line), [])]
    else if IsChild(line) && items != [] then
      var last := items[|items| - 1];
      items[..|items| - 1] + [last.(children := last.children + [ChildTitle(line)])]
    else items
  }

  lemma {:induction false} ChildTitlesSnoc(ls: seq<string>, l: string)
    ensures ChildTitles(ls + [l]) == ChildTitles(ls) + (if IsChild(l) then [ChildTitle(l)] else [])
    decreases |ls|
  {
    if ls == [] {
      assert ls + [l] == [l];
    } else {
      ChildTitlesSnoc(ls[1..], l);
      ChildTitlesSnocStep(ls, l);
    }
  }

  /** One more line in front: the step of `ChildTitlesSnoc`. */
  lemma ChildTitlesSnocStep(ls: seq<string>, l: string)
    requires ls != []
    requires ChildTitles(ls[1..] + [l]) == ChildTitles(ls[1..]) + (if IsChild(l) then [ChildTitle(l)] else [])
    ensures ChildTitles(ls + [l]) == ChildTitles(ls) + (if IsChild(l) then [ChildTitle(l)] else [])
  {
    SnocSlices(ls, l, 1);
    var head := if IsChild(ls[0]) then [ChildTitle(ls[0])] else [];
    Reassociate(head, ChildTitles(ls[1..]), if IsChild(l) then [ChildTitle(l)] else [],
      ChildTitles(ls + [l]), ChildTitles(ls[1..] + [l]));
  }

  lemma Reassociate<T>(h: seq<T>, m: seq<T>, t: seq<T>, whole: seq<T>, tail: seq<T>)
    requires whole == h + tail && tail == m + t
    ensures whole == (h + m) + t
  {
  }

  lemma AddLineCons(item: TodoItem, rest: seq<TodoItem>, line: string)
    requires rest != []
    ensures AddLine([item] + rest, line) == [item] + AddLine(rest, line)
  {
    if IsTop(line) {
      ConsSnoc(item, rest, TodoItem(TopTitle(line), []));
    } else if IsChild(line) {
      ConsExtendLast(item, rest, ChildTitle(line));
    }
  }

  lemma ConsSnoc(item: TodoItem, rest: seq<TodoItem>, x: TodoItem)
    ensures ([item] + rest) + [x] == [item] + (rest + [x])
  {
  }

  /** Adding a child to the last item commutes with putting an item in front. */
  lemma ConsExtendLast(item: TodoItem, rest: seq<TodoItem>, c: string)
    requires rest != []
    ensures var all := [item] + rest;
      var last, rlast := all[|all| - 1], rest[|rest| - 1];
      all[..|all| - 1] + [last.(children := last.children + [c])]
      == [item] + (rest[..|rest| - 1] + [rlast.(children := rlast.children + [c])])
  {
    var all := [item] + rest;
    assert all[|all| - 1] == rest[|rest| - 1];
    assert all[..|all| - 1] == [item] + rest[..|rest| - 1];
  }

  /**
   * Reading one more line: a top-level line appends a new item, a child
   * line extends the children of the most recent item (and is dropped when
   * there is none), and any other line changes nothing.
   */
  lemma {:induction false} ItemsSnoc(lines: seq<string>, l: string)
    ensures Items(lines + [l]) == AddLine(Items(lines), l)
    decreases |lines|
  {
    var all := lines + [l];
    if lines == [] {
      assert all == [l];
      if IsTop(l) {
        assert NextTop(all, 1) == 1;
        assert all[1..1] == [] && all[1..] == [];
      } else {
        assert all[1..] == [];
      }
    } else if !IsTop(lines[0]) {
      assert all[1..] == lines[1..] + [l];
      ItemsSnoc(lines[1..], l);
    } else {
      var n := NextTop(lines, 1);
      if n < |lines| {
        ItemsSnoc(lines[n..], l);
        ItemsSnocInnerBlock(lines, l);
      } else {
        ItemsSnocLastBlock(lines, l);
      }
    }
  }

  /** `ItemsSnoc` when the new line falls after a later block than the first. */
  /** A list starting with a top-level line starts with that line's item and its block of children, up to `n`. */
  lemma ItemsOfTop(lines: seq<string>, n: nat)
    requires lines != [] && IsTop(lines[0]) && 1 <= n <= |lines| && NextTop(lines, 1) == n
    ensures Items(lines) == [TodoItem(TopTitle(lines[0]), ChildTitles(lines[1..n]))] + Items(lines[n..])
  {
  }

  lemma ItemsSnocInnerBlock(lines: seq<string>, l: string)
    requires lines != [] && IsTop(lines[0]) && NextTop(lines, 1) < |lines|
    requires Items(lines[NextTop(lines, 1)..] + [l]) == AddLine(Items(lines[NextTop(lines, 1)..]), l)
    ensures Items(lines + [l]) == AddLine(Items(lines), l)
  {
    var n := NextTop(lines, 1);
    var item := TodoItem(TopTitle(lines[0]), ChildTitles(lines[1..n]));
    ItemsOfTop(lines, n);
    ItemsSnocKeepsFirstBlock(lines, l);
    ItemsOfTop(lines[n..], NextTop(lines[n..], 1));
    AddLineCons(item, Items(lines[n..]), l);
  }

  /** A line added after a later block leaves the first block's item as it is. */
  lemma ItemsSnocKeepsFirstBlock(lines: seq<string>, l: string)
    requires lines != [] && IsTop(lines[0]) && NextTop(lines, 1) < |lines|
    ensures var n := NextTop(lines, 1);
      Items(lines + [l]) == [TodoItem(TopTitle(lines[0]), ChildTitles(lines[1..n]))] + Items(lines[n..] + [l])
  {
    var n := NextTop(lines, 1);
    assert NextTop(lines + [l], 1) == n by {
      NextTopSnoc(lines, l, 1);
    }
    SnocSlices(lines, l, n);
    FirstBlockOf(lines + [l], n, lines[0], lines[1..n], lines[n..] + [l]);
  }

  /** Slicing a list with one more element at its end, before that end. */
  lemma SnocSlices<T>(xs: seq<T>, x: T, n: nat)
    requires 1 <= n <= |xs|
    ensures (xs + [x])[0] == xs[0]
    ensures (xs + [x])[1..n] == xs[1..n]
    ensures (xs + [x])[n..] == xs[n..] + [x]
  {
    assert (xs + [x])[n..] == xs[n..] + [x];
  }

  /** `ItemsOfTop` with the head line, the block and the rest named from outside. */
  lemma FirstBlockOf(all: seq<string>, n: nat, head: string, block: seq<string>, rest: seq<string>)
    requires 1 <= n <= |all| && NextTop(all, 1) == n
    requires all[0] == head && IsTop(head) && all[1..n] == block && all[n..] == rest
    ensures Items(all) == [TodoItem(TopTitle(head), ChildTitles(block))] + Items(rest)
  {
    ItemsOfTop(all, n);
  }

  /** `ItemsSnoc` when the new line falls in, or right after, the only block. */
  lemma ItemsSnocLastBlock(lines: seq<string>, l: string)
    requires lines != [] && IsTop(lines[0]) && NextTop(lines, 1) == |lines|
    ensures Items(lines + [l]) == AddLine(Items(lines), l)
  {
    var item := TodoItem(TopTitle(lines[0]), ChildTitles(lines[1..]));
    SingleBlock(lines);
    NextTopSnoc(lines, l, 1);
    if IsTop(l) {
      NewBlockAfterLast(lines, l, item);
    } else {
      SameBlockAsLast(lines, l, item);
    }
  }

  lemma NewBlockAfterLast(lines: seq<string>, l: string, item: TodoItem)
    requires lines != [] && IsTop(lines[0]) && IsTop(l)
    requires item == TodoItem(TopTitle(lines[0]), ChildTitles(lines[1..]))
    requires NextTop(lines + [l], 1) == |lines|
    ensures Items(lines + [l]) == [item, TodoItem(TopTitle(l), [])]
  {
    var all := lines + [l];
    var n := |lines|;
    assert all[0] == lines[0];
    assert all[1..n] == lines[1..];
    assert all[n..] == [l];
    assert Items([l]) == [TodoItem(TopTitle(l), [])] by {
      assert [l][1..] == [] && NextTop([l], 1) == 1 && [l][1..1] == [];
    }
  }

  /** A checklist that is a single block reads as a single item. */
  lemma SingleBlock(lines: seq<string>)
    requires lines != [] && IsTop(lines[0]) && NextTop(lines, 1) == |lines|
    ensures Items(lines) == [TodoItem(TopTitle(lines[0]), ChildTitles(lines[1..]))]
  {
    assert lines[1..|lines|] == lines[1..];
    assert lines[|lines|..] == [];
  }

  lemma SameBlockAsLast(lines: seq<string>, l: string, item: TodoItem)
    requires lines != [] && IsTop(lines[0]) && !IsTop(l)
    requires item == TodoItem(TopTitle(lines[0]), ChildTitles(lines[1..]))
    requires NextTop(lines + [l], 1) == |lines| + 1
    ensures Items(lines + [l]) == AddLine([item], l)
  {
    var all := lines + [l];
    var kids := ChildTitles(lines[1..] + [l]);
    assert Items(all) == [TodoItem(item.title, kids)] by {
      assert all[0] == lines[0];
      assert all[1..] == lines[1..] + [l];
      SingleBlock(all);
    }
    assert kids == item.children + (if IsChild(l) then [ChildTitle(l)] else []) by {
      ChildTitlesSnoc(lines[1..], l);
    }
    if IsChild(l) {
      AddChildToSingle(item, l);
    } else {
      assert kids == item.children;
      assert AddLine([item], l) == [item];
    }
  }

  lemma {:induction false} NextTopSnoc(lines: seq<string>, l: string, from: nat)
    requires from <= |lines|
    ensures NextTop(lines + [l], from) ==
      if NextTop(lines, from) < |lines| || IsTop(l) then NextTop(lines, from) else |lines| + 1
    decreases |lines| - from
  {
    var all := lines + [l];
    if from < |lines| {
      assert all[from] == lines[from];
      if !IsTop(lines[from]) {
        NextTopSnoc(lines, l, from + 1);
      }
    } else {
      assert all[from] == l;
      if !IsTop(l) {
        assert NextTop(all, from + 1) == |all|;
      }
    }
  }

  // ----- The parser as written: one pass with a mutable current item -----

  /** `parse_todo_markdown(md)`: the work items of the checklist, in document order. */
  method ParseTodoMarkdown(md: string) returns (items: seq<TodoItem>)
    ensures items == Items(SplitLines(md))
  {
    var lines := SplitLines(md);
    items := [];
    var current: Option<TodoItem> := None;
    for i := 0 to |lines|
      invariant current.None? ==> items == [] && Items(lines[..i]) == []
      invariant current.Some? ==> Items(lines[..i]) == items + [current.value]
    {
      var line := lines[i];
      assert lines[..i + 1] == lines[..i] + [line];
      ItemsSnoc(lines[..i], line);
      if IsDone(line) {
        DoneIsNeitherTopNorChild(line);
        continue;
      }
      if IsTop(line) {
        if current.Some? {
          items := items + [current.value];
        }
        current := Some(TodoItem(TopTitle(line), []));
        continue;
      }
      if IsChild(line) && current.Some? {
        var c := current.value;
        current := Some(c.(children := c.children + [ChildTitle(line)]));
        assert (items + [c])[..|items|] == items;
      }
    }
    assert lines[..|lines|] == lines;
    if current.Some? {
      items := items + [current.value];
    }
  }

  // ----- Properties of the reading -----

  /** The titles of a list of items. */
  function Titles(items: seq<TodoItem>): seq<string> {
    if items == [] then [] else Titles(items[..|items| - 1]) + [items[|items| - 1].title]
  }

  /** The stripped titles of the top-level lines, in document order. */
  function TopTitles(lines: seq<string>): seq<string> {
    if lines == [] then []
    else
      var last := lines[|lines| - 1];
      TopTitles(lines[..|lines| - 1]) + (if IsTop(last) then [TopTitle(last)] else [])
  }

  lemma TitlesAddLine(items: seq<TodoItem>, line: string)
    ensures Titles(AddLine(items, line)) == Titles(items) + (if IsTop(line) then [TopTitle(line)] else [])
  {
    var r := AddLine(items, line);
    if IsTop(line) {
      assert r[..|r| - 1] == items;
    } else if IsChild(line) && items != [] {
      assert r[..|r| - 1] == items[..|items| - 1];
    }
  }

  /** There is exactly one item per top-level line, carrying that line's stripped title, in document order. */
  lemma {:induction false} ItemTitles(lines: seq<string>)
    ensures Titles(Items(lines)) == TopTitles(lines)
    decreases |lines|
  {
    if lines != [] {
      var init, last := lines[..|lines| - 1], lines[|lines| - 1];
      assert lines == init + [last];
      ItemTitles(init);
      ItemsSnoc(init, last);
      TitlesAddLine(Items(init), last);
    }
  }

  /** Lines before the first top-level line, child lines among them included, are dropped. */
  lemma {:induction false} LeadingLinesDropped(pre: seq<string>, rest: seq<string>)
    requires forall k :: 0 <= k < |pre| ==> !IsTop(pre[k])
    ensures Items(pre + rest) == Items(rest)
    decreases |pre|
  {
    if pre == [] {
      assert pre + rest == rest;
    } else {
      assert (pre + rest)[0] == pre[0];
      assert (pre + rest)[1..] == pre[1..] + rest;
      LeadingLinesDropped(pre[1..], rest);
    }
  }

  /** A line that is neither a top-level nor a child line, such as a checked one, can be removed without changing the items. */
  lemma {:induction false} InertLineIgnored(a: seq<string>, x: string, b: seq<string>)
    requires !IsTop(x) && !IsChild(x)
    ensures Items(a + [x] + b) == Items(a + b)
    decreases |b|
  {
    if b == [] {
      assert a + [x] + b == a + [x];
      assert a + b == a;
      ItemsSnoc(a, x);
    } else {
      var init, last := b[..|b| - 1], b[|b| - 1];
      InertLineIgnored(a, x, init);
      assert a + [x] + b == (a + [x] + init) + [last];
      assert a + b == (a + init) + [last];
      ItemsSnoc(a + [x] + init, last);
      ItemsSnoc(a + init, last);
    }
  }

  /** A checked line never opens an item and never changes which item is current. */
  lemma DoneLineIgnored(a: seq<string>, d: string, b: seq<string>)
    requires IsDone(d)
    ensures Items(a + [d] + b) == Items(a + b)
  {
    DoneIsNeitherTopNorChild(d);
    InertLineIgnored(a, d, b);
  }

  // ----- Worked examples -----

  lemma TopLine(title: string)
    requires title != [] && !IsSpace(title[0]) && !IsSpace(title[|title| - 1])
    ensures IsTop(OpenBox + title) && TopTitle(OpenBox + title) == title
  {
    var line := OpenBox + title;
    assert line[..|OpenBox|] == OpenBox;
    assert line[|OpenBox|..] == title;
    assert LeadingSpaces(title) == 0;
  }

  lemma ChildLine(title: string)
    requires title != [] && !IsSpace(title[0]) && !IsSpace(title[|title| - 1])
    ensures IsChild("  " + OpenBox + title) && !IsTop("  " + OpenBox + title)
    ensures ChildTitle("  " + OpenBox + title) == title
  {
    var line := "  " + OpenBox + title;
    assert line[0] == ' ';
    assert line[2] == '-';
    assert LeadingSpaces(line) == 2 by {
      assert line[1..][1..] == line[2..];
    }
    assert line[2..][..|OpenBox|] == OpenBox;
    assert line[2 + |OpenBox|..] == title;
    assert LeadingSpaces(title) == 0;
  }

  lemma AddChildToSingle(item: TodoItem, line: string)
    requires !IsTop(line) && IsChild(line)
    ensures AddLine([item], line) == [TodoItem(item.title, item.children + [ChildTitle(line)])]
  {
    assert [item][..0] == [];
  }

  /** A checked line and then a top-level line: one item without children. */
  lemma SampleFirstItem(d: string, t1: string)
    requires IsDone(d) && IsTop(t1)
    ensures Items([d, t1]) == [TodoItem(TopTitle(t1), [])]
  {
    DoneIsNeitherTopNorChild(d);
    ItemsSnoc([], d);
    assert [] + [d] == [d];
    assert Items([d]) == [];
    ItemsSnoc([d], t1);
    assert [d] + [t1] == [d, t1];
  }

  /** A child line after the first item becomes its subtask. */
  lemma SampleFirstChild(d: string, t1: string, ca: string)
    requires IsDone(d) && IsTop(t1) && IsChild(ca) && !IsTop(ca)
    ensures Items([d, t1, ca]) == [TodoItem(TopTitle(t1), [ChildTitle(ca)])]
  {
    var first := TodoItem(TopTitle(t1), []);
    SampleFirstItem(d, t1);
    ItemsSnoc([d, t1], ca);
    assert [d, t1] + [ca] == [d, t1, ca];
    AddChildToSingle(first, ca);
    assert first.children + [ChildTitle(ca)] == [ChildTitle(ca)];
  }

  /** Two child lines after the first item become its subtasks, in order. */
  lemma SampleChildren(d: string, t1: string, ca: string, cb: string)
    requires IsDone(d) && IsTop(t1)
    requires IsChild(ca) && !IsTop(ca) && IsChild(cb) && !IsTop(cb)
    ensures Items([d, t1, ca, cb]) == [TodoItem(TopTitle(t1), [ChildTitle(ca), ChildTitle(cb)])]
  {
    var withA := TodoItem(TopTitle(t1), [ChildTitle(ca)]);
    SampleFirstChild(d, t1, ca);
    ItemsSnoc([d, t1, ca], cb);
    assert [d, t1, ca] + [cb] == [d, t1, ca, cb];
    AddChildToSingle(withA, cb);
    assert withA.children + [ChildTitle(cb)] == [ChildTitle(ca), ChildTitle(cb)];
  }

  /**
   * The shape of the checklist in the parser's test: a checked line, a
   * top-level line, two child lines and another top-level line.
   */
  lemma SampleShape(d: string, t1: string, ca: string, cb: string, t2: string)
    requires IsDone(d) && IsTop(t1) && IsTop(t2)
    requires IsChild(ca) && !IsTop(ca) && IsChild(cb) && !IsTop(cb)
    ensures Items([d, t1, ca, cb, t2])
      == [TodoItem(TopTitle(t1), [ChildTitle(ca), ChildTitle(cb)]), TodoItem(TopTitle(t2), [])]
  {
    SampleChildren(d, t1, ca, cb);
    ItemsSnoc([d, t1, ca, cb], t2);
    assert [d, t1, ca, cb] + [t2] == [d, t1, ca, cb, t2];
  }

  lemma SampleLineTexts()
    ensures OpenBox + "top 1" == "- [ ] top 1" && OpenBox + "top 2" == "- [ ] top 2"
    ensures "  " + OpenBox + "child a" == "  - [ ] child a"
    ensures "  " + OpenBox + "child b" == "  - [ ] child b"
  {
  }

  /** The checklist of the parser's test, after its `.strip()`, written line by line. */
  const SampleMarkdown: string :=
    "- [x] done 1 [#1](url)" + "\n" + ("- [ ] top 1" + "\n" + ("  - [ ] child a" + "\n" + ("  - [ ] child b" + "\n" + "- [ ] top 2")))

  /** `splitlines` of the test's checklist gives its five lines. */
  lemma SampleLines()
    ensures SplitLines(SampleMarkdown)
      == ["- [x] done 1 [#1](url)", "- [ ] top 1", "  - [ ] child a", "  - [ ] child b", "- [ ] top 2"]
  {
    var l1, l2, l3, l4, l5 := "- [x] done 1 [#1](url)", "- [ ] top 1", "  - [ ] child a", "  - [ ] child b", "- [ ] top 2";
    PrintableLine(l1);
    PrintableLine(l2);
    PrintableLine(l3);
    PrintableLine(l4);
    PrintableLine(l5);
    var lines := [l1, l2, l3, l4, l5];
    assert JoinLines(lines[4..]) == l5 by { assert lines[4..] == [l5]; }
    assert JoinLines(lines[3..]) == l4 + "\n" + l5 by { assert lines[3..][1..] == lines[4..]; }
    assert JoinLines(lines[2..]) == l3 + "\n" + JoinLines(lines[3..]) by { assert lines[2..][1..] == lines[3..]; }
    assert JoinLines(lines[1..]) == l2 + "\n" + JoinLines(lines[2..]) by { assert lines[1..][1..] == lines[2..]; }
    assert SampleMarkdown == JoinLines(lines);
    SplitLinesOfJoined(lines);
  }

  /** Printable ASCII holds no line break. */
  lemma PrintableLine(s: string)
    requires forall i :: 0 <= i < |s| ==> ' ' <= s[i] <= '~'
    ensures NoLineBreak(s)
  {
  }

  /**
   * The checklist of the parser's test: the checked line is skipped, both
   * open top-level lines become items in order, and the indented lines are
   * the first item's subtasks.
   */
  lemma SampleChecklist()
    ensures Items(SplitLines(SampleMarkdown))
      == [TodoItem("top 1", ["child a", "child b"]), TodoItem("top 2", [])]
  {
    SampleLines();
    SampleLineKinds();
    SampleShape("- [x] done 1 [#1](url)", "- [ ] top 1", "  - [ ] child a", "  - [ ] child b", "- [ ] top 2");
  }

  /** The parser's test as a call: the titles are `top 1`, `top 2`, and the first item's children `child a`, `child b`. */
  method ParseSample() returns (items: seq<TodoItem>)
    ensures |items| == 2 && items[0].title == "top 1" && items[1].title == "top 2"
    ensures items[0].children == ["child a", "child b"]
  {
    items := ParseTodoMarkdown(SampleMarkdown);
    SampleChecklist();
  }

  lemma SampleLineKinds()
    ensures IsDone("- [x] done 1 [#1](url)")
    ensures IsTop("- [ ] top 1") && TopTitle("- [ ] top 1") == "top 1"
    ensures IsTop("- [ ] top 2") && TopTitle("- [ ] top 2") == "top 2"
    ensures IsChild("  - [ ] child a") && !IsTop("  - [ ] child a") && ChildTitle("  - [ ] child a") == "child a"
    ensures IsChild("  - [ ] child b") && !IsTop("  - [ ] child b") && ChildTitle("  - [ ] child b") == "child b"
  {
    SampleLineTexts();
    SampleDoneKind();
    SampleTopKinds();
    SampleChildKind("child a");
    SampleChildKind("child b");
  }

  lemma SampleDoneKind()
    ensures IsDone("- [x] done 1 [#1](url)")
  {
    var d := "- [x] done 1 [#1](url)";
    assert d[..|DoneBox|] == DoneBox;
  }

  lemma SampleTopKinds()
    ensures IsTop("- [ ] top 1") && TopTitle("- [ ] top 1") == "top 1"
    ensures IsTop("- [ ] top 2") && TopTitle("- [ ] top 2") == "top 2"
  {
    SampleLineTexts();
    TopLine("top 1");
    TopLine("top 2");
  }

  lemma SampleChildKind(title: string)
    requires title == "child a" || title == "child b"
    ensures var line := "  " + OpenBox + title;
      IsChild(line) && !IsTop(line) && ChildTitle(line) == title
  {
    ChildLine(title);
  }

  /**
   * A checked line does not close the item before it: an indented open line
   * after a checked one becomes a subtask of the last open top-level item.
   */
  lemma {:induction false} ChildAfterCheckedJoinsPreviousItem(t: string, d: string, c: string)
    requires IsTop(t) && IsDone(d) && IsChild(c) && !IsTop(c)
    ensures Items([t, d, c]) == [TodoItem(TopTitle(t), [ChildTitle(c)])]
  {
    DoneIsNeitherTopNorChild(d);
    var first := TodoItem(TopTitle(t), []);
    var l1 := [] + [t];
    var l2 := l1 + [d];
    var l3 := l2 + [c];
    assert Items(l1) == [first] by { ItemsSnoc([], t); }
    assert Items(l2) == [first] by { ItemsSnoc(l1, d); }
    ItemsSnoc(l2, c);
    AddChildToSingle(first, c);
    assert first.children + [ChildTitle(c)] == [ChildTitle(c)];
    assert l3 == [t, d, c];
  }
}
