/** What an accepted body looks like: its constructs concatenate to it and are well nested. */
module HtmlNesting {
  import opened Wrappers
  import opened HtmlTags
  import opened HtmlProjection

  lemma {:induction false} ScanJoins(reader: Reader, s: string, stack: seq<string>)
    requires Sound(reader) && Scan(reader, s, stack).Items?
    ensures Join(Scan(reader, s, stack).items) == s
    ensures Nest(Scan(reader, s, stack).items, stack) == Some([])
    ensures forall item :: item in Scan(reader, s, stack).items ==> item.text != "" && ImageIsVoid(item) && Leads(item)
    decreases |s|
  {
    if s != "" {
      var item := reader(s, stack).item;
      ScanJoins(reader, s[|item.text|..], After(item, stack).value);
      assert s == item.text + s[|item.text|..];
    }
  }

  lemma {:induction false} TagsOfFit(items: seq<Item>, at: nat, stack: seq<string>)
    requires forall item :: item in items ==> item.text != "" && Leads(item)
    ensures Ordered(TagsOf(items, at, stack), at + |Join(items)|)
    ensures forall tag :: tag in TagsOf(items, at, stack) ==> at <= tag.start
  {
    if items != [] {
      var next := at + |items[0].text|;
      var rest := TagsOf(items[1..], next, StackAfter(items[0], stack));
      TagsOfFit(items[1..], next, StackAfter(items[0], stack));
      MoreTagsFit(items[0], at, stack, rest, at + |Join(items)|);
    }
  }

  lemma MoreTagsFit(item: Item, at: nat, stack: seq<string>, rest: seq<Tag>, end: nat)
    requires item.text != "" && Leads(item) && at + |item.text| <= end
    requires Ordered(rest, end) && forall tag :: tag in rest ==> at + |item.text| <= tag.start
    ensures Ordered(TagOf(item, at, stack) + rest, end)
    ensures forall tag :: tag in TagOf(item, at, stack) + rest ==> at <= tag.start
  {
    if item.Open? { OneTagFits(TagOf(item, at, stack)[0], rest, end); } else { assert [] + rest == rest; }
  }

  lemma OneTagFits(first: Tag, rest: seq<Tag>, end: nat)
    requires first.start < first.end <= end && Ordered(rest, end)
             && forall tag :: tag in rest ==> first.end <= tag.start
    ensures Ordered([first] + rest, end)
  {
    var all := [first] + rest;
    forall i | 0 <= i < |all| ensures all[i].start < all[i].end <= end {
      if i > 0 { assert all[i] == rest[i - 1]; }
    }
    forall i, j | 0 <= i < j < |all| ensures all[i].end <= all[j].start {
      assert all[j] == rest[j - 1];
      if i > 0 { assert all[i] == rest[i - 1]; }
    }
  }

  lemma ProjectedTagsFitBy(reader: Reader, html: string)
    requires Sound(reader)
    ensures ProjectionBy(reader, html).Projected? ==> Ordered(ProjectionBy(reader, html).tags, |html|)
  {
    if ProjectionBy(reader, html).Projected? {
      ScanJoins(reader, html, []);
      TagsOfFit(Scan(reader, html, []).items, 0, []);
    }
  }

  /** The tags of an accepted body have ordered, disjoint ranges. */
  lemma ProjectedTagsFit(html: string)
    requires ProjectionOf(html).Projected?
    ensures Ordered(ProjectionOf(html).tags, |html|)
  {
    ReadItemIsSound();
    ProjectedTagsFitBy(ReadItem, html);
  }

  // ---------------------------------------------------------------- nesting

  predicate IsNeutral(item: Item) {
    match item
    case Close(_, _) => false
    case Open(_, _, start) => !start.opens
    case _ => true
  }

  /** The usual grammar: a body is empty, or starts with a construct that opens nothing, or
      with an element that holds a body and is closed by its own end tag. */
  predicate Balanced(items: seq<Item>)
    decreases |items|
  {
    || items == []
    || (IsNeutral(items[0]) && Balanced(items[1..]))
    || (items[0].Open? && !IsNeutral(items[0])
        && exists k :: 1 <= k < |items| && IsElement(items, k))
  }

  /** The element that starts the list ends at `k`, and the rest is a body again. */
  predicate IsElement(items: seq<Item>, k: nat)
    requires items != [] && items[0].Open? && 1 <= k < |items|
    decreases |items|, 0
  {
    && items[k].Close? && items[k].name == items[0].start.name
    && Balanced(items[1..k]) && Balanced(items[k + 1..])
  }

  lemma {:induction false} NestAppends(first: seq<Item>, rest: seq<Item>, stack: seq<string>)
    ensures Nest(first + rest, stack)
         == if Nest(first, stack).None? then None else Nest(rest, Nest(first, stack).value)
  {
    if first == [] {
      assert first + rest == rest;
    } else {
      assert (first + rest)[1..] == first[1..] + rest;
      if After(first[0], stack).Some? {
        NestAppends(first[1..], rest, After(first[0], stack).value);
      }
    }
  }

  /** A balanced body leaves whatever was open as it was. */
  lemma {:induction false} BalancedNests(items: seq<Item>, stack: seq<string>)
    requires Balanced(items)
    ensures Nest(items, stack) == Some(stack)
    decreases |items|
  {
    if items == [] {
    } else if IsNeutral(items[0]) && Balanced(items[1..]) {
      BalancedNests(items[1..], stack);
    } else {
      var k :| 1 <= k < |items| && IsElement(items, k);
      var inner := stack + [items[0].start.name];
      BalancedNests(items[1..k], inner);
      BalancedNests(items[k + 1..], stack);
      assert inner[..|inner| - 1] == stack;
      assert items[1..] == items[1..k] + ([items[k]] + items[k + 1..]);
      NestAppends(items[1..k], [items[k]] + items[k + 1..], inner);
      assert ([items[k]] + items[k + 1..])[1..] == items[k + 1..];
    }
  }

  /** The innermost open element is closed at `k`, and everything before is balanced. */
  predicate IsClosedAt(items: seq<Item>, stack: seq<string>, name: string, k: nat) {
    && k < |items| && items[k].Close? && items[k].name == name && Balanced(items[..k])
    && Nest(items, stack + [name]) == Nest(items[k + 1..], stack)
  }

  lemma {:induction false} ClosesBalanced(items: seq<Item>, stack: seq<string>, name: string) returns (k: nat)
    requires Nest(items, stack + [name]).Some? && |Nest(items, stack + [name]).value| <= |stack|
    ensures IsClosedAt(items, stack, name, k)
    decreases |items|
  {
    if items[0].Close? {
      ClosesAtOnce(items, stack, name);
      k := 0;
    } else if IsNeutral(items[0]) {
      var n := ClosesBalanced(items[1..], stack, name);
      ClosesAfterNeutral(items, stack, name, n);
      k := n + 1;
    } else {
      var m := ClosesBalanced(items[1..], stack + [name], items[0].start.name);
      var n := ClosesBalanced(items[1..][m + 1..], stack, name);
      ClosesAfterElement(items, stack, name, m, n);
      k := m + 2 + n;
    }
  }

  lemma ClosesAtOnce(items: seq<Item>, stack: seq<string>, name: string)
    requires Nest(items, stack + [name]).Some? && items != [] && items[0].Close?
    ensures IsClosedAt(items, stack, name, 0)
  {
    var open := stack + [name];
    assert open[..|open| - 1] == stack;
  }

  lemma ClosesAfterNeutral(items: seq<Item>, stack: seq<string>, name: string, n: nat)
    requires items != [] && IsNeutral(items[0]) && IsClosedAt(items[1..], stack, name, n)
    ensures IsClosedAt(items, stack, name, n + 1)
  {
    assert items[..n + 1][1..] == items[1..][..n];
    assert items[1..][n + 1..] == items[n + 2..];
  }

  lemma ClosesAfterElement(items: seq<Item>, stack: seq<string>, name: string, m: nat, n: nat)
    requires items != [] && items[0].Open? && !IsNeutral(items[0])
    requires IsClosedAt(items[1..], stack + [name], items[0].start.name, m)
    requires IsClosedAt(items[1..][m + 1..], stack, name, n)
    ensures IsClosedAt(items, stack, name, m + 2 + n)
  {
    ElementThenBalanced(items, m, n);
    assert items[1..][m + 1..][n + 1..] == items[m + 2 + n + 1..];
  }

  lemma ElementThenBalanced(items: seq<Item>, m: nat, k: nat)
    requires items != [] && items[0].Open? && !IsNeutral(items[0])
    requires m < |items[1..]| && items[1..][m].Close? && items[1..][m].name == items[0].start.name
    requires Balanced(items[1..][..m])
    requires k <= |items[1..][m + 1..]| && Balanced(items[1..][m + 1..][..k])
    ensures Balanced(items[..m + 2 + k])
  {
    var whole := items[..m + 2 + k];
    assert whole[1..m + 1] == items[1..][..m];
    assert whole[m + 2..] == items[1..][m + 1..][..k];
    assert whole[m + 1] == items[1..][m];
    assert IsElement(whole, m + 1);
  }

  lemma {:induction false} NestedIsBalanced(items: seq<Item>)
    requires Nest(items, []) == Some([])
    ensures Balanced(items)
    decreases |items|
  {
    if items == [] {
    } else if IsNeutral(items[0]) {
      NestedIsBalanced(items[1..]);
    } else if items[0].Open? {
      assert [] + [items[0].start.name] == [items[0].start.name];
      var m := ClosesBalanced(items[1..], [], items[0].start.name);
      var rest := items[1..][m + 1..];
      NestedIsBalanced(rest);
      assert rest[..|rest|] == rest;
      ElementThenBalanced(items, m, |rest|);
      assert items[..m + 2 + |rest|] == items;
    }
  }

  /** The stack discipline of the loop accepts exactly the balanced bodies. */
  lemma NestingIsBalance(items: seq<Item>)
    ensures Nest(items, []) == Some([]) <==> Balanced(items)
  {
    if Balanced(items) { BalancedNests(items, []); }
    if Nest(items, []) == Some([]) { NestedIsBalanced(items); }
  }

  /** A body that a reader accepts is the concatenation of a balanced list of constructs. */
  lemma AcceptedByReader(reader: Reader, html: string)
    requires Sound(reader) && ProjectionBy(reader, html).Projected?
    ensures Scan(reader, html, []).Items? && Join(Scan(reader, html, []).items) == html
    ensures Balanced(Scan(reader, html, []).items)
  {
    ScanJoins(reader, html, []);
    NestingIsBalance(Scan(reader, html, []).items);
  }

  lemma AcceptedBodyIsBalanced(html: string)
    requires ProjectionOf(html).Projected?
    ensures ConstructsOf(html).Items? && Join(ConstructsOf(html).items) == html
    ensures Balanced(ConstructsOf(html).items)
  {
    ReadItemIsSound();
    AcceptedByReader(ReadItem, html);
  }

  /** What the loop accepts, wherever its searches land, is balanced as the loop reads it. */
  lemma LoopAcceptsBalanced(html: string)
    requires LoopProjection(html).Projected?
    ensures LoopConstructs(html).Items? && Join(LoopConstructs(html).items) == html
    ensures Balanced(LoopConstructs(html).items)
  {
    LoopReaderFollows(html);
    AcceptedByReader(LoopReader(html), html);
  }

  /** And its tags have ordered, disjoint ranges. */
  lemma LoopTagsFit(html: string)
    requires LoopProjection(html).Projected?
    ensures Ordered(LoopProjection(html).tags, |html|)
  {
    LoopReaderFollows(html);
    ProjectedTagsFitBy(LoopReader(html), html);
  }
}
