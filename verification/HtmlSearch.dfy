/** The search for the end of raw text in the lower-cased body. U+0130 is the one character whose
    lower case is longer, and moves everything behind it. Where the search lands is stated for
    every body, and so is when the loop reads the constructs that are meant. */
module HtmlSearch {
  import opened Wrappers
  import opened Characters
  import opened HtmlText
  import opened HtmlTags
  import opened HtmlProjection

  const COMBINING_DOT := '\U{307}'

  function Dots(s: string): nat { if s == "" then 0 else (if s[0] == DOTTED_I then 1 else 0) + Dots(s[1..]) }

  /** Where the character at `j` is found in the lower-cased text. */
  function Place(s: string, j: nat): nat
    requires j <= |s|
  {
    j + Dots(s[..j])
  }

  lemma {:induction false} LowerAppends(a: string, b: string)
    ensures Lower(a + b) == Lower(a) + Lower(b)
  {
    if a == "" {
      assert a + b == b;
    } else {
      assert (a + b)[1..] == a[1..] + b;
      LowerAppends(a[1..], b);
    }
  }

  lemma {:induction false} LowerLength(s: string)
    ensures |Lower(s)| == |s| + Dots(s)
  {
    if s != "" { LowerLength(s[1..]); }
  }

  lemma LowerFrom(s: string, j: nat)
    requires j <= |s|
    ensures Place(s, j) <= |Lower(s)| && Lower(s)[Place(s, j)..] == Lower(s[j..])
  {
    assert s == s[..j] + s[j..];
    LowerAppends(s[..j], s[j..]);
    LowerLength(s[..j]);
  }

  lemma {:induction false} NoDots(s: string)
    ensures Dots(s) == 0 <==> DOTTED_I !in s
  {
    if s != "" { NoDots(s[1..]); }
  }

  /** A character of the lower-cased text that is no combining dot comes from one of the text. */
  lemma {:induction false} ComesFrom(s: string, m: nat) returns (j: nat)
    requires m < |Lower(s)| && Lower(s)[m] != COMBINING_DOT
    ensures j < |s| && Place(s, j) == m
  {
    var width := if s[0] == DOTTED_I then 2 else 1;
    if m < width {
      j := 0;
    } else {
      var i := ComesFrom(s[1..], m - width);
      j := i + 1;
      assert s[..j][1..] == s[1..][..i];
    }
  }

  // ---------------------------------------------------------------- where the search lands

  predicate IsPlainElement(element: string) { DOTTED_I !in element && COMBINING_DOT !in element }

  lemma DottedFirst(t: string)
    requires t != "" && t[0] == DOTTED_I
    ensures |Lower(t)| >= 2 && Lower(t)[0] == 'i' && Lower(t)[1] == COMBINING_DOT
  {
  }

  /** A stretch without combining dots, and not ended by the `i` of one, is lower-cased in place. */
  lemma {:induction false} UndottedStretch(t: string, w: nat)
    requires 0 < w <= |Lower(t)| && Lower(t)[w - 1] != 'i' && forall i :: 0 <= i < w ==> Lower(t)[i] != COMBINING_DOT
    ensures w <= |t| && Lower(t)[..w] == LowerEach(t)[..w]
    decreases w
  {
    if t[0] == DOTTED_I {
      DottedFirst(t);
      assert false;
    }
    UndottedFirst(t);
    if w > 1 {
      assert forall i :: 0 <= i < w - 1 ==> Lower(t[1..])[i] == Lower(t)[i + 1];
      UndottedStretch(t[1..], w - 1);
      StretchGrows(LowerChar(t[0]), Lower(t[1..]), LowerEach(t[1..]), w - 1);
    }
  }

  lemma UndottedFirst(t: string)
    requires t != "" && t[0] != DOTTED_I
    ensures Lower(t) == [LowerChar(t[0])] + Lower(t[1..]) && LowerEach(t) == [LowerChar(t[0])] + LowerEach(t[1..])
  {
  }

  lemma StretchGrows(c: char, a: string, b: string, n: nat)
    requires n <= |a| && n <= |b| && a[..n] == b[..n]
    ensures ([c] + a)[..n + 1] == ([c] + b)[..n + 1]
  {
    assert ([c] + a)[..n + 1] == [c] + a[..n];
    assert ([c] + b)[..n + 1] == [c] + b[..n];
  }

  lemma StretchOfUndotted(t: string, w: nat)
    requires w <= |t| && DOTTED_I !in t[..w]
    ensures w <= |Lower(t)| && Lower(t)[..w] == LowerEach(t)[..w]
  {
    assert t == t[..w] + t[w..];
    LowerAppends(t[..w], t[w..]);
    LowerIsAligned(t[..w]);
    assert LowerEach(t)[..w] == LowerEach(t[..w]);
  }

  lemma ClosingWindow(lower: string, element: string)
    requires ClosesAt(lower, element, 0)
    ensures var w := 3 + |element|;
            && w <= |lower| && (lower[w - 1] == '>' || IsSpace(lower[w - 1]))
            && forall i :: 0 <= i < w - 1 ==> lower[i] == ("</" + element)[i]
  {
    assert lower[0..2 + |element|] == "</" + element;
    forall i | 0 <= i < 2 + |element| ensures lower[i] == ("</" + element)[i] {
      assert lower[i] == lower[0..2 + |element|][i];
    }
  }

  lemma SameWindow(a: string, b: string, element: string)
    requires ClosesAt(a, element, 0) && 3 + |element| <= |b| && a[..3 + |element|] == b[..3 + |element|]
    ensures ClosesAt(b, element, 0)
  {
    assert b[0..2 + |element|] == b[..3 + |element|][..2 + |element|] == a[..3 + |element|][..2 + |element|]
           == a[0..2 + |element|];
    assert b[2 + |element|] == b[..3 + |element|][2 + |element|] == a[2 + |element|];
  }

  /** A closing tag is one before lower-casing in place exactly if it is one after lower-casing. */
  lemma ClosesEitherWay(t: string, element: string)
    requires IsPlainElement(element)
    ensures ClosesAt(Lower(t), element, 0) <==> ClosesAt(LowerEach(t), element, 0)
  {
    var w := 3 + |element|;
    if ClosesAt(Lower(t), element, 0) {
      ClosingWindow(Lower(t), element);
      UndottedStretch(t, w);
      SameWindow(Lower(t), LowerEach(t), element);
    }
    if ClosesAt(LowerEach(t), element, 0) {
      ClosingWindow(LowerEach(t), element);
      forall i | 0 <= i < w ensures t[i] != DOTTED_I {
        assert LowerEach(t)[i] == LowerChar(t[i]);
      }
      StretchOfUndotted(t, w);
      SameWindow(LowerEach(t), Lower(t), element);
    }
  }

  /** The closing tag at `j` is met at `m`. */
  predicate Lands(html: string, element: string, j: nat, m: nat) {
    j < |html| && ClosesAt(LowerEach(html), element, j) && Place(html, j) == m
  }

  predicate LandsOn(html: string, element: string, m: nat) {
    exists j :: 0 <= j < |html| && Lands(html, element, j, m)
  }

  lemma ClosesWhereItLands(html: string, element: string, j: nat)
    requires IsPlainElement(element) && j <= |html|
    ensures ClosesAt(Lower(html), element, Place(html, j)) <==> ClosesAt(LowerEach(html), element, j)
  {
    LowerFrom(html, j);
    LowerRest(html, j);
    ClosesAlike(Lower(html), Place(html, j), LowerEach(html), j, html[j..], element);
  }

  lemma ClosesAlike(lower: string, m: nat, each: string, j: nat, rest: string, element: string)
    requires IsPlainElement(element) && m <= |lower| && j <= |each|
    requires lower[m..] == Lower(rest) && each[j..] == LowerEach(rest)
    ensures ClosesAt(lower, element, m) <==> ClosesAt(each, element, j)
  {
    ClosesFrom(lower, element, m, Lower(rest));
    ClosesFrom(each, element, j, LowerEach(rest));
    ClosesEitherWay(rest, element);
  }

  lemma ClosesFrom(s: string, element: string, at: nat, rest: string)
    requires at <= |s| && rest == s[at..]
    ensures ClosesAt(rest, element, 0) <==> ClosesAt(s, element, at)
  {
    ClosesShifts(s, element, at, 0);
  }

  /** What the lower-cased body offers are the closing tags of the body, moved. */
  lemma LandingsAreFound(html: string, element: string, m: nat)
    requires IsPlainElement(element)
    ensures ClosesAt(Lower(html), element, m) <==> LandsOn(html, element, m)
  {
    if ClosesAt(Lower(html), element, m) {
      StartsWithFirst(Lower(html), "</" + element, m);
      var j := ComesFrom(html, m);
      ClosesWhereItLands(html, element, j);
      assert Lands(html, element, j, m);
    }
    if LandsOn(html, element, m) {
      var j :| 0 <= j < |html| && Lands(html, element, j, m);
      ClosesWhereItLands(html, element, j);
    }
  }

  /** The search ends at the first place, from where it starts, on which a closing tag lands. */
  ghost predicate IsFirstLanding(html: string, element: string, from: nat, found: Option<nat>) {
    match found
    case None => forall m :: from <= m ==> !LandsOn(html, element, m)
    case Some(k) => from <= k && LandsOn(html, element, k) && forall m :: from <= m < k ==> !LandsOn(html, element, m)
  }

  /** Where the search lands, for every body. */
  lemma SearchLandsExactly(html: string, element: string, from: nat, found: Option<nat>)
    requires IsPlainElement(element)
    ensures FirstClose(Lower(html), element, from) == found <==> IsFirstLanding(html, element, from, found)
  {
    FirstLandingIsFound(html, element, from);
  }

  lemma FirstLandingIsFound(html: string, element: string, from: nat)
    requires IsPlainElement(element)
    ensures IsFirstLanding(html, element, from, FirstClose(Lower(html), element, from))
  {
    var first := FirstClose(Lower(html), element, from);
    forall m | from <= m && (first.Some? ==> m < first.value) ensures !LandsOn(html, element, m) {
      LandingsAreFound(html, element, m);
      if ClosesAt(Lower(html), element, m) { FirstCloseIsLeast(Lower(html), element, from, m); }
    }
    if first.Some? { LandingsAreFound(html, element, first.value); }
  }

  // ---------------------------------------------------------------- when it lands in place

  /** The search finds the end of the raw text where it is. */
  predicate IsRight(html: string, element: string, from: nat) {
    FirstClose(Lower(html), element, from) == FirstClose(LowerEach(html), element, from)
  }

  /** Exactly when the search is right: the first landing is the first closing tag. */
  lemma IsRightExactly(html: string, element: string, from: nat)
    requires IsPlainElement(element)
    ensures IsRight(html, element, from)
       <==> IsFirstLanding(html, element, from, FirstClose(LowerEach(html), element, from))
  {
    SearchLandsExactly(html, element, from, FirstClose(LowerEach(html), element, from));
  }

  /** Nothing in front of the end of the raw text moves it. */
  predicate Unmoved(html: string, element: string, from: nat)
    requires from <= |html|
  {
    match FirstClose(LowerEach(html), element, from)
    case None => DOTTED_I !in html[..from]
    case Some(k) => k <= |html| && DOTTED_I !in html[..k]
  }

  lemma PlaceOfUnmoved(html: string, j: nat, k: nat)
    requires j <= k <= |html| && DOTTED_I !in html[..k]
    ensures Place(html, j) == j
  {
    forall i | 0 <= i < j ensures html[..j][i] != DOTTED_I { assert html[..j][i] == html[..k][i]; }
    NoDots(html[..j]);
  }

  /** No U+0130 in front of the end of the raw text: the search is right. */
  lemma UnmovedIsRight(html: string, element: string, from: nat)
    requires IsPlainElement(element) && from <= |html| && Unmoved(html, element, from)
    ensures IsRight(html, element, from)
  {
    var first := FirstClose(LowerEach(html), element, from);
    var end := if first.Some? then first.value else from;
    forall m | from <= m && (first.Some? ==> m < first.value) ensures !LandsOn(html, element, m) {
      if LandsOn(html, element, m) {
        var j :| 0 <= j < |html| && Lands(html, element, j, m);
        if j <= end { PlaceOfUnmoved(html, j, end); }
        if from <= j { FirstCloseIsLeast(LowerEach(html), element, from, j); }
      }
    }
    if first.Some? {
      PlaceOfUnmoved(html, end, end);
      assert Lands(html, element, end, end);
    }
    IsRightExactly(html, element, from);
  }

  /** With U+0130 in front and a search that starts behind everything closed so far, it is wrong. */
  lemma MovedIsWrong(html: string, element: string, from: nat)
    requires IsPlainElement(element) && from <= |html| && FirstClose(LowerEach(html), element, from).Some?
    requires !Unmoved(html, element, from)
    requires forall j :: 0 <= j < from ==> !ClosesAt(LowerEach(html), element, j)
    ensures !IsRight(html, element, from)
  {
    var k := FirstClose(LowerEach(html), element, from).value;
    if IsRight(html, element, from) {
      IsRightExactly(html, element, from);
      var j :| 0 <= j < |html| && Lands(html, element, j, k);
      if j < k {
        if from <= j { FirstCloseIsLeast(LowerEach(html), element, from, j); }
      } else {
        NoDots(html[..j]);
      }
    }
  }

  // ---------------------------------------------------------------- when the loop reads what is meant

  /** Every search for the end of raw text, where the body has raw text, is right. */
  ghost predicate SearchesRight(reader: Reader, html: string, s: string, stack: seq<string>)
    requires Sound(reader)
    decreases |s|
  {
    || s == ""
    || (&& (InRawText(stack) ==> |s| <= |html| && IsRight(html, stack[|stack| - 1], |html| - |s|))
        && (reader(s, stack).Found? && After(reader(s, stack).item, stack).Some? ==>
              var item := reader(s, stack).item;
              SearchesRight(reader, html, s[|item.text|..], After(item, stack).value)))
  }

  /** What is left of a body. */
  predicate IsRest(html: string, s: string) { |s| <= |html| && html[|html| - |s|..] == s }

  /** On the rest of a body, the loop reads what is meant if it is not in raw text, or if its search
      is right; if it is wrong, it does not read the construct that is meant. */
  ghost predicate AgreesWhenRight(html: string, meant: Reader, loop: Reader) {
    forall s, stack {:trigger meant(s, stack)} {:trigger loop(s, stack)} :: IsRest(html, s) && s != "" ==>
      AgreesAt(html, s, stack, meant(s, stack), loop(s, stack))
  }

  predicate AgreesAt(html: string, s: string, stack: seq<string>, meant: Read, loop: Read)
    requires IsRest(html, s)
  {
    var right := InRawText(stack) ==> IsRight(html, stack[|stack| - 1], |html| - |s|);
    (right ==> loop == meant) && (!right && meant.Found? ==> loop != meant)
  }

  lemma {:induction false} ScansAgree(html: string, meant: Reader, loop: Reader, s: string, stack: seq<string>)
    requires Sound(meant) && Sound(loop) && AgreesWhenRight(html, meant, loop) && IsRest(html, s)
    ensures SearchesRight(meant, html, s, stack) ==> Scan(loop, s, stack) == Scan(meant, s, stack)
    ensures Scan(meant, s, stack).Items? && Scan(loop, s, stack) == Scan(meant, s, stack) ==>
              SearchesRight(meant, html, s, stack)
    decreases |s|
  {
    if s != "" {
      var read, other := meant(s, stack), loop(s, stack);
      assert AgreesAt(html, s, stack, read, other);
      if read.Found? && After(read.item, stack).Some? {
        var rest, inner := s[|read.item.text|..], After(read.item, stack).value;
        RestOfRest(html, s, |read.item.text|);
        ScansAgree(html, meant, loop, rest, inner);
        SameFirst(meant, loop, s, stack);
      }
    }
  }

  /** Two scans that agree have read the same construct first, and agree on the rest. */
  lemma SameFirst(meant: Reader, loop: Reader, s: string, stack: seq<string>)
    requires Sound(meant) && Sound(loop) && s != "" && meant(s, stack).Found?
    requires After(meant(s, stack).item, stack).Some?
    ensures var read := meant(s, stack);
            var rest, inner := s[|read.item.text|..], After(read.item, stack).value;
            Scan(meant, s, stack).Items? && Scan(loop, s, stack) == Scan(meant, s, stack) ==>
              && loop(s, stack) == read
              && Scan(meant, rest, inner).Items? && Scan(loop, rest, inner) == Scan(meant, rest, inner)
  {
    var read, other := meant(s, stack), loop(s, stack);
    if Scan(meant, s, stack).Items? && Scan(loop, s, stack) == Scan(meant, s, stack) {
      var items := Scan(meant, s, stack).items;
      assert items[0] == read.item;
      assert other.Found? && items[0] == other.item;
      var rest, inner := s[|read.item.text|..], After(read.item, stack).value;
      assert Scan(meant, s, stack) == Then([read.item], Scan(meant, rest, inner));
      assert Scan(loop, s, stack) == Then([read.item], Scan(loop, rest, inner));
      assert items[1..] == Scan(meant, rest, inner).items == Scan(loop, rest, inner).items;
    }
  }

  // ---------------------------------------------------------------- the two readers

  lemma {:induction false} SkippedAreIn(s: string, i: nat, end: nat, class_: Class)
    requires i <= end <= |s|
    ensures forall k :: i <= k < SkipOver(s, i, end, class_) ==> In(s[k], class_)
    decreases end - i
  {
    if i < end && In(s[i], class_) { SkippedAreIn(s, i + 1, end, class_); }
  }

  /** An end tag has one `<`, in front. */
  lemma OneBracket(s: string)
    requires s != "" && ReadMarkup(s).Found? && ReadMarkup(s).item.Close?
    ensures s[0] == '<' && forall i :: 0 < i < |ReadMarkup(s).item.text| ==> s[i] != '<'
  {
    var tag := ReadMarkup(s).item.text;
    OneBracketInTag(tag);
    forall i | 0 < i < |tag| ensures s[i] != '<' { assert s[i] == s[..|tag|][i]; }
  }

  lemma OneBracketInTag(tag: string)
    requires |tag| > 1 && tag[0] == '<' && tag[|tag| - 1] == '>' && ReadTag(tag).Found? && ReadTag(tag).item.Close?
    ensures forall i :: 0 < i < |tag| ==> tag[i] != '<'
  {
    var slash := SkipOver(tag, 1, |tag|, Spaces);
    var start := SkipOver(tag, slash + 1, |tag|, Spaces);
    var end := SkipOver(tag, start + 1, |tag|, NameTail);
    SkipsNoBracket(tag, 1, Spaces);
    SkipsNoBracket(tag, slash + 1, Spaces);
    SkipsNoBracket(tag, start + 1, NameTail);
    SkipsNoBracket(tag, end, Spaces);
  }

  lemma SkipsNoBracket(tag: string, i: nat, class_: Class)
    requires i <= |tag| && (class_.Spaces? || class_.NameTail?)
    ensures forall k :: i <= k < SkipOver(tag, i, |tag|, class_) ==> tag[k] != '<'
  {
    SkippedAreIn(tag, i, |tag|, class_);
  }

  /** From two places, not the same end tag is read. */
  lemma PlacesDiffer(s: string, a: nat, b: nat)
    requires a < b < |s| && ReadAfter(s, a).Found? && ReadAfter(s, a).item.Close?
    ensures ReadAfter(s, a) != ReadAfter(s, b)
  {
    assert s[a..][b - a] == s[b..][0];
    AfterIs(s, a);
    AfterIs(s, b);
    OneBracket(s[a..]);
    if ReadAfter(s, b).Found? && ReadAfter(s, b).item.Close? { OneBracket(s[b..]); }
  }

  lemma AfterIs(s: string, k: nat)
    requires k < |s|
    ensures ReadAfter(s, k).Found? ==>
              && ReadMarkup(s[k..]).Found? && (ReadAfter(s, k).item.Close? <==> ReadMarkup(s[k..]).item.Close?)
              && |ReadAfter(s, k).item.text| == k + |ReadMarkup(s[k..]).item.text|
  {
  }

  lemma RawTextNamesAreUndotted(element: string)
    requires element in RAW_TEXT_ELEMENTS
    ensures IsPlainElement(element)
  {
  }

  /** Where the raw text ends in the body is where it ends in the rest of it. */
  lemma MeantEnd(html: string, s: string, from: nat, element: string)
    requires from <= |html| && s == html[from..]
    ensures FirstClose(LowerEach(html), element, from) == MovedBy(FirstClose(LowerEach(s), element, 0), from)
  {
    LowerRest(html, from);
    CloseInRest(LowerEach(html), LowerEach(s), element, from);
  }

  function MovedBy(found: Option<nat>, n: nat): Option<nat> { if found.None? then None else Some(n + found.value) }

  lemma CloseInRest(lower: string, rest: string, element: string, from: nat)
    requires from <= |lower| && rest == lower[from..]
    ensures FirstClose(lower, element, from) == MovedBy(FirstClose(rest, element, 0), from)
  {
    FirstCloseIn(lower, rest, element, from, 0);
  }

  lemma LowerRest(s: string, from: nat)
    requires from <= |s|
    ensures LowerEach(s)[from..] == LowerEach(s[from..])
  {
  }

  /** In raw text, the construct that is meant is the one at the first end of it. */
  lemma MeantInRawText(s: string, stack: seq<string>)
    requires s != "" && InRawText(stack)
    ensures ReadItem(s, stack) == ReadAt(s, FirstClose(LowerEach(s), stack[|stack| - 1], 0))
    ensures ReadItem(s, stack).Found? ==> ReadItem(s, stack).item.Close?
  {
    RawTextNamesArePlain(stack[|stack| - 1]);
    RawTextEndsWithItsTag(s, stack[|stack| - 1]);
  }

  /** Reading at two places, at least one of which shows an end tag, shows two constructs. */
  lemma ReadingsDiffer(s: string, a: Option<nat>, b: Option<nat>)
    requires ReadAt(s, a).Found? && ReadAt(s, a).item.Close? && a != b
    ensures ReadAt(s, a) != ReadAt(s, b)
  {
    if ReadAt(s, b).Found? && ReadAt(s, b).item.Close? {
      if a.value < b.value { PlacesDiffer(s, a.value, b.value); } else { PlacesDiffer(s, b.value, a.value); }
    }
  }

  /** The search of the loop is right exactly if it lands where the raw text ends. */
  lemma LandsWhereItEnds(html: string, s: string, element: string)
    requires IsRest(html, s)
    ensures IsRight(html, element, |html| - |s|)
       <==> LoopSearch(html, |s|, element) == FirstClose(LowerEach(s), element, 0)
  {
    var end := FirstClose(LowerEach(s), element, 0);
    MeantEnd(html, s, |html| - |s|, element);
    SearchedFrom(html, |s|, element, end);
  }

  /** The search counts from where it starts. */
  lemma SearchedFrom(html: string, left: nat, element: string, found: Option<nat>)
    requires left <= |html|
    ensures LoopSearch(html, left, element) == found
       <==> FirstClose(Lower(html), element, |html| - left) == MovedBy(found, |html| - left)
  {
  }

  lemma LoopAgreesInRawText(html: string, s: string, stack: seq<string>)
    requires IsRest(html, s) && s != "" && InRawText(stack)
    ensures AgreesAt(html, s, stack, ReadItem(s, stack), LoopRead(html, s, stack))
  {
    var element := stack[|stack| - 1];
    LandsWhereItEnds(html, s, element);
    MeantInRawText(s, stack);
    if ReadItem(s, stack).Found? && !IsRight(html, element, |html| - |s|) {
      ReadingsDiffer(s, FirstClose(LowerEach(s), element, 0), LoopSearch(html, |s|, element));
    }
  }

  lemma LoopAgrees(html: string)
    ensures AgreesWhenRight(html, ReadItem, LoopReader(html))
  {
    forall s, stack | IsRest(html, s) && s != ""
      ensures AgreesAt(html, s, stack, ReadItem(s, stack), LoopReader(html)(s, stack))
    {
      if InRawText(stack) { LoopAgreesInRawText(html, s, stack); }
    }
  }

  ghost predicate AllSearchesRight(html: string) {
    ReadItemIsSound();
    SearchesRight(ReadItem, html, html, [])
  }

  /** The loop reads the constructs that are meant, and so finds their tags, if every search for the
      end of raw text is right. On a body that is balanced it does so only then. */
  lemma LoopReadsWhatIsMeantExactly(html: string)
    ensures AllSearchesRight(html) ==>
              LoopConstructs(html) == ConstructsOf(html) && LoopProjection(html) == ProjectionOf(html)
    ensures ConstructsOf(html).Items? ==> (LoopConstructs(html) == ConstructsOf(html) <==> AllSearchesRight(html))
  {
    ReadItemIsSound();
    LoopReaderFollows(html);
    LoopAgrees(html);
    assert html[|html| - |html|..] == html;
    ScansAgree(html, ReadItem, LoopReader(html), html, []);
  }

  // ---------------------------------------------------------------- bodies on which they agree

  /** The body has no U+0130, or it mentions no raw-text element. */
  predicate Searchable(html: string) {
    DOTTED_I !in html || (!Mentions(html, "script") && !Mentions(html, "style"))
  }

  predicate Mentions(html: string, element: string) {
    exists i :: 0 <= i <= |html| && StartsAt(LowerEach(html), element, i)
  }

  lemma LowerSlice(s: string, i: nat, j: nat)
    requires i <= j <= |s|
    ensures LowerEach(s)[i..j] == LowerEach(s[i..j])
  {
  }

  /** The name of a tag is a stretch of it, in lower case. */
  lemma NameIsThere(tag: string, start: nat, end: nat)
    requires start < |tag| && IsLetter(tag[start]) && end == SkipOver(tag, start + 1, |tag|, NameTail)
    ensures StartsAt(LowerEach(tag), Lower(tag[start..end]), start)
  {
    SkippedAreIn(tag, start + 1, |tag|, NameTail);
    NameLowers(tag[start..end]);
    LowerSlice(tag, start, end);
  }

  lemma NameLowers(name: string)
    requires forall k :: 0 <= k < |name| ==> IsLetter(name[k]) || In(name[k], NameTail)
    ensures Lower(name) == LowerEach(name)
  {
    assert DOTTED_I !in name;
    LowerIsAligned(name);
  }

  lemma NamedTag(tag: string) returns (start: nat)
    requires tag != "" && NameOf(tag).Some?
    ensures StartsAt(LowerEach(tag), NameOf(tag).value.name, start)
  {
    var slash := SkipOver(tag, 1, |tag|, Spaces);
    start := if slash < |tag| && tag[slash] == '/' then SkipOver(tag, slash + 1, |tag|, Spaces) else slash;
    NameIsThere(tag, start, SkipOver(tag, start + 1, |tag|, NameTail));
  }

  lemma OpenHasName(s: string)
    requires s != "" && ReadMarkup(s).Found? && ReadMarkup(s).item.Open?
    ensures var item := ReadMarkup(s).item;
            item.text != "" && NameOf(item.text).Some? && NameOf(item.text).value.name == item.start.name
  {
  }

  lemma OpenIsMentioned(html: string, at: nat)
    requires at < |html| && ReadMarkup(html[at..]).Found? && ReadMarkup(html[at..]).item.Open?
    ensures Mentions(html, ReadMarkup(html[at..]).item.start.name)
  {
    var item := ReadMarkup(html[at..]).item;
    OpenHasName(html[at..]);
    var start := NamedTag(item.text);
    SliceMentions(html, at, item.text, item.start.name, start);
  }

  lemma SliceMentions(html: string, at: nat, tag: string, name: string, start: nat)
    requires at <= |html| && |tag| <= |html[at..]| && tag == html[at..][..|tag|]
    requires StartsAt(LowerEach(tag), name, start)
    ensures Mentions(html, name)
  {
    var end := start + |name|;
    LowerSlice(tag, start, end);
    LowerSlice(html, at + start, at + end);
    assert tag[start..end] == html[at + start..at + end];
    assert StartsAt(LowerEach(html), name, at + start);
  }

  predicate NoRawText(stack: seq<string>) { forall i :: 0 <= i < |stack| ==> stack[i] !in RAW_TEXT_ELEMENTS }

  lemma StaysOutOfRawText(html: string, s: string, stack: seq<string>)
    requires IsRest(html, s) && s != "" && NoRawText(stack) && ReadItem(s, stack).Found?
    requires !Mentions(html, "script") && !Mentions(html, "style")
    requires After(ReadItem(s, stack).item, stack).Some?
    ensures NoRawText(After(ReadItem(s, stack).item, stack).value)
  {
    if ReadItem(s, stack).item.Open? { OpenIsMentioned(html, |html| - |s|); }
  }

  /** The reader never gets into raw text on the rests of this body. */
  ghost predicate StaysOut(reader: Reader, html: string) {
    forall s, stack {:trigger reader(s, stack)} ::
      && IsRest(html, s) && s != "" && NoRawText(stack)
      && reader(s, stack).Found? && After(reader(s, stack).item, stack).Some?
      ==> NoRawText(After(reader(s, stack).item, stack).value)
  }

  lemma ReadItemStaysOut(html: string)
    requires !Mentions(html, "script") && !Mentions(html, "style")
    ensures StaysOut(ReadItem, html)
  {
    forall s, stack |
      && IsRest(html, s) && s != "" && NoRawText(stack)
      && ReadItem(s, stack).Found? && After(ReadItem(s, stack).item, stack).Some?
      ensures NoRawText(After(ReadItem(s, stack).item, stack).value)
    {
      StaysOutOfRawText(html, s, stack);
    }
  }

  lemma {:induction false} OutOfRawTextIsRight(reader: Reader, html: string, s: string, stack: seq<string>)
    requires Sound(reader) && StaysOut(reader, html) && IsRest(html, s) && NoRawText(stack)
    ensures SearchesRight(reader, html, s, stack)
    decreases |s|
  {
    if s != "" && reader(s, stack).Found? && After(reader(s, stack).item, stack).Some? {
      RestOfRest(html, s, |reader(s, stack).item.text|);
      OutOfRawTextIsRight(reader, html, s[|reader(s, stack).item.text|..], After(reader(s, stack).item, stack).value);
    }
  }

  lemma RestOfRest(html: string, s: string, n: nat)
    requires IsRest(html, s) && n <= |s|
    ensures IsRest(html, s[n..])
  {
    assert html[|html| - |s| + n..] == html[|html| - |s|..][n..];
  }

  /** No U+0130 stands in front of what may end a raw text. */
  ghost predicate NoneMoved(html: string) {
    forall element, j :: element in RAW_TEXT_ELEMENTS && ClosesAt(LowerEach(html), element, j) ==>
      UndottedBefore(html, j)
  }

  predicate UndottedBefore(html: string, j: nat) { j <= |html| && DOTTED_I !in html[..j] }

  /** Then closing tags are met where they are. */
  lemma LandingsStay(html: string, element: string, m: nat)
    requires element in RAW_TEXT_ELEMENTS && NoneMoved(html)
    ensures LandsOn(html, element, m) <==> ClosesAt(LowerEach(html), element, m)
  {
    if LandsOn(html, element, m) {
      var j :| 0 <= j < |html| && Lands(html, element, j, m);
      PlaceOfUnmoved(html, j, j);
    }
    if ClosesAt(LowerEach(html), element, m) {
      PlaceOfUnmoved(html, m, m);
      assert Lands(html, element, m, m);
    }
  }

  lemma NoneMovedIsRight(html: string, element: string, from: nat)
    requires element in RAW_TEXT_ELEMENTS && NoneMoved(html)
    ensures IsRight(html, element, from)
  {
    RawTextNamesAreUndotted(element);
    var first := FirstClose(LowerEach(html), element, from);
    forall m | from <= m && (first.Some? ==> m < first.value) ensures !LandsOn(html, element, m) {
      LandingsStay(html, element, m);
      if ClosesAt(LowerEach(html), element, m) { FirstCloseIsLeast(LowerEach(html), element, from, m); }
    }
    if first.Some? { LandingsStay(html, element, first.value); }
    IsRightExactly(html, element, from);
  }

  lemma {:induction false} NoneMovedOnTheWay(reader: Reader, html: string, s: string, stack: seq<string>)
    requires Sound(reader) && IsRest(html, s) && NoneMoved(html)
    ensures SearchesRight(reader, html, s, stack)
    decreases |s|
  {
    if s != "" {
      if InRawText(stack) { NoneMovedIsRight(html, stack[|stack| - 1], |html| - |s|); }
      if reader(s, stack).Found? && After(reader(s, stack).item, stack).Some? {
        RestOfRest(html, s, |reader(s, stack).item.text|);
        NoneMovedOnTheWay(reader, html, s[|reader(s, stack).item.text|..], After(reader(s, stack).item, stack).value);
      }
    }
  }

  /** Bodies with no U+0130 in front of what may end a raw text are read as they are meant. */
  lemma NoneMovedReadsRight(html: string)
    requires NoneMoved(html)
    ensures AllSearchesRight(html)
  {
    ReadItemIsSound();
    assert html[|html| - |html|..] == html;
    NoneMovedOnTheWay(ReadItem, html, html, []);
  }

  lemma UndottedMovesNothing(html: string)
    requires DOTTED_I !in html
    ensures NoneMoved(html)
  {
  }

  /** So are bodies without U+0130, and bodies that mention no raw-text element. */
  lemma SearchableIsRight(html: string)
    requires Searchable(html)
    ensures AllSearchesRight(html)
  {
    if DOTTED_I in html {
      ReadItemIsSound();
      assert html[|html| - |html|..] == html;
      ReadItemStaysOut(html);
      OutOfRawTextIsRight(ReadItem, html, html, []);
    } else {
      UndottedMovesNothing(html);
      NoneMovedReadsRight(html);
    }
  }
}
