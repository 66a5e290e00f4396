/** A body with U+0130 in front of a script: balanced, and refused by the loop. */
module HtmlDotted {
  import opened Wrappers
  import opened Characters
  import opened HtmlText
  import opened HtmlTags
  import opened HtmlProjection
  import opened HtmlSearch

  lemma DottedIsLonger(t: string)
    requires DOTTED_I !in t
    ensures var s := [DOTTED_I] + t; |Lower(s)| == |t| + 2 && Lower(s)[2..] == LowerEach(t)
    ensures var s := [DOTTED_I] + t; |LowerEach(s)| == |t| + 1 && LowerEach(s)[1..] == LowerEach(t)
  {
    LowerIsAligned(t);
    assert ([DOTTED_I] + t)[1..] == t;
  }

  /** With U+0130 in front, the search that starts after a tag lands one character too far. */
  lemma DottedTextMisleads(t: string, from: nat, element: string)
    requires DOTTED_I !in t && 0 < from <= |t| && t[from - 1] == '>'
    ensures var s := [DOTTED_I] + t;
            match FirstClose(LowerEach(s), element, 1 + from)
            case None => FirstClose(Lower(s), element, 1 + from).None?
            case Some(k) => FirstClose(Lower(s), element, 1 + from) == Some(k + 1)
  {
    var s := [DOTTED_I] + t;
    DottedIsLonger(t);
    SearchesApart(LowerEach(s), Lower(s), LowerEach(t), element, from);
  }

  /** Two texts that end alike, one a character later: searching from the same place, where
      the longer one has no `<`, finds the same end of raw text a character later. */
  lemma SearchesApart(shorter: string, longer: string, tail: string, element: string, from: nat)
    requires |shorter| == |tail| + 1 && shorter[1..] == tail && |longer| == |tail| + 2 && longer[2..] == tail
    requires 0 < from <= |tail| && tail[from - 1] != '<'
    ensures match FirstClose(shorter, element, 1 + from)
            case None => FirstClose(longer, element, 1 + from).None?
            case Some(k) => FirstClose(longer, element, 1 + from) == Some(k + 1)
  {
    FirstCloseShifts(shorter, element, 1, from);
    FirstCloseShifts(longer, element, 2, from);
    StartsWithFirst(longer, "</" + element, 1 + from);
    assert longer[1 + from] == tail[from - 1];
  }

  lemma {:induction false} NothingCloses(lower: string, element: string, from: nat)
    requires forall i :: from <= i < |lower| ==> lower[i] != '<'
    ensures FirstClose(lower, element, from).None?
    decreases |lower| - from
  {
    if from < |lower| {
      StartsWithFirst(lower, "</" + element, from);
      NothingCloses(lower, element, from + 1);
    }
  }

  lemma ScanOne(reader: Reader, s: string, stack: seq<string>, item: Item, inner: seq<string>, rest: string)
    requires Sound(reader) && s != "" && reader(s, stack) == Found(item) && After(item, stack) == Some(inner)
    requires |item.text| <= |s| && s[|item.text|..] == rest
    ensures Scan(reader, s, stack) == Then([item], Scan(reader, rest, inner))
  {
  }

  const OPENING := "<script>"
  const CLOSING := "</script>"
  const DOTTED_BODY := "\U{130}<script></script>"

  function ScriptStart(): Item { Open(OPENING, 0, Start("script", map[], true)) }

  lemma OpeningIsRead(s: string)
    requires s == OPENING + CLOSING
    ensures ReadMarkup(s) == Found(ScriptStart())
  {
    PlainRun(s, 1, 7);
    OpensComment(s);
    assert s[..8] == OPENING;
    OpeningTag();
  }

  lemma {:induction false} SkipRun(s: string, i: nat, j: nat, end: nat, class_: Class)
    requires i <= j <= end <= |s| && (forall k :: i <= k < j ==> In(s[k], class_)) && (j < end ==> !In(s[j], class_))
    ensures SkipOver(s, i, end, class_) == j
    decreases j - i
  {
    if i < j { SkipRun(s, i + 1, j, end, class_); }
  }

  predicate IsWord(s: string) { s != "" && forall k :: 0 <= k < |s| ==> 'a' <= s[k] <= 'z' }

  lemma WordLowers(word: string)
    requires IsWord(word)
    ensures Lower(word) == word
  {
    assert DOTTED_I !in word;
    LowerIsAligned(word);
    assert LowerEach(word) == word;
  }

  /** A tag that is nothing but a name. */
  lemma BareName(tag: string, word: string)
    requires IsWord(word) && tag == "<" + word + ">"
    ensures NameOf(tag) == Some(TagName(false, word, |tag| - 1))
  {
    var n := |tag|;
    assert forall k :: 1 <= k < n - 1 ==> tag[k] == word[k - 1];
    assert tag[1..n - 1] == word;
    SkipRun(tag, 1, 1, n, Spaces);
    SkipRun(tag, 2, n - 1, n, NameTail);
    WordLowers(word);
  }

  lemma SlashedName(tag: string, word: string)
    requires IsWord(word) && tag == "</" + word + ">"
    ensures NameOf(tag) == Some(TagName(true, word, |tag| - 1))
  {
    var n := |tag|;
    assert forall k :: 2 <= k < n - 1 ==> tag[k] == word[k - 2];
    assert tag[2..n - 1] == word;
    SkipRun(tag, 1, 1, n, Spaces);
    SkipRun(tag, 2, 2, n, Spaces);
    SkipRun(tag, 3, n - 1, n, NameTail);
    WordLowers(word);
  }

  lemma BareTag(tag: string, word: string)
    requires IsWord(word) && tag == "<" + word + ">" && word !in VOID_ELEMENTS
    ensures ReadTag(tag) == Found(Open(tag, 0, Start(word, map[], true)))
  {
    BareName(tag, word);
  }

  lemma SlashedTag(tag: string, word: string)
    requires IsWord(word) && tag == "</" + word + ">"
    ensures ReadTag(tag) == Found(Close(tag, word))
  {
    SlashedName(tag, word);
    SkipRun(tag, |tag| - 1, |tag| - 1, |tag|, Spaces);
  }

  lemma ScriptIsWord()
    ensures IsWord("script") && "script" !in VOID_ELEMENTS
  {
  }

  lemma OpeningTag()
    ensures ReadTag(OPENING) == Found(ScriptStart())
  {
    ScriptIsWord();
    BareTag(OPENING, "script");
  }

  lemma ClosingIsRead()
    ensures ReadMarkup(CLOSING) == Found(Close(CLOSING, "script"))
  {
    var s := CLOSING;
    PlainRun(s, 1, 8);
    OpensComment(s);
    assert s[..9] == s;
    ScriptIsWord();
    SlashedTag(s, "script");
  }

  /** The end tag is where the raw text starts. */
  lemma MeantClosing()
    ensures FirstClose(LowerEach(CLOSING), "script", 0) == Some(0)
    ensures ReadItem(CLOSING, ["script"]) == Found(Close(CLOSING, "script"))
  {
    assert LowerEach(CLOSING) == CLOSING && CLOSING[0..8] == "</" + "script";
    assert ClosesAt(LowerEach(CLOSING), "script", 0);
    assert CLOSING[0..] == CLOSING && CLOSING[..0] == "" && "" + CLOSING == CLOSING;
    ClosingIsRead();
  }

  lemma BodyParts()
    ensures DOTTED_BODY == [DOTTED_I] + (OPENING + CLOSING) && DOTTED_BODY[1..] == OPENING + CLOSING
    ensures (OPENING + CLOSING)[8..] == CLOSING && |DOTTED_BODY| == 18
  {
  }

  /** The body is meant to be read as a character and a script without content. */
  lemma DottedBodyIsBalanced()
    ensures ConstructsOf(DOTTED_BODY) == Items([Character([DOTTED_I]), ScriptStart(), Close(CLOSING, "script")])
  {
    ReadItemIsSound();
    BodyParts();
    OpeningIsRead(OPENING + CLOSING);
    MeantClosing();
    ThreeConstructs(ReadItem);
  }

  lemma ThreeConstructs(reader: Reader)
    requires Sound(reader)
    requires reader(DOTTED_BODY, []) == Found(Character([DOTTED_I]))
    requires reader(OPENING + CLOSING, []) == Found(ScriptStart())
    requires reader(CLOSING, ["script"]) == Found(Close(CLOSING, "script"))
    ensures Scan(reader, DOTTED_BODY, []) == Items([Character([DOTTED_I]), ScriptStart(), Close(CLOSING, "script")])
  {
    BodyParts();
    assert [] + ["script"] == ["script"] && ["script"][..0] == [];
    ScanOne(reader, DOTTED_BODY, [], Character([DOTTED_I]), [], OPENING + CLOSING);
    ScanOne(reader, OPENING + CLOSING, [], ScriptStart(), ["script"], CLOSING);
    ScanOne(reader, CLOSING, ["script"], Close(CLOSING, "script"), [], "");
  }

  /** U+0130 and an element whose end tag follows at once. */
  predicate IsDottedElement(html: string, t: string, closing: string, element: string) {
    && html == [DOTTED_I] + t && DOTTED_I !in t && LowerEach(t) == t
    && 2 < |closing| < |t| && t[|t| - |closing|..] == closing && t[|t| - |closing| - 1] == '>'
    && closing[0] == '<' && closing[1] == '/' && (forall i :: 0 < i < |closing| ==> closing[i] != '<')
    && FirstClose(LowerEach(closing), element, 0) == Some(0)
  }

  /** The search from the start of the raw text lands on the slash, and then on nothing. */
  lemma SearchesOfDotted(html: string, t: string, closing: string, element: string)
    requires IsDottedElement(html, t, closing, element)
    ensures LoopSearch(html, |closing|, element) == Some(1)
    ensures LoopSearch(html, |closing[2..]|, element) == None
  {
    assert html[|html| - |closing|..] == closing;
    EndIsMeant(html, closing, |html| - |closing|, element);
    DottedTextMisleads(t, |t| - |closing|, element);
    SearchedFrom(html, |closing|, element, Some(1));
    SearchBehind(html, t, closing, element);
    SearchedFrom(html, |closing| - 2, element, None);
  }

  lemma EndIsMeant(html: string, closing: string, from: nat, element: string)
    requires from <= |html| && html[from..] == closing && FirstClose(LowerEach(closing), element, 0) == Some(0)
    ensures FirstClose(LowerEach(html), element, from) == Some(from)
  {
    MeantEnd(html, closing, from, element);
  }

  lemma SearchBehind(html: string, t: string, closing: string, element: string)
    requires IsDottedElement(html, t, closing, element)
    ensures FirstClose(Lower(html), element, |html| - |closing| + 2).None?
  {
    DottedIsLonger(t);
    NothingBehind(Lower(html), t, closing, element);
  }

  lemma NothingBehind(lower: string, t: string, closing: string, element: string)
    requires |lower| == |t| + 2 && lower[2..] == t && |closing| < |t| && t[|t| - |closing|..] == closing
    requires forall i :: 0 < i < |closing| ==> closing[i] != '<'
    ensures FirstClose(lower, element, |lower| - |closing| + 1).None?
  {
    forall i | |lower| - |closing| + 1 <= i < |lower| ensures lower[i] != '<' {
      assert lower[i] == lower[2..][i - 2] == t[i - 2] == closing[i - (|lower| - |closing|)];
    }
    NothingCloses(lower, element, |lower| - |closing| + 1);
  }

  /** So the loop takes two characters for text, and then finds no end. */
  lemma LoopMissesTheEnd(html: string, t: string, closing: string, stack: seq<string>)
    requires InRawText(stack) && IsDottedElement(html, t, closing, stack[|stack| - 1])
    ensures LoopRead(html, closing, stack) == Found(Character("</"))
    ensures LoopRead(html, closing[2..], stack) == Unreadable(HtmlMalformed)
  {
    SearchesOfDotted(html, t, closing, stack[|stack| - 1]);
    TwoCharacters(closing);
  }

  lemma TwoCharacters(s: string)
    requires |s| > 2 && s[0] == '<' && s[1] == '/'
    ensures ReadAfter(s, 1) == Found(Character("</"))
  {
    assert s[1..][0] == '/' && s[..1] == "<" && "<" + "/" == "</";
  }

  lemma ClosingCharacters(s: string)
    requires s == CLOSING
    ensures |s| == 9 && s[0] == '<' && s[1] == '/' && forall i :: 0 < i < |s| ==> s[i] != '<'
  {
  }

  lemma LowerIsItself(t: string)
    requires t == OPENING + CLOSING
    ensures |t| == 17 && t[7] == '>' && DOTTED_I !in t && LowerEach(t) == t
  {
  }

  lemma BodyIsDottedElement(html: string, t: string)
    requires t == OPENING + CLOSING && html == [DOTTED_I] + t
    ensures IsDottedElement(html, t, CLOSING, "script")
  {
    ClosingCharacters(CLOSING);
    LowerIsItself(t);
    MeantClosing();
    assert t[8..] == CLOSING;
  }

  lemma LoopReadsDotted(loop: Reader)
    requires Follows(DOTTED_BODY, loop)
    ensures loop(CLOSING, ["script"]) == Found(Character("</"))
    ensures loop(CLOSING[2..], ["script"]) == Unreadable(HtmlMalformed)
  {
    BodyParts();
    BodyIsDottedElement(DOTTED_BODY, OPENING + CLOSING);
    LoopMissesTheEnd(DOTTED_BODY, OPENING + CLOSING, CLOSING, ["script"]);
  }

  lemma LoopStartsDotted(loop: Reader)
    requires Follows(DOTTED_BODY, loop)
    ensures loop(DOTTED_BODY, []) == Found(Character([DOTTED_I])) && loop(OPENING + CLOSING, []) == Found(ScriptStart())
  {
    BodyParts();
    OpeningIsRead(OPENING + CLOSING);
  }

  lemma LoopConstructsOfDotted()
    ensures LoopConstructs(DOTTED_BODY) == Bad(HtmlMalformed)
  {
    var loop := LoopReader(DOTTED_BODY);
    LoopReaderFollows(DOTTED_BODY);
    LoopStartsDotted(loop);
    LoopReadsDotted(loop);
    TwoConstructs(loop);
  }

  lemma TwoConstructs(reader: Reader)
    requires Sound(reader)
    requires reader(DOTTED_BODY, []) == Found(Character([DOTTED_I]))
    requires reader(OPENING + CLOSING, []) == Found(ScriptStart())
    requires reader(CLOSING, ["script"]) == Found(Character("</"))
    requires reader(CLOSING[2..], ["script"]) == Unreadable(HtmlMalformed)
    ensures Scan(reader, DOTTED_BODY, []) == Bad(HtmlMalformed)
  {
    BodyParts();
    assert [] + ["script"] == ["script"];
    ScanOne(reader, DOTTED_BODY, [], Character([DOTTED_I]), [], OPENING + CLOSING);
    ScanOne(reader, OPENING + CLOSING, [], ScriptStart(), ["script"], CLOSING);
    ScanOne(reader, CLOSING, ["script"], Character("</"), ["script"], CLOSING[2..]);
  }

  lemma DottedBodyIsMeant()
    ensures ProjectionOf(DOTTED_BODY).Projected?
  {
    BytesAtMostFour(DOTTED_BODY);
    DottedBodyIsBalanced();
  }

  /** A body that is balanced, and that the loop refuses. */
  lemma DottedBodyIsRefused()
    ensures ProjectionOf(DOTTED_BODY).Projected?
    ensures LoopProjection(DOTTED_BODY) == Rejected(HtmlMalformed)
  {
    DottedBodyIsMeant();
    BytesAtMostFour(DOTTED_BODY);
    LoopConstructsOfDotted();
  }
}
