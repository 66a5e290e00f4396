/** A body on which removal breaks the search for the end of raw text: the loop accepts it, with one
    image and every search right, and refuses what is left without the image. */
module InlineImageShift {
  import opened Wrappers
  import opened Characters
  import opened HtmlText
  import opened HtmlTags
  import opened HtmlProjection
  import opened HtmlSearch
  import opened HtmlDotted
  import opened InlineImages
  import opened InlineImageRemoval
  import opened InlineImageStray
  import opened InlineImageReread

  /** A comment that holds what ends a script. */
  const NOTE := "<!--</script>-->"

  function SCRIPT(): string { OPENING + CLOSING }

  const DOT_COUNT := 39

  function DottedRun(n: nat): string { if n == 0 then "" else [DOTTED_I] + DottedRun(n - 1) }

  /** 39 times U+0130, the comment, the image and an empty script. */
  function Shifted(): string { DottedRun(DOT_COUNT) + (NOTE + (IMG + SCRIPT())) }

  function ShiftedLeft(): string { DottedRun(DOT_COUNT) + (NOTE + SCRIPT()) }

  // ---------------------------------------------------------------- behind a run of U+0130

  lemma {:induction false} RunLowers(n: nat, t: string)
    requires DOTTED_I !in t && LowerEach(t) == t
    ensures |DottedRun(n)| == n
    ensures var lower := Lower(DottedRun(n) + t);
            |lower| == 2 * n + |t| && lower[2 * n..] == t && forall i :: 0 <= i < 2 * n ==> lower[i] != '<'
  {
    if n == 0 {
      assert DottedRun(0) + t == t;
      LowerIsAligned(t);
    } else {
      RunLowers(n - 1, t);
      var rest := DottedRun(n - 1) + t;
      assert DottedRun(n) + t == [DOTTED_I] + rest;
      assert ([DOTTED_I] + rest)[1..] == rest;
    }
  }

  function DotItems(n: nat): seq<Item> { if n == 0 then [] else [Character([DOTTED_I])] + DotItems(n - 1) }

  lemma DotIsRead(reader: Reader, n: nat, t: string)
    requires Sound(reader) && AgreeOutside(ReadItem, reader) && n > 0
    ensures reader(DottedRun(n) + t, []) == Found(Character([DOTTED_I]))
    ensures (DottedRun(n) + t)[1..] == DottedRun(n - 1) + t
  {
    assert DottedRun(n) + t == [DOTTED_I] + (DottedRun(n - 1) + t);
  }

  lemma {:induction false} ScanDots(reader: Reader, n: nat, t: string)
    requires Sound(reader) && AgreeOutside(ReadItem, reader)
    ensures Scan(reader, DottedRun(n) + t, []) == Then(DotItems(n), Scan(reader, t, []))
  {
    if n == 0 {
      assert DottedRun(0) + t == t;
      if Scan(reader, t, []).Items? { assert [] + Scan(reader, t, []).items == Scan(reader, t, []).items; }
    } else {
      var s, rest := DottedRun(n) + t, DottedRun(n - 1) + t;
      DotIsRead(reader, n, t);
      ScanOne(reader, s, [], Character([DOTTED_I]), [], rest);
      ScanDots(reader, n - 1, t);
      if Scan(reader, t, []).Items? {
        ThreeLists([Character([DOTTED_I])], DotItems(n - 1), Scan(reader, t, []).items);
      }
    }
  }

  lemma ThreeLists(a: seq<Item>, b: seq<Item>, c: seq<Item>)
    ensures a + (b + c) == (a + b) + c
  {
  }

  lemma {:induction false} SearchesBehindDots(html: string, n: nat, t: string)
    requires Sound(ReadItem) && SearchesRight(ReadItem, html, t, [])
    ensures SearchesRight(ReadItem, html, DottedRun(n) + t, [])
  {
    if n == 0 {
      assert DottedRun(0) + t == t;
    } else {
      DotIsRead(ReadItem, n, t);
      SearchesBehindDots(html, n - 1, t);
      SearchOne(html, DottedRun(n) + t, [], Character([DOTTED_I]), [], DottedRun(n - 1) + t);
    }
  }

  lemma SearchOne(html: string, s: string, stack: seq<string>, item: Item, inner: seq<string>, rest: string)
    requires Sound(ReadItem) && s != "" && ReadItem(s, stack) == Found(item) && After(item, stack) == Some(inner)
    requires |item.text| <= |s| && s[|item.text|..] == rest
    requires InRawText(stack) ==> |s| <= |html| && IsRight(html, stack[|stack| - 1], |html| - |s|)
    requires SearchesRight(ReadItem, html, rest, inner)
    ensures SearchesRight(ReadItem, html, s, stack)
  {
  }

  // ---------------------------------------------------------------- the tail

  lemma NoteEnds(s: string)
    requires |s| >= 16 && s[..16] == NOTE
    ensures IndexOf(s, "-->", 4) == Some(13)
  {
    assert s[13..16] == s[..16][13..16] == "-->";
    IndexOfIsLeast(s, "-->", 4, 13);
    var k := IndexOf(s, "-->", 4).value;
    assert s[k] == s[k..k + 3][0] == '-';
    assert s[k] == s[..16][k] == NOTE[k];
  }

  lemma NoteIsRead(s: string, rest: string)
    requires s == NOTE + rest
    ensures ReadMarkup(s) == Found(Comment(NOTE)) && s[16..] == rest
  {
    assert s[..16] == NOTE && s[0..4] == NOTE[0..4] == "<!--";
    NoteEnds(s);
  }

  lemma ImageIsRead(s: string, rest: string)
    requires s == IMG + rest
    ensures ReadMarkup(s) == Found(ImgItem()) && s[19..] == rest
  {
    OneValueEnds(s, 1, 9, 17, 18);
    OpensComment(s);
    assert s[..19] == IMG;
    ImgIsRead();
  }

  function Script(): seq<Item> { [ScriptStart(), Close(CLOSING, "script")] }

  lemma ScriptParts()
    ensures SCRIPT()[8..] == CLOSING && |SCRIPT()| == 17 && |OPENING| == 8 && |CLOSING| == 9
    ensures DOTTED_I !in SCRIPT() && LowerEach(SCRIPT()) == SCRIPT()
  {
    LowerIsItself(SCRIPT());
  }

  lemma ScanScript(reader: Reader, closing: Scanned)
    requires Sound(reader) && AgreeOutside(ReadItem, reader) && Scan(reader, CLOSING, ["script"]) == closing
    ensures Scan(reader, SCRIPT(), []) == Then([ScriptStart()], closing)
  {
    ScriptParts();
    OpeningIsRead(SCRIPT());
    assert [] + ["script"] == ["script"];
    ScanOne(reader, SCRIPT(), [], ScriptStart(), ["script"], CLOSING);
  }

  lemma ScanNote(reader: Reader, rest: string)
    requires Sound(reader) && AgreeOutside(ReadItem, reader)
    ensures Scan(reader, NOTE + rest, []) == Then([Comment(NOTE)], Scan(reader, rest, []))
  {
    NoteIsRead(NOTE + rest, rest);
    ScanOne(reader, NOTE + rest, [], Comment(NOTE), [], rest);
  }

  lemma ScanImage(reader: Reader, rest: string)
    requires Sound(reader) && AgreeOutside(ReadItem, reader)
    ensures Scan(reader, IMG + rest, []) == Then([ImgItem()], Scan(reader, rest, []))
  {
    ImageIsRead(IMG + rest, rest);
    ImageIsNeutral();
    ScanOne(reader, IMG + rest, [], ImgItem(), [], rest);
  }

  lemma ImageIsNeutral()
    ensures After(ImgItem(), []) == Some([]) && ImgItem().text == IMG && |IMG| == 19
  {
  }

  lemma ScanClosing(reader: Reader)
    requires Sound(reader) && reader(CLOSING, ["script"]) == Found(Close(CLOSING, "script"))
    ensures Scan(reader, CLOSING, ["script"]) == Items([Close(CLOSING, "script")])
  {
    assert ["script"][..0] == [] && CLOSING[|CLOSING|..] == "";
    ScanOne(reader, CLOSING, ["script"], Close(CLOSING, "script"), [], "");
    assert [Close(CLOSING, "script")] + [] == [Close(CLOSING, "script")];
  }

  function TailItems(): seq<Item> { [Comment(NOTE)] + ([ImgItem()] + Script()) }

  lemma ScanTail(reader: Reader)
    requires Sound(reader) && AgreeOutside(ReadItem, reader)
    requires reader(CLOSING, ["script"]) == Found(Close(CLOSING, "script"))
    ensures Scan(reader, NOTE + (IMG + SCRIPT()), []) == Items(TailItems())
  {
    ScanNote(reader, IMG + SCRIPT());
    ScanImage(reader, SCRIPT());
    ScanClosing(reader);
    ScanScript(reader, Items([Close(CLOSING, "script")]));
    assert [ScriptStart()] + [Close(CLOSING, "script")] == Script();
  }

  // ---------------------------------------------------------------- where the searches land

  /** In the tail, the comment's closing tag is the first one. */
  lemma NoteCloses(t: string, rest: string)
    requires t == NOTE + rest
    ensures ClosesAt(t, "script", 4) && forall i :: 0 <= i < 4 ==> !ClosesAt(t, "script", i)
  {
    assert t[4..12] == "</" + "script" && t[12] == '>';
    assert t[0..8] == "<!--</sc";
    forall i | 0 <= i < 4 ensures !ClosesAt(t, "script", i) {
      StartsWithFirst(t, "</" + "script", i);
      assert t[i] == "<!--"[i];
    }
  }

  /** So behind the run, a search from anywhere in front of it lands on it. */
  lemma LandsOnNote(n: nat, t: string, rest: string, from: nat)
    requires t == NOTE + rest && DOTTED_I !in t && LowerEach(t) == t && from <= 2 * n + 4
    ensures FirstClose(Lower(DottedRun(n) + t), "script", from) == Some(2 * n + 4)
  {
    var lower := Lower(DottedRun(n) + t);
    RunLowers(n, t);
    NoteCloses(t, rest);
    ClosesShifts(lower, "script", 2 * n, 4);
    FirstCloseIsLeast(lower, "script", from, 2 * n + 4);
    NothingInFrontOfNote(lower, n, t, FirstClose(lower, "script", from).value);
  }

  lemma NothingInFrontOfNote(lower: string, n: nat, t: string, k: nat)
    requires |lower| == 2 * n + |t| && lower[2 * n..] == t && forall i :: 0 <= i < 2 * n ==> lower[i] != '<'
    requires (forall i :: 0 <= i < 4 ==> !ClosesAt(t, "script", i)) && ClosesAt(lower, "script", k)
    ensures k >= 2 * n + 4
  {
    StartsWithFirst(lower, "</" + "script", k);
    if 2 * n <= k < 2 * n + 4 { ClosesShifts(lower, "script", 2 * n, k - 2 * n); }
  }

  lemma TailIsPlain()
    ensures var t := NOTE + (IMG + SCRIPT()); |t| == 52 && DOTTED_I !in t && LowerEach(t) == t
    ensures var t := NOTE + SCRIPT(); |t| == 33 && DOTTED_I !in t && LowerEach(t) == t
  {
    ScriptParts();
    NoteIsPlain();
    ImageIsPlain();
    LowerJoins(IMG, SCRIPT());
    LowerJoins(NOTE, IMG + SCRIPT());
    LowerJoins(NOTE, SCRIPT());
  }

  lemma LowerJoins(a: string, b: string)
    requires LowerEach(a) == a && LowerEach(b) == b
    ensures LowerEach(a + b) == a + b
  {
    forall i | 0 <= i < |a + b| ensures LowerChar((a + b)[i]) == (a + b)[i] {
      if i < |a| { assert LowerEach(a)[i] == a[i]; } else { assert LowerEach(b)[i - |a|] == b[i - |a|]; }
    }
  }

  lemma NoteIsPlain()
    ensures |NOTE| == 16 && DOTTED_I !in NOTE && LowerEach(NOTE) == NOTE
  {
  }

  lemma ImageIsPlain()
    ensures |IMG| == 19 && DOTTED_I !in IMG && LowerEach(IMG) == IMG
  {
  }

  // ---------------------------------------------------------------- the body

  lemma ShiftedSearchIsRight()
    ensures |Shifted()| == 91 && IsRight(Shifted(), "script", 82)
  {
    TailIsPlain();
    var t := NOTE + (IMG + SCRIPT());
    RunLowers(DOT_COUNT, t);
    LandsOnNote(DOT_COUNT, t, IMG + SCRIPT(), 82);
    EndOfShifted();
  }

  lemma EndOfShifted()
    requires |Shifted()| == 91
    ensures FirstClose(LowerEach(Shifted()), "script", 82) == Some(82)
  {
    MeantClosing();
    TailParts();
    EndIsMeant(Shifted(), CLOSING, 82, "script");
  }

  lemma TailParts()
    requires |Shifted()| == 91
    ensures Shifted()[82..] == CLOSING
  {
    ScriptParts();
    var s := Shifted();
    assert s[74..] == SCRIPT() by {
      assert |NOTE + (IMG + SCRIPT())| == 52 && |DottedRun(DOT_COUNT)| == 39;
    }
    assert s[82..] == s[74..][8..];
  }

  lemma ShiftedSearchesRight()
    ensures AllSearchesRight(Shifted())
  {
    ReadItemIsSound();
    ShiftedSearchIsRight();
    var html := Shifted();
    SearchesInTail(html);
    SearchesBehindDots(html, DOT_COUNT, NOTE + (IMG + SCRIPT()));
  }

  lemma SearchesInTail(html: string)
    requires Sound(ReadItem) && |html| == 91 && IsRight(html, "script", 82)
    ensures SearchesRight(ReadItem, html, NOTE + (IMG + SCRIPT()), [])
  {
    SearchesInScript(html);
    ImageIsNeutral();
    ImageIsRead(IMG + SCRIPT(), SCRIPT());
    SearchOne(html, IMG + SCRIPT(), [], ImgItem(), [], SCRIPT());
    NoteIsRead(NOTE + (IMG + SCRIPT()), IMG + SCRIPT());
    SearchOne(html, NOTE + (IMG + SCRIPT()), [], Comment(NOTE), [], IMG + SCRIPT());
  }

  lemma SearchesInScript(html: string)
    requires Sound(ReadItem) && |html| == 91 && IsRight(html, "script", 82)
    ensures SearchesRight(ReadItem, html, SCRIPT(), [])
  {
    ScriptParts();
    SearchesInClosing(html);
    OpeningIsRead(SCRIPT());
    assert [] + ["script"] == ["script"];
    SearchOne(html, SCRIPT(), [], ScriptStart(), ["script"], CLOSING);
  }

  lemma SearchesInClosing(html: string)
    requires Sound(ReadItem) && |html| == 91 && IsRight(html, "script", 82)
    ensures SearchesRight(ReadItem, html, CLOSING, ["script"])
  {
    ScriptParts();
    MeantClosing();
    assert ["script"][..0] == [] && CLOSING[|CLOSING|..] == "";
    SearchOne(html, CLOSING, ["script"], Close(CLOSING, "script"), [], "");
  }

  lemma ShiftedConstructs()
    ensures ConstructsOf(Shifted()) == Items(DotItems(DOT_COUNT) + TailItems())
  {
    ReadItemIsSound();
    MeantClosing();
    ScanTail(ReadItem);
    ScanDots(ReadItem, DOT_COUNT, NOTE + (IMG + SCRIPT()));
  }

  // ---------------------------------------------------------------- its image, and what is left

  lemma {:induction false} DotsStay(n: nat, rest: seq<Item>, at: nat)
    ensures WalkItems(DotItems(n) + rest, at, [], false) == WalkItems(rest, at + n, [], false)
    ensures Kept(DotItems(n) + rest, [], false, "a@b") == DotItems(n) + Kept(rest, [], false, "a@b")
    ensures NoStray(rest) ==> NoStray(DotItems(n) + rest)
    ensures Join(DotItems(n) + rest) == DottedRun(n) + Join(rest)
  {
    if n == 0 {
      assert [] + rest == rest && [] + Kept(rest, [], false, "a@b") == Kept(rest, [], false, "a@b");
      assert "" + Join(rest) == Join(rest);
    } else {
      var more := DotItems(n - 1) + rest;
      ThreeLists([Character([DOTTED_I])], DotItems(n - 1), rest);
      ThreeLists([Character([DOTTED_I])], DotItems(n - 1), Kept(rest, [], false, "a@b"));
      DotsStay(n - 1, rest, at + 1);
      PlainStays(Character([DOTTED_I]), more, at);
      assert ([Character([DOTTED_I])] + more)[1..] == more;
      assert [DOTTED_I] + (DottedRun(n - 1) + Join(rest)) == ([DOTTED_I] + DottedRun(n - 1)) + Join(rest);
    }
  }

  lemma ScriptStays(at: nat)
    ensures WalkItems(Script(), at, [], false) == Images([]) && Kept(Script(), [], false, "a@b") == Script()
    ensures Join(Script()) == SCRIPT() && NoStray(Script())
  {
    var closing := [Close(CLOSING, "script")];
    assert Script()[1..] == closing && [ScriptStart()] + closing == Script();
    assert [] + ["script"] == ["script"];
    ScriptIsNoImage();
    ClosingStays(at + |OPENING|);
  }

  lemma ClosingStays(at: nat)
    ensures var closing := [Close(CLOSING, "script")];
            && WalkItems(closing, at, ["script"], false) == Images([])
            && Kept(closing, ["script"], false, "a@b") == closing && Join(closing) == CLOSING
  {
    var closing := [Close(CLOSING, "script")];
    assert closing[1..] == [] && closing + [] == closing && CLOSING + "" == CLOSING;
  }

  lemma ScriptIsNoImage()
    ensures ImageAt(ScriptStart(), [], false) == NotAuthored && !Past(ScriptStart(), [], false)
  {
    assert |"script"| == 6 && |"img"| == 3 && |"div"| == 3;
  }

  lemma TailStays(at: nat)
    ensures WalkItems(TailItems(), at, [], false) == Images([Range(at + 16, at + 35, "a@b")])
    ensures Kept(TailItems(), [], false, "a@b") == [Comment(NOTE)] + Script() && NoStray(TailItems())
    ensures Join([Comment(NOTE)] + Script()) == NOTE + SCRIPT()
  {
    NoteIsPlain();
    ImageInFront(at + 16);
    var rest := [ImgItem()] + Script();
    assert TailItems()[1..] == rest && ([Comment(NOTE)] + Script())[1..] == Script();
    ScriptStays(0);
  }

  lemma ImageInFront(at: nat)
    ensures WalkItems([ImgItem()] + Script(), at, [], false) == Images([Range(at, at + 19, "a@b")])
    ensures Kept([ImgItem()] + Script(), [], false, "a@b") == Script() && NoStray([ImgItem()] + Script())
  {
    ImgDrops();
    ImageIsNeutral();
    assert ([ImgItem()] + Script())[1..] == Script();
    ScriptStays(at + 19);
    assert [Range(at, at + 19, "a@b")] + [] == [Range(at, at + 19, "a@b")];
  }

  lemma ImgDrops()
    ensures ImageAt(ImgItem(), [], false) == Authored("a@b") && !Past(ImgItem(), [], false)
  {
    ImgIsAuthored(Alone(ImgItem(), []));
    ImgIsNotForwarded(Alone(ImgItem(), []));
  }

  lemma ShiftedImages()
    ensures ConstructsOf(Shifted()).Items? && NoStray(ConstructsOf(Shifted()).items)
    ensures AuthoredOf(Shifted()) == Images([Range(55, 74, "a@b")])
  {
    ShiftedConstructs();
    ShiftedIsShort();
    TailStays(DOT_COUNT);
    ImagesBehindDots(Shifted(), DOT_COUNT, TailItems(), Images([Range(55, 74, "a@b")]));
  }

  lemma ImagesBehindDots(html: string, n: nat, tail: seq<Item>, images: Gathered)
    requires ConstructsOf(html) == Items(DotItems(n) + tail) && ByteLength(html) <= INLINE_IMAGE_HTML_MAX_BYTES
    requires WalkItems(tail, n, [], false) == images && NoStray(tail)
    ensures AuthoredOf(html) == images && NoStray(ConstructsOf(html).items)
  {
    AuthoredByItems(html);
    DotsStay(n, tail, 0);
  }

  lemma ShiftedIsShort()
    ensures ByteLength(Shifted()) <= INLINE_IMAGE_HTML_MAX_BYTES
  {
    ShiftedSearchIsRight();
    BytesAtMostFour(Shifted());
  }

  lemma ShiftedIsCut()
    requires AuthoredOf(Shifted()).Images? && ConstructsOf(Shifted()) == Items(DotItems(DOT_COUNT) + TailItems())
    ensures RemovedText(Shifted(), "a@b") == ShiftedLeft()
  {
    SourceLowers();
    DotsStay(DOT_COUNT, TailItems(), 0);
    TailStays(DOT_COUNT);
    RemovedIsKept(Shifted(), "a@b");
    DotsStay(DOT_COUNT, [Comment(NOTE)] + Script(), 0);
  }

  /** Without the image the search still lands where the comment's closing tag does, which is now past
      the end of the body. */
  lemma LeftIsMissed(loop: Reader)
    requires Follows(ShiftedLeft(), loop)
    ensures loop(CLOSING, ["script"]) == Unreadable(HtmlMalformed)
  {
    TailIsPlain();
    RunLowers(DOT_COUNT, NOTE + SCRIPT());
    LandsOnNote(DOT_COUNT, NOTE + SCRIPT(), SCRIPT(), 63);
    ScriptParts();
    SearchedFrom(ShiftedLeft(), 9, "script", Some(19));
  }

  lemma LeftIsNotAccepted()
    ensures FoundImages(ShiftedLeft()) == Failed(HtmlMalformed)
  {
    var html := ShiftedLeft();
    var loop := LoopReader(html);
    LoopReaderFollows(html);
    LoopAgreesOutside(html);
    LeftIsMissed(loop);
    ScanScript(loop, Bad(HtmlMalformed));
    ScanNote(loop, SCRIPT());
    ScanDots(loop, DOT_COUNT, NOTE + SCRIPT());
    LeftIsShort();
  }

  lemma LeftIsShort()
    ensures ByteLength(ShiftedLeft()) <= INLINE_IMAGE_HTML_MAX_BYTES
  {
    TailIsPlain();
    RunLowers(DOT_COUNT, NOTE + SCRIPT());
    BytesAtMostFour(ShiftedLeft());
  }

  /** The loop accepts this body, with one image, no stray `<` and each search right; it refuses what
      the removal of the image leaves. */
  lemma RemovalMayShiftTheEnd()
    ensures AllSearchesRight(Shifted())
    ensures ConstructsOf(Shifted()).Items? && NoStray(ConstructsOf(Shifted()).items)
    ensures FoundImages(Shifted()) == Images([Range(55, 74, "a@b")])
    ensures LeftText(Shifted(), "a@b") == ShiftedLeft()
    ensures FoundImages(ShiftedLeft()) == Failed(HtmlMalformed)
  {
    ShiftedSearchesRight();
    ShiftedImages();
    ShiftedConstructs();
    ShiftedIsCut();
    ImagesAreAsMeant(Shifted());
    LeftIsNotAccepted();
  }
}
