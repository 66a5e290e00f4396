/** How the loop reads what is left of a body after a removal. The removal is that of the images the
    loop finds; the text left is searched anew for the ends of its raw texts. */
module InlineImageReread {
  import opened Wrappers
  import opened Characters
  import opened HtmlText
  import opened HtmlTags
  import opened HtmlProjection
  import opened HtmlNesting
  import opened HtmlSearch
  import opened InlineImages
  import opened InlineImageRemoval

  // ---------------------------------------------------------------- strays as the loop reads them

  /** Outside raw text the two readers are the same. */
  ghost predicate AgreeOutside(meant: Reader, loop: Reader) {
    forall s, stack {:trigger loop(s, stack)} :: !InRawText(stack) ==> loop(s, stack) == meant(s, stack)
  }

  lemma LoopAgreesOutside(html: string)
    ensures AgreeOutside(ReadItem, LoopReader(html))
  {
  }

  /** If another reader reads what was kept as the very constructs, their strays stay strays. */
  lemma {:induction false} RereadKeepsStrays(meant: Reader, loop: Reader, s: string, stack: seq<string>,
                                             forwarded: bool, contentId: string)
    requires Sound(meant) && Sound(loop) && KnowsStrays(meant) && AgreeOutside(meant, loop)
    requires Scan(meant, s, stack).Items?
    ensures var kept := Kept(Scan(meant, s, stack).items, stack, forwarded, contentId);
            Scan(loop, Join(kept), stack) == Items(kept) ==> StraysStay(kept)
    decreases |s|
  {
    if s != "" {
      var items, item := Scan(meant, s, stack).items, meant(s, stack).item;
      var inner, past := After(item, stack).value, Past(item, stack, forwarded);
      assert items[0] == item && items[1..] == Scan(meant, s[|item.text|..], inner).items;
      RereadKeepsStrays(meant, loop, s[|item.text|..], inner, past, contentId);
      if Drops(item, stack, forwarded, contentId) {
        DroppedIsNeutral(item, stack, forwarded, contentId);
        KeptDrops(items, stack, forwarded, contentId);
      } else {
        KeptKeeps(items, stack, forwarded, contentId);
        OneRereadKeepsStrays(meant, loop, s, stack, Kept(items[1..], inner, past, contentId));
      }
    }
  }

  lemma OneRereadKeepsStrays(meant: Reader, loop: Reader, s: string, stack: seq<string>, rest: seq<Item>)
    requires Sound(meant) && Sound(loop) && KnowsStrays(meant) && AgreeOutside(meant, loop)
    requires s != "" && meant(s, stack).Found? && After(meant(s, stack).item, stack).Some?
    requires Scan(loop, Join(rest), After(meant(s, stack).item, stack).value) == Items(rest) ==> StraysStay(rest)
    ensures var all := [meant(s, stack).item] + rest;
            Scan(loop, Join(all), stack) == Items(all) ==> StraysStay(all)
  {
    var item := meant(s, stack).item;
    var all, t := [item] + rest, item.text + Join(rest);
    assert all[1..] == rest && Join(all) == t;
    if Scan(loop, t, stack) == Items(all) {
      FirstIsRead(loop, t, stack);
      assert t[|item.text|..] == Join(rest);
      RestIsRead(loop, t, stack, item, rest);
      assert KnowsStray(s, stack, meant(s, stack));
      if item.Stray? { assert KnowsStray(t, stack, meant(t, stack)); }
    }
  }

  lemma RestIsRead(loop: Reader, t: string, stack: seq<string>, item: Item, rest: seq<Item>)
    requires Sound(loop) && t != "" && loop(t, stack) == Found(item) && After(item, stack).Some?
    requires Scan(loop, t, stack) == Items([item] + rest)
    ensures Scan(loop, t[|item.text|..], After(item, stack).value) == Items(rest)
  {
    var again := Scan(loop, t[|item.text|..], After(item, stack).value);
    assert Scan(loop, t, stack) == Then([item], again);
    assert again.Items? && ([item] + again.items)[1..] == again.items && ([item] + rest)[1..] == rest;
  }

  // ---------------------------------------------------------------- the theorem

  lemma FoundAsMeant(bodyHtml: string)
    requires FoundImages(bodyHtml).Images? && AllSearchesRight(bodyHtml)
    ensures AuthoredOf(bodyHtml) == FoundImages(bodyHtml)
    ensures ConstructsOf(bodyHtml).Items? && LoopConstructs(bodyHtml) == ConstructsOf(bodyHtml)
  {
    ImagesAreAsMeant(bodyHtml);
    LoopReadsWhatIsMeantExactly(bodyHtml);
  }

  /** The constructs the loop reads, without the images of that content id. */
  ghost function KeptOf(bodyHtml: string, contentId: string): seq<Item>
    requires LoopConstructs(bodyHtml).Items?
  {
    Kept(LoopConstructs(bodyHtml).items, [], false, Lower(contentId))
  }

  lemma KeptRereadKeepsStrays(bodyHtml: string, contentId: string, result: string)
    requires ConstructsOf(bodyHtml).Items?
    ensures var kept := Kept(ConstructsOf(bodyHtml).items, [], false, Lower(contentId));
            result == Join(kept) && LoopConstructs(result) == Items(kept) ==> LeavesStrays(bodyHtml, contentId)
  {
    ReadItemIsSound();
    ReadItemKnowsStrays();
    LoopReaderFollows(result);
    LoopAgreesOutside(result);
    RereadKeepsStrays(ReadItem, LoopReader(result), bodyHtml, [], false, Lower(contentId));
  }

  /** Removing an image from a body on which each search is right takes out exactly its tags. The loop
      reads what is left as the other constructs exactly when no stray `<` starts something now and each
      search is right there, too. It then accepts it, and finds the other images in the same order. */
  lemma RemovalIsReadExactly(bodyHtml: string, contentId: string)
    requires FoundImages(bodyHtml).Images? && AllSearchesRight(bodyHtml)
    ensures ConstructsOf(bodyHtml).Items? && LoopConstructs(bodyHtml).Items?
    ensures var result, kept := LeftText(bodyHtml, contentId), KeptOf(bodyHtml, contentId);
            && result == Join(kept)
            && (LoopConstructs(result) == Items(kept)
                <==> LeavesStrays(bodyHtml, contentId) && AllSearchesRight(result))
            && (LoopConstructs(result) == Items(kept) ==>
                  && FoundImages(result).Images?
                  && ContentIds(FoundImages(result).ranges)
                     == Others(ContentIds(FoundImages(bodyHtml).ranges), Lower(contentId)))
  {
    FoundAsMeant(bodyHtml);
    ImagesAreAsMeant(bodyHtml);
    var result, kept := LeftText(bodyHtml, contentId), KeptOf(bodyHtml, contentId);
    RemovalIsExact(bodyHtml, contentId);
    KeptRereadKeepsStrays(bodyHtml, contentId, result);
    LoopReadsWhatIsMeantExactly(result);
    if AllSearchesRight(result) { ImagesAreAsMeant(result); }
  }

  // ---------------------------------------------------------------- closing tags come from closing tags

  /** Plain characters and strays stand alone; every other construct ends with `>`. */
  predicate Tight(item: Item) {
    match item
    case Character(text) => |text| == 1 && text[0] != '<'
    case Stray(text) => text == "<"
    case _ => item.text != "" && item.text[|item.text| - 1] == '>'
  }

  lemma CommentEnds(s: string, k: nat)
    requires StartsAt(s, "-->", k)
    ensures s[..k + 3][k + 2] == '>'
  {
    assert s[k + 2] == s[k..k + 3][2];
  }

  lemma MarkupIsTight(s: string)
    requires s != ""
    ensures ReadMarkup(s).Found? ==> Tight(ReadMarkup(s).item)
  {
    if s[0] == '<' && StartsAt(s, "<!--", 0) && IndexOf(s, "-->", 4).Some? {
      CommentEnds(s, IndexOf(s, "-->", 4).value);
    }
  }

  lemma ItemIsTight(s: string, stack: seq<string>)
    ensures ReadItem(s, stack).Found? ==> Tight(ReadItem(s, stack).item)
  {
    if s != "" {
      if InRawText(stack) { RawTextIsTight(s, stack[|stack| - 1]); } else { MarkupIsTight(s); }
    }
  }

  lemma RawTextIsTight(s: string, element: string)
    requires s != "" && element in RAW_TEXT_ELEMENTS
    ensures ReadRawText(s, element).Found? ==> Tight(ReadRawText(s, element).item)
  {
    RawTextNamesArePlain(element);
    RawTextEndsWithItsTag(s, element);
    var close := FirstClose(LowerEach(s), element, 0);
    if close.Some? { MarkupIsTight(s[close.value..]); }
  }

  ghost predicate TightReader(reader: Reader) {
    forall s, stack {:trigger reader(s, stack)} :: reader(s, stack).Found? ==> Tight(reader(s, stack).item)
  }

  lemma {:induction false} ScanIsTight(reader: Reader, s: string, stack: seq<string>)
    requires Sound(reader) && TightReader(reader) && Scan(reader, s, stack).Items?
    ensures forall item :: item in Scan(reader, s, stack).items ==> Tight(item)
    decreases |s|
  {
    if s != "" {
      var item := reader(s, stack).item;
      ScanIsTight(reader, s[|item.text|..], After(item, stack).value);
    }
  }

  lemma ConstructsAreTight(html: string)
    requires ConstructsOf(html).Items?
    ensures forall item :: item in ConstructsOf(html).items ==> Tight(item)
  {
    ReadItemIsSound();
    forall s, stack ensures ReadItem(s, stack).Found? ==> Tight(ReadItem(s, stack).item) { ItemIsTight(s, stack); }
    ScanIsTight(ReadItem, html, []);
  }

  /** A closing tag starts with `<`, a slash and a letter, and has no `>` up to its end. */
  lemma ClosingShape(s: string, element: string, j: nat)
    requires PlainName(element) && ClosesAt(LowerEach(s), element, j)
    ensures j + 2 + |element| < |s| && s[j] == '<' && s[j + 1] == '/' && IsLetter(s[j + 2])
    ensures forall i :: j <= i < j + 2 + |element| ==> s[i] != '>'
  {
    ClosingPrefix(s, element, j);
    forall i | j <= i < j + 2 + |element| ensures s[i] != '>' {
      assert s[i] == s[j..][..2 + |element|][i - j];
    }
  }

  lemma SlashNamesTag(s: string)
    requires |s| > 2 && s[0] == '<' && s[1] == '/' && IsLetter(s[2])
    ensures NamesTag(s)
  {
    assert SkipOver(s, 1, |s|, Spaces) == 1 && SkipOver(s, 2, |s|, Spaces) == 2;
  }

  /** A closing tag that starts in the first construct ends in it. */
  lemma ClosingIsInside(item: Item, rest: string, element: string, j: nat)
    requires Tight(item) && PlainName(element) && j < |item.text|
    requires item.Stray? ==> LooksStray(item.text + rest)
    requires ClosesAt(LowerEach(item.text + rest), element, j)
    ensures j + 2 + |element| < |item.text|
  {
    var t := item.text + rest;
    ClosingShape(t, element, j);
    assert t[|item.text| - 1] == item.text[|item.text| - 1];
    if item.Stray? { SlashNamesTag(t); }
  }

  /** A closing tag inside a text is one inside every text that starts alike. */
  lemma ClosesInEither(text: string, a: string, b: string, element: string, j: nat)
    requires j + 2 + |element| < |text| && ClosesAt(LowerEach(text + a), element, j)
    ensures ClosesAt(LowerEach(text + b), element, j)
  {
    var n := |text|;
    assert (text + a)[..n] == text == (text + b)[..n];
    LowerIsLocal(text + a, text + b, n);
    ClosesIsLocal(LowerEach(text + a), LowerEach(text + b), element, j, n);
  }

  lemma ClosesBehind(text: string, rest: string, element: string, j: nat)
    ensures ClosesAt(LowerEach(text + rest), element, |text| + j) <==> ClosesAt(LowerEach(rest), element, j)
  {
    assert LowerEach(text + rest)[|text|..] == LowerEach(rest);
    ClosesShifts(LowerEach(text + rest), element, |text|, j);
  }

  /** The closing tag at `j` of what is left is the one at `k` of the text, and no U+0130 comes in
      front of it that was not there. */
  predicate ComesFromClosing(left: string, text: string, element: string, j: nat, k: nat) {
    && j <= |left| && k <= |text| && ClosesAt(LowerEach(text), element, k)
    && (DOTTED_I in left[..j] ==> DOTTED_I in text[..k])
  }

  ghost predicate AllCome(left: string, text: string, element: string) {
    forall j: nat :: ClosesAt(LowerEach(left), element, j) ==>
      exists k: nat :: ComesFromClosing(left, text, element, j, k)
  }

  lemma ComesFromFirst(item: Item, left: string, rest: string, element: string, j: nat)
    requires Tight(item) && PlainName(element) && j < |item.text|
    requires item.Stray? ==> LooksStray(item.text + left)
    requires ClosesAt(LowerEach(item.text + left), element, j)
    ensures ComesFromClosing(item.text + left, item.text + rest, element, j, j)
  {
    ClosingIsInside(item, left, element, j);
    ClosesInEither(item.text, left, rest, element, j);
    assert (item.text + left)[..j] == item.text[..j] == (item.text + rest)[..j];
  }

  lemma BehindDropped(text: string, left: string, rest: string, element: string, j: nat, m: nat)
    requires ComesFromClosing(left, rest, element, j, m)
    ensures ComesFromClosing(left, text + rest, element, j, |text| + m)
  {
    ClosesBehind(text, rest, element, m);
    assert (text + rest)[..|text| + m] == text + rest[..m];
  }

  lemma BehindKept(text: string, left: string, rest: string, element: string, j: nat, m: nat)
    requires ComesFromClosing(left, rest, element, j, m)
    ensures ComesFromClosing(text + left, text + rest, element, |text| + j, |text| + m)
  {
    ClosesBehind(text, rest, element, m);
    assert (text + rest)[..|text| + m] == text + rest[..m];
    assert (text + left)[..|text| + j] == text + left[..j];
  }

  lemma AllComeDropped(text: string, left: string, rest: string, element: string)
    requires AllCome(left, rest, element)
    ensures AllCome(left, text + rest, element)
  {
    forall j: nat | ClosesAt(LowerEach(left), element, j)
      ensures exists k: nat :: ComesFromClosing(left, text + rest, element, j, k)
    {
      var m: nat :| ComesFromClosing(left, rest, element, j, m);
      BehindDropped(text, left, rest, element, j, m);
    }
  }

  lemma AllComeKept(item: Item, left: string, rest: string, element: string)
    requires AllCome(left, rest, element) && Tight(item) && PlainName(element)
    requires item.Stray? ==> LooksStray(item.text + left)
    ensures AllCome(item.text + left, item.text + rest, element)
  {
    forall j: nat | ClosesAt(LowerEach(item.text + left), element, j)
      ensures exists k: nat :: ComesFromClosing(item.text + left, item.text + rest, element, j, k)
    {
      if j < |item.text| {
        ComesFromFirst(item, left, rest, element, j);
      } else {
        ClosesBehind(item.text, left, element, j - |item.text|);
        var m: nat :| ComesFromClosing(left, rest, element, j - |item.text|, m);
        BehindKept(item.text, left, rest, element, j - |item.text|, m);
      }
    }
  }

  lemma {:induction false} ClosingsCome(items: seq<Item>, stack: seq<string>, forwarded: bool, contentId: string,
                                        element: string)
    requires PlainName(element) && forall item :: item in items ==> Tight(item)
    requires StraysStay(Kept(items, stack, forwarded, contentId))
    ensures AllCome(Join(Kept(items, stack, forwarded, contentId)), Join(items), element)
    decreases items
  {
    if items != [] {
      var item, inner, past := items[0], StackAfter(items[0], stack), Past(items[0], stack, forwarded);
      var left := Join(Kept(items[1..], inner, past, contentId));
      if Drops(item, stack, forwarded, contentId) {
        KeptDrops(items, stack, forwarded, contentId);
        ClosingsCome(items[1..], inner, past, contentId, element);
        AllComeDropped(item.text, left, Join(items[1..]), element);
      } else {
        KeptKeeps(items, stack, forwarded, contentId);
        ClosingsCome(items[1..], inner, past, contentId, element);
        AllComeKept(item, left, Join(items[1..]), element);
      }
    }
  }

  /** A removal moves nothing into the way of a raw text's end. */
  lemma NoneMovedStays(bodyHtml: string, contentId: string)
    requires ConstructsOf(bodyHtml).Items? && NoneMoved(bodyHtml) && LeavesStrays(bodyHtml, contentId)
    ensures NoneMoved(Join(Kept(ConstructsOf(bodyHtml).items, [], false, Lower(contentId))))
  {
    ReadItemIsSound();
    var id, items := Lower(contentId), ConstructsOf(bodyHtml).items;
    var left := Join(Kept(items, [], false, id));
    ConstructsAreTight(bodyHtml);
    ScanJoins(ReadItem, bodyHtml, []);
    forall element, j: nat | element in RAW_TEXT_ELEMENTS && ClosesAt(LowerEach(left), element, j)
      ensures UndottedBefore(left, j)
    {
      RawTextNamesArePlain(element);
      ClosingsCome(items, [], false, id, element);
      var k: nat :| ComesFromClosing(left, bodyHtml, element, j, k);
      assert UndottedBefore(bodyHtml, k);
    }
  }

  /** A condition on the body itself: with no U+0130 in front of what may end a raw text, and no stray
      that starts something, the text left is accepted, has the other images in order, and removing the
      image again changes nothing. */
  lemma RemovalStaysRight(bodyHtml: string, contentId: string)
    requires FoundImages(bodyHtml).Images? && NoneMoved(bodyHtml)
    ensures ConstructsOf(bodyHtml).Items? && LoopConstructs(bodyHtml).Items?
    ensures LeavesStrays(bodyHtml, contentId) ==>
              var result := LeftText(bodyHtml, contentId);
              && NoneMoved(result) && LoopConstructs(result) == Items(KeptOf(bodyHtml, contentId))
              && FoundImages(result).Images?
              && ContentIds(FoundImages(result).ranges)
                 == Others(ContentIds(FoundImages(bodyHtml).ranges), Lower(contentId))
              && LeftText(result, contentId) == result
  {
    NoneMovedReadsRight(bodyHtml);
    RemovalIsReadExactly(bodyHtml, contentId);
    if LeavesStrays(bodyHtml, contentId) {
      FoundAsMeant(bodyHtml);
      NoneMovedStays(bodyHtml, contentId);
      NoneMovedReadsRight(LeftText(bodyHtml, contentId));
      RemovedOnce(bodyHtml, contentId);
    }
  }

  lemma RemovedOnce(bodyHtml: string, contentId: string)
    requires FoundImages(bodyHtml).Images? && AllSearchesRight(bodyHtml)
    requires ConstructsOf(bodyHtml).Items? && LeavesStrays(bodyHtml, contentId)
    requires AllSearchesRight(LeftText(bodyHtml, contentId))
    ensures var result := LeftText(bodyHtml, contentId); LeftText(result, contentId) == result
  {
    var result := LeftText(bodyHtml, contentId);
    FoundAsMeant(bodyHtml);
    ImagesAreAsMeant(bodyHtml);
    ImagesAreAsMeant(result);
    RemovalIsIdempotent(bodyHtml, contentId);
  }
}
