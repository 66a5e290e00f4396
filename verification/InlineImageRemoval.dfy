/** Taking a managed image out of a body removes exactly that image: what is left is read as
    the same constructs, and its images are the others. */
module InlineImageRemoval {
  import opened Wrappers
  import opened Characters
  import opened HtmlText
  import opened HtmlTags
  import opened HtmlProjection
  import opened HtmlNesting
  import opened InlineImages

  // ---------------------------------------------------------------- walking tags in order

  function FirstForwarded(tags: seq<Tag>): Option<nat> {
    if tags == [] then None
    else if MarksForwarded(tags[0]) then Some(tags[0].start)
    else FirstForwarded(tags[1..])
  }

  lemma {:induction false} FirstForwardedSnoc(tags: seq<Tag>, tag: Tag)
    ensures FirstForwarded(tags + [tag]) == NextForwarded(FirstForwarded(tags), tag)
  {
    if tags == [] {
      assert [] + [tag] == [tag] && [tag][1..] == [];
    } else {
      assert (tags + [tag])[1..] == tags[1..] + [tag];
      FirstForwardedSnoc(tags[1..], tag);
    }
  }

  lemma {:induction false} ForwardedStartIsFirst(tags: seq<Tag>)
    ensures ForwardedStart(tags) == FirstForwarded(tags)
  {
    if tags != [] {
      var n := |tags| - 1;
      ForwardedStartIsFirst(tags[..n]);
      FirstForwardedSnoc(tags[..n], tags[n]);
      assert tags == tags[..n] + [tags[n]];
    }
  }

  /** The images among `tags`, once past the start of a forwarded message or not yet. */
  function Walk(tags: seq<Tag>, forwarded: bool): Gathered {
    if tags == [] then Images([])
    else
      var past := forwarded || MarksForwarded(tags[0]);
      var rest := Walk(tags[1..], past);
      match if past then NotAuthored else ImageOf(tags[0])
      case NotAuthored => rest
      case InvalidImage => Failed(InvalidSource)
      case Authored(contentId) => Prepend([Range(tags[0].start, tags[0].end, contentId)], rest)
  }

  lemma {:induction false} FirstForwardedIsAhead(tags: seq<Tag>, end: nat)
    requires Ordered(tags, end) && FirstForwarded(tags).Some?
    ensures tags != [] && tags[0].start <= FirstForwarded(tags).value
  {
    if !MarksForwarded(tags[0]) { FirstForwardedIsAhead(tags[1..], end); }
  }

  /** Comparing positions with the start of the forwarded message is the same as remembering
      whether it has started. */
  lemma {:induction false} WalkIsGather(tags: seq<Tag>, start: Option<nat>, forwarded: bool, end: nat)
    requires Ordered(tags, end)
    requires forwarded ==> start.Some? && (tags != [] ==> start.value <= tags[0].start)
    requires !forwarded ==> start == FirstForwarded(tags)
    ensures Gather(tags, start) == Walk(tags, forwarded)
  {
    if tags != [] {
      var past := forwarded || MarksForwarded(tags[0]);
      WalkIsGather(tags[1..], start, past, end);
      if !past && start.Some? { FirstForwardedIsAhead(tags[1..], end); }
      assert past == IsForwarded(tags[0], start);
    }
  }

  // ---------------------------------------------------------------- dropping constructs

  function Alone(item: Item, stack: seq<string>): Tag
    requires item.Open?
  {
    Tag(0, 0, |stack|, item.start.name, item.start.attributes)
  }

  predicate Past(item: Item, stack: seq<string>, forwarded: bool) {
    forwarded || (item.Open? && MarksForwarded(Alone(item, stack)))
  }

  predicate Drops(item: Item, stack: seq<string>, forwarded: bool, contentId: string) {
    ImageAt(item, stack, forwarded) == Authored(contentId)
  }

  /** The constructs without the images of that content id. */
  function Kept(items: seq<Item>, stack: seq<string>, forwarded: bool, contentId: string): seq<Item> {
    if items == [] then []
    else (if Drops(items[0], stack, forwarded, contentId) then [] else [items[0]])
         + Kept(items[1..], StackAfter(items[0], stack), Past(items[0], stack, forwarded), contentId)
  }

  function Others(ids: seq<string>, contentId: string): seq<string> {
    if ids == [] then [] else (if ids[0] == contentId then [] else [ids[0]]) + Others(ids[1..], contentId)
  }

  lemma PositionsDoNotMatter(a: Tag, b: Tag)
    requires a.name == b.name && a.depth == b.depth && a.attributes == b.attributes
    ensures MarksForwarded(a) == MarksForwarded(b) && ImageOf(a) == ImageOf(b)
  {
  }

  lemma DroppedIsNeutral(item: Item, stack: seq<string>, forwarded: bool, contentId: string)
    requires Drops(item, stack, forwarded, contentId) && ImageIsVoid(item)
    ensures After(item, stack) == Some(stack) && StackAfter(item, stack) == stack
  {
  }

  /** The image a construct is, if any. */
  function ImageAt(item: Item, stack: seq<string>, forwarded: bool): Image {
    if item.Open? && !Past(item, stack, forwarded) then ImageOf(Alone(item, stack)) else NotAuthored
  }

  function WithImage(image: Image, start: nat, end: nat, rest: Gathered): Gathered {
    match image
    case NotAuthored => rest
    case InvalidImage => Failed(InvalidSource)
    case Authored(contentId) => Prepend([Range(start, end, contentId)], rest)
  }

  /** A walk over the tags of a list of constructs. */
  function WalkItems(items: seq<Item>, at: nat, stack: seq<string>, forwarded: bool): Gathered {
    if items == [] then Images([])
    else
      WithImage(ImageAt(items[0], stack, forwarded), at, at + |items[0].text|,
                WalkItems(items[1..], at + |items[0].text|,
                          StackAfter(items[0], stack), Past(items[0], stack, forwarded)))
  }

  lemma WalkStep(item: Item, at: nat, stack: seq<string>, forwarded: bool, rest: seq<Tag>)
    requires IsDirect(item)
    ensures Walk(TagOf(item, at, stack) + rest, forwarded)
         == WithImage(ImageAt(item, stack, forwarded), at, at + |item.text|, Walk(rest, Past(item, stack, forwarded)))
  {
    if item.Open? {
      var tag := TagOf(item, at, stack)[0];
      PositionsDoNotMatter(tag, Alone(item, stack));
      assert ([tag] + rest)[1..] == rest;
    } else {
      assert [] + rest == rest;
    }
  }

  lemma {:induction false} WalkOfItems(items: seq<Item>, at: nat, stack: seq<string>, forwarded: bool)
    requires forall item :: item in items ==> IsDirect(item)
    ensures Walk(TagsOf(items, at, stack), forwarded) == WalkItems(items, at, stack, forwarded)
    decreases items
  {
    if items != [] {
      var next, inner := at + |items[0].text|, StackAfter(items[0], stack);
      WalkStep(items[0], at, stack, forwarded, TagsOf(items[1..], next, inner));
      WalkOfItems(items[1..], next, inner, Past(items[0], stack, forwarded));
    }
  }

  // ---------------------------------------------------------------- the text that is left

  lemma CutSkips(body: string, at: nat, next: nat, ranges: seq<Range>, i: nat)
    requires RangesFit(ranges, 0, |body|) && i <= |ranges| && at <= next <= |body|
    requires i < |ranges| ==> next <= ranges[i].start
    ensures Cut(body, at, ranges, i) == body[at..next] + Cut(body, next, ranges, i)
  {
    if i == |ranges| {
      assert body[at..] == body[at..next] + body[next..];
    } else {
      ThreeParts(body[at..next], body[next..ranges[i].start], Cut(body, ranges[i].end, ranges, i + 1));
      assert body[at..ranges[i].start] == body[at..next] + body[next..ranges[i].start];
    }
  }

  lemma ThreeParts(a: string, b: string, c: string)
    ensures a + (b + c) == (a + b) + c
  {
  }

  predicate Solid(items: seq<Item>) {
    forall item :: item in items ==> item.text != "" && ImageIsVoid(item) && IsDirect(item)
  }

  /** What is read in raw text is no start tag, so a start tag has nothing in front of it. */
  lemma ReadItemIsDirect(s: string, stack: seq<string>)
    ensures ReadItem(s, stack).Found? ==> IsDirect(ReadItem(s, stack).item)
  {
    if s != "" && InRawText(stack) {
      RawTextNamesArePlain(stack[|stack| - 1]);
      RawTextEndsWithItsTag(s, stack[|stack| - 1]);
    }
  }

  ghost predicate Direct(reader: Reader) {
    forall s, stack {:trigger reader(s, stack)} :: reader(s, stack).Found? ==> IsDirect(reader(s, stack).item)
  }

  lemma {:induction false} ScanIsSolid(reader: Reader, s: string, stack: seq<string>)
    requires Sound(reader) && Direct(reader) && Scan(reader, s, stack).Items?
    ensures Solid(Scan(reader, s, stack).items)
    decreases |s|
  {
    if s != "" {
      var item := reader(s, stack).item;
      ScanIsSolid(reader, s[|item.text|..], After(item, stack).value);
    }
  }

  lemma ConstructsAreSolid(html: string)
    requires ConstructsOf(html).Items?
    ensures Solid(ConstructsOf(html).items)
  {
    ReadItemIsSound();
    forall s, stack ensures ReadItem(s, stack).Found? ==> IsDirect(ReadItem(s, stack).item) {
      ReadItemIsDirect(s, stack);
    }
    ScanIsSolid(ReadItem, html, []);
  }

  /** Cutting the ranges of an image out of the text is dropping its constructs. */
  lemma {:induction false} CutIsKept(body: string, items: seq<Item>, at: nat, stack: seq<string>, forwarded: bool,
                                     contentId: string, ranges: seq<Range>, i: nat)
    requires at <= |body| && body[at..] == Join(items) && Solid(items)
    requires WalkItems(items, at, stack, forwarded).Images?
    requires RangesFit(ranges, 0, |body|) && i <= |ranges|
    requires ranges[i..] == Matching(WalkItems(items, at, stack, forwarded).ranges, contentId)
    ensures i < |ranges| ==> at <= ranges[i].start
    ensures Cut(body, at, ranges, i) == Join(Kept(items, stack, forwarded, contentId))
    decreases items
  {
    if items == [] {
    } else {
      var next := at + |items[0].text|;
      var inner, past := StackAfter(items[0], stack), Past(items[0], stack, forwarded);
      FirstOfJoin(body, at, items);
      var rest := WalkItems(items[1..], next, inner, past).ranges;
      if Drops(items[0], stack, forwarded, contentId) {
        var range := Range(at, next, contentId);
        assert ([range] + rest)[1..] == rest;
        assert ranges[i..][0] == ranges[i] == range && ranges[i..][1..] == ranges[i + 1..];
        CutIsKept(body, items[1..], next, inner, past, contentId, ranges, i + 1);
        assert body[at..ranges[i].start] == "";
        KeptDrops(items, stack, forwarded, contentId);
      } else {
        MatchingSkips(WalkItems(items, at, stack, forwarded).ranges, rest, contentId);
        CutIsKept(body, items[1..], next, inner, past, contentId, ranges, i);
        CutSkips(body, at, next, ranges, i);
        KeptKeeps(items, stack, forwarded, contentId);
      }
    }
  }

  lemma FirstOfJoin(body: string, at: nat, items: seq<Item>)
    requires items != [] && at <= |body| && body[at..] == Join(items)
    ensures var next := at + |items[0].text|;
            next <= |body| && body[at..next] == items[0].text && body[next..] == Join(items[1..])
  {
    var next := at + |items[0].text|;
    assert body[next..] == body[at..][|items[0].text|..];
    assert body[at..next] == body[at..][..|items[0].text|];
  }

  lemma KeptDrops(items: seq<Item>, stack: seq<string>, forwarded: bool, contentId: string)
    requires items != [] && Drops(items[0], stack, forwarded, contentId)
    ensures Kept(items, stack, forwarded, contentId)
         == Kept(items[1..], StackAfter(items[0], stack), Past(items[0], stack, forwarded), contentId)
  {
  }

  lemma KeptKeeps(items: seq<Item>, stack: seq<string>, forwarded: bool, contentId: string)
    requires items != [] && !Drops(items[0], stack, forwarded, contentId)
    ensures var rest := Kept(items[1..], StackAfter(items[0], stack), Past(items[0], stack, forwarded), contentId);
            && Kept(items, stack, forwarded, contentId) == [items[0]] + rest
            && Kept(items, stack, forwarded, contentId)[1..] == rest
            && Join(Kept(items, stack, forwarded, contentId)) == items[0].text + Join(rest)
  {
  }

  lemma MatchingSkips(all: seq<Range>, rest: seq<Range>, contentId: string)
    requires all == rest || (all != [] && all[1..] == rest && all[0].contentId != contentId)
    ensures Matching(all, contentId) == Matching(rest, contentId)
  {
  }

  // ---------------------------------------------------------------- reading it again

  predicate NoStray(items: seq<Item>) { forall item :: item in items ==> !item.Stray? }

  /** Past the spaces after `<`, and past a slash and its spaces, comes a letter. */
  predicate NamesTag(s: string)
    requires s != ""
  {
    var slash := SkipOver(s, 1, |s|, Spaces);
    var start := if slash < |s| && s[slash] == '/' then SkipOver(s, slash + 1, |s|, Spaces) else slash;
    start < |s| && IsLetter(s[start])
  }

  /** A `<` that starts nothing: a `>` outside quotes follows somewhere, but no name, no
      declaration and no comment starts here. */
  predicate LooksStray(s: string) {
    && s != "" && s[0] == '<' && TagEndFrom(s, 1, None).Some?
    && !StartsAt(s, "<!--", 0) && !IsDeclaration(s) && !NamesTag(s)
  }

  /** Every stray `<` still starts nothing in front of what follows it in `items`. */
  predicate StraysStay(items: seq<Item>) {
    items == [] || ((items[0].Stray? ==> LooksStray(Join(items))) && StraysStay(items[1..]))
  }

  /** A run that stops before the end does not see the end. */
  lemma {:induction false} SkipStops(s: string, i: nat, end: nat, class_: Class)
    requires i < end <= |s| && !In(s[end - 1], class_)
    ensures SkipOver(s, i, |s|, class_) == SkipOver(s[..end], i, end, class_)
    decreases end - i
  {
    if In(s[i], class_) { SkipStops(s, i + 1, end, class_); }
  }

  lemma StrayMarkup(s: string)
    requires s != ""
    ensures ReadMarkup(s) == Found(Stray("<")) <==> LooksStray(s)
  {
    var end := TagEndFrom(s, 1, None);
    if s[0] == '<' && end.Some? {
      SkipStops(s, 1, end.value, Spaces);
      var slash := SkipOver(s, 1, |s|, Spaces);
      if slash < |s| && s[slash] == '/' { SkipStops(s, slash + 1, end.value, Spaces); }
      assert NameOf(s[..end.value]).Some? <==> NamesTag(s);
    }
  }

  /** The reader finds strays exactly where they look it, and none in raw text. */
  ghost predicate KnowsStrays(reader: Reader) {
    forall s, stack {:trigger reader(s, stack)} :: s != "" ==> KnowsStray(s, stack, reader(s, stack))
  }

  predicate KnowsStray(s: string, stack: seq<string>, read: Read)
    requires s != ""
  {
    && (read.Found? && read.item.Stray? ==> read.item == Stray("<") && !InRawText(stack))
    && (!InRawText(stack) ==> (read == Found(Stray("<")) <==> LooksStray(s)))
  }

  lemma RawTextHasNoStray(s: string, stack: seq<string>)
    requires s != "" && InRawText(stack)
    ensures KnowsStray(s, stack, ReadItem(s, stack))
  {
    RawTextNamesArePlain(stack[|stack| - 1]);
    RawTextEndsWithItsTag(s, stack[|stack| - 1]);
  }

  lemma MarkupKnowsStray(s: string, stack: seq<string>)
    requires s != "" && !InRawText(stack)
    ensures KnowsStray(s, stack, ReadItem(s, stack))
  {
    StrayMarkup(s);
  }

  lemma ReadItemKnowsStrays()
    ensures KnowsStrays(ReadItem)
  {
    forall s: string, stack | s != "" ensures KnowsStray(s, stack, ReadItem(s, stack)) {
      if InRawText(stack) { RawTextHasNoStray(s, stack); } else { MarkupKnowsStray(s, stack); }
    }
  }

  /** What is left is read as the constructs that were kept exactly when its strays stay. */
  lemma {:induction false} KeptIsRead(reader: Reader, s: string, stack: seq<string>, forwarded: bool, contentId: string)
    requires Sound(reader) && Local(reader) && KnowsStrays(reader) && Scan(reader, s, stack).Items?
    ensures var kept := Kept(Scan(reader, s, stack).items, stack, forwarded, contentId);
            Scan(reader, Join(kept), stack) == Items(kept) <==> StraysStay(kept)
    decreases |s|
  {
    if s != "" {
      var items := Scan(reader, s, stack).items;
      var item := reader(s, stack).item;
      var inner, past := After(item, stack).value, Past(item, stack, forwarded);
      assert items[0] == item && items[1..] == Scan(reader, s[|item.text|..], inner).items;
      KeptIsRead(reader, s[|item.text|..], inner, past, contentId);
      if Drops(item, stack, forwarded, contentId) {
        DroppedIsNeutral(item, stack, forwarded, contentId);
        KeptDrops(items, stack, forwarded, contentId);
      } else {
        KeptKeeps(items, stack, forwarded, contentId);
        OneIsReadAgain(reader, s, stack, Kept(items[1..], inner, past, contentId));
      }
    }
  }

  lemma OneIsReadAgain(reader: Reader, s: string, stack: seq<string>, rest: seq<Item>)
    requires Sound(reader) && Local(reader) && KnowsStrays(reader)
    requires s != "" && reader(s, stack).Found? && After(reader(s, stack).item, stack).Some?
    requires var inner := After(reader(s, stack).item, stack).value;
             Scan(reader, Join(rest), inner) == Items(rest) <==> StraysStay(rest)
    ensures var all := [reader(s, stack).item] + rest;
            Scan(reader, Join(all), stack) == Items(all) <==> StraysStay(all)
  {
    var item := reader(s, stack).item;
    var inner := After(item, stack).value;
    var all, t := [item] + rest, item.text + Join(rest);
    assert all[1..] == rest && Join(all) == t;
    assert t[..|item.text|] == item.text == s[..|item.text|];
    assert t[|item.text|..] == Join(rest);
    if !item.Stray? || LooksStray(t) {
      assert reader(t, stack) == Found(item);
      var again := Scan(reader, Join(rest), inner);
      assert Scan(reader, t, stack) == Then([item], again);
      if again.Items? { assert ([item] + again.items)[1..] == again.items; }
    } else {
      assert reader(t, stack) != Found(item);
      if Scan(reader, t, stack).Items? { FirstIsRead(reader, t, stack); }
    }
  }

  lemma FirstIsRead(reader: Reader, s: string, stack: seq<string>)
    requires Sound(reader) && s != "" && Scan(reader, s, stack).Items?
    ensures Scan(reader, s, stack).items != [] && reader(s, stack) == Found(Scan(reader, s, stack).items[0])
  {
  }

  /** The images of what is left are the others, in order. */
  lemma {:induction false} KeptImages(items: seq<Item>, at: nat, newAt: nat, stack: seq<string>, forwarded: bool,
                                      contentId: string)
    requires WalkItems(items, at, stack, forwarded).Images? && Solid(items)
    ensures var kept := WalkItems(Kept(items, stack, forwarded, contentId), newAt, stack, forwarded);
            && kept.Images?
            && ContentIds(kept.ranges) == Others(ContentIds(WalkItems(items, at, stack, forwarded).ranges), contentId)
    decreases items
  {
    if items != [] {
      var inner, past := StackAfter(items[0], stack), Past(items[0], stack, forwarded);
      var next, image := at + |items[0].text|, ImageAt(items[0], stack, forwarded);
      var rest := WalkItems(items[1..], next, inner, past);
      OneImage(image, at, next, rest, contentId);
      if Drops(items[0], stack, forwarded, contentId) {
        DroppedIsNeutral(items[0], stack, forwarded, contentId);
        KeptDrops(items, stack, forwarded, contentId);
        KeptImages(items[1..], next, newAt, inner, past, contentId);
      } else {
        var newNext := newAt + |items[0].text|;
        KeptKeeps(items, stack, forwarded, contentId);
        KeptImages(items[1..], next, newNext, inner, past, contentId);
        OneImage(image, newAt, newNext,
                 WalkItems(Kept(items[1..], inner, past, contentId), newNext, inner, past), contentId);
      }
    }
  }

  lemma OneImage(image: Image, start: nat, end: nat, rest: Gathered, contentId: string)
    requires rest.Images? && !image.InvalidImage?
    ensures var whole := WithImage(image, start, end, rest);
            && whole.Images?
            && ContentIds(whole.ranges) == (if image.Authored? then [image.contentId] else []) + ContentIds(rest.ranges)
            && Others(ContentIds(whole.ranges), contentId)
               == (if image.Authored? && image.contentId != contentId then [image.contentId] else [])
                  + Others(ContentIds(rest.ranges), contentId)
  {
    if image.Authored? {
      assert ([Range(start, end, image.contentId)] + rest.ranges)[1..] == rest.ranges;
      assert ([image.contentId] + ContentIds(rest.ranges))[1..] == ContentIds(rest.ranges);
    }
  }

  // ---------------------------------------------------------------- the theorem

  /** The strays of what is left still start nothing. */
  ghost predicate LeavesStrays(bodyHtml: string, contentId: string)
    requires ConstructsOf(bodyHtml).Items?
  {
    StraysStay(Kept(ConstructsOf(bodyHtml).items, [], false, Lower(contentId)))
  }

  /** Removing an image by its content id takes exactly its tags out of the body. What is
      left is read as the other constructs exactly when no `<` that started nothing starts
      something now, or finds no `>` any more; it is then accepted, and its images are the
      other ones in the same order. */
  lemma RemovalIsExact(bodyHtml: string, contentId: string)
    requires AuthoredOf(bodyHtml).Images?
    ensures var result := RemovedText(bodyHtml, contentId);
            var kept := Kept(ConstructsOf(bodyHtml).items, [], false, Lower(contentId));
            && result == Join(kept)
            && (ConstructsOf(result) == Items(kept) <==> LeavesStrays(bodyHtml, contentId))
            && (LeavesStrays(bodyHtml, contentId) ==>
                  && AuthoredOf(result).Images?
                  && ContentIds(AuthoredOf(result).ranges)
                     == Others(ContentIds(AuthoredOf(bodyHtml).ranges), Lower(contentId)))
  {
    ReadItemIsSound();
    ReadItemIsLocal();
    ReadItemKnowsStrays();
    var id, items := Lower(contentId), ConstructsOf(bodyHtml).items;
    var result, kept := RemovedText(bodyHtml, contentId), Kept(items, [], false, id);
    AuthoredByItems(bodyHtml);
    RemovedIsKept(bodyHtml, contentId);
    KeptIsRead(ReadItem, bodyHtml, [], false, id);
    KeptIsShorter(items, [], false, id);
    ScanJoins(ReadItem, bodyHtml, []);
    ConstructsAreSolid(bodyHtml);
    if StraysStay(kept) { AuthoredByItems(result); }
    KeptImages(items, 0, 0, [], false, id);
  }

  /** In particular when every `<` outside comments and raw text starts a construct. */
  lemma {:induction false} WithoutStraysNothingChanges(items: seq<Item>, stack: seq<string>, forwarded: bool,
                                                       contentId: string)
    requires NoStray(items)
    ensures StraysStay(Kept(items, stack, forwarded, contentId))
  {
    if items != [] {
      WithoutStraysNothingChanges(items[1..], StackAfter(items[0], stack), Past(items[0], stack, forwarded), contentId);
      if Drops(items[0], stack, forwarded, contentId) {
        KeptDrops(items, stack, forwarded, contentId);
      } else {
        KeptKeeps(items, stack, forwarded, contentId);
      }
    }
  }

  lemma {:induction false} KeptIsShorter(items: seq<Item>, stack: seq<string>, forwarded: bool, contentId: string)
    ensures ByteLength(Join(Kept(items, stack, forwarded, contentId))) <= ByteLength(Join(items))
  {
    if items != [] {
      var inner, past := StackAfter(items[0], stack), Past(items[0], stack, forwarded);
      KeptIsShorter(items[1..], inner, past, contentId);
      ByteLengthAdds(items[0].text, Join(items[1..]));
      if Drops(items[0], stack, forwarded, contentId) {
        KeptDrops(items, stack, forwarded, contentId);
      } else {
        KeptKeeps(items, stack, forwarded, contentId);
        ByteLengthAdds(items[0].text, Join(Kept(items[1..], inner, past, contentId)));
      }
    }
  }

  /** The images of a body are those of its constructs. */
  lemma AuthoredByItems(html: string)
    requires ByteLength(html) <= INLINE_IMAGE_HTML_MAX_BYTES && ConstructsOf(html).Items?
    ensures AuthoredOf(html) == WalkItems(ConstructsOf(html).items, 0, [], false)
  {
    ProjectedTagsFit(html);
    var tags := TagsOf(ConstructsOf(html).items, 0, []);
    ConstructsAreSolid(html);
    ForwardedStartIsFirst(tags);
    WalkIsGather(tags, ForwardedStart(tags), false, |html|);
    WalkOfItems(ConstructsOf(html).items, 0, [], false);
  }

  lemma RemovedIsKept(html: string, contentId: string)
    requires AuthoredOf(html).Images?
    ensures RemovedText(html, contentId) == Join(Kept(ConstructsOf(html).items, [], false, Lower(contentId)))
  {
    ReadItemIsSound();
    var id, items := Lower(contentId), ConstructsOf(html).items;
    ScanJoins(ReadItem, html, []);
    ConstructsAreSolid(html);
    AuthoredByItems(html);
    AuthoredRangesFit(html);
    var ranges := Matching(AuthoredOf(html).ranges, id);
    MatchingFits(AuthoredOf(html).ranges, id, 0, |html|);
    assert html[0..] == html && ranges[0..] == ranges;
    CutIsKept(html, items, 0, [], false, id, ranges, 0);
  }

  lemma {:induction false} OthersLackIt(ids: seq<string>, contentId: string)
    ensures contentId !in Others(ids, contentId)
    ensures forall id :: id in Others(ids, contentId) <==> id in ids && id != contentId
  {
    if ids != [] { OthersLackIt(ids[1..], contentId); }
  }

  lemma {:induction false} NothingMatches(ranges: seq<Range>, contentId: string)
    requires contentId !in ContentIds(ranges)
    ensures Matching(ranges, contentId) == []
  {
    if ranges != [] {
      assert ContentIds(ranges)[0] == ranges[0].contentId;
      assert ContentIds(ranges)[1..] == ContentIds(ranges[1..]);
      NothingMatches(ranges[1..], contentId);
    }
  }

  /** Removing an image twice is removing it once. */
  lemma RemovalIsIdempotent(bodyHtml: string, contentId: string)
    requires AuthoredOf(bodyHtml).Images? && LeavesStrays(bodyHtml, contentId)
    ensures var result := RemovedText(bodyHtml, contentId);
            && RemovedText(result, contentId) == result
            && AuthoredOf(result).Images? && Lower(contentId) !in ContentIds(AuthoredOf(result).ranges)
  {
    var result := RemovedText(bodyHtml, contentId);
    RemovalIsExact(bodyHtml, contentId);
    OthersLackIt(ContentIds(AuthoredOf(bodyHtml).ranges), Lower(contentId));
    NothingMatches(AuthoredOf(result).ranges, Lower(contentId));
    AuthoredRangesFit(result);
    assert result[0..] == result;
  }
}
