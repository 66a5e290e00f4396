/** A body on which removal is not exact: a `<` that starts nothing becomes a tag once the
    image behind it is gone. */
module InlineImageStray {
  import opened Wrappers
  import opened Characters
  import opened HtmlText
  import opened HtmlTags
  import opened HtmlProjection
  import opened InlineImages
  import opened InlineImageRemoval

  const IMG := "<img src=\"cid:a@b\">"
  const STRAY := "< <img src=\"cid:a@b\">b>"
  const LEFT := "< b>"

  function ImgStart(): Start { Start("img", map["src" := Some("cid:a@b")], false) }

  lemma ImgName()
    ensures NameOf(IMG) == Some(TagName(false, "img", 4))
  {
    assert SkipOver(IMG, 1, 19, Spaces) == 1;
    assert SkipOver(IMG, 2, 19, NameTail) == 4;
    assert IMG[1..4] == "img";
    assert Lower("img") == "img";
  }

  lemma ImgSource()
    ensures PartAt(IMG, 4) == Attribute("src", Some("cid:a@b"), 18)
  {
    assert SkipOver(IMG, 4, 19, Spaces) == 5;
    assert SkipOver(IMG, 5, 18, AttributeName) == 8;
    assert SkipOver(IMG, 8, 19, Spaces) == 8;
    assert IMG[5..8] == "src" && Lower("src") == "src";
    ImgValue();
  }

  lemma ImgValue()
    ensures ValueAt(IMG, 8) == Value(Some("cid:a@b"), 18)
  {
    assert SkipOver(IMG, 9, 19, Spaces) == 9;
    assert SkipOver(IMG, 14, 18, Until('"')) == 17;
    assert SkipOver(IMG, 10, 18, Until('"')) == 17;
    assert IMG[10..17] == "cid:a@b";
    SourceDecodes();
  }

  lemma {:induction false} NothingToDecode(s: string, i: nat)
    requires i <= |s| && forall k :: i <= k < |s| ==> s[k] != '&'
    ensures DecodeFrom(s, i) == s[i..]
    decreases |s| - i
  {
    if i < |s| { NothingToDecode(s, i + 1); }
  }

  lemma SourceDecodes()
    ensures DecodeAttributeEntities("cid:a@b") == "cid:a@b"
  {
    var source := "cid:a@b";
    NothingToDecode(source, 0);
    assert source[0..] == source;
  }

  lemma ImgIsRead()
    ensures ReadTag(IMG) == Found(Open(IMG, 0, ImgStart()))
  {
    ImgName();
    ImgSource();
    assert AttributesFrom(IMG, 18, map["src" := Some("cid:a@b")]) == Attributes(map["src" := Some("cid:a@b")], false);
    assert map[]["src" := Some("cid:a@b")] == map["src" := Some("cid:a@b")];
  }

  lemma SourceLowers()
    ensures Lower("cid:a@b") == "cid:a@b" && Lower("a@b") == "a@b" && "cid:a@b"[4..] == "a@b"
  {
  }

  lemma AtomIsCanonical()
    ensures IsCanonicalContentId("a@b")
  {
    assert IndexOf("a@b", "@", 1) == Some(1);
    assert "a@b"[..1] == "a" && "a@b"[2..] == "b";
  }

  lemma SourceNamesContent()
    ensures ContentIdFromSource(Some("cid:a@b")) == Some("a@b")
  {
    SourceLowers();
    AtomIsCanonical();
  }

  lemma ImgIsNotForwarded(tag: Tag)
    requires tag.name == "img"
    ensures !MarksForwarded(tag)
  {
    assert |"img"| == 3 && "img"[0] != "div"[0];
  }

  lemma HasNoMarker(attributes: AttributeMap)
    requires attributes == map["src" := Some("cid:a@b")]
    ensures MANAGED_INLINE_IMAGE_ATTRIBUTE !in attributes && attributes["src"] == Some("cid:a@b")
  {
    assert |MANAGED_INLINE_IMAGE_ATTRIBUTE| != |"src"|;
  }

  lemma ImgIsAuthored(tag: Tag)
    requires tag.name == "img" && tag.attributes == map["src" := Some("cid:a@b")]
    ensures ImageOf(tag) == Authored("a@b")
  {
    HasNoMarker(tag.attributes);
    SourceNamesContent();
    assert AttributeOf(tag, "src") == Some("cid:a@b");
    assert HasCidScheme(Some("cid:a@b"));
  }

  lemma {:induction false} QuotedRun(s: string, i: nat, j: nat, quote: char)
    requires i <= j <= |s| && forall k :: i <= k < j ==> s[k] != quote
    ensures TagEndFrom(s, i, Some(quote)) == TagEndFrom(s, j, Some(quote))
    decreases j - i
  {
    if i < j { QuotedRun(s, i + 1, j, quote); }
  }

  /** A tag with one quoted value, between `i` and `j`, ends at the first `>` after it. */
  lemma OneValueEnds(s: string, i: nat, open: nat, close: nat, end: nat)
    requires i <= open < close < end < |s| && s[open] == '"' && s[close] == '"' && s[end] == '>'
    requires forall k :: i <= k < open || close < k < end ==> !IsQuote(s[k]) && s[k] != '>'
    requires forall k :: open < k < close ==> s[k] != '"'
    ensures TagEndFrom(s, i, None) == Some(end + 1)
  {
    PlainRun(s, i, open);
    QuotedRun(s, open + 1, close, '"');
    PlainRun(s, close + 1, end);
  }

  lemma StrayAtStart()
    ensures ReadMarkup(STRAY) == Found(Stray("<"))
  {
    var s := STRAY;
    OneValueEnds(s, 1, 11, 19, 20);
    OpensComment(s);
    SpacedNamesNothing(s);
    StrayMarkup(s);
  }

  lemma SpacedNamesNothing(s: string)
    requires |s| > 2 && s[1] == ' ' && s[2] == '<'
    ensures !NamesTag(s)
  {
    assert SkipOver(s, 2, |s|, Spaces) == 2;
    assert SkipOver(s, 1, |s|, Spaces) == 2;
  }

  lemma ImageNext(rest: string)
    requires rest == IMG + "b>"
    ensures ReadMarkup(rest) == Found(Open(IMG, 0, ImgStart()))
  {
    OneValueEnds(rest, 1, 9, 17, 18);
    OpensComment(rest);
    assert rest[..19] == IMG;
    ImgIsRead();
  }

  lemma LeftIsTag()
    ensures ReadMarkup(LEFT) == Found(Open(LEFT, 0, Start("b", map[], true)))
  {
    PlainRun(LEFT, 1, 3);
    OpensComment(LEFT);
    assert LEFT[..4] == LEFT;
    assert SkipOver(LEFT, 1, 4, Spaces) == 2 && SkipOver(LEFT, 3, 4, NameTail) == 3;
    assert LEFT[2..3] == "b" && Lower("b") == "b";
  }

  lemma ScanCons(s: string, item: Item)
    requires s != "" && Sound(ReadItem) && ReadMarkup(s) == Found(item) && After(item, []) == Some([])
    ensures Scan(ReadItem, s, []) == Then([item], Scan(ReadItem, s[|item.text|..], []))
  {
    assert ReadItem(s, []) == Found(item);
  }

  lemma ScanCharacter(c: char, rest: string)
    requires c != '<' && Sound(ReadItem)
    ensures Scan(ReadItem, [c] + rest, []) == Then([Character([c])], Scan(ReadItem, rest, []))
  {
    assert ([c] + rest)[1..] == rest;
    ScanCons([c] + rest, Character([c]));
  }

  function Tail(): seq<Item> { [Character("b"), Character(">")] }

  function ImgItem(): Item { Open(IMG, 0, ImgStart()) }

  function StrayItems(): seq<Item> { [Stray("<")] + ([Character(" ")] + ([ImgItem()] + Tail())) }

  lemma TailConstructs()
    requires Sound(ReadItem)
    ensures Scan(ReadItem, "b>", []) == Items(Tail())
  {
    assert "b>" == ['b'] + ">" && ">" == ['>'] + "";
    ScanCharacter('b', ">");
    ScanCharacter('>', "");
    assert Scan(ReadItem, "", []) == Items([]);
    assert [Character(">")] + [] == [Character(">")];
    assert [Character("b")] + [Character(">")] == Tail();
  }

  lemma ImageConstructs(rest: string)
    requires Sound(ReadItem) && rest == IMG + "b>"
    ensures Scan(ReadItem, rest, []) == Items([ImgItem()] + Tail())
  {
    ImageNext(rest);
    ScanCons(rest, ImgItem());
    assert rest[|IMG|..] == "b>";
    TailConstructs();
  }

  lemma StrayConstructs()
    requires Sound(ReadItem)
    ensures Scan(ReadItem, STRAY, []) == Items(StrayItems())
  {
    var rest := IMG + "b>";
    StrayParts(STRAY, rest);
    StrayAtStart();
    ScanCons(STRAY, Stray("<"));
    ScanCharacter(' ', rest);
    ImageConstructs(rest);
  }

  lemma StrayParts(s: string, rest: string)
    requires s == STRAY && rest == IMG + "b>"
    ensures s[1..] == [' '] + rest
  {
  }

  lemma LeftIsRejected()
    requires Sound(ReadItem)
    ensures Scan(ReadItem, LEFT, []) == Bad(HtmlMalformed)
  {
    LeftIsTag();
    var item := Open(LEFT, 0, Start("b", map[], true));
    assert ReadItem(LEFT, []) == Found(item) && LEFT[|LEFT|..] == "";
    assert After(item, []) == Some([] + ["b"]);
  }

  /** A construct that is no tag stays and is no image. */
  lemma PlainStays(item: Item, rest: seq<Item>, at: nat)
    requires item.Character? || item.Stray?
    ensures WalkItems([item] + rest, at, [], false) == WalkItems(rest, at + |item.text|, [], false)
    ensures Kept([item] + rest, [], false, "a@b") == [item] + Kept(rest, [], false, "a@b")
  {
    assert ([item] + rest)[1..] == rest;
  }

  lemma TailIsPlain(at: nat)
    ensures WalkItems(Tail(), at, [], false) == Images([]) && Kept(Tail(), [], false, "a@b") == Tail()
    ensures Join(Tail()) == "b>"
  {
    assert Tail() == [Character("b")] + ([Character(">")] + []);
    PlainStays(Character("b"), [Character(">")] + [], at);
    PlainStays(Character(">"), [], at + 1);
    assert Tail()[1..] == [Character(">")] && [Character(">")][1..] == [];
  }

  lemma ImageGoes(at: nat)
    ensures WalkItems([ImgItem()] + Tail(), at, [], false) == Images([Range(at, at + 19, "a@b")])
    ensures Kept([ImgItem()] + Tail(), [], false, "a@b") == Tail()
  {
    ImgIsAuthored(Alone(ImgItem(), []));
    ImgIsNotForwarded(Alone(ImgItem(), []));
    assert ([ImgItem()] + Tail())[1..] == Tail();
    TailIsPlain(at + 19);
    assert [Range(at, at + 19, "a@b")] + [] == [Range(at, at + 19, "a@b")];
  }

  lemma TwoPlainStay(rest: seq<Item>)
    ensures var whole := [Stray("<")] + ([Character(" ")] + rest);
            && WalkItems(whole, 0, [], false) == WalkItems(rest, 2, [], false)
            && Kept(whole, [], false, "a@b") == [Stray("<")] + ([Character(" ")] + Kept(rest, [], false, "a@b"))
  {
    PlainStays(Stray("<"), [Character(" ")] + rest, 0);
    PlainStays(Character(" "), rest, 1);
  }

  lemma StrayImages()
    ensures WalkItems(StrayItems(), 0, [], false) == Images([Range(2, 21, "a@b")])
    ensures Kept(StrayItems(), [], false, "a@b") == [Stray("<")] + ([Character(" ")] + Tail())
  {
    TwoPlainStay([ImgItem()] + Tail());
    ImageGoes(2);
  }

  lemma LeftOver()
    ensures Join([Stray("<")] + ([Character(" ")] + Tail())) == LEFT
  {
    TailIsPlain(0);
    assert ([Character(" ")] + Tail())[1..] == Tail();
    assert ([Stray("<")] + ([Character(" ")] + Tail()))[1..] == [Character(" ")] + Tail();
  }

  lemma StrayIsAuthored()
    ensures AuthoredOf(STRAY) == Images([Range(2, 21, "a@b")])
    ensures RemovedText(STRAY, "a@b") == LEFT
  {
    ReadItemIsSound();
    StrayConstructs();
    StrayImages();
    BytesAtMostFour(STRAY);
    AuthoredByItems(STRAY);
    SourceLowers();
    RemovedIsKept(STRAY, "a@b");
    LeftOver();
  }

  /** `< <img src="cid:a@b">b>` is accepted and has one image; without it the first `<`
      starts the tag `< b>`, which nothing closes. */
  lemma RemovalMayBreakTheBody()
    ensures AuthoredOf(STRAY) == Images([Range(2, 21, "a@b")])
    ensures RemovedText(STRAY, "a@b") == LEFT
    ensures AuthoredOf(LEFT) == Failed(HtmlMalformed)
  {
    StrayIsAuthored();
    LeftIsRefused();
  }

  lemma LeftIsRefused()
    ensures AuthoredOf(LEFT) == Failed(HtmlMalformed)
  {
    ReadItemIsSound();
    LeftIsRejected();
    BytesAtMostFour(LEFT);
  }
}
