/** One tag: its name, its attributes, and how the scanner reads the construct that a text
    starts with. */
module HtmlTags {
  import opened Wrappers
  import opened Characters
  import opened HtmlText

  datatype ErrorCode =
    | HtmlTooLarge | HtmlMalformed | HtmlDuplicateAttribute | InvalidSource
    | DuplicateBodyCid | DuplicateAttachmentCid | MissingAttachment | NotReady | NotInline | NotImage

  const MANAGED_INLINE_IMAGE_ATTRIBUTE := "data-mail-inline-image"
  const MANAGED_INLINE_IMAGE_VERSION := "v1"
  const FORWARDED_MESSAGE_ATTRIBUTE := "data-mail-forwarded-message"

  predicate IsRelevant(attribute: string) {
    attribute in {"src", MANAGED_INLINE_IMAGE_ATTRIBUTE, FORWARDED_MESSAGE_ATTRIBUTE}
  }

  const VOID_ELEMENTS: set<string> :=
    {"area", "base", "br", "col", "embed", "hr", "img", "input", "link", "meta", "param", "source", "track", "wbr"}
  const RAW_TEXT_ELEMENTS: set<string> := {"script", "style"}

  // ---------------------------------------------------------------- entities

  function DigitOf(c: char): nat {
    if IsDigit(c) then c as nat - '0' as nat
    else if In(c, HexDigits) then LowerChar(c) as nat - 'a' as nat + 10
    else 0
  }

  function Number(digits: string, base: nat): nat {
    if digits == "" then 0 else base * Number(digits[..|digits| - 1], base) + DigitOf(digits[|digits| - 1])
  }

  /** Code points past the last one, and surrogates, become U+FFFD. */
  function FromCodePoint(n: nat): char {
    if n < 0xD800 || 0xE000 <= n <= 0x10FFFF then n as char else '\U{FFFD}'
  }

  const NAMED_ENTITIES: seq<(string, char)> :=
    [("amp", '&'), ("quot", '"'), ("apos", '\''), ("lt", '<'), ("gt", '>'), ("colon", ':')]

  function NamedEntity(s: string, i: nat, entities: seq<(string, char)>): (r: Option<(char, nat)>)
    ensures r.Some? ==> i < r.value.1 <= |s|
  {
    if entities == [] then None
    else
      var (name, character) := entities[0];
      if i + |name| < |s| && LowerEach(s[i..i + |name|]) == name && s[i + |name|] == ';'
      then Some((character, i + |name| + 1)) else NamedEntity(s, i, entities[1..])
  }

  function NumericEntity(s: string, from: nat, class_: Class): Option<(char, nat)>
    requires from <= |s| && (class_.Digits? || class_.HexDigits?)
  {
    var end := SkipOver(s, from, |s|, class_);
    if from < end < |s| && s[end] == ';'
    then Some((FromCodePoint(Number(s[from..end], if class_.Digits? then 10 else 16)), end + 1)) else None
  }

  /** The character reference that starts at the ampersand at `i`, and where it ends. */
  function EntityAt(s: string, i: nat): (r: Option<(char, nat)>)
    requires i < |s| && s[i] == '&'
    ensures r.Some? ==> i < r.value.1 <= |s|
  {
    if i + 1 < |s| && s[i + 1] == '#' then
      if i + 2 < |s| && LowerChar(s[i + 2]) == 'x' then NumericEntity(s, i + 3, HexDigits)
      else NumericEntity(s, i + 2, Digits)
    else NamedEntity(s, i + 1, NAMED_ENTITIES)
  }

  function DecodeAttributeEntities(s: string): string { DecodeFrom(s, 0) }

  function DecodeFrom(s: string, i: nat): string
    requires i <= |s|
    decreases |s| - i
  {
    if i == |s| then ""
    else if s[i] == '&' && EntityAt(s, i).Some? then
      [EntityAt(s, i).value.0] + DecodeFrom(s, EntityAt(s, i).value.1)
    else [s[i]] + DecodeFrom(s, i + 1)
  }

  // ---------------------------------------------------------------- attributes

  type AttributeMap = map<string, Option<string>>

  datatype ParsedAttributes =
    | Attributes(attributes: AttributeMap, selfClosing: bool)
    | Refused(code: ErrorCode)

  datatype ParsedValue = Value(value: Option<string>, next: nat) | NoValue

  /** What follows an attribute name: nothing, a quoted value, or an unquoted one. */
  function ValueAt(tag: string, at: nat): (r: ParsedValue)
    requires at < |tag| && tag[|tag| - 1] == '>'
    ensures r.Value? ==> at <= r.next < |tag|
  {
    if tag[at] != '=' then Value(None, at)
    else
      var open := SkipOver(tag, at + 1, |tag|, Spaces);
      if IsQuote(tag[open]) then
        var close := SkipOver(tag, open + 1, |tag| - 1, Until(tag[open]));
        if tag[close] != tag[open] then NoValue
        else Value(Some(DecodeAttributeEntities(tag[open + 1..close])), close + 1)
      else
        var end := SkipOver(tag, open, |tag| - 1, Unquoted);
        if end == open || HasForbidden(tag[open..end]) then NoValue
        else Value(Some(DecodeAttributeEntities(tag[open..end])), end)
  }

  predicate HasForbidden(value: string) {
    '"' in value || '\'' in value || '<' in value || '=' in value || '`' in value
  }

  /** What is found next in a tag: its end, an attribute, or neither. */
  datatype Part = End(selfClosing: bool) | Attribute(name: string, value: Option<string>, next: nat) | Broken

  function PartAt(tag: string, index: nat): (r: Part)
    requires index < |tag| && tag[|tag| - 1] == '>'
    ensures r.Attribute? ==> index < r.next < |tag|
  {
    var start := SkipOver(tag, index, |tag|, Spaces);
    if tag[start] == '>' then End(false)
    else if tag[start] == '/' && tag[start + 1] == '>' then End(true)
    else
      var nameEnd := SkipOver(tag, start, |tag| - 1, AttributeName);
      if nameEnd == start then Broken
      else Named(Lower(tag[start..nameEnd]), ValueAt(tag, SkipOver(tag, nameEnd, |tag|, Spaces)))
  }

  function Named(name: string, value: ParsedValue): Part {
    if value.NoValue? then Broken else Attribute(name, value.value, value.next)
  }

  /** The attributes of `tag` from `index` on, added to those already found. The first
      occurrence of a name wins; a relevant name must not occur twice. */
  function AttributesFrom(tag: string, index: nat, found: AttributeMap): ParsedAttributes
    requires index < |tag| && tag[|tag| - 1] == '>'
    decreases |tag| - index
  {
    if index == |tag| - 1 then Attributes(found, false)
    else
      match PartAt(tag, index)
      case End(selfClosing) => Attributes(found, selfClosing)
      case Broken => Refused(HtmlMalformed)
      case Attribute(name, value, next) =>
        if IsRelevant(name) && name in found then Refused(HtmlDuplicateAttribute)
        else AttributesFrom(tag, next, if name in found then found else found[name := value])
  }

  method ParseValue(tag: string, at: nat) returns (parsed: ParsedValue)
    requires at < |tag| && tag[|tag| - 1] == '>'
    ensures parsed == ValueAt(tag, at)
  {
    if tag[at] != '=' { return Value(None, at); }
    var index := Skip(tag, at + 1, |tag|, Spaces);
    var quote := tag[index];
    if IsQuote(quote) {
      var valueStart := index + 1;
      index := Skip(tag, valueStart, |tag| - 1, Until(quote));
      if tag[index] != quote { return NoValue; }
      return Value(Some(DecodeAttributeEntities(tag[valueStart..index])), index + 1);
    }
    var valueStart := index;
    index := Skip(tag, valueStart, |tag| - 1, Unquoted);
    if valueStart == index || HasForbidden(tag[valueStart..index]) { return NoValue; }
    return Value(Some(DecodeAttributeEntities(tag[valueStart..index])), index);
  }

  method ParsePart(tag: string, index: nat) returns (part: Part)
    requires index < |tag| && tag[|tag| - 1] == '>'
    ensures part == PartAt(tag, index)
  {
    var attributeStart := Skip(tag, index, |tag|, Spaces);
    if tag[attributeStart] == '>' { return End(false); }
    if tag[attributeStart] == '/' && tag[attributeStart + 1] == '>' { return End(true); }
    var attributeEnd := Skip(tag, attributeStart, |tag| - 1, AttributeName);
    if attributeStart == attributeEnd { return Broken; }
    var valueAt := Skip(tag, attributeEnd, |tag|, Spaces);
    var value := ParseValue(tag, valueAt);
    return Named(Lower(tag[attributeStart..attributeEnd]), value);
  }

  method ParseAttributes(tag: string, nameEnd: nat) returns (parsed: ParsedAttributes)
    requires nameEnd < |tag| && tag[|tag| - 1] == '>'
    ensures parsed == AttributesFrom(tag, nameEnd, map[])
  {
    var attributes: AttributeMap := map[];
    var seenRelevant: set<string> := {};
    var index := nameEnd;
    while index < |tag| - 1
      invariant index < |tag|
      invariant forall name :: name in seenRelevant <==> name in attributes && IsRelevant(name)
      invariant AttributesFrom(tag, nameEnd, map[]) == AttributesFrom(tag, index, attributes)
    {
      var part := ParsePart(tag, index);
      match part {
        case End(selfClosing) => return Attributes(attributes, selfClosing);
        case Broken => return Refused(HtmlMalformed);
        case Attribute(name, value, next) =>
          if IsRelevant(name) {
            if name in seenRelevant { return Refused(HtmlDuplicateAttribute); }
            seenRelevant := seenRelevant + {name};
          }
          if name !in attributes { attributes := attributes[name := value]; }
          index := next;
      }
    }
    return Attributes(attributes, false);
  }

  // ---------------------------------------------------------------- names

  /** A tag's name, and whether a slash precedes it. */
  datatype TagName = TagName(closing: bool, name: string, end: nat)

  function NameOf(tag: string): (r: Option<TagName>)
    requires tag != ""
    ensures r.Some? ==> r.value.end <= |tag| && (|tag| > 1 && tag[|tag| - 1] == '>' ==> r.value.end < |tag|)
  {
    var slash := SkipOver(tag, 1, |tag|, Spaces);
    var closing := slash < |tag| && tag[slash] == '/';
    var start := if closing then SkipOver(tag, slash + 1, |tag|, Spaces) else slash;
    if start < |tag| && IsLetter(tag[start]) then
      var end := SkipOver(tag, start + 1, |tag|, NameTail);
      Some(TagName(closing, Lower(tag[start..end]), end))
    else None
  }

  // ---------------------------------------------------------------- constructs

  /** A start tag. One that is neither self-closing nor of a void element opens an element. */
  datatype Start = Start(name: string, attributes: AttributeMap, opens: bool)

  predicate Opens(name: string, selfClosing: bool) { !selfClosing && name !in VOID_ELEMENTS }

  /** A construct of the text. What is read in raw text includes the text in front of it; `lead`
      is how much of that stands in front of a start tag. `Stray` is a `<` that starts nothing. */
  datatype Item =
    | Character(text: string)
    | Stray(text: string)
    | Comment(text: string)
    | Declaration(text: string)
    | Open(text: string, lead: nat, start: Start)
    | Close(text: string, name: string)

  predicate ImageIsVoid(item: Item) { item.Open? && item.start.name == "img" ==> !item.start.opens }

  /** A start tag with nothing in front of it. */
  predicate IsDirect(item: Item) { item.Open? ==> item.lead == 0 }

  predicate Leads(item: Item) { item.Open? ==> item.lead < |item.text| }

  /** The construct with the text in front of it. */
  function Behind(prefix: string, item: Item): Item {
    match item
    case Character(text) => Character(prefix + text)
    case Stray(text) => Stray(prefix + text)
    case Comment(text) => Comment(prefix + text)
    case Declaration(text) => Declaration(prefix + text)
    case Open(text, lead, start) => Open(prefix + text, |prefix| + lead, start)
    case Close(text, name) => Close(prefix + text, name)
  }

  datatype Read = Found(item: Item) | Unreadable(code: ErrorCode)

  function ReadTag(tag: string): (r: Read)
    requires |tag| > 1 && tag[0] == '<' && tag[|tag| - 1] == '>'
    ensures r.Found? && !r.item.Stray? ==> r.item.text == tag && (r.item.Open? || r.item.Close?)
    ensures r.Found? && r.item.Stray? ==> r.item.text == "<"
    ensures r.Found? ==> ImageIsVoid(r.item) && IsDirect(r.item)
  {
    match NameOf(tag)
    case None => Found(Stray("<"))
    case Some(TagName(true, name, end)) =>
      if SkipOver(tag, end, |tag|, Spaces) == |tag| - 1 then Found(Close(tag, name)) else Unreadable(HtmlMalformed)
    case Some(TagName(false, name, end)) =>
      match AttributesFrom(tag, end, map[]) {
        case Refused(code) => Unreadable(code)
        case Attributes(attributes, selfClosing) =>
          Found(Open(tag, 0, Start(name, attributes, Opens(name, selfClosing))))
      }
  }

  predicate IsDeclaration(s: string) {
    |s| > 1 && (s[1] == '?' || (|s| > 2 && s[1] == '!' && IsLetter(s[2])))
  }

  /** The construct a text starts with, outside raw text. */
  function ReadMarkup(s: string): (r: Read)
    requires s != ""
    ensures r.Found? ==> 0 < |r.item.text| <= |s| && r.item.text == s[..|r.item.text|]
    ensures r.Found? ==> ImageIsVoid(r.item) && IsDirect(r.item)
  {
    if s[0] != '<' then Found(Character([s[0]]))
    else if StartsAt(s, "<!--", 0) then
      match IndexOf(s, "-->", 4) {
        case None => Unreadable(HtmlMalformed)
        case Some(k) => Found(Comment(s[..k + 3]))
      }
    else
      match TagEndFrom(s, 1, None) {
        case None => Unreadable(HtmlMalformed)
        case Some(end) => if IsDeclaration(s) then Found(Declaration(s[..end])) else ReadTag(s[..end])
      }
  }

  predicate InRawText(stack: seq<string>) { stack != [] && stack[|stack| - 1] in RAW_TEXT_ELEMENTS }

  /** The construct a text starts with inside the elements of `stack`. */
  function ReadItem(s: string, stack: seq<string>): (r: Read)
    ensures r.Found? ==> 0 < |r.item.text| <= |s| && r.item.text == s[..|r.item.text|]
    ensures r.Found? ==> ImageIsVoid(r.item) && Leads(r.item)
  {
    if s == "" then Unreadable(HtmlMalformed)
    else if InRawText(stack) then ReadRawText(s, stack[|stack| - 1]) else ReadMarkup(s)
  }

  /** The rest of a raw text with the tag that ends it. */
  function ReadRawText(s: string, element: string): (r: Read)
    requires s != ""
    ensures r.Found? ==> 0 < |r.item.text| <= |s| && r.item.text == s[..|r.item.text|]
    ensures r.Found? ==> ImageIsVoid(r.item) && Leads(r.item)
  {
    match FirstClose(LowerEach(s), element, 0)
    case None => Unreadable(HtmlMalformed)
    case Some(k) => ReadAfter(s, k)
  }

  /** The construct at `k` with the text before it. */
  function ReadAfter(s: string, k: nat): (r: Read)
    requires k < |s|
    ensures r.Found? ==> 0 < |r.item.text| <= |s| && r.item.text == s[..|r.item.text|]
    ensures r.Found? ==> ImageIsVoid(r.item) && Leads(r.item)
  {
    match ReadMarkup(s[k..])
    case Unreadable(code) => Unreadable(code)
    case Found(item) =>
      PrefixGrows(s, k, |item.text|);
      Found(Behind(s[..k], item))
  }

  lemma PrefixGrows(s: string, k: nat, n: nat)
    requires k <= |s| && n <= |s[k..]|
    ensures s[..k] + s[k..][..n] == s[..k + n]
  {
  }

  /** What the names of the raw-text elements have in common. */
  predicate PlainName(element: string) {
    element != "" && 'a' <= element[0] <= 'z' && '<' !in element && '>' !in element
  }

  lemma RawTextNamesArePlain(element: string)
    requires element in RAW_TEXT_ELEMENTS
    ensures PlainName(element)
  {
  }

  lemma OpensComment(s: string)
    ensures StartsAt(s, "<!--", 0) <==> |s| >= 4 && s[0] == '<' && s[1] == '!' && s[2] == '-' && s[3] == '-'
  {
    if |s| >= 4 {
      assert s[0..4] == [s[0], s[1], s[2], s[3]];
    }
  }

  /** A tag that starts with a slash and a letter is a closing tag or no tag at all. */
  lemma SlashedTagCloses(tag: string)
    requires |tag| > 3 && tag[0] == '<' && tag[1] == '/' && IsLetter(tag[2]) && tag[|tag| - 1] == '>'
    ensures ReadTag(tag).Found? ==> ReadTag(tag).item.Close?
  {
    assert SkipOver(tag, 1, |tag|, Spaces) == 1;
    assert SkipOver(tag, 2, |tag|, Spaces) == 2;
    assert NameOf(tag).Some? && NameOf(tag).value.closing;
  }

  /** The text starts with the closing tag of `element`, up to its name. */
  predicate BeginsClosing(s: string, element: string)
    requires PlainName(element)
  {
    && |s| > 2 + |element| && s[0] == '<' && s[1] == '/' && IsLetter(s[2])
    && '>' !in s[..2 + |element|]
  }

  lemma ClosingPrefix(s: string, element: string, k: nat)
    requires PlainName(element) && ClosesAt(LowerEach(s), element, k)
    ensures BeginsClosing(s[k..], element)
  {
    var prefix := "</" + element;
    assert prefix[0] == '<' && prefix[1] == '/' && prefix[2] == element[0];
    assert '>' !in prefix;
    forall i | 0 <= i < |prefix| ensures LowerChar(s[k..][i]) == prefix[i] {
      assert LowerEach(s)[k..k + |prefix|][i] == LowerEach(s)[k + i];
    }
  }

  lemma ClosingMarkup(s: string, element: string)
    requires PlainName(element) && BeginsClosing(s, element)
    ensures ReadMarkup(s).Found? ==> ReadMarkup(s).item.Close? && |ReadMarkup(s).item.text| > 2 + |element|
  {
    OpensComment(s);
    var end := TagEndFrom(s, 1, None);
    if end.Some? {
      forall i | 0 <= i < 2 + |element| ensures s[i] != '>' {
        assert s[i] == s[..2 + |element|][i];
      }
      SlashedTagCloses(s[..end.value]);
    }
  }

  lemma ClosingTagIsRead(s: string, element: string, k: nat)
    requires PlainName(element) && ClosesAt(LowerEach(s), element, k)
    ensures var r := ReadAfter(s, k);
            r.Found? ==> r.item.Close? && |r.item.text| > k + 2 + |element|
  {
    ClosingPrefix(s, element, k);
    ClosingMarkup(s[k..], element);
  }

  /** In raw text nothing but a closing tag is found. */
  lemma RawTextEndsWithItsTag(s: string, element: string)
    requires s != "" && PlainName(element)
    ensures ReadRawText(s, element).Found? ==> ReadRawText(s, element).item.Close?
  {
    var close := FirstClose(LowerEach(s), element, 0);
    if close.Some? {
      ClosingTagIsRead(s, element, close.value);
    }
  }

  // ---------------------------------------------------------------- locality

  /** What is read depends only on the characters that make it up, unless it is a stray `<`. */
  lemma MarkupIsLocal(s: string, t: string)
    requires s != "" && ReadMarkup(s).Found? && !ReadMarkup(s).item.Stray?
    requires var n := |ReadMarkup(s).item.text|; n <= |t| && s[..n] == t[..n]
    ensures ReadMarkup(t) == ReadMarkup(s)
  {
    var n := |ReadMarkup(s).item.text|;
    forall i | 0 <= i < n ensures s[i] == t[i] {
      assert s[..n][i] == t[..n][i];
    }
    if s[0] == '<' {
      if StartsAt(s, "<!--", 0) {
        CommentIsLocal(s, t);
      } else {
        TagIsLocal(s, t);
      }
    }
  }

  lemma CommentIsLocal(s: string, t: string)
    requires StartsAt(s, "<!--", 0) && IndexOf(s, "-->", 4).Some?
    requires var n := IndexOf(s, "-->", 4).value + 3; n <= |t| && s[..n] == t[..n]
    ensures StartsAt(t, "<!--", 0) && IndexOf(t, "-->", 4) == IndexOf(s, "-->", 4)
    ensures ReadMarkup(t) == ReadMarkup(s)
  {
    var k := IndexOf(s, "-->", 4).value;
    var n := k + 3;
    forall a, b | 0 <= a <= b <= n ensures s[a..b] == t[a..b] {
      assert s[a..b] == s[..n][a..b];
      assert t[a..b] == t[..n][a..b];
    }
    IndexOfIsLeast(t, "-->", 4, k);
    IndexOfIsLeast(s, "-->", 4, IndexOf(t, "-->", 4).value);
    assert t[0] == t[0..4][0];
    assert s[0] == s[0..4][0];
  }

  lemma TagIsLocal(s: string, t: string)
    requires s != "" && s[0] == '<' && !StartsAt(s, "<!--", 0)
    requires ReadMarkup(s).Found? && !ReadMarkup(s).item.Stray?
    requires var n := |ReadMarkup(s).item.text|; n <= |t| && s[..n] == t[..n]
    ensures ReadMarkup(t) == ReadMarkup(s)
  {
    var n := |ReadMarkup(s).item.text|;
    forall i | 0 <= i < n ensures s[i] == t[i] {
      assert s[..n][i] == t[..n][i];
    }
    assert TagEndFrom(s, 1, None) == Some(n);
    assert s[1..n] == s[..n][1..] == t[..n][1..] == t[1..n];
    TagEndIsLocal(s, 1, t, 1, None);
    OpensComment(s);
    OpensComment(t);
    assert IsDeclaration(t) == IsDeclaration(s);
  }

  lemma ItemIsLocal(s: string, t: string, stack: seq<string>)
    requires s != "" && ReadItem(s, stack).Found? && !ReadItem(s, stack).item.Stray?
    requires var n := |ReadItem(s, stack).item.text|; n <= |t| && s[..n] == t[..n]
    ensures ReadItem(t, stack) == ReadItem(s, stack)
  {
    if !InRawText(stack) {
      MarkupIsLocal(s, t);
    } else {
      RawTextNamesArePlain(stack[|stack| - 1]);
      RawTextIsLocal(s, t, stack[|stack| - 1]);
    }
  }

  lemma FirstCloseIsNoLater(s: string, t: string, element: string, n: nat)
    requires n <= |s| && n <= |t| && s[..n] == t[..n] && FirstClose(s, element, 0).Some?
    requires FirstClose(s, element, 0).value + 2 + |element| < n
    ensures FirstClose(t, element, 0).Some? && FirstClose(t, element, 0).value <= FirstClose(s, element, 0).value
  {
    var k := FirstClose(s, element, 0).value;
    ClosesIsLocal(s, t, element, k, n);
    FirstCloseIsLeast(t, element, 0, k);
  }

  lemma FirstCloseIsLocal(s: string, t: string, element: string, n: nat)
    requires n <= |s| && n <= |t| && s[..n] == t[..n] && FirstClose(s, element, 0).Some?
    requires FirstClose(s, element, 0).value + 2 + |element| < n
    ensures FirstClose(t, element, 0) == FirstClose(s, element, 0)
  {
    FirstCloseIsNoLater(s, t, element, n);
    FirstCloseIsNoLater(t, s, element, n);
  }

  lemma RawTextIsLocal(s: string, t: string, element: string)
    requires s != "" && PlainName(element) && ReadRawText(s, element).Found?
    requires var n := |ReadRawText(s, element).item.text|; n <= |t| && s[..n] == t[..n]
    ensures ReadRawText(t, element) == ReadRawText(s, element)
  {
    var n := |ReadRawText(s, element).item.text|;
    var k := FirstClose(LowerEach(s), element, 0).value;
    ClosingTagIsRead(s, element, k);
    LowerIsLocal(s, t, n);
    FirstCloseIsLocal(LowerEach(s), LowerEach(t), element, n);
    AfterIsLocal(s, t, k);
  }

  lemma AfterIsLocal(s: string, t: string, k: nat)
    requires k < |s| && ReadAfter(s, k).Found? && !ReadAfter(s, k).item.Stray?
    requires var n := |ReadAfter(s, k).item.text|; n <= |t| && s[..n] == t[..n]
    ensures k < |t| && ReadAfter(t, k) == ReadAfter(s, k)
  {
    SlicesAgree(s, t, |ReadAfter(s, k).item.text|, k);
    MarkupIsLocal(s[k..], t[k..]);
  }

  lemma SlicesAgree(s: string, t: string, n: nat, k: nat)
    requires k <= n <= |s| && n <= |t| && s[..n] == t[..n]
    ensures s[..k] == t[..k] && s[k..][..n - k] == t[k..][..n - k]
  {
    assert s[..k] == s[..n][..k] && t[..k] == t[..n][..k];
    assert s[k..][..n - k] == s[..n][k..] && t[k..][..n - k] == t[..n][k..];
  }

  lemma LowerIsLocal(s: string, t: string, n: nat)
    requires n <= |s| && n <= |t| && s[..n] == t[..n]
    ensures LowerEach(s)[..n] == LowerEach(t)[..n]
  {
    forall i | 0 <= i < n ensures LowerEach(s)[i] == LowerEach(t)[i] {
      assert s[i] == s[..n][i] == t[..n][i] == t[i];
    }
  }

  lemma ClosesIsLocal(s: string, t: string, element: string, k: nat, n: nat)
    requires ClosesAt(s, element, k) && k + 2 + |element| < n <= |s| && n <= |t| && s[..n] == t[..n]
    ensures ClosesAt(t, element, k)
  {
    var p := 2 + |element|;
    assert t[k..k + p] == t[..n][k..k + p] == s[..n][k..k + p] == s[k..k + p];
    assert t[k + p] == t[..n][k + p] == s[..n][k + p] == s[k + p];
  }
}
