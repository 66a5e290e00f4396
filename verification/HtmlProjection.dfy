/** `projectHtml`: the start tags of a message body, with their positions and depths.

    A text is specified by the list of constructs it is the concatenation of; the loop over
    positions is proved to compute it. */
module HtmlProjection {
  import opened Wrappers
  import opened Characters
  import opened HtmlText
  import opened HtmlTags

  const INLINE_IMAGE_HTML_MAX_BYTES := 1_048_576

  // ---------------------------------------------------------------- the constructs of a text

  datatype Scanned = Items(items: seq<Item>) | Bad(code: ErrorCode)

  /** The open elements after a construct, unless it closes an element that is not the innermost one. */
  function After(item: Item, stack: seq<string>): Option<seq<string>> {
    match item
    case Close(_, name) =>
      if stack != [] && stack[|stack| - 1] == name then Some(stack[..|stack| - 1]) else None
    case Open(_, _, start) =>
      Some(if start.opens then stack + [start.name] else stack)
    case _ => Some(stack)
  }

  function Then(done: seq<Item>, rest: Scanned): Scanned {
    match rest
    case Items(items) => Items(done + items)
    case Bad(_) => rest
  }

  /** A way to read the construct a text starts with, inside the open elements. What follows
      is proved of any such reader; `ReadItem` is the one that is meant. */
  type Reader = (string, seq<string>) -> Read

  ghost predicate Sound(reader: Reader) {
    forall s, stack {:trigger reader(s, stack)} :: reader(s, stack).Found? ==>
      var item := reader(s, stack).item;
      0 < |item.text| <= |s| && item.text == s[..|item.text|] && ImageIsVoid(item) && Leads(item)
  }

  /** The constructs a text consists of, inside the elements of `stack`. All must be closed at its end. */
  ghost function Scan(reader: Reader, s: string, stack: seq<string>): Scanned
    requires Sound(reader)
    decreases |s|
  {
    if s == "" then (if stack == [] then Items([]) else Bad(HtmlMalformed))
    else
      match reader(s, stack)
      case Unreadable(code) => Bad(code)
      case Found(item) =>
        match After(item, stack)
        case None => Bad(HtmlMalformed)
        case Some(inner) => Then([item], Scan(reader, s[|item.text|..], inner))
  }

  function Join(items: seq<Item>): string {
    if items == [] then "" else items[0].text + Join(items[1..])
  }

  /** The open elements after a list of constructs that is well nested so far. */
  function Nest(items: seq<Item>, stack: seq<string>): Option<seq<string>> {
    if items == [] then Some(stack)
    else match After(items[0], stack)
      case None => None
      case Some(inner) => Nest(items[1..], inner)
  }

  // ---------------------------------------------------------------- projection

  datatype Tag = Tag(start: nat, end: nat, depth: nat, name: string, attributes: AttributeMap)

  datatype Projection = Projected(tags: seq<Tag>, forwardedStart: Option<nat>) | Rejected(code: ErrorCode)

  function TagOf(item: Item, at: nat, stack: seq<string>): seq<Tag> {
    if item.Open? then [Tag(at + item.lead, at + |item.text|, |stack|, item.start.name, item.start.attributes)] else []
  }

  function StackAfter(item: Item, stack: seq<string>): seq<string> {
    match After(item, stack)
    case None => stack
    case Some(inner) => inner
  }

  function TagsOf(items: seq<Item>, at: nat, stack: seq<string>): seq<Tag> {
    if items == [] then []
    else TagOf(items[0], at, stack) + TagsOf(items[1..], at + |items[0].text|, StackAfter(items[0], stack))
  }

  /** The outermost `div` that wraps a forwarded message. */
  predicate MarksForwarded(tag: Tag) {
    && tag.name == "div" && tag.depth == 0
    && FORWARDED_MESSAGE_ATTRIBUTE in tag.attributes
    && tag.attributes[FORWARDED_MESSAGE_ATTRIBUTE].Some?
    && Lower(tag.attributes[FORWARDED_MESSAGE_ATTRIBUTE].value) == MANAGED_INLINE_IMAGE_VERSION
  }

  function NextForwarded(earlier: Option<nat>, tag: Tag): Option<nat> {
    if earlier.Some? then earlier else if MarksForwarded(tag) then Some(tag.start) else None
  }

  /** Where the first forwarded message starts. */
  function ForwardedStart(tags: seq<Tag>): Option<nat> {
    if tags == [] then None else NextForwarded(ForwardedStart(tags[..|tags| - 1]), tags[|tags| - 1])
  }

  ghost function ProjectionBy(reader: Reader, html: string): Projection
    requires Sound(reader)
  {
    if ByteLength(html) > INLINE_IMAGE_HTML_MAX_BYTES then Rejected(HtmlTooLarge)
    else
      match Scan(reader, html, [])
      case Bad(code) => Rejected(code)
      case Items(items) => Projected(TagsOf(items, 0, []), ForwardedStart(TagsOf(items, 0, [])))
  }

  /** Tag ranges are non-empty, disjoint, in order, and end by `end`. */
  predicate Ordered(tags: seq<Tag>, end: nat) {
    && (forall i :: 0 <= i < |tags| ==> tags[i].start < tags[i].end <= end)
    && (forall i, j :: 0 <= i < j < |tags| ==> tags[i].end <= tags[j].start)
  }

  /** The range is bracketed like a tag. */
  predicate Bracketed(html: string, tag: Tag) {
    tag.start + 1 < tag.end <= |html| && html[tag.start] == '<' && html[tag.end - 1] == '>'
  }

  method MarkupAt(html: string, index: nat) returns (read: Read)
    requires index < |html|
    ensures read == ReadMarkup(html[index..])
  {
    if html[index] != '<' { return Found(Character([html[index]])); }
    if StartsAt(html[index..], "<!--", 0) {
      var commentEnd := IndexOf(html, "-->", index + 4);
      IndexOfShifts(html, "-->", index, 4);
      if commentEnd.None? { return Unreadable(HtmlMalformed); }
      PrefixOfRest(html, index, commentEnd.value + 3);
      return Found(Comment(html[index..commentEnd.value + 3]));
    }
    read := TagAt(html, index);
  }

  method TagAt(html: string, index: nat) returns (read: Read)
    requires index < |html| && html[index] == '<' && !StartsAt(html[index..], "<!--", 0)
    ensures read == ReadMarkup(html[index..])
  {
    var end := TagEnd(html, index);
    TagEndShifts(html, index);
    if end.None? { return Unreadable(HtmlMalformed); }
    PrefixOfRest(html, index, end.value);
    var tag := html[index..end.value];
    if IsDeclaration(html[index..]) { return Found(Declaration(tag)); }
    read := ReadTagText(tag);
  }

  lemma PrefixOfRest(html: string, index: nat, end: nat)
    requires index <= end <= |html|
    ensures html[index..][..end - index] == html[index..end]
  {
  }

  method ReadTagText(tag: string) returns (read: Read)
    requires |tag| > 1 && tag[0] == '<' && tag[|tag| - 1] == '>'
    ensures read == ReadTag(tag)
  {
    var name := NameOf(tag);
    if name.None? { return Found(Stray("<")); }
    if name.value.closing {
      var afterName := Skip(tag, name.value.end, |tag|, Spaces);
      if afterName != |tag| - 1 { return Unreadable(HtmlMalformed); }
      return Found(Close(tag, name.value.name));
    }
    var parsed := ParseAttributes(tag, name.value.end);
    if parsed.Refused? { return Unreadable(parsed.code); }
    return Found(Open(tag, 0, Start(name.value.name, parsed.attributes, Opens(name.value.name, parsed.selfClosing))));
  }

  lemma IndexOfShifts(s: string, pattern: string, at: nat, from: nat)
    requires at <= |s|
    ensures match IndexOf(s[at..], pattern, from)
            case None => IndexOf(s, pattern, at + from).None?
            case Some(k) => IndexOf(s, pattern, at + from) == Some(at + k)
    decreases |s| - from
  {
    if at + from + |pattern| <= |s| {
      assert s[at..][from..from + |pattern|] == s[at + from..at + from + |pattern|];
      if !StartsAt(s, pattern, at + from) {
        IndexOfShifts(s, pattern, at, from + 1);
      }
    }
  }

  lemma ClosesShifts(s: string, element: string, at: nat, from: nat)
    requires at <= |s|
    ensures ClosesAt(s[at..], element, from) <==> ClosesAt(s, element, at + from)
  {
    if at + from + 2 + |element| <= |s| {
      assert s[at..][from..from + 2 + |element|] == s[at + from..at + from + 2 + |element|];
    }
  }

  lemma FirstCloseShifts(s: string, element: string, at: nat, from: nat)
    requires at <= |s|
    ensures match FirstClose(s[at..], element, from)
            case None => FirstClose(s, element, at + from).None?
            case Some(k) => FirstClose(s, element, at + from) == Some(at + k)
  {
    FirstCloseIn(s, s[at..], element, at, from);
  }

  lemma FirstCloseIn(s: string, rest: string, element: string, at: nat, from: nat)
    requires at <= |s| && rest == s[at..]
    ensures match FirstClose(rest, element, from)
            case None => FirstClose(s, element, at + from).None?
            case Some(k) => FirstClose(s, element, at + from) == Some(at + k)
    decreases |s| - from
  {
    if at + from < |s| {
      ClosesShifts(s, element, at, from);
      if !ClosesAt(s, element, at + from) {
        FirstCloseIn(s, rest, element, at, from + 1);
      }
    }
  }

  lemma TagEndShifts(s: string, at: nat)
    requires at < |s|
    ensures match TagEndFrom(s[at..], 1, None)
            case None => TagEndFrom(s, at + 1, None).None?
            case Some(k) => TagEndFrom(s, at + 1, None) == Some(at + k)
  {
    if TagEndFrom(s, at + 1, None).Some? {
      var end := TagEndFrom(s, at + 1, None).value;
      assert s[at + 1..end] == s[at..][1..end - at];
      TagEndIsLocal(s, at + 1, s[at..], 1, None);
    } else if TagEndFrom(s[at..], 1, None).Some? {
      var end := TagEndFrom(s[at..], 1, None).value;
      assert s[at + 1..at + end] == s[at..][1..end];
      TagEndIsLocal(s[at..], 1, s, at + 1, None);
    }
  }

  lemma OpenIsBracketed(s: string)
    requires s != "" && ReadMarkup(s).Found? && ReadMarkup(s).item.Open?
    ensures var n := |ReadMarkup(s).item.text|; 1 < n && s[0] == '<' && s[n - 1] == '>'
  {
  }

  lemma {:induction false} JoinSnoc(done: seq<Item>, item: Item)
    ensures Join(done + [item]) == Join(done) + item.text
  {
    if done == [] {
      assert Join([item]) == item.text + Join([item][1..]);
    } else {
      assert (done + [item])[1..] == done[1..] + [item];
      JoinSnoc(done[1..], item);
    }
  }

  lemma {:induction false} NestSnoc(done: seq<Item>, item: Item, stack: seq<string>)
    requires Nest(done, stack).Some?
    ensures Nest(done + [item], stack) == After(item, Nest(done, stack).value)
  {
    if done == [] {
      assert [item][1..] == [];
    } else {
      assert (done + [item])[1..] == done[1..] + [item];
      NestSnoc(done[1..], item, After(done[0], stack).value);
    }
  }

  /** The construct that follows `done` comes with its own tag, if it is one. */
  lemma {:induction false} TagsSnoc(done: seq<Item>, item: Item, at: nat, stack: seq<string>)
    requires Nest(done, stack).Some?
    ensures TagsOf(done + [item], at, stack)
         == TagsOf(done, at, stack) + TagOf(item, at + |Join(done)|, Nest(done, stack).value)
  {
    if done == [] {
      assert done + [item] == [item] && [item][1..] == [];
    } else {
      assert (done + [item])[1..] == done[1..] + [item];
      TagsSnoc(done[1..], item, at + |done[0].text|, After(done[0], stack).value);
    }
  }

  /** What is read from `index` on, one construct further. */
  ghost function OneStep(reader: Reader, html: string, index: nat, stack: seq<string>, done: seq<Item>): Scanned
    requires Sound(reader) && index < |html|
  {
    var read := reader(html[index..], stack);
    if read.Unreadable? then Bad(read.code)
    else if After(read.item, stack).None? then Bad(HtmlMalformed)
    else Then(done + [read.item], Scan(reader, html[index + |read.item.text|..], After(read.item, stack).value))
  }

  /** One turn of the loop reads one construct. */
  lemma ScanStep(reader: Reader, html: string, index: nat, stack: seq<string>, done: seq<Item>)
    requires Sound(reader) && index < |html|
    ensures Then(done, Scan(reader, html[index..], stack)) == OneStep(reader, html, index, stack, done)
  {
    var read := reader(html[index..], stack);
    if read.Found? && After(read.item, stack).Some? {
      var item := read.item;
      assert html[index..][|item.text|..] == html[index + |item.text|..];
      var rest := Scan(reader, html[index + |item.text|..], After(item, stack).value);
      if rest.Items? {
        assert done + ([item] + rest.items) == (done + [item]) + rest.items;
      }
    }
  }

  /** Everything read so far, in positions: `done` takes us to `index` inside `stack`. */
  ghost predicate ReadSoFar(index: nat, stack: seq<string>, tags: seq<Tag>, done: seq<Item>) {
    && |Join(done)| == index
    && Nest(done, []) == Some(stack)
    && tags == TagsOf(done, 0, [])
  }

  lemma ReadOneMore(index: nat, stack: seq<string>, tags: seq<Tag>, done: seq<Item>, item: Item)
    requires ReadSoFar(index, stack, tags, done) && After(item, stack).Some?
    ensures ReadSoFar(index + |item.text|, After(item, stack).value, tags + TagOf(item, index, stack), done + [item])
  {
    JoinSnoc(done, item);
    NestSnoc(done, item, []);
    TagsSnoc(done, item, 0, []);
  }

  /** What the loop reads at `at`, from `index` on, with the text in between. */
  predicate Amounts(html: string, whole: Read, read: Read, index: nat, at: nat)
    requires index <= at <= |html|
  {
    whole == if read.Unreadable? then read else Found(Behind(html[index..at], read.item))
  }

  /** The next construct of a body, as the loop finds it: `s` is the rest of the body, and the end
      of raw text is looked for in the lower-cased body, from where `s` starts. */
  function LoopRead(html: string, s: string, stack: seq<string>): (r: Read)
    ensures r.Found? ==> 0 < |r.item.text| <= |s| && r.item.text == s[..|r.item.text|]
    ensures r.Found? ==> ImageIsVoid(r.item) && Leads(r.item)
  {
    if s == "" then Unreadable(HtmlMalformed)
    else if !InRawText(stack) then ReadMarkup(s)
    else ReadAt(s, LoopSearch(html, |s|, stack[|stack| - 1]))
  }

  /** Where the search for the end of raw text lands, counted from `left` characters before the end. */
  function LoopSearch(html: string, left: nat, element: string): Option<nat> {
    if left > |html| then None
    else
      match FirstClose(Lower(html), element, |html| - left)
      case None => None
      case Some(k) => Some(k - (|html| - left))
  }

  /** The construct at a place that was found, with the text in front of it. */
  function ReadAt(s: string, at: Option<nat>): (r: Read)
    ensures r.Found? ==> 0 < |r.item.text| <= |s| && r.item.text == s[..|r.item.text|]
    ensures r.Found? ==> ImageIsVoid(r.item) && Leads(r.item)
  {
    match at
    case None => Unreadable(HtmlMalformed)
    case Some(k) => if k < |s| then ReadAfter(s, k) else Unreadable(HtmlMalformed)
  }

  /** The reader that the loop is. */
  ghost predicate Follows(html: string, reader: Reader) {
    forall s, stack {:trigger reader(s, stack)} :: reader(s, stack) == LoopRead(html, s, stack)
  }

  /** What a reading at `at` promises besides the construct itself. */
  ghost predicate WithinBody(html: string, at: nat, read: Read) {
    read.Found? ==>
      && at < at + |read.item.text| <= |html| && IsDirect(read.item)
      && (read.item.Open? ==> Bracketed(html, Tag(at, at + |read.item.text|, 0, "", map[])))
  }

  method MarkupWithin(html: string, at: nat) returns (read: Read)
    requires at < |html|
    ensures read == ReadMarkup(html[at..]) && WithinBody(html, at, read)
  {
    read := MarkupAt(html, at);
    if read.Found? && read.item.Open? { OpenIsBracketed(html[at..]); }
  }

  /** What ends a raw text. Nothing is read past the end of the body. */
  method ReadRawEnd(html: string, lowerHtml: string, index: nat, stack: seq<string>)
      returns (at: nat, read: Option<Read>)
    requires index < |html| && lowerHtml == Lower(html) && InRawText(stack) && PlainName(stack[|stack| - 1])
    ensures index <= at
    ensures read.None? ==> |html| <= at && LoopRead(html, html[index..], stack) == Unreadable(HtmlMalformed)
    ensures read.Some? ==>
              && WithinBody(html, at, read.value) && at < |html|
              && Amounts(html, LoopRead(html, html[index..], stack), read.value, index, at)
  {
    var closeAt := RawTextClose(lowerHtml, stack[|stack| - 1], index);
    if closeAt.None? { return index, Some(Unreadable(HtmlMalformed)); }
    at := closeAt.value;
    if at >= |html| { return at, None; }
    var markup := MarkupWithin(html, at);
    ReadsThere(html, index, stack, at);
    return at, Some(markup);
  }

  lemma ReadsThere(html: string, index: nat, stack: seq<string>, at: nat)
    requires index < |html| && InRawText(stack) && index <= at < |html|
    requires FirstClose(Lower(html), stack[|stack| - 1], index) == Some(at)
    ensures Amounts(html, LoopRead(html, html[index..], stack), ReadMarkup(html[at..]), index, at)
  {
    RestSlices(html, index, at);
    var s := html[index..];
    assert LoopSearch(html, |s|, stack[|stack| - 1]) == Some(at - index);
    assert LoopRead(html, s, stack) == ReadAfter(s, at - index);
  }

  lemma RestSlices(html: string, index: nat, at: nat)
    requires index <= at <= |html|
    ensures html[index..][at - index..] == html[at..] && html[index..][..at - index] == html[index..at]
  {
  }

  /** The next construct, past the rest of a raw text. */
  method ReadNext(html: string, lowerHtml: string, index: nat, stack: seq<string>, ghost reader: Reader)
      returns (at: nat, read: Option<Read>)
    requires index < |html| && lowerHtml == Lower(html) && Follows(html, reader)
    ensures index <= at
    ensures read.None? ==> |html| <= at && stack != [] && reader(html[index..], stack) == Unreadable(HtmlMalformed)
    ensures read.Some? ==>
              && WithinBody(html, at, read.value) && at < |html|
              && Amounts(html, reader(html[index..], stack), read.value, index, at)
  {
    assert reader(html[index..], stack) == LoopRead(html, html[index..], stack);
    if InRawText(stack) {
      RawTextNamesArePlain(stack[|stack| - 1]);
      at, read := ReadRawEnd(html, lowerHtml, index, stack);
    } else {
      var markup := MarkupWithin(html, index);
      at, read := index, Some(markup);
      NothingInFront(html, markup, index);
    }
  }

  lemma NothingInFront(html: string, read: Read, index: nat)
    requires index <= |html|
    ensures Amounts(html, read, read, index, index)
  {
    if read.Found? { assert "" + read.item.text == read.item.text; }
  }

  /** The text in front changes neither what a construct does to the stack nor its tag. */
  lemma InFrontOfIt(prefix: string, item: Item, at: nat, stack: seq<string>)
    ensures After(Behind(prefix, item), stack) == After(item, stack)
    ensures TagOf(Behind(prefix, item), at, stack) == TagOf(item, at + |prefix|, stack)
  {
  }

  lemma AmountsTo(html: string, whole: Read, read: Read, index: nat, at: nat, stack: seq<string>)
    requires index <= at <= |html| && Amounts(html, whole, read, index, at) && read.Found?
    ensures whole.Found? && |whole.item.text| == at - index + |read.item.text|
    ensures After(whole.item, stack) == After(read.item, stack)
    ensures TagOf(whole.item, index, stack) == TagOf(read.item, at, stack)
  {
    InFrontOfIt(html[index..at], read.item, index, stack);
  }

  lemma ReadAlso(reader: Reader, html: string, index: nat, stack: seq<string>, tags: seq<Tag>, done: seq<Item>,
                 at: nat, read: Read) returns (more: seq<Item>)
    requires Sound(reader) && index < |html| && index <= at && ReadSoFar(index, stack, tags, done)
    requires at <= |html| && Amounts(html, reader(html[index..], stack), read, index, at)
    requires read.Found? && After(read.item, stack).Some? && at + |read.item.text| <= |html|
    ensures var next, inner := at + |read.item.text|, After(read.item, stack).value;
            && ReadSoFar(next, inner, tags + TagOf(read.item, at, stack), more)
            && Then(done, Scan(reader, html[index..], stack)) == Then(more, Scan(reader, html[next..], inner))
  {
    ScanStep(reader, html, index, stack, done);
    var whole := reader(html[index..], stack).item;
    AmountsTo(html, reader(html[index..], stack), read, index, at, stack);
    ReadOneMore(index, stack, tags, done, whole);
    more := done + [whole];
  }

  /** The tags found before `index`. */
  ghost predicate TagsBefore(html: string, index: nat, tags: seq<Tag>) {
    Ordered(tags, |html|) && forall tag :: tag in tags ==> tag.end <= index && Bracketed(html, tag)
  }

  lemma OneMoreTag(html: string, index: nat, tags: seq<Tag>, tag: Tag)
    requires TagsBefore(html, index, tags) && index <= tag.start && Bracketed(html, tag)
    ensures TagsBefore(html, tag.end, tags + [tag])
    ensures ForwardedStart(tags + [tag]) == NextForwarded(ForwardedStart(tags), tag)
  {
    assert (tags + [tag])[..|tags|] == tags;
  }

  /** Where the loop stands: past `done`, inside `stack`. */
  datatype Progress = Progress(index: nat, stack: seq<string>, tags: seq<Tag>, forwardedStart: Option<nat>)

  /** The construct found at `at` has been taken in. */
  function TakeIn(p: Progress, at: nat, item: Item): Progress {
    var tags := TagOf(item, at, p.stack);
    Progress(at + |item.text|, StackAfter(item, p.stack), p.tags + tags,
             if tags == [] then p.forwardedStart else NextForwarded(p.forwardedStart, tags[0]))
  }

  ghost predicate InPlace(html: string, p: Progress) {
    TagsBefore(html, p.index, p.tags) && p.forwardedStart == ForwardedStart(p.tags)
  }

  ghost predicate OnCourse(reader: Reader, html: string, p: Progress, done: seq<Item>)
    requires Sound(reader)
  {
    && p.index <= |html| && ReadSoFar(p.index, p.stack, p.tags, done)
    && Scan(reader, html, []) == Then(done, Scan(reader, html[p.index..], p.stack))
  }

  lemma TakingInKeepsInPlace(html: string, p: Progress, at: nat, item: Item)
    requires InPlace(html, p) && p.index <= at && IsDirect(item)
    requires item.Open? ==> Bracketed(html, Tag(at, at + |item.text|, 0, "", map[]))
    ensures InPlace(html, TakeIn(p, at, item))
  {
    if item.Open? {
      OneMoreTag(html, p.index, p.tags, TagOf(item, at, p.stack)[0]);
    } else {
      assert p.tags + [] == p.tags;
    }
  }

  lemma TakingInKeepsOnCourse(reader: Reader, html: string, p: Progress, done: seq<Item>, at: nat, read: Read)
      returns (more: seq<Item>)
    requires Sound(reader) && OnCourse(reader, html, p, done) && p.index < |html| && p.index <= at
    requires at <= |html| && Amounts(html, reader(html[p.index..], p.stack), read, p.index, at)
    requires read.Found? && After(read.item, p.stack).Some? && at + |read.item.text| <= |html|
    ensures OnCourse(reader, html, TakeIn(p, at, read.item), more)
  {
    more := ReadAlso(reader, html, p.index, p.stack, p.tags, done, at, read);
  }

  lemma FailsToo(reader: Reader, html: string, p: Progress, done: seq<Item>, at: nat, read: Read)
    requires Sound(reader) && OnCourse(reader, html, p, done) && p.index < |html| && p.index <= at
    requires at <= |html| && Amounts(html, reader(html[p.index..], p.stack), read, p.index, at)
    requires read.Unreadable? || After(read.item, p.stack).None?
    requires ByteLength(html) <= INLINE_IMAGE_HTML_MAX_BYTES
    ensures ProjectionBy(reader, html) == Rejected(if read.Unreadable? then read.code else HtmlMalformed)
  {
    ScanStep(reader, html, p.index, p.stack, done);
  }

  /** On course, or past the end inside a raw text that nothing ends. */
  ghost predicate Midway(reader: Reader, html: string, p: Progress, done: seq<Item>)
    requires Sound(reader)
  {
    if p.index <= |html| then OnCourse(reader, html, p, done)
    else p.stack != [] && ProjectionBy(reader, html) == Rejected(HtmlMalformed)
  }

  lemma NothingMore(reader: Reader, html: string, p: Progress, done: seq<Item>)
    requires Sound(reader) && OnCourse(reader, html, p, done) && p.index < |html|
    requires reader(html[p.index..], p.stack) == Unreadable(HtmlMalformed)
    requires ByteLength(html) <= INLINE_IMAGE_HTML_MAX_BYTES
    ensures ProjectionBy(reader, html) == Rejected(HtmlMalformed)
  {
    ScanStep(reader, html, p.index, p.stack, done);
  }

  lemma Arrives(reader: Reader, html: string, p: Progress, done: seq<Item>)
    requires Sound(reader) && Midway(reader, html, p, done) && p.index >= |html|
    requires ByteLength(html) <= INLINE_IMAGE_HTML_MAX_BYTES && p.forwardedStart == ForwardedStart(p.tags)
    ensures ProjectionBy(reader, html)
         == if p.stack == [] then Projected(p.tags, p.forwardedStart) else Rejected(HtmlMalformed)
  {
    if p.index == |html| {
      assert html[|html|..] == "";
      assert done + [] == done;
    }
  }

  /** The positions of a body's tags. For every body they are those of the constructs the loop
      reads, which are the constructs of the body unless U+0130 misplaces the search for the end
      of raw text; and they are ordered, disjoint and bracketed like tags. */
  method ProjectHtml(html: string, ghost reader: Reader) returns (projection: Projection)
    requires Sound(reader) && Follows(html, reader)
    ensures projection == ProjectionBy(reader, html)
    ensures projection.Projected? ==> TagsBefore(html, |html|, projection.tags)
    ensures projection.Projected? ==> projection.forwardedStart == ForwardedStart(projection.tags)
  {
    if ByteLength(html) > INLINE_IMAGE_HTML_MAX_BYTES { return Rejected(HtmlTooLarge); }
    var p := Progress(0, [], [], None);
    var lowerHtml := Lower(html);
    ghost var done: seq<Item> := [];
    assert html[0..] == html;
    while p.index < |html|
      invariant InPlace(html, p)
      invariant Midway(reader, html, p, done)
    {
      var at, read := ReadNext(html, lowerHtml, p.index, p.stack, reader);
      if read.None? {
        NothingMore(reader, html, p, done);
        p := p.(index := at + 1);
        continue;
      }
      if read.value.Unreadable? || After(read.value.item, p.stack).None? {
        FailsToo(reader, html, p, done, at, read.value);
        return Rejected(if read.value.Unreadable? then read.value.code else HtmlMalformed);
      }
      TakingInKeepsInPlace(html, p, at, read.value.item);
      done := TakingInKeepsOnCourse(reader, html, p, done, at, read.value);
      p := TakeIn(p, at, read.value.item);
    }
    Arrives(reader, html, p, done);
    if p.stack != [] { return Rejected(HtmlMalformed); }
    return Projected(p.tags, p.forwardedStart);
  }

  // ---------------------------------------------------------------- the reader that is meant

  /** Reading a construct depends only on the text that makes it up, unless it is a stray `<`. */
  ghost predicate Local(reader: Reader) {
    forall s, t, stack {:trigger reader(s, stack), reader(t, stack)} ::
      && reader(s, stack).Found? && !reader(s, stack).item.Stray?
      && (var n := |reader(s, stack).item.text|; n <= |s| && n <= |t| && s[..n] == t[..n])
      ==> reader(t, stack) == reader(s, stack)
  }

  lemma ReadItemIsSound()
    ensures Sound(ReadItem)
  {
  }

  lemma ReadItemIsLocal()
    ensures Local(ReadItem)
  {
    forall s, t, stack |
      && ReadItem(s, stack).Found? && !ReadItem(s, stack).item.Stray?
      && (var n := |ReadItem(s, stack).item.text|; n <= |s| && n <= |t| && s[..n] == t[..n])
      ensures ReadItem(t, stack) == ReadItem(s, stack)
    {
      ItemIsLocal(s, t, stack);
    }
  }

  ghost function ProjectionOf(html: string): Projection {
    ReadItemIsSound();
    ProjectionBy(ReadItem, html)
  }

  /** The constructs of a body. */
  ghost function ConstructsOf(html: string): Scanned {
    ReadItemIsSound();
    Scan(ReadItem, html, [])
  }

  // ---------------------------------------------------------------- the reader that the loop is

  function LoopReader(html: string): Reader { (s: string, stack: seq<string>) => LoopRead(html, s, stack) }

  lemma LoopReaderFollows(html: string)
    ensures Sound(LoopReader(html)) && Follows(html, LoopReader(html))
  {
  }

  ghost function LoopProjection(html: string): Projection {
    LoopReaderFollows(html);
    ProjectionBy(LoopReader(html), html)
  }

  /** The constructs the loop reads. */
  ghost function LoopConstructs(html: string): Scanned {
    LoopReaderFollows(html);
    Scan(LoopReader(html), html, [])
  }
}
