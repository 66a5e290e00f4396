/** Managed inline images of an authored message: which start tags they are, taking one out
    of the text, and matching them with the attachments. */
module InlineImages {
  import opened Wrappers
  import opened Characters
  import opened HtmlTags
  import opened HtmlProjection
  import opened HtmlNesting
  import opened HtmlSearch

  // ---------------------------------------------------------------- content ids

  const CONTENT_ID_MAX_BYTES := 255

  predicate IsAtom(c: char) {
    IsLetter(c) || IsDigit(c) || c in "!#$%&'*+-/=?^_`{|}~"
  }

  predicate IsLabelEdge(c: char) { IsLetter(c) || IsDigit(c) }

  /** Non-empty runs of atoms separated by single dots. */
  predicate IsLocalPart(s: string) {
    && s != "" && s[0] != '.' && s[|s| - 1] != '.'
    && (forall i :: 0 <= i < |s| ==> IsAtom(s[i]) || s[i] == '.')
    && (forall i :: 0 < i < |s| ==> !(s[i - 1] == '.' && s[i] == '.'))
  }

  /** Labels separated by dots, each starting and ending with a letter or a digit. */
  predicate IsDomain(s: string) {
    && s != "" && IsLabelEdge(s[0]) && IsLabelEdge(s[|s| - 1])
    && (forall i :: 0 <= i < |s| ==> IsLabelEdge(s[i]) || s[i] == '-' || s[i] == '.')
    && (forall i :: 0 < i < |s| && s[i] == '.' ==> IsLabelEdge(s[i - 1]))
    && (forall i :: 0 < i < |s| && s[i - 1] == '.' ==> IsLabelEdge(s[i]))
  }

  predicate IsCanonicalContentId(value: string) {
    && ByteLength(value) <= CONTENT_ID_MAX_BYTES
    && var at := IndexOf(value, "@", 0);
       at.Some? && IsLocalPart(value[..at.value]) && at.value < |value| && IsDomain(value[at.value + 1..])
  }

  predicate HasCidScheme(source: Option<string>) { source.Some? && "cid:" <= Lower(source.value) }

  function ContentIdFromSource(source: Option<string>): Option<string> {
    if !HasCidScheme(source) || |source.value| < 4 || !IsCanonicalContentId(source.value[4..]) then None
    else Some(Lower(source.value[4..]))
  }

  // ---------------------------------------------------------------- authored images

  datatype Image = NotAuthored | InvalidImage | Authored(contentId: string)

  function AttributeOf(tag: Tag, name: string): Option<string> {
    if name in tag.attributes then tag.attributes[name] else None
  }

  /** What a start tag of the authored part means as an inline image. */
  function ImageOf(tag: Tag): Image {
    var marker := AttributeOf(tag, MANAGED_INLINE_IMAGE_ATTRIBUTE);
    var source := AttributeOf(tag, "src");
    var hasMarker := MANAGED_INLINE_IMAGE_ATTRIBUTE in tag.attributes;
    var isManaged := marker.Some? && Lower(marker.value) == MANAGED_INLINE_IMAGE_VERSION;
    if tag.name != "img" then NotAuthored
    else if !isManaged && (hasMarker || !HasCidScheme(source)) then
      if hasMarker then InvalidImage else NotAuthored
    else
      match ContentIdFromSource(source)
      case None => InvalidImage
      case Some(contentId) => Authored(contentId)
  }

  datatype Range = Range(start: nat, end: nat, contentId: string)

  datatype Gathered = Images(ranges: seq<Range>) | Failed(code: ErrorCode)

  function Prepend(ranges: seq<Range>, rest: Gathered): Gathered {
    match rest
    case Images(more) => Images(ranges + more)
    case Failed(_) => rest
  }

  predicate IsForwarded(tag: Tag, forwardedStart: Option<nat>) {
    forwardedStart.Some? && tag.start >= forwardedStart.value
  }

  /** The images among `tags`, in order, outside the forwarded message. */
  function Gather(tags: seq<Tag>, forwardedStart: Option<nat>): Gathered {
    if tags == [] then Images([])
    else
      var rest := Gather(tags[1..], forwardedStart);
      var image := if IsForwarded(tags[0], forwardedStart) then NotAuthored else ImageOf(tags[0]);
      match image
      case NotAuthored => rest
      case InvalidImage => Failed(InvalidSource)
      case Authored(contentId) => Prepend([Range(tags[0].start, tags[0].end, contentId)], rest)
  }

  function ContentIds(ranges: seq<Range>): seq<string> {
    if ranges == [] then [] else [ranges[0].contentId] + ContentIds(ranges[1..])
  }

  function AuthoredIn(projection: Projection): Gathered {
    match projection
    case Rejected(code) => Failed(code)
    case Projected(tags, forwardedStart) => Gather(tags, forwardedStart)
  }

  /** The images of a body as it is meant to be read. */
  ghost function AuthoredOf(html: string): Gathered { AuthoredIn(ProjectionOf(html)) }

  /** The images the loop finds. */
  ghost function FoundImages(html: string): Gathered { AuthoredIn(LoopProjection(html)) }

  /** Non-empty disjoint ranges in order, between `from` and `end`. */
  predicate RangesFit(ranges: seq<Range>, from: nat, end: nat) {
    && (forall i :: 0 <= i < |ranges| ==> from <= ranges[i].start < ranges[i].end <= end)
    && (forall i, j :: 0 <= i < j < |ranges| ==> ranges[i].end <= ranges[j].start)
  }

  lemma {:induction false} GatheredRangesFit(tags: seq<Tag>, forwardedStart: Option<nat>, from: nat, end: nat)
    requires Ordered(tags, end) && (tags == [] || from <= tags[0].start) && Gather(tags, forwardedStart).Images?
    ensures RangesFit(Gather(tags, forwardedStart).ranges, from, end)
  {
    if tags != [] {
      GatheredRangesFit(tags[1..], forwardedStart, tags[0].end, end);
    }
  }

  method AuthoredInlineImages(html: string) returns (gathered: Gathered)
    ensures gathered == FoundImages(html)
    ensures gathered.Images? ==> RangesFit(gathered.ranges, 0, |html|)
  {
    LoopReaderFollows(html);
    var projected := ProjectHtml(html, LoopReader(html));
    gathered := ImagesIn(projected, |html|);
  }

  method ImagesIn(projected: Projection, end: nat) returns (gathered: Gathered)
    requires projected.Projected? ==> Ordered(projected.tags, end)
    ensures gathered == AuthoredIn(projected)
    ensures gathered.Images? ==> RangesFit(gathered.ranges, 0, end)
  {
    if projected.Rejected? { return Failed(projected.code); }
    var tags, forwardedStart := projected.tags, projected.forwardedStart;
    var ranges: seq<Range> := [];
    for i := 0 to |tags|
      invariant Gather(tags, forwardedStart) == Prepend(ranges, Gather(tags[i..], forwardedStart))
    {
      var tag := tags[i];
      assert tags[i..][1..] == tags[i + 1..];
      if !IsForwarded(tag, forwardedStart) {
        var image := ImageOf(tag);
        if image.InvalidImage? { return Failed(InvalidSource); }
        if image.Authored? {
          var range := Range(tag.start, tag.end, image.contentId);
          PrependAppends(ranges, range, Gather(tags[i + 1..], forwardedStart));
          ranges := ranges + [range];
        }
      }
    }
    assert ranges + [] == ranges;
    GatheredRangesFit(tags, forwardedStart, 0, end);
    return Images(ranges);
  }

  lemma PrependAppends(ranges: seq<Range>, range: Range, rest: Gathered)
    ensures Prepend(ranges, Prepend([range], rest)) == Prepend(ranges + [range], rest)
  {
    if rest.Images? {
      assert ranges + ([range] + rest.ranges) == ranges + [range] + rest.ranges;
    }
  }

  // ---------------------------------------------------------------- taking images out

  function Matching(ranges: seq<Range>, contentId: string): seq<Range> {
    if ranges == [] then []
    else (if ranges[0].contentId == contentId then [ranges[0]] else []) + Matching(ranges[1..], contentId)
  }

  /** The body from position `at` on, without the ranges from the `i`th on. */
  function Cut(body: string, at: nat, ranges: seq<Range>, i: nat): string
    requires RangesFit(ranges, 0, |body|) && i <= |ranges|
    requires at <= |body| && (i < |ranges| ==> at <= ranges[i].start)
    decreases |ranges| - i
  {
    if i == |ranges| then body[at..] else body[at..ranges[i].start] + Cut(body, ranges[i].end, ranges, i + 1)
  }

  lemma {:induction false} MatchingFits(ranges: seq<Range>, contentId: string, from: nat, end: nat)
    requires RangesFit(ranges, from, end)
    ensures RangesFit(Matching(ranges, contentId), from, end)
  {
    if ranges != [] {
      MatchingFits(ranges[1..], contentId, ranges[0].end, end);
      var rest := Matching(ranges[1..], contentId);
      if ranges[0].contentId == contentId { OneMoreFits(ranges[0], rest, from, end);
      } else { assert [] + rest == rest; }
    }
  }

  lemma OneMoreFits(first: Range, rest: seq<Range>, from: nat, end: nat)
    requires from <= first.start < first.end <= end && RangesFit(rest, first.end, end)
    ensures RangesFit([first] + rest, from, end)
  {
    var all := [first] + rest;
    forall i | 0 <= i < |all| ensures from <= all[i].start < all[i].end <= end {
      if i > 0 { assert all[i] == rest[i - 1]; }
    }
    forall i, j | 0 <= i < j < |all| ensures all[i].end <= all[j].start {
      assert all[j] == rest[j - 1];
      if i > 0 { assert all[i] == rest[i - 1]; }
    }
  }

  function EndBefore(ranges: seq<Range>, i: nat): nat
    requires i <= |ranges|
  {
    if i == 0 then 0 else ranges[i - 1].end
  }

  /** Removes the ranges from the last to the first, so that earlier positions stay valid. */
  method CutFromTheEnd(body: string, ranges: seq<Range>) returns (result: string)
    requires RangesFit(ranges, 0, |body|)
    ensures result == Cut(body, 0, ranges, 0)
  {
    result := body;
    var i := |ranges|;
    assert body == body[..EndBefore(ranges, i)] + body[EndBefore(ranges, i)..];
    while i > 0
      invariant 0 <= i <= |ranges|
      invariant result == body[..EndBefore(ranges, i)] + Cut(body, EndBefore(ranges, i), ranges, i)
    {
      i := i - 1;
      OneCut(body, EndBefore(ranges, i), ranges[i], Cut(body, ranges[i].end, ranges, i + 1), result);
      result := result[..ranges[i].start] + result[ranges[i].end..];
    }
  }

  lemma OneCut(body: string, at: nat, range: Range, rest: string, before: string)
    requires at <= range.start <= range.end <= |body| && before == body[..range.end] + rest
    ensures before[..range.start] + before[range.end..] == body[..at] + (body[at..range.start] + rest)
  {
    assert before[..range.start] == body[..at] + body[at..range.start];
    assert before[range.end..] == rest;
  }

  function CutOut(body: string, images: Gathered, contentId: string): string
    requires images.Images? ==> RangesFit(images.ranges, 0, |body|)
  {
    match images
    case Failed(_) => body
    case Images(ranges) =>
      MatchingFits(ranges, contentId, 0, |body|);
      Cut(body, 0, Matching(ranges, contentId), 0)
  }

  lemma AuthoredInFits(projection: Projection, end: nat)
    requires projection.Projected? ==> Ordered(projection.tags, end)
    ensures AuthoredIn(projection).Images? ==> RangesFit(AuthoredIn(projection).ranges, 0, end)
  {
    if AuthoredIn(projection).Images? {
      GatheredRangesFit(projection.tags, projection.forwardedStart, 0, end);
    }
  }

  lemma AuthoredRangesFit(html: string)
    ensures AuthoredOf(html).Images? ==> RangesFit(AuthoredOf(html).ranges, 0, |html|)
  {
    ReadItemIsSound();
    ProjectedTagsFitBy(ReadItem, html);
    AuthoredInFits(ProjectionOf(html), |html|);
  }

  lemma FoundRangesFit(html: string)
    ensures FoundImages(html).Images? ==> RangesFit(FoundImages(html).ranges, 0, |html|)
  {
    LoopReaderFollows(html);
    ProjectedTagsFitBy(LoopReader(html), html);
    AuthoredInFits(LoopProjection(html), |html|);
  }

  /** What removal is meant to yield: the body without the ranges of that image, or the body itself
      if its images cannot be told. */
  ghost function RemovedText(bodyHtml: string, contentId: string): string {
    AuthoredRangesFit(bodyHtml);
    CutOut(bodyHtml, AuthoredOf(bodyHtml), Lower(contentId))
  }

  /** What it yields: the ranges of the images the loop finds are taken out. */
  ghost function LeftText(bodyHtml: string, contentId: string): string {
    FoundRangesFit(bodyHtml);
    CutOut(bodyHtml, FoundImages(bodyHtml), Lower(contentId))
  }

  method RemoveManagedInlineImageNodes(bodyHtml: string, contentId: string) returns (result: string)
    ensures result == LeftText(bodyHtml, contentId)
  {
    var normalized := Lower(contentId);
    var images := AuthoredInlineImages(bodyHtml);
    if images.Failed? { return bodyHtml; }
    MatchingFits(images.ranges, normalized, 0, |bodyHtml|);
    result := CutFromTheEnd(bodyHtml, Matching(images.ranges, normalized));
  }

  /** Where every search for the end of raw text is right, the images found are those that are
      meant, and so is what removal yields. */
  lemma ImagesAreAsMeant(html: string)
    requires AllSearchesRight(html)
    ensures FoundImages(html) == AuthoredOf(html)
    ensures forall contentId :: LeftText(html, contentId) == RemovedText(html, contentId)
  {
    LoopReadsWhatIsMeantExactly(html);
  }
}
