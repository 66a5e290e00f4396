/** Matching the images of a body with the attachments that carry them. */
module InlineImageMapping {
  import opened Wrappers
  import opened Characters
  import opened HtmlTags
  import opened HtmlSearch
  import opened InlineImages

  datatype Attachment = Attachment(
    mimetype: Option<string>,
    status: string,
    disposition: Option<string>,
    contentId: Option<string>)

  predicate IsInlineImageMimeType(value: Option<string>) {
    && value.Some? && |value.value| > 6 && LowerEach(value.value[..6]) == "image/"
    && (IsLetter(value.value[6]) || IsDigit(value.value[6]))
    && forall i :: 6 < i < |value.value| ==>
         var c := value.value[i]; IsLetter(c) || IsDigit(c) || c == '.' || c == '+' || c == '-'
  }

  /** The attachment may be shown in the body. */
  predicate Usable(attachment: Attachment) {
    attachment.status == "ready" && attachment.disposition == Some("inline")
    && IsInlineImageMimeType(attachment.mimetype)
  }

  /** Why the attachment may not be shown, the first reason first. */
  function FaultOf(attachment: Attachment): Option<ErrorCode> {
    if attachment.status != "ready" then Some(NotReady)
    else if attachment.disposition != Some("inline") then Some(NotInline)
    else if !IsInlineImageMimeType(attachment.mimetype) then Some(NotImage)
    else None
  }

  predicate Distinct(ids: seq<string>) { forall i, j :: 0 <= i < j < |ids| ==> ids[i] != ids[j] }

  predicate HasId(attachment: Attachment) { attachment.contentId.Some? && attachment.contentId.value != "" }

  function Id(attachment: Attachment): string
    requires HasId(attachment)
  {
    Lower(attachment.contentId.value)
  }

  /** No two attachments carry the same content id. */
  predicate OneOwner(attachments: seq<Attachment>) {
    forall i, j :: 0 <= i < j < |attachments| && HasId(attachments[i]) && HasId(attachments[j]) ==>
      Id(attachments[i]) != Id(attachments[j])
  }

  predicate Carries(attachment: Attachment, contentId: string) { HasId(attachment) && Id(attachment) == contentId }

  predicate Owned(contentId: string, attachments: seq<Attachment>) {
    exists i :: 0 <= i < |attachments| && Carries(attachments[i], contentId) && Usable(attachments[i])
  }

  /** What is wrong with the attachment of an image: there is none, or it may not be shown. */
  predicate IsFault(contentId: string, attachments: seq<Attachment>, code: ErrorCode) {
    if code == MissingAttachment then forall i :: 0 <= i < |attachments| ==> !Carries(attachments[i], contentId)
    else
      exists i :: 0 <= i < |attachments| && Carries(attachments[i], contentId) && FaultOf(attachments[i]) == Some(code)
  }

  /** The refusal is that of the first image whose attachment may not be shown. */
  predicate IsFirstFault(ids: seq<string>, attachments: seq<Attachment>, code: ErrorCode) {
    exists k :: 0 <= k < |ids| && (forall j :: 0 <= j < k ==> Owned(ids[j], attachments))
      && IsFault(ids[k], attachments, code)
  }

  datatype Mapping = Mapped(referenced: seq<string>) | Unmapped(code: ErrorCode)

  method RepeatsNone(ids: seq<string>) returns (distinct: bool)
    ensures distinct <==> Distinct(ids)
  {
    var seenBody: set<string> := {};
    for i := 0 to |ids|
      invariant Distinct(ids[..i])
      invariant forall id :: id in seenBody <==> id in ids[..i]
    {
      if ids[i] in seenBody {
        var j :| 0 <= j < i && ids[..i][j] == ids[i];
        assert ids[j] == ids[i];
        return false;
      }
      seenBody := seenBody + {ids[i]};
      assert ids[..i + 1] == ids[..i] + [ids[i]];
    }
    assert ids[..|ids|] == ids;
    return true;
  }

  /** The attachments by content id, unless two share one. */
  method ByContentId(attachments: seq<Attachment>) returns (owners: Option<map<string, Attachment>>)
    ensures owners.Some? <==> OneOwner(attachments)
    ensures owners.Some? ==> forall i :: 0 <= i < |attachments| && HasId(attachments[i]) ==>
              Id(attachments[i]) in owners.value && owners.value[Id(attachments[i])] == attachments[i]
    ensures owners.Some? ==> forall id :: id in owners.value ==>
              exists i :: 0 <= i < |attachments| && HasId(attachments[i]) && Id(attachments[i]) == id
  {
    var byId: map<string, Attachment> := map[];
    for i := 0 to |attachments|
      invariant OneOwner(attachments[..i])
      invariant forall j :: 0 <= j < i && HasId(attachments[j]) ==>
                  Id(attachments[j]) in byId && byId[Id(attachments[j])] == attachments[j]
      invariant forall id :: id in byId ==>
                  exists j :: 0 <= j < i && HasId(attachments[j]) && Id(attachments[j]) == id
    {
      if HasId(attachments[i]) {
        if Id(attachments[i]) in byId { return None; }
        byId := byId[Id(attachments[i]) := attachments[i]];
      }
    }
    assert attachments[..|attachments|] == attachments;
    return Some(byId);
  }

  /** A body's images are accepted exactly when each appears once and is carried by the one
      attachment of that content id, which is ready, inline and an image. */
  ghost predicate Accepts(images: Gathered, attachments: seq<Attachment>) {
    && images.Images? && Distinct(ContentIds(images.ranges)) && OneOwner(attachments)
    && forall id :: id in ContentIds(images.ranges) ==> Owned(id, attachments)
  }

  /** What is answered about the images of a body. */
  ghost predicate IsMapping(images: Gathered, attachments: seq<Attachment>, mapping: Mapping) {
    match images
    case Failed(code) => mapping == Unmapped(code)
    case Images(ranges) =>
      var ids := ContentIds(ranges);
      if !Distinct(ids) then mapping == Unmapped(DuplicateBodyCid)
      else if !OneOwner(attachments) then mapping == Unmapped(DuplicateAttachmentCid)
      else
        match mapping
        case Mapped(referenced) => Accepts(images, attachments) && referenced == ids
        case Unmapped(code) => !Accepts(images, attachments) && IsFirstFault(ids, attachments, code)
  }

  method MapImages(images: Gathered, attachments: seq<Attachment>) returns (mapping: Mapping)
    ensures IsMapping(images, attachments, mapping)
    ensures mapping.Mapped? <==> Accepts(images, attachments)
  {
    if images.Failed? { return Unmapped(images.code); }
    var ids := ContentIds(images.ranges);
    var distinct := RepeatsNone(ids);
    if !distinct { return Unmapped(DuplicateBodyCid); }
    var owners := ByContentId(attachments);
    if owners.None? { return Unmapped(DuplicateAttachmentCid); }
    for i := 0 to |ids|
      invariant forall j :: 0 <= j < i ==> Owned(ids[j], attachments)
    {
      if ids[i] !in owners.value {
        assert IsFault(ids[i], attachments, MissingAttachment);
        assert ids[i] in ids && !Owned(ids[i], attachments);
        return Unmapped(MissingAttachment);
      }
      var attachment := owners.value[ids[i]];
      if FaultOf(attachment).Some? {
        OwnerDecides(ids[i], attachments, attachment);
        assert ids[i] in ids;
      }
      if attachment.status != "ready" { return Unmapped(NotReady); }
      if attachment.disposition != Some("inline") { return Unmapped(NotInline); }
      if !IsInlineImageMimeType(attachment.mimetype) { return Unmapped(NotImage); }
    }
    return Mapped(ids);
  }

  lemma OwnerDecides(contentId: string, attachments: seq<Attachment>, owner: Attachment)
    requires OneOwner(attachments) && FaultOf(owner).Some?
    requires exists i :: 0 <= i < |attachments| && attachments[i] == owner && Carries(owner, contentId)
    ensures !Owned(contentId, attachments) && IsFault(contentId, attachments, FaultOf(owner).value)
  {
  }

  method ValidateInlineImageMappings(bodyHtml: string, attachments: seq<Attachment>) returns (mapping: Mapping)
    ensures IsMapping(FoundImages(bodyHtml), attachments, mapping)
    ensures mapping.Mapped? <==> Accepts(FoundImages(bodyHtml), attachments)
  {
    var images := AuthoredInlineImages(bodyHtml);
    mapping := MapImages(images, attachments);
  }

  /** Where every search for the end of raw text is right, what is answered is about the images that
      are meant. */
  lemma MappingIsAsMeant(bodyHtml: string, attachments: seq<Attachment>, mapping: Mapping)
    requires AllSearchesRight(bodyHtml)
    ensures IsMapping(FoundImages(bodyHtml), attachments, mapping)
       <==> IsMapping(AuthoredOf(bodyHtml), attachments, mapping)
  {
    ImagesAreAsMeant(bodyHtml);
  }
}
