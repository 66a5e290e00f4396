/** The pointer to an archived message: what the SMTP handler built is what the reconciler
    recovers from the archive object alone. */
module ArchivePointer {
  import opened Wrappers
  import opened Characters
  import opened Numerals
  import Store = InboundStore

  const SCHEMA_VERSION := "1"
  const MAX_EMAIL_SIZE := 25 * 1024 * 1024

  datatype Pointer = Pointer(
    ingressId: string, rawKey: string, mailboxId: string, rawSize: int, rawSha256: Option<string>,
    archivedAt: string, etag: string, version: string)

  datatype Metadata = Metadata(
    archivedAt: string, declaredRawSize: string, ingressId: string, mailboxId: string, rawSize: string,
    rawSha256: Option<string>, schemaVersion: string)

  datatype Archive = Archive(key: string, size: int, etag: string, version: string, metadata: Metadata)

  // ---------------------------------------------------------------- decimal numbers

  /** What is assumed of `Number`: it reads back what `String` wrote. */
  type Numbers = string -> Option<int>

  ghost predicate ReadsDecimals(number: Numbers) {
    forall n: nat {:trigger Decimal(n)} :: number(Decimal(n)) == Some(n)
  }

  // ---------------------------------------------------------------- raw keys

  /** A UTC minute. */
  datatype Minute = Minute(year: nat, month: nat, day: nat, hour: nat, minute: nat)

  predicate IsMinute(m: Minute) {
    m.year <= 9999 && 1 <= m.month <= 12 && 1 <= m.day <= DaysIn(m.year, m.month) && m.hour < 24 && m.minute < 60
  }

  function Two(n: nat): string
    requires n < 100
  {
    [DigitChar(n / 10), DigitChar(n % 10)]
  }

  function Four(n: nat): string
    requires n < 10000
  {
    Two(n / 100) + Two(n % 100)
  }

  function MinutePrefix(m: Minute): string
    requires IsMinute(m)
  {
    "raw/" + Four(m.year) + "/" + Two(m.month) + "/" + Two(m.day) + "/" + Two(m.hour) + "/" + Two(m.minute) + "/"
  }

  predicate IsIdChar(c: char) { IsLetter(c) || IsDigit(c) || c == '_' || c == '-' }

  predicate IsIngressId(id: string) { id != "" && forall i :: 0 <= i < |id| ==> IsIdChar(id[i]) }

  function RawKey(m: Minute, ingressId: string): string
    requires IsMinute(m)
  {
    MinutePrefix(m) + ingressId + ".eml"
  }

  function Value(s: string): nat
    requires |s| == 2 && IsDigit(s[0]) && IsDigit(s[1])
  {
    10 * (s[0] as int - '0' as int) + (s[1] as int - '0' as int)
  }

  predicate IsTwo(s: string) { |s| == 2 && IsDigit(s[0]) && IsDigit(s[1]) }

  /** The five numbers of a minute prefix, if it has that form. */
  function ReadPrefix(s: string): Option<Minute> {
    if |s| == 21 && s[..4] == "raw/" && IsTwo(s[4..6]) && IsTwo(s[6..8]) && s[8] == '/'
       && IsTwo(s[9..11]) && s[11] == '/'
       && IsTwo(s[12..14]) && s[14] == '/' && IsTwo(s[15..17]) && s[17] == '/' && IsTwo(s[18..20]) && s[20] == '/'
    then Some(Minute(100 * Value(s[4..6]) + Value(s[6..8]), Value(s[9..11]),
                    Value(s[12..14]), Value(s[15..17]), Value(s[18..20])))
    else None
  }

  /** Keys of whole days, without hour and minute, were written by earlier versions. */
  function ReadDayPrefix(s: string): Option<Minute> {
    if |s| == 15 && s[..4] == "raw/" && IsTwo(s[4..6]) && IsTwo(s[6..8]) && s[8] == '/'
       && IsTwo(s[9..11]) && s[11] == '/'
       && IsTwo(s[12..14]) && s[14] == '/'
    then Some(Minute(100 * Value(s[4..6]) + Value(s[6..8]), Value(s[9..11]), Value(s[12..14]), 0, 0))
    else None
  }

  /** The rest of a key after a prefix: an ingress id and the suffix. */
  function ReadId(s: string): Option<string> {
    if |s| > 4 && s[|s| - 4..] == ".eml" && IsIngressId(s[..|s| - 4]) then Some(s[..|s| - 4]) else None
  }

  /** The ingress id of a raw key whose minute is one of the calendar. */
  function IngressIdFromRawKey(key: string): Option<string> {
    if |key| >= 21 && ReadPrefix(key[..21]).Some? && ReadId(key[21..]).Some? then
      if IsMinute(ReadPrefix(key[..21]).value) then ReadId(key[21..]) else None
    else if |key| >= 15 && ReadDayPrefix(key[..15]).Some? && ReadId(key[15..]).Some? then
      if IsMinute(ReadDayPrefix(key[..15]).value) then ReadId(key[15..]) else None
    else None
  }

  // ---------------------------------------------------------------- writing and recovering

  /** The message as the SMTP handler sees it, and what storing it returned. */
  datatype Message = Message(
    to: string, ingressId: string, minute: Minute, archivedAt: string, declaredRawSize: string, size: nat,
    rawSha256: Option<string>, etag: string, version: string)

  type Casing = string -> string

  function EnvelopeRecipient(lower: Casing, m: Message): string { lower(Trim(m.to)) }

  /** The address trimmed and in lower case, if it has exactly one inner `@` and no white space. */
  function NormalizeMailAddress(lower: Casing, value: string): Option<string> {
    var address := lower(Trim(value));
    var at := IndexOf(address, "@", 0);
    if at.None? || at.value == 0 || IndexOf(address, "@", at.value + 1).Some? || at.value == |address| - 1
       || (exists i :: 0 <= i < |address| && IsSpace(address[i]))
    then None else Some(address)
  }

  function ArchiveOf(lower: Casing, m: Message): Archive
    requires IsMinute(m.minute)
  {
    Archive(RawKey(m.minute, m.ingressId), m.size, m.etag, m.version,
            Metadata(m.archivedAt, m.declaredRawSize, m.ingressId, EnvelopeRecipient(lower, m), Decimal(m.size),
                     m.rawSha256, SCHEMA_VERSION))
  }

  function PointerOf(lower: Casing, m: Message): Pointer
    requires IsMinute(m.minute)
  {
    var mailboxId := NormalizeMailAddress(lower, m.to);
    Pointer(m.ingressId, RawKey(m.minute, m.ingressId),
            if mailboxId.Some? then mailboxId.value else EnvelopeRecipient(lower, m),
            m.size, m.rawSha256, m.archivedAt, m.etag, m.version)
  }

  predicate IsSha256Hex(s: string) {
    |s| == 64 && forall i :: 0 <= i < 64 ==> IsDigit(s[i]) || 'a' <= s[i] <= 'f'
  }

  /** `isTime` tells which texts `Date.parse` can read. */
  function PointerFromArchive(number: Numbers, isTime: string -> bool, a: Archive): Option<Pointer> {
    var size := number(a.metadata.rawSize);
    if a.metadata.schemaVersion != SCHEMA_VERSION || a.metadata.ingressId == "" || a.metadata.mailboxId == ""
       || a.metadata.archivedAt == "" || !isTime(a.metadata.archivedAt)
       || size.None? || size.value <= 0 || size.value > MAX_EMAIL_SIZE || size.value != a.size
       || (a.metadata.rawSha256.Some? && !IsSha256Hex(a.metadata.rawSha256.value))
       || !IsIngressId(a.metadata.ingressId) || IngressIdFromRawKey(a.key) != Some(a.metadata.ingressId)
       || a.etag == "" || a.version == ""
    then None
    else
      Some(Pointer(a.metadata.ingressId, a.key, a.metadata.mailboxId, size.value, a.metadata.rawSha256,
                   a.metadata.archivedAt, a.etag, a.version))
  }

  // ---------------------------------------------------------------- the round trip

  lemma TwoReadsBack(n: nat)
    requires n < 100
    ensures IsTwo(Two(n)) && Value(Two(n)) == n
  {
  }

  /** The places of a minute prefix. */
  lemma PrefixParts(m: Minute)
    requires IsMinute(m)
    ensures var s := MinutePrefix(m);
            && |s| == 21 && s[..4] == "raw/" && s[4..6] == Two(m.year / 100) && s[6..8] == Two(m.year % 100)
            && s[8] == '/' && s[9..11] == Two(m.month) && s[11] == '/' && s[12..14] == Two(m.day) && s[14] == '/'
            && s[15..17] == Two(m.hour) && s[17] == '/' && s[18..20] == Two(m.minute) && s[20] == '/'
  {
  }

  lemma PrefixReadsBack(m: Minute)
    requires IsMinute(m)
    ensures ReadPrefix(MinutePrefix(m)) == Some(m)
  {
    PrefixParts(m);
    TwoReadsBack(m.year / 100);
    TwoReadsBack(m.year % 100);
    TwoReadsBack(m.month);
    TwoReadsBack(m.day);
    TwoReadsBack(m.hour);
    TwoReadsBack(m.minute);
  }

  /** The key of a message names its ingress id. */
  lemma RawKeyNamesItsIngress(m: Minute, id: string)
    requires IsMinute(m) && IsIngressId(id)
    ensures IngressIdFromRawKey(RawKey(m, id)) == Some(id)
  {
    PrefixReadsBack(m);
    PrefixParts(m);
    var key := RawKey(m, id);
    assert key[..21] == MinutePrefix(m);
    assert key[21..] == id + ".eml";
    assert (id + ".eml")[..|id|] == id && (id + ".eml")[|id|..] == ".eml";
  }

  /** The mailbox of the pointer is always the recipient the archive names. */
  lemma MailboxIsTheRecipient(lower: Casing, m: Message)
    requires IsMinute(m.minute)
    ensures PointerOf(lower, m).mailboxId == EnvelopeRecipient(lower, m)
  {
  }

  /** What the handler and the platform see to. */
  predicate IsWellFormed(isTime: string -> bool, m: Message) {
    && IsMinute(m.minute) && IsIngressId(m.ingressId) && m.archivedAt != "" && isTime(m.archivedAt)
    && m.etag != "" && m.version != "" && (m.rawSha256.Some? ==> IsSha256Hex(m.rawSha256.value))
  }

  /** The reconciler recovers the handler's own pointer from the archive exactly when the
      message is not empty, not too large, and its recipient is not blank; otherwise it
      recovers none, never another one. */
  lemma RecoveredPointerIsTheOriginal(lower: Casing, number: Numbers, isTime: string -> bool, m: Message)
    requires ReadsDecimals(number) && IsWellFormed(isTime, m)
    ensures var recovered := PointerFromArchive(number, isTime, ArchiveOf(lower, m));
            && (recovered == Some(PointerOf(lower, m))
                <==> 0 < m.size <= MAX_EMAIL_SIZE && EnvelopeRecipient(lower, m) != "")
            && (recovered.None? || recovered == Some(PointerOf(lower, m)))
  {
    MailboxIsTheRecipient(lower, m);
    RawKeyNamesItsIngress(m.minute, m.ingressId);
    assert number(Decimal(m.size)) == Some(m.size);
  }

  // ---------------------------------------------------------------- what the protocol needs to know

  /** An `@` in more than two characters. */
  predicate IsAddress(s: string) { Units(s) > 2 && '@' in s }

  /** `isEmergencyForwardPointer`. */
  predicate IsForwardPointer(isTime: string -> bool, p: Pointer) {
    && IsIngressId(p.ingressId) && IngressIdFromRawKey(p.rawKey) == Some(p.ingressId)
    && IsAddress(p.mailboxId) && 0 < p.rawSize <= MAX_EMAIL_SIZE
    && p.rawSha256.Some? && IsSha256Hex(p.rawSha256.value)
    && p.archivedAt != "" && isTime(p.archivedAt) && p.etag != "" && p.version != ""
  }

  function MailOf(lower: Casing, m: Message): Store.Mail {
    var recipient := EnvelopeRecipient(lower, m);
    Store.Mail(0 < m.size <= MAX_EMAIL_SIZE,
               if recipient == "" then Store.Blank else if IsAddress(recipient) then Store.Address else Store.Odd)
  }

  /** The two facts the protocol model goes by are those: a pointer can be rebuilt from the archive, and
      the handler's pointer may be forwarded. */
  lemma LimitsAreThese(lower: Casing, number: Numbers, isTime: string -> bool, m: Message)
    requires ReadsDecimals(number) && IsWellFormed(isTime, m) && m.rawSha256.Some?
    ensures PointerFromArchive(number, isTime, ArchiveOf(lower, m)) == Some(PointerOf(lower, m))
       <==> Store.Recoverable(MailOf(lower, m))
    ensures IsForwardPointer(isTime, PointerOf(lower, m)) <==> Store.Forwardable(MailOf(lower, m))
  {
    RecoveredPointerIsTheOriginal(lower, number, isTime, m);
    MailboxIsTheRecipient(lower, m);
    RawKeyNamesItsIngress(m.minute, m.ingressId);
  }

  lemma {:induction false} UnitsAtLeast(s: string)
    ensures Units(s) >= |s|
  {
    if s != "" { UnitsAtLeast(s[1..]); }
  }

  /** What is a mail address to the handler is one here. */
  lemma NormalizedIsAddress(lower: Casing, m: Message)
    ensures NormalizeMailAddress(lower, m.to).Some? ==> IsAddress(EnvelopeRecipient(lower, m))
  {
    var address := EnvelopeRecipient(lower, m);
    var at := IndexOf(address, "@", 0);
    if at.Some? { StartsWithFirst(address, "@", at.value); }
    UnitsAtLeast(address);
  }
}
