/** The order of mail addresses on People pages: code point order, which is the order of their
    UTF-8 bytes (sections 1 and 3 of RFC 3629). */
module AddressOrder {
  import opened Wrappers

  function Sign(n: int): int { if n < 0 then -1 else if n > 0 then 1 else 0 }

  function Order(a: int, b: int): int { Sign(a - b) }

  /** The order of two texts by their first difference, a proper prefix coming first. */
  function Compare(left: string, right: string): int {
    if left == "" then (if right == "" then 0 else -1)
    else if right == "" then 1
    else if left[0] != right[0] then Order(left[0] as int, right[0] as int)
    else Compare(left[1..], right[1..])
  }

  method CompareCanonicalMailAddresses(left: string, right: string) returns (order: int)
    ensures order == Compare(left, right)
  {
    var sharedLength := if |left| < |right| then |left| else |right|;
    for index := 0 to sharedLength
      invariant Compare(left, right) == Compare(left[index..], right[index..])
    {
      var difference := left[index] as int - right[index] as int;
      assert left[index..][1..] == left[index + 1..] && right[index..][1..] == right[index + 1..];
      if difference != 0 { return if difference < 0 then -1 else 1; }
    }
    return if |left| == |right| then 0 else if |left| < |right| then -1 else 1;
  }

  // ---------------------------------------------------------------- UTF-8

  type Byte = n: int | 0 <= n < 256

  /** The encoding of one scalar value. */
  function Utf8(c: char): seq<Byte> {
    var n := c as int;
    if n < 0x80 then [n]
    else if n < 0x800 then [0xC0 + n / 64, 0x80 + n % 64]
    else if n < 0x10000 then [0xE0 + n / 4096, 0x80 + n / 64 % 64, 0x80 + n % 64]
    else [0xF0 + n / 262144, 0x80 + n / 4096 % 64, 0x80 + n / 64 % 64, 0x80 + n % 64]
  }

  function Utf8Encode(s: string): seq<Byte> {
    if s == "" then [] else Utf8(s[0]) + Utf8Encode(s[1..])
  }

  /** The order of byte strings: `memcmp`, a proper prefix coming first. */
  function CompareBytes(left: seq<Byte>, right: seq<Byte>): int {
    if left == [] then (if right == [] then 0 else -1)
    else if right == [] then 1
    else if left[0] != right[0] then Order(left[0], right[0])
    else CompareBytes(left[1..], right[1..])
  }

  /** What the bytes compare to is settled by the first that differ. */
  lemma {:induction false} FirstDifference(left: seq<Byte>, right: seq<Byte>, k: nat)
    requires k < |left| && k < |right| && left[..k] == right[..k] && left[k] != right[k]
    ensures CompareBytes(left, right) == Order(left[k], right[k])
  {
    if k > 0 {
      assert left[0] == left[..k][0] == right[..k][0] == right[0];
      assert left[1..][..k - 1] == left[..k][1..] && right[1..][..k - 1] == right[..k][1..];
      FirstDifference(left[1..], right[1..], k - 1);
    }
  }

  lemma {:induction false} SamePrefix(prefix: seq<Byte>, left: seq<Byte>, right: seq<Byte>)
    ensures CompareBytes(prefix + left, prefix + right) == CompareBytes(left, right)
  {
    if prefix == [] {
      assert prefix + left == left && prefix + right == right;
    } else {
      assert (prefix + left)[1..] == prefix[1..] + left && (prefix + right)[1..] == prefix[1..] + right;
      SamePrefix(prefix[1..], left, right);
    }
  }

  /** A number is made up of its base-64 digits. */
  lemma Parts(n: nat)
    ensures n == n / 64 * 64 + n % 64
    ensures n == n / 4096 * 4096 + n / 64 % 64 * 64 + n % 64
    ensures n == n / 262144 * 262144 + n / 4096 % 64 * 4096 + n / 64 % 64 * 64 + n % 64
  {
    assert n / 64 / 64 == n / 4096;
    assert n / 4096 / 64 == n / 262144;
  }

  /** The encodings first differ at `k`, in the direction of the values. */
  predicate DifferAt(c: char, d: char, k: nat) {
    && k < |Utf8(c)| && k < |Utf8(d)| && Utf8(c)[..k] == Utf8(d)[..k]
    && Utf8(c)[k] != Utf8(d)[k] && Order(Utf8(c)[k], Utf8(d)[k]) == Order(c as int, d as int)
  }

  lemma ShortDiffer(c: char, d: char) returns (k: nat)
    requires c != d && c as int < 0x800 && d as int < 0x800
    ensures DifferAt(c, d, k)
  {
    Parts(c as int);
    Parts(d as int);
    k := if Utf8(c)[0] != Utf8(d)[0] then 0 else 1;
  }

  lemma ThreeDiffer(c: char, d: char) returns (k: nat)
    requires c != d && 0x800 <= c as int < 0x10000 && 0x800 <= d as int < 0x10000
    ensures DifferAt(c, d, k)
  {
    var m, n := c as int, d as int;
    Parts(m);
    Parts(n);
    k := if m / 4096 != n / 4096 then 0 else if m / 64 % 64 != n / 64 % 64 then 1 else 2;
  }

  lemma FourDiffer(c: char, d: char) returns (k: nat)
    requires c != d && 0x10000 <= c as int && 0x10000 <= d as int
    ensures DifferAt(c, d, k)
  {
    var m, n := c as int, d as int;
    Parts(m);
    Parts(n);
    k := if m / 262144 != n / 262144 then 0 else if m / 4096 % 64 != n / 4096 % 64 then 1
         else if m / 64 % 64 != n / 64 % 64 then 2 else 3;
  }

  /** Encodings of different widths differ in the first byte. */
  lemma WidthsDiffer(c: char, d: char)
    requires |Utf8(c)| != |Utf8(d)| && !(c as int < 0x800 && d as int < 0x800)
    ensures DifferAt(c, d, 0)
  {
  }

  /** Where the encodings of two different scalar values first differ, the smaller value has
      the smaller byte. */
  lemma WhereTheyDiffer(c: char, d: char) returns (k: nat)
    requires c != d
    ensures DifferAt(c, d, k)
  {
    if c as int < 0x800 && d as int < 0x800 {
      k := ShortDiffer(c, d);
    } else if |Utf8(c)| != |Utf8(d)| {
      WidthsDiffer(c, d);
      k := 0;
    } else if c as int < 0x10000 {
      k := ThreeDiffer(c, d);
    } else {
      k := FourDiffer(c, d);
    }
  }

  /** Comparing addresses by code points is comparing their UTF-8 bytes. */
  lemma {:induction false} CodePointOrderIsByteOrder(left: string, right: string)
    ensures Compare(left, right) == CompareBytes(Utf8Encode(left), Utf8Encode(right))
    decreases |left|
  {
    if left != "" && right != "" {
      if left[0] == right[0] {
        CodePointOrderIsByteOrder(left[1..], right[1..]);
        SamePrefix(Utf8(left[0]), Utf8Encode(left[1..]), Utf8Encode(right[1..]));
      } else {
        var k := WhereTheyDiffer(left[0], right[0]);
        var l, r := Utf8Encode(left), Utf8Encode(right);
        assert l[..k] == Utf8(left[0])[..k] && r[..k] == Utf8(right[0])[..k];
        FirstDifference(l, r, k);
      }
    }
  }

  // ---------------------------------------------------------------- a total order

  lemma {:induction false} CompareIsAntisymmetric(a: string, b: string)
    ensures Compare(a, b) == -Compare(b, a)
    ensures Compare(a, b) == 0 <==> a == b
    decreases |a|
  {
    if a != "" && b != "" {
      CompareIsAntisymmetric(a[1..], b[1..]);
      if a[0] == b[0] && a[1..] == b[1..] { assert a == [a[0]] + a[1..] && b == [b[0]] + b[1..]; }
    }
  }

  lemma {:induction false} CompareIsTransitive(a: string, b: string, c: string)
    requires Compare(a, b) <= 0 && Compare(b, c) <= 0
    ensures Compare(a, c) <= 0
    ensures Compare(a, b) < 0 || Compare(b, c) < 0 ==> Compare(a, c) < 0
    decreases |a|
  {
    if a != "" && b != "" && c != "" && a[0] == b[0] == c[0] {
      CompareIsTransitive(a[1..], b[1..], c[1..]);
    }
  }

  // ---------------------------------------------------------------- pages

  datatype Sort = ByAddress | Recent | Frequent

  /** `lastInteraction` is an instant. */
  datatype Summary = Summary(
    id: string,
    address: string,
    domain: string,
    lastInteraction: int,
    received: nat,
    sent: nat)

  function CompareSummaries(left: Summary, right: Summary, sort: Sort): int {
    var frequency := (right.received + right.sent) - (left.received + left.sent);
    var recency := Order(right.lastInteraction, left.lastInteraction);
    if sort.ByAddress? then Compare(left.address, right.address)
    else if sort.Frequent? && frequency != 0 then frequency
    else if recency != 0 then recency
    else Compare(left.address, right.address)
  }

  lemma SummariesAreOrdered(a: Summary, b: Summary, c: Summary, sort: Sort)
    requires CompareSummaries(a, b, sort) < 0 && CompareSummaries(b, c, sort) < 0
    ensures CompareSummaries(a, c, sort) < 0
  {
    if Compare(a.address, b.address) <= 0 && Compare(b.address, c.address) <= 0 {
      CompareIsTransitive(a.address, b.address, c.address);
    }
  }

  /** The ids and addresses of the people before `n`. */
  function Identities(people: seq<Summary>, n: nat): set<string>
    requires n <= |people|
  {
    if n == 0 then {} else Identities(people, n - 1) + {people[n - 1].id, people[n - 1].address}
  }

  /** Nobody before is the same person, and the neighbour before comes first. */
  predicate FollowsAt(people: seq<Summary>, sort: Sort, i: nat)
    requires i < |people|
  {
    && people[i].id !in Identities(people, i) && people[i].address !in Identities(people, i)
    && (i > 0 ==> CompareSummaries(people[i - 1], people[i], sort) <= 0)
  }

  /** No person twice, and neighbours in order. */
  predicate InOrder(people: seq<Summary>, sort: Sort) {
    forall i :: 0 <= i < |people| ==> FollowsAt(people, sort, i)
  }

  /** What follows the last `@`, or everything if there is none. */
  function DomainOf(address: string): string {
    if address == "" || address[|address| - 1] == '@' then ""
    else DomainOf(address[..|address| - 1]) + [address[|address| - 1]]
  }

  predicate HasDomain(person: Summary) { person.domain == DomainOf(person.address) }

  /** Where the next page starts; each sort order uses part of it. */
  datatype Cursor = Cursor(address: string, lastInteraction: int, messageCount: nat)

  /** How a cursor is decoded for the query, if it is one for it. */
  type Decoder = string -> Option<Cursor>

  datatype Page = Page(people: seq<Summary>, nextCursor: Option<string>)

  /** The cursor names this person. */
  predicate Names(cursor: Cursor, person: Summary, sort: Sort) {
    && cursor.address == person.address
    && (!sort.ByAddress? ==> cursor.lastInteraction == person.lastInteraction)
    && (sort.Frequent? ==> cursor.messageCount == person.received + person.sent)
  }

  /** There is a next page only after a full one, and its cursor names the last person of this one. */
  predicate EndsRightly(decode: Decoder, page: Page, sort: Sort, limit: nat) {
    page.nextCursor.Some? ==>
      && |page.people| == limit && page.people != []
      && decode(page.nextCursor.value).Some?
      && Names(decode(page.nextCursor.value).value, page.people[|page.people| - 1], sort)
  }

  predicate IsAccepted(decode: Decoder, page: Page, sort: Sort, limit: nat) {
    && |page.people| <= limit && InOrder(page.people, sort)
    && (forall i :: 0 <= i < |page.people| ==> HasDomain(page.people[i]))
    && EndsRightly(decode, page, sort, limit)
  }

  method ValidatePage(decode: Decoder, page: Page, sort: Sort, limit: nat) returns (valid: bool)
    ensures valid <==> IsAccepted(decode, page, sort, limit)
  {
    var people := page.people;
    if |people| > limit { return false; }
    var identities: set<string> := {};
    for index := 0 to |people|
      invariant identities == Identities(people, index)
      invariant forall i :: 0 <= i < index ==> HasDomain(people[i]) && FollowsAt(people, sort, i)
    {
      var person := people[index];
      assert InOrder(people, sort) ==> FollowsAt(people, sort, index);
      if person.domain != DomainOf(person.address) { return false; }
      if person.id in identities || person.address in identities { return false; }
      identities := identities + {person.id, person.address};
      if index > 0 && CompareSummaries(people[index - 1], person, sort) > 0 { return false; }
    }
    valid := CheckEnd(decode, page, sort, limit);
  }

  method CheckEnd(decode: Decoder, page: Page, sort: Sort, limit: nat) returns (valid: bool)
    ensures valid <==> EndsRightly(decode, page, sort, limit)
  {
    if page.nextCursor.None? { return true; }
    if |page.people| != limit || page.people == [] { return false; }
    var cursor := decode(page.nextCursor.value);
    return cursor.Some? && Names(cursor.value, page.people[|page.people| - 1], sort);
  }

  lemma {:induction false} KnownIdentities(people: seq<Summary>, i: nat, n: nat)
    requires i < n <= |people|
    ensures people[i].address in Identities(people, n) && people[i].id in Identities(people, n)
  {
    if i < n - 1 { KnownIdentities(people, i, n - 1); }
  }

  lemma NeighboursAscend(people: seq<Summary>, sort: Sort, j: nat)
    requires InOrder(people, sort) && 0 < j < |people|
    ensures CompareSummaries(people[j - 1], people[j], sort) < 0
  {
    assert FollowsAt(people, sort, j);
    KnownIdentities(people, j - 1, j);
    CompareIsAntisymmetric(people[j - 1].address, people[j].address);
  }

  predicate StepsUp(people: seq<Summary>, sort: Sort) {
    forall j :: 0 < j < |people| ==> CompareSummaries(people[j - 1], people[j], sort) < 0
  }

  lemma {:induction false} StepsAscend(people: seq<Summary>, sort: Sort, i: nat, j: nat)
    requires StepsUp(people, sort) && i < j < |people|
    ensures CompareSummaries(people[i], people[j], sort) < 0
    decreases j - i
  {
    if i < j - 1 {
      StepsAscend(people, sort, i, j - 1);
      SummariesAreOrdered(people[i], people[j - 1], people[j], sort);
    }
  }

  lemma PeopleAscend(people: seq<Summary>, sort: Sort, i: nat, j: nat)
    requires InOrder(people, sort) && i < j < |people|
    ensures CompareSummaries(people[i], people[j], sort) < 0
  {
    forall j | 0 < j < |people| ensures CompareSummaries(people[j - 1], people[j], sort) < 0 {
      NeighboursAscend(people, sort, j);
    }
    StepsAscend(people, sort, i, j);
  }

  /** An accepted page is strictly ascending in its sort order, whichever it is. */
  lemma AcceptedPageAscends(decode: Decoder, page: Page, sort: Sort, limit: nat)
    requires IsAccepted(decode, page, sort, limit)
    ensures forall i, j :: 0 <= i < j < |page.people| ==> CompareSummaries(page.people[i], page.people[j], sort) < 0
  {
    forall i, j | 0 <= i < j < |page.people|
      ensures CompareSummaries(page.people[i], page.people[j], sort) < 0
    {
      PeopleAscend(page.people, sort, i, j);
    }
  }

  /** Where a person stands with respect to a cursor. */
  function ToCursor(person: Summary, cursor: Cursor, sort: Sort): int {
    var frequency := cursor.messageCount - (person.received + person.sent);
    var recency := Order(cursor.lastInteraction, person.lastInteraction);
    if sort.ByAddress? then Compare(person.address, cursor.address)
    else if sort.Frequent? && frequency != 0 then frequency
    else if recency != 0 then recency
    else Compare(person.address, cursor.address)
  }

  lemma NamedComparesAlike(person: Summary, cursor: Cursor, named: Summary, sort: Sort)
    requires Names(cursor, named, sort)
    ensures ToCursor(person, cursor, sort) == CompareSummaries(person, named, sort)
  {
  }

  /** The next page starts behind everybody: all people of the page but the last come before its
      cursor, and the last one is where it points. */
  lemma CursorEndsThePage(decode: Decoder, page: Page, sort: Sort, limit: nat, i: nat)
    requires IsAccepted(decode, page, sort, limit) && page.nextCursor.Some? && i < |page.people|
    ensures decode(page.nextCursor.value).Some?
    ensures var order := ToCursor(page.people[i], decode(page.nextCursor.value).value, sort);
            order <= 0 && (order == 0 <==> i == |page.people| - 1)
  {
    var people := page.people;
    var last := people[|people| - 1];
    NamedComparesAlike(people[i], decode(page.nextCursor.value).value, last, sort);
    LastComesLast(people, sort, i);
  }

  lemma LastComesLast(people: seq<Summary>, sort: Sort, i: nat)
    requires InOrder(people, sort) && i < |people|
    ensures var order := CompareSummaries(people[i], people[|people| - 1], sort);
            order <= 0 && (order == 0 <==> i == |people| - 1)
  {
    if i < |people| - 1 { PeopleAscend(people, sort, i, |people| - 1); } else { ComparesToItself(people[i], sort); }
  }

  lemma ComparesToItself(person: Summary, sort: Sort)
    ensures CompareSummaries(person, person, sort) == 0
  {
    CompareIsAntisymmetric(person.address, person.address);
  }
}
