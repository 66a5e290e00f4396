/** The change feed: its cursors, and pages chained by them. */
module ChangeFeed {
  import opened Numerals
  import opened Wrappers
  import B = Base64Url

  const CURSOR_CHARS := 256
  const MAX_SAFE_INTEGER := 0x1F_FFFF_FFFF_FFFF

  // ---------------------------------------------------------------- cursors

  /** The record of a cursor, as it is stringified. */
  function CursorText(sequence: nat): string { "{\"v\":1,\"s\":" + Decimal(sequence) + "}" }

  /** The UTF-8 encoding of an ASCII text. */
  function AsciiBytes(s: string): seq<B.Byte>
    requires forall i :: 0 <= i < |s| ==> s[i] as int < 128
  {
    seq(|s|, i requires 0 <= i < |s| => var n := s[i] as int; B.Byte(n / 64, n / 16 % 4, n / 4 % 4, n % 4))
  }

  predicate IsSequence(n: int) { 0 <= n <= MAX_SAFE_INTEGER }

  lemma {:induction false} DecimalIsShort(n: nat, digits: nat, bound: nat)
    requires digits > 0 && bound == Power(digits) && n < bound
    ensures |Decimal(n)| <= digits && forall i :: 0 <= i < |Decimal(n)| ==> '0' <= Decimal(n)[i] <= '9'
    decreases digits
  {
    if n >= 10 {
      DecimalIsShort(n / 10, digits - 1, Power(digits - 1));
    }
  }

  function Power(n: nat): nat { if n == 0 then 1 else 10 * Power(n - 1) }

  lemma SafeIntegersAreShort(n: nat)
    requires IsSequence(n)
    ensures |Decimal(n)| <= 16 && forall i :: 0 <= i < |Decimal(n)| ==> '0' <= Decimal(n)[i] <= '9'
  {
    assert Power(8) == 100_000_000;
    assert Power(16) == 10_000_000_000_000_000;
    DecimalIsShort(n, 16, Power(16));
  }

  lemma CursorTextIsAscii(sequence: nat)
    requires IsSequence(sequence)
    ensures |CursorText(sequence)| <= 28
    ensures forall i :: 0 <= i < |CursorText(sequence)| ==> CursorText(sequence)[i] as int < 128
  {
    SafeIntegersAreShort(sequence);
    var head := "{\"v\":1,\"s\":";
    assert forall i :: 0 <= i < |head| ==> head[i] as int < 128;
  }

  function EncodeCursor(sequence: int): Option<string> {
    if !IsSequence(sequence) then None
    else
      CursorTextIsAscii(sequence);
      Some(B.Encode(AsciiBytes(CursorText(sequence))))
  }

  /** `parse` tells the sequence of a byte string that is the UTF-8 JSON text of a cursor
      record, with exactly the keys `v` and `s`. Of JSON only this is needed: it reads back
      what was stringified. */
  type Parser = seq<B.Byte> -> Option<int>

  ghost predicate ReadsBack(parse: Parser) {
    forall n: nat {:trigger CursorText(n)} :: IsSequence(n) ==>
      (forall i :: 0 <= i < |CursorText(n)| ==> CursorText(n)[i] as int < 128) &&
      parse(AsciiBytes(CursorText(n))) == Some(n)
  }

  function DecodeCursor(parse: Parser, value: string): Option<int> {
    if value == "" || |value| > CURSOR_CHARS || !B.IsUrlText(value) then None
    else
      match B.Decode(value)
      case None => None
      case Some(bytes) =>
        match parse(bytes)
        case None => None
        case Some(sequence) => if EncodeCursor(sequence) != Some(value) then None else Some(sequence)
  }

  /** Every safe non-negative integer round-trips through its cursor, and its cursor is the
      only string that is accepted for it. */
  lemma CursorsRoundTrip(parse: Parser, sequence: int, value: string)
    requires ReadsBack(parse) && IsSequence(sequence)
    ensures EncodeCursor(sequence).Some? && |EncodeCursor(sequence).value| <= CURSOR_CHARS
    ensures DecodeCursor(parse, value) == Some(sequence) <==> EncodeCursor(sequence) == Some(value)
  {
    CursorTextIsAscii(sequence);
    var bytes := AsciiBytes(CursorText(sequence));
    B.EncodedLength(bytes);
    B.DecodeUndoesEncode(bytes);
    if B.Encode(bytes) == "" {
      assert B.Decode("") == Some([]) by { EmptyDecodes(); }
    }
  }

  lemma EmptyDecodes()
    ensures B.Decode("") == Some([])
  {
    assert B.FromUrl("" + B.Equals(0)) == "";
  }

  lemma CursorsAreDistinct(parse: Parser, a: int, b: int)
    requires ReadsBack(parse) && IsSequence(a) && IsSequence(b) && EncodeCursor(a) == EncodeCursor(b)
    ensures a == b
  {
    CursorsRoundTrip(parse, a, EncodeCursor(a).value);
    CursorsRoundTrip(parse, b, EncodeCursor(a).value);
  }

  // ---------------------------------------------------------------- pages

  const MAX_PAGE_SIZE := 100

  /** The sequences of a page's changes, and where the next page starts. */
  datatype Page = Page(changes: seq<int>, nextCursor: string)

  /** How a cursor is decoded: what follows holds of any way, so of `DecodeCursor`. */
  type Decoder = string -> Option<int>

  predicate Rises(changes: seq<int>, from: int) {
    changes == [] || (from < changes[0] && Rises(changes[1..], changes[0]))
  }

  function LastOr(changes: seq<int>, from: int): int { if changes == [] then from else changes[|changes| - 1] }

  predicate IsAccepted(decode: Decoder, page: Page, expectedAfter: Option<int>) {
    && |page.changes| <= MAX_PAGE_SIZE
    && (expectedAfter.None? ==> page.changes == [])
    && Rises(page.changes, if expectedAfter.Some? then expectedAfter.value else 0)
    && decode(page.nextCursor).Some?
    && (page.changes != [] || expectedAfter.Some? ==>
          decode(page.nextCursor).value == LastOr(page.changes, if expectedAfter.Some? then expectedAfter.value else 0))
  }

  method ValidateChangePage(decode: Decoder, page: Page, expectedAfter: Option<int>) returns (valid: bool)
    ensures valid <==> IsAccepted(decode, page, expectedAfter)
  {
    if |page.changes| > MAX_PAGE_SIZE { return false; }
    if expectedAfter.None? && page.changes != [] { return false; }
    var previous := if expectedAfter.Some? then expectedAfter.value else 0;
    ghost var start := previous;
    assert page.changes[0..] == page.changes;
    for i := 0 to |page.changes|
      invariant Rises(page.changes, start) == Rises(page.changes[i..], previous)
    {
      assert page.changes[i..][1..] == page.changes[i + 1..];
      if page.changes[i] <= previous { return false; }
      previous := page.changes[i];
    }
    var next := decode(page.nextCursor);
    if next.None? { return false; }
    if page.changes != [] { return next.value == page.changes[|page.changes| - 1]; }
    return expectedAfter.None? || next.value == expectedAfter.value;
  }

  /** Each page is validated against the cursor of the one before. */
  predicate AreChained(decode: Decoder, pages: seq<Page>, after: Option<int>)
    decreases |pages|
  {
    pages == []
    || (IsAccepted(decode, pages[0], after) && AreChained(decode, pages[1..], decode(pages[0].nextCursor)))
  }

  function AllChanges(pages: seq<Page>): seq<int> {
    if pages == [] then [] else pages[0].changes + AllChanges(pages[1..])
  }

  lemma {:induction false} RisesAppend(a: seq<int>, b: seq<int>, from: int)
    requires Rises(a, from) && Rises(b, LastOr(a, from))
    ensures Rises(a + b, from) && LastOr(a + b, from) == LastOr(b, LastOr(a, from))
    decreases |a|
  {
    if a == [] {
      assert a + b == b;
    } else {
      assert (a + b)[1..] == a[1..] + b;
      assert LastOr(a[1..], a[0]) == LastOr(a, from);
      RisesAppend(a[1..], b, a[0]);
    }
  }

  lemma {:induction false} RisesOver(changes: seq<int>, from: int, i: nat, j: nat)
    requires Rises(changes, from) && i < j < |changes|
    ensures from < changes[i] < changes[j]
    decreases |changes|
  {
    if i > 0 {
      RisesOver(changes[1..], changes[0], i - 1, j - 1);
    } else if j > 1 {
      RisesOver(changes[1..], changes[0], 0, j - 1);
    }
  }

  /** The changes of any number of accepted pages, each asked for with the cursor of the one
      before, rise from where the feed was taken up, and the last cursor stands at the last
      change. */
  lemma {:induction false} ChainedPagesRise(decode: Decoder, pages: seq<Page>, after: int)
    requires AreChained(decode, pages, Some(after))
    ensures Rises(AllChanges(pages), after)
    ensures pages != [] ==> decode(pages[|pages| - 1].nextCursor) == Some(LastOr(AllChanges(pages), after))
    decreases |pages|
  {
    if pages != [] {
      var next := LastOr(pages[0].changes, after);
      assert decode(pages[0].nextCursor) == Some(next);
      ChainedPagesRise(decode, pages[1..], next);
      RisesAppend(pages[0].changes, AllChanges(pages[1..]), after);
    }
  }

  /** So they are strictly increasing, however many pages there are. */
  lemma ChainedPagesIncrease(parse: Parser, pages: seq<Page>, after: int)
    requires AreChained(value => DecodeCursor(parse, value), pages, Some(after))
    ensures forall i, j :: 0 <= i < j < |AllChanges(pages)| ==> after < AllChanges(pages)[i] < AllChanges(pages)[j]
  {
    ChainedPagesRise(value => DecodeCursor(parse, value), pages, after);
    forall i, j | 0 <= i < j < |AllChanges(pages)| ensures after < AllChanges(pages)[i] < AllChanges(pages)[j] {
      RisesOver(AllChanges(pages), after, i, j);
    }
  }
}
