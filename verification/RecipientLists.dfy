/** A comma-joined list of bare addresses is parsed back to that list. */
module RecipientLists {
  import opened Characters
  import opened Recipients

  predicate IsPlainChar(c: char) {
    && !IsSpace(c) && c != '"' && c != '\'' && c != '(' && c != ')' && c != '<' && c != '>'
    && c != ',' && c != ';' && c != '\\'
  }

  /** An address without a name, comments, quotes or a scheme. */
  predicate IsBare(a: string) {
    && '@' in a && (forall k :: 0 <= k < |a| ==> IsPlainChar(a[k]))
    && !(|a| >= 7 && LowerEach(a[..7]) == "mailto:")
  }

  function CommaJoined(addresses: seq<string>): string {
    if addresses == [] then ""
    else if |addresses| == 1 then addresses[0]
    else addresses[0] + "," + CommaJoined(addresses[1..])
  }

  /** Where the commas of the joined list are, if it starts at `at`. */
  function Commas(addresses: seq<string>, at: nat): seq<nat> {
    if |addresses| <= 1 then []
    else [at + |addresses[0]|] + Commas(addresses[1..], at + |addresses[0]| + 1)
  }

  lemma {:induction false} PlainRun(text: string, i: nat, j: nat)
    requires i <= j <= |text| && forall k :: i <= k < j ==> IsPlainChar(text[k])
    ensures SeparatorsFrom(text, i, OUTSIDE) == SeparatorsFrom(text, j, OUTSIDE)
    decreases j - i
  {
    if i < j {
      PlainRun(text, i + 1, j);
      assert [] + SeparatorsFrom(text, i + 1, OUTSIDE) == SeparatorsFrom(text, i + 1, OUTSIDE);
      assert !IsSpace(text[i]);
    }
  }

  predicate AreBare(addresses: seq<string>) { forall i :: 0 <= i < |addresses| ==> IsBare(addresses[i]) }

  lemma FirstAddress(text: string, addresses: seq<string>, at: nat)
    requires addresses != [] && AreBare(addresses) && at <= |text| && text[at..] == CommaJoined(addresses)
    ensures var end := at + |addresses[0]|;
            && end <= |text| && text[at..end] == addresses[0] && (forall k :: at <= k < end ==> IsPlainChar(text[k]))
            && (|addresses| == 1 ==> end == |text|)
            && (|addresses| > 1 ==> end < |text| && text[end] == ',' && text[end + 1..] == CommaJoined(addresses[1..]))
  {
    var a, end := addresses[0], at + |addresses[0]|;
    assert text[at..end] == text[at..][..|a|] == a;
    forall k | at <= k < end ensures IsPlainChar(text[k]) {
      assert text[k] == text[at..][k - at] == a[k - at];
    }
    if |addresses| > 1 {
      assert text[end] == text[at..][|a|] == ',';
      assert text[end + 1..] == text[at..][|a| + 1..];
    }
  }

  lemma {:induction false} SeparatorsAreCommas(text: string, addresses: seq<string>, at: nat)
    requires AreBare(addresses) && at <= |text| && text[at..] == CommaJoined(addresses)
    ensures SeparatorsFrom(text, at, OUTSIDE) == Commas(addresses, at)
    decreases |addresses|
  {
    if addresses != [] {
      FirstAddress(text, addresses, at);
      var end := at + |addresses[0]|;
      PlainRun(text, at, end);
      if |addresses| > 1 {
        assert AreBare(addresses[1..]);
        SeparatorsAreCommas(text, addresses[1..], end + 1);
        assert Next(OUTSIDE, ',') == OUTSIDE && Separates(OUTSIDE, ',') && !Escapes(OUTSIDE, ',');
      }
    }
  }

  lemma {:induction false} StretchesAreAddresses(text: string, addresses: seq<string>, positions: seq<nat>, i: nat)
    requires Rising(positions, |text|) && i <= |positions| && addresses != [] && AreBare(addresses)
    requires positions[i..] == Commas(addresses, StartOf(positions, i))
    requires text[StartOf(positions, i)..] == CommaJoined(addresses)
    ensures Stretches(text, positions, i) == addresses
    decreases |addresses|
  {
    var at := StartOf(positions, i);
    FirstAddress(text, addresses, at);
    if |addresses| == 1 {
      assert text[at..] == text[at..at + |addresses[0]|];
    } else {
      assert positions[i] == positions[i..][0];
      assert positions[i + 1..] == positions[i..][1..];
      assert AreBare(addresses[1..]);
      StretchesAreAddresses(text, addresses[1..], positions, i + 1);
      assert addresses == [addresses[0]] + addresses[1..];
    }
  }

  lemma {:induction false} NothingToTrim(addresses: seq<string>)
    requires AreBare(addresses)
    ensures TrimEach(addresses) == addresses && NonEmpty(addresses) == addresses
    decreases |addresses|
  {
    if addresses != [] {
      assert AreBare(addresses[1..]);
      NothingToTrim(addresses[1..]);
      TrimIsTrimmed(addresses[0]);
      assert addresses == [addresses[0]] + addresses[1..];
    }
  }

  lemma {:induction false} NothingToBlank(a: string, i: nat)
    requires i <= |a| && forall k :: 0 <= k < |a| ==> IsPlainChar(a[k])
    ensures BlankQuotes(a, i) == a[i..] && BlankComments(a, i) == a[i..]
    decreases |a| - i
  {
    if i < |a| {
      NothingToBlank(a, i + 1);
      assert a[i..] == [a[i]] + a[i + 1..];
    }
  }

  lemma {:induction false} OneWord(a: string, i: nat)
    requires i <= |a| && forall k :: 0 <= k < |a| ==> IsPlainChar(a[k])
    ensures PastWord(a, i) == |a|
    decreases |a| - i
  {
    if i < |a| { OneWord(a, i + 1); }
  }

  lemma BareIsOneWord(a: string)
    requires IsBare(a)
    ensures Matches(Visible(a), 0) == [Word(a)]
  {
    NothingToBlank(a, 0);
    assert a[0..] == a;
    assert Visible(a) == a;
    OneWord(a, 1);
    assert IsPlainChar(a[0]) && a[0..|a|] == a;
    assert Matches(a, |a|) == [];
  }

  lemma BareIsAnAddress(a: string)
    requires IsBare(a)
    ensures FoundIn(Word(a)) == Address(a)
  {
    assert IsPlainChar(a[0]) && IsPlainChar(a[|a| - 1]);
    TrimIsTrimmed(a);
    assert WithoutMailto(a) == a;
  }

  lemma OnlyAddress(part: string, m: Match, address: string)
    requires Matches(Visible(part), 0) == [m] && FoundIn(m) == Address(address)
    ensures RecipientsOf(part) == [address]
  {
    NextMatch([m], 0, Address(address));
    assert [m][0..] == [m] && [m][1..] == [];
    assert [address] + [] == [address] && AddressIn(Address(address)) == [address];
    assert Addresses([m]) == [address];
    assert OtherWords([m]) == [];
  }

  lemma BareIsItsOwnRecipient(a: string)
    requires IsBare(a)
    ensures RecipientsOf(a) == [a]
  {
    BareIsOneWord(a);
    BareIsAnAddress(a);
    OnlyAddress(a, Word(a), a);
  }

  lemma {:induction false} BareAreTheirOwnRecipients(addresses: seq<string>)
    requires AreBare(addresses)
    ensures RecipientsOfAll(addresses) == addresses
    decreases |addresses|
  {
    if addresses != [] {
      assert AreBare(addresses[1..]);
      BareAreTheirOwnRecipients(addresses[1..]);
      BareIsItsOwnRecipient(addresses[0]);
      assert addresses == [addresses[0]] + addresses[1..];
    }
  }

  lemma NothingIsSplit()
    ensures Split("") == []
  {
    SeparatorsRise("", 0, OUTSIDE);
    var stretches := Stretches("", [], 0);
    assert stretches == [""] && stretches[1..] == [];
    TrimIsTrimmed("");
    assert TrimEach(stretches) == [""];
    assert NonEmpty([""]) == [];
  }

  /** Joining bare addresses with commas and parsing the text gives the addresses back. */
  lemma JoinedListIsParsedBack(addresses: seq<string>)
    requires AreBare(addresses)
    ensures Parse(CommaJoined(addresses)) == addresses
  {
    var text := CommaJoined(addresses);
    assert text[0..] == text;
    SeparatorsRise(text, 0, OUTSIDE);
    SeparatorsAreCommas(text, addresses, 0);
    if addresses == [] {
      NothingIsSplit();
    } else {
      var positions := SeparatorsFrom(text, 0, OUTSIDE);
      assert positions[0..] == positions;
      StretchesAreAddresses(text, addresses, positions, 0);
      NothingToTrim(addresses);
    }
    BareAreTheirOwnRecipients(addresses);
  }
}
