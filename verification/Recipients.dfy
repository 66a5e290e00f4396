/** Recipient text as people type, paste and store it, and the recipients a send carries. */
module Recipients {
  import opened Wrappers
  import opened Characters

  // ---------------------------------------------------------------- separators

  /** Where the reader stands: inside a quoted name, an address in brackets, or comments. */
  datatype State = State(quoted: bool, bracketed: bool, depth: nat)

  const OUTSIDE := State(false, false, 0)

  predicate IsSeparator(c: char) { c == ',' || c == ';' || c == '\r' || c == '\n' }

  predicate Escapes(s: State, c: char) { (s.quoted || s.depth > 0) && c == '\\' }

  function Next(s: State, c: char): State {
    if s.quoted then s.(quoted := c != '"')
    else if s.depth > 0 then s.(depth := if c == '(' then s.depth + 1 else if c == ')' then s.depth - 1 else s.depth)
    else if s.bracketed then s.(bracketed := c != '>')
    else if c == '"' then s.(quoted := true)
    else if c == '(' then s.(depth := 1)
    else if c == '<' then s.(bracketed := true)
    else s
  }

  predicate Separates(s: State, c: char) { !s.quoted && s.depth == 0 && !s.bracketed && IsSeparator(c) }

  /** The separators from `i` on. */
  function SeparatorsFrom(text: string, i: nat, s: State): seq<nat>
    decreases |text| - i
  {
    if i >= |text| then []
    else if Escapes(s, text[i]) then SeparatorsFrom(text, i + 2, s)
    else (if Separates(s, text[i]) then [i] else []) + SeparatorsFrom(text, i + 1, Next(s, text[i]))
  }

  method RecipientSeparatorPositions(text: string) returns (positions: seq<nat>)
    ensures positions == SeparatorsFrom(text, 0, OUTSIDE)
  {
    positions := [];
    var quoted, bracketed := false, false;
    var commentDepth := 0;
    var index := 0;
    while index < |text|
      invariant 0 <= index && 0 <= commentDepth
      invariant SeparatorsFrom(text, 0, OUTSIDE) == positions
        + SeparatorsFrom(text, index, State(quoted, bracketed, commentDepth))
      decreases |text| - index
    {
      var character := text[index];
      ghost var s := State(quoted, bracketed, commentDepth);
      NextSeparator(text, index, s, positions);
      if (quoted || commentDepth > 0) && character == '\\' {
        index := index + 1;
      } else if quoted {
        if character == '"' { quoted := false; }
      } else if commentDepth > 0 {
        if character == '(' { commentDepth := commentDepth + 1; }
        else if character == ')' { commentDepth := commentDepth - 1; }
      } else if bracketed {
        if character == '>' { bracketed := false; }
      } else if character == '"' {
        quoted := true;
      } else if character == '(' {
        commentDepth := 1;
      } else if character == '<' {
        bracketed := true;
      } else if IsSeparator(character) {
        positions := positions + [index];
      }
      assert Escapes(s, character) || State(quoted, bracketed, commentDepth) == Next(s, character);
      index := index + 1;
    }
  }

  lemma NextSeparator(text: string, i: nat, s: State, before: seq<nat>)
    requires i < |text|
    ensures before + SeparatorsFrom(text, i, s)
         == if Escapes(s, text[i]) then before + SeparatorsFrom(text, i + 2, s)
            else (if Separates(s, text[i]) then before + [i] else before)
                  + SeparatorsFrom(text, i + 1, Next(s, text[i]))
  {
    if !Escapes(s, text[i]) {
      Regroup(before, if Separates(s, text[i]) then [i] else [], SeparatorsFrom(text, i + 1, Next(s, text[i])));
      assert before + [] == before;
    }
  }

  lemma Regroup<T>(a: seq<T>, b: seq<T>, c: seq<T>)
    ensures a + (b + c) == a + b + c
  {
  }

  /** Positions within a text, in order. */
  predicate Rising(positions: seq<nat>, end: nat) {
    && (forall k :: 0 <= k < |positions| ==> positions[k] < end)
    && (forall j, k :: 0 <= j < k < |positions| ==> positions[j] < positions[k])
  }

  lemma {:induction false} SeparatorsRise(text: string, i: nat, s: State)
    ensures Rising(SeparatorsFrom(text, i, s), |text|)
    ensures forall p :: p in SeparatorsFrom(text, i, s) ==> i <= p < |text| && IsSeparator(text[p])
    decreases |text| - i
  {
    if i < |text| {
      if Escapes(s, text[i]) {
        SeparatorsRise(text, i + 2, s);
      } else {
        SeparatorsRise(text, i + 1, Next(s, text[i]));
        var rest := SeparatorsFrom(text, i + 1, Next(s, text[i]));
        assert forall k :: 0 <= k < |rest| ==> rest[k] in rest;
      }
    }
  }

  // ---------------------------------------------------------------- parts

  /** Where the `i`th stretch starts. */
  function StartOf(positions: seq<nat>, i: nat): nat
    requires i <= |positions|
  {
    if i == 0 then 0 else positions[i - 1] + 1
  }

  /** The stretches between separators, untrimmed, from the `i`th on. */
  function Stretches(text: string, positions: seq<nat>, i: nat): seq<string>
    requires Rising(positions, |text|) && i <= |positions|
    decreases |positions| - i
  {
    if i == |positions| then [text[StartOf(positions, i)..]]
    else [text[StartOf(positions, i)..positions[i]]] + Stretches(text, positions, i + 1)
  }

  /** The stretches with the separators put back between them. */
  function Rebuilt(text: string, stretches: seq<string>, positions: seq<nat>, i: nat): string
    requires Rising(positions, |text|) && i <= |positions| && |stretches| == |positions| - i + 1
    decreases |positions| - i
  {
    if i == |positions| then stretches[0]
    else stretches[0] + [text[positions[i]]] + Rebuilt(text, stretches[1..], positions, i + 1)
  }

  lemma {:induction false} PartsRebuildFrom(text: string, positions: seq<nat>, i: nat)
    requires Rising(positions, |text|) && i <= |positions|
    ensures |Stretches(text, positions, i)| == |positions| - i + 1
    ensures Rebuilt(text, Stretches(text, positions, i), positions, i) == text[StartOf(positions, i)..]
    decreases |positions| - i
  {
    if i < |positions| {
      PartsRebuildFrom(text, positions, i + 1);
      RebuiltStep(text, text[StartOf(positions, i)..positions[i]], Stretches(text, positions, i + 1), positions, i);
      OneSeparator(text, StartOf(positions, i), positions[i]);
    }
  }

  lemma RebuiltStep(text: string, first: string, rest: seq<string>, positions: seq<nat>, i: nat)
    requires Rising(positions, |text|) && i < |positions| && |rest| == |positions| - i
    ensures Rebuilt(text, [first] + rest, positions, i)
         == first + [text[positions[i]]] + Rebuilt(text, rest, positions, i + 1)
  {
    assert ([first] + rest)[1..] == rest;
  }

  lemma OneSeparator(text: string, start: nat, p: nat)
    requires start <= p < |text|
    ensures text[start..p] + [text[p]] + text[p + 1..] == text[start..]
  {
  }

  /** The untrimmed parts and the separators between them are the whole text. */
  lemma PartsRebuildTheText(text: string)
    ensures var positions := SeparatorsFrom(text, 0, OUTSIDE);
            && Rising(positions, |text|)
            && |Stretches(text, positions, 0)| == |positions| + 1
            && Rebuilt(text, Stretches(text, positions, 0), positions, 0) == text
  {
    SeparatorsRise(text, 0, OUTSIDE);
    PartsRebuildFrom(text, SeparatorsFrom(text, 0, OUTSIDE), 0);
    assert text[0..] == text;
  }

  function TrimEach(stretches: seq<string>): seq<string> {
    if stretches == [] then [] else [Trim(stretches[0])] + TrimEach(stretches[1..])
  }

  function NonEmpty(parts: seq<string>): seq<string> {
    if parts == [] then [] else (if parts[0] == "" then [] else [parts[0]]) + NonEmpty(parts[1..])
  }

  function Split(text: string): seq<string> {
    SeparatorsRise(text, 0, OUTSIDE);
    NonEmpty(TrimEach(Stretches(text, SeparatorsFrom(text, 0, OUTSIDE), 0)))
  }

  lemma NextStretch(text: string, positions: seq<nat>, i: nat, before: seq<string>)
    requires Rising(positions, |text|) && i <= |positions|
    ensures before + TrimEach(Stretches(text, positions, i))
         == if i == |positions| then before + [Trim(text[StartOf(positions, i)..])]
            else before + [Trim(text[StartOf(positions, i)..positions[i]])]
                 + TrimEach(Stretches(text, positions, i + 1))
  {
    if i == |positions| {
      assert [text[StartOf(positions, i)..]][1..] == [];
    } else {
      var first, rest := text[StartOf(positions, i)..positions[i]], Stretches(text, positions, i + 1);
      assert ([first] + rest)[1..] == rest;
      Regroup(before, [Trim(first)], TrimEach(rest));
    }
  }

  method SplitAddressList(text: string) returns (parts: seq<string>)
    ensures parts == Split(text)
  {
    SeparatorsRise(text, 0, OUTSIDE);
    var positions := RecipientSeparatorPositions(text);
    parts := [];
    var start: nat := 0;
    for i := 0 to |positions|
      invariant start == StartOf(positions, i)
      invariant TrimEach(Stretches(text, positions, 0)) == parts + TrimEach(Stretches(text, positions, i))
    {
      NextStretch(text, positions, i, parts);
      parts := parts + [Trim(text[start..positions[i]])];
      start := positions[i] + 1;
    }
    NextStretch(text, positions, |positions|, parts);
    parts := NonEmpty(parts + [Trim(text[start..])]);
  }

  // ---------------------------------------------------------------- quoted names and comments

  predicate IsLineEnd(c: char) { c == '\n' || c == '\r' || c as int == 0x2028 || c as int == 0x2029 }

  /** Past the quote that closes, reading from `i` inside a quoted name. */
  function QuoteEnd(s: string, i: nat): (r: Option<nat>)
    ensures r.Some? ==> i < r.value <= |s|
    decreases |s| - i
  {
    if i >= |s| then None
    else if s[i] == '"' then Some(i + 1)
    else if s[i] == '\\' then (if i + 1 < |s| && !IsLineEnd(s[i + 1]) then QuoteEnd(s, i + 2) else None)
    else QuoteEnd(s, i + 1)
  }

  /** Past the parenthesis that closes an innermost comment, reading from `i` inside it. */
  function CommentEnd(s: string, i: nat): (r: Option<nat>)
    ensures r.Some? ==> i < r.value <= |s|
    decreases |s| - i
  {
    if i >= |s| || s[i] == '(' then None
    else if s[i] == ')' then Some(i + 1)
    else if s[i] == '\\' then (if i + 1 < |s| && !IsLineEnd(s[i + 1]) then CommentEnd(s, i + 2) else None)
    else CommentEnd(s, i + 1)
  }

  function Blanks(n: nat): string { if n == 0 then "" else " " + Blanks(n - 1) }

  function BlankQuotes(s: string, i: nat): string
    requires i <= |s|
    decreases |s| - i
  {
    if i == |s| then ""
    else if s[i] == '"' && QuoteEnd(s, i + 1).Some? then
      Blanks(QuoteEnd(s, i + 1).value - i) + BlankQuotes(s, QuoteEnd(s, i + 1).value)
    else [s[i]] + BlankQuotes(s, i + 1)
  }

  /** Every innermost comment is blanked out. */
  function BlankComments(s: string, i: nat): string
    requires i <= |s|
    decreases |s| - i
  {
    if i == |s| then ""
    else if s[i] == '(' && CommentEnd(s, i + 1).Some? then
      Blanks(CommentEnd(s, i + 1).value - i) + BlankComments(s, CommentEnd(s, i + 1).value)
    else [s[i]] + BlankComments(s, i + 1)
  }

  function Opens(s: string): nat { if s == "" then 0 else (if s[0] == '(' then 1 else 0) + Opens(s[1..]) }

  /** The same length, and no character but blanks in new places. */
  predicate OnlyBlanked(s: string, t: string) {
    |s| == |t| && forall k :: 0 <= k < |s| ==> t[k] == s[k] || t[k] == ' '
  }

  lemma {:induction false} BlanksAre(n: nat)
    ensures |Blanks(n)| == n && (forall k :: 0 <= k < n ==> Blanks(n)[k] == ' ') && Opens(Blanks(n)) == 0
  {
    if n > 0 {
      BlanksAre(n - 1);
      assert Blanks(n)[1..] == Blanks(n - 1);
    }
  }

  lemma {:induction false} OpensAdd(a: string, b: string)
    ensures Opens(a + b) == Opens(a) + Opens(b)
  {
    if a == "" {
      assert a + b == b;
    } else {
      assert (a + b)[1..] == a[1..] + b;
      OpensAdd(a[1..], b);
    }
  }

  lemma {:induction false} BlankQuotesOnlyBlanks(s: string, i: nat)
    requires i <= |s|
    ensures OnlyBlanked(s[i..], BlankQuotes(s, i))
    decreases |s| - i
  {
    if i < |s| {
      if s[i] == '"' && QuoteEnd(s, i + 1).Some? {
        var end := QuoteEnd(s, i + 1).value;
        BlanksAre(end - i);
        BlankQuotesOnlyBlanks(s, end);
      } else {
        BlankQuotesOnlyBlanks(s, i + 1);
      }
    }
  }

  lemma {:induction false} BlankCommentsOnlyBlanks(s: string, i: nat)
    requires i <= |s|
    ensures OnlyBlanked(s[i..], BlankComments(s, i))
    decreases |s| - i
  {
    if i < |s| {
      if s[i] == '(' && CommentEnd(s, i + 1).Some? {
        var end := CommentEnd(s, i + 1).value;
        BlanksAre(end - i);
        BlankCommentsOnlyBlanks(s, end);
      } else {
        BlankCommentsOnlyBlanks(s, i + 1);
      }
    }
  }

  lemma OpensSplit(s: string, i: nat, end: nat)
    requires i < end <= |s|
    ensures Opens(s[i..]) == Opens(s[i..end]) + Opens(s[end..])
    ensures s[i] == '(' ==> Opens(s[i..end]) > 0
  {
    OpensAdd(s[i..end], s[end..]);
    assert s[i..] == s[i..end] + s[end..] && s[i..end][0] == s[i];
  }

  /** A pass over the comments that changes anything takes a parenthesis away. */
  lemma {:induction false} BlankCommentsDescends(s: string, i: nat)
    requires i <= |s|
    ensures BlankComments(s, i) == s[i..] || Opens(BlankComments(s, i)) < Opens(s[i..])
    ensures Opens(BlankComments(s, i)) <= Opens(s[i..])
    decreases |s| - i
  {
    if i < |s| {
      if s[i] == '(' && CommentEnd(s, i + 1).Some? {
        var end := CommentEnd(s, i + 1).value;
        BlanksAre(end - i);
        BlankCommentsDescends(s, end);
        OpensAdd(Blanks(end - i), BlankComments(s, end));
        OpensSplit(s, i, end);
      } else {
        BlankCommentsDescends(s, i + 1);
        OpensAdd([s[i]], BlankComments(s, i + 1));
        OpensSplit(s, i, i + 1);
        FirstOfRest(s, i);
      }
    }
  }

  lemma FirstOfRest(s: string, i: nat)
    requires i < |s|
    ensures s[i..] == [s[i]] + s[i + 1..] && s[i..i + 1] == [s[i]]
  {
  }

  /** Blanking comments until nothing changes. */
  function BlankAll(s: string): string
    decreases Opens(s)
  {
    BlankCommentsDescends(s, 0);
    assert s[0..] == s;
    if BlankComments(s, 0) == s then s else BlankAll(BlankComments(s, 0))
  }

  function Visible(part: string): string { BlankAll(BlankQuotes(part, 0)) }

  method WithoutNamesAndComments(part: string) returns (visible: string)
    ensures visible == Visible(part)
    ensures OnlyBlanked(part, visible) && BlankComments(visible, 0) == visible
  {
    visible := BlankQuotes(part, 0);
    BlankQuotesOnlyBlanks(part, 0);
    assert part[0..] == part;
    var previous := "";
    while previous != visible
      invariant OnlyBlanked(part, visible) && BlankAll(visible) == Visible(part)
      invariant previous == visible ==> BlankComments(visible, 0) == visible
      decreases Opens(visible), if previous == visible then 0 else 1
    {
      previous := visible;
      BlankCommentsOnlyBlanks(visible, 0);
      BlankCommentsDescends(visible, 0);
      assert visible[0..] == visible;
      visible := BlankComments(visible, 0);
    }
  }

  // ---------------------------------------------------------------- words and addresses

  datatype Match = Bracketed(text: string) | Word(text: string)

  predicate IsWordChar(c: char) { !IsSpace(c) && c != '<' && c != '>' }

  /** Past the characters from `i` on that stand neither for `<` nor for `>`. */
  function PastPlain(s: string, i: nat): (r: nat)
    requires i <= |s|
    ensures i <= r <= |s| && (r < |s| ==> s[r] == '<' || s[r] == '>')
    decreases |s| - i
  {
    if i < |s| && s[i] != '<' && s[i] != '>' then PastPlain(s, i + 1) else i
  }

  function PastWord(s: string, i: nat): (r: nat)
    requires i <= |s|
    ensures i <= r <= |s| && forall k :: i <= k < r ==> IsWordChar(s[k])
    decreases |s| - i
  {
    if i < |s| && IsWordChar(s[i]) then PastWord(s, i + 1) else i
  }

  function Matches(s: string, i: nat): seq<Match>
    requires i <= |s|
    decreases |s| - i
  {
    if i == |s| then []
    else if s[i] == '<' then
      var end := PastPlain(s, i + 1);
      if end < |s| && s[end] == '>' then [Bracketed(s[i + 1..end])] + Matches(s, end + 1) else Matches(s, i + 1)
    else if IsWordChar(s[i]) then [Word(s[i..PastWord(s, i + 1)])] + Matches(s, PastWord(s, i + 1))
    else Matches(s, i + 1)
  }

  function WithoutMailto(value: string): string {
    var trimmed := Trim(value);
    if |trimmed| >= 7 && LowerEach(trimmed[..7]) == "mailto:" then trimmed[7..] else trimmed
  }

  predicate IsQuoteMark(c: char) { c == '"' || c == '\'' }

  function StripStart(s: string): string { if s != "" && IsQuoteMark(s[0]) then StripStart(s[1..]) else s }

  function StripEnd(s: string): string { if s != "" && IsQuoteMark(s[|s| - 1]) then StripEnd(s[..|s| - 1]) else s }

  function CleanWord(text: string): string { StripEnd(StripStart(WithoutMailto(text))) }

  /** What a match adds: an address, another word, or nothing. */
  datatype Found = Address(text: string) | Other(text: string) | Nothing

  function FoundIn(m: Match): Found {
    match m
    case Bracketed(text) => if WithoutMailto(text) != "" then Address(WithoutMailto(text)) else Nothing
    case Word(text) =>
      if '@' in CleanWord(text) then Address(CleanWord(text))
      else if CleanWord(text) != "" then Other(CleanWord(text)) else Nothing
  }

  function AddressIn(found: Found): seq<string> { if found.Address? then [found.text] else [] }

  function OtherIn(found: Found): seq<string> { if found.Other? then [found.text] else [] }

  function Addresses(matches: seq<Match>): seq<string> {
    if matches == [] then [] else AddressIn(FoundIn(matches[0])) + Addresses(matches[1..])
  }

  function OtherWords(matches: seq<Match>): seq<string> {
    if matches == [] then [] else OtherIn(FoundIn(matches[0])) + OtherWords(matches[1..])
  }

  lemma NextMatch(matches: seq<Match>, i: nat, found: Found)
    requires i < |matches| && found == FoundIn(matches[i])
    ensures Addresses(matches[i..]) == AddressIn(found) + Addresses(matches[i + 1..])
    ensures OtherWords(matches[i..]) == OtherIn(found) + OtherWords(matches[i + 1..])
  {
    assert matches[i..][1..] == matches[i + 1..];
  }

  function JoinWords(words: seq<string>): string {
    if words == [] then "" else if |words| == 1 then words[0] else words[0] + " " + JoinWords(words[1..])
  }

  predicate NamesAddress(part: string, matches: seq<Match>) {
    '"' in part || exists k :: 0 <= k < |matches| && matches[k].Bracketed?
  }

  /** The recipients of one part: kept as typed if it has no address, its addresses if it is
      just those or names them the standard way, and otherwise its other words as well. */
  function RecipientsOf(part: string): seq<string> {
    var matches := Matches(Visible(part), 0);
    var addresses, otherWords := Addresses(matches), OtherWords(matches);
    if addresses == [] then [part]
    else if NamesAddress(part, matches) || otherWords == [] then addresses
    else [JoinWords(otherWords)] + addresses
  }

  function RecipientsOfAll(parts: seq<string>): seq<string> {
    if parts == [] then [] else RecipientsOf(parts[0]) + RecipientsOfAll(parts[1..])
  }

  function Parse(text: string): seq<string> { RecipientsOfAll(Split(text)) }

  method CollectMatches(matches: seq<Match>) returns (addresses: seq<string>, otherWords: seq<string>)
    ensures addresses == Addresses(matches) && otherWords == OtherWords(matches)
  {
    addresses, otherWords := [], [];
    assert matches[0..] == matches;
    for i := 0 to |matches|
      invariant Addresses(matches) == addresses + Addresses(matches[i..])
      invariant OtherWords(matches) == otherWords + OtherWords(matches[i..])
    {
      var found := FoundIn(matches[i]);
      NextMatch(matches, i, found);
      Regroup(addresses, AddressIn(found), Addresses(matches[i + 1..]));
      Regroup(otherWords, OtherIn(found), OtherWords(matches[i + 1..]));
      addresses := addresses + AddressIn(found);
      otherWords := otherWords + OtherIn(found);
    }
  }

  method RecipientsOfPart(part: string) returns (recipients: seq<string>)
    ensures recipients == RecipientsOf(part)
  {
    var visible := WithoutNamesAndComments(part);
    var matches := Matches(visible, 0);
    var namesAddress := NamesAddress(part, matches);
    var addresses, otherWords := CollectMatches(matches);
    if addresses == [] { return [part]; }
    if namesAddress || otherWords == [] { return addresses; }
    return [JoinWords(otherWords)] + addresses;
  }

  lemma NextPart(parts: seq<string>, i: nat)
    requires i < |parts|
    ensures RecipientsOfAll(parts[i..]) == RecipientsOf(parts[i]) + RecipientsOfAll(parts[i + 1..])
  {
    assert parts[i..][1..] == parts[i + 1..];
  }

  method ParseRecipientText(text: string) returns (recipients: seq<string>)
    ensures recipients == Parse(text)
  {
    var parts := SplitAddressList(text);
    recipients := [];
    assert parts[0..] == parts;
    for i := 0 to |parts|
      invariant RecipientsOfAll(parts) == recipients + RecipientsOfAll(parts[i..])
    {
      NextPart(parts, i);
      var more := RecipientsOfPart(parts[i]);
      Regroup(recipients, more, RecipientsOfAll(parts[i + 1..]));
      recipients := recipients + more;
    }
  }

  // ---------------------------------------------------------------- what a send carries

  /** Lower-casing, which for letters outside ASCII follows the runtime's tables. */
  type LowerCase = string -> string

  /** The bare mailbox part: what the brackets at the end hold, if anything does. */
  function NormalizedAddress(lower: LowerCase, value: string): string {
    var trimmed := Trim(value);
    lower(Trim(if HasBracketed(trimmed) then BracketedPart(trimmed) else trimmed))
  }

  /** The position past the last `<` or `>` before `end`, or 0. */
  function PastAngle(s: string, end: nat): (r: nat)
    requires end <= |s|
    ensures r <= end && (r > 0 ==> s[r - 1] == '<' || s[r - 1] == '>')
  {
    if end == 0 then 0 else if s[end - 1] == '<' || s[end - 1] == '>' then end else PastAngle(s, end - 1)
  }

  /** The text ends with a non-empty part in brackets. */
  predicate HasBracketed(s: string) {
    && |s| > 0 && s[|s| - 1] == '>'
    && var start := PastAngle(s, |s| - 1); 0 < start < |s| - 1 && s[start - 1] == '<'
  }

  function BracketedPart(s: string): string
    requires HasBracketed(s)
  {
    s[PastAngle(s, |s| - 1)..|s| - 1]
  }

  function Keys(lower: LowerCase, addresses: seq<string>): set<string> {
    set a | a in addresses :: NormalizedAddress(lower, a)
  }

  /** The addresses that are not known yet, each at its first occurrence. */
  function Fresh(lower: LowerCase, addresses: seq<string>, seen: set<string>): seq<string> {
    if addresses == [] then []
    else
      var key := NormalizedAddress(lower, addresses[0]);
      if key in seen then Fresh(lower, addresses[1..], seen)
      else [addresses[0]] + Fresh(lower, addresses[1..], seen + {key})
  }

  datatype Fields = Fields(to: string, cc: string, bcc: string)

  datatype Sendable = Sendable(to: seq<string>, cc: seq<string>, bcc: seq<string>)

  function SendableOf(lower: LowerCase, fields: Fields): Sendable {
    var to, cc, bcc := Parse(fields.to), Parse(fields.cc), Parse(fields.bcc);
    Sendable(Fresh(lower, to, {}), Fresh(lower, cc, Keys(lower, to)),
             Fresh(lower, bcc, Keys(lower, to) + Keys(lower, cc)))
  }

  method FreshOf(lower: LowerCase, addresses: seq<string>, known: set<string>)
        returns (fresh_: seq<string>, seen: set<string>)
    ensures fresh_ == Fresh(lower, addresses, known) && seen == known + Keys(lower, addresses)
  {
    seen, fresh_ := known, [];
    assert addresses[0..] == addresses;
    for i := 0 to |addresses|
      invariant seen == known + Keys(lower, addresses[..i])
      invariant Fresh(lower, addresses, known) == fresh_ + Fresh(lower, addresses[i..], seen)
    {
      assert addresses[i..][1..] == addresses[i + 1..] && addresses[i..][0] == addresses[i];
      assert addresses[..i + 1] == addresses[..i] + [addresses[i]];
      var key := NormalizedAddress(lower, addresses[i]);
      KeysGrow(lower, addresses[..i], addresses[i]);
      if key in seen {
        assert seen + {key} == seen;
      } else {
        Regroup(fresh_, [addresses[i]], Fresh(lower, addresses[i + 1..], seen + {key}));
        seen, fresh_ := seen + {key}, fresh_ + [addresses[i]];
      }
    }
    assert addresses[..|addresses|] == addresses;
  }

  lemma KeysGrow(lower: LowerCase, addresses: seq<string>, address: string)
    ensures Keys(lower, addresses + [address]) == Keys(lower, addresses) + {NormalizedAddress(lower, address)}
  {
    assert forall a :: a in addresses + [address] <==> a in addresses || a == address;
    assert address in addresses + [address];
  }

  method SendableRecipients(lower: LowerCase, fields: Fields) returns (sendable: Sendable)
    ensures sendable == SendableOf(lower, fields)
  {
    var to := ParseRecipientText(fields.to);
    var freshTo, seen := FreshOf(lower, to, {});
    var cc := ParseRecipientText(fields.cc);
    assert {} + Keys(lower, to) == Keys(lower, to);
    var freshCc;
    freshCc, seen := FreshOf(lower, cc, seen);
    var bcc := ParseRecipientText(fields.bcc);
    var freshBcc;
    freshBcc, seen := FreshOf(lower, bcc, seen);
    return Sendable(freshTo, freshCc, freshBcc);
  }

  predicate DistinctKeys(lower: LowerCase, addresses: seq<string>) {
    forall i, j :: 0 <= i < j < |addresses| ==>
      NormalizedAddress(lower, addresses[i]) != NormalizedAddress(lower, addresses[j])
  }

  /** What is fresh has distinct keys, none of them known before, and covers everything. */
  lemma {:induction false} FreshIsDistinct(lower: LowerCase, addresses: seq<string>, seen: set<string>)
    ensures Keys(lower, Fresh(lower, addresses, seen)) == Keys(lower, addresses) - seen
    ensures DistinctKeys(lower, Fresh(lower, addresses, seen))
    decreases |addresses|
  {
    if addresses != [] {
      var first, rest := addresses[0], addresses[1..];
      var key := NormalizedAddress(lower, first);
      assert addresses == [first] + rest;
      KeysCons(lower, first, rest);
      if key in seen {
        FreshIsDistinct(lower, rest, seen);
      } else {
        FreshIsDistinct(lower, rest, seen + {key});
        var more := Fresh(lower, rest, seen + {key});
        KeysCons(lower, first, more);
        DistinctCons(lower, first, more);
      }
    }
  }

  lemma DistinctCons(lower: LowerCase, first: string, more: seq<string>)
    requires DistinctKeys(lower, more) && NormalizedAddress(lower, first) !in Keys(lower, more)
    ensures DistinctKeys(lower, [first] + more)
  {
    assert forall j :: 0 <= j < |more| ==> NormalizedAddress(lower, more[j]) in Keys(lower, more);
  }

  lemma KeysCons(lower: LowerCase, first: string, rest: seq<string>)
    ensures Keys(lower, [first] + rest) == {NormalizedAddress(lower, first)} + Keys(lower, rest)
  {
    assert forall a :: a in [first] + rest <==> a == first || a in rest;
    assert first in [first] + rest;
  }

  /** The output keeps the order of the input. */
  predicate IsSubsequence(a: seq<string>, b: seq<string>) {
    a == [] || (b != [] && ((a[0] == b[0] && IsSubsequence(a[1..], b[1..])) || IsSubsequence(a, b[1..])))
  }

  /** The address at `i` is the first one with its key, which is not known before. */
  predicate IsFirst(lower: LowerCase, addresses: seq<string>, seen: set<string>, i: nat)
    requires i < |addresses|
  {
    var key := NormalizedAddress(lower, addresses[i]);
    key !in seen && forall j :: 0 <= j < i ==> NormalizedAddress(lower, addresses[j]) != key
  }

  /** Every first occurrence is kept. */
  lemma {:induction false} FreshKeepsFirst(lower: LowerCase, addresses: seq<string>, seen: set<string>, i: nat)
    requires i < |addresses| && IsFirst(lower, addresses, seen, i)
    ensures addresses[i] in Fresh(lower, addresses, seen)
    decreases |addresses|
  {
    if i > 0 {
      var key, rest := NormalizedAddress(lower, addresses[0]), addresses[1..];
      assert rest[i - 1] == addresses[i];
      assert forall j :: 0 <= j < i - 1 ==> rest[j] == addresses[j + 1];
      FreshKeepsFirst(lower, rest, if key in seen then seen else seen + {key}, i - 1);
    }
  }

  ghost predicate KeepsFirsts(lower: LowerCase, kept: seq<string>, addresses: seq<string>, seen: set<string>) {
    forall i :: 0 <= i < |addresses| && IsFirst(lower, addresses, seen, i) ==> addresses[i] in kept
  }

  lemma AllFirstsAreKept(lower: LowerCase, addresses: seq<string>, seen: set<string>)
    ensures KeepsFirsts(lower, Fresh(lower, addresses, seen), addresses, seen)
  {
    forall i | 0 <= i < |addresses| && IsFirst(lower, addresses, seen, i)
      ensures addresses[i] in Fresh(lower, addresses, seen)
    {
      FreshKeepsFirst(lower, addresses, seen, i);
    }
  }

  lemma {:induction false} FreshKeepsOrder(lower: LowerCase, addresses: seq<string>, seen: set<string>)
    ensures IsSubsequence(Fresh(lower, addresses, seen), addresses)
    decreases |addresses|
  {
    if addresses != [] {
      var key := NormalizedAddress(lower, addresses[0]);
      if key in seen {
        FreshKeepsOrder(lower, addresses[1..], seen);
      } else {
        FreshKeepsOrder(lower, addresses[1..], seen + {key});
        assert Fresh(lower, addresses, seen)[1..] == Fresh(lower, addresses[1..], seen + {key});
      }
    }
  }

  /** One field of a send: the first address with each key that is not in a more visible field,
      in the order given, and nothing else. */
  ghost predicate IsSendable(lower: LowerCase, kept: seq<string>, given: seq<string>, seen: set<string>) {
    && Keys(lower, kept) == Keys(lower, given) - seen && DistinctKeys(lower, kept)
    && IsSubsequence(kept, given) && KeepsFirsts(lower, kept, given, seen)
  }

  lemma FreshIsSendable(lower: LowerCase, given: seq<string>, seen: set<string>)
    ensures IsSendable(lower, Fresh(lower, given, seen), given, seen)
  {
    FreshIsDistinct(lower, given, seen);
    FreshKeepsOrder(lower, given, seen);
    AllFirstsAreKept(lower, given, seen);
  }

  /** Every recipient is sent to once, in the most visible field it was given in: keys are
      distinct within each field and across fields, a key given in To is found in To, one given
      in Cc but not in To is found in Cc, and the rest of Bcc in Bcc, each as it was first written
      there and in the order given. */
  lemma SentOnceInTheMostVisibleField(lower: LowerCase, fields: Fields)
    ensures var s := SendableOf(lower, fields);
            var to, cc, bcc := Parse(fields.to), Parse(fields.cc), Parse(fields.bcc);
            && IsSendable(lower, s.to, to, {})
            && IsSendable(lower, s.cc, cc, Keys(lower, to))
            && IsSendable(lower, s.bcc, bcc, Keys(lower, to) + Keys(lower, cc))
  {
    var to, cc, bcc := Parse(fields.to), Parse(fields.cc), Parse(fields.bcc);
    FreshIsSendable(lower, to, {});
    FreshIsSendable(lower, cc, Keys(lower, to));
    FreshIsSendable(lower, bcc, Keys(lower, to) + Keys(lower, cc));
  }
}
