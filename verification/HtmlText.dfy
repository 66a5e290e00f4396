/** The character-level searches of the HTML tag scanner. A search that runs past the end of
    the text finds nothing. */
module HtmlText {
  import opened Wrappers
  import opened Characters

  // ---------------------------------------------------------------- tag ends

  predicate IsQuote(c: char) { c == '"' || c == '\'' }

  /** One past the first `>` outside quotes, reading from `i` inside `quote` (if any). */
  function TagEndFrom(s: string, i: nat, quote: Option<char>): (r: Option<nat>)
    requires i <= |s|
    ensures r.Some? ==> i < r.value <= |s| && s[r.value - 1] == '>'
    decreases |s| - i
  {
    if i == |s| then None
    else if quote.Some? then TagEndFrom(s, i + 1, if s[i] == quote.value then None else quote)
    else if IsQuote(s[i]) then TagEndFrom(s, i + 1, Some(s[i]))
    else if s[i] == '>' then Some(i + 1)
    else TagEndFrom(s, i + 1, None)
  }

  method TagEnd(html: string, start: nat) returns (end: Option<nat>)
    requires start < |html|
    ensures end == TagEndFrom(html, start + 1, None)
  {
    var quote := None;
    for index := start + 1 to |html|
      invariant TagEndFrom(html, start + 1, None) == TagEndFrom(html, index, quote)
    {
      var character := html[index];
      if quote.Some? {
        if character == quote.value { quote := None; }
        continue;
      }
      if IsQuote(character) {
        quote := Some(character);
        continue;
      }
      if character == '>' { return Some(index + 1); }
    }
    return None;
  }

  /** A tag end depends on nothing beyond itself and not on where the text starts. */
  lemma {:induction false} TagEndIsLocal(s: string, i: nat, t: string, j: nat, quote: Option<char>)
    requires i <= |s| && j <= |t| && TagEndFrom(s, i, quote).Some?
    requires var n := TagEndFrom(s, i, quote).value - i; j + n <= |t| && s[i..i + n] == t[j..j + n]
    ensures TagEndFrom(t, j, quote) == Some(j + TagEndFrom(s, i, quote).value - i)
    decreases |s| - i
  {
    var n := TagEndFrom(s, i, quote).value - i;
    assert s[i] == s[i..i + n][0] == t[j..j + n][0] == t[j];
    assert s[i + 1..i + n] == s[i..i + n][1..];
    assert t[j + 1..j + n] == t[j..j + n][1..];
    if quote.Some? {
      TagEndIsLocal(s, i + 1, t, j + 1, if s[i] == quote.value then None else quote);
    } else if IsQuote(s[i]) {
      TagEndIsLocal(s, i + 1, t, j + 1, Some(s[i]));
    } else if s[i] != '>' {
      TagEndIsLocal(s, i + 1, t, j + 1, None);
    }
  }

  /** Neither a quote nor `>` in between. */
  lemma {:induction false} PlainRun(s: string, i: nat, j: nat)
    requires i <= j <= |s| && forall k :: i <= k < j ==> !IsQuote(s[k]) && s[k] != '>'
    ensures TagEndFrom(s, i, None) == TagEndFrom(s, j, None)
    decreases j - i
  {
    if i < j { PlainRun(s, i + 1, j); }
  }

  // ---------------------------------------------------------------- raw text

  /** The text of a script or style element ends at `k`. */
  predicate ClosesAt(lower: string, element: string, k: nat) {
    && StartsAt(lower, "</" + element, k)
    && k + 2 + |element| < |lower|
    && (lower[k + 2 + |element|] == '>' || IsSpace(lower[k + 2 + |element|]))
  }

  /** The least position from `from` on at which the raw text ends. */
  function FirstClose(lower: string, element: string, from: nat): (r: Option<nat>)
    ensures r.Some? ==> from <= r.value && ClosesAt(lower, element, r.value)
    decreases |lower| - from
  {
    if from >= |lower| then None
    else if ClosesAt(lower, element, from) then Some(from)
    else FirstClose(lower, element, from + 1)
  }

  lemma {:induction false} FirstCloseIsLeast(lower: string, element: string, from: nat, k: nat)
    requires from <= k && ClosesAt(lower, element, k)
    ensures FirstClose(lower, element, from).Some? && FirstClose(lower, element, from).value <= k
    decreases k - from
  {
    if from < k {
      FirstCloseIsLeast(lower, element, from + 1, k);
    }
  }

  /** Jumping from candidate to candidate misses no closing tag. */
  method RawTextClose(lower: string, element: string, from: nat) returns (closing: Option<nat>)
    requires '<' !in element
    ensures closing == FirstClose(lower, element, from)
  {
    var prefix := "</" + element;
    var candidate := IndexOf(lower, prefix, from);
    FirstCandidate(lower, element, from);
    while candidate.Some?
      invariant candidate.Some? ==> from <= candidate.value && StartsAt(lower, prefix, candidate.value)
      invariant NoneBefore(lower, element, from, candidate)
      decreases if candidate.Some? then 1 + |lower| - candidate.value else 0
    {
      var at := candidate.value;
      if at + |prefix| < |lower| && (lower[at + |prefix|] == '>' || IsSpace(lower[at + |prefix|])) {
        FirstCloseIsLeast(lower, element, from, at);
        return Some(at);
      }
      NextCandidate(lower, element, from, at);
      candidate := IndexOf(lower, prefix, at + |prefix|);
    }
    return None;
  }

  /** The raw text does not end before the candidate. */
  predicate NoneBefore(lower: string, element: string, from: nat, candidate: Option<nat>) {
    var first := FirstClose(lower, element, from);
    first.Some? ==> candidate.Some? && candidate.value <= first.value
  }

  lemma FirstCandidate(lower: string, element: string, from: nat)
    ensures NoneBefore(lower, element, from, IndexOf(lower, "</" + element, from))
  {
    var first := FirstClose(lower, element, from);
    if first.Some? { IndexOfIsLeast(lower, "</" + element, from, first.value); }
  }

  lemma NextCandidate(lower: string, element: string, from: nat, at: nat)
    requires '<' !in element && StartsAt(lower, "</" + element, at) && !ClosesAt(lower, element, at)
    requires NoneBefore(lower, element, from, Some(at))
    ensures NoneBefore(lower, element, from, IndexOf(lower, "</" + element, at + 2 + |element|))
  {
    var first := FirstClose(lower, element, from);
    if first.Some? {
      CandidatesAreApart(lower, element, at, first.value);
      IndexOfIsLeast(lower, "</" + element, at + 2 + |element|, first.value);
    }
  }

  /** A closing tag cannot start inside the prefix of another one. */
  lemma CandidatesAreApart(lower: string, element: string, at: nat, k: nat)
    requires '<' !in element && StartsAt(lower, "</" + element, at) && StartsAt(lower, "</" + element, k) && at < k
    ensures at + 2 + |element| <= k
  {
    var prefix := "</" + element;
    StartsWithFirst(lower, prefix, k);
    forall j | at < j < at + |prefix| ensures lower[j] != '<' {
      assert lower[j] == lower[at..at + |prefix|][j - at];
      assert j - at == 1 || prefix[j - at] == element[j - at - 2];
    }
  }

  // ---------------------------------------------------------------- runs of characters

  datatype Class = Spaces | NameTail | AttributeName | Unquoted | Until(quote: char) | Digits | HexDigits

  predicate In(c: char, class_: Class) {
    match class_
    case Spaces => IsSpace(c)
    case NameTail => IsLetter(c) || IsDigit(c) || c == '-'
    case AttributeName => !IsSpace(c) && c != '=' && c != '/' && c != '>'
    case Unquoted => !IsSpace(c) && c != '>'
    case Until(quote) => c != quote
    case Digits => IsDigit(c)
    case HexDigits => IsDigit(c) || 'a' <= LowerChar(c) <= 'f'
  }

  /** Past the longest run of `class_` characters that starts at `i` and ends before `end`. */
  function SkipOver(s: string, i: nat, end: nat, class_: Class): (r: nat)
    requires i <= end <= |s|
    ensures i <= r <= end
    ensures r < end ==> !In(s[r], class_)
    ensures i < end && !In(s[end - 1], class_) ==> r < end
    decreases end - i
  {
    if i < end && In(s[i], class_) then SkipOver(s, i + 1, end, class_) else i
  }

  method Skip(s: string, from: nat, end: nat, class_: Class) returns (index: nat)
    requires from <= end <= |s|
    ensures index == SkipOver(s, from, end, class_)
  {
    index := from;
    while index < end && In(s[index], class_)
      invariant from <= index <= end
      invariant SkipOver(s, from, end, class_) == SkipOver(s, index, end, class_)
    {
      index := index + 1;
    }
  }
}
