/** The user's search grammar: the lexer and the parser of search queries. Texts are
    sequences of Unicode scalar values; lengths are counted in UTF-16 units. Lower-casing is
    a parameter: only what the grammar needs of it is assumed. */
module MailSearch {
  import opened Wrappers
  import opened Characters
  import opened Numerals

  const QUERY_CHARS := 500
  const TOKENS := 32
  const TOKEN_CHARS := 200
  const VALUES_PER_FILTER := 8

  datatype ErrorCode = InvalidQuery | QueryTooLarge

  datatype Outcome<+T> = Ok(value: T) | Err(code: ErrorCode)

  /** A piece of the query between white space, and whether any of it was quoted. */
  datatype Token = Token(value: string, quoted: bool)

  // ---------------------------------------------------------------- lexing

  /** What the lexer has read of the token at hand. */
  datatype Reading = Reading(value: string, quoted: bool, inQuote: bool, escaped: bool)

  const START := Reading("", false, false, false)

  function Prepend(first: seq<Token>, rest: Outcome<seq<Token>>): Outcome<seq<Token>> {
    match rest
    case Ok(tokens) => Ok(first + tokens)
    case Err(_) => rest
  }

  /** A token is complete; an empty one is dropped. */
  function Complete(r: Reading): Outcome<seq<Token>> {
    if r.value == "" then Ok([])
    else if Units(r.value) > TOKEN_CHARS then Err(QueryTooLarge)
    else Ok([Token(r.value, r.quoted)])
  }

  predicate Splits(r: Reading, c: char) { !r.escaped && !r.inQuote && c != '"' && IsSpace(c) }

  /** One more character of the same token. */
  function Extend(r: Reading, c: char): Reading {
    if r.escaped then r.(value := r.value + [c], escaped := false)
    else if r.inQuote && c == '\\' then r.(escaped := true)
    else if c == '"' then r.(inQuote := !r.inQuote, quoted := true)
    else r.(value := r.value + [c])
  }

  /** White space after an empty reading keeps even its quoted flag. */
  function AfterSplit(r: Reading): Reading { if r.value == "" then r else START }

  function LexRest(s: string, r: Reading): Outcome<seq<Token>> {
    if s == "" then
      if r.inQuote || r.escaped then Err(InvalidQuery) else Complete(r)
    else if Splits(r, s[0]) then
      match Complete(r) {
        case Err(code) => Err(code)
        case Ok(done) => Prepend(done, LexRest(s[1..], AfterSplit(r)))
      }
    else LexRest(s[1..], Extend(r, s[0]))
  }

  function Lexed(input: string): Outcome<seq<Token>> {
    match LexRest(input, START)
    case Err(code) => Err(code)
    case Ok(tokens) => if |tokens| > TOKENS then Err(QueryTooLarge) else Ok(tokens)
  }

  method Lex(input: string) returns (lexed: Outcome<seq<Token>>)
    ensures lexed == Lexed(input)
  {
    var tokens: seq<Token> := [];
    var r := START;
    assert input[0..] == input;
    PrependNothing(LexRest(input, r));
    for i := 0 to |input|
      invariant LexRest(input, START) == Prepend(tokens, LexRest(input[i..], r))
    {
      var character := input[i];
      assert input[i..][1..] == input[i + 1..];
      if Splits(r, character) {
        if r.value != "" {
          if Units(r.value) > TOKEN_CHARS { return Err(QueryTooLarge); }
          PrependTwice(tokens, [Token(r.value, r.quoted)], LexRest(input[i + 1..], START));
          tokens := tokens + [Token(r.value, r.quoted)];
          r := START;
        } else {
          PrependNothing(LexRest(input[i + 1..], r));
        }
      } else {
        r := Extend(r, character);
      }
    }
    assert input[|input|..] == "";
    if r.inQuote || r.escaped { return Err(InvalidQuery); }
    if r.value != "" {
      if Units(r.value) > TOKEN_CHARS { return Err(QueryTooLarge); }
      tokens := tokens + [Token(r.value, r.quoted)];
    } else {
      assert tokens + [] == tokens;
    }
    if |tokens| > TOKENS { return Err(QueryTooLarge); }
    return Ok(tokens);
  }

  lemma PrependTwice(a: seq<Token>, b: seq<Token>, rest: Outcome<seq<Token>>)
    ensures Prepend(a, Prepend(b, rest)) == Prepend(a + b, rest)
  {
    if rest.Ok? { assert a + (b + rest.value) == a + b + rest.value; }
  }

  lemma PrependNothing(rest: Outcome<seq<Token>>)
    ensures Prepend([], rest) == rest
  {
    if rest.Ok? { assert [] + rest.value == rest.value; }
  }

  // ---------------------------------------------------------------- dates

  predicate AllDigits(s: string) { forall i :: 0 <= i < |s| ==> IsDigit(s[i]) }

  function NumberOf(s: string): nat
    requires AllDigits(s)
  {
    if s == "" then 0
    else
      var last := s[|s| - 1];
      assert IsDigit(last);
      10 * NumberOf(s[..|s| - 1]) + (last as int - '0' as int)
  }

  /** A calendar date written as four, two and two digits. */
  predicate IsDate(s: string) {
    && |s| == 10 && s[4] == '-' && s[7] == '-' && AllDigits(s[..4]) && AllDigits(s[5..7]) && AllDigits(s[8..])
    && 1 <= NumberOf(s[5..7]) <= 12 && 1 <= NumberOf(s[8..]) <= DaysIn(NumberOf(s[..4]), NumberOf(s[5..7]))
  }

  /** The order of texts by their characters. */
  predicate Less(a: string, b: string) {
    b != "" && (a == "" || a[0] < b[0] || (a[0] == b[0] && Less(a[1..], b[1..])))
  }

  // ---------------------------------------------------------------- parsing

  type Casing = string -> string

  /** What is needed of lower-casing: it is plain on ASCII letters, and it does not bring
      white space to the ends of a text. */
  ghost predicate Lowers(lower: Casing) {
    && (forall s {:trigger lower(s)} :: (forall i :: 0 <= i < |s| ==> s[i] as int < 0x80) ==> lower(s) == LowerEach(s))
    && (forall s {:trigger lower(s)} :: Trimmed(s) ==> Trimmed(lower(s)))
  }

  datatype Parsed = Parsed(
    terms: seq<string>, phrases: seq<string>,
    from: seq<string>, to: seq<string>, subject: seq<string>, filename: seq<string>, folder: seq<string>,
    isRead: Option<bool>, isStarred: Option<bool>, hasAttachment: bool,
    dateStart: Option<string>, dateEnd: Option<string>)

  const NOTHING := Parsed([], [], [], [], [], [], [], None, None, false, None, None)

  datatype Split = Split(operator: string, value: string)

  /** What stands before and after the first colon, unless it comes first. */
  function SplitToken(lower: Casing, value: string): Split {
    match IndexOf(value, ":", 0)
    case None => Split("", value)
    case Some(separator) =>
      if separator == 0 then Split("", value) else Split(lower(value[..separator]), value[separator + 1..])
  }

  predicate IsOperator(operator: string) {
    operator in {"from", "to", "subject", "filename", "in", "is", "has", "after", "before"}
  }

  function PushBounded(target: seq<string>, value: string): Outcome<seq<string>> {
    if Trim(value) == "" then Err(InvalidQuery)
    else if |target| >= VALUES_PER_FILTER then Err(QueryTooLarge)
    else Ok(target + [Trim(value)])
  }

  function SetFlag(current: Option<bool>, next: bool): Outcome<Option<bool>> {
    if current.Some? && current.value != next then Err(InvalidQuery) else Ok(Some(next))
  }

  function AbsorbList(parsed: Parsed, operator: string, value: string): Outcome<Parsed>
    requires operator in {"from", "to", "subject", "filename", "in"}
  {
    var target := if operator == "from" then parsed.from else if operator == "to" then parsed.to
                  else if operator == "subject" then parsed.subject
                  else if operator == "filename" then parsed.filename else parsed.folder;
    match PushBounded(target, value)
    case Err(code) => Err(code)
    case Ok(values) =>
      Ok(if operator == "from" then parsed.(from := values) else if operator == "to" then parsed.(to := values)
         else if operator == "subject" then parsed.(subject := values)
         else if operator == "filename" then parsed.(filename := values) else parsed.(folder := values))
  }

  function AbsorbIs(lower: Casing, parsed: Parsed, value: string): Outcome<Parsed> {
    var normalized := lower(value);
    if value == "" then Err(InvalidQuery)
    else if normalized == "read" || normalized == "unread" then
      match SetFlag(parsed.isRead, normalized == "read") {
        case Err(code) => Err(code)
        case Ok(flag) => Ok(parsed.(isRead := flag))
      }
    else if normalized == "starred" || normalized == "unstarred" then
      match SetFlag(parsed.isStarred, normalized == "starred") {
        case Err(code) => Err(code)
        case Ok(flag) => Ok(parsed.(isStarred := flag))
      }
    else Err(InvalidQuery)
  }

  function AbsorbDate(parsed: Parsed, operator: string, value: string): Outcome<Parsed>
    requires operator in {"after", "before"}
  {
    if !IsDate(value) then Err(InvalidQuery)
    else if operator == "after" then
      Ok(if parsed.dateStart.None? || Less(parsed.dateStart.value, value)
         then parsed.(dateStart := Some(value)) else parsed)
    else
      Ok(if parsed.dateEnd.None? || Less(value, parsed.dateEnd.value) then parsed.(dateEnd := Some(value)) else parsed)
  }

  /** One more token. */
  function Absorb(lower: Casing, parsed: Parsed, token: Token): Outcome<Parsed> {
    var Split(operator, value) := SplitToken(lower, token.value);
    if operator in {"from", "to", "subject", "filename"} then AbsorbList(parsed, operator, value)
    else if operator == "in" then AbsorbList(parsed, operator, lower(value))
    else if operator == "is" then AbsorbIs(lower, parsed, value)
    else if operator == "has" then
      if lower(value) == "attachment" then Ok(parsed.(hasAttachment := true)) else Err(InvalidQuery)
    else if operator in {"after", "before"} then AbsorbDate(parsed, operator, value)
    else if value == "" && operator != "" then Err(InvalidQuery)
    else if token.quoted then Ok(parsed.(phrases := parsed.phrases + [token.value]))
    else Ok(parsed.(terms := parsed.terms + [token.value]))
  }

  function AbsorbAll(lower: Casing, parsed: Parsed, tokens: seq<Token>): Outcome<Parsed>
    decreases |tokens|
  {
    if tokens == [] then Ok(parsed)
    else
      match Absorb(lower, parsed, tokens[0])
      case Err(code) => Err(code)
      case Ok(next) => AbsorbAll(lower, next, tokens[1..])
  }

  /** A range of dates must not be empty. */
  function CheckRange(parsed: Parsed): Outcome<Parsed> {
    if parsed.dateStart.Some? && parsed.dateEnd.Some? && !Less(parsed.dateStart.value, parsed.dateEnd.value)
    then Err(InvalidQuery) else Ok(parsed)
  }

  function Parse(lower: Casing, input: string): Outcome<Parsed> {
    if Units(Trim(input)) > QUERY_CHARS then Err(QueryTooLarge)
    else
      match Lexed(Trim(input))
      case Err(code) => Err(code)
      case Ok(tokens) =>
        match AbsorbAll(lower, NOTHING, tokens)
        case Err(code) => Err(code)
        case Ok(parsed) => CheckRange(parsed)
  }

  method ParseSearchQuery(lower: Casing, input: string) returns (outcome: Outcome<Parsed>)
    ensures outcome == Parse(lower, input)
  {
    var query := Trim(input);
    if Units(query) > QUERY_CHARS { return Err(QueryTooLarge); }
    var lexed := Lex(query);
    if lexed.Err? { return Err(lexed.code); }
    var tokens := lexed.value;
    var parsed := NOTHING;
    assert tokens[0..] == tokens;
    for i := 0 to |tokens|
      invariant AbsorbAll(lower, NOTHING, tokens) == AbsorbAll(lower, parsed, tokens[i..])
    {
      assert tokens[i..][1..] == tokens[i + 1..];
      var next := Absorb(lower, parsed, tokens[i]);
      if next.Err? { return Err(next.code); }
      parsed := next.value;
    }
    return CheckRange(parsed);
  }
}
