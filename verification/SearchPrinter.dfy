/** The printer of search filters, and what its output is parsed back to. */
module SearchPrinter {
  import opened Wrappers
  import opened Characters
  import opened MailSearch

  datatype Filters = Filters(
    terms: seq<string>, phrases: seq<string>,
    from: seq<string>, to: seq<string>, subject: seq<string>, filename: seq<string>, folders: seq<string>,
    isRead: Option<bool>, isStarred: Option<bool>, hasAttachment: bool,
    after: Option<string>, before: Option<string>)

  const VALUES_PER_FIELD := 8

  // ---------------------------------------------------------------- canonical filters

  /** Characters that are invisible or change how the text around them reads. */
  predicate IsUnsafe(c: char) {
    var n := c as int;
    || n <= 0x1F || 0x7F <= n <= 0x9F || n == 0xAD || n == 0x61C || 0x200B <= n <= 0x200F || 0x2028 <= n <= 0x202F
    || 0x2060 <= n <= 0x206F || n == 0xFEFF
  }

  /** `normal` tells which texts are in normalization form C. */
  predicate IsCanonicalValue(normal: string -> bool, item: string) {
    && item != "" && Trimmed(item) && normal(item) && (forall i :: 0 <= i < |item| ==> !IsUnsafe(item[i]))
    && |item| <= TOKEN_CHARS && ByteLength(item) <= TOKEN_CHARS * 4
  }

  predicate AreCanonicalValues(normal: string -> bool, values: seq<string>) {
    && |values| <= VALUES_PER_FIELD
    && (forall i :: 0 <= i < |values| ==> IsCanonicalValue(normal, values[i]))
    && (forall i, j :: 0 <= i < j < |values| ==> values[i] != values[j])
  }

  method CanonicalValues(normal: string -> bool, value: seq<string>) returns (canonical: bool)
    ensures canonical <==> AreCanonicalValues(normal, value)
  {
    if |value| > VALUES_PER_FIELD { return false; }
    var seen: set<string> := {};
    for i := 0 to |value|
      invariant forall item :: item in seen <==> item in value[..i]
      invariant forall j :: 0 <= j < i ==> IsCanonicalValue(normal, value[j])
      invariant forall j, k :: 0 <= j < k < i ==> value[j] != value[k]
    {
      if !IsCanonicalValue(normal, value[i]) { return false; }
      if value[i] in seen {
        var j :| 0 <= j < i && value[..i][j] == value[i];
        assert value[j] == value[i];
        return false;
      }
      assert forall j :: 0 <= j < i ==> value[..i][j] == value[j];
      seen := seen + {value[i]};
      assert value[..i + 1] == value[..i] + [value[i]];
    }
    return true;
  }

  predicate IsCanonical(normal: string -> bool, f: Filters) {
    && AreCanonicalValues(normal, f.terms) && AreCanonicalValues(normal, f.phrases)
    && AreCanonicalValues(normal, f.from) && AreCanonicalValues(normal, f.to)
    && AreCanonicalValues(normal, f.subject) && AreCanonicalValues(normal, f.filename)
    && AreCanonicalValues(normal, f.folders)
    && (f.after.Some? ==> IsDate(f.after.value)) && (f.before.Some? ==> IsDate(f.before.value))
    && (f.after.Some? && f.before.Some? ==> Less(f.after.value, f.before.value))
  }

  // ---------------------------------------------------------------- printing

  function ReplaceEach(s: string, c: char, by_: string): string {
    if s == "" then "" else (if s[0] == c then by_ else [s[0]]) + ReplaceEach(s[1..], c, by_)
  }

  /** Backslashes are doubled first, then quotes are escaped. */
  function Quoted(value: string): string {
    "\"" + ReplaceEach(ReplaceEach(value, '\\', "\\\\"), '"', "\\\"") + "\""
  }

  predicate NeedsQuotes(value: string) {
    exists i :: 0 <= i < |value| && (IsSpace(value[i]) || value[i] == '"' || value[i] == '\\')
  }

  function FilterToken(operator: string, value: string): string {
    operator + ":" + (if NeedsQuotes(value) then Quoted(value) else value)
  }

  /** What is printed between the blanks. */
  datatype Piece = Bare(text: string) | Phrase(value: string) | Filter(operator: string, value: string)
                 | Setting(operator: string, value: string)

  function Text(piece: Piece): string {
    match piece
    case Bare(text) => text
    case Phrase(value) => Quoted(value)
    case Filter(operator, value) => FilterToken(operator, value)
    case Setting(operator, value) => operator + ":" + value
  }

  datatype Kind = Terms | Phrases | List(operator: string)

  function PieceOf(kind: Kind, value: string): Piece {
    match kind
    case Terms => Bare(value)
    case Phrases => Phrase(value)
    case List(operator) => Filter(operator, value)
  }

  function Each(kind: Kind, values: seq<string>): seq<Piece> {
    if values == [] then [] else [PieceOf(kind, values[0])] + Each(kind, values[1..])
  }

  function Lists(f: Filters): seq<Piece> {
    Each(List("from"), f.from) + (Each(List("to"), f.to) + (Each(List("subject"), f.subject)
    + (Each(List("filename"), f.filename) + Each(List("in"), f.folders))))
  }

  function Flags(f: Filters): seq<Piece> {
    (if f.isRead.None? then [] else [Setting("is", if f.isRead.value then "read" else "unread")])
    + ((if f.isStarred.None? then [] else [Setting("is", if f.isStarred.value then "starred" else "unstarred")])
    + ((if f.hasAttachment then [Setting("has", "attachment")] else []) + Dates(f)))
  }

  function Dates(f: Filters): seq<Piece> {
    (if f.after.Some? then [Setting("after", f.after.value)] else [])
    + (if f.before.Some? then [Setting("before", f.before.value)] else [])
  }

  function Pieces(f: Filters): seq<Piece> {
    Each(Terms, f.terms) + (Each(Phrases, f.phrases) + (Lists(f) + Flags(f)))
  }

  function Join(pieces: seq<Piece>): string {
    if pieces == [] then ""
    else if |pieces| == 1 then Text(pieces[0])
    else Text(pieces[0]) + " " + Join(pieces[1..])
  }

  predicate IsPlainTerm(term: string) { !NeedsQuotes(term) && ':' !in term }

  /** Printing fails on filters that are not canonical, on terms that are not single plain
      tokens, on an empty or oversized result, and on a result that does not parse. */
  function Serialize(lower: Casing, normal: string -> bool, f: Filters, allowEmpty: bool): Option<string> {
    var query := Join(Pieces(f));
    if !IsCanonical(normal, f) || (exists i :: 0 <= i < |f.terms| && !IsPlainTerm(f.terms[i])) then None
    else if (query == "" && !allowEmpty) || Units(query) > QUERY_CHARS then None
    else if query != "" && Parse(lower, query).Err? then None
    else Some(query)
  }

  /** The filters a parsed query stands for; they match when they are the same. */
  function FiltersOf(parsed: Parsed): Filters {
    Filters(parsed.terms, parsed.phrases, parsed.from, parsed.to, parsed.subject, parsed.filename, parsed.folder,
            parsed.isRead, parsed.isStarred, parsed.hasAttachment, parsed.dateStart, parsed.dateEnd)
  }

  predicate ParsedFiltersMatch(f: Filters, parsed: Parsed) { FiltersOf(parsed) == f }

  // ---------------------------------------------------------------- lexing what was printed

  predicate IsBare(s: string) { s != "" && !NeedsQuotes(s) }

  predicate IsReadable(piece: Piece) {
    match piece
    case Bare(text) => IsBare(text)
    case Phrase(value) => value != "" && Trimmed(value)
    case Filter(operator, value) => IsBare(operator) && value != "" && Trimmed(value)
    case Setting(operator, value) => IsBare(operator) && IsBare(value)
  }

  function TokenOf(piece: Piece): Token {
    match piece
    case Bare(text) => Token(text, false)
    case Phrase(value) => Token(value, true)
    case Filter(operator, value) => Token(operator + ":" + value, NeedsQuotes(value))
    case Setting(operator, value) => Token(operator + ":" + value, false)
  }

  /** Outside quotes, characters that need no quotes are read as they stand. */
  lemma {:induction false} BareIsRead(text: string, rest: string, r: Reading)
    requires !r.inQuote && !r.escaped && !NeedsQuotes(text)
    ensures LexRest(text + rest, r) == LexRest(rest, r.(value := r.value + text))
    decreases |text|
  {
    if text == "" {
      assert text + rest == rest && r.value + text == r.value;
    } else {
      assert text[0] != '"' && !IsSpace(text[0]);
      assert (text + rest)[1..] == text[1..] + rest;
      assert forall i :: 0 <= i < |text[1..]| ==> text[1..][i] == text[i + 1];
      BareIsRead(text[1..], rest, Extend(r, text[0]));
      assert r.value + [text[0]] + text[1..] == r.value + text;
    }
  }

  function Escaped(value: string): string { ReplaceEach(ReplaceEach(value, '\\', "\\\\"), '"', "\\\"") }

  lemma {:induction false} ReplaceAppends(a: string, b: string, c: char, by_: string)
    ensures ReplaceEach(a + b, c, by_) == ReplaceEach(a, c, by_) + ReplaceEach(b, c, by_)
  {
    if a == "" {
      assert a + b == b;
    } else {
      assert (a + b)[1..] == a[1..] + b;
      ReplaceAppends(a[1..], b, c, by_);
    }
  }

  lemma ReplaceOne(d: char, c: char, by_: string)
    ensures ReplaceEach([d], c, by_) == if d == c then by_ else [d]
  {
    assert [d][1..] == "";
  }

  lemma EscapedStep(value: string)
    requires value != ""
    ensures Escaped(value)
         == (if value[0] == '\\' then "\\\\" else if value[0] == '"' then "\\\"" else [value[0]]) + Escaped(value[1..])
  {
    var d, rest := value[0], ReplaceEach(value[1..], '\\', "\\\\");
    assert value == [d] + value[1..];
    if d == '\\' {
      ReplaceAppends("\\\\", rest, '"', "\\\"");
      ReplaceAppends("\\", "\\", '"', "\\\"");
      assert "\\" + "\\" == "\\\\";
      ReplaceOne('\\', '"', "\\\"");
    } else {
      ReplaceAppends([d], rest, '"', "\\\"");
      ReplaceOne(d, '"', "\\\"");
    }
  }

  /** Inside quotes, the escaped value is read back, up to the closing quote. */
  lemma {:induction false} EscapedIsRead(value: string, rest: string, r: Reading)
    requires r.inQuote && !r.escaped
    ensures LexRest(Escaped(value) + ("\"" + rest), r)
         == LexRest(rest, r.(value := r.value + value, inQuote := false, quoted := true))
    decreases |value|
  {
    var tail := "\"" + rest;
    if value == "" {
      assert Escaped(value) + tail == tail && tail[1..] == rest && r.value + value == r.value;
    } else {
      EscapedStep(value);
      var c, more := value[0], Escaped(value[1..]) + tail;
      var s := Escaped(value) + tail;
      EscapedIsRead(value[1..], rest, r.(value := r.value + [c]));
      assert r.value + [c] + value[1..] == r.value + value;
      if c == '\\' || c == '"' {
        assert s == ['\\'] + ([c] + more);
        assert s[1..] == [c] + more && ([c] + more)[1..] == more;
      } else {
        assert s == [c] + more;
        assert s[1..] == more;
      }
    }
  }

  lemma QuotedIsRead(value: string, rest: string, r: Reading)
    requires !r.inQuote && !r.escaped
    ensures LexRest(Quoted(value) + rest, r) == LexRest(rest, r.(value := r.value + value, quoted := true))
  {
    var s := Quoted(value) + rest;
    assert s == ['"'] + (Escaped(value) + ("\"" + rest));
    assert s[1..] == Escaped(value) + ("\"" + rest);
    EscapedIsRead(value, rest, r.(inQuote := true, quoted := true));
  }

  function Full(token: Token): Reading { Reading(token.value, token.quoted, false, false) }

  lemma PieceIsRead(piece: Piece, rest: string)
    requires IsReadable(piece)
    ensures LexRest(Text(piece) + rest, START) == LexRest(rest, Full(TokenOf(piece)))
  {
    match piece
    case Bare(text) =>
      BareIsRead(text, rest, START);
      assert "" + text == text;
    case Phrase(value) =>
      QuotedIsRead(value, rest, START);
      assert "" + value == value;
    case Filter(operator, value) =>
      var head := operator + ":";
      BareIsRead(head, (if NeedsQuotes(value) then Quoted(value) else value) + rest, START);
      assert "" + head == head;
      assert Text(piece) + rest == head + ((if NeedsQuotes(value) then Quoted(value) else value) + rest);
      if NeedsQuotes(value) {
        QuotedIsRead(value, rest, START.(value := head));
      } else {
        BareIsRead(value, rest, START.(value := head));
      }
    case Setting(operator, value) =>
      BareIsRead(operator + ":" + value, rest, START);
      assert "" + (operator + ":" + value) == operator + ":" + value;
  }

  /** The tokens of the pieces, unless one of them is too long. */
  function Tokens(pieces: seq<Piece>): seq<Token> {
    if pieces == [] then [] else [TokenOf(pieces[0])] + Tokens(pieces[1..])
  }

  predicate AllFit(pieces: seq<Piece>) {
    forall i :: 0 <= i < |pieces| ==> Units(TokenOf(pieces[i]).value) <= TOKEN_CHARS
  }

  lemma {:induction false} JoinIsRead(pieces: seq<Piece>)
    requires forall i :: 0 <= i < |pieces| ==> IsReadable(pieces[i])
    ensures LexRest(Join(pieces), START) == if AllFit(pieces) then Ok(Tokens(pieces)) else Err(QueryTooLarge)
    decreases |pieces|
  {
    if pieces != [] {
      var token := TokenOf(pieces[0]);
      JoinIsRead(pieces[1..]);
      assert AllFit(pieces) <==> Units(token.value) <= TOKEN_CHARS && AllFit(pieces[1..]);
      if |pieces| == 1 {
        PieceIsRead(pieces[0], "");
        assert Text(pieces[0]) + "" == Text(pieces[0]);
        assert pieces[1..] == [] && Tokens(pieces) == [token];
        assert LexRest("", Full(token)) == Complete(Full(token));
      } else {
        var rest := " " + Join(pieces[1..]);
        PieceIsRead(pieces[0], rest);
        assert Text(pieces[0]) + rest == Join(pieces);
        assert rest[1..] == Join(pieces[1..]) && IsSpace(rest[0]);
      }
    }
  }
}
