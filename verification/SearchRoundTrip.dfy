/** Printing search filters and parsing the result undo each other, and exactly when. */
module SearchRoundTrip {
  import opened Wrappers
  import opened Characters
  import opened MailSearch
  import opened SearchPrinter

  /** The hypothesis on the filters: no phrase reads as an operator, and lower-casing leaves
      the folders alone. */
  predicate IsPlainPhrase(lower: Casing, phrase: string) { !IsOperator(SplitToken(lower, phrase).operator) }

  predicate IsPlain(lower: Casing, f: Filters) {
    && (forall i :: 0 <= i < |f.phrases| ==> IsPlainPhrase(lower, f.phrases[i]))
    && (forall i :: 0 <= i < |f.folders| ==> lower(f.folders[i]) == f.folders[i])
  }

  // ---------------------------------------------------------------- the printed text

  predicate Readable(pieces: seq<Piece>) { forall i :: 0 <= i < |pieces| ==> IsReadable(pieces[i]) }

  lemma TextIsTrimmed(piece: Piece)
    requires IsReadable(piece)
    ensures Text(piece) != "" && Trimmed(Text(piece))
  {
  }

  lemma {:induction false} JoinIsTrimmed(pieces: seq<Piece>)
    requires Readable(pieces)
    ensures Trimmed(Join(pieces)) && (pieces != [] ==> Join(pieces) != "")
    decreases |pieces|
  {
    if pieces != [] {
      TextIsTrimmed(pieces[0]);
      if |pieces| > 1 { JoinIsTrimmed(pieces[1..]); }
    }
  }

  /** A printed query that parses is parsed from the tokens that were printed. */
  lemma PrintedIsLexed(lower: Casing, pieces: seq<Piece>)
    requires Readable(pieces) && Units(Join(pieces)) <= QUERY_CHARS && Parse(lower, Join(pieces)).Ok?
    ensures AbsorbAll(lower, NOTHING, Tokens(pieces)) == Parse(lower, Join(pieces))
  {
    JoinIsTrimmed(pieces);
    TrimIsTrimmed(Join(pieces));
    JoinIsRead(pieces);
  }

  lemma {:induction false} EachIsReadable(kind: Kind, values: seq<string>)
    requires forall i :: 0 <= i < |values| ==> IsReadable(PieceOf(kind, values[i]))
    ensures Readable(Each(kind, values))
  {
    if values != [] {
      assert forall i :: 0 <= i < |values[1..]| ==> values[1..][i] == values[i + 1];
      EachIsReadable(kind, values[1..]);
    }
  }

  lemma DateIsBare(date: string)
    requires IsDate(date)
    ensures IsBare(date) && ':' !in date
  {
    forall i | 0 <= i < |date| ensures IsDigit(date[i]) || date[i] == '-' {
      if i < 4 { assert date[i] == date[..4][i]; }
      else if 5 <= i < 7 { assert date[i] == date[5..7][i - 5]; }
      else if i >= 8 { assert date[i] == date[8..][i - 8]; }
    }
  }

  lemma WordsAreBare()
    ensures forall w :: w in {"from", "to", "subject", "filename", "in", "is", "has", "after", "before"} ==> IsBare(w)
    ensures forall w :: w in {"read", "unread", "starred", "unstarred", "attachment"} ==> IsBare(w)
  {
  }

  predicate Printable(normal: string -> bool, f: Filters) {
    IsCanonical(normal, f) && forall i :: 0 <= i < |f.terms| ==> IsPlainTerm(f.terms[i])
  }

  lemma ListsAreReadable(normal: string -> bool, f: Filters)
    requires Printable(normal, f)
    ensures Readable(Lists(f))
  {
    WordsAreBare();
    EachIsReadable(List("from"), f.from);
    EachIsReadable(List("to"), f.to);
    EachIsReadable(List("subject"), f.subject);
    EachIsReadable(List("filename"), f.filename);
    EachIsReadable(List("in"), f.folders);
  }

  lemma FlagsAreReadable(normal: string -> bool, f: Filters)
    requires Printable(normal, f)
    ensures Readable(Flags(f))
  {
    SettingsAreReadable();
    DatesAreReadable(normal, f);
    var read := if f.isRead.None? then [] else [Setting("is", if f.isRead.value then "read" else "unread")];
    var starred :=
      if f.isStarred.None? then [] else [Setting("is", if f.isStarred.value then "starred" else "unstarred")];
    var attached := if f.hasAttachment then [Setting("has", "attachment")] else [];
    assert Readable(read) && Readable(starred) && Readable(attached);
    BothReadable(attached, Dates(f));
    BothReadable(starred, attached + Dates(f));
    BothReadable(read, starred + (attached + Dates(f)));
  }

  lemma SettingsAreReadable()
    ensures IsReadable(Setting("is", "read")) && IsReadable(Setting("is", "unread"))
    ensures IsReadable(Setting("is", "starred")) && IsReadable(Setting("is", "unstarred"))
    ensures IsReadable(Setting("has", "attachment"))
  {
    WordsAreBare();
  }

  lemma DatesAreReadable(normal: string -> bool, f: Filters)
    requires Printable(normal, f)
    ensures Readable(Dates(f))
  {
    WordsAreBare();
    if f.after.Some? { DateIsBare(f.after.value); }
    if f.before.Some? { DateIsBare(f.before.value); }
  }

  lemma BothReadable(a: seq<Piece>, b: seq<Piece>)
    requires Readable(a) && Readable(b)
    ensures Readable(a + b)
  {
  }

  lemma PiecesAreReadable(normal: string -> bool, f: Filters)
    requires Printable(normal, f)
    ensures Readable(Pieces(f))
  {
    EachIsReadable(Terms, f.terms);
    EachIsReadable(Phrases, f.phrases);
    ListsAreReadable(normal, f);
    FlagsAreReadable(normal, f);
  }

  // ---------------------------------------------------------------- parsing group by group

  lemma {:induction false} AbsorbAppends(lower: Casing, p: Parsed, a: seq<Token>, b: seq<Token>)
    ensures AbsorbAll(lower, p, a + b)
         == match AbsorbAll(lower, p, a)
            case Err(code) => Err(code)
            case Ok(q) => AbsorbAll(lower, q, b)
    decreases |a|
  {
    if a == [] {
      assert a + b == b;
    } else {
      assert (a + b)[1..] == a[1..] + b;
      match Absorb(lower, p, a[0])
      case Err(_) =>
      case Ok(q) => AbsorbAppends(lower, q, a[1..], b);
    }
  }

  lemma {:induction false} TokensAppend(a: seq<Piece>, b: seq<Piece>)
    ensures Tokens(a + b) == Tokens(a) + Tokens(b)
  {
    if a == [] {
      assert a + b == b;
    } else {
      assert (a + b)[1..] == a[1..] + b;
      TokensAppend(a[1..], b);
    }
  }

  lemma SplitWithout(lower: Casing, value: string)
    requires ':' !in value
    ensures SplitToken(lower, value) == Split("", value)
  {
    var k := IndexOf(value, ":", 0);
    if k.Some? { StartsWithFirst(value, ":", k.value); }
  }

  lemma SplitAfter(lower: Casing, operator: string, value: string)
    requires operator != "" && ':' !in operator
    ensures SplitToken(lower, operator + ":" + value) == Split(lower(operator), value)
  {
    var s := operator + ":" + value;
    var n := |operator|;
    assert StartsAt(s, ":", n) && s[..n] == operator && s[n + 1..] == value;
    IndexOfIsLeast(s, ":", 0, n);
    StartsWithFirst(s, ":", IndexOf(s, ":", 0).value);
    assert forall i :: 0 <= i < n ==> s[i] == operator[i];
  }

  lemma DefaultAbsorbs(lower: Casing, p: Parsed, token: Token)
    requires !IsOperator(SplitToken(lower, token.value).operator)
    ensures Absorb(lower, p, token).Ok? ==>
              Absorb(lower, p, token) == Ok(if token.quoted then p.(phrases := p.phrases + [token.value])
                                            else p.(terms := p.terms + [token.value]))
    ensures ':' !in token.value && token.value != "" ==> Absorb(lower, p, token).Ok?
  {
    if ':' !in token.value { SplitWithout(lower, token.value); }
  }

  lemma {:induction false} TermsAbsorb(lower: Casing, p: Parsed, terms: seq<string>)
    requires forall i :: 0 <= i < |terms| ==> terms[i] != "" && IsPlainTerm(terms[i])
    ensures AbsorbAll(lower, p, Tokens(Each(Terms, terms))) == Ok(p.(terms := p.terms + terms))
    decreases |terms|
  {
    if terms == [] {
      assert p.terms + terms == p.terms;
    } else {
      SplitWithout(lower, terms[0]);
      assert !IsOperator("");
      DefaultAbsorbs(lower, p, Token(terms[0], false));
      TermsAbsorb(lower, p.(terms := p.terms + [terms[0]]), terms[1..]);
      assert p.terms + [terms[0]] + terms[1..] == p.terms + terms;
      Unfolds(lower, p, Terms, terms);
    }
  }

  /** The first value of a group is absorbed first. */
  lemma Unfolds(lower: Casing, p: Parsed, kind: Kind, values: seq<string>)
    requires values != []
    ensures AbsorbAll(lower, p, Tokens(Each(kind, values)))
         == match Absorb(lower, p, TokenOf(PieceOf(kind, values[0])))
            case Err(code) => Err(code)
            case Ok(q) => AbsorbAll(lower, q, Tokens(Each(kind, values[1..])))
  {
    var pieces := Each(kind, values);
    assert pieces[1..] == Each(kind, values[1..]);
    assert Tokens(pieces)[1..] == Tokens(pieces[1..]);
  }

  lemma {:induction false} PhrasesAbsorb(lower: Casing, p: Parsed, phrases: seq<string>)
    requires forall i :: 0 <= i < |phrases| ==> IsPlainPhrase(lower, phrases[i])
    ensures var r := AbsorbAll(lower, p, Tokens(Each(Phrases, phrases)));
            r.Ok? ==> r == Ok(p.(phrases := p.phrases + phrases))
    decreases |phrases|
  {
    if phrases == [] {
      assert p.phrases + phrases == p.phrases;
    } else {
      DefaultAbsorbs(lower, p, Token(phrases[0], true));
      PhrasesAbsorb(lower, p.(phrases := p.phrases + [phrases[0]]), phrases[1..]);
      assert p.phrases + [phrases[0]] + phrases[1..] == p.phrases + phrases;
      Unfolds(lower, p, Phrases, phrases);
    }
  }

  predicate IsList(operator: string) { operator in {"from", "to", "subject", "filename", "in"} }

  function Added(p: Parsed, operator: string, values: seq<string>): Parsed
    requires IsList(operator)
  {
    if operator == "from" then p.(from := p.from + values) else if operator == "to" then p.(to := p.to + values)
    else if operator == "subject" then p.(subject := p.subject + values)
    else if operator == "filename" then p.(filename := p.filename + values) else p.(folder := p.folder + values)
  }

  /** A folder is lower-cased, every other value is taken as it is. */
  function Taken(lower: Casing, operator: string, value: string): string {
    if operator == "in" then lower(value) else value
  }

  lemma OperatorsStay(lower: Casing, operator: string)
    requires Lowers(lower) && IsOperator(operator)
    ensures lower(operator) == operator && operator != "" && ':' !in operator
  {
    assert LowerEach(operator) == operator;
  }

  lemma ListIsAbsorbed(lower: Casing, p: Parsed, operator: string, value: string)
    requires IsList(operator) && value != "" && Trimmed(value)
    ensures AbsorbList(p, operator, value).Ok? ==> AbsorbList(p, operator, value) == Ok(Added(p, operator, [value]))
  {
    TrimIsTrimmed(value);
  }

  lemma ListReadsOperator(lower: Casing, p: Parsed, operator: string, value: string, quoted: bool)
    requires Lowers(lower) && IsList(operator)
    ensures Absorb(lower, p, Token(operator + ":" + value, quoted))
        == AbsorbList(p, operator, Taken(lower, operator, value))
  {
    OperatorsStay(lower, operator);
    SplitAfter(lower, operator, value);
  }

  lemma ListAbsorbs(lower: Casing, p: Parsed, operator: string, value: string, quoted: bool)
    requires Lowers(lower) && IsList(operator) && value != "" && Trimmed(value)
    ensures var r := Absorb(lower, p, Token(operator + ":" + value, quoted));
            r.Ok? ==> r == Ok(Added(p, operator, [Taken(lower, operator, value)]))
  {
    var taken := Taken(lower, operator, value);
    ListReadsOperator(lower, p, operator, value, quoted);
    if taken != "" {
      assert Trimmed(taken);
      ListIsAbsorbed(lower, p, operator, taken);
    }
  }

  function TakenAll(lower: Casing, operator: string, values: seq<string>): seq<string> {
    if values == [] then [] else [Taken(lower, operator, values[0])] + TakenAll(lower, operator, values[1..])
  }

  lemma AddedTwice(p: Parsed, operator: string, a: seq<string>, b: seq<string>)
    requires IsList(operator)
    ensures Added(Added(p, operator, a), operator, b) == Added(p, operator, a + b)
    ensures Added(p, operator, []) == p
  {
    assert p.from + a + b == p.from + (a + b) && p.to + a + b == p.to + (a + b);
    assert p.subject + a + b == p.subject + (a + b) && p.filename + a + b == p.filename + (a + b);
    assert p.folder + a + b == p.folder + (a + b);
  }

  lemma {:induction false} ListsAbsorb(lower: Casing, p: Parsed, operator: string, values: seq<string>)
    requires Lowers(lower) && IsList(operator)
    requires forall i :: 0 <= i < |values| ==> values[i] != "" && Trimmed(values[i])
    ensures var r := AbsorbAll(lower, p, Tokens(Each(List(operator), values)));
            r.Ok? ==> r == Ok(Added(p, operator, TakenAll(lower, operator, values)))
    decreases |values|
  {
    if values == [] {
      AddedTwice(p, operator, [], []);
    } else {
      var taken := Taken(lower, operator, values[0]);
      Unfolds(lower, p, List(operator), values);
      ListAbsorbs(lower, p, operator, values[0], NeedsQuotes(values[0]));
      ListsAbsorb(lower, Added(p, operator, [taken]), operator, values[1..]);
      AddedTwice(p, operator, [taken], TakenAll(lower, operator, values[1..]));
    }
  }

  // ---------------------------------------------------------------- settings

  lemma SettingReads(lower: Casing, p: Parsed, operator: string, value: string)
    requires Lowers(lower) && operator in {"is", "has", "after", "before"}
    ensures SplitToken(lower, operator + ":" + value) == Split(operator, value)
  {
    OperatorsStay(lower, operator);
    SplitAfter(lower, operator, value);
  }

  lemma WordsStay(lower: Casing)
    requires Lowers(lower)
    ensures forall w :: w in {"read", "unread", "starred", "unstarred", "attachment"} ==> lower(w) == w
  {
    forall w | w in {"read", "unread", "starred", "unstarred", "attachment"} ensures lower(w) == w {
      assert LowerEach(w) == w;
    }
  }

  function One(operator: string, value: string): seq<Token> { [Token(operator + ":" + value, false)] }

  lemma AbsorbsOne(lower: Casing, p: Parsed, token: Token)
    ensures AbsorbAll(lower, p, [token]) == Absorb(lower, p, token)
  {
    assert [token][1..] == [];
  }

  lemma IsAbsorbs(lower: Casing, p: Parsed, word: string)
    requires Lowers(lower)
    ensures AbsorbAll(lower, p, One("is", word)) == AbsorbIs(lower, p, word)
  {
    SettingReads(lower, p, "is", word);
    AbsorbsOne(lower, p, One("is", word)[0]);
  }

  lemma ReadAbsorbs(lower: Casing, p: Parsed, next: bool)
    requires Lowers(lower)
    ensures var r := AbsorbAll(lower, p, One("is", if next then "read" else "unread"));
            r.Ok? ==> r == Ok(p.(isRead := Some(next)))
  {
    WordsStay(lower);
    IsAbsorbs(lower, p, if next then "read" else "unread");
  }

  lemma StarredAbsorbs(lower: Casing, p: Parsed, next: bool)
    requires Lowers(lower)
    ensures var r := AbsorbAll(lower, p, One("is", if next then "starred" else "unstarred"));
            r.Ok? ==> r == Ok(p.(isStarred := Some(next)))
  {
    WordsStay(lower);
    IsAbsorbs(lower, p, if next then "starred" else "unstarred");
  }

  lemma AttachmentAbsorbs(lower: Casing, p: Parsed)
    requires Lowers(lower)
    ensures AbsorbAll(lower, p, One("has", "attachment")) == Ok(p.(hasAttachment := true))
  {
    WordsStay(lower);
    SettingReads(lower, p, "has", "attachment");
    AbsorbsOne(lower, p, One("has", "attachment")[0]);
  }

  lemma AfterAbsorbs(lower: Casing, p: Parsed, date: string)
    requires Lowers(lower) && p.dateStart.None?
    ensures var r := AbsorbAll(lower, p, One("after", date)); r.Ok? ==> r == Ok(p.(dateStart := Some(date)))
  {
    SettingReads(lower, p, "after", date);
    AbsorbsOne(lower, p, One("after", date)[0]);
  }

  lemma BeforeAbsorbs(lower: Casing, p: Parsed, date: string)
    requires Lowers(lower) && p.dateEnd.None?
    ensures var r := AbsorbAll(lower, p, One("before", date)); r.Ok? ==> r == Ok(p.(dateEnd := Some(date)))
  {
    SettingReads(lower, p, "before", date);
    AbsorbsOne(lower, p, One("before", date)[0]);
  }

  // ---------------------------------------------------------------- the whole query

  /** If the tokens are accepted, they lead from `p` to `q`. */
  predicate Leads(lower: Casing, p: Parsed, tokens: seq<Token>, q: Parsed) {
    AbsorbAll(lower, p, tokens).Ok? ==> AbsorbAll(lower, p, tokens) == Ok(q)
  }

  lemma LeadsOn(lower: Casing, p: Parsed, a: seq<Piece>, q: Parsed, b: seq<Piece>, r: Parsed)
    requires Leads(lower, p, Tokens(a), q) && Leads(lower, q, Tokens(b), r)
    ensures Leads(lower, p, Tokens(a + b), r)
  {
    TokensAppend(a, b);
    AbsorbAppends(lower, p, Tokens(a), Tokens(b));
  }

  lemma {:induction false} OnlyFoldersAreLowered(lower: Casing, operator: string, values: seq<string>)
    requires operator != "in"
    ensures TakenAll(lower, operator, values) == values
  {
    if values != [] { OnlyFoldersAreLowered(lower, operator, values[1..]); }
  }

  lemma {:induction false} LoweredFolders(lower: Casing, values: seq<string>)
    ensures TakenAll(lower, "in", values) == values <==> forall i :: 0 <= i < |values| ==> lower(values[i]) == values[i]
  {
    if values != [] {
      LoweredFolders(lower, values[1..]);
      assert TakenAll(lower, "in", values)[1..] == TakenAll(lower, "in", values[1..]);
      assert TakenAll(lower, "in", values)[0] == lower(values[0]);
      assert forall i :: 0 <= i < |values[1..]| ==> values[1..][i] == values[i + 1];
      SameHeadAndTail(TakenAll(lower, "in", values), values);
    }
  }

  lemma SameHeadAndTail(a: seq<string>, b: seq<string>)
    requires a != [] && b != []
    ensures a == b <==> a[0] == b[0] && a[1..] == b[1..]
  {
    assert a == [a[0]] + a[1..] && b == [b[0]] + b[1..];
  }

  function Folders(lower: Casing, f: Filters): seq<string> { TakenAll(lower, "in", f.folders) }

  lemma ListsLead(lower: Casing, normal: string -> bool, p: Parsed, f: Filters)
    requires Lowers(lower) && Printable(normal, f)
    requires p.from == p.to == p.subject == p.filename == p.folder == []
    ensures Leads(lower, p, Tokens(Lists(f)),
                  p.(from := f.from, to := f.to, subject := f.subject, filename := f.filename,
                     folder := Folders(lower, f)))
  {
    var p1 := p.(from := f.from, to := f.to);
    var p2 := p1.(subject := f.subject, filename := f.filename, folder := Folders(lower, f));
    var rest := Each(List("subject"), f.subject) + (Each(List("filename"), f.filename) + Each(List("in"), f.folders));
    PeopleLead(lower, normal, p, f);
    OtherListsLead(lower, normal, p1, f);
    LeadsOn(lower, p, Each(List("from"), f.from) + Each(List("to"), f.to), p1, rest, p2);
    ListsRegroup(Each(List("from"), f.from), Each(List("to"), f.to), rest);
  }

  lemma ListsRegroup(a: seq<Piece>, b: seq<Piece>, c: seq<Piece>)
    ensures a + (b + c) == a + b + c
  {
  }

  lemma PeopleLead(lower: Casing, normal: string -> bool, p: Parsed, f: Filters)
    requires Lowers(lower) && Printable(normal, f) && p.from == p.to == []
    ensures Leads(lower, p, Tokens(Each(List("from"), f.from) + Each(List("to"), f.to)), p.(from := f.from, to := f.to))
  {
    var p1 := p.(from := f.from);
    ListLeads(lower, p, "from", f.from, p1);
    ListLeads(lower, p1, "to", f.to, p1.(to := f.to));
    LeadsOn(lower, p, Each(List("from"), f.from), p1, Each(List("to"), f.to), p1.(to := f.to));
  }

  lemma OtherListsLead(lower: Casing, normal: string -> bool, p: Parsed, f: Filters)
    requires Lowers(lower) && Printable(normal, f) && p.subject == p.filename == p.folder == []
    ensures Leads(lower, p, Tokens(Each(List("subject"), f.subject)
                                   + (Each(List("filename"), f.filename) + Each(List("in"), f.folders))),
                  p.(subject := f.subject, filename := f.filename, folder := Folders(lower, f)))
  {
    var p1 := p.(subject := f.subject);
    var p2 := p1.(filename := f.filename);
    var p3 := p2.(folder := Folders(lower, f));
    ListLeads(lower, p, "subject", f.subject, p1);
    ListLeads(lower, p1, "filename", f.filename, p2);
    ListLeads(lower, p2, "in", f.folders, p3);
    LeadsOn(lower, p1, Each(List("filename"), f.filename), p2, Each(List("in"), f.folders), p3);
    LeadsOn(lower, p, Each(List("subject"), f.subject), p1,
            Each(List("filename"), f.filename) + Each(List("in"), f.folders), p3);
  }

  lemma ListLeads(lower: Casing, p: Parsed, operator: string, values: seq<string>, q: Parsed)
    requires Lowers(lower) && IsList(operator)
    requires forall i :: 0 <= i < |values| ==> values[i] != "" && Trimmed(values[i])
    requires q == Added(p, operator, TakenAll(lower, operator, values))
          || (operator != "in" && q == Added(p, operator, values))
    ensures Leads(lower, p, Tokens(Each(List(operator), values)), q)
  {
    ListsAbsorb(lower, p, operator, values);
    if operator != "in" { OnlyFoldersAreLowered(lower, operator, values); }
  }

  function IsReadPiece(f: Filters): seq<Piece> {
    if f.isRead.None? then [] else [Setting("is", if f.isRead.value then "read" else "unread")]
  }

  function IsStarredPiece(f: Filters): seq<Piece> {
    if f.isStarred.None? then [] else [Setting("is", if f.isStarred.value then "starred" else "unstarred")]
  }

  function AttachmentPiece(f: Filters): seq<Piece> { if f.hasAttachment then [Setting("has", "attachment")] else [] }

  lemma OneToken(operator: string, value: string)
    ensures Tokens([Setting(operator, value)]) == One(operator, value)
  {
    assert [Setting(operator, value)][1..] == [];
  }

  lemma FlagsLead(lower: Casing, p: Parsed, f: Filters)
    requires Lowers(lower)
    requires p.isRead.None? && p.isStarred.None? && !p.hasAttachment && p.dateStart.None? && p.dateEnd.None?
    ensures Leads(lower, p, Tokens(Flags(f)),
                  p.(isRead := f.isRead, isStarred := f.isStarred, hasAttachment := f.hasAttachment,
                     dateStart := f.after, dateEnd := f.before))
  {
    var p1 := p.(isRead := f.isRead);
    var p2 := p1.(isStarred := f.isStarred);
    var p3 := p2.(hasAttachment := f.hasAttachment);
    var p5 := p3.(dateStart := f.after, dateEnd := f.before);
    ReadLeads(lower, p, f);
    StarredLeads(lower, p1, f);
    AttachmentLeads(lower, p2, f);
    DatesLead(lower, p3, f);
    LeadsOn(lower, p2, AttachmentPiece(f), p3, Dates(f), p5);
    LeadsOn(lower, p1, IsStarredPiece(f), p2, AttachmentPiece(f) + Dates(f), p5);
    LeadsOn(lower, p, IsReadPiece(f), p1, IsStarredPiece(f) + (AttachmentPiece(f) + Dates(f)), p5);
  }

  lemma ReadLeads(lower: Casing, p: Parsed, f: Filters)
    requires Lowers(lower) && p.isRead.None?
    ensures Leads(lower, p, Tokens(IsReadPiece(f)), p.(isRead := f.isRead))
  {
    if f.isRead.Some? {
      OneToken("is", if f.isRead.value then "read" else "unread");
      ReadAbsorbs(lower, p, f.isRead.value);
    }
  }

  lemma StarredLeads(lower: Casing, p: Parsed, f: Filters)
    requires Lowers(lower) && p.isStarred.None?
    ensures Leads(lower, p, Tokens(IsStarredPiece(f)), p.(isStarred := f.isStarred))
  {
    if f.isStarred.Some? {
      OneToken("is", if f.isStarred.value then "starred" else "unstarred");
      StarredAbsorbs(lower, p, f.isStarred.value);
    }
  }

  lemma AttachmentLeads(lower: Casing, p: Parsed, f: Filters)
    requires Lowers(lower) && !p.hasAttachment
    ensures Leads(lower, p, Tokens(AttachmentPiece(f)), p.(hasAttachment := f.hasAttachment))
  {
    if f.hasAttachment {
      OneToken("has", "attachment");
      AttachmentAbsorbs(lower, p);
    }
  }

  lemma DatesLead(lower: Casing, p: Parsed, f: Filters)
    requires Lowers(lower) && p.dateStart.None? && p.dateEnd.None?
    ensures Leads(lower, p, Tokens(Dates(f)), p.(dateStart := f.after, dateEnd := f.before))
  {
    var after: seq<Piece> := if f.after.Some? then [Setting("after", f.after.value)] else [];
    var before: seq<Piece> := if f.before.Some? then [Setting("before", f.before.value)] else [];
    var q := p.(dateStart := f.after);
    if f.after.Some? {
      OneToken("after", f.after.value);
      AfterAbsorbs(lower, p, f.after.value);
    }
    if f.before.Some? {
      OneToken("before", f.before.value);
      BeforeAbsorbs(lower, q, f.before.value);
    }
    LeadsOn(lower, p, after, q, before, p.(dateStart := f.after, dateEnd := f.before));
  }

  /** What the printed filters are parsed to when no phrase reads as an operator. */
  function Expected(lower: Casing, f: Filters): Parsed {
    Parsed(f.terms, f.phrases, f.from, f.to, f.subject, f.filename, Folders(lower, f),
           f.isRead, f.isStarred, f.hasAttachment, f.after, f.before)
  }

  lemma PiecesLead(lower: Casing, normal: string -> bool, f: Filters)
    requires Lowers(lower) && Printable(normal, f)
    requires forall i :: 0 <= i < |f.phrases| ==> IsPlainPhrase(lower, f.phrases[i])
    ensures Leads(lower, NOTHING, Tokens(Pieces(f)), Expected(lower, f))
  {
    var p1 := NOTHING.(terms := f.terms);
    var p2 := p1.(phrases := f.phrases);
    var p3 := p2.(from := f.from, to := f.to, subject := f.subject, filename := f.filename,
                  folder := Folders(lower, f));
    var q := Expected(lower, f);
    assert [] + f.terms == f.terms && [] + f.phrases == f.phrases;
    TermsAbsorb(lower, NOTHING, f.terms);
    PhrasesAbsorb(lower, p1, f.phrases);
    ListsLead(lower, normal, p2, f);
    FlagsLead(lower, p3, f);
    LeadsOn(lower, p2, Lists(f), p3, Flags(f), q);
    LeadsOn(lower, p1, Each(Phrases, f.phrases), p2, Lists(f) + Flags(f), q);
    LeadsOn(lower, NOTHING, Each(Terms, f.terms), p1, Each(Phrases, f.phrases) + (Lists(f) + Flags(f)), q);
  }

  // ---------------------------------------------------------------- phrases that are lost

  predicate BecomesPhrase(lower: Casing, token: Token) {
    token.quoted && !IsOperator(SplitToken(lower, token.value).operator)
  }

  function PhraseCount(lower: Casing, tokens: seq<Token>): nat {
    if tokens == [] then 0 else (if BecomesPhrase(lower, tokens[0]) then 1 else 0) + PhraseCount(lower, tokens[1..])
  }

  lemma AbsorbCounts(lower: Casing, p: Parsed, token: Token)
    requires Absorb(lower, p, token).Ok?
    ensures |Absorb(lower, p, token).value.phrases| == |p.phrases| + if BecomesPhrase(lower, token) then 1 else 0
  {
    if !IsOperator(SplitToken(lower, token.value).operator) { DefaultAbsorbs(lower, p, token); }
  }

  lemma {:induction false} AbsorbAllCounts(lower: Casing, p: Parsed, tokens: seq<Token>)
    requires AbsorbAll(lower, p, tokens).Ok?
    ensures |AbsorbAll(lower, p, tokens).value.phrases| == |p.phrases| + PhraseCount(lower, tokens)
    decreases |tokens|
  {
    if tokens != [] {
      AbsorbCounts(lower, p, tokens[0]);
      AbsorbAllCounts(lower, Absorb(lower, p, tokens[0]).value, tokens[1..]);
    }
  }

  lemma {:induction false} CountsAdd(lower: Casing, a: seq<Token>, b: seq<Token>)
    ensures PhraseCount(lower, a + b) == PhraseCount(lower, a) + PhraseCount(lower, b)
    decreases |a|
  {
    if a == [] {
      assert a + b == b;
    } else {
      assert (a + b)[1..] == a[1..] + b;
      CountsAdd(lower, a[1..], b);
    }
  }

  lemma PiecesAdd(lower: Casing, a: seq<Piece>, b: seq<Piece>)
    ensures PhraseCount(lower, Tokens(a + b)) == PhraseCount(lower, Tokens(a)) + PhraseCount(lower, Tokens(b))
  {
    TokensAppend(a, b);
    CountsAdd(lower, Tokens(a), Tokens(b));
  }

  predicate NeverPhrase(lower: Casing, piece: Piece) { !BecomesPhrase(lower, TokenOf(piece)) }

  lemma {:induction false} NoneCount(lower: Casing, pieces: seq<Piece>)
    requires forall i :: 0 <= i < |pieces| ==> NeverPhrase(lower, pieces[i])
    ensures PhraseCount(lower, Tokens(pieces)) == 0
    decreases |pieces|
  {
    if pieces != [] {
      assert forall i :: 0 <= i < |pieces[1..]| ==> pieces[1..][i] == pieces[i + 1];
      NoneCount(lower, pieces[1..]);
    }
  }

  lemma {:induction false} ListNeverCounts(lower: Casing, operator: string, values: seq<string>)
    requires Lowers(lower) && IsList(operator)
    ensures PhraseCount(lower, Tokens(Each(List(operator), values))) == 0
    decreases |values|
  {
    if values != [] {
      ListNeverCounts(lower, operator, values[1..]);
      OperatorsStay(lower, operator);
      SplitAfter(lower, operator, values[0]);
      assert Tokens(Each(List(operator), values))[1..] == Tokens(Each(List(operator), values[1..]));
    }
  }

  lemma {:induction false} TermsNeverCount(lower: Casing, terms: seq<string>)
    ensures PhraseCount(lower, Tokens(Each(Terms, terms))) == 0
    decreases |terms|
  {
    if terms != [] {
      TermsNeverCount(lower, terms[1..]);
      assert Tokens(Each(Terms, terms))[1..] == Tokens(Each(Terms, terms[1..]));
    }
  }

  lemma {:induction false} PlainPhrasesCount(lower: Casing, phrases: seq<string>)
    ensures var n := PhraseCount(lower, Tokens(Each(Phrases, phrases)));
            n <= |phrases| && (n == |phrases| ==> forall i :: 0 <= i < |phrases| ==> IsPlainPhrase(lower, phrases[i]))
    decreases |phrases|
  {
    if phrases != [] {
      PlainPhrasesCount(lower, phrases[1..]);
      assert Tokens(Each(Phrases, phrases))[1..] == Tokens(Each(Phrases, phrases[1..]));
      assert forall i :: 0 < i < |phrases| ==> phrases[i] == phrases[1..][i - 1];
    }
  }

  lemma ListsNeverCount(lower: Casing, f: Filters)
    requires Lowers(lower)
    ensures PhraseCount(lower, Tokens(Lists(f))) == 0
  {
    var a, b, c := Each(List("from"), f.from), Each(List("to"), f.to), Each(List("subject"), f.subject);
    var d, e := Each(List("filename"), f.filename), Each(List("in"), f.folders);
    ListNeverCounts(lower, "from", f.from);
    ListNeverCounts(lower, "to", f.to);
    ListNeverCounts(lower, "subject", f.subject);
    ListNeverCounts(lower, "filename", f.filename);
    ListNeverCounts(lower, "in", f.folders);
    PiecesAdd(lower, d, e);
    PiecesAdd(lower, c, d + e);
    PiecesAdd(lower, b, c + (d + e));
    PiecesAdd(lower, a, b + (c + (d + e)));
  }

  lemma FourPartsAdd(lower: Casing, a: seq<Piece>, b: seq<Piece>, c: seq<Piece>, d: seq<Piece>)
    ensures PhraseCount(lower, Tokens(a + (b + (c + d))))
         == PhraseCount(lower, Tokens(a)) + PhraseCount(lower, Tokens(b))
            + PhraseCount(lower, Tokens(c)) + PhraseCount(lower, Tokens(d))
  {
    PiecesAdd(lower, c, d);
    PiecesAdd(lower, b, c + d);
    PiecesAdd(lower, a, b + (c + d));
  }

  lemma FlagsNeverCount(lower: Casing, f: Filters)
    ensures PhraseCount(lower, Tokens(Flags(f))) == 0
  {
    NoneCount(lower, Flags(f));
  }

  lemma OnlyPhrasesCount(lower: Casing, f: Filters)
    requires Lowers(lower)
    ensures PhraseCount(lower, Tokens(Pieces(f))) == PhraseCount(lower, Tokens(Each(Phrases, f.phrases)))
  {
    TermsNeverCount(lower, f.terms);
    ListsNeverCount(lower, f);
    FlagsNeverCount(lower, f);
    FourPartsAdd(lower, Each(Terms, f.terms), Each(Phrases, f.phrases), Lists(f), Flags(f));
  }

  /** Only the phrases themselves can end up among the phrases, so one that does not is missed. */
  lemma LostPhraseIsMissed(lower: Casing, f: Filters)
    requires Lowers(lower) && AbsorbAll(lower, NOTHING, Tokens(Pieces(f))).Ok?
    requires AbsorbAll(lower, NOTHING, Tokens(Pieces(f))).value.phrases == f.phrases
    ensures forall i :: 0 <= i < |f.phrases| ==> IsPlainPhrase(lower, f.phrases[i])
  {
    AbsorbAllCounts(lower, NOTHING, Tokens(Pieces(f)));
    OnlyPhrasesCount(lower, f);
    PlainPhrasesCount(lower, f.phrases);
  }

  // ---------------------------------------------------------------- the theorems

  /** What was printed parses, and to the very same filters exactly when no phrase reads as an
      operator and the folders are in lower case. */
  lemma ParsingUndoesPrinting(lower: Casing, normal: string -> bool, f: Filters, allowEmpty: bool)
    requires Lowers(lower) && Serialize(lower, normal, f, allowEmpty).Some?
    requires Serialize(lower, normal, f, allowEmpty).value != ""
    ensures var parsed := Parse(lower, Serialize(lower, normal, f, allowEmpty).value);
            parsed.Ok? && (ParsedFiltersMatch(f, parsed.value) <==> IsPlain(lower, f))
  {
    var query := Serialize(lower, normal, f, allowEmpty).value;
    PiecesAreReadable(normal, f);
    PrintedIsLexed(lower, Pieces(f));
    var parsed := Parse(lower, query).value;
    if ParsedFiltersMatch(f, parsed) { LostPhraseIsMissed(lower, f); }
    if forall i :: 0 <= i < |f.phrases| ==> IsPlainPhrase(lower, f.phrases[i]) {
      PiecesLead(lower, normal, f);
      assert parsed == Expected(lower, f);
      LoweredFolders(lower, f.folders);
    }
  }

  // ---------------------------------------------------------------- a phrase that is lost

  function OnlyPhrase(phrase: string): Filters {
    Filters([], [phrase], [], [], [], [], [], None, None, false, None, None)
  }

  lemma {:induction false} UnitsAtMostTwice(s: string)
    ensures Units(s) <= 2 * |s|
  {
    if s != "" { UnitsAtMostTwice(s[1..]); }
  }

  lemma {:induction false} EscapedBare(s: string)
    requires !NeedsQuotes(s)
    ensures Escaped(s) == s
  {
    if s != "" {
      EscapedStep(s);
      assert forall i :: 0 <= i < |s[1..]| ==> s[1..][i] == s[i + 1];
      EscapedBare(s[1..]);
    }
  }

  lemma OnlyPhrasePieces(phrase: string)
    ensures Pieces(OnlyPhrase(phrase)) == [Phrase(phrase)] && Join([Phrase(phrase)]) == Quoted(phrase)
    ensures Tokens([Phrase(phrase)]) == [Token(phrase, true)]
  {
    var f := OnlyPhrase(phrase);
    assert [phrase][1..] == [] && [Phrase(phrase)][1..] == [];
    assert Each(Terms, f.terms) == [] && Each(Phrases, f.phrases) == [Phrase(phrase)];
    assert Lists(f) == [] && Flags(f) == [];
  }

  /** A short bare phrase alone is printed if its own token is accepted. */
  lemma OnlyPhraseIsPrinted(lower: Casing, normal: string -> bool, phrase: string)
    requires IsCanonicalValue(normal, phrase) && !NeedsQuotes(phrase) && |phrase| <= 20
    requires var r := AbsorbAll(lower, NOTHING, [Token(phrase, true)]); r.Ok? && r.value.dateStart.None?
    ensures Serialize(lower, normal, OnlyPhrase(phrase), false) == Some(Quoted(phrase)) && Quoted(phrase) != ""
  {
    var pieces := [Phrase(phrase)];
    OnlyPhrasePieces(phrase);
    EscapedBare(phrase);
    UnitsAtMostTwice(phrase);
    UnitsAtMostTwice(Quoted(phrase));
    JoinIsTrimmed(pieces);
    TrimIsTrimmed(Quoted(phrase));
    JoinIsRead(pieces);
  }

  lemma IsReadIsAbsorbed(lower: Casing)
    requires Lowers(lower)
    ensures AbsorbAll(lower, NOTHING, [Token("is:read", true)]) == Ok(NOTHING.(isRead := Some(true)))
    ensures !IsPlainPhrase(lower, "is:read")
  {
    assert "is:read" == "is" + ":" + "read";
    SettingReads(lower, NOTHING, "is", "read");
    WordsStay(lower);
    AbsorbsOne(lower, NOTHING, Token("is:read", true));
  }

  lemma IsReadIsCanonical(normal: string -> bool)
    requires normal("is:read")
    ensures IsCanonicalValue(normal, "is:read") && !NeedsQuotes("is:read")
  {
    var phrase := "is:read";
    assert |phrase| == 7 && Trimmed(phrase);
    forall i | 0 <= i < |phrase| ensures ':' <= phrase[i] <= 's' && phrase[i] != '\\' {
    }
    BytesAtMostFour(phrase);
  }

  /** The phrase `is:read` is printed, and read back as the filter on read messages. */
  lemma SomePhrasesAreMislaid(lower: Casing, normal: string -> bool)
    requires Lowers(lower) && normal("is:read")
    ensures var f := OnlyPhrase("is:read");
            var printed := Serialize(lower, normal, f, false);
            && printed.Some? && Parse(lower, printed.value).Ok?
            && !ParsedFiltersMatch(f, Parse(lower, printed.value).value)
  {
    var phrase := "is:read";
    IsReadIsCanonical(normal);
    IsReadIsAbsorbed(lower);
    OnlyPhraseIsPrinted(lower, normal, phrase);
    ParsingUndoesPrinting(lower, normal, OnlyPhrase(phrase), false);
    assert OnlyPhrase(phrase).phrases[0] == phrase;
  }
}
