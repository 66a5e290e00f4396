/** Different search filters are printed differently: the quotes of the printed text tell a phrase from
    a filter even where the parser does not. */
module SearchInjective {
  import opened Wrappers
  import opened Characters
  import opened MailSearch
  import opened SearchPrinter
  import opened SearchRoundTrip

  // ---------------------------------------------------------------- where a printed piece ends

  /** The number of characters before the first white space outside quotes. */
  function BreakAt(s: string, inQuote: bool, escaped: bool): nat {
    if s == "" then 0
    else if escaped then 1 + BreakAt(s[1..], inQuote, false)
    else if inQuote then 1 + BreakAt(s[1..], s[0] != '"', s[0] == '\\')
    else if s[0] == '"' then 1 + BreakAt(s[1..], true, false)
    else if IsSpace(s[0]) then 0
    else 1 + BreakAt(s[1..], false, false)
  }

  lemma {:induction false} BareBreaks(text: string, rest: string)
    requires !NeedsQuotes(text)
    ensures BreakAt(text + rest, false, false) == |text| + BreakAt(rest, false, false)
  {
    if text == "" {
      assert text + rest == rest;
    } else {
      assert text[0] != '"' && !IsSpace(text[0]);
      assert (text + rest)[1..] == text[1..] + rest;
      assert forall i :: 0 <= i < |text[1..]| ==> text[1..][i] == text[i + 1];
      BareBreaks(text[1..], rest);
    }
  }

  lemma {:induction false} EscapedBreaks(value: string, rest: string)
    ensures BreakAt(Escaped(value) + ("\"" + rest), true, false)
         == |Escaped(value)| + 1 + BreakAt(rest, false, false)
  {
    var tail := "\"" + rest;
    if value == "" {
      assert Escaped(value) + tail == tail && tail[1..] == rest;
    } else {
      EscapedStep(value);
      EscapedBreaks(value[1..], rest);
      OneBreaks(value[0], Escaped(value[1..]) + tail, Escaped(value) + tail);
    }
  }

  function Escape(c: char): string { if c == '\\' then "\\\\" else if c == '"' then "\\\"" else [c] }

  lemma OneBreaks(c: char, more: string, s: string)
    requires s == Escape(c) + more
    ensures BreakAt(s, true, false) == |s| - |more| + BreakAt(more, true, false)
  {
    if c == '\\' || c == '"' {
      var inner := [c] + more;
      assert s == ['\\'] + inner && inner[1..] == more;
      PairBreaks(inner, s);
    } else {
      assert s == [c] + more && s[1..] == more;
    }
  }

  /** A backslash hides what comes behind it. */
  lemma PairBreaks(inner: string, s: string)
    requires s == ['\\'] + inner && inner != ""
    ensures BreakAt(s, true, false) == 2 + BreakAt(inner[1..], true, false)
  {
    assert s[0] == '\\' && s[1..] == inner;
    assert BreakAt(inner, true, true) == 1 + BreakAt(inner[1..], true, false);
  }

  lemma QuotedBreaks(value: string, rest: string)
    ensures BreakAt(Quoted(value) + rest, false, false) == |Quoted(value)| + BreakAt(rest, false, false)
  {
    var s := Quoted(value) + rest;
    assert s == ['"'] + (Escaped(value) + ("\"" + rest));
    assert s[1..] == Escaped(value) + ("\"" + rest);
    EscapedBreaks(value, rest);
  }

  function Shown(value: string): string { if NeedsQuotes(value) then Quoted(value) else value }

  lemma ShownBreaks(value: string, rest: string)
    ensures BreakAt(Shown(value) + rest, false, false) == |Shown(value)| + BreakAt(rest, false, false)
  {
    if NeedsQuotes(value) { QuotedBreaks(value, rest); } else { BareBreaks(value, rest); }
  }

  /** Nothing in a printed piece ends it. */
  lemma TextBreaks(piece: Piece, rest: string)
    requires IsReadable(piece)
    ensures BreakAt(Text(piece) + rest, false, false) == |Text(piece)| + BreakAt(rest, false, false)
  {
    match piece
    case Bare(text) => BareBreaks(text, rest);
    case Phrase(value) => QuotedBreaks(value, rest);
    case Filter(operator, value) =>
      var head := operator + ":";
      assert Text(piece) + rest == head + (Shown(value) + rest);
      BareBreaks(head, Shown(value) + rest);
      ShownBreaks(value, rest);
    case Setting(operator, value) => BareBreaks(operator + ":" + value, rest);
  }

  /** What follows the first piece. */
  function Following(pieces: seq<Piece>): string
    requires pieces != []
  {
    if |pieces| == 1 then "" else " " + Join(pieces[1..])
  }

  lemma FirstBreaks(pieces: seq<Piece>)
    requires pieces != [] && Readable(pieces)
    ensures Join(pieces) == Text(pieces[0]) + Following(pieces)
    ensures BreakAt(Join(pieces), false, false) == |Text(pieces[0])|
  {
    assert Text(pieces[0]) + "" == Text(pieces[0]);
    assert Text(pieces[0]) + " " + Join(pieces[1..]) == Text(pieces[0]) + (" " + Join(pieces[1..]));
    TextBreaks(pieces[0], Following(pieces));
  }

  lemma SameStart(a: string, b: string, c: string, d: string)
    requires a + b == c + d && |a| == |c|
    ensures a == c && b == d
  {
    assert a == (a + b)[..|a|] && c == (c + d)[..|c|];
    assert b == (a + b)[|a|..] && d == (c + d)[|c|..];
  }

  /** The same text is printed for the same pieces only. */
  lemma {:induction false} JoinIsInjective(a: seq<Piece>, b: seq<Piece>)
    requires Readable(a) && Readable(b) && AreProper(a) && AreProper(b) && Join(a) == Join(b)
    ensures a == b
    decreases |a|
  {
    if a == [] || b == [] {
      JoinIsTrimmed(a);
      JoinIsTrimmed(b);
    } else {
      FirstIsSame(a, b);
      JoinIsInjective(a[1..], b[1..]);
      assert a == [a[0]] + a[1..] && b == [b[0]] + b[1..];
    }
  }

  lemma FirstIsSame(a: seq<Piece>, b: seq<Piece>)
    requires a != [] && b != [] && Readable(a) && Readable(b) && AreProper(a) && AreProper(b) && Join(a) == Join(b)
    ensures a[0] == b[0] && Join(a[1..]) == Join(b[1..])
  {
    FirstBreaks(a);
    FirstBreaks(b);
    SameStart(Text(a[0]), Following(a), Text(b[0]), Following(b));
    TextIsInjective(a[0], b[0]);
    RestsAreSame(a, b);
  }

  lemma RestsAreSame(a: seq<Piece>, b: seq<Piece>)
    requires a != [] && b != [] && Following(a) == Following(b)
    ensures Join(a[1..]) == Join(b[1..])
  {
    if |a| > 1 && |b| > 1 { assert (" " + Join(a[1..]))[1..] == (" " + Join(b[1..]))[1..]; }
  }

  // ---------------------------------------------------------------- one piece from its text

  predicate IsSetting(operator: string) { operator in {"is", "has", "after", "before"} }

  /** The pieces that are printed. */
  predicate IsProper(piece: Piece) {
    match piece
    case Bare(text) => ':' !in text
    case Phrase(_) => true
    case Filter(operator, _) => IsList(operator)
    case Setting(operator, _) => IsSetting(operator)
  }

  predicate AreProper(pieces: seq<Piece>) { forall i :: 0 <= i < |pieces| ==> IsProper(pieces[i]) }

  lemma {:induction false} EscapedIsInjective(a: string, b: string)
    requires Escaped(a) == Escaped(b)
    ensures a == b
  {
    if a != "" { EscapedStep(a); }
    if b != "" { EscapedStep(b); }
    if a != "" && b != "" {
      SameFirstEscape(a[0], Escaped(a[1..]), b[0], Escaped(b[1..]));
      EscapedIsInjective(a[1..], b[1..]);
      assert a == [a[0]] + a[1..] && b == [b[0]] + b[1..];
    }
  }

  lemma SameFirstEscape(a: char, more: string, b: char, rest: string)
    requires Escape(a) + more == Escape(b) + rest
    ensures a == b && more == rest
  {
    var s, t := Escape(a) + more, Escape(b) + rest;
    assert s[0] == Escape(a)[0] && t[0] == Escape(b)[0];
    if |Escape(a)| == 2 { assert s[1] == Escape(a)[1] == a; }
    if |Escape(b)| == 2 { assert t[1] == Escape(b)[1] == b; }
    SameStart(Escape(a), more, Escape(b), rest);
  }

  lemma ShownStarts(value: string)
    requires value != ""
    ensures Shown(value) != "" && (Shown(value)[0] == '"' <==> NeedsQuotes(value))
  {
    if !NeedsQuotes(value) { assert value[0] != '"'; }
  }

  lemma ShownIsInjective(a: string, b: string)
    requires Shown(a) == Shown(b) && a != "" && b != ""
    ensures a == b
  {
    ShownStarts(a);
    ShownStarts(b);
    if NeedsQuotes(a) { QuotedIsInjective(a, b); }
  }

  lemma QuotedIsInjective(a: string, b: string)
    requires Quoted(a) == Quoted(b)
    ensures a == b
  {
    var n := |Quoted(a)|;
    assert Escaped(a) == Quoted(a)[1..n - 1] && Escaped(b) == Quoted(b)[1..n - 1];
    EscapedIsInjective(a, b);
  }

  predicate HasOperator(piece: Piece) { piece.Filter? || piece.Setting? }

  /** What is printed behind the colon. */
  function Behind(piece: Piece): string
    requires HasOperator(piece)
  {
    if piece.Filter? then Shown(piece.value) else piece.value
  }

  lemma OperatorsArePlain(piece: Piece)
    requires HasOperator(piece) && IsProper(piece)
    ensures piece.operator != "" && ':' !in piece.operator && piece.operator[0] != '"'
    ensures Text(piece) == piece.operator + (":" + Behind(piece))
  {
    assert piece.operator + ":" + Behind(piece) == piece.operator + (":" + Behind(piece));
  }

  lemma FirstColon(a: string, more: string, s: string)
    requires s == a + (":" + more) && ':' !in a
    ensures |a| < |s| && s[|a|] == ':' && forall i :: 0 <= i < |a| ==> s[i] != ':'
  {
    assert s[|a|] == (":" + more)[0];
    assert forall i :: 0 <= i < |a| ==> s[i] == a[i];
  }

  /** The first colon ends the operator. */
  lemma OperatorIsFirst(a: string, more: string, b: string, rest: string)
    requires a + (":" + more) == b + (":" + rest) && ':' !in a && ':' !in b
    ensures a == b && more == rest
  {
    var s := a + (":" + more);
    FirstColon(a, more, s);
    FirstColon(b, rest, s);
    SameStart(a, ":" + more, b, ":" + rest);
    assert (":" + more)[1..] == more && (":" + rest)[1..] == rest;
  }

  lemma SameOperators(p: Piece, q: Piece)
    requires IsReadable(p) && IsReadable(q) && IsProper(p) && IsProper(q) && Text(p) == Text(q)
    requires HasOperator(p) && HasOperator(q)
    ensures p == q
  {
    OperatorsArePlain(p);
    OperatorsArePlain(q);
    OperatorIsFirst(p.operator, Behind(p), q.operator, Behind(q));
    if p.Filter? && q.Filter? { ShownIsInjective(p.value, q.value); }
  }

  lemma TextIsInjective(p: Piece, q: Piece)
    requires IsReadable(p) && IsReadable(q) && IsProper(p) && IsProper(q) && Text(p) == Text(q)
    ensures p == q
  {
    StartsLikeItsKind(p);
    StartsLikeItsKind(q);
    if HasOperator(p) && HasOperator(q) { SameOperators(p, q); }
    if p.Phrase? && q.Phrase? { QuotedIsInjective(p.value, q.value); }
  }

  /** A phrase starts with a quote, and only filters and settings of the others have a colon. */
  lemma StartsLikeItsKind(piece: Piece)
    requires IsReadable(piece) && IsProper(piece)
    ensures Text(piece) != "" && (Text(piece)[0] == '"' <==> piece.Phrase?)
    ensures !piece.Phrase? ==> (':' in Text(piece) <==> HasOperator(piece))
  {
    if HasOperator(piece) {
      OperatorsArePlain(piece);
      assert Text(piece)[|piece.operator|] == ':' && Text(piece)[0] == piece.operator[0];
    }
  }

  // ---------------------------------------------------------------- the filters from their pieces

  /** The values that were printed for one field. */
  function Values(pieces: seq<Piece>, kind: Kind): seq<string> {
    if pieces == [] then []
    else (if IsOf(pieces[0], kind) then [ValueOf(pieces[0])] else []) + Values(pieces[1..], kind)
  }

  predicate IsOf(piece: Piece, kind: Kind) {
    match kind
    case Terms => piece.Bare?
    case Phrases => piece.Phrase?
    case List(operator) => piece.Filter? && piece.operator == operator
  }

  function ValueOf(piece: Piece): string { if piece.Bare? then piece.text else piece.value }

  lemma {:induction false} ValuesAdd(a: seq<Piece>, b: seq<Piece>, kind: Kind)
    ensures Values(a + b, kind) == Values(a, kind) + Values(b, kind)
  {
    if a == [] {
      assert a + b == b;
    } else {
      assert (a + b)[1..] == a[1..] + b;
      ValuesAdd(a[1..], b, kind);
    }
  }

  lemma {:induction false} ValuesOfEach(values: seq<string>, kind: Kind, of: Kind)
    ensures Values(Each(kind, values), of) == if kind == of then values else []
  {
    if values != [] {
      assert Each(kind, values)[1..] == Each(kind, values[1..]);
      ValuesOfEach(values[1..], kind, of);
    }
  }

  lemma {:induction false} NoValuesInSettings(pieces: seq<Piece>, kind: Kind)
    requires forall i :: 0 <= i < |pieces| ==> pieces[i].Setting?
    ensures Values(pieces, kind) == []
  {
    if pieces != [] { NoValuesInSettings(pieces[1..], kind); }
  }

  function FieldOf(f: Filters, kind: Kind): seq<string> {
    match kind
    case Terms => f.terms
    case Phrases => f.phrases
    case List(operator) => ListOf(f, operator)
  }

  function ListOf(f: Filters, operator: string): seq<string> {
    if operator == "from" then f.from else if operator == "to" then f.to
    else if operator == "subject" then f.subject else if operator == "filename" then f.filename
    else if operator == "in" then f.folders else []
  }

  lemma ValuesOfLists(f: Filters, kind: Kind)
    ensures Values(Lists(f), kind) == if kind.List? then ListOf(f, kind.operator) else []
  {
    var files, folders := Each(List("filename"), f.filename), Each(List("in"), f.folders);
    ValuesAdd(files, folders, kind);
    ValuesAdd(Each(List("subject"), f.subject), files + folders, kind);
    ValuesAdd(Each(List("to"), f.to), Each(List("subject"), f.subject) + (files + folders), kind);
    ValuesAdd(Each(List("from"), f.from),
              Each(List("to"), f.to) + (Each(List("subject"), f.subject) + (files + folders)), kind);
    ValuesOfEach(f.from, List("from"), kind);
    ValuesOfEach(f.to, List("to"), kind);
    ValuesOfEach(f.subject, List("subject"), kind);
    ValuesOfEach(f.filename, List("filename"), kind);
    ValuesOfEach(f.folders, List("in"), kind);
  }

  /** Every field is the values that were printed for it. */
  lemma FieldIsPrinted(f: Filters, kind: Kind)
    ensures Values(Pieces(f), kind) == FieldOf(f, kind)
  {
    ValuesAdd(Lists(f), Flags(f), kind);
    ValuesAdd(Each(Phrases, f.phrases), Lists(f) + Flags(f), kind);
    ValuesAdd(Each(Terms, f.terms), Each(Phrases, f.phrases) + (Lists(f) + Flags(f)), kind);
    ValuesOfEach(f.terms, Terms, kind);
    ValuesOfEach(f.phrases, Phrases, kind);
    ValuesOfLists(f, kind);
    FlagsAreSettings(f);
    NoValuesInSettings(Flags(f), kind);
  }

  lemma FlagsAreSettings(f: Filters)
    ensures forall i :: 0 <= i < |Flags(f)| ==> Flags(f)[i].Setting? && IsProper(Flags(f)[i])
  {
  }

  lemma {:induction false} EachHasNoSetting(kind: Kind, values: seq<string>)
    ensures forall i :: 0 <= i < |Each(kind, values)| ==> !Each(kind, values)[i].Setting?
  {
    if values != [] { EachHasNoSetting(kind, values[1..]); }
  }

  lemma ListsHaveNoSetting(f: Filters)
    ensures forall i :: 0 <= i < |Lists(f)| ==> !Lists(f)[i].Setting?
  {
    EachHasNoSetting(List("from"), f.from);
    EachHasNoSetting(List("to"), f.to);
    EachHasNoSetting(List("subject"), f.subject);
    EachHasNoSetting(List("filename"), f.filename);
    EachHasNoSetting(List("in"), f.folders);
  }

  lemma NotIn(pieces: seq<Piece>, piece: Piece)
    requires piece.Setting? && forall i :: 0 <= i < |pieces| ==> !pieces[i].Setting?
    ensures piece !in pieces
  {
  }

  /** The settings of the printed text are the flags and the dates. */
  lemma SettingsArePrinted(f: Filters, piece: Piece)
    requires piece.Setting?
    ensures piece in Pieces(f) <==> piece in Flags(f)
  {
    EachHasNoSetting(Terms, f.terms);
    EachHasNoSetting(Phrases, f.phrases);
    ListsHaveNoSetting(f);
    NotIn(Each(Terms, f.terms), piece);
    NotIn(Each(Phrases, f.phrases), piece);
    NotIn(Lists(f), piece);
  }

  lemma IsFlag(f: Filters, piece: Piece)
    ensures piece in Flags(f) <==>
      || (f.isRead.Some? && piece == Setting("is", if f.isRead.value then "read" else "unread"))
      || (f.isStarred.Some? && piece == Setting("is", if f.isStarred.value then "starred" else "unstarred"))
      || (f.hasAttachment && piece == Setting("has", "attachment"))
      || piece in Dates(f)
  {
  }

  lemma IsDate(f: Filters, piece: Piece)
    ensures piece in Dates(f) <==>
      || (f.after.Some? && piece == Setting("after", f.after.value))
      || (f.before.Some? && piece == Setting("before", f.before.value))
  {
  }

  lemma WordsDiffer()
    ensures "read" != "unread" && "read" != "starred" && "read" != "unstarred" && "unread" != "starred"
    ensures "unread" != "unstarred" && "starred" != "unstarred" && "is" != "has" && "is" != "after" && "is" != "before"
    ensures "has" != "after" && "has" != "before" && "after" != "before"
  {
    assert |"read"| == 4 && |"unread"| == 6 && |"starred"| == 7 && |"unstarred"| == 9;
  }

  lemma ReadFlagTells(f: Filters, read: bool)
    ensures Setting("is", if read then "read" else "unread") in Flags(f) <==> f.isRead == Some(read)
  {
    var piece := Setting("is", if read then "read" else "unread");
    WordsDiffer();
    IsFlag(f, piece);
    IsDate(f, piece);
  }

  lemma StarFlagTells(f: Filters, starred: bool)
    ensures Setting("is", if starred then "starred" else "unstarred") in Flags(f) <==> f.isStarred == Some(starred)
  {
    var piece := Setting("is", if starred then "starred" else "unstarred");
    WordsDiffer();
    IsFlag(f, piece);
    IsDate(f, piece);
  }

  lemma AttachmentFlagTells(f: Filters)
    ensures Setting("has", "attachment") in Flags(f) <==> f.hasAttachment
  {
    WordsDiffer();
    IsFlag(f, Setting("has", "attachment"));
    IsDate(f, Setting("has", "attachment"));
  }

  lemma FlagsTell(f: Filters)
    ensures Setting("is", "read") in Flags(f) <==> f.isRead == Some(true)
    ensures Setting("is", "unread") in Flags(f) <==> f.isRead == Some(false)
    ensures Setting("is", "starred") in Flags(f) <==> f.isStarred == Some(true)
    ensures Setting("is", "unstarred") in Flags(f) <==> f.isStarred == Some(false)
    ensures Setting("has", "attachment") in Flags(f) <==> f.hasAttachment
  {
    ReadFlagTells(f, true);
    ReadFlagTells(f, false);
    StarFlagTells(f, true);
    StarFlagTells(f, false);
    AttachmentFlagTells(f);
  }

  lemma DatesTell(f: Filters, date: string)
    ensures Setting("after", date) in Flags(f) <==> f.after == Some(date)
    ensures Setting("before", date) in Flags(f) <==> f.before == Some(date)
  {
    WordsDiffer();
    IsFlag(f, Setting("after", date));
    IsFlag(f, Setting("before", date));
    IsDate(f, Setting("after", date));
    IsDate(f, Setting("before", date));
  }

  lemma SamePiecesSameFlags(f: Filters, g: Filters)
    requires Pieces(f) == Pieces(g)
    ensures f.isRead == g.isRead && f.isStarred == g.isStarred && f.hasAttachment == g.hasAttachment
  {
    FlagsTell(f);
    FlagsTell(g);
    SameSetting(f, g, Setting("is", "read"));
    SameSetting(f, g, Setting("is", "unread"));
    SameSetting(f, g, Setting("is", "starred"));
    SameSetting(f, g, Setting("is", "unstarred"));
    SameSetting(f, g, Setting("has", "attachment"));
  }

  lemma SameSetting(f: Filters, g: Filters, piece: Piece)
    requires Pieces(f) == Pieces(g) && piece.Setting?
    ensures piece in Flags(f) <==> piece in Flags(g)
  {
    SettingsArePrinted(f, piece);
    SettingsArePrinted(g, piece);
  }

  lemma SameDate(f: Filters, g: Filters, date: string)
    requires Pieces(f) == Pieces(g)
    ensures f.after == Some(date) <==> g.after == Some(date)
    ensures f.before == Some(date) <==> g.before == Some(date)
  {
    DatesTell(f, date);
    DatesTell(g, date);
    SameSetting(f, g, Setting("after", date));
    SameSetting(f, g, Setting("before", date));
  }

  lemma SamePiecesSameDates(f: Filters, g: Filters)
    requires Pieces(f) == Pieces(g)
    ensures f.after == g.after && f.before == g.before
  {
    if f.after.Some? { SameDate(f, g, f.after.value); }
    if g.after.Some? { SameDate(f, g, g.after.value); }
    if f.before.Some? { SameDate(f, g, f.before.value); }
    if g.before.Some? { SameDate(f, g, g.before.value); }
  }

  lemma SameField(f: Filters, g: Filters, kind: Kind)
    requires Pieces(f) == Pieces(g)
    ensures FieldOf(f, kind) == FieldOf(g, kind)
  {
    FieldIsPrinted(f, kind);
    FieldIsPrinted(g, kind);
  }

  lemma PiecesAreInjective(f: Filters, g: Filters)
    requires Pieces(f) == Pieces(g)
    ensures f == g
  {
    SamePiecesSameFlags(f, g);
    SamePiecesSameDates(f, g);
    SameField(f, g, Terms);
    SameField(f, g, Phrases);
    SameField(f, g, List("from"));
    SameField(f, g, List("to"));
    SameField(f, g, List("subject"));
    SameField(f, g, List("filename"));
    SameField(f, g, List("in"));
  }

  lemma {:induction false} EachIsProper(kind: Kind, values: seq<string>)
    requires kind.Terms? ==> forall i :: 0 <= i < |values| ==> ':' !in values[i]
    requires kind.List? ==> IsList(kind.operator)
    ensures AreProper(Each(kind, values))
  {
    if values != [] {
      assert forall i :: 0 <= i < |values[1..]| ==> values[1..][i] == values[i + 1];
      EachIsProper(kind, values[1..]);
    }
  }

  lemma BothProper(a: seq<Piece>, b: seq<Piece>)
    requires AreProper(a) && AreProper(b)
    ensures AreProper(a + b)
  {
  }

  lemma PiecesAreProper(normal: string -> bool, f: Filters)
    requires Printable(normal, f)
    ensures AreProper(Pieces(f))
  {
    EachIsProper(Terms, f.terms);
    EachIsProper(Phrases, f.phrases);
    ListsAreProper(f);
    FlagsAreSettings(f);
    BothProper(Lists(f), Flags(f));
    BothProper(Each(Phrases, f.phrases), Lists(f) + Flags(f));
  }

  lemma ListsAreProper(f: Filters)
    ensures AreProper(Lists(f))
  {
    EachIsProper(List("from"), f.from);
    EachIsProper(List("to"), f.to);
    EachIsProper(List("subject"), f.subject);
    EachIsProper(List("filename"), f.filename);
    EachIsProper(List("in"), f.folders);
  }

  /** Different filters are printed differently, whatever they hold. */
  lemma PrintingIsInjective(lower: Casing, normal: string -> bool, f: Filters, g: Filters, allowEmpty: bool)
    requires Serialize(lower, normal, f, allowEmpty).Some?
    requires Serialize(lower, normal, f, allowEmpty) == Serialize(lower, normal, g, allowEmpty)
    ensures f == g
  {
    PiecesAreReadable(normal, f);
    PiecesAreReadable(normal, g);
    PiecesAreProper(normal, f);
    PiecesAreProper(normal, g);
    JoinIsInjective(Pieces(f), Pieces(g));
    PiecesAreInjective(f, g);
  }
}
