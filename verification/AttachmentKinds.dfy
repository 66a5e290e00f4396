/** The attachment classifier, the SQL expression generated from the same tables, and the
    LIKE pattern of the filename search. */
module AttachmentKinds {
  import opened Wrappers
  import opened Characters

  datatype Kind = ImageKind | PdfKind | DocumentKind | SpreadsheetKind | PresentationKind | ArchiveKind | OtherKind

  /** One kind with its MIME types or its extensions. */
  datatype Entry = Entry(kind: Kind, values: seq<string>)

  type Table = seq<Entry>

  const VENDOR := "application/vnd."
  const OPEN_XML := VENDOR + "openxmlformats-officedocument."

  const MIME_BY_KIND: Table := [
    Entry(ImageKind, ["image/avif", "image/bmp", "image/gif", "image/heic", "image/heif", "image/jpeg", "image/png",
                      "image/svg+xml", "image/tiff", "image/webp"]),
    Entry(PdfKind, ["application/pdf"]),
    Entry(DocumentKind, ["application/msword", "application/rtf", VENDOR + "oasis.opendocument.text",
                         OPEN_XML + "wordprocessingml.document", "text/plain", "text/rtf"]),
    Entry(SpreadsheetKind, [VENDOR + "ms-excel", VENDOR + "oasis.opendocument.spreadsheet",
                            OPEN_XML + "spreadsheetml.sheet", "text/csv"]),
    Entry(PresentationKind, [VENDOR + "ms-powerpoint", VENDOR + "oasis.opendocument.presentation",
                             OPEN_XML + "presentationml.presentation"]),
    Entry(ArchiveKind, ["application/gzip", VENDOR + "rar", "application/x-7z-compressed", "application/x-bzip2",
                        "application/x-rar-compressed", "application/x-tar", "application/zip"])]

  const EXTENSIONS_BY_KIND: Table := [
    Entry(ImageKind, ["avif", "bmp", "gif", "heic", "heif", "jpeg", "jpg", "png", "svg", "tif", "tiff", "webp"]),
    Entry(PdfKind, ["pdf"]),
    Entry(DocumentKind, ["doc", "docx", "odt", "rtf", "txt"]),
    Entry(SpreadsheetKind, ["csv", "ods", "xls", "xlsx"]),
    Entry(PresentationKind, ["odp", "ppt", "pptx"]),
    Entry(ArchiveKind, ["7z", "bz2", "gz", "rar", "tar", "tgz", "zip"])]

  // ---------------------------------------------------------------- the classifier

  /** The first kind of the table that lists the value. */
  function KindOf(table: Table, value: string): Option<Kind> {
    if table == [] then None
    else if value in table[0].values then Some(table[0].kind)
    else KindOf(table[1..], value)
  }

  function BeforeSemicolon(value: string): string {
    match IndexOf(value, ";", 0)
    case None => value
    case Some(i) => value[..i]
  }

  function BaseMime(value: string): string { Lower(Trim(BeforeSemicolon(value))) }

  predicate IsAlphanumeric(c: char) { 'a' <= c <= 'z' || IsDigit(c) }

  predicate IsExtension(s: string) { s != "" && forall i :: 0 <= i < |s| ==> IsAlphanumeric(s[i]) }

  /** Where the last run of alphanumeric characters of `s[..end]` starts. */
  function RunStart(s: string, end: nat): (r: nat)
    requires end <= |s|
    ensures r <= end && (forall i :: r <= i < end ==> IsAlphanumeric(s[i])) && (r > 0 ==> !IsAlphanumeric(s[r - 1]))
  {
    if end > 0 && IsAlphanumeric(s[end - 1]) then RunStart(s, end - 1) else end
  }

  /** What follows the last dot, if that is alphanumeric to the end. */
  function ExtensionIn(s: string): string {
    var start := RunStart(s, |s|);
    if start == |s| || start == 0 || s[start - 1] != '.' then "" else s[start..]
  }

  function Extension(filename: string): string { ExtensionIn(Lower(Trim(filename))) }

  function Classify(mimes: Table, extensions: Table, filename: string, mimetype: string): Kind {
    match KindOf(mimes, BaseMime(mimetype))
    case Some(kind) => kind
    case None =>
      match KindOf(extensions, Extension(filename))
      case Some(kind) => kind
      case None => OtherKind
  }

  method ClassifyMailboxAttachment(mimes: Table, extensions: Table, filename: string, mimetype: string)
        returns (kind: Kind)
    ensures kind == Classify(mimes, extensions, filename, mimetype)
  {
    var mime := BaseMime(mimetype);
    for i := 0 to |mimes|
      invariant KindOf(mimes, mime) == KindOf(mimes[i..], mime)
    {
      assert mimes[i..][1..] == mimes[i + 1..];
      if mime in mimes[i].values { return mimes[i].kind; }
    }
    var ext := Extension(filename);
    for i := 0 to |extensions|
      invariant KindOf(extensions, ext) == KindOf(extensions[i..], ext)
    {
      assert extensions[i..][1..] == extensions[i + 1..];
      if ext in extensions[i].values { return extensions[i].kind; }
    }
    return OtherKind;
  }

  // ---------------------------------------------------------------- SQL

  /** The part of SQLite's expressions that is generated. */
  datatype Expr =
    | Filename | Mimetype
    | Text(text: string)
    | Coalesce(first: Expr, second: Expr)
    | LowerOf(of: Expr)
    | TrimOf(of: Expr)
    | IfContains(of: Expr, needle: char, yes: Expr, no: Expr)
    | Before(of: Expr, needle: char)

  datatype Condition = IsIn(expr: Expr, values: seq<string>) | LikeAny(expr: Expr, patterns: seq<string>)

  datatype Clause = Clause(condition: Condition, kind: Kind)

  datatype Row = Row(filename: Option<string>, mimetype: Option<string>)

  /** `trim` removes blanks and nothing else. */
  function TrimBlanks(s: string): string { BlankEnd(BlankStart(s)) }

  function BlankStart(s: string): string { if s != "" && s[0] == ' ' then BlankStart(s[1..]) else s }

  function BlankEnd(s: string): string { if s != "" && s[|s| - 1] == ' ' then BlankEnd(s[..|s| - 1]) else s }

  /** The value of an expression, `None` for NULL. `lower` folds ASCII letters only. */
  function Eval(e: Expr, row: Row): Option<string> {
    match e
    case Filename => row.filename
    case Mimetype => row.mimetype
    case Text(text) => Some(text)
    case Coalesce(first, second) => if Eval(first, row).Some? then Eval(first, row) else Eval(second, row)
    case LowerOf(of) => if Eval(of, row).None? then None else Some(LowerEach(Eval(of, row).value))
    case TrimOf(of) => if Eval(of, row).None? then None else Some(TrimBlanks(Eval(of, row).value))
    case IfContains(of, needle, yes, no) =>
      if Eval(of, row).Some? && needle in Eval(of, row).value then Eval(yes, row) else Eval(no, row)
    case Before(of, needle) =>
      if Eval(of, row).None? then None
      else
        match IndexOf(Eval(of, row).value, [needle], 0) {
          case None => Some("")
          case Some(i) => Some(Eval(of, row).value[..i])
        }
  }

  predicate Same(a: char, b: char) { LowerChar(a) == LowerChar(b) }

  /** LIKE: `%` stands for any text, `_` for one character, and ASCII letters match in either
      case. After the escape character, if there is one, a character stands for itself. */
  predicate Like(pattern: string, s: string, escape: Option<char>)
    decreases |pattern| + |s|
  {
    if pattern == "" then s == ""
    else if escape == Some(pattern[0]) then
      |pattern| > 1 && s != "" && Same(pattern[1], s[0]) && Like(pattern[2..], s[1..], escape)
    else if pattern[0] == '%' then Like(pattern[1..], s, escape) || (s != "" && Like(pattern, s[1..], escape))
    else s != "" && (pattern[0] == '_' || Same(pattern[0], s[0])) && Like(pattern[1..], s[1..], escape)
  }

  predicate Holds(c: Condition, row: Row) {
    match c
    case IsIn(expr, values) => Eval(expr, row).Some? && Eval(expr, row).value in values
    case LikeAny(expr, patterns) =>
      Eval(expr, row).Some? && exists i :: 0 <= i < |patterns| && Like(patterns[i], Eval(expr, row).value, None)
  }

  /** A CASE yields the first clause that holds. */
  function EvalCase(clauses: seq<Clause>, row: Row): Kind {
    if clauses == [] then OtherKind
    else if Holds(clauses[0].condition, row) then clauses[0].kind
    else EvalCase(clauses[1..], row)
  }

  const MIME: Expr :=
    LowerOf(TrimOf(IfContains(Coalesce(Mimetype, Text("")), ';', Before(Coalesce(Mimetype, Text("")), ';'),
                              Coalesce(Mimetype, Text("")))))

  const FILENAME: Expr := LowerOf(TrimOf(Coalesce(Filename, Text(""))))

  function Suffixes(values: seq<string>): seq<string> {
    seq(|values|, i requires 0 <= i < |values| => "%." + values[i])
  }

  function MimeClauses(mimes: Table): seq<Clause> {
    seq(|mimes|, i requires 0 <= i < |mimes| => Clause(IsIn(MIME, mimes[i].values), mimes[i].kind))
  }

  function ExtensionClauses(extensions: Table): seq<Clause> {
    seq(|extensions|, i requires 0 <= i < |extensions| =>
      Clause(LikeAny(FILENAME, Suffixes(extensions[i].values)), extensions[i].kind))
  }

  /** The generated CASE expression. */
  method MailboxAttachmentKindSql(mimes: Table, extensions: Table) returns (clauses: seq<Clause>)
    ensures clauses == MimeClauses(mimes) + ExtensionClauses(extensions)
  {
    clauses := [];
    for i := 0 to |mimes|
      invariant clauses == MimeClauses(mimes)[..i]
    {
      clauses := clauses + [Clause(IsIn(MIME, mimes[i].values), mimes[i].kind)];
    }
    for i := 0 to |extensions|
      invariant clauses == MimeClauses(mimes) + ExtensionClauses(extensions)[..i]
    {
      clauses := clauses + [Clause(LikeAny(FILENAME, Suffixes(extensions[i].values)), extensions[i].kind)];
    }
  }

  // ---------------------------------------------------------------- what LIKE matches

  /** A pattern of plain characters matches the text itself, up to the case of ASCII letters. */
  lemma {:induction false} PlainLike(pattern: string, s: string)
    requires '%' !in pattern && '_' !in pattern
    ensures Like(pattern, s, None) <==> LowerEach(pattern) == LowerEach(s)
    decreases |pattern|
  {
    if pattern == "" {
    } else if s != "" {
      PlainLike(pattern[1..], s[1..]);
      LowerEachSplits(pattern);
      LowerEachSplits(s);
    }
  }

  lemma LowerEachSplits(s: string)
    requires s != ""
    ensures LowerEach(s) == [LowerChar(s[0])] + LowerEach(s[1..])
    ensures LowerEach(s)[0] == LowerChar(s[0]) && LowerEach(s)[1..] == LowerEach(s[1..])
  {
  }

  predicate EndsWith(s: string, suffix: string) { |suffix| <= |s| && s[|s| - |suffix|..] == suffix }

  /** A leading `%` matches any text before what the rest matches. */
  lemma {:induction false} AnyThen(pattern: string, s: string)
    requires '%' !in pattern && '_' !in pattern
    ensures Like("%" + pattern, s, None) <==> EndsWith(LowerEach(s), LowerEach(pattern))
    decreases |s|
  {
    assert ("%" + pattern)[1..] == pattern;
    PlainLike(pattern, s);
    if s == "" {
    } else {
      AnyThen(pattern, s[1..]);
      LowerEachSplits(s);
      if |pattern| < |s| {
        assert LowerEach(s)[|s| - |pattern|..] == LowerEach(s[1..])[|s| - 1 - |pattern|..];
      } else if |pattern| == |s| {
        assert LowerEach(s)[0..] == LowerEach(s);
      }
    }
  }

  // ---------------------------------------------------------------- the generated query means the classifier

  predicate Ascii(s: string) { forall i :: 0 <= i < |s| ==> s[i] as int < 0x80 }

  /** Once the blanks are gone there is nothing more to trim. */
  predicate PaddedByBlanks(s: string) { Trimmed(TrimBlanks(s)) }

  lemma {:induction false} BlankEndKeepsFirst(s: string)
    ensures BlankEnd(s) <= s && (BlankEnd(s) == "" || BlankEnd(s)[0] == s[0])
    ensures s != "" && s[0] != ' ' ==> BlankEnd(s) != ""
    ensures BlankEnd(s) != "" && !IsSpace(BlankEnd(s)[|BlankEnd(s)| - 1]) ==> TrimEnd(s) == BlankEnd(s)
    ensures BlankEnd(s) == "" ==> TrimEnd(s) == ""
    decreases |s|
  {
    if s != "" && s[|s| - 1] == ' ' {
      BlankEndKeepsFirst(s[..|s| - 1]);
    }
  }

  lemma {:induction false} BlankStartKeepsFirst(s: string)
    ensures BlankStart(s) == "" || BlankStart(s)[0] != ' '
    ensures BlankStart(s) == "" || !IsSpace(BlankStart(s)[0]) ==> TrimStart(s) == BlankStart(s)
    decreases |s|
  {
    if s != "" && s[0] == ' ' { BlankStartKeepsFirst(s[1..]); }
  }

  lemma BlanksAreAll(s: string)
    requires PaddedByBlanks(s)
    ensures Trim(s) == TrimBlanks(s)
  {
    BlankStartKeepsFirst(s);
    BlankEndKeepsFirst(BlankStart(s));
  }

  lemma {:induction false} BlankEndIsAscii(s: string)
    requires Ascii(s)
    ensures Ascii(BlankEnd(s))
    decreases |s|
  {
    if s != "" && s[|s| - 1] == ' ' { BlankEndIsAscii(s[..|s| - 1]); }
  }

  lemma {:induction false} BlankStartIsAscii(s: string)
    requires Ascii(s)
    ensures Ascii(BlankStart(s))
    decreases |s|
  {
    if s != "" && s[0] == ' ' {
      assert forall i :: 0 <= i < |s[1..]| ==> s[1..][i] == s[i + 1];
      BlankStartIsAscii(s[1..]);
    }
  }

  /** On such texts SQL's `lower(trim(...))` and the classifier's agree. */
  lemma TrimmedAndLowered(s: string)
    requires Ascii(s) && PaddedByBlanks(s)
    ensures Lower(Trim(s)) == LowerEach(TrimBlanks(s))
  {
    BlanksAreAll(s);
    BlankStartIsAscii(s);
    BlankEndIsAscii(BlankStart(s));
    LowerIsAligned(TrimBlanks(s));
  }

  lemma {:induction false} RunStartIs(s: string, end: nat, k: nat)
    requires k <= end <= |s| && forall i :: k <= i < end ==> IsAlphanumeric(s[i])
    requires k > 0 ==> !IsAlphanumeric(s[k - 1])
    ensures RunStart(s, end) == k
  {
    if k < end { RunStartIs(s, end - 1, k); }
  }

  /** The extension is `v` exactly when the text ends with a dot and `v`. */
  lemma ExtensionIsSuffix(s: string, v: string)
    requires IsExtension(v)
    ensures ExtensionIn(s) == v <==> EndsWith(s, "." + v)
  {
    var start := RunStart(s, |s|);
    if EndsWith(s, "." + v) {
      var k := |s| - |v|;
      assert s[k - 1..] == "." + v;
      assert s[k - 1] == s[k - 1..][0] == '.';
      assert forall i :: k <= i < |s| ==> s[i] == s[k - 1..][i - k + 1] == v[i - k];
      RunStartIs(s, |s|, k);
      assert s[k..] == s[k - 1..][1..] == v;
    }
    if ExtensionIn(s) == v {
      assert s[start..] == v;
      assert s[start - 1..] == [s[start - 1]] + s[start..];
    }
  }

  lemma ExtensionLike(s: string, v: string)
    requires IsExtension(v)
    ensures Like("%." + v, LowerEach(s), None) <==> ExtensionIn(LowerEach(s)) == v
  {
    var suffix := "." + v;
    assert "%." + v == "%" + suffix;
    AnyThen(suffix, LowerEach(s));
    assert LowerEach(LowerEach(s)) == LowerEach(s);
    assert LowerEach(suffix) == suffix by {
      forall i | 0 <= i < |suffix| ensures LowerChar(suffix[i]) == suffix[i] {
        if i > 0 { assert suffix[i] == v[i - 1]; }
      }
    }
    ExtensionIsSuffix(LowerEach(s), v);
  }

  function OrEmpty(value: Option<string>): string { if value.Some? then value.value else "" }

  /** What the two column expressions come to. */
  function NameValue(row: Row): string { LowerEach(TrimBlanks(OrEmpty(row.filename))) }

  function MimeValue(row: Row): string { LowerEach(TrimBlanks(BeforeSemicolon(OrEmpty(row.mimetype)))) }

  lemma EvalFilename(row: Row)
    ensures Eval(FILENAME, row) == Some(NameValue(row))
  {
    var name := Coalesce(Filename, Text(""));
    assert Eval(name, row) == Some(OrEmpty(row.filename));
    assert Eval(TrimOf(name), row) == Some(TrimBlanks(OrEmpty(row.filename)));
  }

  lemma EvalMime(row: Row)
    ensures Eval(MIME, row) == Some(MimeValue(row))
  {
    var m, column := OrEmpty(row.mimetype), Coalesce(Mimetype, Text(""));
    assert Eval(column, row) == Some(m);
    assert [';'] == ";";
    if ';' in m {
      var i :| 0 <= i < |m| && m[i] == ';';
      assert m[i..i + 1] == ";";
      IndexOfIsLeast(m, ";", 0, i);
    } else {
      NoSemicolon(m);
    }
    var part := IfContains(column, ';', Before(column, ';'), column);
    assert Eval(part, row) == Some(BeforeSemicolon(m));
    assert Eval(TrimOf(part), row) == Some(TrimBlanks(BeforeSemicolon(m)));
  }

  lemma NoSemicolon(s: string)
    requires ';' !in s
    ensures BeforeSemicolon(s) == s
  {
    if IndexOf(s, ";", 0).Some? { StartsWithFirst(s, ";", IndexOf(s, ";", 0).value); }
  }

  lemma {:induction false} MimesFirst(mimes: Table, rest: seq<Clause>, row: Row)
    ensures EvalCase(MimeClauses(mimes) + rest, row)
         == match KindOf(mimes, MimeValue(row))
            case Some(kind) => kind
            case None => EvalCase(rest, row)
    decreases |mimes|
  {
    EvalMime(row);
    if mimes == [] {
      assert MimeClauses(mimes) + rest == rest;
    } else {
      MimesFirst(mimes[1..], rest, row);
      assert (MimeClauses(mimes) + rest)[1..] == MimeClauses(mimes[1..]) + rest;
    }
  }

  /** Every extension of the table can be told by a suffix. */
  predicate AreExtensions(extensions: Table) {
    forall i, j :: 0 <= i < |extensions| && 0 <= j < |extensions[i].values| ==> IsExtension(extensions[i].values[j])
  }

  lemma SuffixListed(values: seq<string>, row: Row)
    requires forall j :: 0 <= j < |values| ==> IsExtension(values[j])
    ensures Holds(LikeAny(FILENAME, Suffixes(values)), row) <==> ExtensionIn(NameValue(row)) in values
  {
    EvalFilename(row);
    var s := TrimBlanks(OrEmpty(row.filename));
    forall j | 0 <= j < |values|
      ensures Like(Suffixes(values)[j], LowerEach(s), None) <==> ExtensionIn(LowerEach(s)) == values[j]
    {
      ExtensionLike(s, values[j]);
    }
    if Holds(LikeAny(FILENAME, Suffixes(values)), row) {
      var j :| 0 <= j < |Suffixes(values)| && Like(Suffixes(values)[j], LowerEach(s), None);
      assert values[j] in values;
    }
    if ExtensionIn(LowerEach(s)) in values {
      var j :| 0 <= j < |values| && values[j] == ExtensionIn(LowerEach(s));
      assert Like(Suffixes(values)[j], LowerEach(s), None);
    }
  }

  lemma {:induction false} ExtensionsNext(extensions: Table, row: Row)
    requires AreExtensions(extensions)
    ensures EvalCase(ExtensionClauses(extensions), row)
         == match KindOf(extensions, ExtensionIn(NameValue(row)))
            case Some(kind) => kind
            case None => OtherKind
    decreases |extensions|
  {
    EvalFilename(row);
    if extensions != [] {
      SuffixListed(extensions[0].values, row);
      assert forall i :: 0 <= i < |extensions[1..]| ==> extensions[1..][i] == extensions[i + 1];
      ExtensionsNext(extensions[1..], row);
      assert ExtensionClauses(extensions)[1..] == ExtensionClauses(extensions[1..]);
    }
  }

  /** The generated CASE gives every attachment the kind the classifier gives it, as long as
      the file name and the MIME type are ASCII and padded by nothing but blanks. */
  lemma GeneratedSqlClassifies(mimes: Table, extensions: Table, row: Row)
    requires AreExtensions(extensions)
    requires Ascii(OrEmpty(row.filename)) && Ascii(BeforeSemicolon(OrEmpty(row.mimetype)))
    requires PaddedByBlanks(OrEmpty(row.filename)) && PaddedByBlanks(BeforeSemicolon(OrEmpty(row.mimetype)))
    ensures EvalCase(MimeClauses(mimes) + ExtensionClauses(extensions), row)
         == Classify(mimes, extensions, OrEmpty(row.filename), OrEmpty(row.mimetype))
  {
    EvalMime(row);
    EvalFilename(row);
    TrimmedAndLowered(OrEmpty(row.filename));
    TrimmedAndLowered(BeforeSemicolon(OrEmpty(row.mimetype)));
    MimesFirst(mimes, ExtensionClauses(extensions), row);
    ExtensionsNext(extensions, row);
  }

  lemma TableHasExtensions()
    ensures AreExtensions(EXTENSIONS_BY_KIND)
  {
    forall i, j | 0 <= i < |EXTENSIONS_BY_KIND| && 0 <= j < |EXTENSIONS_BY_KIND[i].values|
      ensures IsExtension(EXTENSIONS_BY_KIND[i].values[j])
    {
    }
  }

  /** So it does with the tables of the application. */
  lemma MailboxSqlClassifies(row: Row)
    requires Ascii(OrEmpty(row.filename)) && Ascii(BeforeSemicolon(OrEmpty(row.mimetype)))
    requires PaddedByBlanks(OrEmpty(row.filename)) && PaddedByBlanks(BeforeSemicolon(OrEmpty(row.mimetype)))
    ensures EvalCase(MimeClauses(MIME_BY_KIND) + ExtensionClauses(EXTENSIONS_BY_KIND), row)
         == Classify(MIME_BY_KIND, EXTENSIONS_BY_KIND, OrEmpty(row.filename), OrEmpty(row.mimetype))
  {
    TableHasExtensions();
    GeneratedSqlClassifies(MIME_BY_KIND, EXTENSIONS_BY_KIND, row);
  }

  // ---------------------------------------------------------------- white space that is no blank

  /** No other white space is left at the end once the blanks are gone. */
  predicate EndsInBlanks(s: string) { TrimBlanks(s) == "" || !IsSpace(TrimBlanks(s)[|TrimBlanks(s)| - 1]) }

  predicate AreTrimmed(mimes: Table) {
    forall i, j :: 0 <= i < |mimes| && 0 <= j < |mimes[i].values| ==> Trimmed(mimes[i].values[j])
  }

  lemma {:induction false} UnlistedHasNoKind(table: Table, value: string)
    requires forall i :: 0 <= i < |table| ==> value !in table[i].values
    ensures KindOf(table, value) == None
  {
    if table != [] { UnlistedHasNoKind(table[1..], value); }
  }

  /** White space that the query leaves hides the MIME type. */
  lemma PaddedMimeHasNoKind(mimes: Table, row: Row)
    requires AreTrimmed(mimes) && !PaddedByBlanks(BeforeSemicolon(OrEmpty(row.mimetype)))
    ensures KindOf(mimes, MimeValue(row)) == None
  {
    var part := TrimBlanks(BeforeSemicolon(OrEmpty(row.mimetype)));
    assert MimeValue(row)[0] == LowerChar(part[0]) && MimeValue(row)[|part| - 1] == LowerChar(part[|part| - 1]);
    assert !Trimmed(MimeValue(row));
    UnlistedHasNoKind(mimes, MimeValue(row));
  }

  /** Behind the last dot only white space at the end matters. */
  lemma PaddedNameHasNoExtension(row: Row)
    requires !EndsInBlanks(OrEmpty(row.filename))
    ensures ExtensionIn(NameValue(row)) == ""
  {
    var b := TrimBlanks(OrEmpty(row.filename));
    assert NameValue(row)[|b| - 1] == LowerChar(b[|b| - 1]);
  }

  lemma NoExtensionHasNoKind(extensions: Table)
    requires AreExtensions(extensions)
    ensures KindOf(extensions, "") == None
  {
    UnlistedHasNoKind(extensions, "");
  }

  lemma {:induction false} TrimStartSkips(s: string) returns (n: nat)
    ensures n <= |s| && TrimStart(s) == s[n..] && (forall i :: 0 <= i < n ==> IsSpace(s[i]))
  {
    if s != "" && IsSpace(s[0]) {
      var m := TrimStartSkips(s[1..]);
      n := m + 1;
      assert forall i :: 0 < i < n ==> s[i] == s[1..][i - 1];
    } else {
      n := 0;
    }
  }

  lemma {:induction false} TrimEndOfRest(s: string, n: nat)
    requires n <= |TrimEnd(s)|
    ensures n <= |s| && TrimEnd(s[n..]) == TrimEnd(s)[n..]
    decreases |s|
  {
    if s != "" && IsSpace(s[|s| - 1]) {
      TrimEndOfRest(s[..|s| - 1], n);
      assert s[n..][..|s| - n - 1] == s[..|s| - 1][n..];
    }
  }

  lemma {:induction false} BlanksFirst(s: string)
    ensures TrimStart(BlankStart(s)) == TrimStart(s)
  {
    if s != "" && s[0] == ' ' { BlanksFirst(s[1..]); }
  }

  /** Where only blanks are at the end, trimming the rest takes white space off the front. */
  lemma TrimsTheFront(s: string) returns (n: nat)
    requires EndsInBlanks(s)
    ensures n <= |TrimBlanks(s)| && Trim(s) == TrimBlanks(s)[n..]
    ensures forall i :: 0 <= i < n ==> IsSpace(TrimBlanks(s)[i])
  {
    BlanksFirst(s);
    BlankStartKeepsFirst(s);
    n := EndsThenStart(BlankStart(s));
  }

  lemma EndsThenStart(x: string) returns (n: nat)
    requires var b := BlankEnd(x); b == "" || !IsSpace(b[|b| - 1])
    requires x == "" || x[0] != ' '
    ensures n <= |BlankEnd(x)| && TrimEnd(TrimStart(x)) == BlankEnd(x)[n..]
    ensures forall i :: 0 <= i < n ==> IsSpace(BlankEnd(x)[i])
  {
    BlankEndKeepsFirst(x);
    if x == "" {
      n := 0;
    } else {
      n := TrimStartSkips(x);
      LastStays(x, BlankEnd(x), n);
      TrimEndOfRest(x, n);
    }
  }

  lemma LastStays(x: string, b: string, n: nat)
    requires b <= x && b != "" && !IsSpace(b[|b| - 1]) && n <= |x| && forall i :: 0 <= i < n ==> IsSpace(x[i])
    ensures n <= |b| && forall i :: 0 <= i < n ==> IsSpace(b[i])
  {
    assert b[|b| - 1] == x[|b| - 1];
  }

  lemma {:induction false} RunStartBehind(s: string, n: nat, end: nat)
    requires n <= end <= |s| && forall i :: 0 <= i < n ==> !IsAlphanumeric(s[i])
    ensures RunStart(s, end) == n + RunStart(s[n..], end - n)
    decreases end
  {
    if end > n && IsAlphanumeric(s[end - 1]) { RunStartBehind(s, n, end - 1); }
  }

  /** White space in front does not change the extension. */
  lemma ExtensionBehind(s: string, n: nat)
    requires n <= |s| && forall i :: 0 <= i < n ==> !IsAlphanumeric(s[i]) && s[i] != '.'
    ensures ExtensionIn(s[n..]) == ExtensionIn(s)
  {
    RunStartBehind(s, n, |s|);
    ExtensionFrom(s, n, s[n..], RunStart(s[n..], |s| - n));
  }

  lemma ExtensionFrom(s: string, n: nat, t: string, start: nat)
    requires n <= |s| && t == s[n..] && start == RunStart(t, |t|) && RunStart(s, |s|) == n + start
    requires n > 0 ==> s[n - 1] != '.'
    ensures ExtensionIn(t) == ExtensionIn(s)
  {
    if start < |t| {
      if start > 0 { SameFrom(s, n, t, start); }
    }
  }

  lemma SameFrom(s: string, n: nat, t: string, start: nat)
    requires n <= |s| && t == s[n..] && 0 < start < |t|
    ensures t[start..] == s[n + start..] && t[start - 1] == s[n + start - 1]
  {
  }

  lemma SpacesLower(s: string, n: nat)
    requires n <= |s| && forall i :: 0 <= i < n ==> IsSpace(s[i])
    ensures forall i :: 0 <= i < n ==> !IsAlphanumeric(LowerEach(s)[i]) && LowerEach(s)[i] != '.'
    ensures LowerEach(s)[n..] == LowerEach(s[n..])
  {
  }

  lemma TrimBlanksIsAscii(s: string)
    requires Ascii(s)
    ensures Ascii(TrimBlanks(s))
  {
    BlankStartIsAscii(s);
    BlankEndIsAscii(BlankStart(s));
  }

  lemma SameExtension(row: Row)
    requires Ascii(OrEmpty(row.filename)) && EndsInBlanks(OrEmpty(row.filename))
    ensures ExtensionIn(NameValue(row)) == Extension(OrEmpty(row.filename))
  {
    var f := OrEmpty(row.filename);
    var b := TrimBlanks(f);
    var n := TrimsTheFront(f);
    SpacesLower(b, n);
    ExtensionBehind(LowerEach(b), n);
    TrimBlanksIsAscii(f);
    AsciiLowers(b[n..]);
  }

  lemma AsciiLowers(s: string)
    requires Ascii(s)
    ensures Lower(s) == LowerEach(s)
  {
    assert DOTTED_I !in s;
    LowerIsAligned(s);
  }

  /** The classifier knows the kind, and the query misses it: by the MIME type if there is other white
      space than blanks around it and the file name does not make up for it, by the file name if there
      is such white space at its end. */
  predicate Misses(mimes: Table, extensions: Table, row: Row) {
    var f, part := OrEmpty(row.filename), BeforeSemicolon(OrEmpty(row.mimetype));
    var byMime, byName := KindOf(mimes, BaseMime(OrEmpty(row.mimetype))), KindOf(extensions, Extension(f));
    match byMime
    case Some(kind) =>
      !PaddedByBlanks(part) && kind != (if EndsInBlanks(f) && byName.Some? then byName.value else OtherKind)
    case None => !EndsInBlanks(f) && byName.Some? && byName.value != OtherKind
  }

  /** On ASCII rows, exactly when the generated CASE and the classifier differ. */
  lemma SqlClassifiesExactly(mimes: Table, extensions: Table, row: Row)
    requires AreExtensions(extensions) && AreTrimmed(mimes)
    requires Ascii(OrEmpty(row.filename)) && Ascii(BeforeSemicolon(OrEmpty(row.mimetype)))
    ensures EvalCase(MimeClauses(mimes) + ExtensionClauses(extensions), row)
         == Classify(mimes, extensions, OrEmpty(row.filename), OrEmpty(row.mimetype))
       <==> !Misses(mimes, extensions, row)
  {
    MimesFirst(mimes, ExtensionClauses(extensions), row);
    ExtensionsNext(extensions, row);
    NoExtensionHasNoKind(extensions);
    var part := BeforeSemicolon(OrEmpty(row.mimetype));
    if PaddedByBlanks(part) { TrimmedAndLowered(part); } else { PaddedMimeHasNoKind(mimes, row); }
    if EndsInBlanks(OrEmpty(row.filename)) { SameExtension(row); } else { PaddedNameHasNoExtension(row); }
  }

  /** The ends of the text are no white space. */
  predicate HasPlainEnds(s: string) { s != "" && '!' <= s[0] <= '~' && '!' <= s[|s| - 1] <= '~' }

  lemma EntryHasPlainEnds(i: nat)
    requires i < |MIME_BY_KIND|
    ensures forall j :: 0 <= j < |MIME_BY_KIND[i].values| ==> HasPlainEnds(MIME_BY_KIND[i].values[j])
  {
    var values := MIME_BY_KIND[i].values;
    forall j | 0 <= j < |values| ensures HasPlainEnds(values[j]) {
    }
  }

  lemma TableIsTrimmed()
    ensures AreTrimmed(MIME_BY_KIND)
  {
    forall i, j | 0 <= i < |MIME_BY_KIND| && 0 <= j < |MIME_BY_KIND[i].values|
      ensures Trimmed(MIME_BY_KIND[i].values[j])
    {
      EntryHasPlainEnds(i);
    }
  }

  lemma MailboxSqlClassifiesExactly(row: Row)
    requires Ascii(OrEmpty(row.filename)) && Ascii(BeforeSemicolon(OrEmpty(row.mimetype)))
    ensures EvalCase(MimeClauses(MIME_BY_KIND) + ExtensionClauses(EXTENSIONS_BY_KIND), row)
         == Classify(MIME_BY_KIND, EXTENSIONS_BY_KIND, OrEmpty(row.filename), OrEmpty(row.mimetype))
       <==> !Misses(MIME_BY_KIND, EXTENSIONS_BY_KIND, row)
  {
    TableHasExtensions();
    TableIsTrimmed();
    SqlClassifiesExactly(MIME_BY_KIND, EXTENSIONS_BY_KIND, row);
  }

  lemma TrimsTab(word: string)
    requires word != "" && Trimmed(word)
    ensures Trim(word + "\t") == word && TrimBlanks(word + "\t") == word + "\t"
  {
    var padded := word + "\t";
    assert padded[..|padded| - 1] == word && padded[|padded| - 1] == '\t' && padded[0] == word[0];
    TrimStartTrims(padded);
    TrimEndTrims(word);
  }

  /** A MIME type padded by a tab, such as `image/png` and a tab, has a kind to the classifier
      and none to the query. */
  lemma TabsTellThemApart(word: string, kind: Kind)
    requires word != "" && Trimmed(word) && Ascii(word) && LowerEach(word) == word && ';' !in word
    ensures var mimes := [Entry(kind, [word])];
            && Classify(mimes, [], "", word + "\t") == kind
            && EvalCase(MimeClauses(mimes) + ExtensionClauses([]), Row(Some(""), Some(word + "\t"))) == OtherKind
  {
    var mimes, padded := [Entry(kind, [word])], word + "\t";
    var row := Row(Some(""), Some(padded));
    MimesFirst(mimes, ExtensionClauses([]), row);
    NoSemicolon(padded);
    TrimsTab(word);
    LowerIsAligned(word);
    assert |MimeValue(row)| == |word| + 1;
    OneEntry(kind, word, word);
    OneEntry(kind, word, MimeValue(row));
  }

  lemma OneEntry(kind: Kind, word: string, value: string)
    ensures KindOf([Entry(kind, [word])], value) == if value == word then Some(kind) else None
  {
    assert [Entry(kind, [word])][1..] == [];
  }

  // ---------------------------------------------------------------- the filename search

  const LIKE_PATTERN_BYTES := 50

  predicate IsWild(c: char) { c == '\\' || c == '%' || c == '_' }

  function EscapeLike(value: string): string {
    if value == "" then "" else (if IsWild(value[0]) then ['\\', value[0]] else [value[0]]) + EscapeLike(value[1..])
  }

  /** The pattern for names that contain `value`, unless it is too long. */
  function FilenameLikePattern(value: string): Option<string> {
    var pattern := "%" + EscapeLike(value) + "%";
    if ByteLength(pattern) > LIKE_PATTERN_BYTES then None else Some(pattern)
  }

  /** `value` occurs in `s`, up to the case of ASCII letters. */
  predicate Contains(s: string, value: string) {
    exists i :: 0 <= i <= |s| && Occurs(s, value, i)
  }

  predicate Occurs(s: string, value: string, i: nat)
    requires i <= |s|
  {
    i + |value| <= |s| && LowerEach(s[i..i + |value|]) == LowerEach(value)
  }

  lemma {:induction false} EscapedLike(value: string, tail: string, s: string)
    ensures Like(EscapeLike(value) + tail, s, Some('\\'))
       <==> Occurs(s, value, 0) && Like(tail, s[|value|..], Some('\\'))
    decreases |value|
  {
    if value == "" {
      assert EscapeLike(value) + tail == tail && s[0..] == s;
    } else {
      var rest := EscapeLike(value[1..]) + tail;
      var pattern := EscapeLike(value) + tail;
      if IsWild(value[0]) {
        assert pattern == ['\\', value[0]] + rest;
        assert pattern[2..] == rest;
      } else {
        assert pattern == [value[0]] + rest;
        assert pattern[1..] == rest;
      }
      if s != "" {
        EscapedLike(value[1..], tail, s[1..]);
        OccursSteps(s, value);
        if |value| <= |s| { assert s[1..][|value| - 1..] == s[|value|..]; }
      }
    }
  }

  lemma OccursSteps(s: string, value: string)
    requires s != "" && value != ""
    ensures Occurs(s, value, 0) <==> Same(value[0], s[0]) && Occurs(s[1..], value[1..], 0)
  {
    LowerEachSplits(value);
    if |value| <= |s| {
      assert s[0..|value|][1..] == s[1..][0..|value| - 1];
      LowerEachSplits(s[0..|value|]);
    }
  }

  lemma OccursLater(s: string, value: string, i: nat)
    requires s != "" && i < |s|
    ensures Occurs(s[1..], value, i) <==> Occurs(s, value, i + 1)
  {
    if i + 1 + |value| <= |s| {
      assert s[1..][i..i + |value|] == s[i + 1..i + 1 + |value|];
    }
  }

  lemma ContainsSteps(s: string, value: string)
    requires s != ""
    ensures Contains(s, value) <==> Occurs(s, value, 0) || Contains(s[1..], value)
  {
    if Contains(s[1..], value) {
      var i :| 0 <= i <= |s[1..]| && Occurs(s[1..], value, i);
      OccursLater(s, value, i);
    }
    if Contains(s, value) && !Occurs(s, value, 0) {
      var i :| 0 <= i <= |s| && Occurs(s, value, i);
      OccursLater(s, value, i - 1);
    }
  }

  lemma {:induction false} PercentMatchesAll(s: string)
    ensures Like("%", s, Some('\\'))
    decreases |s|
  {
    assert "%"[1..] == "";
    if s != "" { PercentMatchesAll(s[1..]); }
  }

  /** The pattern between its wild cards matches the names that contain the value. */
  lemma {:induction false} EscapedMatchesContaining(value: string, s: string)
    ensures Like("%" + EscapeLike(value) + "%", s, Some('\\')) <==> Contains(s, value)
    decreases |s|
  {
    var pattern := "%" + EscapeLike(value) + "%";
    assert pattern[1..] == EscapeLike(value) + "%";
    EscapedLike(value, "%", s);
    if Occurs(s, value, 0) { PercentMatchesAll(s[|value|..]); }
    if s != "" {
      EscapedMatchesContaining(value, s[1..]);
      ContainsSteps(s, value);
    }
  }

  function Wilds(value: string): nat {
    if value == "" then 0 else (if IsWild(value[0]) then 1 else 0) + Wilds(value[1..])
  }

  lemma {:induction false} EscapedLength(value: string)
    ensures ByteLength(EscapeLike(value)) == ByteLength(value) + Wilds(value)
  {
    if value != "" {
      var first := if IsWild(value[0]) then ['\\', value[0]] else [value[0]];
      EscapedLength(value[1..]);
      ByteLengthAdds(first, EscapeLike(value[1..]));
      OneOrTwo(value[0]);
    }
  }

  lemma OneOrTwo(c: char)
    ensures ByteLength([c]) == Utf8Width(c) && (IsWild(c) ==> ByteLength(['\\', c]) == 1 + Utf8Width(c))
  {
    assert [c][1..] == "" && ['\\', c][1..] == [c];
  }

  /** There is a pattern exactly if the query, with one byte more for each wild card in it, has at
      most 48 bytes; with the backslash as the escape character, it matches exactly the names that
      contain the query up to the case of ASCII letters. */
  lemma PatternMatchesContaining(value: string)
    ensures FilenameLikePattern(value).None? <==> ByteLength(value) + Wilds(value) > LIKE_PATTERN_BYTES - 2
    ensures FilenameLikePattern(value).Some? ==>
              forall s :: Like(FilenameLikePattern(value).value, s, Some('\\')) <==> Contains(s, value)
  {
    ByteLengthAdds("%" + EscapeLike(value), "%");
    ByteLengthAdds("%", EscapeLike(value));
    OneOrTwo('%');
    EscapedLength(value);
    forall s ensures Like("%" + EscapeLike(value) + "%", s, Some('\\')) <==> Contains(s, value) {
      EscapedMatchesContaining(value, s);
    }
  }
}
