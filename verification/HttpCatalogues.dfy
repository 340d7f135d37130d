/**
 * The path-aware catalogue: which rows are kept, the four-field list that is
 * sent, and a parser for it after section 2 of RFC 4180. Folding to lower case
 * is a library function and stays a parameter.
 */
module HttpCatalogues {
  import opened Common
  import opened Utf8Text
  import opened HttpPaths

  const STARTUP_MAX := 12
  const TITLE_MAX := 160
  const PATH_MAX := 255
  const CATALOG_BYTES_MAX := 262144
  const CATALOG_ROWS_MAX := 2048
  const URI_MAX := 768
  const BASE_PATH_MAX := 64

  const QUOTE: Code := 34
  const COMMA: Code := 44
  const NEWLINE: Code := 10
  const BACKSLASH: Code := 92
  const SCHEME: Text := [58, 47, 47]
  /** ".iso" and ".zso". */
  const ISO: Text := [46, 105, 115, 111]
  const ZSO: Text := [46, 122, 115, 111]

  datatype Media = CD | DVD
  {
    function Name(): Text { if CD? then [67, 68] else [68, 86, 68] }
  }

  /** A game: its identity, title, medium, advertised path, and the host file behind it. */
  datatype Row = Row(startup: Text, title: Text, media: Media, path: Text, file: Text)

  type Fold = Text -> Text

  // ----- Which rows the console would refuse -----

  datatype Problem =
    | Blank | Missing | ControlCharacter | NotUtf8 | TooLong
    | Url | Absolute | Backslash | EmptySegment | ParentSegment | WrongExtension | UriTooLong

  predicate IsBlank(c: Code) { c == 32 || c == 9 }

  predicate IsControl(c: Code) { c < 0x20 || c == 0x7F }

  function FieldProblem(value: Text, limit: nat): Option<Problem> {
    if value != [] && (IsBlank(value[0]) || IsBlank(value[|value| - 1])) then Some(Blank)
    else if value == [] then Some(Missing)
    else if exists i | 0 <= i < |value| :: IsControl(value[i]) then Some(ControlCharacter)
    else if !Encodable(value) then Some(NotUtf8)
    else if |Encode(value)| > limit then Some(TooLong)
    else None
  }

  function SegmentProblem(parts: seq<Text>): Option<Problem> {
    if parts == [] then None
    else if parts[0] == [] || parts[0] == DOT then Some(EmptySegment)
    else if parts[0] == DOTDOT then Some(ParentSegment)
    else SegmentProblem(parts[1..])
  }

  predicate EndsWith(t: Text, suffix: Text) { |suffix| <= |t| && t[|t| - |suffix|..] == suffix }

  predicate StartsAt(t: Text, i: nat, part: Text) { i + |part| <= |t| && t[i..i + |part|] == part }

  predicate Contains(t: Text, part: Text) { exists i | 0 <= i <= |t| :: StartsAt(t, i, part) }

  function PathProblem(lower: Fold, path: Text): Option<Problem> {
    if Contains(path, SCHEME) then Some(Url)
    else if path != [] && path[0] == SLASH then Some(Absolute)
    else if BACKSLASH in path then Some(Backslash)
    else if SegmentProblem(Segments(path)).Some? then SegmentProblem(Segments(path))
    else if !(EndsWith(lower(path), ISO) || EndsWith(lower(path), ZSO)) || |path| <= 4 then Some(WrongExtension)
    else if |PercentEncode(path)| + BASE_PATH_MAX >= URI_MAX then Some(UriTooLong)
    else None
  }

  function RowProblem(lower: Fold, row: Row): Option<Problem> {
    if FieldProblem(row.startup, STARTUP_MAX).Some? then FieldProblem(row.startup, STARTUP_MAX)
    else if FieldProblem(row.title, TITLE_MAX).Some? then FieldProblem(row.title, TITLE_MAX)
    else if FieldProblem(row.path, PATH_MAX).Some? then FieldProblem(row.path, PATH_MAX)
    else PathProblem(lower, row.path)
  }

  predicate Good(lower: Fold, row: Row) { RowProblem(lower, row).None? }

  lemma {:induction false} SegmentProblemFound(parts: seq<Text>)
    requires forall i | 0 <= i < |parts| :: NoSlash(parts[i])
    ensures SegmentProblem(parts).None? <==> forall i | 0 <= i < |parts| :: ProperSegment(parts[i])
  {
    if parts != [] {
      SegmentProblemFound(parts[1..]);
      assert forall i | 0 <= i < |parts[1..]| :: parts[1..][i] == parts[i + 1];
      assert forall i | 1 <= i < |parts| :: parts[i] == parts[1..][i - 1];
    }
  }

  /** A row the console accepts has a path that survives encoding, decoding and normalising. */
  lemma GoodRowHasProperPath(lower: Fold, row: Row)
    requires Good(lower, row)
    ensures Proper(Segments(row.path)) && Encodable(row.path) && Encodable(row.startup) && Encodable(row.title)
    ensures 0 !in row.path
  {
    SegmentProblemFound(Segments(row.path));
  }

  // ----- The same rules, as the console states them -----

  /** Not empty, no blank at either end, no control byte, and within its limit in UTF-8. */
  predicate CleanField(value: Text, limit: nat) {
    && value != [] && !IsBlank(value[0]) && !IsBlank(value[|value| - 1])
    && (forall i | 0 <= i < |value| :: 0x20 <= value[i] != 0x7F) && Encodable(value) && |Encode(value)| <= limit
  }

  /** How many characters the console spends on a path once encoded: three for each escaped byte. */
  function EncodedLength(t: Text): nat {
    if t == [] then 0 else (if Unreserved(t[0]) then 1 else 3 * |EncodeOne(t[0])|) + EncodedLength(t[1..])
  }

  /** A relative path of proper segments to an .iso or .zso file, with room for the base path before it. */
  ghost predicate CleanPath(lower: Fold, path: Text) {
    && Proper(Segments(path)) && BACKSLASH !in path && (forall i: nat :: !StartsAt(path, i, SCHEME))
    && (EndsWith(lower(path), ISO) || EndsWith(lower(path), ZSO)) && |path| > 4
    && EncodedLength(path) + BASE_PATH_MAX < URI_MAX
  }

  lemma {:induction false} EscapedLength(s: Bytes)
    ensures |Escaped(s)| == 3 * |s|
  {
    if s != [] { EscapedLength(s[1..]); }
  }

  lemma {:induction false} EncodedLengthIsExact(t: Text)
    ensures |PercentEncode(t)| == EncodedLength(t)
  {
    hide Escaped, EncodeOne;
    if t != [] {
      EscapedLength(EncodeOne(t[0]));
      EncodedLengthIsExact(t[1..]);
    }
  }

  lemma FieldIsClean(value: Text, limit: nat)
    ensures FieldProblem(value, limit).None? <==> CleanField(value, limit)
  {
    hide Encode, Encodable;
    if value != [] && forall i | 0 <= i < |value| :: 0x20 <= value[i] != 0x7F {
      assert forall i | 0 <= i < |value| :: !IsControl(value[i]);
    } else if value != [] {
      var i :| 0 <= i < |value| && !(0x20 <= value[i] != 0x7F);
      assert IsControl(value[i]);
    }
  }

  lemma {:induction false} SlashStartsSegments(path: Text)
    requires path != [] && path[0] == SLASH
    ensures !Proper(Segments(path))
  {
    assert Segments(path)[0] == [] && !ProperSegment(Segments(path)[0]);
  }

  lemma PathIsClean(lower: Fold, path: Text)
    ensures PathProblem(lower, path).None? <==> CleanPath(lower, path)
  {
    hide Segments, PercentEncode, EncodedLength, StartsAt;
    EncodedLengthIsExact(path);
    SegmentProblemFound(Segments(path));
    if path != [] && path[0] == SLASH { SlashStartsSegments(path); }
    if forall i: nat :: !StartsAt(path, i, SCHEME) {
      assert !Contains(path, SCHEME);
    } else {
      var i: nat :| StartsAt(path, i, SCHEME);
      StartsInside(path, i, SCHEME);
      assert Contains(path, SCHEME);
    }
  }

  lemma StartsInside(t: Text, i: nat, part: Text)
    requires StartsAt(t, i, part)
    ensures i <= |t|
  {
  }

  /** The checks in their order refuse exactly the rows that break a rule. */
  lemma GoodRowsAreClean(lower: Fold, row: Row)
    ensures Good(lower, row)
            <==> CleanField(row.startup, 12) && CleanField(row.title, 160) && CleanField(row.path, 255) && CleanPath(lower, row.path)
  {
    hide FieldProblem, CleanField, PathProblem, CleanPath;
    FieldIsClean(row.startup, STARTUP_MAX);
    FieldIsClean(row.title, TITLE_MAX);
    FieldIsClean(row.path, PATH_MAX);
    PathIsClean(lower, row.path);
  }

  // ----- The list -----

  function Doubled(t: Text): Text {
    if t == [] then [] else (if t[0] == QUOTE then [QUOTE, QUOTE] else [t[0]]) + Doubled(t[1..])
  }

  function Quoted(t: Text): Text { [QUOTE] + Doubled(t) + [QUOTE] }

  function Line(row: Row): Text {
    Quoted(row.startup) + [COMMA] + (Quoted(row.title) + [COMMA] + (row.media.Name() + [COMMA]
      + (Quoted(row.path) + [NEWLINE])))
  }

  function Lines(rows: seq<Row>): Text {
    if rows == [] then [] else Lines(rows[..|rows| - 1]) + Line(rows[|rows| - 1])
  }

  datatype Build = Build(retained: seq<Row>, startups: set<Text>, size: nat, invalid: nat, duplicate: nat, dropped: nat)

  const NOTHING := Build([], {}, 0, 0, 0, 0)

  predicate Full(b: Build, row: Row) {
    |b.retained| >= CATALOG_ROWS_MAX || b.size + |Encode(Line(row))| > CATALOG_BYTES_MAX
  }

  function Added(lower: Fold, b: Build, row: Row): Build {
    if !Good(lower, row) then b.(invalid := b.invalid + 1)
    else if row.startup in b.startups then b.(duplicate := b.duplicate + 1)
    else if Full(b, row) then b.(dropped := b.dropped + 1)
    else b.(retained := b.retained + [row], startups := b.startups + {row.startup}, size := b.size + |Encode(Line(row))|)
  }

  function Built(lower: Fold, rows: seq<Row>, n: nat): Build
    requires n <= |rows|
  {
    if n == 0 then NOTHING else Added(lower, Built(lower, rows, n - 1), rows[n - 1])
  }

  /** The rows kept have distinct STARTUPs, and those are the ones recorded. */
  ghost predicate StartupsRecorded(b: Build) {
    && (forall i | 0 <= i < |b.retained| :: b.retained[i].startup in b.startups)
    && (forall s | s in b.startups :: exists i :: 0 <= i < |b.retained| && b.retained[i].startup == s)
    && (forall i, j | 0 <= i < j < |b.retained| :: b.retained[i].startup != b.retained[j].startup)
  }

  /** What the console demands of a list, and that every row went somewhere. */
  ghost predicate WithinLimits(lower: Fold, b: Build, n: nat) {
    && |b.retained| <= CATALOG_ROWS_MAX && b.size <= CATALOG_BYTES_MAX
    && n == |b.retained| + b.invalid + b.duplicate + b.dropped
    && (forall i | 0 <= i < |b.retained| :: Good(lower, b.retained[i]))
    && StartupsRecorded(b)
    && b.size == |Encode(Lines(b.retained))|
  }

  lemma StartupAdded(b: Build, c: Build, row: Row)
    requires StartupsRecorded(b) && row.startup !in b.startups
    requires c.retained == b.retained + [row] && c.startups == b.startups + {row.startup}
    ensures StartupsRecorded(c)
  {
    forall s | s in c.startups
      ensures exists i :: 0 <= i < |c.retained| && c.retained[i].startup == s
    {
      if s in b.startups {
        var i :| 0 <= i < |b.retained| && b.retained[i].startup == s;
        assert c.retained[i].startup == s;
      } else {
        assert c.retained[|b.retained|].startup == s;
      }
    }
  }

  lemma AddedWithinLimits(lower: Fold, b: Build, row: Row, n: nat)
    requires WithinLimits(lower, b, n)
    ensures WithinLimits(lower, Added(lower, b, row), n + 1)
  {
    hide Good, Encode, Line, StartupsRecorded;
    var c := Added(lower, b, row);
    if c.retained != b.retained {
      assert c.retained[..|c.retained| - 1] == b.retained;
      assert Lines(c.retained) == Lines(b.retained) + Line(row);
      EncodeAppend(Lines(b.retained), Line(row));
      StartupAdded(b, c, row);
    } else {
      SameStartups(b, c);
    }
  }

  lemma SameStartups(b: Build, c: Build)
    requires StartupsRecorded(b) && c.retained == b.retained && c.startups == b.startups
    ensures StartupsRecorded(c)
  {
  }

  /** At most 2048 rows and 262144 bytes, each STARTUP once, and every row counted in exactly one place. */
  lemma {:induction false} CatalogueWithinLimits(lower: Fold, rows: seq<Row>, n: nat)
    requires n <= |rows|
    ensures WithinLimits(lower, Built(lower, rows, n), n)
  {
    hide WithinLimits, Added;
    if n > 0 {
      CatalogueWithinLimits(lower, rows, n - 1);
      AddedWithinLimits(lower, Built(lower, rows, n - 1), rows[n - 1], n - 1);
    } else {
      NothingWithinLimits(lower);
    }
  }

  lemma NothingWithinLimits(lower: Fold)
    ensures WithinLimits(lower, NOTHING, 0)
  {
  }

  /** The retained rows are those of the given order at increasing positions. */
  lemma {:induction false} RetainedInOrder(lower: Fold, rows: seq<Row>, n: nat) returns (at: seq<nat>)
    requires n <= |rows|
    ensures var kept := Built(lower, rows, n).retained;
      && |at| == |kept| && (forall i | 0 <= i < |at| :: at[i] < n && rows[at[i]] == kept[i])
      && forall i, j | 0 <= i < j < |at| :: at[i] < at[j]
  {
    hide Good, Full;
    if n == 0 {
      at := [];
    } else {
      at := RetainedInOrder(lower, rows, n - 1);
      if Built(lower, rows, n).retained != Built(lower, rows, n - 1).retained { at := at + [n - 1]; }
    }
  }

  lemma AddedGrows(lower: Fold, b: Build, row: Row)
    ensures var c := Added(lower, b, row); b.retained <= c.retained && b.size <= c.size && b.startups <= c.startups
  {
    hide Good, Full;
  }

  lemma {:induction false} BuildGrows(lower: Fold, rows: seq<Row>, m: nat, n: nat)
    requires m <= n <= |rows|
    ensures Built(lower, rows, m).retained <= Built(lower, rows, n).retained
    ensures Built(lower, rows, m).size <= Built(lower, rows, n).size
    ensures Built(lower, rows, m).startups <= Built(lower, rows, n).startups
  {
    hide Added;
    if m < n {
      BuildGrows(lower, rows, m, n - 1);
      AddedGrows(lower, Built(lower, rows, n - 1), rows[n - 1]);
    }
  }

  /**
   * An acceptable row is left out only for an earlier row of its STARTUP that is retained, or because the finished
   * list has 2048 rows or its line would make it longer than 262144 bytes.
   */
  lemma NothingLeftOutNeedlessly(lower: Fold, rows: seq<Row>, i: nat)
    requires i < |rows| && Good(lower, rows[i]) && rows[i] !in Built(lower, rows, |rows|).retained
    ensures var kept := Built(lower, rows, |rows|).retained;
      || (exists k :: 0 <= k < i && rows[k] in kept && rows[k].startup == rows[i].startup)
      || |kept| == 2048 || |Encode(Lines(kept))| + |Encode(Line(rows[i]))| > 262144
  {
    hide Good, Encode, Line, Lines;
    BuildGrows(lower, rows, i, |rows|);
    BuildGrows(lower, rows, i + 1, |rows|);
    CatalogueWithinLimits(lower, rows, |rows|);
    CatalogueWithinLimits(lower, rows, i);
    var before, after := Built(lower, rows, i), Built(lower, rows, i + 1);
    assert after == Added(lower, before, rows[i]);
    if rows[i].startup in before.startups {
      var at := RetainedInOrder(lower, rows, i);
      var k :| 0 <= k < |before.retained| && before.retained[k].startup == rows[i].startup;
      var j := at[k];
      assert rows[j] == before.retained[k] == Built(lower, rows, |rows|).retained[k];
    } else {
      assert rows[i] in before.retained + [rows[i]];
      assert Full(before, rows[i]);
    }
  }

  /** How many of the first n rows break a rule. */
  function Refused(lower: Fold, rows: seq<Row>, n: nat): nat
    requires n <= |rows|
  {
    if n == 0 then 0 else Refused(lower, rows, n - 1) + if Good(lower, rows[n - 1]) then 0 else 1
  }

  /** How many of the first n rows are acceptable, but have the STARTUP of an earlier row that is retained. */
  function Repeats(lower: Fold, rows: seq<Row>, n: nat): nat
    requires n <= |rows|
  {
    if n == 0 then 0
    else
      var again := exists k | 0 <= k < n - 1 ::
        rows[k] in Built(lower, rows, n - 1).retained && rows[k].startup == rows[n - 1].startup;
      Repeats(lower, rows, n - 1) + if Good(lower, rows[n - 1]) && again then 1 else 0
  }

  /** The counters mean what they say; with the balance, all other rows that are not retained were dropped. */
  lemma {:induction false} CountersAreExact(lower: Fold, rows: seq<Row>, n: nat)
    requires n <= |rows|
    ensures var b := Built(lower, rows, n);
      && b.invalid == Refused(lower, rows, n) && b.duplicate == Repeats(lower, rows, n)
      && b.dropped == n - |b.retained| - b.invalid - b.duplicate
  {
    hide Good, Encode, Line, Lines;
    CatalogueWithinLimits(lower, rows, n);
    if n > 0 {
      CountersAreExact(lower, rows, n - 1);
      CatalogueWithinLimits(lower, rows, n - 1);
      var b := Built(lower, rows, n - 1);
      var startup := rows[n - 1].startup;
      if startup in b.startups {
        var at := RetainedInOrder(lower, rows, n - 1);
        var k :| 0 <= k < |b.retained| && b.retained[k].startup == startup;
        assert rows[at[k]] == b.retained[k];
      }
    }
  }

  method FillCatalogue(lower: Fold, rows: seq<Row>) returns (body: Bytes, dropped: nat, retained: seq<Row>)
    ensures var b := Built(lower, rows, |rows|);
      retained == b.retained && dropped == b.dropped && body == Encode(Lines(retained)) && |body| == b.size
  {
    hide Good, Encode, Line;
    body, dropped, retained := [], 0, [];
    var startups: set<Text> := {};
    NothingEncodes();
    for i := 0 to |rows|
      invariant var b := Built(lower, rows, i);
        retained == b.retained && startups == b.startups && dropped == b.dropped && |body| == b.size
      invariant body == Encode(Lines(retained))
    {
      var row := rows[i];
      if !Good(lower, row) || row.startup in startups { continue; }
      var line := Encode(Line(row));
      if |retained| >= CATALOG_ROWS_MAX || |body| + |line| > CATALOG_BYTES_MAX {
        dropped := dropped + 1;
        continue;
      }
      EncodeAppend(Lines(retained), Line(row));
      assert (retained + [row])[..|retained|] == retained;
      startups, body, retained := startups + {row.startup}, body + line, retained + [row];
    }
  }

  lemma NothingEncodes()
    ensures Encode([]) == []
  {
  }

  // ----- A parser for the list -----

  datatype FieldRead = FieldRead(value: Text, rest: Text)

  function Prepended(c: Code, r: Option<FieldRead>): Option<FieldRead> {
    if r.None? then None else Some(FieldRead([c] + r.value.value, r.value.rest))
  }

  /** A quoted field, from just after its opening quote; two quotes stand for one. */
  function ReadQuoted(s: Text): (r: Option<FieldRead>)
    ensures r.Some? ==> |r.value.rest| < |s|
    decreases |s|
  {
    if s == [] then None
    else if s[0] != QUOTE then Prepended(s[0], ReadQuoted(s[1..]))
    else if |s| > 1 && s[1] == QUOTE then Prepended(QUOTE, ReadQuoted(s[2..]))
    else Some(FieldRead([], s[1..]))
  }

  function ReadBare(s: Text): (r: FieldRead)
    ensures |r.rest| <= |s|
  {
    if s == [] || s[0] == COMMA || s[0] == NEWLINE then FieldRead([], s)
    else
      var later := ReadBare(s[1..]);
      FieldRead([s[0]] + later.value, later.rest)
  }

  function ReadField(s: Text): (r: Option<FieldRead>)
    ensures r.Some? ==> |r.value.rest| <= |s|
  {
    if s != [] && s[0] == QUOTE then ReadQuoted(s[1..]) else Some(ReadBare(s))
  }

  datatype RecordRead = RecordRead(fields: seq<Text>, rest: Text)

  function ReadRecord(s: Text): (r: Option<RecordRead>)
    ensures r.Some? && s != [] ==> |r.value.rest| < |s|
    decreases |s|
  {
    var field := ReadField(s);
    if field.None? then None
    else
      var value, rest := field.value.value, field.value.rest;
      if rest == [] then Some(RecordRead([value], []))
      else if rest[0] == NEWLINE then Some(RecordRead([value], rest[1..]))
      else if rest[0] != COMMA then None
      else
        var later := ReadRecord(rest[1..]);
        if later.None? then None else Some(RecordRead([value] + later.value.fields, later.value.rest))
  }

  function ParseCsv(s: Text): Option<seq<seq<Text>>>
    decreases |s|
  {
    if s == [] then Some([])
    else
      var first := ReadRecord(s);
      if first.None? then None
      else
        var rest := ParseCsv(first.value.rest);
        if rest.None? then None else Some([first.value.fields] + rest.value)
  }

  function FieldsOf(row: Row): seq<Text> { [row.startup, row.title, row.media.Name(), row.path] }

  /** One character of a quoted field, or its end. */
  lemma OneIsRead(c: Code, rest: Text)
    ensures c != QUOTE ==> ReadQuoted([c] + rest) == Prepended(c, ReadQuoted(rest))
    ensures ReadQuoted([QUOTE, QUOTE] + rest) == Prepended(QUOTE, ReadQuoted(rest))
    ensures rest == [] || rest[0] != QUOTE ==> ReadQuoted([QUOTE] + rest) == Some(FieldRead([], rest))
  {
    assert ([c] + rest)[1..] == rest && ([QUOTE] + rest)[1..] == rest && ([QUOTE, QUOTE] + rest)[2..] == rest;
  }

  lemma {:induction false} QuotedIsRead(t: Text, rest: Text)
    requires rest == [] || rest[0] != QUOTE
    ensures ReadQuoted(Doubled(t) + [QUOTE] + rest) == Some(FieldRead(t, rest))
  {
    hide ReadQuoted;
    if t == [] {
      OneIsRead(QUOTE, rest);
      assert Doubled(t) + [QUOTE] + rest == [QUOTE] + rest;
    } else {
      QuotedIsRead(t[1..], rest);
      var later := Doubled(t[1..]) + [QUOTE] + rest;
      OneIsRead(t[0], later);
      assert t == [t[0]] + t[1..];
      var first := if t[0] == QUOTE then [QUOTE, QUOTE] else [t[0]];
      assert Doubled(t) + [QUOTE] + rest == first + later;
    }
  }

  lemma QuotedFieldIsRead(t: Text, rest: Text)
    requires rest == [] || rest[0] != QUOTE
    ensures ReadField(Quoted(t) + rest) == Some(FieldRead(t, rest))
  {
    hide ReadQuoted, Doubled;
    QuotedIsRead(t, rest);
    assert (Quoted(t) + rest)[1..] == Doubled(t) + [QUOTE] + rest;
  }

  lemma MediaIsRead(m: Media, rest: Text)
    requires rest != [] && rest[0] == COMMA
    ensures ReadField(m.Name() + rest) == Some(FieldRead(m.Name(), rest))
  {
    BareIsRead(m.Name(), rest);
  }

  lemma {:induction false} BareIsRead(t: Text, rest: Text)
    requires rest == [] || rest[0] == COMMA || rest[0] == NEWLINE
    requires forall i | 0 <= i < |t| :: t[i] != COMMA && t[i] != NEWLINE
    ensures ReadBare(t + rest) == FieldRead(t, rest)
  {
    if t == [] {
      assert t + rest == rest;
    } else {
      BareIsRead(t[1..], rest);
      assert (t + rest)[1..] == t[1..] + rest;
      assert [t[0]] + t[1..] == t;
    }
  }

  /** A field followed by a comma, then the rest of a record. */
  lemma RecordStarts(s: Text, value: Text, after: Text)
    requires ReadField(s) == Some(FieldRead(value, [COMMA] + after)) && ReadRecord(after).Some?
    ensures ReadRecord(s) == Some(RecordRead([value] + ReadRecord(after).value.fields, ReadRecord(after).value.rest))
  {
    assert ([COMMA] + after)[1..] == after;
  }

  lemma LineIsRead(row: Row, rest: Text)
    ensures ReadRecord(Line(row) + rest) == Some(RecordRead(FieldsOf(row), rest))
  {
    hide ReadField, Quoted, Media.Name, ReadRecord;
    var last := [NEWLINE] + rest;
    var four := Quoted(row.path) + last;
    var three := row.media.Name() + ([COMMA] + four);
    var two := Quoted(row.title) + ([COMMA] + three);
    var one := Quoted(row.startup) + ([COMMA] + two);
    assert Line(row) + rest == one;
    QuotedFieldIsRead(row.path, last);
    LastField(four, row.path, rest);
    MediaIsRead(row.media, [COMMA] + four);
    RecordStarts(three, row.media.Name(), four);
    QuotedFieldIsRead(row.title, [COMMA] + three);
    RecordStarts(two, row.title, three);
    QuotedFieldIsRead(row.startup, [COMMA] + two);
    RecordStarts(one, row.startup, two);
    assert [row.startup] + ([row.title] + ([row.media.Name()] + [row.path])) == FieldsOf(row);
  }

  lemma LastField(s: Text, value: Text, rest: Text)
    requires ReadField(s) == Some(FieldRead(value, [NEWLINE] + rest))
    ensures ReadRecord(s) == Some(RecordRead([value], rest))
  {
    assert ([NEWLINE] + rest)[1..] == rest;
  }

  function AllFields(rows: seq<Row>): seq<seq<Text>> { seq(|rows|, i requires 0 <= i < |rows| => FieldsOf(rows[i])) }

  lemma {:induction false} LinesAreRead(rows: seq<Row>, rest: Text)
    requires ParseCsv(rest).Some?
    ensures ParseCsv(Lines(rows) + rest) == Some(AllFields(rows) + ParseCsv(rest).value)
  {
    hide ReadRecord, Line, FieldsOf;
    if rows == [] {
      assert Lines(rows) + rest == rest && AllFields(rows) + ParseCsv(rest).value == ParseCsv(rest).value;
    } else {
      var before, row := rows[..|rows| - 1], rows[|rows| - 1];
      var s := Line(row) + rest;
      LineIsRead(row, rest);
      LineNotEmpty(row);
      assert ParseCsv(s) == Some([FieldsOf(row)] + ParseCsv(rest).value);
      LinesAreRead(before, s);
      assert Lines(rows) + rest == Lines(before) + s;
      assert AllFields(rows) + ParseCsv(rest).value == AllFields(before) + ([FieldsOf(row)] + ParseCsv(rest).value);
    }
  }

  lemma LineNotEmpty(row: Row)
    ensures |Line(row)| >= 1
  {
  }

  lemma {:induction false} LinesEncodable(rows: seq<Row>)
    requires forall i | 0 <= i < |rows| :: Encodable(Line(rows[i]))
    ensures Encodable(Lines(rows))
  {
    hide Line;
    if rows != [] { LinesEncodable(rows[..|rows| - 1]); }
  }

  lemma {:induction false} DoubledEncodable(t: Text)
    requires Encodable(t)
    ensures Encodable(Doubled(t))
  {
    if t != [] { DoubledEncodable(t[1..]); }
  }

  lemma LineEncodable(row: Row)
    requires Encodable(row.startup) && Encodable(row.title) && Encodable(row.path)
    ensures Encodable(Line(row))
  {
    hide Doubled;
    DoubledEncodable(row.startup);
    DoubledEncodable(row.title);
    DoubledEncodable(row.path);
  }

  /**
   * Catalogue round trip: decoding and parsing the body gives back exactly the retained rows in
   * order, whatever quotes, commas, '#' or other characters their titles and paths contain.
   */
  lemma CatalogueRoundTrip(lower: Fold, rows: seq<Row>)
    ensures var kept := Built(lower, rows, |rows|).retained;
      && Decode(Encode(Lines(kept))) == Some(Lines(kept))
      && ParseCsv(Lines(kept)) == Some(AllFields(kept))
  {
    hide Good, Encode, Decode, Line, Built;
    var kept := Built(lower, rows, |rows|).retained;
    CatalogueWithinLimits(lower, rows, |rows|);
    forall i | 0 <= i < |kept|
      ensures Encodable(Line(kept[i]))
    {
      GoodRowHasProperPath(lower, kept[i]);
      LineEncodable(kept[i]);
    }
    LinesEncodable(kept);
    TextRoundTrip(Lines(kept));
    LinesAreRead(kept, []);
    assert Lines(kept) + [] == Lines(kept) && AllFields(kept) + [] == AllFields(kept);
  }
}
