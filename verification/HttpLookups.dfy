/**
 * The index behind the catalogue: exact paths first, then a folded path when it
 * names one file, for each whole-segment suffix of the request.
 */
module HttpLookups {
  import opened Common
  import opened Utf8Text
  import opened HttpPaths
  import opened HttpCatalogues
  import opened HttpListings

  datatype Index = Index(exact: map<Text, Row>, folded: map<Text, Row>, ambiguous: set<Text>)

  predicate Folds(lower: Fold, rows: seq<Row>, key: Text) { exists i :: 0 <= i < |rows| && lower(rows[i].path) == key }

  predicate FoldsTwice(lower: Fold, rows: seq<Row>, key: Text) {
    exists i, j :: 0 <= i < j < |rows| && lower(rows[i].path) == key && lower(rows[j].path) == key
  }

  /** The three tables say what they should about these rows. */
  ghost predicate Indexes(lower: Fold, ix: Index, rows: seq<Row>) {
    && (forall i | 0 <= i < |rows| :: rows[i].path in ix.exact && ix.exact[rows[i].path] == rows[i])
    && (forall p | p in ix.exact :: ix.exact[p] in rows && ix.exact[p].path == p)
    && (forall k :: k in ix.ambiguous <==> FoldsTwice(lower, rows, k))
    && (forall k :: k in ix.folded <==> Folds(lower, rows, k) && !FoldsTwice(lower, rows, k))
    && (forall k | k in ix.folded :: ix.folded[k] in rows && lower(ix.folded[k].path) == k)
  }

  // ----- Looking a request up -----

  function Lookup(lower: Fold, ix: Index, parts: seq<Text>): Option<Row> {
    if parts == [] then None
    else
      var candidate := Joined(parts);
      if candidate in ix.exact then Some(ix.exact[candidate])
      else if lower(candidate) in ix.ambiguous then None
      else if lower(candidate) in ix.folded then Some(ix.folded[lower(candidate)])
      else Lookup(lower, ix, parts[1..])
  }

  function LookupName(lower: Fold, ix: Index, name: Text): Option<Row> {
    Lookup(lower, ix, Segments(WithoutLeadingSlashes(NormPath(name))))
  }

  /** A request target, from the raw request line to the row that is served. */
  function Resolve(lower: Fold, ix: Index, raw: Text): Option<Row> {
    var name := NormalisedPath(raw);
    if name.None? then None else LookupName(lower, ix, name.value)
  }

  class GameIndex {
    const lower: Fold
    var csv: Bytes
    var exactPaths: map<Text, Row>
    var pathEntries: map<Text, Row>
    var ambiguousPaths: set<Text>

    function Model(): Index
      reads this
    {
      Index(exactPaths, pathEntries, ambiguousPaths)
    }

    constructor (lower: Fold)
      ensures this.lower == lower && Model() == Index(map[], map[], {}) && csv == []
    {
      this.lower := lower;
      csv, exactPaths, pathEntries, ambiguousPaths := [], map[], map[], {};
    }

    /** Index exactly the rows that are listed of the files found, in the order the scan found them. */
    method Rebuild(found: seq<Row>) returns (dropped: nat)
      modifies this
      ensures var b := Listed(lower, found);
        csv == Encode(Lines(b.retained)) && dropped == b.dropped && Indexes(lower, Model(), b.retained)
    {
      hide Built, Encode, Lines, Indexes, DistinctPaths, InListOrder, IsFirst;
      var candidates := ChooseCandidates(found);
      var body: Bytes, retained: seq<Row>;
      body, dropped, retained := BuildCatalogue(lower, candidates);
      ListedInOrder(lower, found);
      csv := body;
      IndexRows(retained);
    }

    method IndexRows(rows: seq<Row>)
      requires DistinctPaths(rows)
      modifies this`exactPaths, this`pathEntries, this`ambiguousPaths
      ensures Indexes(lower, Model(), rows)
    {
      hide Filling, DistinctPaths, Indexes;
      var exact: map<Text, Row>, folded: map<Text, Row>, ambiguous: set<Text> := map[], map[], {};
      NoRowsIndexed(lower);
      for i := 0 to |rows|
        invariant Filling(lower, exact, folded, ambiguous, rows[..i])
      {
        var row := rows[i];
        var key := lower(row.path);
        ghost var exactBefore, foldedBefore, ambiguousBefore := exact, folded, ambiguous;
        exact := exact[row.path := row];
        if key in folded {
          ambiguous := ambiguous + {key};
        } else {
          folded := folded[key := row];
        }
        NextRow(lower, exactBefore, foldedBefore, ambiguousBefore, rows, i);
      }
      assert rows[..|rows|] == rows;
      FilledIndexes(lower, exact, folded, ambiguous, rows);
      exactPaths, pathEntries, ambiguousPaths := exact, folded - ambiguous, ambiguous;
    }

    method LookupPath(name: Text) returns (entry: Option<Row>)
      ensures entry == LookupName(lower, Model(), name)
    {
      var normal := Normalise(name);
      var parts := Segments(WithoutLeadingSlashes(normal));
      for start := 0 to |parts|
        invariant Lookup(lower, Model(), parts) == Lookup(lower, Model(), parts[start..])
      {
        var candidate := Joined(parts[start..]);
        if candidate in exactPaths { return Some(exactPaths[candidate]); }
        var key := lower(candidate);
        if key in ambiguousPaths { return None; }
        if key in pathEntries { return Some(pathEntries[key]); }
        assert parts[start..][1..] == parts[start + 1..];
      }
      return None;
    }
  }

  // ----- Filling the tables -----

  /** The tables in the middle of the first pass: the folded table still holds a first row for ambiguous keys. */
  ghost predicate Filling(lower: Fold, exact: map<Text, Row>, folded: map<Text, Row>, ambiguous: set<Text>, rows: seq<Row>) {
    && (forall i | 0 <= i < |rows| :: rows[i].path in exact && exact[rows[i].path] == rows[i])
    && (forall p | p in exact :: exact[p] in rows && exact[p].path == p)
    && (forall k :: k in ambiguous <==> FoldsTwice(lower, rows, k))
    && (forall k :: k in folded <==> Folds(lower, rows, k))
    && (forall k | k in folded :: folded[k] in rows && lower(folded[k].path) == k)
  }

  lemma NoRowsIndexed(lower: Fold)
    ensures Filling(lower, map[], map[], {}, [])
  {
  }

  lemma NewPath(rows: seq<Row>, i: nat)
    requires i < |rows| && DistinctPaths(rows)
    ensures forall j | 0 <= j < |rows[..i]| :: rows[..i][j].path != rows[i].path
  {
  }

  lemma FoldsOneMore(lower: Fold, rows: seq<Row>, row: Row, key: Text)
    ensures Folds(lower, rows + [row], key) <==> Folds(lower, rows, key) || lower(row.path) == key
    ensures FoldsTwice(lower, rows + [row], key)
            <==> FoldsTwice(lower, rows, key) || (Folds(lower, rows, key) && lower(row.path) == key)
  {
    var more := rows + [row];
    assert more[|rows|] == row && forall i | 0 <= i < |rows| :: more[i] == rows[i];
    if Folds(lower, rows, key) {
      var i :| 0 <= i < |rows| && lower(rows[i].path) == key;
      assert lower(more[i].path) == key;
    }
    if FoldsTwice(lower, rows, key) {
      var i, j :| 0 <= i < j < |rows| && lower(rows[i].path) == key && lower(rows[j].path) == key;
      assert lower(more[i].path) == key && lower(more[j].path) == key;
    }
  }

  lemma RowFilled(lower: Fold, exact: map<Text, Row>, folded: map<Text, Row>, ambiguous: set<Text>, rows: seq<Row>, row: Row)
    requires Filling(lower, exact, folded, ambiguous, rows)
    requires forall i | 0 <= i < |rows| :: rows[i].path != row.path
    ensures var key := lower(row.path);
      Filling(lower, exact[row.path := row], if key in folded then folded else folded[key := row],
              if key in folded then ambiguous + {key} else ambiguous, rows + [row])
  {
    hide Folds, FoldsTwice;
    forall k
      ensures Folds(lower, rows + [row], k) <==> Folds(lower, rows, k) || lower(row.path) == k
      ensures FoldsTwice(lower, rows + [row], k)
              <==> FoldsTwice(lower, rows, k) || (Folds(lower, rows, k) && lower(row.path) == k)
    {
      FoldsOneMore(lower, rows, row, k);
    }
    assert forall r | r in rows :: r in rows + [row];
    assert row in rows + [row];
  }

  lemma NextRow(lower: Fold, exact: map<Text, Row>, folded: map<Text, Row>, ambiguous: set<Text>, rows: seq<Row>, i: nat)
    requires i < |rows| && DistinctPaths(rows) && Filling(lower, exact, folded, ambiguous, rows[..i])
    ensures var row := rows[i];
      var key := lower(row.path);
      Filling(lower, exact[row.path := row], if key in folded then folded else folded[key := row],
              if key in folded then ambiguous + {key} else ambiguous, rows[..i + 1])
  {
    hide Filling, DistinctPaths;
    NewPath(rows, i);
    RowFilled(lower, exact, folded, ambiguous, rows[..i], rows[i]);
    assert rows[..i + 1] == rows[..i] + [rows[i]];
  }

  lemma FilledIndexes(lower: Fold, exact: map<Text, Row>, folded: map<Text, Row>, ambiguous: set<Text>, rows: seq<Row>)
    requires Filling(lower, exact, folded, ambiguous, rows)
    ensures Indexes(lower, Index(exact, folded - ambiguous, ambiguous), rows)
  {
  }

  // ----- Every listed game launches as itself -----

  lemma RequestedPath(row: Row)
    requires Proper(Segments(row.path)) && Encodable(row.path) && 0 !in row.path
    ensures NormalisedPath([SLASH] + AsText(PercentEncode(row.path))) == Some(row.path)
    ensures Segments(WithoutLeadingSlashes(NormPath(row.path))) == Segments(row.path)
  {
    hide PercentEncode, NormPath, NormalisedPath, Segments;
    JoinedSegments(row.path);
    EncodedRequestIsPath(Segments(row.path));
    ProperPathIsNormal(Segments(row.path));
    JoinedStart(Segments(row.path));
  }

  /**
   * Whatever the library holds, requesting "/" and the percent-encoded path of any row of the
   * list leads through decoding, normalising and lookup to that row itself.
   */
  lemma ListedGamesLaunchAsThemselves(lower: Fold, sorted: seq<Row>, ix: Index, i: nat)
    requires i < |Built(lower, sorted, |sorted|).retained| && Indexes(lower, ix, Built(lower, sorted, |sorted|).retained)
    ensures var row := Built(lower, sorted, |sorted|).retained[i];
      Resolve(lower, ix, [SLASH] + AsText(PercentEncode(row.path))) == Some(row)
  {
    hide Built, PercentEncode, NormPath, NormalisedPath, Segments, Good, Joined;
    var rows := Built(lower, sorted, |sorted|).retained;
    CatalogueWithinLimits(lower, sorted, |sorted|);
    GoodRowHasProperPath(lower, rows[i]);
    RequestedPath(rows[i]);
    JoinedSegments(rows[i].path);
  }

  // ----- Nothing else is ever served -----

  /** The candidate is an exact path, or the only row that folds to it. */
  ghost predicate Names(lower: Fold, rows: seq<Row>, candidate: Text, row: Row) {
    && row in rows && lower(row.path) == lower(candidate)
    && (row.path != candidate ==> !FoldsTwice(lower, rows, lower(candidate)))
  }

  /**
   * A served row's path equals, up to case, a whole-segment suffix of the request, and a match that
   * is not exact is served only if no other listed row folds to it.
   */
  lemma {:induction false} LookupIsFaithful(lower: Fold, ix: Index, rows: seq<Row>, parts: seq<Text>) returns (k: nat)
    requires Indexes(lower, ix, rows) && Lookup(lower, ix, parts).Some?
    ensures k < |parts| && Names(lower, rows, Joined(parts[k..]), Lookup(lower, ix, parts).value)
  {
    hide Folds, FoldsTwice, Joined;
    var candidate := Joined(parts);
    assert parts[0..] == parts;
    k := 0;
    if candidate !in ix.exact && lower(candidate) !in ix.folded {
      var later := LookupIsFaithful(lower, ix, rows, parts[1..]);
      assert parts[1..][later..] == parts[later + 1..];
      k := later + 1;
    }
  }

  /** So for every request whatsoever. */
  lemma ServedIsFaithful(lower: Fold, ix: Index, rows: seq<Row>, raw: Text) returns (parts: seq<Text>, k: nat)
    requires Indexes(lower, ix, rows) && Resolve(lower, ix, raw).Some?
    ensures NormalisedPath(raw).Some? && parts == Segments(WithoutLeadingSlashes(NormPath(NormalisedPath(raw).value)))
    ensures k < |parts| && Names(lower, rows, Joined(parts[k..]), Resolve(lower, ix, raw).value)
  {
    hide Indexes, Segments, NormPath, NormalisedPath, Lookup;
    parts := Segments(WithoutLeadingSlashes(NormPath(NormalisedPath(raw).value)));
    k := LookupIsFaithful(lower, ix, rows, parts);
  }

  // ----- And it is served whenever it should be -----

  /** The first whole-segment suffix that folds to any row. */
  ghost predicate Decides(lower: Fold, rows: seq<Row>, parts: seq<Text>, k: nat) {
    && k < |parts| && Folds(lower, rows, lower(Joined(parts[k..])))
    && forall j | 0 <= j < k :: !Folds(lower, rows, lower(Joined(parts[j..])))
  }

  /** What a candidate that folds to some row leads to. */
  lemma CandidateDecides(lower: Fold, ix: Index, rows: seq<Row>, parts: seq<Text>, row: Row)
    requires Indexes(lower, ix, rows) && parts != [] && Folds(lower, rows, lower(Joined(parts)))
    ensures Lookup(lower, ix, parts) == Some(row) <==> Names(lower, rows, Joined(parts), row)
  {
    hide Joined;
    var candidate := Joined(parts);
    if Names(lower, rows, candidate, row) {
      var i :| 0 <= i < |rows| && rows[i] == row;
      if candidate in ix.exact {
        var j :| 0 <= j < |rows| && rows[j] == ix.exact[candidate];
        assert row.path != candidate ==> i != j && FoldsTwice(lower, rows, lower(candidate));
      } else {
        var j :| 0 <= j < |rows| && rows[j] == ix.folded[lower(candidate)];
        assert i != j ==> FoldsTwice(lower, rows, lower(candidate));
      }
    } else if candidate in ix.exact {
      assert Names(lower, rows, candidate, ix.exact[candidate]);
    }
  }

  lemma DecidesLater(lower: Fold, rows: seq<Row>, parts: seq<Text>, k: nat)
    requires parts != [] && !Folds(lower, rows, lower(Joined(parts)))
    ensures Decides(lower, rows, parts[1..], k) <==> Decides(lower, rows, parts, k + 1)
    ensures !Decides(lower, rows, parts, 0) && (k < |parts| - 1 ==> parts[1..][k..] == parts[k + 1..])
  {
    hide Joined, Folds;
    assert parts[0..] == parts;
    if Decides(lower, rows, parts[1..], k) {
      forall j | 0 <= j < k + 1
        ensures !Folds(lower, rows, lower(Joined(parts[j..])))
      {
        if j > 0 { assert parts[1..][j - 1..] == parts[j..]; }
      }
    }
    if Decides(lower, rows, parts, k + 1) {
      forall j | 0 <= j < k
        ensures !Folds(lower, rows, lower(Joined(parts[1..][j..])))
      {
        assert parts[1..][j..] == parts[j + 1..];
      }
    }
  }

  lemma FirstDecides(lower: Fold, rows: seq<Row>, parts: seq<Text>)
    requires parts != [] && Folds(lower, rows, lower(Joined(parts)))
    ensures forall k: nat :: Decides(lower, rows, parts, k) <==> k == 0
  {
    hide Joined, Folds;
    assert parts[0..] == parts;
  }

  /** The deciding suffix names this row. */
  ghost predicate LeadsTo(lower: Fold, rows: seq<Row>, parts: seq<Text>, row: Row) {
    exists k: nat :: Decides(lower, rows, parts, k) && Names(lower, rows, Joined(parts[k..]), row)
  }

  lemma LeadsToLater(lower: Fold, rows: seq<Row>, parts: seq<Text>, row: Row)
    requires parts != [] && !Folds(lower, rows, lower(Joined(parts)))
    ensures LeadsTo(lower, rows, parts[1..], row) <==> LeadsTo(lower, rows, parts, row)
  {
    hide Joined, Folds, Names;
    if LeadsTo(lower, rows, parts[1..], row) {
      var k: nat :| Decides(lower, rows, parts[1..], k) && Names(lower, rows, Joined(parts[1..][k..]), row);
      DecidesLater(lower, rows, parts, k);
      assert Decides(lower, rows, parts, k + 1);
    }
    if LeadsTo(lower, rows, parts, row) {
      var k: nat :| Decides(lower, rows, parts, k) && Names(lower, rows, Joined(parts[k..]), row);
      DecidesLater(lower, rows, parts, 0);
      DecidesLater(lower, rows, parts, k - 1);
      assert Decides(lower, rows, parts[1..], k - 1);
    }
  }

  lemma LeadsToFirst(lower: Fold, rows: seq<Row>, parts: seq<Text>, row: Row)
    requires parts != [] && Folds(lower, rows, lower(Joined(parts)))
    ensures LeadsTo(lower, rows, parts, row) <==> Names(lower, rows, Joined(parts), row)
  {
    hide Joined, Folds, Names;
    FirstDecides(lower, rows, parts);
    assert parts[0..] == parts;
  }

  /**
   * What is served, exactly: the longest whole-segment suffix that folds to any listed row decides, and leads to the
   * row of exactly that path, or else to the only row that folds to it.
   */
  lemma {:induction false} LookupExactly(lower: Fold, ix: Index, rows: seq<Row>, parts: seq<Text>, row: Row)
    requires Indexes(lower, ix, rows)
    ensures Lookup(lower, ix, parts) == Some(row) <==> LeadsTo(lower, rows, parts, row)
  {
    hide Joined, Folds, Names, Indexes, LeadsTo;
    if parts == [] {
      NothingLeads(lower, rows, row);
    } else if Folds(lower, rows, lower(Joined(parts))) {
      CandidateDecides(lower, ix, rows, parts, row);
      LeadsToFirst(lower, rows, parts, row);
    } else {
      MissesWhenNotFolding(lower, ix, rows, Joined(parts));
      LookupExactly(lower, ix, rows, parts[1..], row);
      LeadsToLater(lower, rows, parts, row);
    }
  }

  lemma NothingLeads(lower: Fold, rows: seq<Row>, row: Row)
    ensures !LeadsTo(lower, rows, [], row)
  {
  }

  /**
   * A request that differs from a listed path in case only is served that row, when no other listed row
   * differs from it in case only.
   */
  lemma OtherCaseIsServed(lower: Fold, ix: Index, rows: seq<Row>, parts: seq<Text>, i: nat)
    requires Indexes(lower, ix, rows) && i < |rows| && Proper(parts)
    requires lower(Joined(parts)) == lower(rows[i].path) && Encodable(Joined(parts)) && 0 !in Joined(parts)
    requires forall j | 0 <= j < |rows| && j != i :: lower(rows[j].path) != lower(rows[i].path)
    ensures Resolve(lower, ix, [SLASH] + AsText(PercentEncode(Joined(parts)))) == Some(rows[i])
  {
    hide PercentEncode, NormPath, NormalisedPath, Segments, Joined, Indexes;
    EncodedRequestIsPath(parts);
    ProperPathIsNormal(parts);
    JoinedStart(parts);
    SegmentsOfProper(parts);
    LeadsToFirst(lower, rows, parts, rows[i]);
    LookupExactly(lower, ix, rows, parts, rows[i]);
  }

  // ----- Under a base path -----

  /** Folding neither makes nor removes slashes. */
  ghost predicate KeepsSegments(lower: Fold) { forall t :: |Segments(lower(t))| == |Segments(t)| }

  /** No suffix longer than the listed path folds to a listed row. */
  ghost predicate Unshadowed(lower: Fold, rows: seq<Row>, base: seq<Text>, path: seq<Text>) {
    forall k | 0 <= k < |base| :: !Folds(lower, rows, lower(Joined((base + path)[k..])))
  }

  /** Longer candidates that fold to nothing are passed over. */
  lemma {:induction false} LongerSuffixesMiss(lower: Fold, ix: Index, rows: seq<Row>, base: seq<Text>, path: seq<Text>)
    requires Indexes(lower, ix, rows) && Unshadowed(lower, rows, base, path) && path != []
    ensures Lookup(lower, ix, base + path) == Lookup(lower, ix, path)
  {
    hide FoldsTwice, Joined;
    if base == [] {
      assert base + path == path;
    } else {
      var parts := base + path;
      assert parts[0..] == parts && parts[1..] == base[1..] + path;
      assert !Folds(lower, rows, lower(Joined(parts)));
      MissesWhenNotFolding(lower, ix, rows, Joined(parts));
      forall k | 0 <= k < |base| - 1
        ensures !Folds(lower, rows, lower(Joined((base[1..] + path)[k..])))
      {
        assert (base[1..] + path)[k..] == parts[k + 1..];
      }
      LongerSuffixesMiss(lower, ix, rows, base[1..], path);
    }
  }

  lemma MissesWhenNotFolding(lower: Fold, ix: Index, rows: seq<Row>, candidate: Text)
    requires Indexes(lower, ix, rows) && !Folds(lower, rows, lower(candidate))
    ensures candidate !in ix.exact && lower(candidate) !in ix.ambiguous && lower(candidate) !in ix.folded
  {
  }

  /** A longer candidate that folds to some row decides the lookup, and not for the shorter path. */
  lemma {:induction false} ShadowDecides(lower: Fold, ix: Index, rows: seq<Row>, base: seq<Text>, path: seq<Text>, k: nat)
    requires Indexes(lower, ix, rows) && KeepsSegments(lower)
    requires path != [] && (forall i | 0 <= i < |base| :: NoSlash(base[i])) && (forall i | 0 <= i < |path| :: NoSlash(path[i]))
    requires k < |base| && Folds(lower, rows, lower(Joined((base + path)[k..])))
    ensures Lookup(lower, ix, base + path).Some? ==> Lookup(lower, ix, base + path).value.path != Joined(path)
    decreases |base|
  {
    hide FoldsTwice, Joined, Segments, Folds;
    var parts := base + path;
    assert parts[0..] == parts && parts[1..] == base[1..] + path;
    LongerHasMoreSegments(parts, path);
    var candidate := Joined(parts);
    if candidate !in ix.exact && lower(candidate) !in ix.ambiguous && lower(candidate) !in ix.folded {
      if k == 0 {
        assert false;
      } else {
        assert parts[k..] == (base[1..] + path)[k - 1..];
        ShadowDecides(lower, ix, rows, base[1..], path, k - 1);
      }
    }
  }

  lemma LongerHasMoreSegments(parts: seq<Text>, path: seq<Text>)
    requires |parts| > |path| > 0
    requires (forall i | 0 <= i < |parts| :: NoSlash(parts[i])) && (forall i | 0 <= i < |path| :: NoSlash(path[i]))
    ensures |Segments(Joined(parts))| > |Segments(Joined(path))| && Joined(parts) != Joined(path)
  {
    hide Joined, Segments;
    SegmentsOfJoined(parts);
    SegmentsOfJoined(path);
  }

  /**
   * Under a configured base path the promise holds exactly when nothing shadows it: the request for
   * a listed path below a base leads to that row if and only if no longer suffix of the request
   * folds to any listed row.
   */
  lemma BasePathResolvesUnlessShadowed(lower: Fold, ix: Index, rows: seq<Row>, base: seq<Text>, i: nat)
    requires Indexes(lower, ix, rows) && KeepsSegments(lower) && i < |rows|
    requires Proper(Segments(rows[i].path)) && forall k | 0 <= k < |base| :: ProperSegment(base[k])
    requires Encodable(Joined(base + Segments(rows[i].path))) && 0 !in Joined(base + Segments(rows[i].path))
    ensures var path := Segments(rows[i].path);
      Resolve(lower, ix, [SLASH] + AsText(PercentEncode(Joined(base + path)))) == Some(rows[i])
      <==> Unshadowed(lower, rows, base, path)
  {
    hide PercentEncode, NormPath, NormalisedPath, Segments, Joined, Indexes;
    var path := Segments(rows[i].path);
    var parts := base + path;
    EncodedRequestIsPath(parts);
    ProperPathIsNormal(parts);
    JoinedStart(parts);
    SegmentsOfProper(parts);
    JoinedSegments(rows[i].path);
    assert WithoutLeadingSlashes(Joined(parts)) == Joined(parts);
    ExactPathFound(lower, ix, rows, i);
    if Unshadowed(lower, rows, base, path) {
      LongerSuffixesMiss(lower, ix, rows, base, path);
    } else {
      var k :| 0 <= k < |base| && Folds(lower, rows, lower(Joined(parts[k..])));
      assert forall j | 0 <= j < |path| :: ProperSegment(path[j]);
      ShadowDecides(lower, ix, rows, base, path, k);
    }
  }

  lemma ExactPathFound(lower: Fold, ix: Index, rows: seq<Row>, i: nat)
    requires Indexes(lower, ix, rows) && i < |rows|
    ensures Lookup(lower, ix, Segments(rows[i].path)) == Some(rows[i])
  {
    hide Joined, Segments;
    JoinedSegments(rows[i].path);
  }

  /** So a listed game below a folder named like the base path always hides its namesake outside it. */
  lemma FolderNamedLikeTheBaseHides(lower: Fold, ix: Index, rows: seq<Row>, base: seq<Text>, i: nat, j: nat)
    requires Indexes(lower, ix, rows) && KeepsSegments(lower) && i < |rows| && j < |rows| && base != []
    requires Proper(Segments(rows[i].path)) && forall k | 0 <= k < |base| :: ProperSegment(base[k])
    requires rows[j].path == Joined(base + Segments(rows[i].path))
    requires Encodable(rows[j].path) && 0 !in rows[j].path
    ensures Resolve(lower, ix, [SLASH] + AsText(PercentEncode(rows[j].path))) == Some(rows[j])
    ensures rows[j].path != rows[i].path
  {
    hide PercentEncode, NormPath, NormalisedPath, Joined, Segments, Indexes;
    var parts := base + Segments(rows[i].path);
    SegmentsOfProper(parts);
    JoinedSegments(rows[i].path);
    RequestedPath(rows[j]);
    ExactPathFound(lower, ix, rows, j);
    assert |Segments(rows[j].path)| > |Segments(rows[i].path)|;
  }
}
