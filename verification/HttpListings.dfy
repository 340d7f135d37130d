/**
 * From the files a scan finds to the list that is sent: the first file found for a path
 * is the candidate for it, and candidates are listed by folded path and then by path.
 */
module HttpListings {
  import opened Common
  import opened Utf8Text
  import opened HttpCatalogues

  predicate DistinctPaths(rows: seq<Row>) { forall i, j | 0 <= i < j < |rows| :: rows[i].path != rows[j].path }

  // ----- One candidate for each path -----

  /** Files side by side may advertise one path; the first one found is kept. */
  function Chosen(found: seq<Row>): seq<Row> {
    if found == [] then []
    else
      var before, last := Chosen(found[..|found| - 1]), found[|found| - 1];
      if exists i | 0 <= i < |before| :: before[i].path == last.path then before else before + [last]
  }

  /** No file before position i advertises the same path. */
  predicate IsFirst(found: seq<Row>, i: nat)
    requires i < |found|
  {
    forall j | 0 <= j < i :: found[j].path != found[i].path
  }

  /** Every path that is found has a candidate. */
  lemma {:induction false} PathsAreChosen(found: seq<Row>, path: Text)
    ensures (exists k :: 0 <= k < |Chosen(found)| && Chosen(found)[k].path == path)
        <==> exists i :: 0 <= i < |found| && found[i].path == path
  {
    if found != [] {
      var n := |found| - 1;
      PathsAreChosen(found[..n], path);
      var before, after := Chosen(found[..n]), Chosen(found);
      assert before <= after;
      assert forall i | 0 <= i < n :: found[..n][i] == found[i];
      if after != before { assert after[|before|] == found[n]; }
    }
  }

  /** The candidates are exactly the files that are the first for their path, one for each path found. */
  lemma {:induction false} ChosenAreFirst(found: seq<Row>)
    ensures DistinctPaths(Chosen(found))
    ensures forall row :: row in Chosen(found) <==> exists i :: 0 <= i < |found| && found[i] == row && IsFirst(found, i)
  {
    if found != [] {
      var n := |found| - 1;
      var front := found[..n];
      var before, last := Chosen(front), found[n];
      ChosenAreFirst(front);
      assert forall i | 0 <= i < n :: IsFirst(front, i) <==> IsFirst(found, i);
      forall row
        ensures row in before <==> exists i :: 0 <= i < n && found[i] == row && IsFirst(found, i)
      {
        if i :| 0 <= i < n && found[i] == row && IsFirst(found, i) { assert front[i] == row && IsFirst(front, i); }
      }
      PathsAreChosen(front, last.path);
      assert IsFirst(found, n) <==> !exists i | 0 <= i < n :: front[i].path == last.path;
    }
  }

  lemma {:induction false} DistinctAreChosen(found: seq<Row>)
    requires DistinctPaths(found)
    ensures Chosen(found) == found
  {
    if found != [] { DistinctAreChosen(found[..|found| - 1]); }
  }

  method ChooseCandidates(found: seq<Row>) returns (chosen: seq<Row>)
    ensures chosen == Chosen(found)
  {
    chosen := [];
    var candidates: map<Text, Row> := map[];
    for i := 0 to |found|
      invariant chosen == Chosen(found[..i])
      invariant forall p :: p in candidates <==> exists k :: 0 <= k < |chosen| && chosen[k].path == p
    {
      var entry := found[i];
      assert found[..i + 1][..i] == found[..i];
      if entry.path in candidates { continue; }
      ghost var before := chosen;
      candidates := candidates[entry.path := entry];
      chosen := chosen + [entry];
      assert chosen[|before|] == entry && forall k | 0 <= k < |before| :: chosen[k] == before[k];
    }
    assert found[..|found|] == found;
  }

  // ----- The order of the list -----

  /** Texts compare by their first different character; a prefix comes first. */
  predicate NotAfter(a: Text, b: Text) {
    a == [] || (b != [] && (a[0] < b[0] || (a[0] == b[0] && NotAfter(a[1..], b[1..]))))
  }

  lemma {:induction false} NotAfterIsTotal(a: Text, b: Text)
    ensures NotAfter(a, b) || NotAfter(b, a)
    ensures NotAfter(a, b) && NotAfter(b, a) <==> a == b
  {
    if a != [] && b != [] {
      NotAfterIsTotal(a[1..], b[1..]);
      assert a == [a[0]] + a[1..] && b == [b[0]] + b[1..];
    }
  }

  lemma {:induction false} NotAfterIsTransitive(a: Text, b: Text, c: Text)
    requires NotAfter(a, b) && NotAfter(b, c)
    ensures NotAfter(a, c)
  {
    if a != [] && b != [] && c != [] && a[0] == b[0] == c[0] { NotAfterIsTransitive(a[1..], b[1..], c[1..]); }
  }

  /** Listed no later: by folded path, then by path. */
  predicate ListedBy(lower: Fold, r: Row, s: Row) {
    if lower(r.path) == lower(s.path) then NotAfter(r.path, s.path) else NotAfter(lower(r.path), lower(s.path))
  }

  lemma ListedByIsTotal(lower: Fold, r: Row, s: Row)
    ensures ListedBy(lower, r, s) || ListedBy(lower, s, r)
    ensures ListedBy(lower, r, s) && ListedBy(lower, s, r) <==> r.path == s.path
  {
    hide NotAfter;
    NotAfterIsTotal(r.path, s.path);
    NotAfterIsTotal(lower(r.path), lower(s.path));
  }

  lemma ListedByIsTransitive(lower: Fold, r: Row, s: Row, t: Row)
    requires ListedBy(lower, r, s) && ListedBy(lower, s, t)
    ensures ListedBy(lower, r, t)
  {
    hide NotAfter;
    if lower(r.path) == lower(s.path) == lower(t.path) {
      NotAfterIsTransitive(r.path, s.path, t.path);
    } else {
      NotAfterIsTotal(lower(r.path), lower(r.path));
      NotAfterIsTotal(lower(s.path), lower(s.path));
      NotAfterIsTotal(lower(t.path), lower(t.path));
      NotAfterIsTransitive(lower(r.path), lower(s.path), lower(t.path));
      NotAfterIsTotal(lower(r.path), lower(s.path));
    }
  }

  predicate InListOrder(lower: Fold, rows: seq<Row>) {
    forall i, j | 0 <= i < j < |rows| :: ListedBy(lower, rows[i], rows[j])
  }

  /** The row goes behind every row that is listed no later than it. */
  function Inserted(lower: Fold, rows: seq<Row>, row: Row): seq<Row> {
    if rows == [] then [row]
    else if ListedBy(lower, rows[|rows| - 1], row) then rows + [row]
    else Inserted(lower, rows[..|rows| - 1], row) + [rows[|rows| - 1]]
  }

  function Sorted(lower: Fold, rows: seq<Row>): seq<Row> {
    if rows == [] then [] else Inserted(lower, Sorted(lower, rows[..|rows| - 1]), rows[|rows| - 1])
  }

  lemma {:induction false} InsertedInOrder(lower: Fold, rows: seq<Row>, row: Row)
    requires InListOrder(lower, rows)
    ensures InListOrder(lower, Inserted(lower, rows, row))
    ensures multiset(Inserted(lower, rows, row)) == multiset(rows) + multiset{row}
  {
    hide ListedBy;
    if rows != [] {
      var n := |rows| - 1;
      var front, last := rows[..n], rows[n];
      assert rows == front + [last];
      if ListedBy(lower, last, row) {
        forall i | 0 <= i < n
          ensures ListedBy(lower, rows[i], row)
        {
          ListedByIsTransitive(lower, rows[i], last, row);
        }
      } else {
        InsertedInOrder(lower, front, row);
        ListedByIsTotal(lower, last, row);
        var inserted := Inserted(lower, front, row);
        forall i | 0 <= i < |inserted|
          ensures ListedBy(lower, inserted[i], last)
        {
          assert inserted[i] in multiset(inserted);
          assert inserted[i] in front || inserted[i] == row;
        }
      }
    }
  }

  /** Sorting puts the rows in list order and neither loses nor adds one. */
  lemma {:induction false} SortedInOrder(lower: Fold, rows: seq<Row>)
    ensures InListOrder(lower, Sorted(lower, rows)) && multiset(Sorted(lower, rows)) == multiset(rows)
  {
    hide InListOrder, ListedBy, Inserted;
    if rows == [] {
      NoRowsInOrder(lower);
    } else {
      var n := |rows| - 1;
      SortedInOrder(lower, rows[..n]);
      InsertedInOrder(lower, Sorted(lower, rows[..n]), rows[n]);
      assert rows == rows[..n] + [rows[n]];
    }
  }

  lemma NoRowsInOrder(lower: Fold)
    ensures InListOrder(lower, [])
  {
  }

  /** Rows with one path are one row. */
  predicate OneRowPerPath(rows: seq<Row>) { forall r, s | r in rows && s in rows && r.path == s.path :: r == s }

  /** Two orders of the same rows end with the same row. */
  lemma SameLastRow(lower: Fold, a: seq<Row>, b: seq<Row>)
    requires InListOrder(lower, a) && InListOrder(lower, b) && multiset(a) == multiset(b) && OneRowPerPath(a)
    requires |a| == |b| > 0
    ensures a[|a| - 1] == b[|b| - 1]
  {
    hide ListedBy;
    var n := |a| - 1;
    var r, s := a[n], b[n];
    assert r in multiset(b) && s in multiset(a);
    var i :| 0 <= i < |b| && b[i] == r;
    var j :| 0 <= j < |a| && a[j] == s;
    if i < n && j < n {
      assert ListedBy(lower, b[i], b[n]) && ListedBy(lower, a[j], a[n]);
      ListedByIsTotal(lower, r, s);
    }
  }

  /** There is only one order for rows of different paths. */
  lemma {:induction false} OneListOrder(lower: Fold, a: seq<Row>, b: seq<Row>)
    requires InListOrder(lower, a) && InListOrder(lower, b) && multiset(a) == multiset(b) && OneRowPerPath(a)
    ensures a == b
    decreases |a|
  {
    hide ListedBy, InListOrder, OneRowPerPath;
    SameLength(a, b);
    if a != [] {
      var front, again := a[..|a| - 1], b[..|b| - 1];
      FrontsAgree(lower, a, b);
      OneListOrder(lower, front, again);
      assert a == front + [a[|a| - 1]] && b == again + [b[|b| - 1]];
    }
  }

  lemma FrontsAgree(lower: Fold, a: seq<Row>, b: seq<Row>)
    requires InListOrder(lower, a) && InListOrder(lower, b) && multiset(a) == multiset(b) && OneRowPerPath(a)
    requires |a| == |b| > 0
    ensures a[|a| - 1] == b[|b| - 1] && multiset(a[..|a| - 1]) == multiset(b[..|b| - 1])
    ensures InListOrder(lower, a[..|a| - 1]) && InListOrder(lower, b[..|b| - 1]) && OneRowPerPath(a[..|a| - 1])
  {
    hide ListedBy, InListOrder, OneRowPerPath;
    SameLastRow(lower, a, b);
    FrontRows(a);
    FrontRows(b);
    FrontInOrder(lower, a);
    FrontInOrder(lower, b);
  }

  lemma SameLength(a: seq<Row>, b: seq<Row>)
    requires multiset(a) == multiset(b)
    ensures |a| == |b|
  {
    assert |multiset(a)| == |a| && |multiset(b)| == |b|;
  }

  lemma FrontRows(rows: seq<Row>)
    requires rows != []
    ensures multiset(rows[..|rows| - 1]) == multiset(rows) - multiset{rows[|rows| - 1]}
  {
    assert rows == rows[..|rows| - 1] + [rows[|rows| - 1]];
  }

  lemma FrontInOrder(lower: Fold, rows: seq<Row>)
    requires InListOrder(lower, rows) && rows != []
    ensures InListOrder(lower, rows[..|rows| - 1]) && (OneRowPerPath(rows) ==> OneRowPerPath(rows[..|rows| - 1]))
  {
    hide ListedBy;
    assert forall r | r in rows[..|rows| - 1] :: r in rows;
  }

  // ----- The list of a scan -----

  function Listed(lower: Fold, found: seq<Row>): Build {
    var sorted := Sorted(lower, Chosen(found));
    Built(lower, sorted, |sorted|)
  }

  /**
   * Directories may be read in any order: two scans that find the same files, no two of them for one
   * path, give the same list to the byte.
   */
  lemma ListIgnoresScanOrder(lower: Fold, found: seq<Row>, again: seq<Row>)
    requires multiset(found) == multiset(again) && DistinctPaths(found) && DistinctPaths(again)
    ensures Listed(lower, found) == Listed(lower, again)
  {
    hide Sorted, InListOrder, Built;
    DistinctAreChosen(found);
    DistinctAreChosen(again);
    SortedInOrder(lower, found);
    SortedInOrder(lower, again);
    forall r, s | r in Sorted(lower, found) && s in Sorted(lower, found) && r.path == s.path
      ensures r == s
    {
      assert r in multiset(Sorted(lower, found)) && s in multiset(Sorted(lower, found));
      assert r in found && s in found;
    }
    OneListOrder(lower, Sorted(lower, found), Sorted(lower, again));
  }

  /** The rows of a list are files that were first for their path, strictly in list order. */
  lemma ListedInOrder(lower: Fold, found: seq<Row>)
    ensures var rows := Listed(lower, found).retained;
      && InListOrder(lower, rows) && DistinctPaths(rows)
      && forall row | row in rows :: exists i :: 0 <= i < |found| && found[i] == row && IsFirst(found, i)
  {
    hide Built, Sorted, IsFirst, ListedBy;
    var sorted := Sorted(lower, Chosen(found));
    SortedInOrder(lower, Chosen(found));
    ChosenAreFirst(found);
    SortedKeepsDistinct(lower, Chosen(found));
    var at := RetainedInOrder(lower, sorted, |sorted|);
    var rows := Listed(lower, found).retained;
    forall row | row in rows
      ensures row in Chosen(found)
    {
      var k :| 0 <= k < |rows| && rows[k] == row;
      assert sorted[at[k]] == row && row in multiset(sorted);
    }
    forall i, j | 0 <= i < j < |rows|
      ensures rows[i].path != rows[j].path
    {
      assert sorted[at[i]] == rows[i] && sorted[at[j]] == rows[j] && at[i] < at[j];
    }
  }

  lemma {:induction false} SortedKeepsDistinct(lower: Fold, rows: seq<Row>)
    requires DistinctPaths(rows)
    ensures DistinctPaths(Sorted(lower, rows))
  {
    hide Sorted, InListOrder;
    SortedInOrder(lower, rows);
    var sorted := Sorted(lower, rows);
    forall i, j | 0 <= i < j < |sorted|
      ensures sorted[i].path != sorted[j].path
    {
      if sorted[i].path == sorted[j].path {
        assert sorted[i] in multiset(rows) && sorted[j] in multiset(rows);
        var k :| 0 <= k < |rows| && rows[k] == sorted[i];
        assert sorted[j] == rows[k];
        TwiceInSorted(sorted, i, j);
        OnceInDistinct(rows, k);
      }
    }
  }

  lemma TwiceInSorted(rows: seq<Row>, i: nat, j: nat)
    requires i < j < |rows| && rows[i] == rows[j]
    ensures multiset(rows)[rows[i]] >= 2
  {
    assert rows == rows[..j] + [rows[j]] + rows[j + 1..];
    assert rows[i] in rows[..j] by { assert rows[..j][i] == rows[i]; }
  }

  lemma OnceInDistinct(rows: seq<Row>, k: nat)
    requires k < |rows| && DistinctPaths(rows)
    ensures multiset(rows)[rows[k]] == 1
  {
    assert rows == rows[..k] + [rows[k]] + rows[k + 1..];
    assert rows[k] !in rows[..k];
    assert rows[k] !in rows[k + 1..];
  }

  /** The list with its size and the rows left out for lack of room; the entries come in any order. */
  method BuildCatalogue(lower: Fold, entries: seq<Row>) returns (body: Bytes, dropped: nat, retained: seq<Row>)
    ensures var sorted := Sorted(lower, entries);
      var b := Built(lower, sorted, |sorted|);
      retained == b.retained && dropped == b.dropped && body == Encode(Lines(retained)) && |body| == b.size
  {
    hide Sorted;
    body, dropped, retained := FillCatalogue(lower, Sorted(lower, entries));
  }
}
