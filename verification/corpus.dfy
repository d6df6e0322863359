/** The two ways count_corpus.py (and, identically, convert_corpus.py)
    collect the corpus files to process: `inputFromCSV`, which keeps the
    cells of an already-parsed sheet that name a Markdown file, and
    `inputFromTranco`, which takes one path per site from the dictionary
    `findTopSites` returns. Reading the CSV file and querying Tranco are not
    modelled: the rows and the dictionary are the inputs. */
module Corpus {
  import opened Text

  // ---------------------------------------------------------------------------
  // inputFromCSV

  /** The cell test `cell and cell.endswith('.md')`. The truthiness half is
      implied by the suffix test; it is kept as the source writes it. */
  predicate IsMdCell(cell: string)
  {
    cell != "" && EndsWith(cell, ".md")
  }

  /** The cells `inputFromCSV` returns, as a reference: the Markdown cells
      of the table read row by row. */
  function MdCells(rows: seq<seq<string>>): seq<string>
  {
    Filter(IsMdCell, Flatten(rows))
  }

  /** `inputFromCSV` on the rows `csv.reader` produced: the loop over rows. */
  method InputFromCsv(rows: seq<seq<string>>) returns (mdFiles: seq<string>)
    ensures mdFiles == MdCells(rows)
  {
    mdFiles := [];
    ghost var seen: seq<string> := [];
    var i := 0;
    while i < |rows|
      invariant 0 <= i <= |rows|
      invariant seen == Flatten(rows[..i])
      invariant mdFiles == Filter(IsMdCell, seen)
    {
      mdFiles := KeepMdCells(mdFiles, seen, rows[i]);
      FlattenSnoc(rows[..i], rows[i]);
      assert rows[..i + 1] == rows[..i] + [rows[i]];
      seen := seen + rows[i];
      i := i + 1;
    }
    assert rows[..i] == rows;
  }

  /** The inner loop of `inputFromCSV`: the Markdown cells of one row are
      appended to those kept from the rows before it (`seen`). */
  method KeepMdCells(mdFiles: seq<string>, ghost seen: seq<string>, row: seq<string>) returns (out: seq<string>)
    requires mdFiles == Filter(IsMdCell, seen)
    ensures out == Filter(IsMdCell, seen + row)
  {
    out := mdFiles;
    var k := 0;
    assert seen + row[..k] == seen;
    while k < |row|
      invariant 0 <= k <= |row|
      invariant out == Filter(IsMdCell, seen + row[..k])
    {
      var cell := row[k];
      FilterSnoc(IsMdCell, seen + row[..k], cell);
      assert seen + row[..k + 1] == seen + row[..k] + [cell];
      if cell != "" && EndsWith(cell, ".md") {
        out := out + [cell];
      }
      k := k + 1;
    }
    assert row[..k] == row;
  }

  lemma FlattenSnoc<T>(parts: seq<seq<T>>, x: seq<T>)
    ensures Flatten(parts + [x]) == Flatten(parts) + x
  {
    FlattenAppend(parts, [x]);
    assert Flatten([x]) == x + Flatten([x][1..]);
  }

  /** `Filter` over one more element. */
  lemma FilterSnoc<T>(keep: T -> bool, s: seq<T>, x: T)
    ensures Filter(keep, s + [x]) == Filter(keep, s) + (if keep(x) then [x] else [])
  {
    FilterAppend(keep, s, [x]);
    FilterOne(keep, x);
  }

  /** Every Markdown cell of the table is returned as often as it occurs, and
      no other cell is returned: duplicates are kept. */
  lemma MdCellsCount(rows: seq<seq<string>>, cell: string)
    ensures multiset(MdCells(rows))[cell] == if IsMdCell(cell) then multiset(Flatten(rows))[cell] else 0
  {
    FilterCount(IsMdCell, Flatten(rows), cell);
  }

  /** `Filter` keeps every accepted element with its multiplicity. */
  lemma {:induction false} FilterCount<T>(keep: T -> bool, s: seq<T>, x: T)
    ensures multiset(Filter(keep, s))[x] == if keep(x) then multiset(s)[x] else 0
  {
    if |s| > 0 {
      FilterCount(keep, s[1..], x);
      assert s == [s[0]] + s[1..];
      assert multiset(s) == multiset([s[0]]) + multiset(s[1..]);
    }
  }

  /** The cells returned appear in the table in the same order: the result
      is the table's Markdown cells, those of each row in turn. */
  lemma {:induction false} MdCellsByRow(rows: seq<seq<string>>)
    ensures |rows| > 0 ==> MdCells(rows) == Filter(IsMdCell, rows[0]) + MdCells(rows[1..])
  {
    if |rows| > 0 {
      FilterAppend(IsMdCell, rows[0], Flatten(rows[1..]));
    }
  }

  // ---------------------------------------------------------------------------
  // inputFromTranco

  /** A value of the dictionary `findTopSites` returns: a single path (the
      `exact-TLD:com` search, which the corpus tools use) or a list of paths
      (the other searches). */
  datatype Found = Single(path: string) | Several(paths: seq<string>)

  /** Python truthiness of the value: a non-empty string or a non-empty list. */
  predicate Truthy(f: Found)
  {
    match f
    case Single(p) => p != ""
    case Several(ps) => |ps| > 0
  }

  /** The path taken from a truthy value: the string itself or the list's
      first element. */
  function Pick(f: Found): string
  {
    match f
    case Single(p) => p
    case Several(ps) => if |ps| > 0 then ps[0] else ""
  }

  predicate HasPaths(entry: (string, Found))
  {
    Truthy(entry.1)
  }

  function PickOf(entry: (string, Found)): string
  {
    Pick(entry.1)
  }

  /** The paths `inputFromTranco` returns, as a reference: one per truthy
      value, in the dictionary's insertion order. */
  function Picks(results: seq<(string, Found)>): seq<string>
  {
    Map(PickOf, Filter(HasPaths, results))
  }

  /** `inputFromTranco` after `findTopSites`: the loop over
      `results.items()`, counting the sites it takes a path from. */
  method InputFromTranco(results: seq<(string, Found)>) returns (fileList: seq<string>, numDocs: nat)
    ensures fileList == Picks(results)
    ensures numDocs == |fileList|
  {
    fileList := [];
    numDocs := 0;
    var i := 0;
    while i < |results|
      invariant 0 <= i <= |results|
      invariant fileList == Picks(results[..i])
      invariant numDocs == |fileList|
    {
      var paths := results[i].1;
      PicksSnoc(results[..i], results[i]);
      assert results[..i + 1] == results[..i] + [results[i]];
      if Truthy(paths) {
        numDocs := numDocs + 1;
        match paths
        case Single(p) =>
          fileList := fileList + [p];
        case Several(ps) =>
          fileList := fileList + [ps[0]];
      }
      i := i + 1;
    }
    assert results[..i] == results;
  }

  /** One more dictionary entry adds its path exactly when its value is
      truthy; a site without a path is skipped and not counted. */
  lemma PicksSnoc(results: seq<(string, Found)>, entry: (string, Found))
    ensures Picks(results + [entry]) == Picks(results) + (if Truthy(entry.1) then [Pick(entry.1)] else [])
  {
    FilterSnoc(HasPaths, results, entry);
    var kept := Filter(HasPaths, results);
    if Truthy(entry.1) {
      assert Map(PickOf, kept + [entry]) == Map(PickOf, kept) + [PickOf(entry)];
    } else {
      assert kept + [] == kept;
    }
  }

  /** When every site in the dictionary has a path (as `findTopSites` builds
      it for the `exact-TLD:com` search, which stores only found paths), one
      path per site is returned, in order, and `numDocs` is the number of
      sites. */
  lemma {:induction false} PicksAll(results: seq<(string, Found)>)
    requires forall k :: 0 <= k < |results| ==> Truthy(results[k].1)
    ensures |Picks(results)| == |results|
    ensures forall k :: 0 <= k < |results| ==> Picks(results)[k] == Pick(results[k].1)
  {
    FilterKeepsAll(HasPaths, results);
  }

  /** `Filter` with a test every element passes is the identity. */
  lemma {:induction false} FilterKeepsAll<T>(keep: T -> bool, s: seq<T>)
    requires forall k :: 0 <= k < |s| ==> keep(s[k])
    ensures Filter(keep, s) == s
  {
    if |s| > 0 {
      FilterKeepsAll(keep, s[1..]);
    }
  }
}
