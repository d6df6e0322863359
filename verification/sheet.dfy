/** The table transform of `processCSV` in checkSheetItems.py: every column
    gets a companion " Exists" column holding the corpus path the resolver
    finds for the cell, `"None"` when it finds nothing, and an empty cell for
    an empty cell. Reading and writing the CSV files is not modelled; the
    table is the list of rows `csv.reader` produced. */
module Sheet {
  import opened Options
  import opened Tree
  import Resolver

  type Row = seq<string>

  /** The header row: each header followed by `header + " Exists"`. */
  function ExpandHeaders(headers: Row): (r: Row)
    ensures |r| == 2 * |headers|
    ensures forall i :: 0 <= i < |headers| ==> r[2 * i] == headers[i] && r[2 * i + 1] == headers[i] + " Exists"
  {
    if |headers| == 0 then []
    else [headers[0], headers[0] + " Exists"] + ExpandHeaders(headers[1..])
  }

  /** The companion cell of `item`. A found path is checked for truth, so an
      empty path string reads as not found. */
  function Cell(ex: string -> Parts, root: Path, entries: seq<Entry>, item: string): (r: string)
    ensures r == "" <==> item == ""
  {
    if item == "" then ""
    else
      match Resolver.Find(Resolver.Sheet, ex, root, entries, item)
      case Some(p) => if PathString(p) != "" then PathString(p) else "None"
      case None => "None"
  }

  /** A data row: each cell followed by its companion cell. */
  function CheckRow(ex: string -> Parts, root: Path, entries: seq<Entry>, row: Row): (r: Row)
    ensures |r| == 2 * |row|
    ensures forall i :: 0 <= i < |row| ==> r[2 * i] == row[i] && r[2 * i + 1] == Cell(ex, root, entries, row[i])
  {
    if |row| == 0 then []
    else [row[0], Cell(ex, root, entries, row[0])] + CheckRow(ex, root, entries, row[1..])
  }

  /** `processCSV` on the rows read: `None` when there is no header row
      (`data[0]` raises `IndexError`), otherwise the expanded header and one
      checked row per data row. */
  function Process(ex: string -> Parts, root: Path, entries: seq<Entry>, data: seq<Row>): (r: Option<seq<Row>>)
    ensures r.None? <==> |data| == 0
    ensures r.Some? ==> |r.value| == |data| && r.value[0] == ExpandHeaders(data[0])
    ensures r.Some? ==> forall k :: 1 <= k < |data| ==> r.value[k] == CheckRow(ex, root, entries, data[k])
  {
    if |data| == 0 then None
    else Some([ExpandHeaders(data[0])] + seq(|data| - 1, k requires 0 <= k < |data| - 1 => CheckRow(ex, root, entries, data[k + 1])))
  }

  /** The original cells are the even columns of the output. */
  function Originals(r: Row): (o: Row)
    ensures |o| == (|r| + 1) / 2
    ensures forall i :: 0 <= i < |o| ==> o[i] == r[2 * i]
  {
    if |r| == 0 then [] else if |r| == 1 then [r[0]] else [r[0]] + Originals(r[2..])
  }

  /** Dropping the companion columns gives back the input table. */
  lemma ProcessKeepsInput(ex: string -> Parts, root: Path, entries: seq<Entry>, data: seq<Row>)
    requires |data| > 0
    ensures var out := Process(ex, root, entries, data).value;
            forall k :: 0 <= k < |data| ==> Originals(out[k]) == data[k]
  {
    var out := Process(ex, root, entries, data).value;
    forall k | 0 <= k < |data|
      ensures Originals(out[k]) == data[k]
    {
      if k == 0 {
        assert Originals(ExpandHeaders(data[0])) == data[0];
      } else {
        assert Originals(CheckRow(ex, root, entries, data[k])) == data[k];
      }
    }
  }

  /** A companion cell is empty exactly when its cell is; it is `"None"`
      exactly when the resolver finds nothing (or only an empty path), and
      otherwise it is the path of the file the resolver picked. */
  lemma CellMeaning(ex: string -> Parts, root: Path, entries: seq<Entry>, item: string)
    ensures var c := Cell(ex, root, entries, item);
            var found := Resolver.Find(Resolver.Sheet, ex, root, entries, item);
            && (c == "" <==> item == "")
            && (item != "" && found.None? ==> c == "None")
            && (item != "" && found.Some? && PathString(found.value) != "" ==>
                  c == PathString(found.value) && found.value in Files(root, entries))
  {
    Resolver.FindSound(Resolver.Sheet, ex, root, entries, item);
  }
}
