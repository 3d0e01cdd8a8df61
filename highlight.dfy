/**
 * The hover grid page: the 400 grid cells with their `highlight` class, the
 * description pane, and the leaf list whose rows highlight their term.
 */
module Highlight {
  import opened Wrappers
  import opened Terms

  /** Whether grid cell `i` belongs to the footprint of term `id`. */
  predicate InFootprint(id: string, i: int) {
    LocationOf(id).Some? && Covers(LocationOf(id).value, i)
  }

  /**
   * The highlight flags `cells` mark exactly the footprint of the term
   * `hit`, or no cell at all when `hit` is None.
   */
  predicate MarksExactly(cells: seq<bool>, hit: Option<string>) {
    |cells| == CellCount
    && forall i :: 0 <= i < CellCount ==> cells[i] == (hit.Some? && InFootprint(hit.value, i))
  }

  /** Number of highlighted cells. */
  function CountTrue(cells: seq<bool>): nat {
    if cells == [] then 0
    else CountTrue(cells[..|cells| - 1]) + (if cells[|cells| - 1] then 1 else 0)
  }

  lemma {:induction false} CountIndicator(cells: seq<bool>, p: int, q: int)
    requires p != q
    requires forall i :: 0 <= i < |cells| ==> cells[i] == (i == p || i == q)
    ensures CountTrue(cells) == (if 0 <= p < |cells| then 1 else 0) + (if 0 <= q < |cells| then 1 else 0)
  {
    if cells != [] {
      CountIndicator(cells[..|cells| - 1], p, q);
    }
  }

  /** When the flags mark a located term's footprint, exactly two cells are highlighted. */
  lemma ExactlyTwoHighlighted(cells: seq<bool>, id: string)
    requires LocationOf(id).Some? && MarksExactly(cells, Some(id))
    ensures CountTrue(cells) == 2
  {
    var l := LocationOf(id).value;
    LocationInBounds(id);
    CountIndicator(cells, LeftCell(l), RightCell(l));
  }

  /** When the flags mark nothing, no cell is highlighted. */
  lemma NoneHighlighted(cells: seq<bool>)
    requires MarksExactly(cells, None)
    ensures CountTrue(cells) == 0
  {
    CountIndicator(cells, -1, -2);
  }

  /** One row of the leaf list: its term, its text, and the record its hover handler shows. */
  datatype LeafRow = LeafRow(id: string, text: string, data: Record)

  /** The text of a leaf-list row: the English label, a bar, the Latin label. */
  function LeafLabel(r: Record): string {
    r.english + " | " + r.latin
  }

  /** A row's text starts with the English label and ends with the Latin one, with " | " between. */
  lemma LeafLabelLayout(r: Record)
    ensures |LeafLabel(r)| == |r.english| + 3 + |r.latin|
    ensures LeafLabel(r)[..|r.english|] == r.english
    ensures LeafLabel(r)[|r.english|..|r.english| + 3] == " | "
    ensures LeafLabel(r)[|r.english| + 3..] == r.latin
  {
  }

  /** The row the leaf list shows for database entry `e`. */
  function RowFor(e: Entry): LeafRow {
    LeafRow(e.id, LeafLabel(e.rec), e.rec)
  }

  /** The leaf list has one row per database entry, in key order. */
  predicate ListsDatabase(rows: seq<LeafRow>) {
    |rows| == |ContentDatabase()|
    && forall k :: 0 <= k < |rows| ==> rows[k] == RowFor(ContentDatabase()[k])
  }

  /** The leaf-list rows for the entries `es`, in order. */
  function RowsFor(es: seq<Entry>): seq<LeafRow> {
    if es == [] then [] else RowsFor(es[..|es| - 1]) + [RowFor(es[|es| - 1])]
  }

  lemma {:induction false} RowsForEach(es: seq<Entry>)
    ensures |RowsFor(es)| == |es|
    ensures forall k :: 0 <= k < |es| ==> RowsFor(es)[k] == RowFor(es[k])
  {
    if es != [] {
      RowsForEach(es[..|es| - 1]);
    }
  }

  /**
   * `populateLeafList`: for each key of the content database, in key order,
   * a row for the record the key looks up, when the lookup succeeds.
   */
  method BuildLeafList() returns (rows: seq<LeafRow>)
    ensures ListsDatabase(rows)
  {
    var items := DatabaseKeys();
    DatabaseKeysAre();
    rows := [];
    var i := 0;
    while i < |items|
      invariant 0 <= i <= |items|
      invariant rows == RowsFor(ContentDatabase()[..i])
    {
      ghost var entry := ContentDatabase()[i];
      var data := Lookup(items[i]);
      LookupKey(i);
      assert items[i] == entry.id && data == Some(entry.rec);
      if data.Some? {
        rows := rows + [LeafRow(items[i], LeafLabel(data.value), data.value)];
      }
      assert ContentDatabase()[..i + 1][..i] == ContentDatabase()[..i];
      i := i + 1;
    }
    assert ContentDatabase()[..i] == ContentDatabase();
    RowsForEach(ContentDatabase());
  }

  class GridPage {
    /** The `highlight` class of each grid cell, by linear index. */
    var highlighted: array<bool>
    /** The text of the description pane. */
    var description: string
    /** The rows of the leaf list. */
    var leafRows: seq<LeafRow>

    ghost predicate Valid()
      reads this
    {
      highlighted.Length == CellCount && ListsDatabase(leafRows)
    }

    /** Builds the 400 unhighlighted cells, then populates the leaf list. */
    constructor (initialDescription: string)
      ensures Valid() && fresh(highlighted)
      ensures MarksExactly(highlighted[..], None)
      ensures description == initialDescription
    {
      var rows := BuildLeafList();
      highlighted := new bool[CellCount](_ => false);
      description := initialDescription;
      leafRows := rows;
    }

    /**
     * `highlightTerm`: adds the highlight to the two cells of the term's
     * footprint when it has a location, and changes nothing otherwise.
     */
    method HighlightTerm(id: string)
      requires Valid()
      modifies highlighted
      ensures forall i :: 0 <= i < CellCount ==> highlighted[i] == (old(highlighted[i]) || InFootprint(id, i))
    {
      var location := LocationOf(id);
      if location.Some? {
        var row, col := location.value.row, location.value.col;
        var index1 := row * GridSize + col;
        var index2 := row * GridSize + col + 1;
        LocationInBounds(id);
        highlighted[index1] := true;
        highlighted[index2] := true;
      }
    }

    /** `clearHighlights`: removes the highlight from every cell. */
    method ClearHighlights()
      requires Valid()
      modifies highlighted
      ensures MarksExactly(highlighted[..], None)
    {
      for i := 0 to highlighted.Length
        invariant forall j :: 0 <= j < i ==> !highlighted[j]
      {
        highlighted[i] := false;
      }
    }

    /**
     * The `mouseover` handler of grid cell `index`: clears every highlight,
     * then highlights the term the cell resolves to and shows its content,
     * or shows the empty text when it resolves to none.
     */
    method HoverCell(index: int)
      requires Valid() && 0 <= index < CellCount
      modifies this, highlighted
      ensures Valid() && highlighted == old(highlighted) && leafRows == old(leafRows)
      ensures MarksExactly(highlighted[..], HitTest(index))
      ensures HitTest(index).Some? ==>
                Lookup(HitTest(index).value).Some? && description == Lookup(HitTest(index).value).value.content
      ensures HitTest(index).None? ==> description == ""
      ensures CountTrue(highlighted[..]) == if HitTest(index).Some? then 2 else 0
    {
      ClearHighlights();
      var termId := HitTest(index);
      if termId.Some? {
        HighlightTerm(termId.value);
        HitTestExact(index, termId.value);
        LocatedIffRecorded(termId.value);
        description := Lookup(termId.value).value.content;
        ExactlyTwoHighlighted(highlighted[..], termId.value);
      } else {
        description := "";
        NoneHighlighted(highlighted[..]);
      }
    }

    /**
     * The `mouseover` handler of leaf-list row `row`: clears every
     * highlight, highlights the row's term and shows its content.
     */
    method HoverLeaf(row: int)
      requires Valid() && 0 <= row < |leafRows|
      modifies this, highlighted
      ensures Valid() && highlighted == old(highlighted) && leafRows == old(leafRows)
      ensures MarksExactly(highlighted[..], Some(ContentDatabase()[row].id))
      ensures description == ContentDatabase()[row].rec.content
      ensures CountTrue(highlighted[..]) == 2
    {
      var item := leafRows[row];
      ClearHighlights();
      HighlightTerm(item.id);
      description := item.data.content;
      LookupKey(row);
      LocatedIffRecorded(item.id);
      ExactlyTwoHighlighted(highlighted[..], item.id);
    }
  }
}
