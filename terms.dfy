/**
 * The static data of the page: the ordered table of term locations on the
 * hover grid, the ordered content database, and the grid hit-test.
 *
 * Both tables are JavaScript object literals whose keys are iterated with
 * `Object.keys`; for non-numeric keys that is insertion order, so each table
 * is modelled as a sequence in the order the entries are written.
 */
module Terms {
  import opened Wrappers

  /** Edge length of the square hover grid. */
  const GridSize: int := 20
  /** Number of cells in the hover grid. */
  const CellCount: int := GridSize * GridSize

  /** One entry of the location table: a term id and the grid cell of its left half. */
  datatype Location = Location(id: string, row: int, col: int)

  /** Linear index of the left cell of a term's 1x2 footprint. */
  function LeftCell(l: Location): int { l.row * GridSize + l.col }

  /** Linear index of the right cell of a term's 1x2 footprint. */
  function RightCell(l: Location): int { l.row * GridSize + l.col + 1 }

  /** Whether grid cell `index` belongs to the footprint of `l`. */
  predicate Covers(l: Location, index: int) {
    index == LeftCell(l) || index == RightCell(l)
  }

  /** Number of terms in both tables. */
  const TermCount: nat := 16

  /** Entry `k` of the location table, in key order. Every footprint lies on the grid. */
  function LocationAt(k: nat): (l: Location)
    requires k < TermCount
    ensures OnGrid(l)
  {
    match k
    case 0 => Location("b1", 10, 8)
    case 1 => Location("b2", 6, 4)
    case 2 => Location("b3", 10, 4)
    case 3 => Location("b4", 14, 4)
    case 4 => Location("b5", 4, 12)
    case 5 => Location("b6", 8, 12)
    case 6 => Location("b7", 12, 12)
    case 7 => Location("b8", 16, 12)
    case 8 => Location("b9", 14, 16)
    case 9 => Location("b10", 18, 16)
    case 10 => Location("b11", 2, 16)
    case 11 => Location("b12", 10, 18)
    case 12 => Location("b13", 6, 2)
    case 13 => Location("b14", 10, 2)
    case 14 => Location("b15", 14, 2)
    case _ => Location("b16", 18, 2)
  }

  /** The location table `termLocations`, in key order. */
  function TermLocations(): seq<Location> {
    seq(TermCount, k requires 0 <= k < TermCount => LocationAt(k))
  }

  /** A record of the content database. */
  datatype Record = Record(latin: string, english: string, content: string)

  /** One entry of the content database: a term id and its record. */
  datatype Entry = Entry(id: string, rec: Record)

  /**
   * Entry `k` of the content database, in key order. The explanatory prose
   * of each entry is represented by a distinct stand-in string; only its
   * identity matters. The database's keys are the location table's keys, in
   * the same order, and no content is empty.
   */
  function EntryAt(k: nat): (e: Entry)
    requires k < TermCount
    ensures e.id == LocationAt(k).id && e.rec.content != ""
  {
    match k
    case 0 => Entry("b1", Record("Suppositio", "Supposition", "prose:b1"))
    case 1 => Entry("b2", Record("Materialis", "Material", "prose:b2"))
    case 2 => Entry("b3", Record("Simplex", "Simple", "prose:b3"))
    case 3 => Entry("b4", Record("Personalis", "Personal", "prose:b4"))
    case 4 => Entry("b5", Record("Discreta", "Discrete", "prose:b5"))
    case 5 => Entry("b6", Record("Communis", "Common", "prose:b6"))
    case 6 => Entry("b7", Record("Determinata", "Determinate", "prose:b7"))
    case 7 => Entry("b8", Record("Confusa", "Confused", "prose:b8"))
    case 8 => Entry("b9", Record("Tantum", "Only", "prose:b9"))
    case 9 => Entry("b10", Record("Mobilis", "Mobile", "prose:b10"))
    case 10 => Entry("b11", Record("Immobilis", "Immobile", "prose:b11"))
    case 11 => Entry("b12", Record("Appellatio", "Appellation", "prose:b12"))
    case 12 => Entry("b13", Record("Relativa", "Relative", "prose:b13"))
    case 13 => Entry("b14", Record("Naturalis", "Natural", "prose:b14"))
    case 14 => Entry("b15", Record("Consuetudinaria", "Customary", "prose:b15"))
    case _ => Entry("b16", Record("Accidentalis", "Accidental", "prose:b16"))
  }

  /** The content database `contentDatabase`, in key order. */
  function ContentDatabase(): seq<Entry> {
    seq(TermCount, k requires 0 <= k < TermCount => EntryAt(k))
  }

  /** `Object.keys(termLocations)`. */
  function LocationKeys(): seq<string> {
    seq(TermCount, k requires 0 <= k < TermCount => LocationAt(k).id)
  }

  /** `Object.keys(contentDatabase)`. */
  function DatabaseKeys(): seq<string> {
    seq(TermCount, k requires 0 <= k < TermCount => EntryAt(k).id)
  }

  /** The tables are the entries `LocationAt(k)` and `EntryAt(k)`, k < TermCount. */
  lemma TablesAre()
    ensures |TermLocations()| == TermCount && |ContentDatabase()| == TermCount
    ensures |LocationKeys()| == TermCount && |DatabaseKeys()| == TermCount
    ensures forall k :: 0 <= k < TermCount ==> TermLocations()[k] == LocationAt(k)
    ensures forall k :: 0 <= k < TermCount ==> ContentDatabase()[k] == EntryAt(k)
    ensures forall k :: 0 <= k < TermCount ==> LocationKeys()[k] == LocationAt(k).id
    ensures forall k :: 0 <= k < TermCount ==> DatabaseKeys()[k] == EntryAt(k).id
  {
  }

  /** `Object.keys(contentDatabase)` lists the database's ids, in order. */
  lemma DatabaseKeysAre()
    ensures |DatabaseKeys()| == |ContentDatabase()|
    ensures forall k :: 0 <= k < |DatabaseKeys()| ==> DatabaseKeys()[k] == ContentDatabase()[k].id
  {
  }

  // ---------------------------------------------------------------------
  // Lookups: `termLocations[id]`, `contentDatabase[id]` and the hit-test `find`
  // ---------------------------------------------------------------------

  /** Position of the first key at or after `i` equal to `id`, or `|keys|` if none. */
  function KeyIndex(keys: seq<string>, id: string, i: nat): (k: nat)
    requires i <= |keys|
    ensures i <= k <= |keys|
    ensures forall j :: i <= j < k ==> keys[j] != id
    ensures k < |keys| ==> keys[k] == id
    decreases |keys| - i
  {
    if i == |keys| then i
    else if keys[i] == id then i
    else KeyIndex(keys, id, i + 1)
  }

  /** `termLocations[id]`: the location of a term, if the table has one. */
  function LocationOf(id: string): (r: Option<Location>)
    ensures r.Some? ==> r.value.id == id && r.value in TermLocations()
    ensures r.None? <==> forall k :: 0 <= k < |TermLocations()| ==> TermLocations()[k].id != id
  {
    TablesAre();
    var k := KeyIndex(LocationKeys(), id, 0);
    if k < TermCount then Some(LocationAt(k)) else None
  }

  /** `contentDatabase[id]`: the record of a term, if the database has one. */
  function Lookup(id: string): (r: Option<Record>)
    ensures r.Some? ==> Entry(id, r.value) in ContentDatabase()
    ensures r.None? <==> forall k :: 0 <= k < |ContentDatabase()| ==> ContentDatabase()[k].id != id
  {
    TablesAre();
    var k := KeyIndex(DatabaseKeys(), id, 0);
    if k < TermCount then Some(EntryAt(k).rec) else None
  }

  /**
   * Position of the first location at or after `i` whose footprint covers
   * grid cell `index`, or `|locs|` if none does: the predicate that
   * `Object.keys(termLocations).find` applies, in key order.
   */
  function CoveringIndex(locs: seq<Location>, index: int, i: nat): (k: nat)
    requires i <= |locs|
    ensures i <= k <= |locs|
    ensures forall j :: i <= j < k ==> !Covers(locs[j], index)
    ensures k < |locs| ==> Covers(locs[k], index)
    decreases |locs| - i
  {
    if i == |locs| then i
    else if Covers(locs[i], index) then i
    else CoveringIndex(locs, index, i + 1)
  }

  /** The id the cell `index` resolves to on hover, if any. */
  function HitTest(index: int): (r: Option<string>)
    ensures r.Some? <==> exists k :: 0 <= k < |TermLocations()| && Covers(TermLocations()[k], index)
  {
    var k := CoveringIndex(TermLocations(), index, 0);
    if k < |TermLocations()| then Some(TermLocations()[k].id) else None
  }

  // ---------------------------------------------------------------------
  // Checkers evaluated on the concrete tables
  // ---------------------------------------------------------------------

  /** No location at or after `i` has id `id`. */
  predicate IdAbsentFrom(id: string, i: nat)
    decreases TermCount - i
  {
    i >= TermCount || (LocationAt(i).id != id && IdAbsentFrom(id, i + 1))
  }

  /** Two footprints do not touch: different rows, or columns at least two apart. */
  predicate Apart(l: Location, m: Location) {
    l.row != m.row || l.col + 1 < m.col || m.col + 1 < l.col
  }

  /** Location `a` is apart from every location at or after `i`. */
  predicate ApartFrom(a: nat, i: nat)
    requires a < TermCount
    decreases TermCount - i
  {
    i >= TermCount || (Apart(LocationAt(a), LocationAt(i)) && ApartFrom(a, i + 1))
  }

  /** A footprint lies on one row of the grid. */
  predicate OnGrid(l: Location) {
    0 <= l.row < GridSize && 0 <= l.col && l.col + 1 < GridSize
  }

  /** No entry at or after `i` has content `c`. */
  predicate ContentAbsentFrom(c: string, i: nat)
    decreases TermCount - i
  {
    i >= TermCount || (EntryAt(i).rec.content != c && ContentAbsentFrom(c, i + 1))
  }

  /**
   * Location `a`, compared with the locations after it: its id is not
   * repeated and its footprint is apart from theirs.
   */
  predicate LocationChecks(a: nat)
    requires a < TermCount
  {
    IdAbsentFrom(LocationAt(a).id, a + 1) && ApartFrom(a, a + 1)
  }

  /** No later entry of the database repeats the content of entry `a`. */
  predicate ContentChecks(a: nat)
    requires a < TermCount
  {
    ContentAbsentFrom(EntryAt(a).rec.content, a + 1)
  }

  // The concrete tables are evaluated one entry per lemma: unfolding the
  // checkers over all sixteen entries in one proof is too deep for the solver.

  lemma Location0Checked() ensures LocationChecks(0) {
    assert IdAbsentFrom(LocationAt(0).id, 8) && ApartFrom(0, 8);
  }
  lemma Location1Checked() ensures LocationChecks(1) {}
  lemma Location2Checked() ensures LocationChecks(2) {}
  lemma Location3Checked() ensures LocationChecks(3) {}
  lemma Location4Checked() ensures LocationChecks(4) {}
  lemma Location5Checked() ensures LocationChecks(5) {}
  lemma Location6Checked() ensures LocationChecks(6) {}
  lemma Location7Checked() ensures LocationChecks(7) {}
  lemma Location8Checked() ensures LocationChecks(8) {}
  lemma Location9Checked() ensures LocationChecks(9) {}
  lemma Location10Checked() ensures LocationChecks(10) {}
  lemma Location11Checked() ensures LocationChecks(11) {}
  lemma Location12Checked() ensures LocationChecks(12) {}
  lemma Location13Checked() ensures LocationChecks(13) {}
  lemma Location14Checked() ensures LocationChecks(14) {}
  lemma Location15Checked() ensures LocationChecks(15) {}

  lemma Content0Checked() ensures ContentChecks(0) {
    assert ContentAbsentFrom(EntryAt(0).rec.content, 8);
  }
  lemma Content1Checked() ensures ContentChecks(1) {}
  lemma Content2Checked() ensures ContentChecks(2) {}
  lemma Content3Checked() ensures ContentChecks(3) {}
  lemma Content4Checked() ensures ContentChecks(4) {}
  lemma Content5Checked() ensures ContentChecks(5) {}
  lemma Content6Checked() ensures ContentChecks(6) {}
  lemma Content7Checked() ensures ContentChecks(7) {}
  lemma Content8Checked() ensures ContentChecks(8) {}
  lemma Content9Checked() ensures ContentChecks(9) {}
  lemma Content10Checked() ensures ContentChecks(10) {}
  lemma Content11Checked() ensures ContentChecks(11) {}
  lemma Content12Checked() ensures ContentChecks(12) {}
  lemma Content13Checked() ensures ContentChecks(13) {}
  lemma Content14Checked() ensures ContentChecks(14) {}
  lemma Content15Checked() ensures ContentChecks(15) {}

  lemma LocationChecked(a: nat)
    requires a < TermCount
    ensures LocationChecks(a)
  {
    if a == 0 { Location0Checked(); }
    else if a == 1 { Location1Checked(); }
    else if a == 2 { Location2Checked(); }
    else if a == 3 { Location3Checked(); }
    else if a == 4 { Location4Checked(); }
    else if a == 5 { Location5Checked(); }
    else if a == 6 { Location6Checked(); }
    else if a == 7 { Location7Checked(); }
    else if a == 8 { Location8Checked(); }
    else if a == 9 { Location9Checked(); }
    else if a == 10 { Location10Checked(); }
    else if a == 11 { Location11Checked(); }
    else if a == 12 { Location12Checked(); }
    else if a == 13 { Location13Checked(); }
    else if a == 14 { Location14Checked(); }
    else { Location15Checked(); }
  }

  lemma ContentChecked(a: nat)
    requires a < TermCount
    ensures ContentChecks(a)
  {
    if a == 0 { Content0Checked(); }
    else if a == 1 { Content1Checked(); }
    else if a == 2 { Content2Checked(); }
    else if a == 3 { Content3Checked(); }
    else if a == 4 { Content4Checked(); }
    else if a == 5 { Content5Checked(); }
    else if a == 6 { Content6Checked(); }
    else if a == 7 { Content7Checked(); }
    else if a == 8 { Content8Checked(); }
    else if a == 9 { Content9Checked(); }
    else if a == 10 { Content10Checked(); }
    else if a == 11 { Content11Checked(); }
    else if a == 12 { Content12Checked(); }
    else if a == 13 { Content13Checked(); }
    else if a == 14 { Content14Checked(); }
    else { Content15Checked(); }
  }

  // ---------------------------------------------------------------------
  // What the checkers mean
  // ---------------------------------------------------------------------

  lemma {:induction false} IdAbsentMeans(id: string, i: nat)
    requires IdAbsentFrom(id, i)
    ensures forall j :: i <= j < TermCount ==> LocationAt(j).id != id
    decreases TermCount - i
  {
    if i < TermCount {
      IdAbsentMeans(id, i + 1);
    }
  }

  lemma {:induction false} ApartMeans(a: nat, i: nat)
    requires a < TermCount && ApartFrom(a, i)
    ensures forall j :: i <= j < TermCount ==> Apart(LocationAt(a), LocationAt(j))
    decreases TermCount - i
  {
    if i < TermCount {
      ApartMeans(a, i + 1);
    }
  }

  lemma {:induction false} ContentAbsentMeans(c: string, i: nat)
    requires ContentAbsentFrom(c, i)
    ensures forall j :: i <= j < TermCount ==> EntryAt(j).rec.content != c
    decreases TermCount - i
  {
    if i < TermCount {
      ContentAbsentMeans(c, i + 1);
    }
  }

  /** Footprints on the grid that are apart share no cell. */
  lemma ApartFootprintsDisjoint(l: Location, m: Location, c: int)
    requires OnGrid(l) && OnGrid(m) && Apart(l, m)
    ensures !(Covers(l, c) && Covers(m, c))
  {
    if l.row < m.row {
      assert RightCell(l) < LeftCell(m) by {
        assert (l.row + 1) * GridSize <= m.row * GridSize;
      }
    } else if m.row < l.row {
      assert RightCell(m) < LeftCell(l) by {
        assert (m.row + 1) * GridSize <= l.row * GridSize;
      }
    }
  }

  // ---------------------------------------------------------------------
  // Facts about the tables
  // ---------------------------------------------------------------------

  /** Keys of the location table are unique, so `termLocations[id]` is the entry with that id. */
  lemma UniqueIds()
    ensures forall a, b :: 0 <= a < b < |TermLocations()| ==> TermLocations()[a].id != TermLocations()[b].id
  {
    TablesAre();
    forall a | 0 <= a < |TermLocations()|
      ensures forall b :: a < b < |TermLocations()| ==> TermLocations()[a].id != TermLocations()[b].id
    {
      LocationChecked(a);
      IdAbsentMeans(LocationAt(a).id, a + 1);
    }
  }

  /**
   * Every footprint lies on a single row of the 20x20 grid, so both of its
   * linear indices are valid positions of the 400-cell grid.
   */
  lemma FootprintsInBounds()
    ensures forall k :: 0 <= k < |TermLocations()| ==>
              OnGrid(TermLocations()[k])
              && 0 <= LeftCell(TermLocations()[k]) && RightCell(TermLocations()[k]) < CellCount
              && LeftCell(TermLocations()[k]) / GridSize == RightCell(TermLocations()[k]) / GridSize
  {
    TablesAre();
    forall k | 0 <= k < |TermLocations()|
      ensures 0 <= LeftCell(TermLocations()[k]) && RightCell(TermLocations()[k]) < CellCount
      ensures LeftCell(TermLocations()[k]) / GridSize == RightCell(TermLocations()[k]) / GridSize
    {
      CellOnRow(TermLocations()[k]);
    }
  }

  lemma CellOnRow(l: Location)
    requires OnGrid(l)
    ensures 0 <= LeftCell(l) && RightCell(l) < CellCount
    ensures LeftCell(l) / GridSize == l.row && RightCell(l) / GridSize == l.row
  {
    assert l.row * GridSize + GridSize <= CellCount by {
      assert l.row + 1 <= GridSize;
    }
  }

  /** No grid cell belongs to the footprints of two different terms. */
  lemma FootprintsDisjoint()
    ensures forall a, b, c :: 0 <= a < |TermLocations()| && 0 <= b < |TermLocations()| && a != b
              ==> !(Covers(TermLocations()[a], c) && Covers(TermLocations()[b], c))
  {
    TablesAre();
    forall a, b, c | 0 <= a < |TermLocations()| && 0 <= b < |TermLocations()| && a != b
      ensures !(Covers(TermLocations()[a], c) && Covers(TermLocations()[b], c))
    {
      var lo, hi := if a < b then a else b, if a < b then b else a;
      LocationChecked(lo);
      ApartMeans(lo, lo + 1);
      ApartFootprintsDisjoint(TermLocations()[lo], TermLocations()[hi], c);
    }
  }

  /** The content database has exactly the keys of the location table, in the same order. */
  lemma SameKeys()
    ensures |ContentDatabase()| == |TermLocations()|
    ensures forall k :: 0 <= k < |TermLocations()| ==> ContentDatabase()[k].id == TermLocations()[k].id
    ensures DatabaseKeys() == LocationKeys()
  {
    TablesAre();
  }

  /** Each term's content is non-empty and differs from every other term's. */
  lemma ContentsDistinct()
    ensures forall k :: 0 <= k < |ContentDatabase()| ==> ContentDatabase()[k].rec.content != ""
    ensures forall a, b :: 0 <= a < b < |ContentDatabase()| ==>
              ContentDatabase()[a].rec.content != ContentDatabase()[b].rec.content
  {
    TablesAre();
    forall a | 0 <= a < |ContentDatabase()|
      ensures forall b :: a < b < |ContentDatabase()| ==>
                ContentDatabase()[a].rec.content != ContentDatabase()[b].rec.content
    {
      ContentChecked(a);
      ContentAbsentMeans(EntryAt(a).rec.content, a + 1);
    }
  }

  // ---------------------------------------------------------------------
  // Lookups and the hit-test
  // ---------------------------------------------------------------------

  /** Looking up the id of the k-th location finds exactly that location and the k-th record. */
  lemma LookupEntry(k: nat)
    requires k < |TermLocations()|
    ensures LocationOf(TermLocations()[k].id) == Some(TermLocations()[k])
    ensures Lookup(TermLocations()[k].id) == Some(ContentDatabase()[k].rec)
  {
    TablesAre();
    UniqueIds();
    SameKeys();
    var id := TermLocations()[k].id;
    var j := KeyIndex(LocationKeys(), id, 0);
    assert j <= k;
    assert j == k;
  }

  /** Looking up the id of the k-th database entry finds that entry's record. */
  lemma LookupKey(k: nat)
    requires k < |ContentDatabase()|
    ensures Lookup(ContentDatabase()[k].id) == Some(ContentDatabase()[k].rec)
  {
    SameKeys();
    LookupEntry(k);
  }

  /** A term has a location exactly when it has a record. */
  lemma LocatedIffRecorded(id: string)
    ensures LocationOf(id).Some? <==> Lookup(id).Some?
  {
    SameKeys();
  }

  /**
   * Two terms that have records with the same content are the same term, so
   * the description pane identifies the term it shows.
   */
  lemma ContentIdentifiesTerm(a: string, b: string)
    requires Lookup(a).Some? && Lookup(b).Some?
    requires Lookup(a).value.content == Lookup(b).value.content
    ensures a == b
  {
    ContentsDistinct();
    var i :| 0 <= i < |ContentDatabase()| && ContentDatabase()[i] == Entry(a, Lookup(a).value);
    var j :| 0 <= j < |ContentDatabase()| && ContentDatabase()[j] == Entry(b, Lookup(b).value);
    assert i == j;
  }

  /** Hovering either cell of a term's footprint resolves to that term. */
  lemma HitTestFootprint(k: nat)
    requires k < |TermLocations()|
    ensures HitTest(LeftCell(TermLocations()[k])) == Some(TermLocations()[k].id)
    ensures HitTest(RightCell(TermLocations()[k])) == Some(TermLocations()[k].id)
  {
    FootprintsDisjoint();
    var l := TermLocations()[k];
    var left := CoveringIndex(TermLocations(), LeftCell(l), 0);
    var right := CoveringIndex(TermLocations(), RightCell(l), 0);
    assert left <= k && right <= k;
    assert left == k;
    assert right == k;
  }

  /**
   * A cell resolves to `id` exactly when `id` has a location whose footprint
   * contains the cell.
   */
  lemma HitTestExact(index: int, id: string)
    ensures HitTest(index) == Some(id) <==> (LocationOf(id).Some? && Covers(LocationOf(id).value, index))
  {
    var k := CoveringIndex(TermLocations(), index, 0);
    if HitTest(index) == Some(id) {
      LookupEntry(k);
    }
    if LocationOf(id).Some? && Covers(LocationOf(id).value, index) {
      var j :| 0 <= j < |TermLocations()| && TermLocations()[j] == LocationOf(id).value;
      HitTestFootprint(j);
    }
  }

  /**
   * A term that has a location has both footprint cells inside the grid, so
   * `grid[index1]` and `grid[index2]` in `highlightTerm` are always defined.
   */
  lemma LocationInBounds(id: string)
    requires LocationOf(id).Some?
    ensures 0 <= LeftCell(LocationOf(id).value) && RightCell(LocationOf(id).value) < CellCount
  {
    FootprintsInBounds();
  }
}
