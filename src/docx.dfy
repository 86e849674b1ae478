/**
 * The part of a python-docx document the converters touch: paragraphs made of runs, and
 * tables of rows of cells of paragraphs. A paragraph's text is its runs' texts joined.
 */
module Docx {
  import opened Chars

  /** `paragraph.runs`, each run reduced to its text; the converters rewrite them in place. */
  class Paragraph {
    var runs: seq<string>

    constructor(runs: seq<string>)
      ensures this.runs == runs
    {
      this.runs := runs;
    }

    /** `paragraph.text` */
    function Text(): string
      reads this
    {
      Join(runs)
    }
  }

  function Join(rs: seq<string>): string
  {
    if rs == [] then "" else rs[0] + Join(rs[1..])
  }

  /** Runs that are all empty but the first hold the first one's text. */
  lemma {:induction false} JoinFirstOnly(rs: seq<string>)
    requires rs != [] && forall i :: 1 <= i < |rs| ==> rs[i] == ""
    ensures Join(rs) == rs[0]
    decreases |rs|
  {
    if |rs| > 1 {
      JoinFirstOnly(rs[1..]);
    }
  }

  datatype Cell = Cell(paragraphs: seq<Paragraph>)
  datatype Row = Row(cells: seq<Cell>)
  datatype Table = Table(rows: seq<Row>)

  /** `doc.paragraphs` (the body's top-level paragraphs) and `doc.tables`. */
  datatype Document = Document(paragraphs: seq<Paragraph>, tables: seq<Table>)

  function CellsParagraphs(cells: seq<Cell>): seq<Paragraph>
  {
    if cells == [] then [] else cells[0].paragraphs + CellsParagraphs(cells[1..])
  }

  function RowsParagraphs(rows: seq<Row>): seq<Paragraph>
  {
    if rows == [] then [] else CellsParagraphs(rows[0].cells) + RowsParagraphs(rows[1..])
  }

  /** The paragraphs `for row in table.rows: for cell in row.cells: for paragraph in cell.paragraphs` visits, in that order. */
  function TableParagraphs(t: Table): seq<Paragraph>
  {
    RowsParagraphs(t.rows)
  }

  lemma {:induction false} CellsAllocated(cells: seq<Cell>)
    ensures forall p :: p in CellsParagraphs(cells) ==> allocated(p)
    decreases |cells|
  {
    if cells != [] {
      CellsAllocated(cells[1..]);
    }
  }

  lemma {:induction false} RowsAllocated(rows: seq<Row>)
    ensures forall p :: p in RowsParagraphs(rows) ==> allocated(p)
    decreases |rows|
  {
    if rows != [] {
      CellsAllocated(rows[0].cells);
      RowsAllocated(rows[1..]);
    }
  }

  /** The paragraphs a table visits exist in the current state. */
  lemma TablesAllocated(tables: seq<Table>)
    ensures forall k, q :: 0 <= k < |tables| && 0 <= q < |TableParagraphs(tables[k])| ==>
      allocated(TableParagraphs(tables[k])[q])
  {
    forall k, q | 0 <= k < |tables| && 0 <= q < |TableParagraphs(tables[k])|
      ensures allocated(TableParagraphs(tables[k])[q])
    {
      RowsAllocated(tables[k].rows);
      assert TableParagraphs(tables[k])[q] in RowsParagraphs(tables[k].rows);
    }
  }

  function Texts(ps: seq<Paragraph>): (ts: seq<string>)
    reads set p | p in ps
    ensures |ts| == |ps| && forall i :: 0 <= i < |ps| ==> ts[i] == ps[i].Text()
  {
    if ps == [] then [] else [ps[0].Text()] + Texts(ps[1..])
  }

  /** Each paragraph's runs, in order. */
  function Runs(ps: seq<Paragraph>): (rss: seq<seq<string>>)
    reads set p | p in ps
    ensures |rss| == |ps| && forall i :: 0 <= i < |ps| ==> rss[i] == ps[i].runs
  {
    if ps == [] then [] else [ps[0].runs] + Runs(ps[1..])
  }

  function TablesRuns(tables: seq<Table>): (trs: seq<seq<seq<string>>>)
    reads set t, p | t in tables && p in TableParagraphs(t) :: p
    ensures |trs| == |tables| && forall i :: 0 <= i < |tables| ==> trs[i] == Runs(TableParagraphs(tables[i]))
  {
    if tables == [] then [] else [Runs(TableParagraphs(tables[0]))] + TablesRuns(tables[1..])
  }

  function TablesTexts(tables: seq<Table>): (tts: seq<seq<string>>)
    reads set t, p | t in tables && p in TableParagraphs(t) :: p
    ensures |tts| == |tables| && forall i :: 0 <= i < |tables| ==> tts[i] == Texts(TableParagraphs(tables[i]))
  {
    if tables == [] then [] else [Texts(TableParagraphs(tables[0]))] + TablesTexts(tables[1..])
  }

  /** Every paragraph of the document's tables. */
  function TablesParagraphs(tables: seq<Table>): set<Paragraph>
  {
    set t, p | t in tables && p in TableParagraphs(t) :: p
  }

  /** Every paragraph of the document. */
  function AllParagraphs(doc: Document): set<Paragraph>
  {
    (set p | p in doc.paragraphs) + TablesParagraphs(doc.tables)
  }

  /** No paragraph belongs to two tables, and no table visits a paragraph twice. */
  predicate TablesApart(tables: seq<Table>)
  {
    && (forall k :: 0 <= k < |tables| ==> Distinct(TableParagraphs(tables[k])))
    && (forall k, l, p :: 0 <= k < |tables| && 0 <= l < |tables| && k != l && p in TableParagraphs(tables[k]) ==>
          p !in TableParagraphs(tables[l]))
  }

  /** In a document whose paragraphs are visited once, the top-level ones are none of the tables' paragraphs. */
  lemma TopLevelApart(doc: Document)
    requires Separate(doc)
    ensures forall j :: 0 <= j < |doc.paragraphs| ==> doc.paragraphs[j] !in TablesParagraphs(doc.tables)
  {
    forall j, t | 0 <= j < |doc.paragraphs| && t in doc.tables
      ensures doc.paragraphs[j] !in TableParagraphs(t)
    {
      var k :| 0 <= k < |doc.tables| && doc.tables[k] == t;
      assert doc.paragraphs[j] in doc.paragraphs;
    }
  }

  /**
   * No paragraph is visited twice. python-docx hands out the same cell again for a merged
   * cell, which this model does not cover.
   */
  predicate Separate(doc: Document)
  {
    && Distinct(doc.paragraphs)
    && TablesApart(doc.tables)
    && (forall k, p :: 0 <= k < |doc.tables| && p in TableParagraphs(doc.tables[k]) ==> p !in doc.paragraphs)
  }
}
