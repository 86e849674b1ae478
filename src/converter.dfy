/**
 * `process_paragraph`, `process_table` and `convert_document` of the three converters
 * (convert_brackets.py:13-80, convert_brackets_v2.py:22-113, convert_brackets_final.py:30-126),
 * one model parameterised by the `Version` that decides how a tag is renamed.
 */
module Converter {
  import opened Chars
  import opened Normalize
  import opened SingleBrace
  import opened Docx

  // ----- What the methods compute, on the texts before the run -----

  /** The names the pattern finds in one text. */
  function TagSet(t: string): set<string>
  {
    Elems(TagNames(Parse(false, t)))
  }

  /** The `replacements` dictionary for a set of matched names: each one to its new name. */
  function RenameMap(v: Version, names: set<string>): map<string, string>
  {
    map x | x in names :: Rename(v, x)
  }

  /** Every name matched in a sequence of texts. */
  function AllTags(ts: seq<string>): set<string>
  {
    if ts == [] then {} else AllTags(ts[..|ts| - 1]) + TagSet(ts[|ts| - 1])
  }

  /** Some text of the sequence has a tag. */
  predicate AnyTagged(ts: seq<string>)
  {
    exists i :: 0 <= i < |ts| && HasTag(ts[i])
  }

  /** How many texts of the sequence have a tag. */
  function CountTagged(ts: seq<string>): nat
  {
    if ts == [] then 0 else CountTagged(ts[..|ts| - 1]) + (if HasTag(ts[|ts| - 1]) then 1 else 0)
  }

  /** How many tables have a paragraph with a tag. */
  function CountTables(tts: seq<seq<string>>, n: nat): nat
    requires n <= |tts|
  {
    if n == 0 then 0 else CountTables(tts, n - 1) + (if AnyTagged(tts[n - 1]) then 1 else 0)
  }

  /** Every name matched in any paragraph of any table. */
  function TablesTags(tts: seq<seq<string>>, n: nat): set<string>
    requires n <= |tts|
  {
    if n == 0 then {} else TablesTags(tts, n - 1) + AllTags(tts[n - 1])
  }

  /** The runs after a change: all emptied, the first (or a new one) holding the new text. */
  predicate Rewritten(runs: seq<string>, prior: seq<string>, text: string)
  {
    && |runs| == (if prior == [] then 1 else |prior|)
    && runs[0] == text
    && forall i :: 1 <= i < |runs| ==> runs[i] == ""
  }

  /**
   * The runs `process_paragraph` leaves in a paragraph whose runs were `prior`: the same runs
   * when their text has no tag; otherwise the converted text in the first run (in a new run when
   * there was none) and every other run emptied.
   */
  function AfterRuns(v: Version, prior: seq<string>): seq<string>
  {
    if !HasTag(Join(prior)) then prior
    else [ConvertText(v, Join(prior))] + seq(if prior == [] then 0 else |prior| - 1, _ => "")
  }


  // ----- The methods -----

  /**
   * `process_paragraph`: nothing is touched when the pattern finds no tag; otherwise every
   * tag is rewritten and the runs are replaced by the new text.
   */
  method ProcessParagraph(p: Paragraph, v: Version) returns (changed: bool, replacements: map<string, string>)
    modifies p
    ensures changed == HasTag(old(p.Text()))
    ensures replacements == RenameMap(v, TagSet(old(p.Text())))
    ensures !changed ==> p.runs == old(p.runs)
    ensures changed ==> Rewritten(p.runs, old(p.runs), ConvertText(v, old(p.Text())))
    ensures p.runs == AfterRuns(v, old(p.runs))
    ensures p.Text() == ConvertText(v, old(p.Text()))
  {
    var fullText := p.Text();
    var pieces := Parse(false, fullText);
    var names := TagNames(pieces);
    if names == [] {
      NoTagUnchanged(v, fullText);
      return false, map[];
    }
    replacements := RecordReplacements(names, v);
    ReplaceRuns(p, Converted(v, pieces));
    RewrittenIsAfterRuns(v, old(p.runs), p.runs);
    changed := true;
  }

  /** Every run emptied, then the first run (or a new one, when there is none) given the new text. */
  method ReplaceRuns(p: Paragraph, newText: string)
    modifies p
    ensures Rewritten(p.runs, old(p.runs), newText)
    ensures p.Text() == newText
  {
    var k := 0;
    while k < |p.runs|
      invariant 0 <= k <= |p.runs| == |old(p.runs)|
      invariant forall j :: 0 <= j < k ==> p.runs[j] == ""
    {
      p.runs := p.runs[k := ""];
      k := k + 1;
    }
    if |p.runs| > 0 {
      p.runs := p.runs[0 := newText];
    } else {
      p.runs := p.runs + [newText];
    }
    JoinFirstOnly(p.runs);
  }

  /** `replace_func`, called by `re.sub` once per match in order, records each name with its new name. */
  method RecordReplacements(names: seq<string>, v: Version) returns (replacements: map<string, string>)
    ensures replacements == RenameMap(v, Elems(names))
  {
    replacements := map[];
    var i := 0;
    while i < |names|
      invariant 0 <= i <= |names|
      invariant replacements == RenameMap(v, Elems(names[..i]))
    {
      assert names[..i + 1] == names[..i] + [names[i]];
      ElemsSnoc(names[..i], names[i]);
      RenameMapAdd(v, Elems(names[..i]), names[i]);
      replacements := replacements[names[i] := Rename(v, names[i])];
      i := i + 1;
    }
    assert names[..i] == names;
  }

  /** `process_table`: True when some cell paragraph changed; the replacements of the changed ones merged in visiting order. */
  method ProcessTable(t: Table, v: Version) returns (changed: bool, replacements: map<string, string>)
    requires Distinct(TableParagraphs(t))
    modifies set p | p in TableParagraphs(t)
    ensures changed == AnyTagged(old(Texts(TableParagraphs(t))))
    ensures replacements == RenameMap(v, AllTags(old(Texts(TableParagraphs(t)))))
    ensures forall q :: 0 <= q < |TableParagraphs(t)| ==>
      TableParagraphs(t)[q].Text() == ConvertText(v, old(TableParagraphs(t)[q].Text()))
    ensures forall q :: 0 <= q < |TableParagraphs(t)| ==>
      TableParagraphs(t)[q].runs == AfterRuns(v, old(TableParagraphs(t)[q].runs))
  {
    changed, replacements := ProcessCells(TableParagraphs(t), v);
  }

  /** The body of `process_table`'s three nested loops, over the paragraphs they visit in order. */
  method ProcessCells(ps: seq<Paragraph>, v: Version) returns (changed: bool, replacements: map<string, string>)
    requires Distinct(ps)
    modifies set p | p in ps
    ensures changed == AnyTagged(old(Texts(ps)))
    ensures replacements == RenameMap(v, AllTags(old(Texts(ps))))
    ensures forall j :: 0 <= j < |ps| ==> ps[j].Text() == ConvertText(v, old(ps[j].Text()))
    ensures forall j :: 0 <= j < |ps| ==> ps[j].runs == AfterRuns(v, old(ps[j].runs))
  {
    ghost var before, prior, seen := Texts(ps), Runs(ps), [];
    changed, replacements := false, map[];
    var i := 0;
    while i < |ps|
      invariant i == |seen| <= |ps| && Progress(ps, v, before, prior, seen)
      invariant changed == AnyTagged(seen)
      invariant replacements == RenameMap(v, AllTags(seen))
    {
      var c, r := VisitParagraph(ps, i, v, before, prior, seen);
      TableStep(v, seen, before[i], c, r, changed, replacements);
      changed := changed || c;
      replacements := if c then replacements + r else replacements;
      seen := seen + [before[i]];
      i := i + 1;
    }
    assert seen == before;
    ConvertedTexts(ps, v, before, prior);
  }

  /**
   * The paragraphs of `ps` before position `|seen|` hold the conversion of their texts `before`
   * in runs rewritten from their runs `prior`, and `seen` lists those texts; the others are as
   * they were.
   */
  ghost predicate Progress(ps: seq<Paragraph>, v: Version, before: seq<string>, prior: seq<seq<string>>, seen: seq<string>)
    reads set p | p in ps
  {
    && |before| == |ps| && |prior| == |ps| && |seen| <= |ps|
    && (forall j :: 0 <= j < |ps| ==> before[j] == Join(prior[j]))
    && forall j :: 0 <= j < |ps| ==>
        if j < |seen| then seen[j] == before[j] && ps[j].runs == AfterRuns(v, prior[j])
        else ps[j].runs == prior[j]
  }

  /** `process_paragraph` on the next paragraph of a loop over `ps`. */
  method VisitParagraph(ps: seq<Paragraph>, i: nat, v: Version, ghost before: seq<string>,
                        ghost prior: seq<seq<string>>, ghost seen: seq<string>)
    returns (c: bool, r: map<string, string>)
    requires Distinct(ps) && i == |seen| < |ps| && Progress(ps, v, before, prior, seen)
    modifies ps[i]
    ensures c == HasTag(before[i]) && r == RenameMap(v, TagSet(before[i]))
    ensures Progress(ps, v, before, prior, seen + [before[i]])
  {
    c, r := ProcessParagraph(ps[i], v);
    forall j | 0 <= j < |ps| && j != i
      ensures ps[j].runs == old(ps[j].runs)
    {
      assert ps[j] != ps[i];
    }
  }

  /** Paragraphs whose runs were all rewritten from `prior` hold the converted texts. */
  lemma ConvertedTexts(ps: seq<Paragraph>, v: Version, before: seq<string>, prior: seq<seq<string>>)
    requires Progress(ps, v, before, prior, before)
    ensures forall j :: 0 <= j < |ps| ==> ps[j].Text() == ConvertText(v, before[j])
  {
    forall j | 0 <= j < |ps|
      ensures ps[j].Text() == ConvertText(v, before[j])
    {
      AfterRunsText(v, prior[j]);
    }
  }

  /**
   * `convert_document`: the count is the number of changed top-level paragraphs plus the number
   * of tables with a changed paragraph; the replacements are merged in visiting order.
   */
  method ConvertDocument(doc: Document, v: Version) returns (count: nat, replacements: map<string, string>)
    requires Separate(doc)
    modifies AllParagraphs(doc)
    ensures count == CountTagged(old(Texts(doc.paragraphs))) + CountTables(old(TablesTexts(doc.tables)), |doc.tables|)
    ensures replacements == RenameMap(v, AllTags(old(Texts(doc.paragraphs))) + TablesTags(old(TablesTexts(doc.tables)), |doc.tables|))
    ensures forall j :: 0 <= j < |doc.paragraphs| ==>
      && doc.paragraphs[j].Text() == ConvertText(v, old(doc.paragraphs[j].Text()))
      && doc.paragraphs[j].runs == AfterRuns(v, old(doc.paragraphs[j].runs))
    ensures forall k, q :: 0 <= k < |doc.tables| && 0 <= q < |TableParagraphs(doc.tables[k])| ==>
      && TableParagraphs(doc.tables[k])[q].Text() == ConvertText(v, old(TablesTexts(doc.tables))[k][q])
      && TableParagraphs(doc.tables[k])[q].runs == AfterRuns(v, old(TablesRuns(doc.tables))[k][q])
  {
    ghost var tablesBefore, tablesPrior := TablesTexts(doc.tables), TablesRuns(doc.tables);
    TablesSnapshot(doc.tables, v);
    var n, r := ConvertTopLevel(doc, v, tablesPrior);
    TopLevelApart(doc);
    var m, s := ConvertTables(doc.tables, v, tablesBefore, tablesPrior);
    forall j | 0 <= j < |doc.paragraphs|
      ensures doc.paragraphs[j].runs == AfterRuns(v, old(doc.paragraphs[j].runs))
      ensures doc.paragraphs[j].Text() == ConvertText(v, old(doc.paragraphs[j].Text()))
    {
      AfterRunsText(v, old(doc.paragraphs[j].runs));
    }
    forall k, q | 0 <= k < |doc.tables| && 0 <= q < |TableParagraphs(doc.tables[k])|
      ensures TableParagraphs(doc.tables[k])[q].Text() == ConvertText(v, tablesBefore[k][q])
      ensures TableParagraphs(doc.tables[k])[q].runs == AfterRuns(v, tablesPrior[k][q])
    {
    }
    count := n + m;
    RenameMapUnion(v, AllTags(old(Texts(doc.paragraphs))), TablesTags(tablesBefore, |doc.tables|));
    replacements := r + s;
  }

  /** The first loop of `convert_document`; the runs of the tables' paragraphs are left as they were. */
  method ConvertTopLevel(doc: Document, v: Version, ghost prior: seq<seq<seq<string>>>)
    returns (count: nat, replacements: map<string, string>)
    requires Separate(doc) && VisitedUpTo(doc.tables, prior, v, 0)
    modifies set p | p in doc.paragraphs
    ensures count == CountTagged(old(Texts(doc.paragraphs)))
    ensures replacements == RenameMap(v, AllTags(old(Texts(doc.paragraphs))))
    ensures forall j :: 0 <= j < |doc.paragraphs| ==>
      && doc.paragraphs[j].Text() == ConvertText(v, old(doc.paragraphs[j].Text()))
      && doc.paragraphs[j].runs == AfterRuns(v, old(doc.paragraphs[j].runs))
    ensures VisitedUpTo(doc.tables, prior, v, 0)
  {
    TablesAllocated(doc.tables);
    count, replacements := ConvertParagraphs(doc.paragraphs, v);
    forall k, q | 0 <= k < |doc.tables| && 0 <= q < |TableParagraphs(doc.tables[k])|
      ensures TableParagraphs(doc.tables[k])[q].runs == old(TableParagraphs(doc.tables[k])[q].runs)
    {
      assert TableParagraphs(doc.tables[k])[q] in TableParagraphs(doc.tables[k]);
    }
  }


  /** `convert_document`'s loop over the top-level paragraphs. */
  method ConvertParagraphs(ps: seq<Paragraph>, v: Version) returns (count: nat, replacements: map<string, string>)
    requires Distinct(ps)
    modifies set p | p in ps
    ensures count == CountTagged(old(Texts(ps)))
    ensures replacements == RenameMap(v, AllTags(old(Texts(ps))))
    ensures forall j :: 0 <= j < |ps| ==> ps[j].Text() == ConvertText(v, old(ps[j].Text()))
    ensures forall j :: 0 <= j < |ps| ==> ps[j].runs == AfterRuns(v, old(ps[j].runs))
  {
    ghost var before, prior, seen := Texts(ps), Runs(ps), [];
    count, replacements := 0, map[];
    var i := 0;
    while i < |ps|
      invariant i == |seen| <= |ps| && Progress(ps, v, before, prior, seen)
      invariant count == CountTagged(seen)
      invariant replacements == RenameMap(v, AllTags(seen))
    {
      var changed, r := VisitParagraph(ps, i, v, before, prior, seen);
      ParagraphStep(v, seen, before[i], changed, r, count, replacements);
      count := if changed then count + 1 else count;
      replacements := if changed then replacements + r else replacements;
      seen := seen + [before[i]];
      i := i + 1;
    }
    assert seen == before;
    ConvertedTexts(ps, v, before, prior);
  }

  /** `convert_document`'s loop over the tables: each table with a changed paragraph counts once. */
  method ConvertTables(tables: seq<Table>, v: Version, ghost before: seq<seq<string>>, ghost prior: seq<seq<seq<string>>>)
    returns (count: nat, replacements: map<string, string>)
    requires TablesApart(tables) && TextsOfRuns(before, prior) && VisitedUpTo(tables, prior, v, 0)
    modifies TablesParagraphs(tables)
    ensures count == CountTables(before, |tables|)
    ensures replacements == RenameMap(v, TablesTags(before, |tables|))
    ensures forall k, q :: 0 <= k < |tables| && 0 <= q < |TableParagraphs(tables[k])| ==>
      TableParagraphs(tables[k])[q].Text() == ConvertText(v, before[k][q])
    ensures forall k, q :: 0 <= k < |tables| && 0 <= q < |TableParagraphs(tables[k])| ==>
      TableParagraphs(tables[k])[q].runs == AfterRuns(v, prior[k][q])
  {
    count, replacements := 0, map[];
    var k := 0;
    while k < |tables|
      invariant 0 <= k <= |tables|
      invariant count == CountTables(before, k)
      invariant replacements == RenameMap(v, TablesTags(before, k))
      invariant VisitedUpTo(tables, prior, v, k)
    {
      count, replacements := VisitTable(tables, k, v, before, prior, count, replacements);
      k := k + 1;
    }
    TablesConvertedTexts(tables, v, before, prior);
  }

  /**
   * The paragraphs of the first `k` tables hold their converted texts in runs rewritten from
   * their runs `prior`, those of the rest their texts and runs before.
   */
  ghost predicate VisitedUpTo(tables: seq<Table>, prior: seq<seq<seq<string>>>, v: Version, k: nat)
    reads set l, q | 0 <= l < |tables| && 0 <= q < |TableParagraphs(tables[l])| :: TableParagraphs(tables[l])[q]
  {
    && |prior| == |tables|
    && (forall l :: 0 <= l < |tables| ==> |prior[l]| == |TableParagraphs(tables[l])|)
    && forall l, q :: 0 <= l < |tables| && 0 <= q < |TableParagraphs(tables[l])| ==>
        TableParagraphs(tables[l])[q].runs == if l < k then AfterRuns(v, prior[l][q]) else prior[l][q]
  }

  /** `before` holds the texts of the runs `prior`, table by table and paragraph by paragraph. */
  predicate TextsOfRuns(before: seq<seq<string>>, prior: seq<seq<seq<string>>>)
  {
    && |before| == |prior|
    && (forall l :: 0 <= l < |before| ==> |before[l]| == |prior[l]|)
    && forall l, q :: 0 <= l < |before| && 0 <= q < |before[l]| ==> before[l][q] == Join(prior[l][q])
  }

  /** Before the loop over the tables, their texts and runs are the snapshots it starts from. */
  lemma TablesSnapshot(tables: seq<Table>, v: Version)
    ensures TextsOfRuns(TablesTexts(tables), TablesRuns(tables))
    ensures VisitedUpTo(tables, TablesRuns(tables), v, 0)
  {
  }

  /** The paragraphs of tables whose runs were all rewritten from `prior` hold the converted texts. */
  lemma TablesConvertedTexts(tables: seq<Table>, v: Version, before: seq<seq<string>>, prior: seq<seq<seq<string>>>)
    requires TextsOfRuns(before, prior) && VisitedUpTo(tables, prior, v, |tables|)
    ensures forall k, q :: 0 <= k < |tables| && 0 <= q < |TableParagraphs(tables[k])| ==>
      TableParagraphs(tables[k])[q].Text() == ConvertText(v, before[k][q])
  {
    forall k, q | 0 <= k < |tables| && 0 <= q < |TableParagraphs(tables[k])|
      ensures TableParagraphs(tables[k])[q].Text() == ConvertText(v, before[k][q])
    {
      AfterRunsText(v, prior[k][q]);
    }
  }

  /** One pass of the loop over the tables: `process_table` on the k-th, its result merged in. */
  method VisitTable(tables: seq<Table>, k: nat, v: Version, ghost before: seq<seq<string>>,
                    ghost prior: seq<seq<seq<string>>>, count: nat, replacements: map<string, string>)
    returns (count': nat, replacements': map<string, string>)
    requires TablesApart(tables) && k < |tables|
    requires TextsOfRuns(before, prior) && VisitedUpTo(tables, prior, v, k)
    requires count == CountTables(before, k) && replacements == RenameMap(v, TablesTags(before, k))
    modifies set p | p in TableParagraphs(tables[k])
    ensures count' == CountTables(before, k + 1) && replacements' == RenameMap(v, TablesTags(before, k + 1))
    ensures VisitedUpTo(tables, prior, v, k + 1)
  {
    TablesAllocated(tables);
    assert Texts(TableParagraphs(tables[k])) == before[k];
    var changed, r := ProcessTable(tables[k], v);
    forall l, q | 0 <= l < |tables| && l != k && 0 <= q < |TableParagraphs(tables[l])|
      ensures TableParagraphs(tables[l])[q].runs == old(TableParagraphs(tables[l])[q].runs)
    {
      assert TableParagraphs(tables[l])[q] in TableParagraphs(tables[l]);
    }
    DocumentTableStep(v, before, k, changed, r, count, replacements);
    count' := if changed then count + 1 else count;
    replacements' := if changed then replacements + r else replacements;
  }

  // ----- Facts about the specification -----

  /** The runs `process_paragraph` leaves hold the converted text of the runs before. */
  lemma AfterRunsText(v: Version, prior: seq<string>)
    ensures Join(AfterRuns(v, prior)) == ConvertText(v, Join(prior))
  {
    if HasTag(Join(prior)) {
      JoinFirstOnly(AfterRuns(v, prior));
    } else {
      NoTagUnchanged(v, Join(prior));
    }
  }

  /**
   * The runs left are the runs before when their text has no tag, and otherwise rewritten:
   * emptied, with the converted text in the first.
   */
  lemma AfterRunsShape(v: Version, prior: seq<string>)
    ensures !HasTag(Join(prior)) ==> AfterRuns(v, prior) == prior
    ensures HasTag(Join(prior)) ==> Rewritten(AfterRuns(v, prior), prior, ConvertText(v, Join(prior)))
  {
  }

  /** Rewritten runs holding the converted text are exactly the runs `AfterRuns` gives. */
  lemma RewrittenIsAfterRuns(v: Version, prior: seq<string>, runs: seq<string>)
    requires HasTag(Join(prior)) && Rewritten(runs, prior, ConvertText(v, Join(prior)))
    ensures runs == AfterRuns(v, prior)
  {
    var after := AfterRuns(v, prior);
    assert |runs| == |after|;
    forall i | 0 <= i < |runs| ensures runs[i] == after[i] {
    }
  }

  /** Recording one more name adds its entry to the rename map. */
  lemma RenameMapAdd(v: Version, names: set<string>, x: string)
    ensures RenameMap(v, names)[x := Rename(v, x)] == RenameMap(v, names + {x})
  {
  }

  /** Merging two rename maps with `update` gives the rename map of all their names, whichever wins. */
  lemma RenameMapUnion(v: Version, a: set<string>, b: set<string>)
    ensures RenameMap(v, a) + RenameMap(v, b) == RenameMap(v, a + b)
  {
  }

  lemma AnyTaggedSnoc(ts: seq<string>, t: string)
    ensures AnyTagged(ts + [t]) == (AnyTagged(ts) || HasTag(t))
  {
    if AnyTagged(ts) {
      var i :| 0 <= i < |ts| && HasTag(ts[i]);
      assert (ts + [t])[i] == ts[i];
    } else if HasTag(t) {
      assert (ts + [t])[|ts|] == t;
    } else {
      forall i | 0 <= i < |ts| + 1
        ensures !HasTag((ts + [t])[i])
      {
        if i < |ts| {
          assert (ts + [t])[i] == ts[i];
        }
      }
    }
  }

  lemma AllTagsSnoc(ts: seq<string>, t: string)
    ensures AllTags(ts + [t]) == AllTags(ts) + TagSet(t)
    ensures CountTagged(ts + [t]) == CountTagged(ts) + (if HasTag(t) then 1 else 0)
  {
    assert (ts + [t])[..|ts|] == ts;
  }

  /** A text without a tag yields no names. */
  lemma NoTagNoNames(t: string)
    requires !HasTag(t)
    ensures TagSet(t) == {}
  {
  }

  /** Texts of which none has a tag yield no names. */
  lemma {:induction false} NoTaggedNoTags(ts: seq<string>)
    requires !AnyTagged(ts)
    ensures AllTags(ts) == {}
    decreases |ts|
  {
    if ts != [] {
      var init := ts[..|ts| - 1];
      assert ts == init + [ts[|ts| - 1]];
      AnyTaggedSnoc(init, ts[|ts| - 1]);
      NoTaggedNoTags(init);
      NoTagNoNames(ts[|ts| - 1]);
    }
  }

  /** Folding one changed paragraph's `replacements` into the accumulated ones with `update`. */
  lemma MergeStep(v: Version, names: set<string>, c: bool, added: set<string>, r: map<string, string>,
                  replacements: map<string, string>)
    requires replacements == RenameMap(v, names) && r == RenameMap(v, added) && (!c ==> added == {})
    ensures (if c then replacements + r else replacements) == RenameMap(v, names + added)
  {
    RenameMapUnion(v, names, added);
    if !c {
      assert names + added == names;
    }
  }

  /** One iteration of `process_table`'s loop keeps its two accumulators equal to their specification. */
  lemma TableStep(v: Version, seen: seq<string>, t: string, c: bool, r: map<string, string>,
                  changed: bool, replacements: map<string, string>)
    requires c == HasTag(t) && r == RenameMap(v, TagSet(t))
    requires changed == AnyTagged(seen) && replacements == RenameMap(v, AllTags(seen))
    ensures (changed || c) == AnyTagged(seen + [t])
    ensures (if c then replacements + r else replacements) == RenameMap(v, AllTags(seen + [t]))
  {
    AnyTaggedSnoc(seen, t);
    AllTagsSnoc(seen, t);
    if !c {
      NoTagNoNames(t);
    }
    MergeStep(v, AllTags(seen), c, TagSet(t), r, replacements);
  }

  /** One iteration of `convert_document`'s loop over the top-level paragraphs. */
  lemma ParagraphStep(v: Version, seen: seq<string>, t: string, c: bool, r: map<string, string>,
                      count: nat, replacements: map<string, string>)
    requires c == HasTag(t) && r == RenameMap(v, TagSet(t))
    requires count == CountTagged(seen) && replacements == RenameMap(v, AllTags(seen))
    ensures (if c then count + 1 else count) == CountTagged(seen + [t])
    ensures (if c then replacements + r else replacements) == RenameMap(v, AllTags(seen + [t]))
  {
    AllTagsSnoc(seen, t);
    if !c {
      NoTagNoNames(t);
    }
    MergeStep(v, AllTags(seen), c, TagSet(t), r, replacements);
  }

  /** One iteration of `convert_document`'s loop over the tables. */
  lemma DocumentTableStep(v: Version, tts: seq<seq<string>>, k: nat, c: bool, r: map<string, string>,
                          count: nat, replacements: map<string, string>)
    requires k < |tts|
    requires c == AnyTagged(tts[k]) && r == RenameMap(v, AllTags(tts[k]))
    requires count == CountTables(tts, k) && replacements == RenameMap(v, TablesTags(tts, k))
    ensures (if c then count + 1 else count) == CountTables(tts, k + 1)
    ensures (if c then replacements + r else replacements) == RenameMap(v, TablesTags(tts, k + 1))
  {
    if !c {
      NoTaggedNoTags(tts[k]);
    }
    MergeStep(v, TablesTags(tts, k), c, AllTags(tts[k]), r, replacements);
  }

  // ----- What the counts and the dictionary say -----

  /** A text has a tag exactly when it yields a name. */
  lemma HasTagIffNames(t: string)
    ensures HasTag(t) <==> TagSet(t) != {}
  {
    var names := TagNames(Parse(false, t));
    if names != [] {
      assert names[0] in TagSet(t);
    }
  }

  /** The count of changed paragraphs is at most their number, and positive exactly when one of them has a tag. */
  lemma {:induction false} CountTaggedBounds(ts: seq<string>)
    ensures CountTagged(ts) <= |ts|
    ensures CountTagged(ts) > 0 <==> AnyTagged(ts)
    decreases |ts|
  {
    if ts != [] {
      var init, t := ts[..|ts| - 1], ts[|ts| - 1];
      assert ts == init + [t];
      CountTaggedBounds(init);
      AnyTaggedSnoc(init, t);
    }
  }

  /** Some paragraph changes exactly when the replacements are not empty. */
  lemma {:induction false} AnyTaggedIffTags(ts: seq<string>)
    ensures AnyTagged(ts) <==> AllTags(ts) != {}
    decreases |ts|
  {
    if ts != [] {
      var init, t := ts[..|ts| - 1], ts[|ts| - 1];
      assert ts == init + [t];
      AnyTaggedIffTags(init);
      AnyTaggedSnoc(init, t);
      HasTagIffNames(t);
    }
  }

  /** The count of changed tables is at most the number of tables visited. */
  lemma {:induction false} CountTablesBound(tts: seq<seq<string>>, n: nat)
    requires n <= |tts|
    ensures CountTables(tts, n) <= n
    decreases n
  {
    if n > 0 {
      CountTablesBound(tts, n - 1);
    }
  }

  /** Converted texts hold no tag: a second run over them changes no paragraph and records no name. */
  lemma ConvertedQuiet(v: Version, ts: seq<string>, us: seq<string>)
    requires |us| == |ts| && forall i :: 0 <= i < |us| ==> us[i] == ConvertText(v, ts[i])
    ensures !AnyTagged(us) && CountTagged(us) == 0 && AllTags(us) == {}
  {
    forall i | 0 <= i < |us| ensures !HasTag(us[i]) {
      ConvertIdempotent(v, ts[i]);
    }
    CountTaggedBounds(us);
    NoTaggedNoTags(us);
  }

  /** The same for the first `n` tables. */
  lemma {:induction false} ConvertedTablesQuiet(v: Version, tts: seq<seq<string>>, uus: seq<seq<string>>, n: nat)
    requires n <= |uus| == |tts|
    requires forall k :: 0 <= k < |uus| ==> |uus[k]| == |tts[k]|
    requires forall k, q :: 0 <= k < |uus| && 0 <= q < |uus[k]| ==> uus[k][q] == ConvertText(v, tts[k][q])
    ensures CountTables(uus, n) == 0 && TablesTags(uus, n) == {}
    decreases n
  {
    if n > 0 {
      ConvertedTablesQuiet(v, tts, uus, n - 1);
      ConvertedQuiet(v, tts[n - 1], uus[n - 1]);
    }
  }

  /**
   * Running `convert_document` again over a converted document: every paragraph holds the
   * conversion of its earlier text, so the second run counts nothing and records nothing.
   */
  lemma SecondRunQuiet(v: Version, ts: seq<string>, us: seq<string>, tts: seq<seq<string>>, uus: seq<seq<string>>)
    requires |us| == |ts| && forall i :: 0 <= i < |us| ==> us[i] == ConvertText(v, ts[i])
    requires |uus| == |tts| && forall k :: 0 <= k < |uus| ==> |uus[k]| == |tts[k]|
    requires forall k, q :: 0 <= k < |uus| && 0 <= q < |uus[k]| ==> uus[k][q] == ConvertText(v, tts[k][q])
    ensures CountTagged(us) + CountTables(uus, |uus|) == 0
    ensures RenameMap(v, AllTags(us) + TablesTags(uus, |uus|)) == map[]
  {
    ConvertedQuiet(v, ts, us);
    ConvertedTablesQuiet(v, tts, uus, |uus|);
  }
}
