/**
 * `show_preview` of the second converter (convert_brackets_v2.py:123-163): it reads the document
 * without changing it and collects `found_tags`, each matched name mapped to its normalised name,
 * from the top-level paragraphs and then from every cell paragraph of every table.
 */
module Preview {
  import opened Chars
  import opened Normalize
  import opened SingleBrace
  import opened Docx
  import opened Converter

  /** The matches of one paragraph's text added to `found`, one `found_tags[match] = ...` at a time. */
  method CollectText(t: string, found: map<string, string>, ghost names: set<string>)
    returns (grown: map<string, string>)
    requires found == RenameMap(V2, names)
    ensures grown == RenameMap(V2, names + TagSet(t))
  {
    var matches := TagNames(Parse(false, t));
    grown := found;
    var i := 0;
    while i < |matches|
      invariant 0 <= i <= |matches|
      invariant grown == RenameMap(V2, names + Elems(matches[..i]))
    {
      MatchCollected(names, matches, i, grown);
      grown := grown[matches[i] := Rename(V2, matches[i])];
      i := i + 1;
    }
    assert matches[..i] == matches;
  }

  /** One `for paragraph in ...` loop of the preview. */
  method CollectParagraphs(ps: seq<Paragraph>, found: map<string, string>, ghost names: set<string>)
    returns (grown: map<string, string>)
    requires found == RenameMap(V2, names)
    ensures grown == RenameMap(V2, names + AllTags(Texts(ps)))
  {
    ghost var ts := Texts(ps);
    grown := found;
    var i := 0;
    while i < |ps|
      invariant 0 <= i <= |ps|
      invariant ts == Texts(ps)
      invariant grown == RenameMap(V2, names + AllTags(ts[..i]))
    {
      grown := CollectText(ps[i].Text(), grown, names + AllTags(ts[..i]));
      ParagraphCollected(names, ts, i, grown);
      i := i + 1;
    }
    assert ts[..i] == ts;
  }

  /**
   * `show_preview`: `found_tags` holds every name the pattern matches anywhere in the document,
   * each mapped to its normalised name; this is the dictionary the second converter's
   * `convert_document` returns for the same document.
   */
  method ShowPreview(doc: Document) returns (found: map<string, string>)
    ensures found == RenameMap(V2, AllTags(Texts(doc.paragraphs)) + TablesTags(TablesTexts(doc.tables), |doc.tables|))
  {
    found := CollectParagraphs(doc.paragraphs, map[], {});
    assert {} + AllTags(Texts(doc.paragraphs)) == AllTags(Texts(doc.paragraphs));
    found := CollectTables(doc.tables, found, AllTags(Texts(doc.paragraphs)));
  }

  /** The nested loops over the tables' rows, cells and cell paragraphs. */
  method CollectTables(tables: seq<Table>, found: map<string, string>, ghost names: set<string>)
    returns (grown: map<string, string>)
    requires found == RenameMap(V2, names)
    ensures grown == RenameMap(V2, names + TablesTags(TablesTexts(tables), |tables|))
  {
    ghost var tts := TablesTexts(tables);
    NoTableYet(names, tts);
    grown := found;
    var k := 0;
    while k < |tables|
      invariant 0 <= k <= |tables|
      invariant tts == TablesTexts(tables)
      invariant grown == RenameMap(V2, names + TablesTags(tts, k))
    {
      grown := CollectTable(tables, k, grown, names, tts);
      k := k + 1;
    }
  }

  /** The paragraphs of table `k` added to what the earlier tables gave. */
  method CollectTable(tables: seq<Table>, k: nat, found: map<string, string>, ghost names: set<string>,
                      ghost tts: seq<seq<string>>)
    returns (grown: map<string, string>)
    requires k < |tables| && tts == TablesTexts(tables)
    requires found == RenameMap(V2, names + TablesTags(tts, k))
    ensures tts == TablesTexts(tables)
    ensures grown == RenameMap(V2, names + TablesTags(tts, k + 1))
  {
    TablesAllocated(tables);
    grown := CollectParagraphs(TableParagraphs(tables[k]), found, names + TablesTags(tts, k));
    TableCollected(names, tts, k, grown);
  }

  // ----- One step of each loop -----

  lemma MatchCollected(names: set<string>, matches: seq<string>, i: nat, grown: map<string, string>)
    requires i < |matches| && grown == RenameMap(V2, names + Elems(matches[..i]))
    ensures grown[matches[i] := Rename(V2, matches[i])] == RenameMap(V2, names + Elems(matches[..i + 1]))
  {
    assert matches[..i + 1] == matches[..i] + [matches[i]];
    ElemsSnoc(matches[..i], matches[i]);
    RenameMapAdd(V2, names + Elems(matches[..i]), matches[i]);
  }

  lemma ParagraphCollected(names: set<string>, ts: seq<string>, i: nat, grown: map<string, string>)
    requires i < |ts| && grown == RenameMap(V2, names + AllTags(ts[..i]) + TagSet(ts[i]))
    ensures grown == RenameMap(V2, names + AllTags(ts[..i + 1]))
  {
    assert ts[..i + 1] == ts[..i] + [ts[i]];
    AllTagsSnoc(ts[..i], ts[i]);
  }

  lemma NoTableYet(names: set<string>, tts: seq<seq<string>>)
    ensures names + TablesTags(tts, 0) == names
  {
  }

  lemma TableCollected(top: set<string>, tts: seq<seq<string>>, k: nat, found: map<string, string>)
    requires k < |tts| && found == RenameMap(V2, top + TablesTags(tts, k) + AllTags(tts[k]))
    ensures found == RenameMap(V2, top + TablesTags(tts, k + 1))
  {
  }

  // ----- What the preview reports -----

  /** The tables yield no name exactly when no table would be counted as changed. */
  lemma {:induction false} TablesTagsIffCounted(tts: seq<seq<string>>, n: nat)
    requires n <= |tts|
    ensures TablesTags(tts, n) == {} <==> CountTables(tts, n) == 0
    decreases n
  {
    if n > 0 {
      TablesTagsIffCounted(tts, n - 1);
      AnyTaggedIffTags(tts[n - 1]);
    }
  }

  /**
   * The preview's `if found_tags:` branch: it reports tags exactly when the conversion of the
   * same texts would change some paragraph or table.
   */
  lemma PreviewEmptyIffNothingToConvert(ts: seq<string>, tts: seq<seq<string>>)
    ensures RenameMap(V2, AllTags(ts) + TablesTags(tts, |tts|)) == map[]
        <==> CountTagged(ts) + CountTables(tts, |tts|) == 0
  {
    CountTaggedBounds(ts);
    AnyTaggedIffTags(ts);
    TablesTagsIffCounted(tts, |tts|);
    var names := AllTags(ts) + TablesTags(tts, |tts|);
    if names != {} {
      var x :| x in names;
      assert x in RenameMap(V2, names);
    }
  }
}
