/**
 * `extract_template_variables` (app.py:49-135) from the joined text onward: the three scans,
 * the classification walk over `set(all_vars)` in a given order, and the conversion of every
 * field set into a sorted list.
 */
module Extract {
  import opened Wrappers
  import opened Chars
  import opened StringOrder
  import opened Scanner
  import opened Catalog

  /** One value of the returned dictionary: `{'type': kind}` plus a sorted `fields` list for arrays and objects. */
  datatype Variable = Variable(kind: Kind, fields: Option<seq<string>>)

  /** `loop_vars` (app.py:72) as a set: only membership is ever asked of it. */
  function LoopNames(t: string): set<string>
  {
    Elems(Scan(ForLoop, t))
  }

  /** `if_vars` (app.py:75) as a set. */
  function IfNames(t: string): set<string>
  {
    Elems(Scan(IfGuard, t))
  }

  /** `v` is `e` with its field set replaced by the sorted list of its members. */
  predicate Finalized(v: Variable, e: Entry)
  {
    && v.kind == e.kind
    && match e.fields
       case None => v.fields.None?
       case Some(s) => v.fields.Some? && StrictlySorted(v.fields.value) && Elems(v.fields.value) == s
  }

  predicate FinalizedCatalog(result: map<string, Variable>, c: map<string, Entry>)
  {
    result.Keys == c.Keys && forall k :: k in c ==> Finalized(result[k], c[k])
  }

  /** Once the walk has raised, the rest of the order cannot bring it back. */
  lemma {:induction false} RaisedStaysRaised(order: seq<string>, k: nat, loops: set<string>, ifs: set<string>)
    requires k <= |order| && Classify(order[..k], loops, ifs) == None
    ensures Classify(order, loops, ifs) == None
    decreases |order| - k
  {
    if k < |order| {
      var p := order[..|order| - 1];
      assert order[..k] == p[..k];
      RaisedStaysRaised(p, k, loops, ifs);
    } else {
      assert order[..k] == order;
    }
  }

  /**
   * `order` is the order in which the `for var in all_vars` loop meets the names of the set.
   * The result is `{}` when that order makes the loop raise, and otherwise the order-free
   * catalog of the names with every field set sorted.
   */
  method ExtractTemplateVariables(fullText: string, order: seq<string>) returns (result: map<string, Variable>)
    requires Distinct(order) && Elems(order) == AllNames(fullText)
    ensures Crashes(order, LoopNames(fullText)) ==> result == map[]
    ensures !Crashes(order, LoopNames(fullText)) ==>
      FinalizedCatalog(result, SpecCatalog(AllNames(fullText), LoopNames(fullText), IfNames(fullText)))
  {
    var loops := LoopNames(fullText);
    var ifs := IfNames(fullText);
    ClassifyCharacterised(order, loops, ifs);
    var fields := ClassifyAll(order, loops, ifs);
    if fields.None? {
      return map[];
    }
    result := FinalizeAll(fields.value);
  }

  /** The loop over `all_vars` (app.py:84-119) in the order `order`; None when it raises. */
  method ClassifyAll(order: seq<string>, loops: set<string>, ifs: set<string>)
    returns (fields: Option<map<string, Entry>>)
    ensures fields == Classify(order, loops, ifs)
  {
    var f: map<string, Entry> := map[];
    var i := 0;
    while i < |order|
      invariant 0 <= i <= |order|
      invariant Classify(order[..i], loops, ifs) == Some(f)
    {
      assert order[..i + 1][..i] == order[..i];
      var next := ClassifyName(f, order[i], loops, ifs);
      if next.None? {
        RaisedStaysRaised(order, i + 1, loops, ifs);
        return None;
      }
      f := next.value;
      i := i + 1;
    }
    assert order[..i] == order;
    fields := Some(f);
  }

  /** The loop at app.py:121-133: every entry of the classification in its final form. */
  method FinalizeAll(fields: map<string, Entry>) returns (result: map<string, Variable>)
    ensures FinalizedCatalog(result, fields)
  {
    result := map[];
    var todo := fields.Keys;
    while todo != {}
      invariant todo <= fields.Keys
      invariant result.Keys == fields.Keys - todo
      invariant forall k :: k in result ==> Finalized(result[k], fields[k])
      decreases todo
    {
      var key :| key in todo;
      var variable := Finalize(fields[key]);
      result := result[key := variable];
      todo := todo - {key};
    }
  }


  /** One entry of the result (app.py:121-133): a field set becomes a sorted list. */
  method Finalize(e: Entry) returns (v: Variable)
    ensures Finalized(v, e)
  {
    var list: Option<seq<string>> := None;
    if e.fields.Some? {
      var sorted := SortedList(e.fields.value);
      list := Some(sorted);
    }
    v := Variable(e.kind, list);
  }

  /** The body of the loop over `all_vars` (app.py:84-119) for the name `v`; None when it raises. */
  method ClassifyName(fields: map<string, Entry>, v: string, loops: set<string>, ifs: set<string>)
    returns (next: Option<map<string, Entry>>)
    ensures next == Step(fields, v, loops, ifs)
  {
    var f := fields;
    if IsLoopMeta(v) {
    } else if '.' in v {
      var parts := Split(v);
      var root := parts[0];
      var kind, field := if root in loops then Array else Object, if root in loops then parts[1] else Join(parts[1..]);
      if root !in f {
        f := f[root := Entry(kind, Some({}))];
      }
      if f[root].fields.None? {
        return None;
      }
      f := f[root := Entry(f[root].kind, Some(f[root].fields.value + {field}))];
    } else if v in loops {
      if v !in f {
        f := f[v := Entry(Array, Some({}))];
      }
    } else if v in ifs {
      if v !in f {
        f := f[v := Entry(Boolean, None)];
      }
    } else {
      if v !in f {
        f := f[v := Entry(Simple, None)];
      }
    }
    next := Some(f);
  }

  /** Each catalog entry has exactly one finalized form: the sorted lists do not depend on any iteration order. */
  lemma FinalizedUnique(v1: Variable, v2: Variable, e: Entry)
    requires Finalized(v1, e) && Finalized(v2, e)
    ensures v1 == v2
  {
    if e.fields.Some? {
      SortedUnique(v1.fields.value, v2.fields.value);
    }
  }

  /** Hence two extractions that do not raise return the same dictionary, whatever order the set was walked in. */
  lemma FinalizedCatalogUnique(r1: map<string, Variable>, r2: map<string, Variable>, c: map<string, Entry>)
    requires FinalizedCatalog(r1, c) && FinalizedCatalog(r2, c)
    ensures r1 == r2
  {
    forall k | k in c ensures r1[k] == r2[k] {
      FinalizedUnique(r1[k], r2[k], c[k]);
    }
  }

  /** A sorted list of fields holds no name twice. */
  lemma FinalizedNoDuplicates(v: Variable, e: Entry)
    requires Finalized(v, e) && v.fields.Some?
    ensures Distinct(v.fields.value)
  {
    var s := v.fields.value;
    forall i, j | 0 <= i < j < |s| ensures s[i] != s[j] {
      if s[i] == s[j] {
        BelowIrreflexive(s[i]);
      }
    }
  }

  /** Text without any `{` yields no names, so the catalog is empty. */
  lemma NoBraceEmptyCatalog(t: string, loops: set<string>, ifs: set<string>)
    requires forall k :: 0 <= k < |t| ==> t[k] != '{'
    ensures SpecCatalog(AllNames(t), loops, ifs) == map[]
  {
    NoBraceNoVariables(t);
    assert Roots(AllNames(t)) == {};
  }
}
