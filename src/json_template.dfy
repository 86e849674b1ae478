/**
 * `generate_json_template` (convert_brackets_final.py:129-134): the sample data file written next
 * to a converted template, one entry per new name holding `<original name>`. The loop walks the
 * `replacements` dictionary in its insertion order, given here as `order`.
 */
module JsonTemplate {
  import opened Chars

  /** The sample value for a name: `f"<{original}>"`. */
  function Placeholder(original: string): string
  {
    "<" + original + ">"
  }

  /** The template after the loop has visited the originals in `order`, each writing over any earlier entry. */
  function Template(replacements: map<string, string>, order: seq<string>): map<string, string>
    requires forall i :: 0 <= i < |order| ==> order[i] in replacements
  {
    if order == [] then map[]
    else
      var last := order[|order| - 1];
      Template(replacements, order[..|order| - 1])[replacements[last] := Placeholder(last)]
  }

  /** `order` lists the keys of `replacements`, each once, as iterating the dictionary does. */
  predicate Enumerates(order: seq<string>, replacements: map<string, string>)
  {
    Distinct(order) && Elems(order) == replacements.Keys
  }

  method GenerateJsonTemplate(replacements: map<string, string>, order: seq<string>)
    returns (template: map<string, string>)
    requires Enumerates(order, replacements)
    ensures template == Template(replacements, order)
  {
    template := map[];
    var i := 0;
    while i < |order|
      invariant 0 <= i <= |order|
      invariant template == Template(replacements, order[..i])
    {
      var original := order[i];
      assert order[..i + 1][..i] == order[..i];
      template := template[replacements[original] := Placeholder(original)];
      i := i + 1;
    }
    assert order[..i] == order;
  }

  // ----- What the template holds -----

  /** The keys are the new names the prefix of `order` maps to. */
  lemma {:induction false} TemplateKeys(replacements: map<string, string>, order: seq<string>)
    requires forall i :: 0 <= i < |order| ==> order[i] in replacements
    ensures Template(replacements, order).Keys == set o | o in order :: replacements[o]
    decreases |order|
  {
    if order != [] {
      var init, last := order[..|order| - 1], order[|order| - 1];
      TemplateKeys(replacements, init);
      assert order == init + [last];
      assert (set o | o in order :: replacements[o]) == (set o | o in init :: replacements[o]) + {replacements[last]};
    }
  }

  /** Hence the keys of the whole template are exactly the values of `replacements`. */
  lemma TemplateKeysAreNewNames(replacements: map<string, string>, order: seq<string>)
    requires Enumerates(order, replacements)
    ensures Template(replacements, order).Keys == replacements.Values
  {
    TemplateKeys(replacements, order);
    forall n | n in replacements.Values ensures n in Template(replacements, order) {
      var o :| o in replacements && replacements[o] == n;
      assert o in Elems(order);
    }
  }

  /** `order[j]` maps to `n`, and no original after it does. */
  predicate LastMappedTo(replacements: map<string, string>, order: seq<string>, n: string, j: int)
    requires forall i :: 0 <= i < |order| ==> order[i] in replacements
  {
    && 0 <= j < |order| && replacements[order[j]] == n
    && forall k :: j < k < |order| ==> replacements[order[k]] != n
  }

  /**
   * Every entry is the placeholder of the LAST original in `order` that maps to its name:
   * when two originals normalise to the same name, the later one wins.
   */
  lemma {:induction false} TemplateLastWins(replacements: map<string, string>, order: seq<string>, n: string)
    requires forall i :: 0 <= i < |order| ==> order[i] in replacements
    requires n in Template(replacements, order)
    ensures exists j :: LastMappedTo(replacements, order, n, j) && Template(replacements, order)[n] == Placeholder(order[j])
    decreases |order|
  {
    var init, last := order[..|order| - 1], order[|order| - 1];
    if replacements[last] == n {
      assert LastMappedTo(replacements, order, n, |order| - 1);
    } else {
      TemplateLastWins(replacements, init, n);
      var j :| LastMappedTo(replacements, init, n, j) && Template(replacements, init)[n] == Placeholder(init[j]);
      assert init[j] == order[j];
      forall k | j < k < |order| ensures replacements[order[k]] != n {
        if k < |init| {
          assert init[k] == order[k];
        }
      }
      assert LastMappedTo(replacements, order, n, j);
    }
  }

  /** When no two originals share a new name, every original has its own entry. */
  lemma TemplateInjective(replacements: map<string, string>, order: seq<string>, o: string)
    requires Enumerates(order, replacements)
    requires forall a, b :: a in replacements && b in replacements && a != b ==> replacements[a] != replacements[b]
    requires o in replacements
    ensures replacements[o] in Template(replacements, order)
    ensures Template(replacements, order)[replacements[o]] == Placeholder(o)
  {
    var n := replacements[o];
    TemplateKeysAreNewNames(replacements, order);
    TemplateLastWins(replacements, order, n);
    var j :| LastMappedTo(replacements, order, n, j) && Template(replacements, order)[n] == Placeholder(order[j]);
    assert order[j] == o;
  }

  /** The original can be read back from its placeholder. */
  lemma PlaceholderInjective(a: string, b: string)
    requires Placeholder(a) == Placeholder(b)
    ensures a == b
  {
    assert a == Placeholder(a)[1..|a| + 1];
    assert b == Placeholder(b)[1..|b| + 1];
  }
}
