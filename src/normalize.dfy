/**
 * `normalize_variable_name` of convert_brackets_v2.py:11-19 and convert_brackets_final.py:14-27:
 * collapse every run of separators into one `_`, strip `_` from both ends, then collapse every
 * run of `_` into one. The v2 separators are whitespace; the final version adds `-`.
 * convert_brackets.py keeps names as they are.
 */
module Normalize {
  import opened Chars

  /** The character class of one `re.sub(CLASS + '+', '_', ...)` pass. */
  datatype RunClass = Spaces | SpacesHyphens | Underscores

  predicate InRun(cls: RunClass, c: char)
  {
    match cls
    case Spaces => IsSpace(c)
    case SpacesHyphens => IsSpace(c) || c == '-'
    case Underscores => c == '_'
  }

  /** `re.sub(CLASS + '+', '_', s)`: each maximal run becomes one `_`, written at the run's last character. */
  function Collapse(cls: RunClass, s: string): (r: string)
    ensures forall c :: c in r ==> c == '_' || c in s
  {
    if s == [] then ""
    else if InRun(cls, s[0]) then
      (if |s| > 1 && InRun(cls, s[1]) then "" else "_") + Collapse(cls, s[1..])
    else [s[0]] + Collapse(cls, s[1..])
  }

  function StripLeft(s: string): (r: string)
    ensures forall c :: c in r ==> c in s
  {
    if s != [] && s[0] == '_' then StripLeft(s[1..]) else s
  }

  function StripRight(s: string): (r: string)
    ensures forall c :: c in r ==> c in s
  {
    if s != [] && s[|s| - 1] == '_' then StripRight(s[..|s| - 1]) else s
  }

  /** `s.strip('_')` */
  function Strip(s: string): (r: string)
    ensures forall c :: c in r ==> c in s
  {
    StripRight(StripLeft(s))
  }

  /** `normalize_variable_name` for the separator class `cls`. */
  function Normalize(cls: RunClass, s: string): (r: string)
    ensures forall c :: c in r ==> c == '_' || c in s
  {
    Collapse(Underscores, Strip(Collapse(cls, s)))
  }

  /** The three converters: convert_brackets.py, convert_brackets_v2.py, convert_brackets_final.py. */
  datatype Version = V1 | V2 | Final

  /** The name a tag `{x}` is given in its `{{...}}` replacement. */
  function Rename(v: Version, x: string): (r: string)
    ensures forall c :: c in r ==> c == '_' || c in x
  {
    match v
    case V1 => x
    case V2 => Normalize(Spaces, x)
    case Final => Normalize(SpacesHyphens, x)
  }

  // ----- Each run of separators becomes one `_` -----

  /** A run of separators alone collapses to one `_`. */
  lemma {:induction false} CollapseRun(cls: RunClass, sep: string)
    requires sep != [] && forall k :: 0 <= k < |sep| ==> InRun(cls, sep[k])
    ensures Collapse(cls, sep) == "_"
    decreases |sep|
  {
    if |sep| > 1 {
      CollapseRun(cls, sep[1..]);
    }
  }

  /** Collapsing works piece by piece wherever the cut does not split a run. */
  lemma {:induction false} CollapseConcat(cls: RunClass, a: string, b: string)
    requires a == [] || b == [] || !InRun(cls, a[|a| - 1]) || !InRun(cls, b[0])
    ensures Collapse(cls, a + b) == Collapse(cls, a) + Collapse(cls, b)
    decreases |a|
  {
    if a == [] {
      assert a + b == b;
    } else {
      var a' := a[1..];
      CollapseCons(cls, a, b);
      assert a' == [] || a'[|a'| - 1] == a[|a| - 1];
      CollapseConcat(cls, a', b);
      Associative(Lead(cls, a), Collapse(cls, a'), Collapse(cls, b));
    }
  }

  lemma Associative(x: string, y: string, z: string)
    ensures x + (y + z) == (x + y) + z
  {
  }

  /** The first step of collapsing `a + b` is the first step of collapsing `a`. */
  lemma CollapseCons(cls: RunClass, a: string, b: string)
    requires a != [] && (b == [] || !InRun(cls, a[|a| - 1]) || !InRun(cls, b[0]))
    ensures Collapse(cls, a + b) == Lead(cls, a) + Collapse(cls, a[1..] + b)
  {
    var ab := a + b;
    assert ab[0] == a[0] && ab[1..] == a[1..] + b;
    if |a| > 1 {
      assert ab[1] == a[1];
    } else if b != [] {
      assert ab[1] == b[0];
    }
  }

  /** What collapsing writes for the first character of `a`. */
  function Lead(cls: RunClass, a: string): string
    requires a != []
  {
    if InRun(cls, a[0]) then (if |a| > 1 && InRun(cls, a[1]) then "" else "_") else [a[0]]
  }



  /** A run of separators between two pieces becomes exactly one `_` in its place. */
  lemma CollapseSeparatorRun(cls: RunClass, a: string, sep: string, b: string)
    requires sep != [] && forall k :: 0 <= k < |sep| ==> InRun(cls, sep[k])
    requires a == [] || !InRun(cls, a[|a| - 1])
    requires b == [] || !InRun(cls, b[0])
    ensures Collapse(cls, a + sep + b) == Collapse(cls, a) + "_" + Collapse(cls, b)
  {
    CollapseRun(cls, sep);
    CollapseConcat(cls, sep, b);
    assert (sep + b)[0] == sep[0];
    CollapseConcat(cls, a, sep + b);
    Associative(a, sep, b);
  }

  /** Two words joined by any run of separators become the two words joined by one `_`. */
  lemma NormalizeJoins(cls: RunClass, a: string, sep: string, b: string)
    requires cls != Underscores
    requires a != [] && forall k :: 0 <= k < |a| ==> Kept(cls, a[k])
    requires b != [] && forall k :: 0 <= k < |b| ==> Kept(cls, b[k])
    requires sep != [] && forall k :: 0 <= k < |sep| ==> InRun(cls, sep[k])
    ensures Normalize(cls, a + sep + b) == a + "_" + b
  {
    var r := a + "_" + b;
    assert Collapse(cls, a + sep + b) == r by {
      CollapseSeparatorRun(cls, a, sep, b);
      CollapseIdentity(cls, a);
      CollapseIdentity(cls, b);
    }
    assert Strip(r) == r by {
      assert r[0] == a[0] && r[|r| - 1] == b[|b| - 1];
      StripIdentity(r);
    }
    assert Collapse(Underscores, r) == r by {
      assert NoDoubleUnderscore(r) by {
        forall i | 0 <= i < |r| - 1 ensures !(r[i] == '_' && r[i + 1] == '_') {
          if i < |a| {
            assert r[i] == a[i];
          } else {
            assert r[i + 1] == b[i - |a|];
          }
        }
      }
      CollapseIdentity(Underscores, r);
    }
  }


  /** Separators before the first and after the last word of a name are dropped. */
  lemma NormalizeDropsEdges(cls: RunClass, lead: string, x: string, trail: string)
    requires cls != Underscores
    requires lead != [] && forall k :: 0 <= k < |lead| ==> InRun(cls, lead[k])
    requires trail != [] && forall k :: 0 <= k < |trail| ==> InRun(cls, trail[k])
    requires x != [] && !InRun(cls, x[0]) && !InRun(cls, x[|x| - 1]) && x[0] != '_' && x[|x| - 1] != '_'
    ensures Normalize(cls, lead + x + trail) == Normalize(cls, x)
  {
    var c := Collapse(cls, x);
    CollapseEdges(cls, lead, x, trail);
    CollapseFirst(cls, x);
    CollapseLast(cls, x);
    StripEdges(c);
    StripIdentity(c);
  }

  /** The runs around a name collapse to one `_` each. */
  lemma CollapseEdges(cls: RunClass, lead: string, x: string, trail: string)
    requires lead != [] && forall k :: 0 <= k < |lead| ==> InRun(cls, lead[k])
    requires trail != [] && forall k :: 0 <= k < |trail| ==> InRun(cls, trail[k])
    requires x != [] && !InRun(cls, x[0]) && !InRun(cls, x[|x| - 1])
    ensures Collapse(cls, lead + x + trail) == "_" + Collapse(cls, x) + "_"
  {
    var c, xt := Collapse(cls, x), x + trail;
    CollapseLeadingRun(cls, lead, xt);
    CollapseTrailingRun(cls, x, trail);
    Associative(lead, x, trail);
    Associative("_", c, "_");
  }

  lemma CollapseLeadingRun(cls: RunClass, lead: string, y: string)
    requires lead != [] && forall k :: 0 <= k < |lead| ==> InRun(cls, lead[k])
    requires y != [] && !InRun(cls, y[0])
    ensures Collapse(cls, lead + y) == "_" + Collapse(cls, y)
  {
    CollapseRun(cls, lead);
    CollapseConcat(cls, lead, y);
  }

  lemma CollapseTrailingRun(cls: RunClass, x: string, trail: string)
    requires x != [] && !InRun(cls, x[|x| - 1])
    requires trail != [] && forall k :: 0 <= k < |trail| ==> InRun(cls, trail[k])
    ensures Collapse(cls, x + trail) != [] && Collapse(cls, x + trail) == Collapse(cls, x) + "_"
  {
    CollapseRun(cls, trail);
    CollapseConcat(cls, x, trail);
  }



  /** `strip('_')` removes one `_` from each end of a text that has no others there. */
  lemma StripEdges(c: string)
    requires c != [] && NoEdgeUnderscore(c)
    ensures Strip("_" + c + "_") == c
  {
    var e, c' := "_" + c + "_", c + "_";
    assert e[0] == '_' && e[1..] == c' && c'[0] == c[0];
    assert StripLeft(e) == c';
    assert c'[|c'| - 1] == '_' && c'[..|c|] == c;
    assert StripRight(c') == StripRight(c) == c;
  }

  /** `normalize_variable_name(' first - name ')` of the final version is `first_name`. */
  lemma RenameFinalExample(s: string)
    requires s == " first - name "
    ensures Rename(Final, s) == "first_name"
  {
    var first, sep, name, edge := "first", " - ", "name", " ";
    var x := first + sep + name;
    assert s == edge + x + edge;
    assert Normalize(SpacesHyphens, x) == "first_name" by {
      NormalizeJoins(SpacesHyphens, first, sep, name);
    }
    NormalizeDropsEdges(SpacesHyphens, edge, x, edge);
  }


  /** In version 2 a run of spaces becomes `_`, and a hyphen stays. */
  lemma RenameV2Examples(spaced: string, hyphened: string)
    requires spaced == "first  name" && hyphened == "first-name"
    ensures Rename(V2, spaced) == "first_name"
    ensures Rename(V2, hyphened) == hyphened
  {
    var first, sep, name := "first", "  ", "name";
    assert spaced == first + sep + name;
    NormalizeJoins(Spaces, first, sep, name);
    CanonicalFixed(Spaces, hyphened);
  }

  // ----- The shape of a normalised name -----

  predicate NoSeparator(cls: RunClass, t: string)
  {
    forall i :: 0 <= i < |t| ==> !InRun(cls, t[i])
  }

  predicate NoEdgeUnderscore(t: string)
  {
    t == [] || (t[0] != '_' && t[|t| - 1] != '_')
  }

  predicate NoDoubleUnderscore(t: string)
  {
    forall i :: 0 <= i < |t| - 1 ==> !(t[i] == '_' && t[i + 1] == '_')
  }

  /** The names `normalize_variable_name` can return. */
  predicate Canonical(cls: RunClass, t: string)
  {
    NoSeparator(cls, t) && NoEdgeUnderscore(t) && NoDoubleUnderscore(t)
  }

  /** A character outside the class opens the collapsed text unchanged. */
  lemma CollapseFirst(cls: RunClass, s: string)
    requires s != [] && !InRun(cls, s[0])
    ensures Collapse(cls, s) != [] && Collapse(cls, s)[0] == s[0]
  {
  }

  /** A character outside the class closes the collapsed text unchanged. */
  lemma {:induction false} CollapseLast(cls: RunClass, s: string)
    requires s != [] && !InRun(cls, s[|s| - 1])
    ensures Collapse(cls, s) != [] && Collapse(cls, s)[|Collapse(cls, s)| - 1] == s[|s| - 1]
    decreases |s|
  {
    if |s| > 1 {
      assert s[1..][|s[1..]| - 1] == s[|s| - 1];
      CollapseLast(cls, s[1..]);
    }
  }

  /** No separator is left once its runs have been collapsed. */
  lemma {:induction false} CollapseNoSeparator(cls: RunClass, s: string)
    requires cls != Underscores
    ensures NoSeparator(cls, Collapse(cls, s))
    decreases |s|
  {
    if s != [] {
      CollapseNoSeparator(cls, s[1..]);
    }
  }

  /** A collapsed run of `_` is one `_` followed by something else. */
  lemma {:induction false} CollapseNoDouble(s: string)
    ensures NoDoubleUnderscore(Collapse(Underscores, s))
    decreases |s|
  {
    if s != [] {
      CollapseNoDouble(s[1..]);
      if s[0] == '_' && |s| > 1 && s[1] != '_' {
        CollapseFirst(Underscores, s[1..]);
      }
    }
  }

  lemma {:induction false} StripLeftShape(s: string)
    ensures StripLeft(s) == [] || StripLeft(s)[0] != '_'
    ensures exists k :: 0 <= k <= |s| && StripLeft(s) == s[k..]
    decreases |s|
  {
    if s != [] && s[0] == '_' {
      StripLeftShape(s[1..]);
      var k :| 0 <= k <= |s[1..]| && StripLeft(s[1..]) == s[1..][k..];
      assert s[1..][k..] == s[k + 1..];
    } else {
      assert s == s[0..];
    }
  }

  lemma {:induction false} StripRightShape(s: string)
    ensures StripRight(s) == [] || StripRight(s)[|StripRight(s)| - 1] != '_'
    ensures exists k :: 0 <= k <= |s| && StripRight(s) == s[..k]
    decreases |s|
  {
    if s != [] && s[|s| - 1] == '_' {
      StripRightShape(s[..|s| - 1]);
      var k :| 0 <= k <= |s[..|s| - 1]| && StripRight(s[..|s| - 1]) == s[..|s| - 1][..k];
      assert s[..|s| - 1][..k] == s[..k];
    } else {
      assert s == s[..|s|];
    }
  }

  /** `strip('_')` leaves no `_` at either end. */
  lemma StripShape(s: string)
    ensures NoEdgeUnderscore(Strip(s))
  {
    StripLeftShape(s);
    var t := StripLeft(s);
    StripRightShape(t);
    var k :| 0 <= k <= |t| && StripRight(t) == t[..k];
  }

  /** The output has no separator, no `_` at either end and no `__`. */
  lemma NormalizeCanonical(cls: RunClass, s: string)
    requires cls != Underscores
    ensures Canonical(cls, Normalize(cls, s))
  {
    var a := Collapse(cls, s);
    CollapseNoSeparator(cls, s);
    var b := Strip(a);
    StripShape(a);
    assert NoSeparator(cls, b) by {
      forall i | 0 <= i < |b| ensures !InRun(cls, b[i]) {
        assert b[i] in a;
      }
    }
    var r := Collapse(Underscores, b);
    CollapseNoDouble(b);
    assert NoSeparator(cls, r) by {
      forall i | 0 <= i < |r| ensures !InRun(cls, r[i]) {
        assert r[i] in r;
        if r[i] != '_' {
          var j :| 0 <= j < |b| && b[j] == r[i];
        }
      }
    }
    if b != [] {
      CollapseFirst(Underscores, b);
      CollapseLast(Underscores, b);
    }
  }

  // ----- Idempotence -----

  lemma {:induction false} CollapseIdentity(cls: RunClass, t: string)
    requires cls != Underscores ==> NoSeparator(cls, t)
    requires cls == Underscores ==> NoDoubleUnderscore(t)
    ensures Collapse(cls, t) == t
    decreases |t|
  {
    if t != [] {
      CollapseIdentity(cls, t[1..]);
      if InRun(cls, t[0]) {
        assert cls == Underscores;
        assert |t| > 1 ==> t[1] != '_';
      }
    }
  }

  lemma StripIdentity(t: string)
    requires NoEdgeUnderscore(t)
    ensures Strip(t) == t
  {
  }

  /** A name already in normal form is returned unchanged. */
  lemma CanonicalFixed(cls: RunClass, t: string)
    requires cls != Underscores && Canonical(cls, t)
    ensures Normalize(cls, t) == t
  {
    CollapseIdentity(cls, t);
    StripIdentity(t);
    CollapseIdentity(Underscores, t);
  }

  /** `normalize_variable_name` is idempotent. */
  lemma NormalizeIdempotent(cls: RunClass, s: string)
    requires cls != Underscores
    ensures Normalize(cls, Normalize(cls, s)) == Normalize(cls, s)
  {
    NormalizeCanonical(cls, s);
    CanonicalFixed(cls, Normalize(cls, s));
  }

  // ----- What is kept -----

  /** The characters normalisation never touches. */
  predicate Kept(cls: RunClass, c: char)
  {
    !InRun(cls, c) && c != '_'
  }

  function KeptChars(cls: RunClass, s: string): (r: string)
  {
    if s == [] then ""
    else (if Kept(cls, s[0]) then [s[0]] else "") + KeptChars(cls, s[1..])
  }

  lemma {:induction false} KeptConcat(cls: RunClass, a: string, b: string)
    ensures KeptChars(cls, a + b) == KeptChars(cls, a) + KeptChars(cls, b)
    decreases |a|
  {
    if a != [] {
      KeptConcat(cls, a[1..], b);
      assert (a + b)[1..] == a[1..] + b;
    } else {
      assert a + b == b;
    }
  }

  lemma {:induction false} CollapseKeeps(run: RunClass, cls: RunClass, s: string)
    requires forall c :: InRun(run, c) ==> !Kept(cls, c)
    ensures KeptChars(cls, Collapse(run, s)) == KeptChars(cls, s)
    decreases |s|
  {
    if s != [] {
      CollapseKeeps(run, cls, s[1..]);
      var head := if InRun(run, s[0]) then (if |s| > 1 && InRun(run, s[1]) then "" else "_") else [s[0]];
      KeptConcat(cls, head, Collapse(run, s[1..]));
      if head == "_" {
        assert KeptChars(cls, head) == "";
      }
    }
  }

  lemma {:induction false} StripLeftKeeps(cls: RunClass, s: string)
    ensures KeptChars(cls, StripLeft(s)) == KeptChars(cls, s)
    decreases |s|
  {
    if s != [] && s[0] == '_' {
      StripLeftKeeps(cls, s[1..]);
      assert !Kept(cls, s[0]);
      assert KeptChars(cls, s) == "" + KeptChars(cls, s[1..]) == KeptChars(cls, s[1..]);
    }
  }

  lemma {:induction false} StripRightKeeps(cls: RunClass, s: string)
    ensures KeptChars(cls, StripRight(s)) == KeptChars(cls, s)
    decreases |s|
  {
    if s != [] && s[|s| - 1] == '_' {
      var init := s[..|s| - 1];
      StripRightKeeps(cls, init);
      assert s == init + [s[|s| - 1]];
      KeptConcat(cls, init, [s[|s| - 1]]);
    }
  }

  /** Every character other than a separator or `_` survives, in its original order. */
  lemma NormalizeKeeps(cls: RunClass, s: string)
    requires cls != Underscores
    ensures KeptChars(cls, Normalize(cls, s)) == KeptChars(cls, s)
  {
    CollapseKeeps(cls, cls, s);
    var a := Collapse(cls, s);
    StripLeftKeeps(cls, a);
    StripRightKeeps(cls, StripLeft(a));
    CollapseKeeps(Underscores, cls, Strip(a));
  }

  /** The v2 rule keeps every `-`; only the final version turns them into `_`. */
  lemma V2KeepsHyphens(s: string)
    ensures KeptChars(Spaces, Rename(V2, s)) == KeptChars(Spaces, s)
    ensures Kept(Spaces, '-') && !Kept(SpacesHyphens, '-')
    ensures NoSeparator(SpacesHyphens, Rename(Final, s))
  {
    NormalizeKeeps(Spaces, s);
    NormalizeCanonical(SpacesHyphens, s);
  }
}
