/**
 * Classification of template names into the variable catalog (app.py:80-119).
 *
 * The source walks the Python set `all_vars` in an unspecified order and builds the dict
 * `fields` step by step, every branch guarded by "create the entry only if the root is new".
 * Here that order is an explicit sequence of distinct names, `Classify` is the walk as a left
 * fold, and `SpecCatalog` is an order-free description of the catalog. The main theorem,
 * `ClassifyCharacterised`, says the walk yields `SpecCatalog` unless the order makes it raise
 * KeyError (a bare root met before every dotted name under it), in which case app.py:133-135
 * turns the exception into an empty catalog.
 */
module Catalog {
  import opened Wrappers
  import opened Chars

  datatype Kind = Simple | Boolean | Array | Object

  /** A value of the dict `fields`: `{'type': kind}`, or `{'type': kind, 'fields': set()}` when `fields` is present. */
  datatype Entry = Entry(kind: Kind, fields: Option<set<string>>)

  /** Position of the first `.` in `s`. */
  function DotIndex(s: string): (k: nat)
    requires '.' in s
    ensures k < |s| && s[k] == '.'
    ensures '.' !in s[..k]
  {
    if s[0] == '.' then 0
    else
      var k := DotIndex(s[1..]);
      assert s[..k + 1] == [s[0]] + s[1..][..k];
      k + 1
  }

  /** `s.split('.')`. */
  function Split(s: string): (parts: seq<string>)
    ensures |parts| >= 1
    ensures forall k :: 0 <= k < |parts| ==> '.' !in parts[k]
    ensures ('.' in s) <==> |parts| >= 2
    decreases |s|
  {
    if '.' !in s then [s]
    else
      var k := DotIndex(s);
      [s[..k]] + Split(s[k + 1..])
  }

  /** `'.'.join(parts)`. */
  function Join(parts: seq<string>): string
    requires |parts| >= 1
  {
    if |parts| == 1 then parts[0] else parts[0] + "." + Join(parts[1..])
  }

  /** Splitting on `.` and joining with `.` gives the name back. */
  lemma {:induction false} JoinSplit(s: string)
    ensures Join(Split(s)) == s
    decreases |s|
  {
    if '.' in s {
      var k := DotIndex(s);
      JoinSplit(s[k + 1..]);
      assert Split(s)[1..] == Split(s[k + 1..]);
      assert s == s[..k] + "." + s[k + 1..];
    }
  }

  /** `parts[0]`: the root variable of a name. */
  function Root(n: string): string
  {
    Split(n)[0]
  }

  /** `parts[1]`: the first segment after the root. */
  function FirstField(n: string): string
    requires '.' in n
  {
    Split(n)[1]
  }

  /** `'.'.join(parts[1:])`: everything after the root. */
  function Rest(n: string): string
    requires '.' in n
  {
    Join(Split(n)[1..])
  }

  /** The remainder is exactly the text after the first dot. */
  lemma RestIsSuffix(n: string)
    requires '.' in n
    ensures Rest(n) == n[DotIndex(n) + 1..]
    ensures Root(n) == n[..DotIndex(n)]
    ensures n == Root(n) + "." + Rest(n)
  {
    JoinSplit(n[DotIndex(n) + 1..]);
    assert n == n[..DotIndex(n)] + "." + n[DotIndex(n) + 1..];
  }

  /** `var.startswith('loop.')`: names of the template engine's loop object. */
  predicate IsLoopMeta(n: string)
  {
    |n| >= 5 && n[..5] == "loop."
  }

  lemma LoopMetaIsDotted(n: string)
    requires IsLoopMeta(n)
    ensures '.' in n
  {
    assert n[4] == n[..5][4];
  }

  /** `fields[root]['fields'].add(field)` after creating `fields[root]` if it is missing;
      None is the KeyError raised when the existing entry has no `fields` key. */
  function AddField(f: map<string, Entry>, root: string, kind: Kind, field: string): Option<map<string, Entry>>
  {
    var g := if root in f then f else f[root := Entry(kind, Some({}))];
    match g[root].fields
    case None => None
    case Some(s) => Some(g[root := Entry(g[root].kind, Some(s + {field}))])
  }

  /** One iteration of the loop at app.py:84-119 for the name `n`. */
  function Step(f: map<string, Entry>, n: string, loops: set<string>, ifs: set<string>): Option<map<string, Entry>>
  {
    if IsLoopMeta(n) then Some(f)
    else if '.' in n then
      var parts := Split(n);
      if parts[0] in loops then AddField(f, parts[0], Array, parts[1])
      else AddField(f, parts[0], Object, Join(parts[1..]))
    else if n in loops then Some(if n in f then f else f[n := Entry(Array, Some({}))])
    else if n in ifs then Some(if n in f then f else f[n := Entry(Boolean, None)])
    else Some(if n in f then f else f[n := Entry(Simple, None)])
  }

  /** The loop over `all_vars` in the order `order`; None when it raises. */
  function Classify(order: seq<string>, loops: set<string>, ifs: set<string>): Option<map<string, Entry>>
    decreases |order|
  {
    if order == [] then Some(map[])
    else
      match Classify(order[..|order| - 1], loops, ifs)
      case None => None
      case Some(f) => Step(f, order[|order| - 1], loops, ifs)
  }

  // ----- The order-free description of the catalog -----

  /** `n` is a dotted name, not a loop-object name, whose root is `r`. */
  predicate DottedUnder(n: string, r: string)
  {
    '.' in n && !IsLoopMeta(n) && Root(n) == r
  }

  /** The roots that get an entry: those of every name except the loop-object names. */
  function Roots(names: set<string>): set<string>
  {
    set n | n in names && !IsLoopMeta(n) :: Root(n)
  }

  function ArrayFields(names: set<string>, r: string): set<string>
  {
    set n | n in names && DottedUnder(n, r) :: FirstField(n)
  }

  function ObjectFields(names: set<string>, r: string): set<string>
  {
    set n | n in names && DottedUnder(n, r) :: Rest(n)
  }

  predicate HasDotted(names: set<string>, r: string)
  {
    exists n :: n in names && DottedUnder(n, r)
  }

  /** Precedence: loop collection, then dotted use, then if-guard, then plain substitution. */
  function SpecEntry(names: set<string>, r: string, loops: set<string>, ifs: set<string>): Entry
  {
    if r in loops then Entry(Array, Some(ArrayFields(names, r)))
    else if HasDotted(names, r) then Entry(Object, Some(ObjectFields(names, r)))
    else if r in ifs then Entry(Boolean, None)
    else Entry(Simple, None)
  }

  function SpecCatalog(names: set<string>, loops: set<string>, ifs: set<string>): map<string, Entry>
  {
    map r | r in Roots(names) :: SpecEntry(names, r, loops, ifs)
  }

  /** A bare name that is not a loop collection: it gets a `boolean` or `simple` entry without `fields`. */
  predicate BareOutsideLoops(n: string, loops: set<string>)
  {
    '.' !in n && n !in loops
  }

  /** The bare name at `i` comes before every dotted name under it, and at least one follows. */
  predicate BareFirst(order: seq<string>, i: nat, loops: set<string>)
    requires i < |order|
  {
    && BareOutsideLoops(order[i], loops)
    && (exists j :: i < j < |order| && DottedUnder(order[j], order[i]))
    && (forall k :: 0 <= k < i ==> !DottedUnder(order[k], order[i]))
  }

  /** The walk raises KeyError exactly when some root is met bare before any dotted use. */
  predicate Crashes(order: seq<string>, loops: set<string>)
  {
    exists i :: 0 <= i < |order| && BareFirst(order, i, loops)
  }

  // ----- Facts about the description -----

  lemma RootOfBare(n: string)
    requires '.' !in n
    ensures Root(n) == n && !IsLoopMeta(n)
  {
    if IsLoopMeta(n) {
      LoopMetaIsDotted(n);
    }
  }

  lemma RootsAdd(s: set<string>, n: string)
    ensures Roots(s + {n}) == Roots(s) + (if IsLoopMeta(n) then {} else {Root(n)})
  {
  }

  /** A root without dotted uses is present only through its bare name. */
  lemma BareRoot(s: set<string>, r: string)
    requires r in Roots(s) && !HasDotted(s, r)
    ensures r in s && '.' !in r
  {
    var n :| n in s && !IsLoopMeta(n) && Root(n) == r;
    assert !DottedUnder(n, r);
    RootOfBare(n);
  }

  /** A name that is not a dotted use of `r` leaves `r`'s entry as it was. */
  lemma EntryStable(s: set<string>, n: string, r: string, loops: set<string>, ifs: set<string>)
    requires !DottedUnder(n, r)
    ensures SpecEntry(s + {n}, r, loops, ifs) == SpecEntry(s, r, loops, ifs)
  {
    assert ArrayFields(s + {n}, r) == ArrayFields(s, r);
    assert ObjectFields(s + {n}, r) == ObjectFields(s, r);
    assert HasDotted(s + {n}, r) == HasDotted(s, r);
  }

  /** A dotted use of `r` adds its field to `r`'s field set. */
  lemma EntryGrows(s: set<string>, n: string, r: string)
    requires DottedUnder(n, r)
    ensures ArrayFields(s + {n}, r) == ArrayFields(s, r) + {FirstField(n)}
    ensures ObjectFields(s + {n}, r) == ObjectFields(s, r) + {Rest(n)}
    ensures HasDotted(s + {n}, r)
  {
  }

  /** `n`, appended to `p`, is the first dotted use of a root that `p` holds bare. */
  predicate NewCrash(p: seq<string>, n: string, loops: set<string>)
  {
    exists i :: 0 <= i < |p| && BareOutsideLoops(p[i], loops) && DottedUnder(n, p[i])
      && (forall k :: 0 <= k < |p| ==> !DottedUnder(p[k], p[i]))
  }

  /** Crashes of a prefix stay crashes; a new crash needs the last name to be the first dotted use of a bare root. */
  lemma CrashesSnoc(p: seq<string>, n: string, loops: set<string>)
    ensures Crashes(p, loops) ==> Crashes(p + [n], loops)
    ensures Crashes(p + [n], loops) && !Crashes(p, loops) ==> NewCrash(p, n, loops)
    ensures NewCrash(p, n, loops) ==> Crashes(p + [n], loops)
  {
    if Crashes(p, loops) {
      CrashKept(p, n, loops);
    }
    if Crashes(p + [n], loops) && !Crashes(p, loops) {
      CrashIsNew(p, n, loops);
    }
    if NewCrash(p, n, loops) {
      NewCrashCrashes(p, n, loops);
    }
  }

  lemma CrashKept(p: seq<string>, n: string, loops: set<string>)
    requires Crashes(p, loops)
    ensures Crashes(p + [n], loops)
  {
    var o := p + [n];
    var i :| 0 <= i < |p| && BareFirst(p, i, loops);
    var j :| i < j < |p| && DottedUnder(p[j], p[i]);
    assert o[j] == p[j] && o[i] == p[i];
    forall k | 0 <= k < i ensures !DottedUnder(o[k], o[i]) {
      assert o[k] == p[k];
    }
    assert BareFirst(o, i, loops);
  }

  lemma CrashIsNew(p: seq<string>, n: string, loops: set<string>)
    requires Crashes(p + [n], loops) && !Crashes(p, loops)
    ensures NewCrash(p, n, loops)
  {
    var o := p + [n];
    var i :| 0 <= i < |o| && BareFirst(o, i, loops);
    var j :| i < j < |o| && DottedUnder(o[j], o[i]);
    assert o[i] == p[i];
    forall k | 0 <= k < i ensures !DottedUnder(p[k], p[i]) {
      assert o[k] == p[k];
    }
    if j < |p| {
      assert o[j] == p[j];
      assert BareFirst(p, i, loops);
    }
    assert o[j] == n;
    forall k | i <= k < |p| ensures !DottedUnder(p[k], p[i]) {
      if k == i {
        assert '.' !in p[i];
      } else if DottedUnder(p[k], p[i]) {
        assert BareFirst(p, i, loops);
      }
    }
  }

  lemma NewCrashCrashes(p: seq<string>, n: string, loops: set<string>)
    requires NewCrash(p, n, loops)
    ensures Crashes(p + [n], loops)
  {
    var o := p + [n];
    var i :| 0 <= i < |p| && BareOutsideLoops(p[i], loops) && DottedUnder(n, p[i])
      && (forall k :: 0 <= k < |p| ==> !DottedUnder(p[k], p[i]));
    assert o[|p|] == n && o[i] == p[i];
    forall k | 0 <= k < i ensures !DottedUnder(o[k], o[i]) {
      assert o[k] == p[k];
    }
    assert BareFirst(o, i, loops);
  }

  /** A root with a dotted use has an entry. */
  lemma DottedRoot(s: set<string>, r: string)
    requires HasDotted(s, r)
    ensures r in Roots(s)
  {
    var x :| x in s && DottedUnder(x, r);
  }

  /** Adding a name whose root is `r` changes at most `r`'s entry. */
  lemma CatalogAdd(S: set<string>, n: string, r: string, loops: set<string>, ifs: set<string>)
    requires !IsLoopMeta(n) && Root(n) == r
    ensures SpecCatalog(S + {n}, loops, ifs) == SpecCatalog(S, loops, ifs)[r := SpecEntry(S + {n}, r, loops, ifs)]
  {
    RootsAdd(S, n);
    forall r' | r' in Roots(S) && r' != r ensures SpecEntry(S + {n}, r', loops, ifs) == SpecEntry(S, r', loops, ifs) {
      EntryStable(S, n, r', loops, ifs);
    }
  }

  /** The update `AddField` makes to an entry that has a field set. */
  lemma AddFieldTo(f: map<string, Entry>, r: string, kind: Kind, field: string, prior: set<string>)
    requires r in f ==> f[r] == Entry(kind, Some(prior))
    requires r !in f ==> prior == {}
    ensures AddField(f, r, kind, field) == Some(f[r := Entry(kind, Some(prior + {field}))])
  {
    if r !in f {
      assert f[r := Entry(kind, Some({}))][r := Entry(kind, Some({} + {field}))] == f[r := Entry(kind, Some(prior + {field}))];
    }
  }

  /** A dotted use under a loop collection adds its first segment to the array's fields. */
  lemma StepDottedInLoops(p: seq<string>, n: string, loops: set<string>, ifs: set<string>)
    requires '.' in n && !IsLoopMeta(n) && Root(n) in loops
    ensures !NewCrash(p, n, loops)
    ensures Step(SpecCatalog(Elems(p), loops, ifs), n, loops, ifs) == Some(SpecCatalog(Elems(p) + {n}, loops, ifs))
  {
    var S := Elems(p);
    var f := SpecCatalog(S, loops, ifs);
    var r := Root(n);
    EntryGrows(S, n, r);
    CatalogAdd(S, n, r, loops, ifs);
    if r !in f && HasDotted(S, r) {
      DottedRoot(S, r);
    }
    AddFieldTo(f, r, Array, FirstField(n), ArrayFields(S, r));
  }

  /** A dotted use of a root that is not a loop collection: an object's field, or KeyError after a bare use. */
  lemma StepDottedOutsideLoops(p: seq<string>, n: string, loops: set<string>, ifs: set<string>)
    requires '.' in n && !IsLoopMeta(n) && Root(n) !in loops
    ensures Step(SpecCatalog(Elems(p), loops, ifs), n, loops, ifs)
         == if NewCrash(p, n, loops) then None else Some(SpecCatalog(Elems(p) + {n}, loops, ifs))
  {
    var S := Elems(p);
    var f := SpecCatalog(S, loops, ifs);
    var r := Root(n);
    EntryGrows(S, n, r);
    CatalogAdd(S, n, r, loops, ifs);
    if HasDotted(S, r) {
      DottedRoot(S, r);
      assert !NewCrash(p, n, loops) by {
        var x :| x in S && DottedUnder(x, r);
      }
      AddFieldTo(f, r, Object, Rest(n), ObjectFields(S, r));
    } else if r in f {
      BareRoot(S, r);
      var i :| 0 <= i < |p| && p[i] == r;
      assert BareOutsideLoops(p[i], loops) && DottedUnder(n, p[i]);
      assert NewCrash(p, n, loops);
    } else {
      assert !NewCrash(p, n, loops) by {
        if NewCrash(p, n, loops) {
          var i :| 0 <= i < |p| && BareOutsideLoops(p[i], loops) && DottedUnder(n, p[i]);
          RootOfBare(p[i]);
        }
      }
      AddFieldTo(f, r, Object, Rest(n), ObjectFields(S, r));
    }
  }

  /** A bare name creates its entry if it has none; a name listed once is never met again. */
  lemma StepBare(p: seq<string>, n: string, loops: set<string>, ifs: set<string>)
    requires '.' !in n && n !in p
    ensures !NewCrash(p, n, loops)
    ensures Step(SpecCatalog(Elems(p), loops, ifs), n, loops, ifs) == Some(SpecCatalog(Elems(p) + {n}, loops, ifs))
  {
    var S := Elems(p);
    var S' := S + {n};
    var f := SpecCatalog(S, loops, ifs);
    var g := SpecCatalog(S', loops, ifs);
    RootOfBare(n);
    CatalogAdd(S, n, n, loops, ifs);
    EntryStable(S, n, n, loops, ifs);
    if n in f {
      if !HasDotted(S, n) {
        BareRoot(S, n);
      }
      assert g == f;
    } else {
      if HasDotted(S, n) {
        DottedRoot(S, n);
      }
      assert ArrayFields(S, n) == {};
      assert g == f[n := SpecEntry(S, n, loops, ifs)];
    }
  }

  /** The catalog of a prefix, stepped by one name, is the catalog of the longer prefix, or the step raises. */
  lemma StepSpec(p: seq<string>, n: string, loops: set<string>, ifs: set<string>)
    requires n !in p
    ensures Step(SpecCatalog(Elems(p), loops, ifs), n, loops, ifs)
         == if NewCrash(p, n, loops) then None else Some(SpecCatalog(Elems(p) + {n}, loops, ifs))
  {
    if IsLoopMeta(n) {
      var S := Elems(p);
      RootsAdd(S, n);
      forall r | r in Roots(S) ensures SpecEntry(S + {n}, r, loops, ifs) == SpecEntry(S, r, loops, ifs) {
        EntryStable(S, n, r, loops, ifs);
      }
      assert SpecCatalog(S + {n}, loops, ifs) == SpecCatalog(S, loops, ifs);
    } else if '.' in n && Root(n) in loops {
      StepDottedInLoops(p, n, loops, ifs);
    } else if '.' in n {
      StepDottedOutsideLoops(p, n, loops, ifs);
    } else {
      StepBare(p, n, loops, ifs);
    }
  }

  /**
   * The walk over any enumeration of the names yields the order-free catalog, unless the order
   * puts a bare root (neither dotted nor a loop collection) before every dotted name under that
   * root, in which case it raises and the source returns `{}`.
   */
  lemma {:induction false} ClassifyCharacterised(order: seq<string>, loops: set<string>, ifs: set<string>)
    requires Distinct(order)
    ensures Classify(order, loops, ifs)
         == if Crashes(order, loops) then None else Some(SpecCatalog(Elems(order), loops, ifs))
    decreases |order|
  {
    if order != [] {
      var p := order[..|order| - 1];
      var n := order[|order| - 1];
      assert order == p + [n];
      ClassifyCharacterised(p, loops, ifs);
      CrashesSnoc(p, n, loops);
      ElemsSnoc(p, n);
      if !Crashes(p, loops) {
        StepSpec(p, n, loops, ifs);
      }
    }
  }

  // ----- Properties of the catalog the walk returns -----

  /** Names of the loop object (`loop.index`, ...) add nothing to the catalog. */
  lemma {:induction false} LoopMetaIgnored(names: set<string>, n: string, loops: set<string>, ifs: set<string>)
    requires IsLoopMeta(n)
    ensures SpecCatalog(names + {n}, loops, ifs) == SpecCatalog(names, loops, ifs)
  {
    RootsAdd(names, n);
    forall r | r in Roots(names) ensures SpecEntry(names + {n}, r, loops, ifs) == SpecEntry(names, r, loops, ifs) {
      EntryStable(names, n, r, loops, ifs);
    }
  }

  /** A name used as a `{% for _ in NAME %}` collection is catalogued as an array. */
  lemma LoopCollectionIsArray(order: seq<string>, n: string, loops: set<string>, ifs: set<string>)
    requires Distinct(order) && n in order && n in loops && '.' !in n
    ensures Classify(order, loops, ifs).Some? ==>
      n in Classify(order, loops, ifs).value && Classify(order, loops, ifs).value[n].kind == Array
  {
    ClassifyCharacterised(order, loops, ifs);
    RootOfBare(n);
    assert n in Roots(Elems(order));
  }

  /** A dotted name under a loop collection makes its root an array and adds only the first segment. */
  lemma DottedUnderLoopIsArray(order: seq<string>, n: string, loops: set<string>, ifs: set<string>)
    requires Distinct(order) && n in order && '.' in n && !IsLoopMeta(n) && Root(n) in loops
    ensures Classify(order, loops, ifs).Some? ==>
      var c := Classify(order, loops, ifs).value;
      && Root(n) in c && c[Root(n)].kind == Array && c[Root(n)].fields.Some?
      && FirstField(n) in c[Root(n)].fields.value
      && forall fld :: fld in c[Root(n)].fields.value ==> '.' !in fld
  {
    ClassifyCharacterised(order, loops, ifs);
    var names := Elems(order);
    assert Root(n) in Roots(names);
    assert DottedUnder(n, Root(n));
    forall fld | fld in ArrayFields(names, Root(n)) ensures '.' !in fld {
      var x :| x in names && DottedUnder(x, Root(n)) && FirstField(x) == fld;
    }
  }

  /** A dotted name under any other root makes it an object holding the whole remainder as one field. */
  lemma DottedOutsideLoopIsObject(order: seq<string>, n: string, loops: set<string>, ifs: set<string>)
    requires Distinct(order) && n in order && '.' in n && !IsLoopMeta(n) && Root(n) !in loops
    ensures Classify(order, loops, ifs).Some? ==>
      var c := Classify(order, loops, ifs).value;
      && Root(n) in c && c[Root(n)].kind == Object && c[Root(n)].fields.Some?
      && Rest(n) in c[Root(n)].fields.value
      && n == Root(n) + "." + Rest(n)
  {
    ClassifyCharacterised(order, loops, ifs);
    var names := Elems(order);
    assert Root(n) in Roots(names);
    assert DottedUnder(n, Root(n));
    RestIsSuffix(n);
  }

  /**
   * A bare name: array if it is a loop collection, else object if some dotted name shares its
   * root, else boolean if it guards an `{% if %}`, else simple; boolean and simple carry no fields.
   */
  lemma BareNamePrecedence(order: seq<string>, n: string, loops: set<string>, ifs: set<string>)
    requires Distinct(order) && n in order && '.' !in n
    ensures Classify(order, loops, ifs).Some? ==>
      var c := Classify(order, loops, ifs).value;
      && n in c
      && c[n].kind == (if n in loops then Array
                       else if HasDotted(Elems(order), n) then Object
                       else if n in ifs then Boolean
                       else Simple)
      && (c[n].fields.None? <==> c[n].kind in {Boolean, Simple})
  {
    ClassifyCharacterised(order, loops, ifs);
    RootOfBare(n);
    assert n in Roots(Elems(order));
  }

  /** Without a root used both bare (outside loops) and dotted, the walk cannot raise. */
  predicate ConflictFree(names: set<string>, loops: set<string>)
  {
    forall n :: n in names && BareOutsideLoops(n, loops) ==> !HasDotted(names, n)
  }

  lemma ConflictFreeNoCrash(order: seq<string>, loops: set<string>)
    requires ConflictFree(Elems(order), loops)
    ensures !Crashes(order, loops)
  {
  }

  /** Without such a conflict the catalog does not depend on the order in which the set is walked. */
  lemma OrderIndependent(o1: seq<string>, o2: seq<string>, loops: set<string>, ifs: set<string>)
    requires Distinct(o1) && Distinct(o2) && Elems(o1) == Elems(o2)
    requires ConflictFree(Elems(o1), loops)
    ensures Classify(o1, loops, ifs) == Classify(o2, loops, ifs) == Some(SpecCatalog(Elems(o1), loops, ifs))
  {
    ClassifyCharacterised(o1, loops, ifs);
    ClassifyCharacterised(o2, loops, ifs);
    ConflictFreeNoCrash(o1, loops);
    ConflictFreeNoCrash(o2, loops);
  }

  /** Bare root first: `fields[root]['fields']` raises and the whole catalog is lost. */
  lemma BareFirstRaises(order: seq<string>, i: nat, loops: set<string>, ifs: set<string>)
    requires Distinct(order) && i < |order| && BareFirst(order, i, loops)
    ensures Classify(order, loops, ifs) == None
  {
    ClassifyCharacterised(order, loops, ifs);
  }

  /** Dotted use first: the later bare name is skipped and the root is an object. */
  lemma DottedFirstIsObject(order: seq<string>, i: nat, j: nat, loops: set<string>, ifs: set<string>)
    requires Distinct(order) && j < i < |order| && BareOutsideLoops(order[i], loops)
    requires DottedUnder(order[j], order[i])
    ensures Classify(order, loops, ifs).Some? ==>
      var c := Classify(order, loops, ifs).value;
      order[i] in c && c[order[i]].kind == Object
  {
    ClassifyCharacterised(order, loops, ifs);
    RootOfBare(order[i]);
    assert order[i] in Roots(Elems(order));
    assert HasDotted(Elems(order), order[i]);
  }

  /** The two orders of `{% if c %}` with `{{ c.n }}` give different results. */
  lemma ConflictOrderMatters()
    ensures Classify(["c", "c.n"], {}, {"c"}) == None
    ensures Classify(["c.n", "c"], {}, {"c"}) == Some(map["c" := Entry(Object, Some({"n"}))])
  {
    assert DotIndex("c.n") == 1;
    assert Split("c.n") == ["c", "n"] by {
      assert "c.n"[..1] == "c";
      assert "c.n"[2..] == "n";
      assert '.' !in "n";
    }
    assert !IsLoopMeta("c.n");
    assert Step(map[], "c", {}, {"c"}) == Some(map["c" := Entry(Boolean, None)]);
    assert ["c", "c.n"][..1] == ["c"];
    assert ["c.n", "c"][..1] == ["c.n"];
    assert Split("c.n")[1..] == ["n"];
    assert Join(["n"]) == "n";
    assert '.' in "c.n";
    var none: set<string> := {};
    assert none + {"n"} == {"n"};
    var empty: map<string, Entry> := map[];
    var g := empty["c" := Entry(Object, Some(none))];
    assert g["c" := Entry(Object, Some(none + {"n"}))] == map["c" := Entry(Object, Some({"n"}))];
    assert AddField(empty, "c", Object, "n") == Some(map["c" := Entry(Object, Some({"n"}))]);
    assert Step(map[], "c.n", {}, {"c"}) == Some(map["c" := Entry(Object, Some({"n"}))]);
  }

  /** The walk never changes the kind of an entry once it exists: first write wins. */
  lemma {:induction false} FirstWriteWins(order: seq<string>, k: nat, loops: set<string>, ifs: set<string>)
    requires k <= |order|
    requires Classify(order[..k], loops, ifs).Some? && Classify(order, loops, ifs).Some?
    ensures var f := Classify(order[..k], loops, ifs).value;
            var g := Classify(order, loops, ifs).value;
            forall r :: r in f ==> r in g && g[r].kind == f[r].kind
    decreases |order| - k
  {
    if k < |order| {
      var p := order[..|order| - 1];
      assert order[..k] == p[..k];
      FirstWriteWins(p, k, loops, ifs);
      var h := Classify(p, loops, ifs).value;
      var n := order[|order| - 1];
      assert Classify(order, loops, ifs) == Step(h, n, loops, ifs);
      assert forall r :: r in h ==> r in Classify(order, loops, ifs).value && Classify(order, loops, ifs).value[r].kind == h[r].kind;
    } else {
      assert order[..k] == order;
    }
  }

  // ----- The intended classification: dotted use always wins over a bare one -----

  /** Like `AddField`, but an entry without `fields` is replaced instead of raising KeyError. */
  function AddFieldIntended(f: map<string, Entry>, root: string, kind: Kind, field: string): map<string, Entry>
  {
    if root in f && f[root].fields.Some? then f[root := Entry(f[root].kind, Some(f[root].fields.value + {field}))]
    else f[root := Entry(kind, Some({field}))]
  }

  function StepIntended(f: map<string, Entry>, n: string, loops: set<string>, ifs: set<string>): map<string, Entry>
  {
    if IsLoopMeta(n) then f
    else if '.' in n then
      var parts := Split(n);
      if parts[0] in loops then AddFieldIntended(f, parts[0], Array, parts[1])
      else AddFieldIntended(f, parts[0], Object, Join(parts[1..]))
    else if n in f then f
    else if n in loops then f[n := Entry(Array, Some({}))]
    else if n in ifs then f[n := Entry(Boolean, None)]
    else f[n := Entry(Simple, None)]
  }

  function ClassifyIntended(order: seq<string>, loops: set<string>, ifs: set<string>): map<string, Entry>
    decreases |order|
  {
    if order == [] then map[]
    else StepIntended(ClassifyIntended(order[..|order| - 1], loops, ifs), order[|order| - 1], loops, ifs)
  }

  /** Where the walk as written does not raise, the intended step agrees with it. */
  lemma StepIntendedAgrees(f: map<string, Entry>, n: string, loops: set<string>, ifs: set<string>)
    requires Step(f, n, loops, ifs).Some?
    ensures Step(f, n, loops, ifs) == Some(StepIntended(f, n, loops, ifs))
  {
    if !IsLoopMeta(n) && '.' in n {
      var parts := Split(n);
      var kind := if parts[0] in loops then Array else Object;
      var field := if parts[0] in loops then parts[1] else Join(parts[1..]);
      if parts[0] !in f {
        assert {} + {field} == {field};
        assert f[parts[0] := Entry(kind, Some({}))][parts[0] := Entry(kind, Some({} + {field}))]
            == f[parts[0] := Entry(kind, Some({field}))];
      }
    }
  }

  /** Where the walk as written raises, the intended step turns the bare entry into an object. */
  lemma StepIntendedConflict(p: seq<string>, n: string, loops: set<string>, ifs: set<string>)
    requires '.' in n && !IsLoopMeta(n) && Root(n) !in loops && NewCrash(p, n, loops)
    ensures StepIntended(SpecCatalog(Elems(p), loops, ifs), n, loops, ifs) == SpecCatalog(Elems(p) + {n}, loops, ifs)
  {
    var S := Elems(p);
    var f := SpecCatalog(S, loops, ifs);
    var r := Root(n);
    var i :| 0 <= i < |p| && BareOutsideLoops(p[i], loops) && DottedUnder(n, p[i])
      && (forall k :: 0 <= k < |p| ==> !DottedUnder(p[k], p[i]));
    assert p[i] == r;
    assert !HasDotted(S, r);
    RootOfBare(r);
    assert r in Roots(S);
    assert f[r].fields.None?;
    EntryGrows(S, n, r);
    CatalogAdd(S, n, r, loops, ifs);
    assert ObjectFields(S, r) == {};
    assert ObjectFields(S + {n}, r) == {Rest(n)};
    assert SpecEntry(S + {n}, r, loops, ifs) == Entry(Object, Some({Rest(n)}));
    assert StepIntended(f, n, loops, ifs) == f[r := Entry(Object, Some({Rest(n)}))];
  }

  lemma StepIntendedSpec(p: seq<string>, n: string, loops: set<string>, ifs: set<string>)
    requires n !in p
    ensures StepIntended(SpecCatalog(Elems(p), loops, ifs), n, loops, ifs) == SpecCatalog(Elems(p) + {n}, loops, ifs)
  {
    var f := SpecCatalog(Elems(p), loops, ifs);
    if IsLoopMeta(n) {
      LoopMetaIgnored(Elems(p), n, loops, ifs);
    } else if '.' in n && Root(n) in loops {
      StepDottedInLoops(p, n, loops, ifs);
      StepIntendedAgrees(f, n, loops, ifs);
    } else if '.' in n && NewCrash(p, n, loops) {
      StepIntendedConflict(p, n, loops, ifs);
    } else if '.' in n {
      StepDottedOutsideLoops(p, n, loops, ifs);
      StepIntendedAgrees(f, n, loops, ifs);
    } else {
      StepBare(p, n, loops, ifs);
      StepIntendedAgrees(f, n, loops, ifs);
    }
  }

  /** The intended walk yields the order-free catalog for every order: it never depends on the set's order. */
  lemma {:induction false} ClassifyIntendedIsSpec(order: seq<string>, loops: set<string>, ifs: set<string>)
    requires Distinct(order)
    ensures ClassifyIntended(order, loops, ifs) == SpecCatalog(Elems(order), loops, ifs)
    decreases |order|
  {
    if order != [] {
      var p := order[..|order| - 1];
      var n := order[|order| - 1];
      assert order == p + [n];
      ClassifyIntendedIsSpec(p, loops, ifs);
      ElemsSnoc(p, n);
      StepIntendedSpec(p, n, loops, ifs);
    }
  }
}
