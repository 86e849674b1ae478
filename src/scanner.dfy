/**
 * The three lexical scanners of app.py (lines 69, 72 and 75), run with `re.findall` over the
 * joined document text: leftmost, non-overlapping matches, left to right.
 *
 * Each regular expression is deterministic: every repeated class is followed by a token that
 * cannot match a character of that class, so greedy and lazy repetition both take the longest
 * run. Each scanner is therefore written as a longest-run (maximal munch) matcher.
 */
module Scanner {
  import opened Wrappers
  import opened Chars

  /** `{{ name | filter }}`, `{% for x in name %}` and `{% if name %}`. */
  datatype Pattern = Substitution | ForLoop | IfGuard

  /** The character classes that the patterns repeat. */
  datatype CharClass =
    | Space        // \s
    | Name         // [a-zA-Z0-9_]
    | DottedName   // [a-zA-Z0-9_\.]
    | Word         // \w
    | NotClose     // [^}]

  predicate InClass(cls: CharClass, c: char)
  {
    match cls
    case Space => IsSpace(c)
    case Name => IsNameChar(c)
    case DottedName => IsNameChar(c) || c == '.'
    case Word => IsWordChar(c)
    case NotClose => c != '}'
  }

  /** The end of the longest run of `cls` characters starting at `i`. */
  function Skip(cls: CharClass, t: string, i: nat): (j: nat)
    requires i <= |t|
    ensures i <= j <= |t|
    ensures j == |t| || !InClass(cls, t[j])
    decreases |t| - i
  {
    if i < |t| && InClass(cls, t[i]) then Skip(cls, t, i + 1) else i
  }

  /** The literal `lit` occurs at position `i` of `t`; every literal of the patterns has at most three characters. */
  predicate At(t: string, i: nat, lit: string)
    requires |lit| <= 3
  {
    && i + |lit| <= |t|
    && (|lit| > 0 ==> t[i] == lit[0])
    && (|lit| > 1 ==> t[i + 1] == lit[1])
    && (|lit| > 2 ==> t[i + 2] == lit[2])
  }

  /** One match: the captured name and the position just after the match. */
  datatype Hit = Hit(name: string, end: nat)

  /** The shape of a name each pattern captures. */
  predicate NameShape(p: Pattern, n: string)
  {
    && |n| > 0
    && IsNameStart(n[0])
    && forall k :: 0 <= k < |n| ==> (IsNameChar(n[k]) || (p == Substitution && n[k] == '.'))
  }

  /** A name `[a-zA-Z_]` followed by the longest run of `cls` starting at `j`; the result is its end. */
  function NameEnd(cls: CharClass, t: string, j: nat): (k: Option<nat>)
    requires j <= |t|
    ensures k.Some? ==> j < k.value <= |t| && IsNameStart(t[j])
  {
    if j < |t| && IsNameStart(t[j]) then Some(Skip(cls, t, j + 1)) else None
  }

  /** Every character that `Skip` passes over is in the class. */
  lemma {:induction false} SkipSpan(cls: CharClass, t: string, i: nat)
    requires i <= |t|
    ensures forall k :: i <= k < Skip(cls, t, i) ==> InClass(cls, t[k])
    decreases |t| - i
  {
    if i < |t| && InClass(cls, t[i]) {
      SkipSpan(cls, t, i + 1);
    }
  }

  /** The class of the later characters of the name each pattern captures. */
  function NameClass(p: Pattern): CharClass
  {
    if p == Substitution then DottedName else Name
  }

  /** A name that `NameEnd` delimits has the shape the pattern captures. */
  lemma CapturedName(p: Pattern, t: string, j: nat)
    requires j <= |t| && NameEnd(NameClass(p), t, j).Some?
    ensures NameShape(p, t[j..NameEnd(NameClass(p), t, j).value])
  {
    SkipSpan(NameClass(p), t, j + 1);
  }

  /** `\s*%\}` at `c`; the result is the position after `%}`. */
  function CloseTag(t: string, c: nat): (g: Option<nat>)
    requires c <= |t|
    ensures g.Some? ==> c < g.value <= |t|
  {
    var d := Skip(Space, t, c);
    if At(t, d, "%}") then Some(d + 2) else None
  }

  /** `\{\{\s*([a-zA-Z_][a-zA-Z0-9_\.]*?)\s*(?:\|[^}]*)?\}\}` anchored at `i`. */
  function MatchSubstitution(t: string, i: nat): (h: Option<Hit>)
    requires i <= |t|
    ensures h.Some? ==> i < |t| && t[i] == '{' && i < h.value.end <= |t|
    ensures h.Some? ==> NameShape(Substitution, h.value.name)
  {
    if !At(t, i, "{{") then None
    else
      var j := Skip(Space, t, i + 2);
      match NameEnd(DottedName, t, j)
      case None => None
      case Some(k) =>
        CapturedName(Substitution, t, j);
        match FilterClose(t, k)
        case None => None
        case Some(g) => Some(Hit(t[j..k], g))
  }

  /** `\s*(?:\|[^}]*)?\}\}` at `k`, the rest of the substitution pattern; the result is the position after `}}`. */
  function FilterClose(t: string, k: nat): (g: Option<nat>)
    requires k <= |t|
    ensures g.Some? ==> k < g.value <= |t|
  {
    var m := Skip(Space, t, k);
    var f := if m < |t| && t[m] == '|' then Skip(NotClose, t, m + 1) else m;
    if At(t, f, "}}") then Some(f + 2) else None
  }

  /** `\{%\s*for\s+\w+\s+in\s+([a-zA-Z_][a-zA-Z0-9_]*)\s*%\}` anchored at `i`. */
  function MatchForLoop(t: string, i: nat): (h: Option<Hit>)
    requires i <= |t|
    ensures h.Some? ==> i < |t| && t[i] == '{' && i < h.value.end <= |t|
    ensures h.Some? ==> NameShape(ForLoop, h.value.name)
  {
    match ForLoopHeadEnd(t, i)
    case None => None
    case Some(d) => ForLoopTail(t, d)
  }

  /** `\{%\s*for\s+\w+\s+` at `i`: the position of `in`, the start of the rest of the loop pattern. */
  function ForLoopHeadEnd(t: string, i: nat): (d: Option<nat>)
    requires i <= |t|
    ensures d.Some? ==> At(t, i, "{%") && i < d.value <= |t|
  {
    if !At(t, i, "{%") then None
    else
      var a := Skip(Space, t, i + 2);
      if !At(t, a, "for") then None
      else
        var b := Skip(Space, t, a + 3);
        var c := Skip(Word, t, b);
        var d := Skip(Space, t, c);
        if b == a + 3 || c == b || d == c then None
        else Some(d)
  }

  /** `in\s+([a-zA-Z_][a-zA-Z0-9_]*)\s*%\}` at `d`, the rest of the loop pattern. */
  function ForLoopTail(t: string, d: nat): (h: Option<Hit>)
    requires d <= |t|
    ensures h.Some? ==> d < h.value.end <= |t|
    ensures h.Some? ==> NameShape(ForLoop, h.value.name)
  {
    if !At(t, d, "in") then None
    else
      var e := Skip(Space, t, d + 2);
      if e == d + 2 then None
      else ControlName(ForLoop, t, e)
  }

  /** `([a-zA-Z_][a-zA-Z0-9_]*)\s*%\}` at `e`, the end shared by the loop and the if pattern. */
  function ControlName(p: Pattern, t: string, e: nat): (h: Option<Hit>)
    requires p != Substitution && e <= |t|
    ensures h.Some? ==> e < h.value.end <= |t|
    ensures h.Some? ==> NameShape(p, h.value.name)
  {
    match NameEnd(Name, t, e)
    case None => None
    case Some(f) =>
      CapturedName(p, t, e);
      match CloseTag(t, f)
      case None => None
      case Some(g) => Some(Hit(t[e..f], g))
  }

  /** `\{%\s*if\s+([a-zA-Z_][a-zA-Z0-9_]*)\s*%\}` anchored at `i`. */
  function MatchIfGuard(t: string, i: nat): (h: Option<Hit>)
    requires i <= |t|
    ensures h.Some? ==> i < |t| && t[i] == '{' && i < h.value.end <= |t|
    ensures h.Some? ==> NameShape(IfGuard, h.value.name)
  {
    match IfGuardHeadEnd(t, i)
    case None => None
    case Some(b) => ControlName(IfGuard, t, b)
  }

  /** `\{%\s*if\s+` at `i`: the position of the name. */
  function IfGuardHeadEnd(t: string, i: nat): (b: Option<nat>)
    requires i <= |t|
    ensures b.Some? ==> At(t, i, "{%") && i < b.value <= |t|
  {
    if !At(t, i, "{%") then None
    else
      var a := Skip(Space, t, i + 2);
      if !At(t, a, "if") then None
      else
        var b := Skip(Space, t, a + 2);
        if b == a + 2 then None
        else Some(b)
  }

  /** A match of pattern `p` anchored at `i`: it starts with `{`, ends after `i` and captures a well-shaped name. */
  function MatchAt(p: Pattern, t: string, i: nat): (h: Option<Hit>)
    requires i <= |t|
    ensures h.Some? ==> i < |t| && t[i] == '{' && i < h.value.end <= |t|
    ensures h.Some? ==> NameShape(p, h.value.name)
  {
    match p
    case Substitution => MatchSubstitution(t, i)
    case ForLoop => MatchForLoop(t, i)
    case IfGuard => MatchIfGuard(t, i)
  }

  /** `re.findall` from position `i`: the captured names of the leftmost non-overlapping matches. */
  function FindAll(p: Pattern, t: string, i: nat): seq<string>
    requires i <= |t|
    decreases |t| - i
  {
    if i == |t| then []
    else
      match MatchAt(p, t, i)
      case Some(h) => [h.name] + FindAll(p, t, h.end)
      case None => FindAll(p, t, i + 1)
  }

  /** The names a pattern finds in the whole text. */
  function Scan(p: Pattern, t: string): seq<string>
  {
    FindAll(p, t, 0)
  }

  /** `set(simple_vars + loop_vars + if_vars)` (app.py:78). */
  function AllNames(t: string): set<string>
  {
    Elems(Scan(Substitution, t) + Scan(ForLoop, t) + Scan(IfGuard, t))
  }

  /** Every match starts at a `{`, so text without one yields no names. */
  lemma {:induction false} NoBraceNoNames(p: Pattern, t: string, i: nat)
    requires i <= |t|
    requires forall k :: i <= k < |t| ==> t[k] != '{'
    ensures FindAll(p, t, i) == []
    decreases |t| - i
  {
    if i < |t| {
      NoBraceNoNames(p, t, i + 1);
    }
  }

  /** No names at all in a text without `{` (the empty-catalog case). */
  lemma NoBraceNoVariables(t: string)
    requires forall k :: 0 <= k < |t| ==> t[k] != '{'
    ensures AllNames(t) == {}
  {
    NoBraceNoNames(Substitution, t, 0);
    NoBraceNoNames(ForLoop, t, 0);
    NoBraceNoNames(IfGuard, t, 0);
  }

  /** Every name found has the shape its pattern captures. */
  lemma {:induction false} FindAllShape(p: Pattern, t: string, i: nat)
    requires i <= |t|
    ensures forall k :: 0 <= k < |FindAll(p, t, i)| ==> NameShape(p, FindAll(p, t, i)[k])
    decreases |t| - i
  {
    if i < |t| {
      match MatchAt(p, t, i)
      case Some(h) => FindAllShape(p, t, h.end);
      case None => FindAllShape(p, t, i + 1);
    }
  }

  /** Loop collections and if-guards are never dotted names. */
  lemma ControlNamesUndotted(p: Pattern, t: string, n: string)
    requires p != Substitution && n in Scan(p, t)
    ensures '.' !in n
  {
    FindAllShape(p, t, 0);
    var k :| 0 <= k < |Scan(p, t)| && Scan(p, t)[k] == n;
    assert NameShape(p, n);
  }

  // ----- What each scanner finds -----

  /** Every character of `t[i..j]` is in the class. */
  predicate Run(cls: CharClass, t: string, i: nat, j: nat)
    requires i <= j <= |t|
  {
    forall x {:trigger InClass(cls, t[x])} :: i <= x < j ==> InClass(cls, t[x])
  }

  /** `Skip` stops at the first character outside the class. */
  lemma {:induction false} SkipRun(cls: CharClass, t: string, i: nat, j: nat)
    requires i <= j <= |t|
    requires Run(cls, t, i, j)
    requires j == |t| || !InClass(cls, t[j])
    ensures Skip(cls, t, i) == j
    decreases j - i
  {
    if i < j {
      SkipRun(cls, t, i + 1, j);
    }
  }

  /** A name of pattern `p` occupies `t[j..k]`. */
  predicate NameSpan(p: Pattern, t: string, j: nat, k: nat)
    requires j <= k <= |t|
  {
    j < k && IsNameStart(t[j]) && Run(NameClass(p), t, j + 1, k)
  }

  /** A name of a control pattern up to `f`, spaces up to `g`, then `%}`: `([a-zA-Z_][a-zA-Z0-9_]*)\s*%\}`. */
  lemma NameThenClose(p: Pattern, t: string, e: nat, f: nat, g: nat)
    requires p != Substitution
    requires e < f <= g && g + 2 <= |t|
    requires NameSpan(p, t, e, f) && Run(Space, t, f, g)
    requires t[g] == '%' && t[g + 1] == '}'
    ensures ControlName(p, t, e) == Some(Hit(t[e..f], g + 2))
  {
    assert f == g || InClass(Space, t[f]);
    SkipRun(Name, t, e + 1, f);
    SkipRun(Space, t, f, g);
  }

  /** Conversely, a name that `ControlName` captures is a name up to `f`, spaces up to `g`, then `%}`. */
  lemma ControlNameSound(p: Pattern, t: string, e: nat) returns (f: nat, g: nat)
    requires p != Substitution && e <= |t| && ControlName(p, t, e).Some?
    ensures e < f <= g && g + 2 <= |t|
    ensures NameSpan(p, t, e, f) && Run(Space, t, f, g) && t[g] == '%' && t[g + 1] == '}'
    ensures ControlName(p, t, e) == Some(Hit(t[e..f], g + 2))
  {
    f := NameEnd(Name, t, e).value;
    g := Skip(Space, t, f);
    SkipSpan(Name, t, e + 1);
    SkipSpan(Space, t, f);
  }

  /**
   * `t` holds the substitution pattern at `i`: `{{`, spaces up to `j`, the name up to `k`,
   * spaces up to `m`, then either `}}` at `m`, or `|` at `m` and a filter up to the `}}` at `f`.
   */
  predicate SubstitutionLayout(t: string, i: nat, j: nat, k: nat, m: nat, f: nat)
  {
    && i + 2 <= j < k <= m <= f && f + 2 <= |t|
    && t[i] == '{' && t[i + 1] == '{' && Run(Space, t, i + 2, j)
    && NameSpan(Substitution, t, j, k) && Run(Space, t, k, m)
    && (m == f || (t[m] == '|' && Run(NotClose, t, m + 1, f)))
    && t[f] == '}' && t[f + 1] == '}'
  }

  /** `{{` at `i`, then spaces up to `j` and a name up to `k`. */
  lemma SubstitutionHead(t: string, i: nat, j: nat, k: nat)
    requires i + 2 <= j < k < |t|
    requires t[i] == '{' && t[i + 1] == '{'
    requires Run(Space, t, i + 2, j) && NameSpan(Substitution, t, j, k)
    requires !InClass(DottedName, t[k])
    ensures At(t, i, "{{") && Skip(Space, t, i + 2) == j && NameEnd(DottedName, t, j) == Some(k)
  {
    SkipRun(Space, t, i + 2, j);
    SkipRun(DottedName, t, j + 1, k);
  }

  /** Spaces up to `m`, then either `}}` at `m`, or `|`, a filter and `}}` at `f`. */
  lemma SubstitutionTail(t: string, k: nat, m: nat, f: nat)
    requires k <= m <= f && f + 2 <= |t| && t[f] == '}' && t[f + 1] == '}'
    requires Run(Space, t, k, m)
    requires m == f || (t[m] == '|' && Run(NotClose, t, m + 1, f))
    ensures FilterClose(t, k) == Some(f + 2)
  {
    SkipRun(Space, t, k, m);
    if m < f {
      SkipRun(NotClose, t, m + 1, f);
    }
  }

  /** The substitution pattern matches at `i` of a text laid out as it says, and captures the name. */
  lemma SubstitutionAt(t: string, i: nat, j: nat, k: nat, m: nat, f: nat)
    requires SubstitutionLayout(t, i, j, k, m, f)
    ensures MatchAt(Substitution, t, i) == Some(Hit(t[j..k], f + 2))
  {
    assert k == m || InClass(Space, t[k]);
    SubstitutionHead(t, i, j, k);
    SubstitutionTail(t, k, m, f);
  }

  /** A match of the substitution pattern at `i` is that layout: nothing else is matched. */
  lemma SubstitutionSound(t: string, i: nat)
    requires i <= |t| && MatchAt(Substitution, t, i).Some?
    ensures exists j: nat, k: nat, m: nat, f: nat :: SubstitutionLayout(t, i, j, k, m, f) && MatchAt(Substitution, t, i) == Some(Hit(t[j..k], f + 2))
  {
    var j := Skip(Space, t, i + 2);
    var k := NameEnd(DottedName, t, j).value;
    SkipSpan(Space, t, i + 2);
    SkipSpan(DottedName, t, j + 1);
    var m, f := FilterCloseSound(t, k);
    assert SubstitutionLayout(t, i, j, k, m, f);
  }

  /** The end of the substitution pattern, where it succeeds, is spaces, an optional filter and `}}`. */
  lemma FilterCloseSound(t: string, k: nat) returns (m: nat, f: nat)
    requires k <= |t| && FilterClose(t, k).Some?
    ensures k <= m <= f && f + 2 <= |t| && Run(Space, t, k, m)
    ensures m == f || (t[m] == '|' && Run(NotClose, t, m + 1, f))
    ensures t[f] == '}' && t[f + 1] == '}' && FilterClose(t, k) == Some(f + 2)
  {
    m := Skip(Space, t, k);
    f := if m < |t| && t[m] == '|' then Skip(NotClose, t, m + 1) else m;
    SkipSpan(Space, t, k);
    if m < |t| && t[m] == '|' {
      SkipSpan(NotClose, t, m + 1);
    }
  }

  /**
   * `t` holds the loop pattern at `i`: `{%`, spaces up to `a`, `for`, spaces up to `b`,
   * the loop variable up to `c`, spaces up to `d`, `in`, spaces up to `e`, the collection up to
   * `f`, spaces up to `g`, then `%}`.
   */
  predicate ForLoopLayout(t: string, i: nat, a: nat, b: nat, c: nat, d: nat, e: nat, f: nat, g: nat)
  {
    && i + 2 <= a && a + 3 < b < c < d && d + 2 < e < f <= g && g + 2 <= |t|
    && t[i] == '{' && t[i + 1] == '%' && Run(Space, t, i + 2, a)
    && t[a] == 'f' && t[a + 1] == 'o' && t[a + 2] == 'r'
    && Run(Space, t, a + 3, b) && Run(Word, t, b, c) && Run(Space, t, c, d)
    && t[d] == 'i' && t[d + 1] == 'n' && Run(Space, t, d + 2, e)
    && NameSpan(ForLoop, t, e, f) && Run(Space, t, f, g) && t[g] == '%' && t[g + 1] == '}'
  }

  /** `{%`, spaces, `for` and spaces: the loop variable of the layout starts at `b`. */
  lemma ForOpenSteps(t: string, i: nat, a: nat, b: nat, c: nat, d: nat, e: nat, f: nat, g: nat)
    requires ForLoopLayout(t, i, a, b, c, d, e, f, g)
    ensures At(t, i, "{%") && Skip(Space, t, i + 2) == a && At(t, a, "for") && Skip(Space, t, a + 3) == b
  {
    SkipRun(Space, t, i + 2, a);
    assert InClass(Word, t[b]);
    SkipRun(Space, t, a + 3, b);
  }

  /** The head of the loop pattern stops at the `in` of the layout. */
  lemma ForLoopHeadSteps(t: string, i: nat, a: nat, b: nat, c: nat, d: nat, e: nat, f: nat, g: nat)
    requires ForLoopLayout(t, i, a, b, c, d, e, f, g)
    ensures ForLoopHeadEnd(t, i) == Some(d)
  {
    ForOpenSteps(t, i, a, b, c, d, e, f, g);
    assert InClass(Space, t[c]);
    SkipRun(Word, t, b, c);
    SkipRun(Space, t, c, d);
  }

  /** The rest of the loop pattern captures the collection of the layout. */
  lemma ForLoopTailSteps(t: string, i: nat, a: nat, b: nat, c: nat, d: nat, e: nat, f: nat, g: nat)
    requires ForLoopLayout(t, i, a, b, c, d, e, f, g)
    ensures ForLoopTail(t, d) == Some(Hit(t[e..f], g + 2))
  {
    SkipRun(Space, t, d + 2, e);
    NameThenClose(ForLoop, t, e, f, g);
  }

  /** The loop pattern matches at `i` of a text laid out as it says, and captures the collection. */
  lemma ForLoopAt(t: string, i: nat, a: nat, b: nat, c: nat, d: nat, e: nat, f: nat, g: nat)
    requires ForLoopLayout(t, i, a, b, c, d, e, f, g)
    ensures MatchAt(ForLoop, t, i) == Some(Hit(t[e..f], g + 2))
  {
    ForLoopHeadSteps(t, i, a, b, c, d, e, f, g);
    ForLoopTailSteps(t, i, a, b, c, d, e, f, g);
  }

  /** The head of the loop pattern, where it succeeds, is `{%`, spaces, `for`, spaces, a word and spaces. */
  lemma ForLoopHeadSound(t: string, i: nat) returns (a: nat, b: nat, c: nat)
    requires i <= |t| && ForLoopHeadEnd(t, i).Some?
    ensures var d := ForLoopHeadEnd(t, i).value;
      && i + 2 <= a && a + 3 < b < c < d <= |t|
      && t[i] == '{' && t[i + 1] == '%' && Run(Space, t, i + 2, a)
      && t[a] == 'f' && t[a + 1] == 'o' && t[a + 2] == 'r'
      && Run(Space, t, a + 3, b) && Run(Word, t, b, c) && Run(Space, t, c, d)
  {
    a := Skip(Space, t, i + 2);
    b := Skip(Space, t, a + 3);
    c := Skip(Word, t, b);
    SkipSpan(Space, t, i + 2);
    SkipSpan(Space, t, a + 3);
    SkipSpan(Word, t, b);
    SkipSpan(Space, t, c);
  }

  /** The rest of the loop pattern, where it succeeds, is `in`, spaces, then a name and `%}`. */
  lemma ForLoopTailSound(t: string, d: nat) returns (e: nat, f: nat, g: nat)
    requires d <= |t| && ForLoopTail(t, d).Some?
    ensures d + 2 < e < f <= g && g + 2 <= |t|
    ensures t[d] == 'i' && t[d + 1] == 'n' && Run(Space, t, d + 2, e)
    ensures NameSpan(ForLoop, t, e, f) && Run(Space, t, f, g) && t[g] == '%' && t[g + 1] == '}'
    ensures ForLoopTail(t, d) == Some(Hit(t[e..f], g + 2))
  {
    e := Skip(Space, t, d + 2);
    SkipSpan(Space, t, d + 2);
    f, g := ControlNameSound(ForLoop, t, e);
  }

  /** A match of the loop pattern at `i` is that layout: nothing else is matched. */
  lemma ForLoopSound(t: string, i: nat)
    requires i <= |t| && MatchAt(ForLoop, t, i).Some?
    ensures exists a: nat, b: nat, c: nat, d: nat, e: nat, f: nat, g: nat :: ForLoopLayout(t, i, a, b, c, d, e, f, g) && MatchAt(ForLoop, t, i) == Some(Hit(t[e..f], g + 2))
  {
    var d := ForLoopHeadEnd(t, i).value;
    var a, b, c := ForLoopHeadSound(t, i);
    var e, f, g := ForLoopTailSound(t, d);
    assert ForLoopLayout(t, i, a, b, c, d, e, f, g);
  }

  /**
   * `t` holds the if pattern at `i`: `{%`, spaces up to `a`, `if`, spaces up to `b`,
   * the name up to `f`, spaces up to `g`, then `%}`.
   */
  predicate IfGuardLayout(t: string, i: nat, a: nat, b: nat, f: nat, g: nat)
  {
    && i + 2 <= a && a + 2 < b < f <= g && g + 2 <= |t|
    && t[i] == '{' && t[i + 1] == '%' && Run(Space, t, i + 2, a)
    && t[a] == 'i' && t[a + 1] == 'f' && Run(Space, t, a + 2, b)
    && NameSpan(IfGuard, t, b, f) && Run(Space, t, f, g) && t[g] == '%' && t[g + 1] == '}'
  }

  /** The head of the if pattern stops at the name of the layout. */
  lemma IfGuardHeadSteps(t: string, i: nat, a: nat, b: nat, f: nat, g: nat)
    requires IfGuardLayout(t, i, a, b, f, g)
    ensures IfGuardHeadEnd(t, i) == Some(b)
  {
    SkipRun(Space, t, i + 2, a);
    SkipRun(Space, t, a + 2, b);
  }

  /** The if pattern matches at `i` of a text laid out as it says, and captures the name. */
  lemma IfGuardAt(t: string, i: nat, a: nat, b: nat, f: nat, g: nat)
    requires IfGuardLayout(t, i, a, b, f, g)
    ensures MatchAt(IfGuard, t, i) == Some(Hit(t[b..f], g + 2))
  {
    IfGuardHeadSteps(t, i, a, b, f, g);
    NameThenClose(IfGuard, t, b, f, g);
  }

  /** A match of the if pattern at `i` is that layout: nothing else is matched. */
  lemma IfGuardSound(t: string, i: nat)
    requires i <= |t| && MatchAt(IfGuard, t, i).Some?
    ensures exists a: nat, b: nat, f: nat, g: nat :: IfGuardLayout(t, i, a, b, f, g) && MatchAt(IfGuard, t, i) == Some(Hit(t[b..f], g + 2))
  {
    var b := IfGuardHeadEnd(t, i).value;
    var a := IfGuardHeadSound(t, i);
    var f, g := ControlNameSound(IfGuard, t, b);
    assert IfGuardLayout(t, i, a, b, f, g);
  }

  /** The head of the if pattern, where it succeeds, is `{%`, spaces, `if` and spaces. */
  lemma IfGuardHeadSound(t: string, i: nat) returns (a: nat)
    requires i <= |t| && IfGuardHeadEnd(t, i).Some?
    ensures var b := IfGuardHeadEnd(t, i).value;
      && i + 2 <= a && a + 2 < b <= |t|
      && t[i] == '{' && t[i + 1] == '%' && Run(Space, t, i + 2, a)
      && t[a] == 'i' && t[a + 1] == 'f' && Run(Space, t, a + 2, b)
  {
    a := Skip(Space, t, i + 2);
    SkipSpan(Space, t, i + 2);
    SkipSpan(Space, t, a + 2);
  }

  // ----- Leftmost, non-overlapping matches -----

  /** Every name found comes from a match of the pattern at some position of the text. */
  lemma {:induction false} FindAllSound(p: Pattern, t: string, i: nat)
    requires i <= |t|
    ensures forall n :: n in FindAll(p, t, i) ==>
      exists q :: i <= q < |t| && MatchAt(p, t, q).Some? && MatchAt(p, t, q).value.name == n
    decreases |t| - i
  {
    if i < |t| {
      match MatchAt(p, t, i)
      case Some(h) => FindAllSound(p, t, h.end);
      case None => FindAllSound(p, t, i + 1);
    }
  }

  /** The pattern matches at no position from `i` up to `q`, one position at a time. */
  predicate NoMatchFrom(p: Pattern, t: string, i: nat, q: nat)
    requires i <= q <= |t|
    decreases q - i
  {
    i == q || (MatchAt(p, t, i).None? && NoMatchFrom(p, t, i + 1, q))
  }

  lemma {:induction false} NoMatchFromAll(p: Pattern, t: string, i: nat, q: nat)
    requires i <= q <= |t|
    requires forall x :: i <= x < q ==> MatchAt(p, t, x).None?
    ensures NoMatchFrom(p, t, i, q)
    decreases q - i
  {
    if i < q {
      NoMatchFromAll(p, t, i + 1, q);
    }
  }

  /** Positions where the pattern does not match are passed over. */
  lemma {:induction false} FindAllSkips(p: Pattern, t: string, i: nat, q: nat)
    requires i <= q <= |t| && NoMatchFrom(p, t, i, q)
    ensures FindAll(p, t, i) == FindAll(p, t, q)
    decreases q - i
  {
    if i < q {
      FindAllSkips(p, t, i + 1, q);
      FindAllPasses(p, t, i);
    }
  }

  /** Where the pattern does not match, the search moves on one position. */
  lemma FindAllPasses(p: Pattern, t: string, i: nat)
    requires i < |t| && MatchAt(p, t, i).None?
    ensures FindAll(p, t, i) == FindAll(p, t, i + 1)
  {
  }

  /** A match at `i` is the first name found from `i`, and the search resumes where it ends. */
  lemma FindAllTakes(p: Pattern, t: string, i: nat, h: Hit)
    requires i < |t| && MatchAt(p, t, i) == Some(h)
    ensures h.end <= |t| && FindAll(p, t, i) == [h.name] + FindAll(p, t, h.end)
  {
  }

  /** The first name found is that of the leftmost match, and the search resumes where that match ends. */
  lemma FindAllLeftmost(p: Pattern, t: string, i: nat, q: nat, h: Hit)
    requires i <= q < |t| && MatchAt(p, t, q) == Some(h)
    requires forall x :: i <= x < q ==> MatchAt(p, t, x).None?
    ensures h.end <= |t| && FindAll(p, t, i) == [h.name] + FindAll(p, t, h.end)
  {
    NoMatchFromAll(p, t, i, q);
    FindAllSkips(p, t, i, q);
    FindAllTakes(p, t, q, h);
  }

  /** Where the pattern matches nowhere, nothing is found. */
  lemma FindAllNoMatch(p: Pattern, t: string, i: nat)
    requires i <= |t|
    requires forall x :: i <= x < |t| ==> MatchAt(p, t, x).None?
    ensures FindAll(p, t, i) == []
  {
    NoMatchFromAll(p, t, i, |t|);
    FindAllSkips(p, t, i, |t|);
  }

  /** A match at the start of `t` is the first name `re.findall` returns. */
  lemma ScanFirst(p: Pattern, t: string, name: string, end: nat)
    requires MatchAt(p, t, 0) == Some(Hit(name, end))
    ensures end <= |t| && Scan(p, t) == [name] + FindAll(p, t, end)
  {
  }

  /** The substitution pattern, with any spacing and an optional filter, opens `t`: its name is the first name found, and the scan resumes after `}}`. */
  lemma SubstitutionScanned(t: string, j: nat, k: nat, m: nat, f: nat)
    requires SubstitutionLayout(t, 0, j, k, m, f)
    ensures Scan(Substitution, t) == [t[j..k]] + FindAll(Substitution, t, f + 2)
  {
    SubstitutionAt(t, 0, j, k, m, f);
    ScanFirst(Substitution, t, t[j..k], f + 2);
  }

  /** The loop pattern, with any spacing its `\s*` and `\s+` admit, opens `t`: its collection is the first name found, and the scan resumes after `%}`. */
  lemma ForLoopScanned(t: string, a: nat, b: nat, c: nat, d: nat, e: nat, f: nat, g: nat)
    requires ForLoopLayout(t, 0, a, b, c, d, e, f, g)
    ensures Scan(ForLoop, t) == [t[e..f]] + FindAll(ForLoop, t, g + 2)
  {
    ForLoopAt(t, 0, a, b, c, d, e, f, g);
    ScanFirst(ForLoop, t, t[e..f], g + 2);
  }

  /** The if pattern, with any spacing its `\s*` and `\s+` admit, opens `t`: its name is the first name found, and the scan resumes after `%}`. */
  lemma IfGuardScanned(t: string, a: nat, b: nat, f: nat, g: nat)
    requires IfGuardLayout(t, 0, a, b, f, g)
    ensures Scan(IfGuard, t) == [t[b..f]] + FindAll(IfGuard, t, g + 2)
  {
    IfGuardAt(t, 0, a, b, f, g);
    ScanFirst(IfGuard, t, t[b..f], g + 2);
  }

  /** The characters of `{{name}}` followed by `rest`. */
  lemma SubstitutionText(name: string, rest: string)
    requires NameShape(Substitution, name)
    ensures var t, k := "{{" + name + "}}" + rest, 2 + |name|;
      t[2..k] == name && SubstitutionLayout(t, 0, 2, k, k, k)
  {
    var t := "{{" + name + "}}" + rest;
    var k := 2 + |name|;
    assert forall x :: 2 <= x < k ==> t[x] == name[x - 2];
    assert t[2..k] == name;
  }

  /** `{{name}}` is matched and yields `name`, whatever follows it. */
  lemma SubstitutionFound(name: string, rest: string)
    requires NameShape(Substitution, name)
    ensures var t := "{{" + name + "}}" + rest;
      Scan(Substitution, t) == [name] + FindAll(Substitution, t, |name| + 4)
  {
    SubstitutionText(name, rest);
    var k := 2 + |name|;
    SubstitutionScanned("{{" + name + "}}" + rest, 2, k, k, k);
  }

  /** The characters of `{{ name | filter }}` followed by `rest`. */
  lemma FilteredSubstitutionText(pad: string, name: string, filter: string, rest: string)
    requires forall x :: 0 <= x < |pad| ==> IsSpace(pad[x])
    requires NameShape(Substitution, name)
    requires forall x :: 0 <= x < |filter| ==> filter[x] != '}'
    ensures var t := "{{" + pad + name + pad + "|" + filter + "}}" + rest;
      var j := 2 + |pad|;
      var k := j + |name|;
      var m := k + |pad|;
      var f := m + 1 + |filter|;
      t[j..k] == name && SubstitutionLayout(t, 0, j, k, m, f)
  {
    var t := "{{" + pad + name + pad + "|" + filter + "}}" + rest;
    var j := 2 + |pad|;
    var k := j + |name|;
    var m := k + |pad|;
    var f := m + 1 + |filter|;
    assert forall x :: 2 <= x < j ==> t[x] == pad[x - 2];
    assert forall x :: j <= x < k ==> t[x] == name[x - j];
    assert forall x :: k <= x < m ==> t[x] == pad[x - k];
    var head := "{{" + pad + name + pad + "|";
    assert t == head + filter + ("}}" + rest);
    assert forall x :: m < x < f ==> t[x] == filter[x - m - 1];
    assert t[j..k] == name;
  }

  /** `{{ name | filter }}`, with the same spacing on both sides of the name, yields first `name`; the filter is skipped. */
  lemma FilteredSubstitutionFound(pad: string, name: string, filter: string, rest: string)
    requires forall x :: 0 <= x < |pad| ==> IsSpace(pad[x])
    requires NameShape(Substitution, name)
    requires forall x :: 0 <= x < |filter| ==> filter[x] != '}'
    ensures var t := "{{" + pad + name + pad + "|" + filter + "}}" + rest;
      Scan(Substitution, t) != [] && Scan(Substitution, t)[0] == name
  {
    var t := "{{" + pad + name + pad + "|" + filter + "}}" + rest;
    var j := 2 + |pad|;
    var k := j + |name|;
    var m := k + |pad|;
    var f := m + 1 + |filter|;
    FilteredSubstitutionText(pad, name, filter, rest);
    SubstitutionScanned(t, j, k, m, f);
  }

  /** The characters of `{% for item in name %}` followed by `rest`. */
  lemma ForLoopText(item: string, name: string, rest: string)
    requires item != [] && forall x :: 0 <= x < |item| ==> IsWordChar(item[x])
    requires NameShape(ForLoop, name)
    ensures var t := "{% for " + item + " in " + name + " %}" + rest;
      var c := 7 + |item|;
      var f := c + 4 + |name|;
      f + 3 <= |t| && t[c + 4..f] == name && ForLoopLayout(t, 0, 3, 7, c, c + 1, c + 4, f, f + 1)
  {
    var t := "{% for " + item + " in " + name + " %}" + rest;
    var c := 7 + |item|;
    var f := c + 4 + |name|;
    assert forall x :: 7 <= x < c ==> t[x] == item[x - 7];
    var head := "{% for " + item + " in ";
    assert t == head + name + (" %}" + rest);
    assert forall x :: c + 4 <= x < f ==> t[x] == name[x - c - 4];
    assert t[c + 4..f] == name;
  }

  /** `{% for item in name %}` yields first the collection `name`, not the loop variable `item`. */
  lemma ForLoopFound(item: string, name: string, rest: string)
    requires item != [] && forall x :: 0 <= x < |item| ==> IsWordChar(item[x])
    requires NameShape(ForLoop, name)
    ensures var t := "{% for " + item + " in " + name + " %}" + rest;
      Scan(ForLoop, t) != [] && Scan(ForLoop, t)[0] == name
  {
    var t := "{% for " + item + " in " + name + " %}" + rest;
    var c := 7 + |item|;
    var f := c + 4 + |name|;
    ForLoopText(item, name, rest);
    ForLoopScanned(t, 3, 7, c, c + 1, c + 4, f, f + 1);
  }

  /** The characters of `{% if name %}` followed by `rest`. */
  lemma IfGuardText(name: string, rest: string)
    requires NameShape(IfGuard, name)
    ensures var t, f := "{% if " + name + " %}" + rest, 6 + |name|;
      f + 3 <= |t| && t[6..f] == name && IfGuardLayout(t, 0, 3, 6, f, f + 1)
  {
    var t := "{% if " + name + " %}" + rest;
    var f := 6 + |name|;
    assert forall x :: 6 <= x < f ==> t[x] == name[x - 6];
    assert t[6..f] == name;
  }

  /** `{% if name %}` yields `name`. */
  lemma IfGuardFound(name: string, rest: string)
    requires NameShape(IfGuard, name)
    ensures var t := "{% if " + name + " %}" + rest;
      Scan(IfGuard, t) == [name] + FindAll(IfGuard, t, |name| + 9)
  {
    IfGuardText(name, rest);
    IfGuardScanned("{% if " + name + " %}" + rest, 3, 6, 6 + |name|, 7 + |name|);
  }

  /** A name in the Cyrillic alphabet is not found: the name classes are ASCII only. */
  lemma CyrillicNameIgnored()
    ensures Scan(Substitution, "{{ \U{0438}\U{043C}\U{044F} }}") == []
  {
    var t := "{{ \U{0438}\U{043C}\U{044F} }}";
    SkipRun(Space, t, 2, 3);
    assert NameEnd(DottedName, t, 3) == None;
    assert !At(t, 1, "{{");
    NoBraceNoNames(Substitution, t, 2);
  }
}
