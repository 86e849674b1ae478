/**
 * The pattern `(?<!\{)\{([^{}]+)\}(?!\})` that all three converters use
 * (convert_brackets.py:20, convert_brackets_v2.py:27, convert_brackets_final.py:35),
 * scanned the way `re.sub` and `re.findall` scan it: left to right, resuming after each
 * match, the lookbehind reading the original text. The scan splits a text into literal
 * characters and tags; rendering the tags back as `{x}` gives the text again, rendering them
 * as `{{name}}` gives the converted text.
 */
module SingleBrace {
  import opened Chars
  import opened Normalize

  datatype Piece = Lit(c: char) | Tag(name: string)

  predicate IsBrace(c: char)
  {
    c == '{' || c == '}'
  }

  predicate BraceFree(s: string)
  {
    forall i :: 0 <= i < |s| ==> !IsBrace(s[i])
  }

  /** How many characters `[^{}]+` consumes at the start of `s` (greedy, and nothing to give back). */
  function BraceFreeLen(s: string): (k: nat)
    ensures k <= |s| && BraceFree(s[..k]) && (k < |s| ==> IsBrace(s[k]))
  {
    if s == [] || IsBrace(s[0]) then 0
    else
      var k := BraceFreeLen(s[1..]);
      assert s[..k + 1] == [s[0]] + s[1..][..k];
      k + 1
  }

  /** `([^{}]+)\}(?!\})` matches at the start of `s`, the text right after an opening `{`. */
  predicate CloseAt(s: string)
  {
    var k := BraceFreeLen(s);
    1 <= k < |s| && s[k] == '}' && (k + 1 == |s| || s[k + 1] != '}')
  }

  /**
   * The scan. `afterOpen` says the character before `s` in the original text is `{`, which
   * the lookbehind `(?<!\{)` rejects. After a match the previous character is its `}`.
   */
  function Parse(afterOpen: bool, s: string): seq<Piece>
    decreases |s|
  {
    if s == [] then []
    else if s[0] == '{' && !afterOpen && CloseAt(s[1..]) then
      var k := BraceFreeLen(s[1..]);
      [Tag(s[1..k + 1])] + Parse(false, s[k + 2..])
    else [Lit(s[0])] + Parse(s[0] == '{', s[1..])
  }

  /** One piece as it stands: a tag is `{name}`. */
  function PieceText(p: Piece): string
  {
    match p
    case Lit(c) => [c]
    case Tag(x) => "{" + x + "}"
  }

  /** One piece after `re.sub` for version `v`: a tag `{x}` becomes `{{Rename(v, x)}}`. */
  function PieceConverted(v: Version, p: Piece): string
  {
    match p
    case Lit(c) => [c]
    case Tag(x) => "{{" + Rename(v, x) + "}}"
  }

  /** The group a piece contributes to `re.findall`. */
  function PieceNames(p: Piece): seq<string>
  {
    match p
    case Lit(_) => []
    case Tag(x) => [x]
  }

  /** The text of the pieces as they stand. */
  function Original(ps: seq<Piece>): string
  {
    if ps == [] then "" else PieceText(ps[0]) + Original(ps[1..])
  }

  /** `re.sub(pattern, ...)` for version `v`. */
  function Converted(v: Version, ps: seq<Piece>): string
  {
    if ps == [] then "" else PieceConverted(v, ps[0]) + Converted(v, ps[1..])
  }

  /** `re.findall(pattern, text)`: the group of every match, in order. */
  function TagNames(ps: seq<Piece>): seq<string>
  {
    if ps == [] then [] else PieceNames(ps[0]) + TagNames(ps[1..])
  }

  function Lits(s: string): (ps: seq<Piece>)
    ensures |ps| == |s|
  {
    if s == [] then [] else [Lit(s[0])] + Lits(s[1..])
  }

  // ----- The scan of a whole text -----

  /** `re.search(pattern, text)` finds something. */
  predicate HasTag(t: string)
  {
    TagNames(Parse(false, t)) != []
  }

  /** The new text `re.sub` produces. */
  function ConvertText(v: Version, t: string): string
  {
    Converted(v, Parse(false, t))
  }

  // ----- Concatenation -----

  lemma AppendAssoc<T>(x: seq<T>, y: seq<T>, z: seq<T>)
    ensures x + (y + z) == (x + y) + z
  {
  }

  lemma ConvertedCons(v: Version, p: Piece, ps: seq<Piece>)
    ensures Converted(v, [p] + ps) == PieceConverted(v, p) + Converted(v, ps)
  {
    assert ([p] + ps)[1..] == ps;
  }

  lemma {:induction false} ConcatConverted(v: Version, a: seq<Piece>, b: seq<Piece>)
    ensures Converted(v, a + b) == Converted(v, a) + Converted(v, b)
    decreases |a|
  {
    if a == [] {
      assert a + b == b;
    } else {
      var p, rest := a[0], a[1..];
      assert a == [p] + rest;
      AppendAssoc([p], rest, b);
      ConcatConverted(v, rest, b);
      ConvertedCons(v, p, rest + b);
      ConvertedCons(v, p, rest);
      AppendAssoc(PieceConverted(v, p), Converted(v, rest), Converted(v, b));
    }
  }


  lemma TagNamesCons(p: Piece, ps: seq<Piece>)
    ensures TagNames([p] + ps) == PieceNames(p) + TagNames(ps)
  {
    assert ([p] + ps)[1..] == ps;
  }

  lemma {:induction false} ConcatTagNames(a: seq<Piece>, b: seq<Piece>)
    ensures TagNames(a + b) == TagNames(a) + TagNames(b)
    decreases |a|
  {
    if a == [] {
      assert a + b == b;
    } else {
      var p, rest := a[0], a[1..];
      assert a == [p] + rest;
      AppendAssoc([p], rest, b);
      ConcatTagNames(rest, b);
      TagNamesCons(p, rest + b);
      TagNamesCons(p, rest);
      AppendAssoc(PieceNames(p), TagNames(rest), TagNames(b));
    }
  }


  lemma {:induction false} LitsRenderings(v: Version, s: string)
    ensures Original(Lits(s)) == s && Converted(v, Lits(s)) == s && TagNames(Lits(s)) == []
    decreases |s|
  {
    if s != [] {
      LitsRenderings(v, s[1..]);
    }
  }

  // ----- Properties of the scan -----

  lemma OriginalCons(p: Piece, ps: seq<Piece>)
    ensures Original([p] + ps) == PieceText(p) + Original(ps)
  {
    assert ([p] + ps)[1..] == ps;
  }

  /** A text opening with `{` and holding `}` at position `k + 1` is the tag text `{x}` and the rest. */
  lemma TagSplit(s: string, k: nat)
    requires k + 2 <= |s| && s[0] == '{' && s[k + 1] == '}'
    ensures s == "{" + s[1..k + 1] + "}" + s[k + 2..]
  {
    var t := "{" + s[1..k + 1] + "}" + s[k + 2..];
    assert |t| == |s|;
    forall i | 0 <= i < |s| ensures t[i] == s[i] {
      if i == 0 {
      } else if i <= k {
        assert t[i] == s[1..k + 1][i - 1];
      } else if i == k + 1 {
      } else {
        assert t[i] == s[k + 2..][i - k - 2];
      }
    }
  }

  /** The scan is a partition: outside the tags, every character is kept as it stands. */
  lemma {:induction false} ParseOriginal(b: bool, s: string)
    ensures Original(Parse(b, s)) == s
    decreases |s|
  {
    if s != [] {
      if s[0] == '{' && !b && CloseAt(s[1..]) {
        var k := BraceFreeLen(s[1..]);
        var x, rest := s[1..k + 1], s[k + 2..];
        ParseOriginal(false, rest);
        OriginalCons(Tag(x), Parse(false, rest));
        TagSplit(s, k);
      } else {
        ParseOriginal(s[0] == '{', s[1..]);
        OriginalCons(Lit(s[0]), Parse(s[0] == '{', s[1..]));
        assert s == [s[0]] + s[1..];
      }
    }
  }


  /** Every matched name is non-empty and holds no brace. */
  lemma {:induction false} TagNamesShape(b: bool, s: string)
    ensures forall x :: x in TagNames(Parse(b, s)) ==> x != [] && BraceFree(x)
    decreases |s|
  {
    if s != [] {
      if s[0] == '{' && !b && CloseAt(s[1..]) {
        var k := BraceFreeLen(s[1..]);
        TagNamesShape(false, s[k + 2..]);
        assert s[1..k + 1] == s[1..][..k];
      } else {
        TagNamesShape(s[0] == '{', s[1..]);
      }
    }
  }

  /** A brace-free run is read as literal characters, and the scan goes on after it as from a fresh start. */
  lemma {:induction false} LitsRun(b: bool, y: string, w: string)
    requires y != [] && BraceFree(y)
    ensures Parse(b, y + w) == Lits(y) + Parse(false, w)
    decreases |y|
  {
    assert (y + w)[0] == y[0];
    assert (y + w)[1..] == y[1..] + w;
    if |y| > 1 {
      LitsRun(false, y[1..], w);
    } else {
      assert y[1..] + w == w;
    }
  }

  /** After the closing `}}` of a double-brace tag the scan goes on as from a fresh start. */
  lemma ClosingPair(b: bool, w: string)
    ensures Parse(b, "}}" + w) == [Lit('}'), Lit('}')] + Parse(false, w)
  {
    var close := "}}" + w;
    assert close[1..] == "}" + w;
    assert close[1..][1..] == w;
  }

  /** An opening `{{` is read as two literal braces, the second one after a `{`. */
  lemma OpeningPair(b: bool, w: string)
    ensures Parse(b, "{{" + w) == [Lit('{'), Lit('{')] + Parse(true, w)
  {
    var open := "{{" + w;
    assert open[1..] == "{" + w;
    assert open[1..][1..] == w;
    assert BraceFreeLen(open[1..]) == 0;
  }

  /** A `{{name}}` tag is never matched: it is read as literal text. */
  lemma DoubleBracesUntouched(b: bool, y: string, w: string)
    requires BraceFree(y)
    ensures Parse(b, "{{" + y + "}}" + w) == Lits("{{" + y + "}}") + Parse(false, w)
  {
    var close := "}}" + w;
    var open, shut, names, rest := [Lit('{'), Lit('{')], [Lit('}'), Lit('}')], Lits(y), Parse(false, w);
    AppendAssoc("{{", y, close);
    AppendAssoc("{{" + y, "}}", w);
    OpeningPair(b, y + close);
    LitsConcat("{{", y);
    LitsConcat("{{" + y, "}}");
    assert Lits("{{") == open;
    assert Lits("}}") == shut;
    if y == [] {
      assert y + close == close;
      assert names == [];
      ClosingPair(true, w);
      assert open + names == open;
      AppendAssoc(open, shut, rest);
    } else {
      LitsRun(true, y, close);
      ClosingPair(false, w);
      AppendAssoc(names, shut, rest);
      AppendAssoc(open, names + shut, rest);
      AppendAssoc(open, names, shut);
    }
  }


  lemma LitsCons(c: char, w: string)
    ensures Lits([c] + w) == [Lit(c)] + Lits(w)
  {
    assert ([c] + w)[1..] == w;
  }

  lemma {:induction false} LitsConcat(a: string, b: string)
    ensures Lits(a + b) == Lits(a) + Lits(b)
    decreases |a|
  {
    if a == [] {
      assert a + b == b;
    } else {
      var c, rest := a[0], a[1..];
      assert a == [c] + rest;
      AppendAssoc([c], rest, b);
      LitsConcat(rest, b);
      LitsCons(c, rest + b);
      LitsCons(c, rest);
      AppendAssoc([Lit(c)], Lits(rest), Lits(b));
    }
  }


  /** Text with no single-brace tag is left exactly as it is. */
  lemma NoTagUnchanged(v: Version, t: string)
    requires !HasTag(t)
    ensures ConvertText(v, t) == t
  {
    NoTagsSame(v, Parse(false, t));
    ParseOriginal(false, t);
  }

  lemma {:induction false} NoTagsSame(v: Version, ps: seq<Piece>)
    requires TagNames(ps) == []
    ensures Converted(v, ps) == Original(ps)
    decreases |ps|
  {
    if ps != [] {
      NoTagsSame(v, ps[1..]);
    }
  }

  // ----- Where the pattern matches -----

  /**
   * The pattern matches at position `i` of `t` and captures `x`: a `{` not preceded by `{`,
   * the non-empty brace-free `x`, then a `}` not followed by `}`.
   */
  predicate TagAt(t: string, i: nat, x: string)
  {
    && i + |x| + 2 <= |t|
    && t[i] == '{' && (i == 0 || t[i - 1] != '{')
    && x != [] && BraceFree(x) && t[i + 1..i + 1 + |x|] == x
    && t[i + 1 + |x|] == '}'
    && (i + |x| + 2 == |t| || t[i + |x| + 2] != '}')
  }

  /** `re.search` would find a match starting at position `i` of `t`. */
  ghost predicate MatchesAt(t: string, i: nat)
  {
    exists x :: TagAt(t, i, x)
  }

  /**
   * `ps` reads `t` from position `i` to its end the way `re.sub` scans it: a tag wherever the
   * pattern matches, skipping what it matched, and a literal character wherever it does not.
   */
  ghost predicate Reads(t: string, i: nat, ps: seq<Piece>)
    decreases |ps|
  {
    if ps == [] then i == |t|
    else
      match ps[0]
      case Lit(c) => i < |t| && t[i] == c && !MatchesAt(t, i) && Reads(t, i + 1, ps[1..])
      case Tag(x) => TagAt(t, i, x) && Reads(t, i + |x| + 2, ps[1..])
  }

  /** A match at `i` is the one the scan takes: its name is the longest brace-free run after the `{`. */
  lemma TagAtClose(t: string, i: nat, x: string)
    requires TagAt(t, i, x)
    ensures CloseAt(t[i + 1..]) && BraceFreeLen(t[i + 1..]) == |x|
  {
    var s := t[i + 1..];
    assert s == x + s[|x|..];
    BraceFreeLenConcat(x, s[|x|..]);
  }

  /** Where the scan takes a tag at position `i`, the pattern matches there with that group. */
  lemma TagStep(t: string, i: nat, k: nat)
    requires i < |t| && t[i] == '{' && !(i > 0 && t[i - 1] == '{') && CloseAt(t[i + 1..])
    requires k == BraceFreeLen(t[i + 1..])
    ensures i + k + 2 <= |t| && TagAt(t, i, t[i + 1..i + 1 + k])
    ensures Parse(false, t[i..]) == [Tag(t[i + 1..i + 1 + k])] + Parse(false, t[i + k + 2..])
  {
    var u := t[i + 1..];
    assert u[..k] == t[i + 1..i + 1 + k];
    assert u[k] == t[i + 1 + k];
    if i + k + 2 < |t| {
      assert u[k + 1] == t[i + k + 2];
    }
    TagStepParse(t, i, k);
  }

  /** The scan from a position where it takes a tag: the tag, then the scan after its `}`. */
  lemma TagStepParse(t: string, i: nat, k: nat)
    requires i < |t| && t[i] == '{' && CloseAt(t[i + 1..])
    requires k == BraceFreeLen(t[i + 1..])
    ensures i + k + 2 <= |t|
    ensures Parse(false, t[i..]) == [Tag(t[i + 1..i + 1 + k])] + Parse(false, t[i + k + 2..])
  {
    var s := t[i..];
    assert s[1..] == t[i + 1..];
    assert s[1..k + 1] == t[i + 1..i + 1 + k];
    assert s[k + 2..] == t[i + k + 2..];
  }

  /** Where the scan takes a literal character at position `i`, the pattern does not match there. */
  lemma LitStep(t: string, i: nat, b: bool)
    requires i < |t| && b == (i > 0 && t[i - 1] == '{')
    requires !(t[i] == '{' && !b && CloseAt(t[i + 1..]))
    ensures !MatchesAt(t, i)
    ensures Parse(b, t[i..]) == [Lit(t[i])] + Parse(t[i] == '{', t[i + 1..])
  {
    if MatchesAt(t, i) {
      var x :| TagAt(t, i, x);
      TagAtClose(t, i, x);
    }
    assert t[i..][1..] == t[i + 1..];
  }

  /** A match of length `k + 2` at `i`, followed by a reading of the rest, reads `t` from `i`. */
  lemma ReadsTag(t: string, i: nat, k: nat, rest: seq<Piece>)
    requires i + k + 2 <= |t| && TagAt(t, i, t[i + 1..i + 1 + k]) && Reads(t, i + k + 2, rest)
    ensures Reads(t, i, [Tag(t[i + 1..i + 1 + k])] + rest)
  {
    assert ([Tag(t[i + 1..i + 1 + k])] + rest)[1..] == rest;
  }

  /** A character where the pattern does not match, followed by a reading of the rest, reads `t` from `i`. */
  lemma ReadsLit(t: string, i: nat, rest: seq<Piece>)
    requires i < |t| && !MatchesAt(t, i) && Reads(t, i + 1, rest)
    ensures Reads(t, i, [Lit(t[i])] + rest)
  {
    assert ([Lit(t[i])] + rest)[1..] == rest;
  }

  /** Where the scan takes a tag at `i`, and the scan after it reads the rest, the scan reads `t` from `i`. */
  lemma ReadsAtTag(t: string, i: nat, k: nat)
    requires i < |t| && t[i] == '{' && !(i > 0 && t[i - 1] == '{') && CloseAt(t[i + 1..])
    requires k == BraceFreeLen(t[i + 1..])
    requires i + k + 2 <= |t| && Reads(t, i + k + 2, Parse(false, t[i + k + 2..]))
    ensures Reads(t, i, Parse(false, t[i..]))
  {
    TagStep(t, i, k);
    ReadsTag(t, i, k, Parse(false, t[i + k + 2..]));
  }

  /** The scan from position `i`, with the lookbehind flag `b` reading the character before it, reads the rest of `t`. */
  lemma {:induction false} ParseReads(t: string, i: nat, b: bool)
    requires i <= |t| && b == (i > 0 && t[i - 1] == '{')
    ensures Reads(t, i, Parse(b, t[i..]))
    decreases |t| - i
  {
    if i == |t| {
      assert t[i..] == [];
    } else if t[i] == '{' && !b && CloseAt(t[i + 1..]) {
      var k := BraceFreeLen(t[i + 1..]);
      ParseReads(t, i + k + 2, false);
      ReadsAtTag(t, i, k);
    } else {
      LitStep(t, i, b);
      ParseReads(t, i + 1, t[i] == '{');
      ReadsLit(t, i, Parse(t[i] == '{', t[i + 1..]));
    }
  }

  /** Only one sequence of pieces reads a text. */
  lemma {:induction false} ReadsUnique(t: string, i: nat, ps: seq<Piece>, qs: seq<Piece>)
    requires Reads(t, i, ps) && Reads(t, i, qs)
    ensures ps == qs
    decreases |ps|
  {
    if ps != [] && qs != [] {
      match ps[0]
      case Lit(c) =>
        ReadsUnique(t, i + 1, ps[1..], qs[1..]);
      case Tag(x) =>
        var y := qs[0].name;
        TagAtClose(t, i, x);
        TagAtClose(t, i, y);
        ReadsUnique(t, i + |x| + 2, ps[1..], qs[1..]);
    }
  }

  /**
   * The scan is exactly `re.sub`'s reading of the text: the pieces it returns read `t`, and
   * any pieces that read `t` are the ones it returns.
   */
  lemma ParseIsTheReading(t: string, ps: seq<Piece>)
    ensures Reads(t, 0, ps) <==> ps == Parse(false, t)
  {
    ParseReads(t, 0, false);
    assert t[0..] == t;
    if Reads(t, 0, ps) {
      ReadsUnique(t, 0, ps, Parse(false, t));
    }
  }

  /** A `{x}` tag at the start of the text, with a brace-free `x` and no `}` after it, is matched. */
  lemma TagMatched(x: string, w: string)
    requires x != [] && BraceFree(x) && (w == [] || w[0] != '}')
    ensures Parse(false, "{" + x + "}" + w) == [Tag(x)] + Parse(false, w)
  {
    var s := "{" + x + "}" + w;
    assert s[1..] == x + ("}" + w);
    BraceFreeLenConcat(x, "}" + w);
    assert s[1..][|x|] == '}';
    if w != [] {
      assert s[1..][|x| + 1] == w[0];
    }
    assert s[1..|x| + 1] == x;
    assert s[|x| + 2..] == w;
  }

  /** Each such `{x}` becomes `{{name}}` with the name of its version, and `findall` reports `x`. */
  lemma TagConverted(v: Version, x: string, w: string)
    requires x != [] && BraceFree(x) && (w == [] || w[0] != '}')
    ensures ConvertText(v, "{" + x + "}" + w) == "{{" + Rename(v, x) + "}}" + ConvertText(v, w)
    ensures TagNames(Parse(false, "{" + x + "}" + w)) == [x] + TagNames(Parse(false, w))
  {
    TagMatched(x, w);
    ConvertedCons(v, Tag(x), Parse(false, w));
    TagNamesCons(Tag(x), Parse(false, w));
  }

  // ----- Idempotence -----

  lemma RenameBraceFree(v: Version, x: string)
    requires BraceFree(x)
    ensures BraceFree(Rename(v, x))
  {
    var r := Rename(v, x);
    forall i | 0 <= i < |r| ensures !IsBrace(r[i]) {
      assert r[i] in r;
    }
  }

  /** The first character of a converted text starting with a brace is that brace. */
  lemma ConvertedStartsWithBrace(v: Version, b: bool, w: string)
    requires w != [] && IsBrace(w[0])
    ensures Converted(v, Parse(b, w)) != [] && Converted(v, Parse(b, w))[0] == w[0]
  {
  }

  lemma {:induction false} BraceFreeLenConcat(y: string, w: string)
    requires BraceFree(y) && (w == [] || IsBrace(w[0]))
    ensures BraceFreeLen(y + w) == |y|
    decreases |y|
  {
    if y == [] {
      assert y + w == w;
    } else {
      BraceFreeLenConcat(y[1..], w);
      assert (y + w)[0] == y[0];
      assert (y + w)[1..] == y[1..] + w;
    }
  }

  /** An opening `{` the pattern rejected is still rejected in the converted text. */
  lemma NoCloseStays(v: Version, w: string)
    requires !CloseAt(w)
    ensures !CloseAt(Converted(v, Parse(true, w)))
  {
    var k := BraceFreeLen(w);
    if k >= 1 {
      var y, rest := w[..k], w[k..];
      assert w == y + rest;
      LitsRun(true, y, rest);
      var tail := Converted(v, Parse(false, rest));
      ConcatConverted(v, Lits(y), Parse(false, rest));
      LitsRenderings(v, y);
      var out := y + tail;
      assert Converted(v, Parse(true, w)) == out;
      if rest != [] {
        ConvertedStartsWithBrace(v, false, rest);
        BraceFreeLenConcat(y, tail);
        if rest[0] == '}' {
          assert |rest| > 1 && rest[1] == '}';
          assert rest[1..][0] == '}';
          assert Parse(false, rest) == [Lit('}'), Lit('}')] + Parse(false, rest[1..][1..]);
          assert out[k + 1] == tail[1] == '}';
        }
      } else {
        assert out == y;
        BraceFreeLenConcat(y, []);
        assert y + [] == y;
      }
    }
  }

  /** Converting the converted text again finds nothing: the scan as the source starts it, from any position. */
  lemma {:induction false} ConvertedHasNoTag(v: Version, b: bool, s: string)
    ensures TagNames(Parse(b, Converted(v, Parse(b, s)))) == []
    decreases |s|
  {
    if s != [] {
      if s[0] == '{' && !b && CloseAt(s[1..]) {
        var k := BraceFreeLen(s[1..]);
        var x := s[1..k + 1];
        assert x == s[1..][..k];
        var rest := s[k + 2..];
        ConvertedHasNoTag(v, false, rest);
        var y := Rename(v, x);
        RenameBraceFree(v, x);
        var w := Converted(v, Parse(false, rest));
        assert Converted(v, Parse(b, s)) == "{{" + y + "}}" + w;
        DoubleBracesUntouched(b, y, w);
        ConcatTagNames(Lits("{{" + y + "}}"), Parse(false, w));
        LitsRenderings(v, "{{" + y + "}}");
      } else {
        var c := s[0];
        ConvertedHasNoTag(v, c == '{', s[1..]);
        var w := Converted(v, Parse(c == '{', s[1..]));
        assert Converted(v, Parse(b, s)) == [c] + w;
        var out := [c] + w;
        assert out[0] == c && out[1..] == w;
        if c == '{' && !b {
          NoCloseStays(v, s[1..]);
        }
      }
    }
  }

  /** Running a converter over its own output changes nothing: `process_paragraph` then returns False. */
  lemma ConvertIdempotent(v: Version, t: string)
    ensures !HasTag(ConvertText(v, t))
  {
    ConvertedHasNoTag(v, false, t);
  }
}
