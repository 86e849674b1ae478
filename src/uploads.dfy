/**
 * The small helpers around an upload in app.py: the extension test `allowed_file`
 * (app.py:27-30), the session file name `session_{timestamp}_{filename}` built at
 * app.py:163,172 and the original file name recovered from it at app.py:206.
 */
module Uploads {
  import opened Wrappers

  // ----- allowed_file -----

  /** `filename.rsplit('.', 1)[1]`: the text after the last dot. */
  function AfterLastDot(f: string): (r: string)
    requires '.' in f
    ensures |r| < |f| && f[|f| - |r| - 1] == '.' && r == f[|f| - |r|..]
    ensures '.' !in r
  {
    if f[|f| - 1] == '.' then ""
    else
      assert '.' in f[..|f| - 1] by {
        var k :| 0 <= k < |f| && f[k] == '.';
        assert f[..|f| - 1][k] == '.';
      }
      AfterLastDot(f[..|f| - 1]) + [f[|f| - 1]]
  }

  /**
   * `str.lower` restricted to what can matter for the comparison with `"docx"`: the only
   * characters whose lower case is one of `d`, `o`, `c`, `x` are these letters and their
   * ASCII capitals, so every other character is left as it is.
   */
  function LowerAscii(c: char): char
  {
    if 'A' <= c <= 'Z' then (c as int + 32) as char else c
  }

  function Lower(s: string): (r: string)
    ensures |r| == |s| && forall i :: 0 <= i < |s| ==> r[i] == LowerAscii(s[i])
  {
    if s == [] then [] else [LowerAscii(s[0])] + Lower(s[1..])
  }

  /** `ALLOWED_EXTENSIONS = {'docx'}` (app.py:20). */
  const Extension: string := "docx"

  predicate AllowedFile(filename: string)
  {
    '.' in filename && Lower(AfterLastDot(filename)) == Extension
  }

  /** A name is allowed exactly when it ends in a dot and four characters spelling `docx` in any case. */
  lemma AllowedFileIff(f: string)
    ensures AllowedFile(f) <==> |f| >= 5 && f[|f| - 5] == '.' && Lower(f[|f| - 4..]) == Extension
  {
    if |f| >= 5 && f[|f| - 5] == '.' && Lower(f[|f| - 4..]) == Extension {
      var tail := f[|f| - 4..];
      assert '.' in f;
      var r := AfterLastDot(f);
      assert '.' !in tail by {
        forall k | 0 <= k < 4 ensures tail[k] != '.' {
          assert LowerAscii(tail[k]) == Extension[k];
        }
      }
      assert r == tail;
    }
    if AllowedFile(f) {
      var r := AfterLastDot(f);
      assert |Lower(r)| == 4;
    }
  }

  // ----- session file name -----

  /** `datetime.now()`, reduced to the fields `'%Y%m%d_%H%M%S'` prints. */
  datatype Timestamp = Timestamp(year: nat, month: nat, day: nat, hour: nat, minute: nat, second: nat)

  predicate ValidTimestamp(t: Timestamp)
  {
    1 <= t.year <= 9999 && 1 <= t.month <= 12 && 1 <= t.day <= 31
    && t.hour < 24 && t.minute < 60 && t.second < 60
  }

  function Pow10(w: nat): (r: nat)
    ensures r >= 1
  {
    if w == 0 then 1 else 10 * Pow10(w - 1)
  }

  predicate IsDigit(c: char)
  {
    '0' <= c <= '9'
  }

  /** The last `w` decimal digits of `n`, zero-padded: `%0wd`. */
  function Digits(n: nat, w: nat): (r: string)
    ensures |r| == w && forall i :: 0 <= i < w ==> IsDigit(r[i])
  {
    if w == 0 then "" else Digits(n / 10, w - 1) + [('0' as int + n % 10) as char]
  }

  /** The number a string of decimal digits spells. */
  function Value(s: string): nat
    requires forall i :: 0 <= i < |s| ==> IsDigit(s[i])
  {
    if s == [] then 0
    else
      assert IsDigit(s[|s| - 1]);
      10 * Value(s[..|s| - 1]) + (s[|s| - 1] as int - '0' as int)
  }

  /** Zero-padded printing loses nothing for numbers that fit the width. */
  lemma {:induction false} ValueDigits(n: nat, w: nat)
    requires n < Pow10(w)
    ensures Value(Digits(n, w)) == n
  {
    if w > 0 {
      ValueDigits(n / 10, w - 1);
      var d := Digits(n, w);
      assert d[..|d| - 1] == Digits(n / 10, w - 1);
    }
  }

  /** `strftime('%Y%m%d_%H%M%S')`. */
  function FormatTimestamp(t: Timestamp): (r: string)
    ensures |r| == 15 && r[8] == '_'
    ensures forall i :: 0 <= i < 15 && i != 8 ==> IsDigit(r[i])
  {
    DateDigits(t) + "_" + TimeDigits(t)
  }

  /** `%Y%m%d` */
  function DateDigits(t: Timestamp): string
  {
    Digits(t.year, 4) + Digits(t.month, 2) + Digits(t.day, 2)
  }

  /** `%H%M%S` */
  function TimeDigits(t: Timestamp): string
  {
    Digits(t.hour, 2) + Digits(t.minute, 2) + Digits(t.second, 2)
  }

  /** Reads the timestamp back from its printed form. */
  function ParseTimestamp(s: string): Timestamp
    requires |s| == 15 && forall i :: 0 <= i < 15 && i != 8 ==> IsDigit(s[i])
  {
    Timestamp(Value(s[0..4]), Value(s[4..6]), Value(s[6..8]), Value(s[9..11]), Value(s[11..13]), Value(s[13..15]))
  }

  /** Distinct moments give distinct stamps: the printed form determines the timestamp. */
  lemma ParseFormat(t: Timestamp)
    requires ValidTimestamp(t)
    ensures ParseTimestamp(FormatTimestamp(t)) == t
  {
    var s := FormatTimestamp(t);
    var date, time := DateDigits(t), TimeDigits(t);
    assert s[0..8] == date && s[9..15] == time;
    assert s[0..4] == date[0..4] == Digits(t.year, 4);
    assert s[4..6] == date[4..6] == Digits(t.month, 2);
    assert s[6..8] == date[6..8] == Digits(t.day, 2);
    assert s[9..11] == time[0..2] == Digits(t.hour, 2);
    assert s[11..13] == time[2..4] == Digits(t.minute, 2);
    assert s[13..15] == time[4..6] == Digits(t.second, 2);
    assert Pow10(2) == 100 && Pow10(4) == 10000;
    ValueDigits(t.year, 4);
    ValueDigits(t.month, 2);
    ValueDigits(t.day, 2);
    ValueDigits(t.hour, 2);
    ValueDigits(t.minute, 2);
    ValueDigits(t.second, 2);
  }

  const Prefix: string := "session_"

  /** `f"session_{timestamp}_{filename}"` (app.py:163,172); `filename` is already `secure_filename`'d. */
  function SessionFilename(t: Timestamp, filename: string): (r: string)
    ensures |r| == |Prefix| + 16 + |filename| && r[..|Prefix|] == Prefix
  {
    Prefix + FormatTimestamp(t) + "_" + filename
  }

  /** `pat` occurs in `s` starting at `i`. */
  predicate OccursAt(s: string, pat: string, i: nat)
  {
    i + |pat| <= |s| && s[i..i + |pat|] == pat
  }

  predicate Contains(s: string, pat: string)
  {
    exists i :: 0 <= i <= |s| && OccursAt(s, pat, i)
  }

  /** `s.replace(pat, '')`: every occurrence, found left to right without overlap, removed. */
  function RemoveAll(s: string, pat: string): (r: string)
    requires |pat| > 0
    ensures |r| <= |s|
    decreases |s|
  {
    if s == [] then ""
    else if OccursAt(s, pat, 0) then RemoveAll(s[|pat|..], pat)
    else [s[0]] + RemoveAll(s[1..], pat)
  }

  lemma OccursShift(s: string, pat: string, i: nat)
    requires s != []
    ensures OccursAt(s[1..], pat, i) <==> OccursAt(s, pat, i + 1)
  {
    if i + |pat| <= |s[1..]| {
      assert s[1..][i..i + |pat|] == s[i + 1..i + 1 + |pat|];
    }
  }

  /** Removing a pattern that does not occur leaves the text alone; one that does occur shortens it. */
  lemma {:induction false} RemoveAllIdentity(s: string, pat: string)
    requires |pat| > 0
    ensures RemoveAll(s, pat) == s <==> !Contains(s, pat)
    decreases |s|
  {
    if s != [] {
      if OccursAt(s, pat, 0) {
        assert Contains(s, pat);
      } else {
        RemoveAllIdentity(s[1..], pat);
        if Contains(s[1..], pat) {
          var i :| 0 <= i <= |s[1..]| && OccursAt(s[1..], pat, i);
          OccursShift(s, pat, i);
        }
        if Contains(s, pat) {
          var i :| 0 <= i <= |s| && OccursAt(s, pat, i);
          OccursShift(s, pat, i - 1);
        }
        if RemoveAll(s, pat) == s {
          assert RemoveAll(s[1..], pat) == s[1..];
        }
      }
    }
  }

  /** Text that cannot start an occurrence anywhere passes through unchanged, whatever follows it. */
  lemma {:induction false} RemoveAllSkips(a: string, b: string, pat: string)
    requires |pat| > 0 && forall i :: 0 <= i < |a| ==> a[i] != pat[0]
    ensures RemoveAll(a + b, pat) == a + RemoveAll(b, pat)
    decreases |a|
  {
    if a != [] {
      RemoveAllSkips(a[1..], b, pat);
      assert (a + b)[1..] == a[1..] + b;
      assert (a + b)[0] == a[0];
    } else {
      assert a + b == b;
    }
  }

  /** `s.find(c)` as an option. */
  function IndexOf(s: string, c: char): (r: Option<nat>)
    ensures r.Some? ==> r.value < |s| && s[r.value] == c && forall k :: 0 <= k < r.value ==> s[k] != c
    ensures r.None? ==> forall k :: 0 <= k < |s| ==> s[k] != c
  {
    if s == [] then None
    else if s[0] == c then Some(0)
    else match IndexOf(s[1..], c)
      case None => None
      case Some(i) => Some(i + 1)
  }

  /** `s.split('_', 2)[2]`: the text after the second `_`; None is the IndexError when there are fewer than two. */
  function ThirdField(s: string): Option<string>
  {
    match IndexOf(s, '_')
    case None => None
    case Some(i) =>
      match IndexOf(s[i + 1..], '_')
      case None => None
      case Some(j) => Some(s[i + 1..][j + 1..])
  }

  /** app.py:206: the original name recovered from a session file name. */
  function RecoverFilename(t: string): Option<string>
  {
    if '_' in t then ThirdField(RemoveAll(t, Prefix)) else Some(t)
  }

  lemma IndexOfAfter(a: string, b: string, c: char)
    requires forall i :: 0 <= i < |a| ==> a[i] != c
    ensures IndexOf(a + [c] + b, c) == Some(|a|)
    ensures (a + [c] + b)[|a| + 1..] == b
  {
    var s := a + [c] + b;
    assert s[|a|] == c;
  }

  /** A printed timestamp: fifteen characters, digits around one `_` at position 8. */
  predicate StampShape(stamp: string)
  {
    |stamp| == 15 && stamp[8] == '_' && forall i :: 0 <= i < 15 && i != 8 ==> IsDigit(stamp[i])
  }

  /** `replace('session_', '')` on a session file name drops the leading prefix and nothing in the stamp. */
  lemma RemovePrefixOfSession(stamp: string, filename: string)
    requires StampShape(stamp)
    ensures RemoveAll(Prefix + stamp + "_" + filename, Prefix) == stamp + "_" + RemoveAll(filename, Prefix)
  {
    var full := Prefix + stamp + "_" + filename;
    var rest := stamp + "_";
    assert OccursAt(full, Prefix, 0);
    assert full[|Prefix|..] == rest + filename;
    RemoveAllSkips(rest, filename, Prefix);
  }

  /** After the stamp, `split('_', 2)[2]` is everything that follows its `_` and the separator. */
  lemma ThirdFieldOfStamp(stamp: string, tail: string)
    requires StampShape(stamp)
    ensures ThirdField(stamp + "_" + tail) == Some(tail)
  {
    var date, time := stamp[..8], stamp[9..];
    assert stamp + "_" + tail == date + "_" + (time + "_" + tail);
    IndexOfAfter(date, time + "_" + tail, '_');
    IndexOfAfter(time, tail, '_');
  }

  /**
   * Recovering from a session file name gives the uploaded name with every `session_` removed:
   * the timestamp is digits and one `_`, so it never holds part of a `session_`.
   */
  lemma RecoverSession(t: Timestamp, filename: string)
    ensures RecoverFilename(SessionFilename(t, filename)) == Some(RemoveAll(filename, Prefix))
  {
    var stamp := FormatTimestamp(t);
    assert SessionFilename(t, filename)[|Prefix| + 8] == '_';
    RemovePrefixOfSession(stamp, filename);
    ThirdFieldOfStamp(stamp, RemoveAll(filename, Prefix));
  }

  /** The name is recovered exactly when the uploaded name does not itself contain `session_`. */
  lemma RecoverSessionRoundTrip(t: Timestamp, filename: string)
    ensures RecoverFilename(SessionFilename(t, filename)) == Some(filename) <==> !Contains(filename, Prefix)
  {
    RecoverSession(t, filename);
    RemoveAllIdentity(filename, Prefix);
  }

  /** A name holding `session_` loses it: `session_x` comes back as `x`. */
  lemma RecoverLosesSession(t: Timestamp)
    ensures RecoverFilename(SessionFilename(t, "session_x")) == Some("x")
  {
    RecoverSession(t, "session_x");
    assert OccursAt("session_x", Prefix, 0);
    assert "session_x"[|Prefix|..] == "x";
    assert RemoveAll("x", Prefix) == "x";
  }

  /** The evidently intended recovery: drop only the leading `session_` and the timestamp. */
  function RecoverFilenameIntended(t: string): Option<string>
  {
    if |t| >= |Prefix| && t[..|Prefix|] == Prefix then ThirdField(t[|Prefix|..])
    else if '_' in t then ThirdField(t)
    else Some(t)
  }

  /** It returns every uploaded name unchanged. */
  lemma RecoverIntendedRoundTrip(t: Timestamp, filename: string)
    ensures RecoverFilenameIntended(SessionFilename(t, filename)) == Some(filename)
  {
    var stamp := FormatTimestamp(t);
    var full := SessionFilename(t, filename);
    assert full[|Prefix|..] == stamp + "_" + filename;
    var date, time := stamp[..8], stamp[9..];
    assert stamp + "_" + filename == date + "_" + (time + "_" + filename);
    IndexOfAfter(date, time + "_" + filename, '_');
    IndexOfAfter(time, filename, '_');
  }
}
