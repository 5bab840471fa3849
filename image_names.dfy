/**
 * The names under which the capture tool saves frames, and how it reads an
 * index back out of a name: the format `{behavior}_{timestamp}_{index}.jpg`
 * and the search `re.search(r'_(\d+)\.jpg$', name)` followed by `int(...)`.
 */
module ImageNames {
  import opened Wrappers

  predicate IsDigit(c: char) { '0' <= c <= '9' }

  predicate AllDigits(s: string) { forall i :: 0 <= i < |s| ==> IsDigit(s[i]) }

  function DigitValue(c: char): nat
    requires IsDigit(c)
  {
    (c as int) - ('0' as int)
  }

  function DigitChar(d: nat): (c: char)
    requires d < 10
    ensures IsDigit(c) && DigitValue(c) == d
  {
    ('0' as int + d) as char
  }

  /** The number a run of digits denotes, as Python's `int` reads it (leading zeros allowed). */
  function DigitsValue(ds: string): nat
    requires AllDigits(ds)
  {
    if ds == [] then 0 else 10 * DigitsValue(ds[..|ds| - 1]) + DigitValue(ds[|ds| - 1])
  }

  /** Python's `str(n)` for a non-negative integer: it reads back as `n` and has no leading zero. */
  function Decimal(n: nat): (s: string)
    ensures |s| > 0 && AllDigits(s)
    ensures DigitsValue(s) == n
    ensures s[0] == '0' ==> s == "0"
  {
    if n < 10 then [DigitChar(n)]
    else
      var s := Decimal(n / 10) + [DigitChar(n % 10)];
      assert s[..|s| - 1] == Decimal(n / 10);
      s
  }

  predicate StartsWith(s: string, prefix: string)
  {
    |prefix| <= |s| && s[..|prefix|] == prefix
  }

  /** The name of the `index`-th saved frame: `f'{behavior}_{timestamp}_{index}.jpg'`. */
  function Filename(behavior: string, stamp: string, index: nat): string
  {
    behavior + "_" + stamp + "_" + Decimal(index) + ".jpg"
  }

  /** Where `$` matches: at the very end, or just before one final newline. */
  function MatchEnd(s: string): (e: nat)
    ensures e <= |s|
  {
    if |s| > 0 && s[|s| - 1] == '\n' then |s| - 1 else |s|
  }

  /** Length of the longest run of digits that ends `s`. */
  function TrailingDigits(s: string): (k: nat)
    ensures k <= |s|
  {
    if s == [] || !IsDigit(s[|s| - 1]) then 0 else TrailingDigits(s[..|s| - 1]) + 1
  }

  /** The trailing run is all digits, and it is preceded by a non-digit or the start. */
  lemma {:induction false} TrailingDigitsRun(s: string)
    ensures AllDigits(s[|s| - TrailingDigits(s)..])
    ensures TrailingDigits(s) < |s| ==> !IsDigit(s[|s| - TrailingDigits(s) - 1])
  {
    if s != [] && IsDigit(s[|s| - 1]) {
      var k := TrailingDigits(s);
      TrailingDigitsRun(s[..|s| - 1]);
      assert s[|s| - k..] == s[..|s| - 1][|s| - k..] + [s[|s| - 1]];
    }
  }

  /**
   * `re.search(r'_(\d+)\.jpg$', name)`, and `int` of the group when it
   * matches. ASCII digits only.
   */
  function SearchIndex(name: string): Option<nat>
  {
    var e := MatchEnd(name);
    if e < 4 || name[e - 4..e] != ".jpg" then None
    else
      var body := name[..e - 4];
      var k := TrailingDigits(body);
      if k == 0 || k == |body| || body[|body| - k - 1] != '_' then None
      else
        TrailingDigitsRun(body);
        Some(DigitsValue(body[|body| - k..]))
  }

  /**
   * What the pattern means, independently of how it is searched for: the name is
   * some text, `_`, one or more digits, `.jpg`, and then nothing or one newline.
   */
  predicate RegexMatch(name: string, pre: string, ds: string, tail: string)
  {
    && |ds| > 0 && AllDigits(ds)
    && (tail == "" || tail == "\n")
    && name == pre + "_" + ds + ".jpg" + tail
  }

  /** The filter `get_next_index` applies: the `{behavior}_` prefix, then the search. */
  function IndexOf(name: string, behavior: string): Option<nat>
  {
    if StartsWith(name, behavior + "_") then SearchIndex(name) else None
  }

  /** A maximal run of trailing digits preceded by a non-digit is exactly the run `ds`. */
  lemma {:induction false} TrailingDigitsOf(pre: string, ds: string)
    requires AllDigits(ds) && |pre| > 0 && !IsDigit(pre[|pre| - 1])
    ensures TrailingDigits(pre + ds) == |ds|
  {
    if ds == [] {
      assert pre + ds == pre;
    } else {
      var s := pre + ds;
      assert s[..|s| - 1] == pre + ds[..|ds| - 1];
      TrailingDigitsOf(pre, ds[..|ds| - 1]);
    }
  }

  /** Every name of the pattern's shape is found, with the value of its digits. */
  lemma SearchIndexComplete(name: string, pre: string, ds: string, tail: string)
    requires RegexMatch(name, pre, ds, tail)
    ensures SearchIndex(name) == Some(DigitsValue(ds))
  {
    var t := pre + "_" + ds + ".jpg";
    assert t[|t| - 1] == 'g';
    if tail == "\n" {
      assert name[..|name| - 1] == t;
    } else {
      assert name == t;
    }
    assert MatchEnd(name) == |t|;
    assert name[|t| - 4..|t|] == ".jpg";
    var body := name[..|t| - 4];
    assert body == (pre + "_") + ds;
    TrailingDigitsOf(pre + "_", ds);
    assert body[|body| - |ds| - 1] == '_';
    assert body[|body| - |ds|..] == ds;
  }

  /** Whatever is found comes from a name of the pattern's shape. */
  lemma SearchIndexSound(name: string)
    requires SearchIndex(name).Some?
    ensures exists pre, ds, tail :: RegexMatch(name, pre, ds, tail) && DigitsValue(ds) == SearchIndex(name).value
  {
    var e := MatchEnd(name);
    var tail := name[e..];
    assert name == name[..e] + tail;
    assert tail == "" || tail == "\n";
    var body := name[..e - 4];
    assert name[..e] == body + ".jpg";
    var k := TrailingDigits(body);
    TrailingDigitsRun(body);
    var pre := body[..|body| - k - 1];
    var ds := body[|body| - k..];
    assert body == pre + "_" + ds;
    assert RegexMatch(name, pre, ds, tail);
  }

  /**
   * Round trip: a name built for `behavior` passes the prefix filter and its
   * index reads back unchanged, whatever the timestamp text is.
   */
  lemma FilenameRoundTrip(behavior: string, stamp: string, index: nat)
    ensures StartsWith(Filename(behavior, stamp, index), behavior + "_")
    ensures IndexOf(Filename(behavior, stamp, index), behavior) == Some(index)
  {
    var name := Filename(behavior, stamp, index);
    var pre := behavior + "_" + stamp;
    assert name == pre + "_" + Decimal(index) + ".jpg" + "";
    assert name == (behavior + "_") + (stamp + "_" + Decimal(index) + ".jpg");
    assert name[..|behavior + "_"|] == behavior + "_";
    SearchIndexComplete(name, pre, Decimal(index), "");
  }

  /**
   * The `_` of the prefix also serves the search, so a name with no middle
   * part, `{behavior}_{digits}.jpg`, is counted too.
   */
  lemma ShortNameMatches(behavior: string, ds: string)
    requires |ds| > 0 && AllDigits(ds)
    ensures IndexOf(behavior + "_" + ds + ".jpg", behavior) == Some(DigitsValue(ds))
  {
    var name := behavior + "_" + ds + ".jpg";
    assert name == behavior + "_" + ds + ".jpg" + "";
    assert name == (behavior + "_") + (ds + ".jpg");
    assert name[..|behavior + "_"|] == behavior + "_";
    SearchIndexComplete(name, behavior, ds, "");
  }
}
