/**
 * The two pieces of java.lang text behaviour the classifier relies on:
 * `String.trim()` (used by DetectedObject.toString) and the decimal rendering
 * of an `int` produced by `"" + i` (used for the ids of detected objects).
 */
module JavaText {

  /** `String.trim()` removes every leading and trailing code unit at or below U+0020. */
  predicate IsTrimmable(c: char) {
    c <= ' '
  }

  /** True when neither end of `s` is a trimmable character. */
  predicate HasNoOuterWhitespace(s: string) {
    s == [] || (!IsTrimmable(s[0]) && !IsTrimmable(s[|s| - 1]))
  }

  /** Drops the leading trimmable characters of `s`. */
  function TrimStart(s: string): (r: string)
    ensures |r| <= |s|
    ensures r == [] || !IsTrimmable(r[0])
  {
    if s != [] && IsTrimmable(s[0]) then TrimStart(s[1..]) else s
  }

  /** `TrimStart(s)` is the suffix of `s` that follows a run of trimmable characters. */
  lemma {:induction false} TrimStartIsSuffix(s: string)
    ensures TrimStart(s) == s[|s| - |TrimStart(s)|..]
    ensures forall k :: 0 <= k < |s| - |TrimStart(s)| ==> IsTrimmable(s[k])
  {
    if s != [] && IsTrimmable(s[0]) {
      TrimStartIsSuffix(s[1..]);
    }
  }

  /** Drops the trailing trimmable characters of `s`. */
  function TrimEnd(s: string): (r: string)
    ensures |r| <= |s|
    ensures r == [] || !IsTrimmable(r[|r| - 1])
  {
    if s != [] && IsTrimmable(s[|s| - 1]) then TrimEnd(s[..|s| - 1]) else s
  }

  /** `TrimEnd(s)` is the prefix of `s` that precedes a run of trimmable characters. */
  lemma {:induction false} TrimEndIsPrefix(s: string)
    ensures TrimEnd(s) == s[..|TrimEnd(s)|]
    ensures forall k :: |TrimEnd(s)| <= k < |s| ==> IsTrimmable(s[k])
  {
    if s != [] && IsTrimmable(s[|s| - 1]) {
      TrimEndIsPrefix(s[..|s| - 1]);
    }
  }

  /**
   * `String.trim()`: the slice of `s` between its first and its last
   * non-trimmable character (empty when there is none).
   */
  function Trim(s: string): (r: string)
    ensures |r| <= |s|
    ensures HasNoOuterWhitespace(r)
  {
    var t := TrimStart(s);
    TrimEndKeepsStart(t);
    TrimEnd(t)
  }

  /** What `Trim` removes from either end of `s` is trimmable, and what it keeps is one slice of `s`. */
  lemma TrimIsTrimmedSlice(s: string)
    ensures IsTrimmedSlice(s, |s| - |TrimStart(s)|, Trim(s))
  {
    var t := TrimStart(s);
    var r := TrimEnd(t);
    TrimStartIsSuffix(s);
    TrimEndIsPrefix(t);
    assert r == s[|s| - |t|..][..|r|];
  }

  /** `r` is the slice of `s` starting at `lo`, and everything of `s` outside it is trimmable. */
  predicate IsTrimmedSlice(s: string, lo: int, r: string) {
    && 0 <= lo <= |s| - |r|
    && r == s[lo..lo + |r|]
    && (forall k :: 0 <= k < lo ==> IsTrimmable(s[k]))
    && (forall k :: lo + |r| <= k < |s| ==> IsTrimmable(s[k]))
  }

  /** Trimming the end never exposes a trimmable first character. */
  lemma TrimEndKeepsStart(t: string)
    requires t == [] || !IsTrimmable(t[0])
    ensures TrimEnd(t) == [] || !IsTrimmable(TrimEnd(t)[0])
  {
    var r := TrimEnd(t);
    TrimEndIsPrefix(t);
    if r != [] {
      assert r[0] == t[0];
    }
  }

  /** Trimming a string that has no outer whitespace leaves it as it is; in particular trimming is idempotent. */
  lemma {:induction false} TrimKeepsTrimmed(s: string)
    requires HasNoOuterWhitespace(s)
    ensures Trim(s) == s
  {
    assert TrimStart(s) == s;
    assert TrimEnd(s) == s;
  }

  /** Leading trimmable characters of `a + b` come from `a`, and from `b` only when `a` is all trimmable. */
  lemma {:induction false} TrimStartAppend(a: string, b: string)
    ensures TrimStart(a + b) == if TrimStart(a) == [] then TrimStart(b) else TrimStart(a) + b
  {
    if a == [] {
      assert a + b == b;
    } else {
      assert (a + b)[0] == a[0];
      if IsTrimmable(a[0]) {
        assert (a + b)[1..] == a[1..] + b;
        assert TrimStart(a + b) == TrimStart(a[1..] + b);
        assert TrimStart(a) == TrimStart(a[1..]);
        TrimStartAppend(a[1..], b);
      } else {
        assert TrimStart(a + b) == a + b;
        assert TrimStart(a) == a;
      }
    }
  }

  /** Trailing trimmable characters of `a + b` come from `b`, and from `a` only when `b` is all trimmable. */
  lemma {:induction false} TrimEndAppend(a: string, b: string)
    ensures TrimEnd(a + b) == if TrimEnd(b) == [] then TrimEnd(a) else a + TrimEnd(b)
  {
    if b == [] {
      assert a + b == a;
    } else {
      assert (a + b)[..|a + b| - 1] == a + b[..|b| - 1];
      if IsTrimmable(b[|b| - 1]) {
        TrimEndAppend(a, b[..|b| - 1]);
      }
    }
  }

  /** The decimal digit character of `d`. */
  function DigitChar(d: nat): (c: char)
    requires d < 10
    ensures '0' <= c <= '9'
  {
    ((('0' as int) + d) as char)
  }

  /** True for the characters '0'..'9'. */
  predicate IsDigit(c: char) {
    '0' <= c <= '9'
  }

  /**
   * `"" + i` for a non-negative `int` (`Integer.toString`): the shortest decimal
   * numeral of `n`, most significant digit first.
   */
  function NatToString(n: nat): (s: string)
    ensures |s| >= 1
    ensures forall k :: 0 <= k < |s| ==> IsDigit(s[k])
    ensures |s| > 1 ==> s[0] != '0'
  {
    if n < 10 then [DigitChar(n)] else NatToString(n / 10) + [DigitChar(n % 10)]
  }

  /** The value of a string of decimal digits, read most significant digit first. */
  function DecimalValue(s: string): (v: nat)
    requires forall k :: 0 <= k < |s| ==> IsDigit(s[k])
  {
    if s == [] then 0
    else
      assert IsDigit(s[|s| - 1]);
      DecimalValue(s[..|s| - 1]) * 10 + ((s[|s| - 1] as int) - ('0' as int))
  }

  /** Reading back the rendering of `n` gives `n`. */
  lemma {:induction false} DecimalRoundTrip(n: nat)
    ensures DecimalValue(NatToString(n)) == n
  {
    var s := NatToString(n);
    if n >= 10 {
      var p := NatToString(n / 10);
      assert s[..|s| - 1] == p;
      DecimalRoundTrip(n / 10);
    }
  }

  /** Distinct numbers have distinct renderings, so `"" + i` identifies `i`. */
  lemma NatToStringInjective(m: nat, n: nat)
    ensures NatToString(m) == NatToString(n) <==> m == n
  {
    if NatToString(m) == NatToString(n) {
      DecimalRoundTrip(m);
      DecimalRoundTrip(n);
    }
  }
}
