/**
 * The few java.lang operations the modelled classes rely on: String.trim, an ASCII
 * String.toLowerCase, substring search (indexOf / lastIndexOf / startsWith) and
 * Integer.parseInt, together with Integer.toString as the reference parseInt inverts.
 */
module JavaStrings {
  import opened Wrappers

  // ---------------------------------------------------------------- trim

  /** `String.trim` strips every character whose code is at most U+0020. */
  predicate IsBlank(s: string) {
    forall i :: 0 <= i < |s| ==> s[i] <= ' '
  }

  /** The first index at or after `st` holding a character above U+0020 (the first loop of trim). */
  function TrimStart(s: string, st: nat): (r: nat)
    requires st <= |s|
    ensures st <= r <= |s|
    ensures forall i :: st <= i < r ==> s[i] <= ' '
    ensures r < |s| ==> s[r] > ' '
    decreases |s| - st
  {
    if st < |s| && s[st] <= ' ' then TrimStart(s, st + 1) else st
  }

  /** The end of the text once trailing characters up to U+0020 are dropped (the second loop of trim). */
  function TrimEnd(s: string, st: nat, len: nat): (r: nat)
    requires st <= len <= |s|
    ensures st <= r <= len
    ensures forall i :: r <= i < len ==> s[i] <= ' '
    ensures st < r ==> s[r - 1] > ' '
  {
    if st < len && s[len - 1] <= ' ' then TrimEnd(s, st, len - 1) else len
  }

  /**
   * `String.trim`: what is left of `s` once its blank prefix and blank suffix are dropped;
   * it is empty exactly when `s` is blank, and otherwise starts and ends above U+0020.
   */
  function Trim(s: string): (r: string)
    ensures r == [] <==> IsBlank(s)
    ensures r != [] ==> r[0] > ' ' && r[|r| - 1] > ' '
    ensures exists i, j :: 0 <= i <= j <= |s| && r == s[i..j] && IsBlank(s[..i]) && IsBlank(s[j..])
  {
    var st := TrimStart(s, 0);
    var len := TrimEnd(s, st, |s|);
    assert IsBlank(s[..st]) by {
      forall i | 0 <= i < |s[..st]| ensures s[..st][i] <= ' ' { assert s[..st][i] == s[i]; }
    }
    assert IsBlank(s[len..]) by {
      forall i | 0 <= i < |s[len..]| ensures s[len..][i] <= ' ' { assert s[len..][i] == s[len + i]; }
    }
    assert st == len ==> IsBlank(s) by {
      if st == len {
        forall i | 0 <= i < |s| ensures s[i] <= ' ' { }
      }
    }
    s[st..len]
  }

  /** Trimming is idempotent. */
  lemma TrimIdempotent(s: string)
    ensures Trim(Trim(s)) == Trim(s)
  {
    var t := Trim(s);
    if t != [] {
      assert TrimStart(t, 0) == 0;
      assert TrimEnd(t, 0, |t|) == |t|;
      assert t[0..|t|] == t;
    }
  }

  /** TrimStart is determined by its contract. */
  lemma TrimStartIs(s: string, st: nat, r: nat)
    requires st <= r <= |s|
    requires forall i :: st <= i < r ==> s[i] <= ' '
    requires r < |s| ==> s[r] > ' '
    ensures TrimStart(s, st) == r
  {
  }

  /** TrimEnd is determined by its contract. */
  lemma TrimEndIs(s: string, st: nat, len: nat, r: nat)
    requires st <= r <= len <= |s|
    requires forall i :: r <= i < len ==> s[i] <= ' '
    requires st < r ==> s[r - 1] > ' '
    ensures TrimEnd(s, st, len) == r
  {
  }

  /** Trim is determined by where its blank prefix ends and its blank suffix starts. */
  lemma TrimIs(s: string, st: nat, len: nat)
    requires st <= len <= |s|
    requires forall i :: 0 <= i < st ==> s[i] <= ' '
    requires st < |s| ==> s[st] > ' '
    requires forall i :: len <= i < |s| ==> s[i] <= ' '
    requires st < len ==> s[len - 1] > ' '
    ensures Trim(s) == s[st..len]
  {
    TrimStartIs(s, 0, st);
    TrimEndIs(s, st, |s|, len);
  }

  /** A text made of two blank texts is blank. */
  lemma BlankConcat(a: string, b: string)
    requires IsBlank(a) && IsBlank(b)
    ensures IsBlank(a + b)
  {
    var u := a + b;
    forall i | 0 <= i < |u| ensures u[i] <= ' ' {
      if i < |a| { assert u[i] == a[i]; } else { assert u[i] == b[i - |a|]; }
    }
  }

  /** The characters of a + b in [lo, hi) are blank when those of a and b there are. */
  lemma BlankRangeOfConcat(a: string, b: string, lo: nat, hi: nat)
    requires lo <= hi <= |a| + |b|
    requires forall i :: lo <= i < hi && i < |a| ==> a[i] <= ' '
    requires forall i :: lo <= i + |a| < hi && 0 <= i < |b| ==> b[i] <= ' '
    ensures forall i :: lo <= i < hi ==> (a + b)[i] <= ' '
  {
    var u := a + b;
    forall i | lo <= i < hi ensures u[i] <= ' ' {
      if i < |a| { assert u[i] == a[i]; } else { assert u[i] == b[i - |a|]; }
    }
  }

  /** Trimming a text with blank padding in front gives what lies between the text's blank ends. */
  lemma TrimOfLeadingPadded(w: string, x: string, st: nat, len: nat)
    requires IsBlank(w)
    requires st < len <= |x|
    requires forall i :: 0 <= i < st ==> x[i] <= ' '
    requires x[st] > ' '
    requires forall i :: len <= i < |x| ==> x[i] <= ' '
    requires x[len - 1] > ' '
    ensures Trim(w + x) == x[st..len]
  {
    var u := w + x;
    BlankRangeOfConcat(w, x, 0, |w| + st);
    assert u[|w| + st] == x[st];
    BlankRangeOfConcat(w, x, |w| + len, |u|);
    assert u[|w| + len - 1] == x[len - 1];
    TrimIs(u, |w| + st, |w| + len);
    SliceShift(w, x, st, len);
  }

  /** Characters up to U+0020 put before a text do not change what trim returns. */
  lemma TrimIgnoresLeadingPadding(w: string, x: string)
    requires IsBlank(w)
    ensures Trim(w + x) == Trim(x)
  {
    if IsBlank(x) {
      BlankConcat(w, x);
    } else {
      var st := TrimStart(x, 0);
      var len := TrimEnd(x, st, |x|);
      TrimOfLeadingPadded(w, x, st, len);
    }
  }

  /** Characters up to U+0020 put after a text do not change what trim returns. */
  lemma TrimIgnoresTrailingPadding(x: string, w: string)
    requires IsBlank(w)
    ensures Trim(x + w) == Trim(x)
  {
    var u := x + w;
    if IsBlank(x) {
      BlankConcat(x, w);
    } else {
      var st := TrimStart(x, 0);
      var len := TrimEnd(x, st, |x|);
      BlankRangeOfConcat(x, w, 0, st);
      assert u[st] == x[st];
      BlankRangeOfConcat(x, w, len, |u|);
      assert u[len - 1] == x[len - 1];
      TrimIs(u, st, len);
      SliceOfConcatLeft(x, w, st, len);
    }
  }

  /** Characters up to U+0020 added before or after a text do not change what trim returns. */
  lemma TrimIgnoresPadding(w1: string, s: string, w2: string)
    requires IsBlank(w1) && IsBlank(w2)
    ensures Trim(w1 + s + w2) == Trim(s)
  {
    TrimIgnoresLeadingPadding(w1, s);
    TrimIgnoresTrailingPadding(w1 + s, w2);
  }

  // ---------------------------------------------------------------- toLowerCase

  /** `Character.toLowerCase` restricted to ASCII: only 'A'..'Z' change. */
  function LowerChar(c: char): (r: char)
    ensures 'A' <= c <= 'Z' ==> 'a' <= r <= 'z'
    ensures !('A' <= c <= 'Z') ==> r == c
  {
    if 'A' <= c <= 'Z' then (c as int + 32) as char else c
  }

  /** `String.toLowerCase` on ASCII text: same length, every character lowered. */
  function ToLower(s: string): (r: string)
    ensures |r| == |s|
    ensures forall i :: 0 <= i < |s| ==> r[i] == LowerChar(s[i])
  {
    seq(|s|, i requires 0 <= i < |s| => LowerChar(s[i]))
  }

  /** Lowering commutes with taking a slice. */
  lemma ToLowerSlice(s: string, i: nat, j: nat)
    requires i <= j <= |s|
    ensures ToLower(s[i..j]) == ToLower(s)[i..j]
  {
    var l, r := ToLower(s[i..j]), ToLower(s)[i..j];
    forall k | 0 <= k < j - i ensures l[k] == r[k] {
      assert s[i..j][k] == s[i + k];
    }
  }

  // ---------------------------------------------------------------- search

  /** `pat` occurs in `s` starting at index `i`. */
  predicate OccursAt(s: string, pat: string, i: int) {
    0 <= i && i + |pat| <= |s| && s[i..i + |pat|] == pat
  }

  /** `s.indexOf(pat) >= 0`, which is also what `Matcher.find` decides for a literal pattern. */
  predicate Contains(s: string, pat: string) {
    exists i :: 0 <= i <= |s| && OccursAt(s, pat, i)
  }

  /** `s.startsWith(pre)`. */
  predicate StartsWith(s: string, pre: string) {
    OccursAt(s, pre, 0)
  }

  /** `s.endsWith(suf)`. */
  predicate EndsWith(s: string, suf: string) {
    OccursAt(s, suf, |s| - |suf|)
  }

  /** The largest start index not above `i` at which `pat` occurs, or -1. */
  function LastIndexFrom(s: string, pat: string, i: int): (r: int)
    ensures r == -1 || (0 <= r <= i && OccursAt(s, pat, r))
    ensures forall j :: r < j <= i ==> !OccursAt(s, pat, j)
    decreases i + 1
  {
    if i < 0 then -1 else if OccursAt(s, pat, i) then i else LastIndexFrom(s, pat, i - 1)
  }

  /** `s.lastIndexOf(pat)`: the last start index of `pat` in `s`, or -1 when there is none. */
  function LastIndexOf(s: string, pat: string): (r: int)
    ensures r == -1 <==> !Contains(s, pat)
    ensures r != -1 ==> OccursAt(s, pat, r) && forall j :: r < j <= |s| ==> !OccursAt(s, pat, j)
  {
    LastIndexFrom(s, pat, |s| - |pat|)
  }

  // ---------------------------------------------------------------- Integer.parseInt

  const MinInt: int := -0x8000_0000
  const MaxInt: int := 0x7fff_ffff

  predicate IsDigit(c: char) {
    '0' <= c <= '9'
  }

  predicate AllDigits(s: string) {
    forall i :: 0 <= i < |s| ==> IsDigit(s[i])
  }

  /** The value of a string of decimal digits, most significant first. */
  function DigitsValue(ds: string): nat
    requires AllDigits(ds)
  {
    if ds == [] then 0 else DigitsValue(ds[..|ds| - 1]) * 10 + (ds[|ds| - 1] as int - '0' as int)
  }

  /** The syntax Integer.parseInt accepts: an optional sign, then at least one digit. */
  predicate IsIntegerSyntax(s: string) {
    if |s| > 0 && (s[0] == '-' || s[0] == '+') then |s| > 1 && AllDigits(s[1..])
    else |s| > 0 && AllDigits(s)
  }

  /**
   * `Integer.parseInt(s)` with radix 10: a value when the text is an optional sign and
   * decimal digits denoting a 32-bit integer, None where Java throws NumberFormatException.
   */
  function ParseInt(s: string): (r: Option<int>)
    ensures r.Some? ==> IsIntegerSyntax(s) && MinInt <= r.value <= MaxInt && r.value == SignedValue(s)
    ensures IsIntegerSyntax(s) ==> (r.None? <==> MinInt > SignedValue(s) || SignedValue(s) > MaxInt)
  {
    if !IsIntegerSyntax(s) then None
    else
      var v := SignedValue(s);
      if MinInt <= v <= MaxInt then Some(v) else None
  }

  /** The signed value of a text in Integer.parseInt syntax, before the range check. */
  function SignedValue(s: string): int
    requires IsIntegerSyntax(s)
  {
    if s[0] == '-' then -(DigitsValue(s[1..]) as int)
    else if s[0] == '+' then DigitsValue(s[1..])
    else DigitsValue(s)
  }

  /** `Integer.toString` of a natural number. */
  function NatString(n: nat): (r: string)
    ensures |r| > 0 && AllDigits(r)
  {
    var d := [('0' as int + n % 10) as char];
    if n < 10 then d else NatString(n / 10) + d
  }

  /** `Integer.toString`. */
  function IntString(n: int): string {
    if n < 0 then "-" + NatString(-n) else NatString(n)
  }

  lemma {:induction false} NatStringValue(n: nat)
    ensures DigitsValue(NatString(n)) == n
  {
    var r := NatString(n);
    if n >= 10 {
      NatStringValue(n / 10);
      assert r[..|r| - 1] == NatString(n / 10);
    }
  }

  /** parseInt inverts toString on every 32-bit integer. */
  lemma ParseIntString(n: int)
    requires MinInt <= n <= MaxInt
    ensures ParseInt(IntString(n)) == Some(n)
  {
    var s := IntString(n);
    if n < 0 {
      NatStringValue(-n);
      assert s[1..] == NatString(-n);
    } else {
      NatStringValue(n);
    }
  }
}
