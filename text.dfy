/**
  * String helpers shared by the model: decimal digit strings (what Python's
  * `float()` reads from a plain digit string), Python's clamped slicing, and
  * the two `os.path` functions the importers use, `basename` and `splitext`.
  */
module Text {

  predicate IsDigit(c: char) { '0' <= c <= '9' }

  predicate AllDigits(s: string) { forall i :: 0 <= i < |s| ==> IsDigit(s[i]) }

  /** The number a digit string spells, leading zeros included; the empty string spells 0. */
  function DigitsValue(s: string): nat
    requires AllDigits(s)
  {
    if s == [] then 0 else DigitsValue(s[..|s| - 1]) * 10 + (s[|s| - 1] as int - '0' as int)
  }

  function DigitChar(d: nat): (c: char)
    requires d < 10
    ensures IsDigit(c) && c as int - '0' as int == d
  {
    ('0' as int + d) as char
  }

  /** The shortest decimal spelling of `n`. */
  function Decimal(n: nat): (s: string)
    ensures 1 <= |s| && AllDigits(s)
  {
    if n < 10 then [DigitChar(n)] else Decimal(n / 10) + [DigitChar(n % 10)]
  }

  function Zeros(k: nat): (s: string)
    ensures |s| == k && AllDigits(s)
  {
    if k == 0 then "" else Zeros(k - 1) + "0"
  }

  /** `n` in decimal, left-padded with zeros to at least `width` digits (as in `N05E010`). */
  function Padded(n: nat, width: nat): (s: string)
    ensures AllDigits(s) && 1 <= |s| && width <= |s|
  {
    var d := Decimal(n);
    if |d| >= width then d else Zeros(width - |d|) + d
  }

  lemma {:induction false} DecimalValue(n: nat)
    ensures DigitsValue(Decimal(n)) == n
  {
    if n >= 10 {
      var d := Decimal(n / 10);
      var s := d + [DigitChar(n % 10)];
      assert s[..|s| - 1] == d;
      DecimalValue(n / 10);
    }
  }

  lemma {:induction false} ZerosSpellZero(k: nat)
    ensures DigitsValue(Zeros(k)) == 0
  {
    if k > 0 {
      assert Zeros(k)[..k - 1] == Zeros(k - 1);
      ZerosSpellZero(k - 1);
    }
  }

  lemma {:induction false} ZerosValue(k: nat, s: string)
    requires AllDigits(s)
    ensures AllDigits(Zeros(k) + s)
    ensures DigitsValue(Zeros(k) + s) == DigitsValue(s)
  {
    var t := Zeros(k) + s;
    assert AllDigits(t) by {
      assert forall i :: 0 <= i < |t| ==> t[i] == if i < k then Zeros(k)[i] else s[i - k];
    }
    if s == [] {
      assert t == Zeros(k);
      ZerosSpellZero(k);
    } else {
      var init := s[..|s| - 1];
      assert t[..|t| - 1] == Zeros(k) + init;
      assert t[|t| - 1] == s[|s| - 1];
      ZerosValue(k, init);
    }
  }

  /** Reading back a padded number gives the number: the parsers below invert `Padded`. */
  lemma PaddedValue(n: nat, width: nat)
    ensures DigitsValue(Padded(n, width)) == n
  {
    DecimalValue(n);
    var d := Decimal(n);
    if |d| < width {
      ZerosValue(width - |d|, d);
    }
  }

  /** Length of the longest prefix of `s` whose characters all satisfy `p` (a greedy `[...]*`). */
  function Span(s: string, p: char -> bool): (n: nat)
    ensures n <= |s|
    ensures forall i :: 0 <= i < n ==> p(s[i])
    ensures n < |s| ==> !p(s[n])
  {
    if s == [] || !p(s[0]) then 0 else 1 + Span(s[1..], p)
  }

  /** A greedy run stops exactly where its characters stop satisfying `p`. */
  lemma {:induction false} SpanPrefix(s: string, t: string, p: char -> bool)
    requires forall i :: 0 <= i < |s| ==> p(s[i])
    requires t == [] || !p(t[0])
    ensures Span(s + t, p) == |s|
  {
    if s != [] {
      assert (s + t)[1..] == s[1..] + t;
      SpanPrefix(s[1..], t, p);
    } else {
      assert s + t == t;
    }
  }

  /** Python's `s[i:j]` for non-negative bounds: both ends are clamped to the length. */
  function Slice(s: string, i: nat, j: nat): (r: string)
    ensures |r| <= |s|
    ensures i <= j <= |s| ==> r == s[i..j]
    ensures j <= i || |s| <= i ==> r == ""
  {
    var a := if i < |s| then i else |s|;
    var b := if j < |s| then j else |s|;
    if a <= b then s[a..b] else ""
  }

  /** Index of the last occurrence of `c` in `s`, or -1 (Python's `str.rfind`). */
  function RFind(s: string, c: char): (k: int)
    ensures -1 <= k < |s|
    ensures 0 <= k ==> s[k] == c
    ensures forall j :: k < j < |s| ==> s[j] != c
  {
    if s == [] then -1 else if s[|s| - 1] == c then |s| - 1 else RFind(s[..|s| - 1], c)
  }

  /** `os.path.basename`: what follows the last '/'. */
  function Basename(p: string): (b: string)
    ensures '/' !in b
    ensures exists k :: 0 <= k <= |p| && p[k..] == b
  {
    var k := RFind(p, '/') + 1;
    assert forall j :: 0 <= j < |p[k..]| ==> p[k..][j] == p[k + j];
    p[k..]
  }

  /**
    * `os.path.splitext` (POSIX): the extension starts at the last '.', provided
    * that dot lies after the last '/' and some character other than '.' comes
    * between that '/' and the dot; otherwise there is no extension.
    */
  function SplitExt(p: string): (r: (string, string))
    ensures r.0 + r.1 == p
    ensures r.1 == "" || (r.1[0] == '.' && '.' !in r.1[1..] && '/' !in r.1)
  {
    var sep := RFind(p, '/');
    var dot := RFind(p, '.');
    if dot > sep && exists k | sep + 1 <= k < dot :: p[k] != '.' then
      assert forall j :: 1 <= j < |p[dot..]| ==> p[dot..][j] == p[dot + j];
      assert forall j :: 0 <= j < |p[dot..]| ==> p[dot..][j] == p[dot + j];
      (p[..dot], p[dot..])
    else
      (p, "")
  }

  lemma {:induction false} RFindAppend(s: string, t: string, c: char)
    requires c !in t
    ensures RFind(s + t, c) == RFind(s, c)
  {
    if t != [] {
      var u := s + t;
      assert u[..|u| - 1] == s + t[..|t| - 1];
      RFindAppend(s, t[..|t| - 1], c);
    } else {
      assert s + t == s;
    }
  }

  /**
    * Splitting `stem + ext`, where `ext` is a dot followed by no dot and no
    * '/', gives back `stem` and `ext` whenever the last path component of
    * `stem` holds a character other than '.' (`N00E010.hgt.zip` gives
    * `N00E010.hgt` and `.zip`).
    */
  lemma SplitExtOfExtension(stem: string, ext: string)
    requires |ext| >= 1 && ext[0] == '.' && '.' !in ext[1..] && '/' !in ext
    requires exists k :: RFind(stem, '/') < k < |stem| && stem[k] != '.'
    ensures SplitExt(stem + ext) == (stem, ext)
  {
    var p := stem + ext;
    var k :| RFind(stem, '/') < k < |stem| && stem[k] != '.';
    RFindAppend(stem, ext, '/');
    DotOfExtension(stem, ext);
    SplitExtAt(p, |stem|, k);
    assert p[..|stem|] == stem && p[|stem|..] == ext;
  }

  lemma {:induction false} DotOfExtension(stem: string, ext: string)
    requires |ext| >= 1 && ext[0] == '.' && '.' !in ext[1..]
    ensures RFind(stem + ext, '.') == |stem|
  {
    var dotted := stem + ".";
    var rest := ext[1..];
    assert dotted[|dotted| - 1] == '.';
    RFindAppend(dotted, rest, '.');
    assert dotted + rest == stem + ext by {
      assert ext == [ext[0]] + rest;
    }
  }

  lemma SplitExtAt(p: string, dot: int, k: int)
    requires RFind(p, '.') == dot && RFind(p, '/') < k < dot && p[k] != '.'
    ensures SplitExt(p) == (p[..dot], p[dot..])
  {
  }
}
