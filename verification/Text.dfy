/** The string primitives of Python and Go that the list compiler and the ingest endpoint use.
    Letters are folded and white space is recognised in the ASCII range only. */
module Text {

  /** unicode.IsSpace on ASCII: TAB, LF, VT, FF, CR and blank. */
  predicate IsGoSpace(c: char) {
    9 <= c as int <= 13 || c == ' '
  }

  /** str.isspace on ASCII, which also counts the four separators 0x1c..0x1f. */
  predicate IsPySpace(c: char) {
    IsGoSpace(c) || 28 <= c as int <= 31
  }

  predicate IsUpper(c: char) {
    'A' <= c <= 'Z'
  }

  function LowerChar(c: char): char {
    if IsUpper(c) then (c as int + 32) as char else c
  }

  function Lower(s: string): string {
    seq(|s|, i requires 0 <= i < |s| => LowerChar(s[i]))
  }

  /** What a strip removes: a language's white space, or the characters listed. */
  datatype Class = PySpace | GoSpace | Chars(list: string)

  predicate Belongs(c: char, k: Class) {
    match k
    case PySpace => IsPySpace(c)
    case GoSpace => IsGoSpace(c)
    case Chars(list) => c in list
  }

  /** str.lstrip */
  function LStrip(s: string, k: Class): string {
    if s != [] && Belongs(s[0], k) then LStrip(s[1..], k) else s
  }

  /** str.rstrip */
  function RStrip(s: string, k: Class): string {
    if s != [] && Belongs(s[|s| - 1], k) then RStrip(s[..|s| - 1], k) else s
  }

  /** str.strip() and strings.TrimSpace */
  function Strip(s: string, k: Class): string {
    RStrip(LStrip(s, k), k)
  }

  lemma {:induction false} LStripFacts(s: string, k: Class)
    ensures var r := LStrip(s, k);
            && (r == [] || !Belongs(r[0], k))
            && |r| <= |s| && r == s[|s| - |r|..]
            && forall i :: 0 <= i < |s| - |r| ==> Belongs(s[i], k)
  {
    if s != [] && Belongs(s[0], k) { LStripFacts(s[1..], k); }
  }

  lemma {:induction false} RStripFacts(s: string, k: Class)
    ensures var r := RStrip(s, k);
            && (r == [] || !Belongs(r[|r| - 1], k))
            && r <= s
            && forall i :: |r| <= i < |s| ==> Belongs(s[i], k)
  {
    if s != [] && Belongs(s[|s| - 1], k) { RStripFacts(s[..|s| - 1], k); }
  }

  /** strings.TrimSuffix(s, "."): at most one trailing dot goes. */
  function TrimDot(s: string): string {
    if s != [] && s[|s| - 1] == '.' then s[..|s| - 1] else s
  }

  predicate StartsWith(s: string, p: string) {
    p <= s
  }

  ghost predicate IsLower(s: string) {
    forall i :: 0 <= i < |s| ==> !IsUpper(s[i])
  }

  ghost predicate NoGoSpace(s: string) {
    forall i :: 0 <= i < |s| ==> !IsGoSpace(s[i])
  }

  lemma LowerOfLower(s: string)
    requires IsLower(s)
    ensures Lower(s) == s
  {
  }

  /** Python's order on strings: by the first code point that differs. */
  predicate Less(a: string, b: string) {
    b != [] && (a == [] || a[0] < b[0] || (a[0] == b[0] && Less(a[1..], b[1..])))
  }

  lemma {:induction false} LessTotal(a: string, b: string)
    ensures Less(a, b) || a == b || Less(b, a)
    ensures !(Less(a, b) && Less(b, a)) && !Less(a, a)
  {
    if a != [] && b != [] {
      LessTotal(a[1..], b[1..]);
      assert a == [a[0]] + a[1..] && b == [b[0]] + b[1..];
    }
    if a != [] { LessTotal(a[1..], a[1..]); }
  }

  lemma {:induction false} LessTransitive(a: string, b: string, c: string)
    requires Less(a, b) && Less(b, c)
    ensures Less(a, c)
  {
    if a != [] && a[0] == b[0] == c[0] { LessTransitive(a[1..], b[1..], c[1..]); }
  }

  // ------------------------------------------------------------------ stripping, by the text

  /** Every character belongs to the class. */
  ghost predicate Run(s: string, k: Class) {
    forall i :: 0 <= i < |s| ==> Belongs(s[i], k)
  }

  lemma {:induction false} LStripRun(a: string, s: string, k: Class)
    requires Run(a, k) && (s == "" || !Belongs(s[0], k))
    ensures LStrip(a + s, k) == s
  {
    if a == "" {
      assert a + s == s;
    } else {
      assert (a + s)[1..] == a[1..] + s;
      LStripRun(a[1..], s, k);
    }
  }

  lemma {:induction false} RStripRun(s: string, b: string, k: Class)
    requires Run(b, k) && (s == "" || !Belongs(s[|s| - 1], k))
    ensures RStrip(s + b, k) == s
  {
    if b == "" {
      assert s + b == s;
    } else {
      assert (s + b)[..|s + b| - 1] == s + b[..|b| - 1];
      RStripRun(s, b[..|b| - 1], k);
    }
  }

  /** What does not end in the class is left alone. */
  lemma {:induction false} RStripBehind(p: string, c: string, k: Class)
    requires p != "" && !Belongs(p[|p| - 1], k)
    ensures RStrip(p + c, k) == p + RStrip(c, k)
  {
    if c == "" {
      assert p + c == p;
    } else if Belongs(c[|c| - 1], k) {
      assert (p + c)[..|p + c| - 1] == p + c[..|c| - 1];
      RStripBehind(p, c[..|c| - 1], k);
    }
  }

  lemma StripBetween(a: string, p: string, c: string)
    requires Run(a, PySpace) && p != "" && !IsPySpace(p[0]) && !IsPySpace(p[|p| - 1])
    ensures Strip(a + (p + c), PySpace) == p + RStrip(c, PySpace)
  {
    LStripRun(a, p + c, PySpace);
    RStripBehind(p, c, PySpace);
  }

  lemma LowerConcat(a: string, b: string)
    ensures Lower(a + b) == Lower(a) + Lower(b)
  {
  }

  lemma {:induction false} LowerRStrip(s: string, k: Class)
    requires k == PySpace || k == Chars(".")
    ensures RStrip(Lower(s), k) == Lower(RStrip(s, k))
  {
    if s != "" {
      assert Belongs(Lower(s)[|s| - 1], k) <==> Belongs(s[|s| - 1], k);
      assert Lower(s)[..|s| - 1] == Lower(s[..|s| - 1]);
      LowerRStrip(s[..|s| - 1], k);
    }
  }

  /** strip().lower().rstrip("."), the form in which names are stored. */
  function NormalName(raw: string): string {
    RStrip(Lower(Strip(raw, PySpace)), Chars("."))
  }

  /** A name between white space and with final dots is stored without both, in lower case. */
  lemma NormalNameOf(a: string, x: string, dots: string, b: string)
    requires Run(a, PySpace) && Run(b, PySpace) && Run(dots, Chars("."))
    requires x != "" && !IsPySpace(x[0]) && x[|x| - 1] != '.'
    requires dots != "" || !IsPySpace(x[|x| - 1])
    ensures NormalName(a + ((x + dots) + b)) == Lower(x)
  {
    var y := x + dots;
    assert !IsPySpace(y[|y| - 1]) by {
      if dots != "" { assert y[|y| - 1] == dots[|dots| - 1]; }
    }
    StripBetween(a, y, b);
    RStripRun("", b, PySpace);
    assert "" + b == b && y + "" == y;
    LowerRStrip(y, Chars("."));
    RStripRun(x, dots, Chars("."));
  }

  lemma StripForm(raw: string) returns (a: string, y: string, b: string)
    ensures raw == a + (y + b) && y == Strip(raw, PySpace)
    ensures Run(a, PySpace) && Run(b, PySpace)
    ensures y == "" || (!IsPySpace(y[0]) && !IsPySpace(y[|y| - 1]))
  {
    var l := LStrip(raw, PySpace);
    LStripFacts(raw, PySpace);
    a := raw[..|raw| - |l|];
    y := RStrip(l, PySpace);
    RStripFacts(l, PySpace);
    b := l[|y|..];
    assert l == y + b;
    assert raw == a + l;
  }

  lemma DotsForm(y: string) returns (x: string, dots: string)
    ensures y == x + dots && x == RStrip(y, Chars(".")) && Run(dots, Chars("."))
    ensures x == "" || x[|x| - 1] != '.'
  {
    x := RStrip(y, Chars("."));
    RStripFacts(y, Chars("."));
    dots := y[|x|..];
    assert '.' in "." by { assert "."[0] == '.'; }
  }

  /** Every input has that form, or is nothing but white space and dots. */
  lemma NormalNameForm(raw: string) returns (a: string, x: string, dots: string, b: string)
    ensures raw == a + ((x + dots) + b)
    ensures Run(a, PySpace) && Run(b, PySpace) && Run(dots, Chars("."))
    ensures x == "" || (!IsPySpace(x[0]) && x[|x| - 1] != '.' && (dots != "" || !IsPySpace(x[|x| - 1])))
    ensures NormalName(raw) == Lower(x)
  {
    var y;
    a, y, b := StripForm(raw);
    x, dots := DotsForm(y);
    LowerRStrip(y, Chars("."));
    if x != "" { assert x[0] == y[0]; }
  }

  lemma NormalNameOfNothing(a: string, dots: string, b: string)
    requires Run(a, PySpace) && Run(b, PySpace) && Run(dots, Chars("."))
    ensures NormalName(a + (dots + b)) == ""
  {
    if dots == "" {
      LStripRun(a + b, "", PySpace);
      assert a + (dots + b) == (a + b) + "";
    } else {
      assert dots[0] == '.' && dots[|dots| - 1] == '.';
      StripBetween(a, dots, b);
      RStripRun("", b, PySpace);
      assert "" + b == b && dots + "" == dots;
      LowerRStrip(dots, Chars("."));
      RStripRun("", dots, Chars("."));
      assert "" + dots == dots;
    }
  }

  /** Lower case, no white space around it, no dot at its end. */
  ghost predicate InForm(s: string) {
    IsLower(s) && s != "" && !IsPySpace(s[0]) && !IsPySpace(s[|s| - 1]) && s[|s| - 1] != '.'
  }

  /** A name already in that form is stored as it is. */
  lemma NormalNameFixed(raw: string)
    requires InForm(raw)
    ensures NormalName(raw) == raw
  {
    NormalNameOf("", raw, "", "");
    assert "" + ((raw + "") + "") == raw;
    LowerOfLower(raw);
  }

  /** The order is decided by the first character that differs, and a proper prefix comes first. */
  lemma {:induction false} LessAt(p: string, a: string, b: string)
    requires b != "" && (a == "" || a[0] < b[0])
    ensures Less(p + a, p + b)
  {
    if p == "" {
      assert p + a == a && p + b == b;
    } else {
      assert (p + a)[1..] == p[1..] + a && (p + b)[1..] == p[1..] + b;
      LessAt(p[1..], a, b);
    }
  }
}
