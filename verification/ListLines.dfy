/** What one line of a blocklist contributes, said in terms of its text
    (admin-ui/app/services/rpz.py). `Rpz.ParseLine` follows the code; these lemmas say what it
    means for a line of the hosts format and of the domains format. */
module ListLines {
  import opened Prelude
  import opened Text
  import opened Rpz

  predicate IsComment(c: char) {
    c == '#' || c == ';'
  }

  /** A string with neither white space nor a comment sign. */
  ghost predicate Solid(s: string) {
    forall i :: 0 <= i < |s| ==> !IsPySpace(s[i]) && !IsComment(s[i])
  }

  /** What may follow a word: nothing, white space and more, or a comment. */
  ghost predicate Tail(c: string) {
    c == "" || IsPySpace(c[0]) || IsComment(c[0])
  }

  /** White space up to the end of the line or to a comment. */
  ghost predicate Ending(ws: string, comment: string) {
    Run(ws, PySpace) && (comment == "" || IsComment(comment[0]))
  }

  lemma {:induction false} CommentStartBehind(p: string, c: string)
    requires forall i :: 0 <= i < |p| ==> !IsComment(p[i])
    ensures CommentStart(p + c) == |p| + CommentStart(c)
  {
    if p == "" {
      assert p + c == c;
    } else {
      assert (p + c)[1..] == p[1..] + c;
      CommentStartBehind(p[1..], c);
    }
  }

  /** The comment goes from what follows; what stands before it is untouched. */
  lemma StripCommentBehind(p: string, c: string)
    requires p != "" && !IsPySpace(p[|p| - 1]) && forall i :: 0 <= i < |p| ==> !IsComment(p[i])
    ensures StripComment(p + c) == p + StripComment(c)
  {
    CommentStartBehind(p, c);
    var m := CommentStart(c);
    assert (p + c)[..|p| + m] == p + c[..m];
    RStripBehind(p, c[..m], PySpace);
  }

  lemma TailStripped(c: string)
    requires Tail(c)
    ensures var r := StripComment(RStrip(c, PySpace));
            r == "" || IsPySpace(r[0])
  {
    var d := RStrip(c, PySpace);
    RStripFacts(c, PySpace);
    RStripFacts(d[..CommentStart(d)], PySpace);
  }

  lemma EndingStripped(ws: string, comment: string)
    requires Ending(ws, comment)
    ensures StripComment(RStrip(ws + comment, PySpace)) == ""
  {
    if comment == "" {
      RStripRun("", ws, PySpace);
      assert "" + ws == ws == ws + comment;
    } else {
      var p, z := ws + [comment[0]], comment[1..];
      assert ws + comment == p + z;
      RStripBehind(p, z, PySpace);
      var t := [comment[0]] + RStrip(z, PySpace);
      assert p + RStrip(z, PySpace) == ws + t;
      CommentStartBehind(ws, t);
      assert (ws + t)[..|ws|] == "" + ws;
      RStripRun("", ws, PySpace);
    }
  }

  lemma EndingLower(ws: string, comment: string)
    requires Ending(ws, comment)
    ensures Ending(Lower(ws), Lower(comment)) && Lower(ws + comment) == Lower(ws) + Lower(comment)
  {
    LowerConcat(ws, comment);
  }

  // ------------------------------------------------------------------ normalizing one name

  /** A name as a list may write it: `||` and stars or dots before it, dots after it. */
  ghost predicate Token(bars: string, stars: string, d: string, dots: string) {
    && (bars == "" || bars == "||") && Run(stars, Chars("*.")) && Run(dots, Chars("."))
    && Solid(d) && Clean(Lower(d)) && !StartsWith(d, "||")
  }

  function Written(bars: string, stars: string, d: string, dots: string): string {
    bars + (stars + (d + dots))
  }

  lemma WrittenIsSolid(bars: string, stars: string, d: string, dots: string)
    requires Token(bars, stars, d, dots)
    ensures Solid(Written(bars, stars, d, dots)) && Written(bars, stars, d, dots) != ""
  {
    assert forall i :: 0 <= i < |stars| ==> stars[i] == '*' || stars[i] == '.';
    assert forall i :: 0 <= i < |dots| ==> dots[i] == '.';
    assert |Lower(d)| == |d|;
  }

  /** Nothing around it: the stars and dots go. */
  lemma StarsAndDots(stars: string, e: string, dots: string)
    requires Run(stars, Chars("*.")) && Run(dots, Chars(".")) && Clean(e)
    ensures RStrip(LStrip(stars + (e + dots), Chars("*.")), Chars(".")) == e
  {
    LStripRun(stars, e + dots, Chars("*."));
    RStripRun(e, dots, Chars("."));
  }

  lemma NoScheme(stars: string, e: string, dots: string)
    requires Run(stars, Chars("*.")) && Run(dots, Chars(".")) && '/' !in e
    ensures var t := stars + (e + dots);
            !StartsWith(t, "http://") && !StartsWith(t, "https://")
  {
    var t := stars + (e + dots);
    forall i | 0 <= i < |t| ensures t[i] != '/' {
      if i < |stars| {
        assert Belongs(stars[i], Chars("*."));
      } else if i < |stars| + |e| {
        assert t[i] == e[i - |stars|] && e[i - |stars|] in e;
      } else {
        assert t[i] == dots[i - |stars| - |e|] && Belongs(dots[i - |stars| - |e|], Chars("."));
      }
    }
    assert "http://"[5] == '/' && "https://"[6] == '/';
  }

  /** White space around and a comment behind make no difference. */
  lemma NormalizedText(w0: string, x: string, ws: string, comment: string)
    requires Run(w0, PySpace) && Solid(x) && x != "" && Ending(ws, comment)
    ensures Strip(StripComment(Lower(Strip(w0 + (x + (ws + comment)), PySpace))), PySpace) == Lower(x)
  {
    var c := ws + comment;
    StripBetween(w0, x, c);
    LowerConcat(x, RStrip(c, PySpace));
    LowerRStrip(c, PySpace);
    EndingLower(ws, comment);
    EndingStripped(Lower(ws), Lower(comment));
    StripCommentBehind(Lower(x), RStrip(Lower(c), PySpace));
    assert Lower(x) + "" == Lower(x);
    StripBetween("", Lower(x), "");
    assert "" + (Lower(x) + "") == Lower(x);
  }

  lemma LowerWritten(bars: string, stars: string, d: string, dots: string)
    requires Token(bars, stars, d, dots)
    ensures Lower(Written(bars, stars, d, dots)) == Written(bars, stars, Lower(d), dots)
  {
    assert forall i :: 0 <= i < |stars| ==> stars[i] == '*' || stars[i] == '.';
    assert forall i :: 0 <= i < |dots| ==> dots[i] == '.';
    LowerConcat(bars, stars + (d + dots));
    LowerConcat(stars, d + dots);
    LowerConcat(d, dots);
    assert Lower(bars) == bars && Lower(stars) == stars && Lower(dots) == dots;
  }

  /** Without the bars, a written name does not begin with any. */
  lemma NoBars(stars: string, d: string, dots: string)
    requires Token("", stars, d, dots)
    ensures !StartsWith(stars + (Lower(d) + dots), "||")
  {
    var t := stars + (Lower(d) + dots);
    if stars != "" {
      assert Belongs(stars[0], Chars("*.")) && t[0] == stars[0];
    } else {
      assert t == Lower(d) + dots;
      assert |d| >= 1 && t[0] == LowerChar(d[0]);
      if |d| >= 2 {
        assert t[1] == LowerChar(d[1]);
        assert d[0] == '|' && d[1] == '|' ==> "||" <= d;
      } else if dots != "" {
        assert t[1] == dots[0] && Belongs(dots[0], Chars("."));
      }
    }
  }

  /** A written name normalizes to the name itself, in lower case. */
  lemma NormalizeWritten(w0: string, bars: string, stars: string, d: string, dots: string, ws: string, comment: string)
    requires Run(w0, PySpace) && Token(bars, stars, d, dots) && Ending(ws, comment)
    ensures NormalizeDomain(w0 + (Written(bars, stars, d, dots) + (ws + comment))) == Some(Lower(d))
  {
    var x, e := Written(bars, stars, d, dots), Lower(d);
    WrittenIsSolid(bars, stars, d, dots);
    NormalizedText(w0, x, ws, comment);
    LowerWritten(bars, stars, d, dots);
    var s, t := Lower(x), stars + (e + dots);
    assert (if StartsWith(s, "||") then s[2..] else s) == t by {
      if bars == "" {
        NoBars(stars, d, dots);
        assert s == t;
      } else {
        assert s == "||" + t && s[2..] == t;
      }
    }
    NoScheme(stars, e, dots);
    StarsAndDots(stars, e, dots);
    assert ' ' !in e && '\t' !in e by { assert IsGoSpace(' ') && IsGoSpace('\t'); }
  }

  lemma StripTwice(raw: string)
    ensures Strip(Strip(raw, PySpace), PySpace) == Strip(raw, PySpace)
  {
    var a, y, b := StripForm(raw);
    if y != "" {
      StripBetween("", y, "");
      assert "" + (y + "") == y && y + "" == y;
    }
  }

  // ------------------------------------------------------------------ the domains format

  /** A line of the domains format that writes a name contributes that name. */
  lemma DomainsLine(w0: string, bars: string, stars: string, d: string, dots: string, ws: string, comment: string)
    requires Run(w0, PySpace) && Token(bars, stars, d, dots) && Ending(ws, comment) && d[0] != '!'
    ensures ParseLine(w0 + (Written(bars, stars, d, dots) + (ws + comment)), false) == Some(Lower(d))
  {
    var x := Written(bars, stars, d, dots);
    var raw := w0 + (x + (ws + comment));
    WrittenIsSolid(bars, stars, d, dots);
    assert Strip(raw, PySpace) == x + RStrip(ws + comment, PySpace) by { StripBetween(w0, x, ws + comment); }
    assert Strip(raw, PySpace)[0] == x[0];
    assert x[0] != '!' by {
      if bars == "" && stars != "" { assert x[0] == stars[0] && Belongs(stars[0], Chars("*.")); }
    }
    assert NormalizeDomain(Strip(raw, PySpace)) == NormalizeDomain(raw) by { StripTwice(raw); }
    assert NormalizeDomain(raw) == Some(Lower(d)) by { NormalizeWritten(w0, bars, stars, d, dots, ws, comment); }
  }

  // ------------------------------------------------------------------ the hosts format

  lemma {:induction false} PyWordStops(u: string, t: string)
    requires (forall i :: 0 <= i < |u| ==> !IsPySpace(u[i])) && (t == "" || IsPySpace(t[0]))
    ensures PyWord(u + t) == u
  {
    if u == "" {
      assert u + t == t;
    } else {
      assert (u + t)[1..] == u[1..] + t;
      PyWordStops(u[1..], t);
    }
  }

  lemma SecondWordIs(u: string, w: string, x: string, t: string)
    requires Solid(u) && u != "" && Run(w, PySpace) && w != "" && Solid(x) && x != ""
    requires t == "" || IsPySpace(t[0])
    ensures SecondWord(u + (w + (x + t))) == Some(x)
  {
    var s, rest := u + (w + (x + t)), w + (x + t);
    LStripRun("", s, PySpace);
    assert "" + s == s;
    PyWordStops(u, rest);
    assert s[|u|..] == rest;
    LStripRun(w, x + t, PySpace);
    PyWordStops(x, t);
  }

  lemma HostsText(u: string, w: string, x: string, c: string)
    requires Solid(u) && Run(w, PySpace) && Solid(x) && x != ""
    ensures StripComment((u + (w + x)) + c) == u + (w + (x + StripComment(c)))
  {
    var p := u + (w + x);
    assert p[|p| - 1] == x[|x| - 1];
    forall i | 0 <= i < |p| ensures !IsComment(p[i]) {
      if |u| <= i < |u| + |w| { assert p[i] == w[i - |u|]; }
    }
    StripCommentBehind(p, c);
    assert p + StripComment(c) == u + (w + (x + StripComment(c)));
  }

  lemma HostsTrimmed(w0: string, u: string, w: string, x: string, c: string)
    requires Run(w0, PySpace) && Solid(u) && u != "" && Solid(x) && x != ""
    ensures Strip(w0 + ((u + (w + x)) + c), PySpace) == (u + (w + x)) + RStrip(c, PySpace)
  {
    var p := u + (w + x);
    assert p[0] == u[0] && p[|p| - 1] == x[|x| - 1];
    StripBetween(w0, p, c);
  }

  /** The second word of a hosts line decides what it contributes, whatever follows. */
  lemma HostsLine(w0: string, u: string, w: string, x: string, c: string)
    requires Run(w0, PySpace) && Solid(u) && u != "" && u[0] != '!'
    requires Run(w, PySpace) && w != "" && Solid(x) && x != "" && Tail(c)
    ensures ParseLine(w0 + ((u + (w + x)) + c), true) == NormalizeDomain(x)
  {
    var line := Strip(w0 + ((u + (w + x)) + c), PySpace);
    var t := StripComment(RStrip(c, PySpace));
    assert line == (u + (w + x)) + RStrip(c, PySpace) by { HostsTrimmed(w0, u, w, x, c); }
    assert line[0] == u[0];
    assert StripComment(line) == u + (w + (x + t)) by { HostsText(u, w, x, RStrip(c, PySpace)); }
    assert SecondWord(u + (w + (x + t))) == Some(x) by {
      TailStripped(c);
      SecondWordIs(u, w, x, t);
    }
  }

  /** So the line `0.0.0.0 name` contributes the name. */
  lemma HostsLineNames(
    w0: string, u: string, w: string, bars: string, stars: string, d: string, dots: string, c: string)
    requires Run(w0, PySpace) && Solid(u) && u != "" && u[0] != '!'
    requires Run(w, PySpace) && w != "" && Token(bars, stars, d, dots) && Tail(c)
    ensures ParseLine(w0 + ((u + (w + Written(bars, stars, d, dots))) + c), true) == Some(Lower(d))
  {
    var x := Written(bars, stars, d, dots);
    WrittenIsSolid(bars, stars, d, dots);
    HostsLine(w0, u, w, x, c);
    NormalizeWritten("", bars, stars, d, dots, "", "");
    assert "" + (x + ("" + "")) == x;
  }

  /** A hosts line with one word or none contributes nothing. */
  lemma ShortHostsLine(w0: string, u: string, ws: string, comment: string)
    requires Run(w0, PySpace) && Solid(u) && Ending(ws, comment)
    ensures ParseLine(w0 + (u + (ws + comment)), true) == None
  {
    var c := ws + comment;
    var raw := w0 + (u + c);
    EndingStripped(ws, comment);
    if u != "" {
      StripBetween(w0, u, c);
      StripCommentBehind(u, RStrip(c, PySpace));
      assert u + "" == u;
      LStripRun("", u, PySpace);
      assert "" + u == u;
      PyWordStops(u, "");
      assert u[|u|..] == "";
    } else {
      BlankLine(w0, ws, comment);
      assert raw == w0 + (ws + comment);
    }
  }

  lemma BlankLine(w0: string, ws: string, comment: string)
    requires Run(w0, PySpace) && Ending(ws, comment)
    ensures ParseLine(w0 + (ws + comment), true) == None
  {
    var a := w0 + ws;
    assert w0 + (ws + comment) == a + comment;
    LStripRun(a, comment, PySpace);
    if comment != "" {
      var z := comment[1..];
      assert comment == [comment[0]] + z;
      RStripBehind([comment[0]], z, PySpace);
    }
  }

  // ------------------------------------------------------------------ what never contributes

  lemma BangLine(w0: string, z: string, hosts: bool)
    requires Run(w0, PySpace)
    ensures ParseLine(w0 + ("!" + z), hosts) == None
  {
    StripBetween(w0, "!", z);
  }

  /** What a line begins with survives the normalization, if it is solid and in lower case. */
  lemma HeadSurvives(w0: string, p: string, z: string)
    requires Run(w0, PySpace) && Solid(p) && p != "" && IsLower(p)
    ensures p <= Strip(StripComment(Lower(Strip(w0 + (p + z), PySpace))), PySpace)
  {
    StripBetween(w0, p, z);
    var c := RStrip(z, PySpace);
    LowerConcat(p, c);
    LowerOfLower(p);
    StripCommentBehind(p, Lower(c));
    var r := StripComment(Lower(c));
    StripBetween("", p, r);
    assert "" + (p + r) == p + r;
  }

  lemma SchemeIsRefused(raw: string, bars: string, scheme: string)
    requires (bars == "" || bars == "||") && (scheme == "http://" || scheme == "https://")
    requires bars + scheme <= Strip(StripComment(Lower(Strip(raw, PySpace))), PySpace)
    ensures NormalizeDomain(raw) == None
  {
    var s := Strip(StripComment(Lower(Strip(raw, PySpace))), PySpace);
    if bars == "" {
      assert bars + scheme == scheme && s[0] == 'h';
    } else {
      assert s[0] == '|' && s[1] == '|' && "||" <= s;
      assert scheme == (bars + scheme)[2..] && scheme <= s[2..];
    }
  }

  /** A URL contributes nothing, with or without bars before it. */
  lemma UrlLine(w0: string, bars: string, scheme: string, z: string)
    requires Run(w0, PySpace) && (bars == "" || bars == "||") && (scheme == "http://" || scheme == "https://")
    ensures ParseLine(w0 + ((bars + scheme) + z), false) == None
  {
    var p := bars + scheme;
    var raw := w0 + (p + z);
    assert p != "" && Solid(p) && IsLower(p);
    HeadSurvives(w0, p, z);
    SchemeIsRefused(raw, bars, scheme);
    StripTwice(raw);
  }
}
