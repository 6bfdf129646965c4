/** The blocklist parser and RPZ renderers (admin-ui/app/services/rpz.py) and the Go loader that
    reads the zones back (dnstap-processor/cmd/dnstap-processor/main.go). The zone text is the
    master file format of section 5.1 of RFC 1035. */
module Rpz {
  import opened Prelude
  import opened Text

  // ------------------------------------------------------------------ the Go reader

  /** strings.Split(s, "\n") */
  function Split(s: string): (lines: seq<string>)
    ensures |lines| >= 1
  {
    if s == [] then [""]
    else if s[0] == '\n' then [""] + Split(s[1..])
    else
      var rest := Split(s[1..]);
      [[s[0]] + rest[0]] + rest[1..]
  }

  /** The longest prefix without white space. */
  function Word(s: string): (w: string)
    ensures |w| <= |s|
    ensures s != [] && !IsGoSpace(s[0]) ==> w != []
  {
    if s == [] || IsGoSpace(s[0]) then [] else [s[0]] + Word(s[1..])
  }

  /** strings.Fields */
  function Fields(s: string): seq<string>
    decreases |s|
  {
    if s == [] then []
    else if IsGoSpace(s[0]) then Fields(s[1..])
    else [Word(s)] + Fields(s[|Word(s)|..])
  }

  /** One line of a zone file: the name it contributes, if any. */
  function LoadLine(raw: string): Option<string> {
    var line := Strip(raw, GoSpace);
    if line == "" || line[0] == ';' || line[0] == '$' then None
    else
      var parts := Fields(line);
      if |parts| < 1 then None
      else
        var d := Lower(TrimDot(parts[0]));
        if d != "" && d != "@" then Some(d) else None
  }

  ghost predicate Names(lines: seq<string>, d: string) {
    exists i :: 0 <= i < |lines| && LoadLine(lines[i]) == Some(d)
  }

  /** All the names of a list of lines. */
  function Loaded(lines: seq<string>): set<string> {
    if lines == [] then {}
    else
      var n := |lines| - 1;
      var d := LoadLine(lines[n]);
      Loaded(lines[..n]) + (if d.Some? then {d.value} else {})
  }

  /** loadFile over the bytes it read. */
  method LoadFile(content: string) returns (m: set<string>)
    ensures m == Loaded(Split(content))
    ensures forall d :: d in m ==> Storable(d) && Loadable(d)
  {
    var lines := Split(content);
    m := {};
    for i := 0 to |lines|
      invariant m == Loaded(lines[..i])
    {
      assert lines[..i + 1][..i] == lines[..i];
      var line := Strip(lines[i], GoSpace);
      if line == "" || line[0] == ';' || line[0] == '$' {
        continue;
      }
      var parts := Fields(line);
      if |parts| < 1 {
        continue;
      }
      var d := TrimDot(parts[0]);
      d := Lower(d);
      if d != "" && d != "@" {
        m := m + {d};
      }
    }
    assert lines[..|lines|] == lines;
    forall d | d in m ensures Storable(d) && Loadable(d) {
      LoadedNames(lines, d);
      var i :| 0 <= i < |lines| && LoadLine(lines[i]) == Some(d);
      LoadLineFacts(lines[i]);
    }
  }

  lemma {:induction false} LoadedNames(lines: seq<string>, d: string)
    ensures d in Loaded(lines) <==> Names(lines, d)
  {
    if lines != [] {
      var n := |lines| - 1;
      LoadedNames(lines[..n], d);
      NamesConcat(lines[..n], [lines[n]], d);
      OneLine(lines[n], d);
      assert lines == lines[..n] + [lines[n]];
    }
  }

  lemma NamesConcat(a: seq<string>, b: seq<string>, d: string)
    ensures Names(a + b, d) <==> Names(a, d) || Names(b, d)
  {
    if i :| 0 <= i < |a| && LoadLine(a[i]) == Some(d) { assert LoadLine((a + b)[i]) == Some(d); }
    if i :| 0 <= i < |b| && LoadLine(b[i]) == Some(d) { assert LoadLine((a + b)[|a| + i]) == Some(d); }
    if i :| 0 <= i < |a + b| && LoadLine((a + b)[i]) == Some(d) {
      if i < |a| { assert LoadLine(a[i]) == Some(d); } else { assert LoadLine(b[i - |a|]) == Some(d); }
    }
  }

  // ------------------------------------------------------------------ the Python writer

  function Decimal(n: nat): string {
    if n < 10 then [('0' as int + n) as char] else Decimal(n / 10) + Decimal(n % 10)
  }

  function Header(now: nat, comment: string): string {
    "$TTL 300" + "\n" + (SoaLine(now) + "\n" + (NsLine() + "\n" + ("; " + comment + "\n")))
  }

  /** " ".join(words) */
  function Spaced(words: seq<string>): string
    requires words != []
  {
    if |words| == 1 then words[0] else words[0] + (" " + Spaced(words[1..]))
  }

  function SoaWords(now: nat): seq<string> {
    ["@", "IN", "SOA", "localhost.", "hostmaster.localhost.", Decimal(now), "3600", "600", "604800", "300"]
  }

  function NsWords(): seq<string> {
    ["@", "IN", "NS", "localhost."]
  }

  function SoaLine(now: nat): string {
    Spaced(SoaWords(now))
  }

  function NsLine(): string {
    Spaced(NsWords())
  }

  /** `action` is "." in the block zone (NXDOMAIN) and "rpz-passthru." in the allow zone. */
  function RuleLine(d: string, action: string): string {
    (d + ".") + " " + ("CNAME " + action)
  }

  function Rules(ds: seq<string>, action: string): string {
    if ds == [] then "" else RuleLine(ds[0], action) + "\n" + Rules(ds[1..], action)
  }

  const BLOCK: string := "."
  const PASSTHRU: string := "rpz-passthru."

  /** The whole text, rules in the given order. */
  function ZoneText(now: nat, comment: string, ds: seq<string>, action: string): string {
    Header(now, comment) + Rules(ds, action)
  }

  ghost predicate Enumerates(ds: seq<string>, domains: set<string>) {
    NoDuplicates(ds) && forall d :: d in ds <==> d in domains
  }

  ghost predicate InOrder(ds: seq<string>) {
    forall i, j :: 0 <= i < j < |ds| ==> Less(ds[i], ds[j])
  }

  /** render_rpz_zone and render_rpz_whitelist: one rule per domain, sorted. */
  method Render(domains: set<string>, now: nat, comment: string, action: string)
    returns (text: string)
    ensures exists order :: Enumerates(order, domains) && InOrder(order) && text == ZoneText(now, comment, order, action)
  {
    var header, rules := Header(now, comment), "";
    ghost var order: seq<string> := [];
    var rest := domains;
    while rest != {}
      invariant rest <= domains
      invariant Enumerates(order, domains - rest)
      invariant InOrder(order) && forall i, d :: 0 <= i < |order| && d in rest ==> Less(order[i], d)
      invariant rules == Rules(order, action)
      decreases |rest|
    {
      var d := Least(rest);
      RulesSnoc(order, d, action);
      order := order + [d];
      rules := rules + (RuleLine(d, action) + "\n");
      rest := rest - {d};
    }
    text := header + rules;
  }

  method Least(domains: set<string>) returns (least: string)
    requires domains != {}
    ensures least in domains && forall d :: d in domains && d != least ==> Less(least, d)
  {
    least :| least in domains;
    var rest := domains - {least};
    while rest != {}
      invariant rest <= domains && least in domains
      invariant forall d :: d in domains - rest && d != least ==> Less(least, d)
      decreases |rest|
    {
      var d :| d in rest;
      LessTotal(d, least);
      if Less(d, least) {
        forall e | e in domains - rest && e != least ensures Less(d, e) {
          LessTransitive(d, least, e);
        }
        least := d;
      }
      rest := rest - {d};
    }
  }

  /** The text is a function of the set: a set has one sorted enumeration. */
  lemma {:induction false} OrderIsUnique(a: seq<string>, b: seq<string>, domains: set<string>)
    requires Enumerates(a, domains) && Enumerates(b, domains) && InOrder(a) && InOrder(b)
    ensures a == b
    decreases |a|
  {
    EmptyEnumeration(a, domains);
    EmptyEnumeration(b, domains);
    if a != [] {
      assert a[0] in domains;
      HeadIsLeast(a, b);
      assert a == [a[0]] + a[1..] && b == [b[0]] + b[1..];
      OrderIsUnique(a[1..], b[1..], domains - {a[0]});
    }
  }

  lemma EmptyEnumeration(ds: seq<string>, domains: set<string>)
    requires Enumerates(ds, domains)
    ensures ds == [] <==> domains == {}
  {
    if ds != [] { assert ds[0] in domains; }
  }

  lemma HeadIsLeast(a: seq<string>, b: seq<string>)
    requires InOrder(a) && InOrder(b) && a != [] && a[0] in b && forall d :: d in b ==> d in a
    ensures b != [] && a[0] == b[0]
  {
    var j :| 0 <= j < |b| && b[j] == a[0];
    assert b[0] in a;
    var i :| 0 <= i < |a| && a[i] == b[0];
    LessTotal(a[0], b[0]);
  }

  lemma {:induction false} RulesSnoc(ds: seq<string>, d: string, action: string)
    ensures Rules(ds + [d], action) == Rules(ds, action) + (RuleLine(d, action) + "\n")
  {
    if ds == [] {
      assert ds + [d] == [d] && [d][1..] == [];
    } else {
      assert (ds + [d])[1..] == ds[1..] + [d];
      RulesSnoc(ds[1..], d, action);
      var r, t := RuleLine(ds[0], action) + "\n", RuleLine(d, action) + "\n";
      assert r + (Rules(ds[1..], action) + t) == r + Rules(ds[1..], action) + t;
    }
  }

  // ------------------------------------------------------------------ reading back what was written

  ghost predicate NoNewline(s: string) {
    '\n' !in s
  }

  lemma {:induction false} SplitConcat(a: string, b: string)
    ensures Split(a + "\n" + b) == Split(a) + Split(b)
  {
    var s := a + "\n" + b;
    if a == [] {
      assert s == "\n" + b && s[1..] == b;
    } else {
      assert s[1..] == a[1..] + "\n" + b;
      SplitConcat(a[1..], b);
    }
  }

  lemma {:induction false} OneLineSplit(line: string)
    requires NoNewline(line)
    ensures Split(line) == [line]
  {
    if line != [] {
      OneLineSplit(line[1..]);
      assert [line[0]] + line[1..] == line;
    }
  }

  lemma SplitLine(line: string, rest: string)
    requires NoNewline(line)
    ensures Split(line + "\n" + rest) == [line] + Split(rest)
  {
    SplitConcat(line, rest);
    OneLineSplit(line);
  }

  lemma {:induction false} WordOf(w: string, rest: string)
    requires NoGoSpace(w)
    ensures Word(w + (" " + rest)) == w
  {
    var s := w + (" " + rest);
    if w != [] {
      assert s[1..] == w[1..] + (" " + rest);
      WordOf(w[1..], rest);
    }
  }

  /** What a stored domain must satisfy to survive the text: lower case and no white space. */
  ghost predicate Storable(d: string) {
    IsLower(d) && NoGoSpace(d)
  }

  /** The names the loader does not mistake for a comment, a directive or the zone apex. */
  predicate Loadable(d: string) {
    d != "" && d != "@" && d[0] != ';' && d[0] != '$'
  }

  lemma {:induction false} WordFacts(s: string)
    ensures NoGoSpace(Word(s)) && Word(s) <= s
  {
    if s != [] && !IsGoSpace(s[0]) { WordFacts(s[1..]); }
  }

  /** Whatever a line holds, the name read from it is storable and loadable. */
  lemma LoadLineFacts(raw: string)
    ensures LoadLine(raw).Some? ==> Storable(LoadLine(raw).value) && Loadable(LoadLine(raw).value)
  {
    var line := Strip(raw, GoSpace);
    if LoadLine(raw).Some? {
      LStripFacts(raw, GoSpace);
      RStripFacts(LStrip(raw, GoSpace), GoSpace);
      assert line[0] == LStrip(raw, GoSpace)[0];
      WordFacts(line);
      var w := Fields(line)[0];
      var d := Lower(TrimDot(w));
      assert w == Word(line) && d[0] == LowerChar(line[0]);
      assert forall i :: 0 <= i < |d| ==> d[i] == LowerChar(w[i]);
    }
  }

  /** The name that the first word of a line stands for: without a trailing dot, in lower case, and
      none for a comment, a directive, the apex or nothing at all. */
  function NameOf(line: string): Option<string> {
    var w := Word(LStrip(line, GoSpace));
    var d := Lower(TrimDot(w));
    if w == "" || w[0] == ';' || w[0] == '$' || d == "" || d == "@" then None else Some(d)
  }

  /** An entry mentions the names that its lines begin with, the dot the renderer adds included. */
  ghost predicate Mentions(e: string, d: string) {
    exists i :: 0 <= i < |Split(e + ".")| && NameOf(Split(e + ".")[i]) == Some(d)
  }

  /** A word ends at white space, whatever follows. */
  lemma {:induction false} WordStops(s: string, c: char, t: string)
    requires IsGoSpace(c)
    ensures Word(s + ([c] + t)) == Word(s)
  {
    var u := s + ([c] + t);
    if s != [] && !IsGoSpace(s[0]) {
      assert u[1..] == s[1..] + ([c] + t);
      WordStops(s[1..], c, t);
    }
  }

  lemma {:induction false} WordOfTrimmed(s: string)
    ensures Word(RStrip(s, GoSpace)) == Word(s)
  {
    if s != [] && IsGoSpace(s[|s| - 1]) {
      var u, c := s[..|s| - 1], s[|s| - 1];
      WordOfTrimmed(u);
      WordStops(u, c, "");
      assert u + ([c] + "") == s;
    }
  }

  /** The loader takes the first word of a line and nothing else. */
  lemma LoadLineIsNameOf(raw: string)
    ensures LoadLine(raw) == NameOf(raw)
  {
    var s := LStrip(raw, GoSpace);
    LStripFacts(raw, GoSpace);
    WordOfTrimmed(s);
    if s != "" {
      RStripKeepsHead(s);
      var line := Strip(raw, GoSpace);
      assert Fields(line)[0] == Word(line);
    }
  }

  /** The lines with `b` added to the last of them. */
  ghost function ExtendLast(ls: seq<string>, b: string): (r: seq<string>)
    requires ls != []
    ensures |r| == |ls|
  {
    ls[..|ls| - 1] + [ls[|ls| - 1] + b]
  }

  lemma ExtendHead(c: char, rest: seq<string>, b: string)
    requires rest != []
    ensures ExtendLast([[c] + rest[0]] + rest[1..], b) == [[c] + ExtendLast(rest, b)[0]] + ExtendLast(rest, b)[1..]
  {
    var l := ExtendLast([[c] + rest[0]] + rest[1..], b);
    var r := [[c] + ExtendLast(rest, b)[0]] + ExtendLast(rest, b)[1..];
    assert [c] + (rest[0] + b) == [c] + rest[0] + b;
    forall i | 0 <= i < |rest| ensures l[i] == r[i] {}
  }

  lemma {:induction false} SplitExtend(a: string, b: string)
    requires NoNewline(b)
    ensures Split(a + b) == ExtendLast(Split(a), b)
  {
    if a == [] {
      assert a + b == b;
      OneLineSplit(b);
    } else {
      SplitExtend(a[1..], b);
      assert (a + b)[0] == a[0] && (a + b)[1..] == a[1..] + b;
      if a[0] != '\n' { ExtendHead(a[0], Split(a[1..]), b); }
    }
  }

  lemma {:induction false} LStripConcat(l: string, t: string)
    requires l != "" && !IsGoSpace(l[|l| - 1])
    ensures LStrip(l + t, GoSpace) == LStrip(l, GoSpace) + t
  {
    if IsGoSpace(l[0]) {
      assert (l + t)[1..] == l[1..] + t;
      LStripConcat(l[1..], t);
    }
  }

  /** What the renderer writes after the dot does not matter to the loader. */
  lemma NameOfRule(l: string, t: string)
    requires l != "" && !IsGoSpace(l[|l| - 1])
    ensures NameOf(l + (" " + t)) == NameOf(l)
  {
    LStripConcat(l, " " + t);
    WordStops(LStrip(l, GoSpace), ' ', t);
    assert [' '] + t == " " + t;
  }

  /** The lines of a rule are those of its entry, the last with the rest of the rule behind it. */
  lemma RuleLines(e: string, action: string)
    requires action == BLOCK || action == PASSTHRU
    ensures Split(RuleLine(e, action)) == ExtendLast(Split(e + "."), " " + ("CNAME " + action))
    ensures var l := Split(e + ".")[|Split(e + ".")| - 1];
            l != "" && l[|l| - 1] == '.'
  {
    var tail := " " + ("CNAME " + action);
    assert RuleLine(e, action) == (e + ".") + tail;
    assert NoNewline(tail) by {
      NoNewlineConcat("CNAME ", action);
      NoNewlineConcat(" ", "CNAME " + action);
    }
    SplitExtend(e + ".", tail);
    SplitExtend(e, ".");
  }

  lemma ExtendedLineName(ls: seq<string>, t: string, i: nat)
    requires i < |ls| && ls[|ls| - 1] != "" && ls[|ls| - 1][|ls[|ls| - 1]| - 1] == '.'
    ensures LoadLine(ExtendLast(ls, " " + t)[i]) == NameOf(ls[i])
  {
    LoadLineIsNameOf(ExtendLast(ls, " " + t)[i]);
    if i == |ls| - 1 { NameOfRule(ls[i], t); }
  }

  lemma SameNames(rs: seq<string>, ls: seq<string>, d: string)
    requires |rs| == |ls| && forall i :: 0 <= i < |rs| ==> LoadLine(rs[i]) == NameOf(ls[i])
    ensures Names(rs, d) <==> exists i :: 0 <= i < |ls| && NameOf(ls[i]) == Some(d)
  {
    if i :| 0 <= i < |ls| && NameOf(ls[i]) == Some(d) { assert LoadLine(rs[i]) == Some(d); }
  }

  /** The names the loader reads from the rule written for one domain, whatever that domain is and
      whatever the action. */
  lemma RuleReads(e: string, action: string, d: string)
    requires action == BLOCK || action == PASSTHRU
    ensures Names(Split(RuleLine(e, action)), d) <==> Mentions(e, d)
  {
    var ls, rs := Split(e + "."), Split(RuleLine(e, action));
    assert |rs| == |ls| && forall i :: 0 <= i < |rs| ==> LoadLine(rs[i]) == NameOf(ls[i]) by {
      RuleLines(e, action);
      forall i | 0 <= i < |ls| ensures LoadLine(rs[i]) == NameOf(ls[i]) {
        ExtendedLineName(ls, "CNAME " + action, i);
      }
    }
    SameNames(rs, ls, d);
  }

  ghost predicate SomeMentions(ds: seq<string>, d: string) {
    exists e :: e in ds && Mentions(e, d)
  }

  lemma {:induction false} LoadRules(ds: seq<string>, action: string, d: string)
    requires action == BLOCK || action == PASSTHRU
    ensures Names(Split(Rules(ds, action)), d) <==> SomeMentions(ds, d)
  {
    if ds == [] {
      OneLineSplit("");
      assert LoadLine("") == None;
    } else {
      var rest := ds[1..];
      assert SomeMentions(ds, d) <==> Mentions(ds[0], d) || SomeMentions(rest, d) by {
        assert forall e :: e in ds <==> e == ds[0] || e in rest;
      }
      LoadRules(rest, action, d);
      RulesNames(ds[0], rest, action, d);
    }
  }

  lemma RulesNames(e: string, rest: seq<string>, action: string, d: string)
    requires action == BLOCK || action == PASSTHRU
    ensures Names(Split(RuleLine(e, action) + "\n" + Rules(rest, action)), d)
            <==> Mentions(e, d) || Names(Split(Rules(rest, action)), d)
  {
    SplitConcat(RuleLine(e, action), Rules(rest, action));
    NamesConcat(Split(RuleLine(e, action)), Split(Rules(rest, action)), d);
    RuleReads(e, action, d);
  }

  /** For an entry on one line, that is the first word of the entry. */
  lemma OneLineMentions(e: string, d: string)
    requires NoNewline(e)
    ensures Mentions(e, d) <==> NameOf(e + ".") == Some(d)
  {
    NoNewlineConcat(e, ".");
    OneLineSplit(e + ".");
    if NameOf(e + ".") == Some(d) { assert NameOf(Split(e + ".")[0]) == Some(d); }
  }

  lemma {:induction false} WholeWord(s: string)
    requires NoGoSpace(s)
    ensures Word(s) == s
  {
    if s != [] { WholeWord(s[1..]); }
  }

  lemma StorableMentionsItself(e: string, d: string)
    requires Storable(e)
    ensures Mentions(e, d) <==> d == e && Loadable(d)
  {
    assert NoNewline(e);
    OneLineMentions(e, d);
    WholeWord(e + ".");
    LowerOfLower(e);
    assert TrimDot(e + ".") == e;
    if e != "" { assert (e + ".")[0] == e[0]; }
  }

  lemma OneLine(line: string, d: string)
    ensures Names([line], d) <==> LoadLine(line) == Some(d)
  {
    if LoadLine(line) == Some(d) { assert LoadLine([line][0]) == Some(d); }
  }

  lemma {:induction false} DecimalDigits(n: nat)
    ensures Decimal(n) != "" && forall i :: 0 <= i < |Decimal(n)| ==> '0' <= Decimal(n)[i] <= '9'
  {
    if n >= 10 {
      DecimalDigits(n / 10);
      DecimalDigits(n % 10);
    }
  }

  lemma NoNewlineConcat(a: string, b: string)
    requires NoNewline(a) && NoNewline(b)
    ensures NoNewline(a + b)
  {
  }

  ghost predicate AllWords(words: seq<string>) {
    forall i :: 0 <= i < |words| ==> words[i] != "" && NoGoSpace(words[i])
  }

  lemma {:induction false} SpacedNoNewline(words: seq<string>)
    requires words != [] && AllWords(words)
    ensures NoNewline(Spaced(words))
  {
    assert NoNewline(words[0]);
    if |words| > 1 {
      SpacedNoNewline(words[1..]);
      NoNewlineConcat(" ", Spaced(words[1..]));
      NoNewlineConcat(words[0], " " + Spaced(words[1..]));
    }
  }

  lemma FieldsCons(w: string, rest: string)
    requires w != "" && NoGoSpace(w)
    ensures Fields(w + (" " + rest)) == [w] + Fields(rest)
  {
    var s := w + (" " + rest);
    WordOf(w, rest);
    assert s[|w|..] == " " + rest;
    assert (" " + rest)[1..] == rest;
  }

  lemma FieldsOne(w: string)
    requires w != "" && NoGoSpace(w)
    ensures Fields(w) == [w]
  {
    WholeWord(w);
    assert w[|w|..] == "";
  }

  /** Splitting at white space gives back the words that were joined. */
  lemma {:induction false} FieldsOfSpaced(words: seq<string>)
    requires words != [] && AllWords(words)
    ensures Fields(Spaced(words)) == words
  {
    if |words| == 1 {
      FieldsOne(words[0]);
    } else {
      FieldsOfSpaced(words[1..]);
      FieldsCons(words[0], Spaced(words[1..]));
    }
  }

  lemma HeaderWords(now: nat)
    ensures AllWords(SoaWords(now)) && AllWords(NsWords())
  {
    DecimalDigits(now);
  }

  /** A line about the apex names no domain. */
  lemma LoadApex(words: seq<string>)
    requires |words| >= 2 && words[0] == "@"
    ensures LoadLine(Spaced(words)) == None
  {
    var rest := Spaced(words[1..]);
    LoadLineIsNameOf(Spaced(words));
    WordOf("@", rest);
    assert Lower(TrimDot("@")) == "@";
  }

  lemma {:induction false} RStripKeepsHead(s: string)
    requires s != "" && !IsGoSpace(s[0])
    ensures RStrip(s, GoSpace) != "" && RStrip(s, GoSpace)[0] == s[0]
  {
    if IsGoSpace(s[|s| - 1]) { RStripKeepsHead(s[..|s| - 1]); }
  }

  lemma LoadSkipped(line: string)
    requires line != "" && (line[0] == ';' || line[0] == '$')
    ensures LoadLine(line) == None
  {
    RStripKeepsHead(line);
  }

  function HeaderLines(now: nat, comment: string): seq<string> {
    ["$TTL 300", SoaLine(now), NsLine(), "; " + comment]
  }

  lemma ZoneLines(now: nat, comment: string, body: string)
    requires NoNewline(comment)
    ensures Split(Header(now, comment) + body) == HeaderLines(now, comment) + Split(body)
  {
    assert NoNewline(SoaLine(now)) && NoNewline(NsLine()) by {
      HeaderWords(now);
      SpacedNoNewline(SoaWords(now));
      SpacedNoNewline(NsWords());
    }
    assert NoNewline("; " + comment) by { NoNewlineConcat("; ", comment); }
    FourLines("$TTL 300", SoaLine(now), NsLine(), "; " + comment, body);
  }

  lemma FourLines(l1: string, l2: string, l3: string, l4: string, body: string)
    requires NoNewline(l1) && NoNewline(l2) && NoNewline(l3) && NoNewline(l4)
    ensures Split(l1 + "\n" + (l2 + "\n" + (l3 + "\n" + (l4 + "\n"))) + body) == [l1, l2, l3, l4] + Split(body)
  {
    var x4 := l4 + "\n";
    var x3 := l3 + "\n" + x4;
    var x2 := l2 + "\n" + x3;
    HeadLine(l1, x2, body);
    HeadLine(l2, x3, body);
    HeadLine(l3, x4, body);
    HeadLine(l4, "", body);
    assert x4 == l4 + "\n" + "" && "" + body == body;
  }

  lemma HeadLine(l: string, x: string, body: string)
    requires NoNewline(l)
    ensures Split((l + "\n" + x) + body) == [l] + Split(x + body)
  {
    assert (l + "\n" + x) + body == l + "\n" + (x + body);
    SplitLine(l, x + body);
  }

  /** Whatever the serial number and comment, no header line names a domain. */
  lemma LoadHeader(now: nat, comment: string, body: string, d: string)
    requires NoNewline(comment)
    ensures Names(Split(Header(now, comment) + body), d) <==> Names(Split(body), d)
  {
    ZoneLines(now, comment, body);
    NamesConcat(HeaderLines(now, comment), Split(body), d);
    HeaderNamesNothing(now, comment, d);
  }

  lemma HeaderNamesNothing(now: nat, comment: string, d: string)
    ensures !Names(HeaderLines(now, comment), d)
  {
    assert LoadLine("$TTL 300") == None by { LoadSkipped("$TTL 300"); }
    assert LoadLine(SoaLine(now)) == None by { LoadApex(SoaWords(now)); }
    assert LoadLine(NsLine()) == None by { LoadApex(NsWords()); }
    assert LoadLine("; " + comment) == None by { LoadSkipped("; " + comment); }
    NothingNamed("$TTL 300", SoaLine(now), NsLine(), "; " + comment, d);
  }

  lemma NothingNamed(l1: string, l2: string, l3: string, l4: string, d: string)
    requires LoadLine(l1) == LoadLine(l2) == LoadLine(l3) == LoadLine(l4) == None
    ensures !Names([l1, l2, l3, l4], d)
  {
  }

  /** The round trip across languages, for any strings: what Go loads from a zone that Python
      rendered is what the entries mention, one by one. Storable names mention themselves, less the
      few that the loader skips. */
  lemma LoadOfRendered(now: nat, comment: string, ds: seq<string>, action: string, d: string)
    requires NoNewline(comment) && (action == BLOCK || action == PASSTHRU)
    ensures d in Loaded(Split(ZoneText(now, comment, ds, action))) <==> SomeMentions(ds, d)
    ensures (forall i :: 0 <= i < |ds| ==> Storable(ds[i])) ==>
              (d in Loaded(Split(ZoneText(now, comment, ds, action))) <==> d in ds && Loadable(d))
  {
    LoadHeader(now, comment, Rules(ds, action), d);
    LoadRules(ds, action, d);
    LoadedNames(Split(ZoneText(now, comment, ds, action)), d);
    forall e | e in ds && Storable(e) ensures Mentions(e, d) <==> d == e && Loadable(d) {
      StorableMentionsItself(e, d);
    }
  }

  /** The loader gets back exactly the set that was rendered if and only if every name in it is
      storable and loadable. */
  lemma ZoneReloadsIff(now: nat, comment: string, ds: seq<string>, action: string)
    requires NoNewline(comment) && (action == BLOCK || action == PASSTHRU)
    ensures (forall d :: d in Loaded(Split(ZoneText(now, comment, ds, action))) <==> d in ds)
            <==> forall d :: d in ds ==> Storable(d) && Loadable(d)
  {
    var lines := Split(ZoneText(now, comment, ds, action));
    if forall d :: d in ds ==> Storable(d) && Loadable(d) {
      forall d ensures d in Loaded(lines) <==> d in ds {
        LoadOfRendered(now, comment, ds, action, d);
      }
    }
    if forall d :: d in Loaded(lines) <==> d in ds {
      forall d | d in ds ensures Storable(d) && Loadable(d) {
        LoadedNames(lines, d);
        var i :| 0 <= i < |lines| && LoadLine(lines[i]) == Some(d);
        LoadLineFacts(lines[i]);
      }
    }
  }

  // ------------------------------------------------------------------ the list parser

  /** Index of the first '#' or ';', or the length when there is none. */
  function CommentStart(s: string): (n: nat)
    ensures n <= |s|
    ensures forall i :: 0 <= i < n ==> s[i] != '#' && s[i] != ';'
  {
    if s == [] || s[0] == '#' || s[0] == ';' then 0 else 1 + CommentStart(s[1..])
  }

  /** The comment expression applied to one line: the comment goes, with the blanks before it. */
  function StripComment(s: string): string {
    var n := CommentStart(s);
    if n == |s| then s else RStrip(s[..n], PySpace)
  }

  function NormalizeDomain(raw: string): Option<string> {
    var s := Strip(StripComment(Lower(Strip(raw, PySpace))), PySpace);
    if s == "" then None
    else
      var t := if StartsWith(s, "||") then s[2..] else s;
      if StartsWith(t, "http://") || StartsWith(t, "https://") then None
      else
        var d := RStrip(LStrip(t, Chars("*.")), Chars("."));
        if d == "" || ' ' in d || '\t' in d || d[0] == '[' || '/' in d then None else Some(d)
  }

  /** str.split() on one line, up to the second word. */
  function SecondWord(s: string): Option<string> {
    var a := LStrip(s, PySpace);
    var b := LStrip(a[|PyWord(a)|..], PySpace);
    if b == "" then None else Some(PyWord(b))
  }

  function PyWord(s: string): (w: string)
    ensures w <= s
  {
    if s == [] || IsPySpace(s[0]) then [] else [s[0]] + PyWord(s[1..])
  }

  /** What one line of a list contributes. */
  function ParseLine(raw: string, hosts: bool): Option<string> {
    var line := Strip(raw, PySpace);
    if line == "" || line[0] == '!' then None
    else if hosts then
      var w := SecondWord(StripComment(line));
      if w.Some? then NormalizeDomain(w.value) else None
    else NormalizeDomain(line)
  }

  method ParseBlocklistLines(lines: seq<string>, fmt: string) returns (out: set<string>)
    ensures forall d :: d in out <==>
              exists i :: 0 <= i < |lines| && ParseLine(lines[i], Lower(Strip(fmt, PySpace)) == "hosts") == Some(d)
  {
    out := {};
    var hosts := Lower(Strip(fmt, PySpace)) == "hosts";
    for k := 0 to |lines|
      invariant forall d :: d in out <==> exists i :: 0 <= i < k && ParseLine(lines[i], hosts) == Some(d)
    {
      var line := Strip(lines[k], PySpace);
      if line == "" || line[0] == '!' {
        continue;
      }
      if hosts {
        var w := SecondWord(StripComment(line));
        if w.Some? {
          var d := NormalizeDomain(w.value);
          if d.Some? {
            assert ParseLine(lines[k], hosts) == d;
            out := out + {d.value};
          }
        }
        continue;
      }
      var d := NormalizeDomain(line);
      if d.Some? {
        assert ParseLine(lines[k], hosts) == d;
        out := out + {d.value};
      }
    }
  }

  /** Printable ASCII, blank and TAB: what the lines of list files are made of, between their ends. */
  ghost predicate Printable(s: string) {
    forall c :: c in s ==> c == '\t' || 32 <= c as int <= 126
  }

  /** Every character of `r` is a character of `s`. */
  ghost predicate Within(r: string, s: string) {
    forall c :: c in r ==> c in s
  }

  lemma StripWithin(s: string, k: Class)
    ensures Within(Strip(s, k), s)
  {
    LStripFacts(s, k);
    RStripFacts(LStrip(s, k), k);
  }

  lemma StripCommentFacts(s: string)
    ensures Within(StripComment(s), s)
    ensures '#' !in StripComment(s) && ';' !in StripComment(s)
  {
    var n := CommentStart(s);
    RStripFacts(s[..n], PySpace);
    assert forall c :: c in s[..n] ==> c != '#' && c != ';';
  }

  /** What every parsed domain satisfies: it is storable, and the only loadable-looking exceptions
      left are the apex sign and names that start with a dollar. */
  ghost predicate Clean(d: string) {
    && d != "" && Storable(d)
    && ';' !in d && '#' !in d && '/' !in d
    && d[0] != '*' && d[0] != '.' && d[0] != '['
    && d[|d| - 1] != '.'
  }

  lemma NormalizedIsClean(raw: string)
    requires Printable(raw)
    ensures NormalizeDomain(raw).Some? ==> Clean(NormalizeDomain(raw).value)
  {
    var a := Strip(raw, PySpace);
    var b := Lower(a);
    var c := StripComment(b);
    var s := Strip(c, PySpace);
    StripWithin(raw, PySpace);
    StripCommentFacts(b);
    StripWithin(c, PySpace);
    LowerPrintable(a);
    if s != "" {
      var t := if StartsWith(s, "||") then s[2..] else s;
      assert Within(t, s) && Within(s, c) && Within(c, b);
      var d := RStrip(LStrip(t, Chars("*.")), Chars("."));
      if d != "" && ' ' !in d && '\t' !in d && d[0] != '[' && '/' !in d {
        TrimmedIsClean(t, d);
      }
    }
  }

  lemma TrimmedIsClean(t: string, d: string)
    requires forall c :: c in t ==> !IsUpper(c) && c != ';' && c != '#' && (c == '\t' || 32 <= c as int <= 126)
    requires d == RStrip(LStrip(t, Chars("*.")), Chars("."))
    requires d != "" && ' ' !in d && '\t' !in d && d[0] != '[' && '/' !in d
    ensures Clean(d)
  {
    var u := LStrip(t, Chars("*."));
    LStripFacts(t, Chars("*."));
    RStripFacts(u, Chars("."));
    assert Within(d, u) && Within(u, t);
    forall i | 0 <= i < |d| ensures !IsUpper(d[i]) && !IsGoSpace(d[i]) {
      assert d[i] in d && d[i] in t;
    }
    assert d[0] == u[0] && '*' in "*." && '.' in "*." && '.' in "." by {
      assert "*."[0] == '*' && "*."[1] == '.' && "."[0] == '.';
    }
  }

  lemma LowerPrintable(a: string)
    requires Printable(a)
    ensures forall c :: c in Lower(a) ==> !IsUpper(c) && (c == '\t' || 32 <= c as int <= 126)
  {
    var b := Lower(a);
    forall c | c in b ensures !IsUpper(c) && (c == '\t' || 32 <= c as int <= 126) {
      var i :| 0 <= i < |b| && b[i] == c;
      assert b[i] == LowerChar(a[i]) && a[i] in a;
    }
  }

  /** Every domain that enters the database from a list is clean. */
  lemma ParsedIsClean(raw: string, hosts: bool)
    requires Printable(Strip(raw, PySpace))
    ensures ParseLine(raw, hosts).Some? ==> Clean(ParseLine(raw, hosts).value)
  {
    var line := Strip(raw, PySpace);
    if hosts {
      var c := StripComment(line);
      StripCommentFacts(line);
      assert Printable(c);
      var a := LStrip(c, PySpace);
      LStripFacts(c, PySpace);
      var rest := a[|PyWord(a)|..];
      var b := LStrip(rest, PySpace);
      LStripFacts(rest, PySpace);
      assert Within(b, rest) && Within(rest, a) && Within(a, c);
      assert Within(PyWord(b), b) by { assert PyWord(b) <= b; }
      assert Printable(PyWord(b));
      NormalizedIsClean(PyWord(b));
    } else {
      NormalizedIsClean(line);
    }
  }

  // ------------------------------------------------------------------ the serial number

  function Digit(c: char): int {
    c as int - '0' as int
  }

  /** The number a string of digits stands for. */
  function Value(s: string): int {
    if s == "" then 0 else 10 * Value(s[..|s| - 1]) + Digit(s[|s| - 1])
  }

  lemma {:induction false} DecimalValue(n: nat)
    ensures Value(Decimal(n)) == n
  {
    if n < 10 {
      assert Decimal(n)[..0] == "";
    } else {
      DecimalValue(n / 10);
      var s := Decimal(n / 10);
      assert |Decimal(n % 10)| == 1;
      assert Decimal(n)[..|s|] == s;
    }
  }

  /** The second line of a zone is its SOA record, with the time of rendering as its serial number. */
  lemma ZoneSerial(now: nat, comment: string, ds: seq<string>, action: string)
    requires NoNewline(comment)
    ensures var lines := Split(ZoneText(now, comment, ds, action));
            && |lines| > 1 && |Fields(lines[1])| == 10
            && Fields(lines[1])[..3] == ["@", "IN", "SOA"] && Value(Fields(lines[1])[5]) == now
  {
    ZoneLines(now, comment, Rules(ds, action));
    HeaderWords(now);
    FieldsOfSpaced(SoaWords(now));
    DecimalValue(now);
  }
}
