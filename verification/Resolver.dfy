/** How a resolver with response policy zones reads the two rendered zones: the master file format of
    section 5.1 of RFC 1035 and the actions of sections 3.1 and 3.3 of draft-ietf-dnsop-dns-rpz. The
    Go loader looks at the owner names alone; the resolver also at what is to be done with them. */
module Resolver {
  import opened Prelude
  import opened Text
  import opened Rpz

  datatype Action = Nxdomain | PassThru

  datatype Rule = Rule(owner: string, action: Action)

  /** A semicolon starts a comment. */
  function Uncommented(s: string): string {
    if s == "" || s[0] == ';' then "" else [s[0]] + Uncommented(s[1..])
  }

  /** One line of a policy zone: an absolute owner name, CNAME, and a target that names the action.
      The root as target answers NXDOMAIN, `rpz-passthru.` lets the query through. */
  function ReadRule(line: string): Option<Rule> {
    if line != "" && line[0] == '$' then None
    else
      var fs := Fields(Uncommented(line));
      if |fs| != 3 || fs[1] != "CNAME" || |fs[0]| < 2 || fs[0][|fs[0]| - 1] != '.' then None
      else if fs[2] == "." then Some(Rule(fs[0][..|fs[0]| - 1], Nxdomain))
      else if fs[2] == "rpz-passthru." then Some(Rule(fs[0][..|fs[0]| - 1], PassThru))
      else None
  }

  ghost predicate HasRule(lines: seq<string>, r: Rule) {
    exists i :: 0 <= i < |lines| && ReadRule(lines[i]) == Some(r)
  }

  /** The zone says this of the name. */
  ghost predicate Answers(zone: string, d: string, action: Action) {
    HasRule(Split(zone), Rule(d, action))
  }

  /** Names that are neither empty, nor a directive, nor cut off by a comment. */
  ghost predicate Plain(d: string) {
    d != "" && d[0] != '$' && ';' !in d
  }

  lemma {:induction false} NothingToCut(s: string)
    requires ';' !in s
    ensures Uncommented(s) == s
  {
    if s != "" {
      assert s[0] in s && forall c :: c in s[1..] ==> c in s;
      NothingToCut(s[1..]);
    }
  }

  lemma {:induction false} CutInFront(p: string, c: string)
    requires ';' in p
    ensures Uncommented(p + c) == Uncommented(p) && Uncommented(p) <= p
  {
    if p[0] != ';' {
      assert (p + c)[1..] == p[1..] + c;
      assert p == [p[0]] + p[1..];
      CutInFront(p[1..], c);
    }
  }

  lemma HasRuleConcat(a: seq<string>, b: seq<string>, r: Rule)
    ensures HasRule(a + b, r) <==> HasRule(a, r) || HasRule(b, r)
  {
    if i :| 0 <= i < |a| && ReadRule(a[i]) == Some(r) { assert ReadRule((a + b)[i]) == Some(r); }
    if i :| 0 <= i < |b| && ReadRule(b[i]) == Some(r) { assert ReadRule((a + b)[|a| + i]) == Some(r); }
    if i :| 0 <= i < |a + b| && ReadRule((a + b)[i]) == Some(r) {
      if i < |a| { assert ReadRule(a[i]) == Some(r); } else { assert ReadRule(b[i - |a|]) == Some(r); }
    }
  }

  // ------------------------------------------------------------------ one rendered rule

  lemma RuleFields(d: string, target: string)
    requires NoGoSpace(d) && target != "" && NoGoSpace(target)
    ensures Fields(RuleLine(d, target)) == [d + ".", "CNAME", target]
  {
    var rest := "CNAME" + (" " + target);
    assert "CNAME " + target == rest;
    assert RuleLine(d, target) == (d + ".") + (" " + rest);
    FieldsCons(d + ".", rest);
    FieldsCons("CNAME", target);
    FieldsOne(target);
  }

  ghost predicate IsTarget(target: string, action: Action) {
    (target == "." && action == Nxdomain) || (target == "rpz-passthru." && action == PassThru)
  }

  lemma ReadPlain(d: string, target: string, action: Action)
    requires Storable(d) && Plain(d) && IsTarget(target, action)
    ensures ReadRule(RuleLine(d, target)) == Some(Rule(d, action))
  {
    var line := RuleLine(d, target);
    assert Uncommented(line) == line by {
      NoSemicolon(d, target, action);
      NothingToCut(line);
    }
    assert Fields(line) == [d + ".", "CNAME", target] by { RuleFields(d, target); }
    assert line[0] == d[0];
    assert (d + ".")[..|d|] == d && |d + "."| >= 2 && (d + ".")[|d|] == '.';
  }

  lemma NoSemicolon(d: string, target: string, action: Action)
    requires ';' !in d && IsTarget(target, action)
    ensures ';' !in RuleLine(d, target)
  {
    assert ';' !in d + "." && ';' !in "CNAME " + target;
  }

  lemma ReadOther(d: string, target: string, action: Action)
    requires Storable(d) && !Plain(d) && IsTarget(target, action)
    ensures ReadRule(RuleLine(d, target)) == None
  {
    var line := RuleLine(d, target);
    if d == "" {
      NoSemicolon(d, target, action);
      NothingToCut(line);
      RuleFields(d, target);
    } else if d[0] == '$' {
      assert line[0] == '$';
    } else {
      assert line == d + ("." + " " + ("CNAME " + target));
      CutInFront(d, "." + " " + ("CNAME " + target));
      var p := Uncommented(d);
      if p != "" { FieldsOne(p); }
    }
  }

  /** A rule of a storable name is read as the action its target stands for, or not at all. */
  lemma ReadBack(d: string, target: string, action: Action)
    requires Storable(d) && IsTarget(target, action)
    ensures ReadRule(RuleLine(d, target)) == if Plain(d) then Some(Rule(d, action)) else None
  {
    if Plain(d) { ReadPlain(d, target, action); } else { ReadOther(d, target, action); }
  }

  lemma {:induction false} RulesRead(ds: seq<string>, target: string, action: Action, r: Rule)
    requires (forall i :: 0 <= i < |ds| ==> Storable(ds[i])) && IsTarget(target, action)
    ensures HasRule(Split(Rules(ds, target)), r) <==> r.owner in ds && Plain(r.owner) && r.action == action
  {
    if ds == [] {
      OneLineSplit("");
      assert ReadRule("") == None;
    } else {
      var line, rest := RuleLine(ds[0], target), Rules(ds[1..], target);
      assert NoNewline(line);
      SplitLine(line, rest);
      HasRuleConcat([line], Split(rest), r);
      assert HasRule([line], r) <==> ReadRule(line) == Some(r) by {
        if ReadRule(line) == Some(r) { assert ReadRule([line][0]) == Some(r); }
      }
      ReadBack(ds[0], target, action);
      RulesRead(ds[1..], target, action, r);
      assert ds == [ds[0]] + ds[1..];
    }
  }

  // ------------------------------------------------------------------ the whole zone

  lemma ApexHasNoRule(words: seq<string>)
    requires |words| >= 2 && AllWords(words) && words[0] == "@" && words[1] == "IN" && ';' !in Spaced(words)
    ensures ReadRule(Spaced(words)) == None
  {
    NothingToCut(Spaced(words));
    FieldsOfSpaced(words);
  }

  lemma {:induction false} SpacedWithout(words: seq<string>, c: char)
    requires words != [] && c != ' ' && forall i :: 0 <= i < |words| ==> c !in words[i]
    ensures c !in Spaced(words)
  {
    if |words| > 1 { SpacedWithout(words[1..], c); }
  }

  lemma SoaHasNoRule(now: nat)
    ensures ReadRule(SoaLine(now)) == None
  {
    HeaderWords(now);
    var words := SoaWords(now);
    assert ';' !in Decimal(now) by { DecimalDigits(now); }
    SpacedWithout(words, ';');
    ApexHasNoRule(words);
  }

  lemma NsHasNoRule()
    ensures ReadRule(NsLine()) == None
  {
    HeaderWords(0);
    SpacedWithout(NsWords(), ';');
    ApexHasNoRule(NsWords());
  }

  lemma HeaderHasNoRule(now: nat, comment: string, r: Rule)
    ensures !HasRule(HeaderLines(now, comment), r)
  {
    SoaHasNoRule(now);
    NsHasNoRule();
    assert ReadRule("$TTL 300") == None;
    assert ReadRule("; " + comment) == None by { assert Uncommented("; " + comment) == ""; }
    NothingRuled("$TTL 300", SoaLine(now), NsLine(), "; " + comment, r);
  }

  lemma NothingRuled(l1: string, l2: string, l3: string, l4: string, r: Rule)
    requires ReadRule(l1) == ReadRule(l2) == ReadRule(l3) == ReadRule(l4) == None
    ensures !HasRule([l1, l2, l3, l4], r)
  {
  }

  /** The rendered zone answers exactly the plain names it was rendered for, with the action of its
      target and no other. */
  lemma RenderedAnswers(now: nat, comment: string, ds: seq<string>, target: string, action: Action, d: string, other: Action)
    requires NoNewline(comment) && (forall i :: 0 <= i < |ds| ==> Storable(ds[i])) && IsTarget(target, action)
    ensures Answers(ZoneText(now, comment, ds, target), d, other) <==> d in ds && Plain(d) && other == action
  {
    ZoneLines(now, comment, Rules(ds, target));
    HasRuleConcat(HeaderLines(now, comment), Split(Rules(ds, target)), Rule(d, other));
    HeaderHasNoRule(now, comment, Rule(d, other));
    RulesRead(ds, target, action, Rule(d, other));
  }
}
