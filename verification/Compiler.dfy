/** From the database to the zones and back to a verdict: regenerate_rpz
    (admin-ui/app/services/scheduler.py), the second compiler blocklists_apply
    (admin-ui/app/routers/blocklists.py), and the flag that makeEvent computes
    (dnstap-processor/cmd/dnstap-processor/main.go). */
module Compiler {
  import opened Prelude
  import opened Text
  import opened Rpz
  import Resolver

  datatype BlockList = BlockList(id: nat, listType: string, enabled: bool)

  datatype Manual = Manual(domain: string, entryType: string)

  /** blocklist_entries is keyed by list; a list without rows has no key. */
  datatype Db = Db(lists: seq<BlockList>, entries: map<nat, set<string>>, manual: seq<Manual>)

  function Entries(e: map<nat, set<string>>, id: nat): set<string> {
    if id in e then e[id] else {}
  }

  ghost predicate InManual(db: Db, kind: string, d: string) {
    exists i :: 0 <= i < |db.manual| && db.manual[i] == Manual(d, kind)
  }

  ghost predicate InLists(db: Db, allow: bool, d: string) {
    exists i :: 0 <= i < |db.lists| && db.lists[i].enabled && (db.lists[i].listType == "allow") == allow
                && d in Entries(db.entries, db.lists[i].id)
  }

  /** The policy itself: manual entries and enabled lists of one kind. */
  ghost predicate Allowed(db: Db, d: string) {
    InManual(db, "allow", d) || InLists(db, true, d)
  }

  ghost predicate Listed(db: Db, d: string) {
    InManual(db, "block", d) || InLists(db, false, d)
  }

  ghost predicate EffectivelyBlocked(db: Db, d: string) {
    Listed(db, d) && !Allowed(db, d)
  }

  method ManualDomains(db: Db, kind: string) returns (s: set<string>)
    ensures forall d :: d in s <==> InManual(db, kind, d)
  {
    s := {};
    for k := 0 to |db.manual|
      invariant forall d :: d in s <==> exists i :: 0 <= i < k && db.manual[i] == Manual(d, kind)
    {
      if db.manual[k].entryType == kind {
        assert db.manual[k] == Manual(db.manual[k].domain, kind);
        s := s + {db.manual[k].domain};
      }
    }
  }

  /** The two sets regenerate_rpz writes are the policy's. */
  method RegenerateRpz(db: Db) returns (effective: set<string>, allow: set<string>)
    ensures forall d :: d in allow <==> Allowed(db, d)
    ensures forall d :: d in effective <==> EffectivelyBlocked(db, d)
  {
    var blocked := ManualDomains(db, "block");
    allow := ManualDomains(db, "allow");
    for k := 0 to |db.lists|
      invariant forall d :: d in allow <==> InManual(db, "allow", d) || ListedUpTo(db, k, true, d)
      invariant forall d :: d in blocked <==> InManual(db, "block", d) || ListedUpTo(db, k, false, d)
    {
      assert forall d, a :: ListedUpTo(db, k + 1, a, d) <==> ListedUpTo(db, k, a, d) || Contributes(db, k, a, d);
      if db.lists[k].enabled {
        var current := Entries(db.entries, db.lists[k].id);
        if db.lists[k].listType == "allow" {
          allow := allow + current;
        } else {
          blocked := blocked + current;
        }
      }
    }
    forall d, a ensures ListedUpTo(db, |db.lists|, a, d) <==> InLists(db, a, d) {
      ListedUpToAll(db, a, d);
    }
    effective := blocked - allow;
  }

  ghost predicate Contributes(db: Db, k: nat, allow: bool, d: string)
    requires k < |db.lists|
  {
    db.lists[k].enabled && (db.lists[k].listType == "allow") == allow && d in Entries(db.entries, db.lists[k].id)
  }

  ghost predicate ListedUpTo(db: Db, n: nat, allow: bool, d: string)
    requires n <= |db.lists|
  {
    exists i :: 0 <= i < n && Contributes(db, i, allow, d)
  }

  lemma ListedUpToAll(db: Db, allow: bool, d: string)
    ensures ListedUpTo(db, |db.lists|, allow, d) <==> InLists(db, allow, d)
  {
    if ListedUpTo(db, |db.lists|, allow, d) {
      var i :| 0 <= i < |db.lists| && Contributes(db, i, allow, d);
      assert db.lists[i].enabled;
    }
    if InLists(db, allow, d) {
      var i :| 0 <= i < |db.lists| && db.lists[i].enabled && (db.lists[i].listType == "allow") == allow
               && d in Entries(db.entries, db.lists[i].id);
      assert Contributes(db, i, allow, d);
    }
  }

  // ------------------------------------------------------------------ the verdict on a query

  /** The name makeEvent looks up. */
  function QueryName(qname: string): string {
    TrimDot(Lower(qname))
  }

  predicate Flagged(blockedSet: set<string>, allowSet: set<string>, qname: string) {
    QueryName(qname) in blockedSet && QueryName(qname) !in allowSet
  }

  /** Every stored domain can be written on one line of a zone. */
  ghost predicate StorableDb(db: Db) {
    forall d :: Listed(db, d) || Allowed(db, d) ==> Storable(d)
  }

  /** Some effectively blocked entry, or some allowed one, mentions the name. For entries that are
      not storable that need not be the name they hold. */
  ghost predicate MentionsBlocked(db: Db, d: string) {
    exists e :: EffectivelyBlocked(db, e) && Mentions(e, d)
  }

  ghost predicate MentionsAllowed(db: Db, d: string) {
    exists e :: Allowed(db, e) && Mentions(e, d)
  }

  /** After regenerating, rendering in any order and reloading, a query is flagged exactly when a
      blocked entry and no allowed one mentions its name. For storable databases that is when the
      policy blocks its name and the name is one the loader can read. */
  lemma FlaggedIffPolicy(db: Db, effective: set<string>, allow: set<string>, now: nat,
                         blockOrder: seq<string>, allowOrder: seq<string>, qname: string)
    requires forall d :: d in allow <==> Allowed(db, d)
    requires forall d :: d in effective <==> EffectivelyBlocked(db, d)
    requires Enumerates(blockOrder, effective) && Enumerates(allowOrder, allow)
    ensures Flagged(Loaded(Split(ZoneText(now, BLOCK_COMMENT, blockOrder, BLOCK))),
                    Loaded(Split(ZoneText(now, ALLOW_COMMENT, allowOrder, PASSTHRU))), qname)
            <==> MentionsBlocked(db, QueryName(qname)) && !MentionsAllowed(db, QueryName(qname))
    ensures StorableDb(db) ==>
              (MentionsBlocked(db, QueryName(qname)) && !MentionsAllowed(db, QueryName(qname))
               <==> EffectivelyBlocked(db, QueryName(qname)) && Loadable(QueryName(qname)))
  {
    var d := QueryName(qname);
    CommentsFit();
    LoadOfRendered(now, BLOCK_COMMENT, blockOrder, BLOCK, d);
    LoadOfRendered(now, ALLOW_COMMENT, allowOrder, PASSTHRU, d);
    assert SomeMentions(blockOrder, d) <==> MentionsBlocked(db, d);
    assert SomeMentions(allowOrder, d) <==> MentionsAllowed(db, d);
    if StorableDb(db) { StorableVerdict(db, d); }
  }

  lemma StorableVerdict(db: Db, d: string)
    requires StorableDb(db)
    ensures MentionsBlocked(db, d) <==> EffectivelyBlocked(db, d) && Loadable(d)
    ensures MentionsAllowed(db, d) <==> Allowed(db, d) && Loadable(d)
  {
    forall e | Listed(db, e) || Allowed(db, e)
      ensures Mentions(e, d) <==> d == e && Loadable(d)
    {
      StorableMentionsItself(e, d);
    }
  }

  /** No entry is lost or read as a name that the policy treats differently: blocked names have no
      blank inside, an unstorable blocked entry mentions only names that are blocked or passed
      anyway, and an unstorable allowed entry mentions no blocked name. */
  ghost predicate NoStrays(db: Db) {
    && (forall e :: EffectivelyBlocked(db, e) && IsLower(e) && Loadable(e) ==> NoGoSpace(e))
    && (forall e, d :: EffectivelyBlocked(db, e) && !Storable(e) && Mentions(e, d) ==>
          EffectivelyBlocked(db, d) || MentionsAllowed(db, d))
    && (forall e, d :: Allowed(db, e) && !Storable(e) && Mentions(e, d) ==> !EffectivelyBlocked(db, d))
  }

  /** The verdict on a name: a blocked entry mentions it and no allowed one does. */
  ghost predicate VerdictIsPolicy(db: Db, d: string) {
    MentionsBlocked(db, d) && !MentionsAllowed(db, d) <==> EffectivelyBlocked(db, d) && Loadable(d)
  }

  lemma MentionedNamesAreClean(e: string, d: string)
    requires Mentions(e, d)
    ensures Storable(d) && Loadable(d)
  {
    var lines := Split(e + ".");
    var i :| 0 <= i < |lines| && NameOf(lines[i]) == Some(d);
    LoadLineIsNameOf(lines[i]);
    LoadLineFacts(lines[i]);
  }

  /** Every lower-case name is the name of some query. */
  lemma AnyLowerNameIsAsked(d: string)
    requires IsLower(d)
    ensures QueryName(d + ".") == d
  {
    LowerOfLower(d + ".");
  }

  lemma NoStraysVerdict(db: Db, d: string)
    requires NoStrays(db) && IsLower(d)
    ensures VerdictIsPolicy(db, d)
  {
    if e :| EffectivelyBlocked(db, e) && Mentions(e, d) {
      MentionedNamesAreClean(e, d);
      if Storable(e) { StorableMentionsItself(e, d); }
    }
    if EffectivelyBlocked(db, d) && Loadable(d) {
      StorableMentionsItself(d, d);
      if e :| Allowed(db, e) && Mentions(e, d) {
        if Storable(e) { StorableMentionsItself(e, d); }
      }
    }
  }

  /** For any database, storable or not: every query is judged as the policy says exactly when the
      database has no strays. */
  lemma VerdictIsPolicyIff(db: Db)
    ensures (forall q :: VerdictIsPolicy(db, QueryName(q))) <==> NoStrays(db)
  {
    if NoStrays(db) {
      forall q ensures VerdictIsPolicy(db, QueryName(q)) {
        NoStraysVerdict(db, QueryName(q));
      }
    }
    if forall q :: VerdictIsPolicy(db, QueryName(q)) {
      forall e | IsLower(e) ensures VerdictIsPolicy(db, e) {
        AnyLowerNameIsAsked(e);
        assert VerdictIsPolicy(db, QueryName(e + "."));
      }
      forall e, d | Mentions(e, d) ensures Storable(d) && Loadable(d) { MentionedNamesAreClean(e, d); }
    }
  }

  const BLOCK_COMMENT: string := "policy: " + "blocklist" + "-combined"
  const ALLOW_COMMENT: string := "whitelist " + "(rpz-" + "passthru)"

  lemma CommentsFit()
    ensures NoNewline(BLOCK_COMMENT) && NoNewline(ALLOW_COMMENT)
  {
  }

  // ------------------------------------------------------------------ what the resolver does

  /** Read by a resolver, the block zone answers NXDOMAIN for exactly the effectively blocked names
      and the allow zone lets exactly the allowed ones through, and neither does anything else. */
  ghost predicate ZonesAnswer(db: Db, blockZone: string, allowZone: string) {
    forall d ::
      && (Resolver.Answers(blockZone, d, Resolver.Nxdomain) <==> EffectivelyBlocked(db, d) && Resolver.Plain(d))
      && (Resolver.Answers(allowZone, d, Resolver.PassThru) <==> Allowed(db, d) && Resolver.Plain(d))
      && !Resolver.Answers(blockZone, d, Resolver.PassThru) && !Resolver.Answers(allowZone, d, Resolver.Nxdomain)
  }

  lemma ZonesObeyPolicy(db: Db, effective: set<string>, allow: set<string>, now: nat,
                        blockOrder: seq<string>, allowOrder: seq<string>)
    requires StorableDb(db)
    requires forall d :: d in allow <==> Allowed(db, d)
    requires forall d :: d in effective <==> EffectivelyBlocked(db, d)
    requires Enumerates(blockOrder, effective) && Enumerates(allowOrder, allow)
    ensures ZonesAnswer(db, ZoneText(now, BLOCK_COMMENT, blockOrder, BLOCK), ZoneText(now, ALLOW_COMMENT, allowOrder, PASSTHRU))
  {
    assert forall i :: 0 <= i < |blockOrder| ==> blockOrder[i] in effective;
    assert forall i :: 0 <= i < |allowOrder| ==> allowOrder[i] in allow;
    CommentsFit();
    forall d, a: Resolver.Action
      ensures Resolver.Answers(ZoneText(now, BLOCK_COMMENT, blockOrder, BLOCK), d, a)
              <==> EffectivelyBlocked(db, d) && Resolver.Plain(d) && a == Resolver.Nxdomain
      ensures Resolver.Answers(ZoneText(now, ALLOW_COMMENT, allowOrder, PASSTHRU), d, a)
              <==> Allowed(db, d) && Resolver.Plain(d) && a == Resolver.PassThru
    {
      Resolver.RenderedAnswers(now, BLOCK_COMMENT, blockOrder, BLOCK, Resolver.Nxdomain, d, a);
      Resolver.RenderedAnswers(now, ALLOW_COMMENT, allowOrder, PASSTHRU, Resolver.PassThru, d, a);
    }
  }

  /** The whole path, as the programs run it: the zones as the resolver reads them, and the sets that
      the processor loads from them. */
  method RegenerateAndReload(db: Db, now: nat)
    returns (blockZone: string, allowZone: string, blockedSet: set<string>, allowSet: set<string>)
    ensures StorableDb(db) ==> ZonesAnswer(db, blockZone, allowZone)
    ensures (forall q :: Flagged(blockedSet, allowSet, q) <==> EffectivelyBlocked(db, QueryName(q)) && Loadable(QueryName(q)))
            <==> NoStrays(db)
    ensures StorableDb(db) ==> NoStrays(db)
  {
    var effective, allow := RegenerateRpz(db);
    blockZone := Render(effective, now, BLOCK_COMMENT, BLOCK);
    allowZone := Render(allow, now, ALLOW_COMMENT, PASSTHRU);
    ghost var blockOrder :| Enumerates(blockOrder, effective) && blockZone == ZoneText(now, BLOCK_COMMENT, blockOrder, BLOCK);
    ghost var allowOrder :| Enumerates(allowOrder, allow) && allowZone == ZoneText(now, ALLOW_COMMENT, allowOrder, PASSTHRU);
    blockedSet := LoadFile(blockZone);
    allowSet := LoadFile(allowZone);
    if StorableDb(db) { ZonesObeyPolicy(db, effective, allow, now, blockOrder, allowOrder); }
    assert (forall q :: Flagged(blockedSet, allowSet, q) <==> EffectivelyBlocked(db, QueryName(q)) && Loadable(QueryName(q)))
           <==> NoStrays(db) by {
      VerdictsOfReload(db, effective, allow, now, blockOrder, allowOrder);
    }
  }

  lemma VerdictsOfReload(db: Db, effective: set<string>, allow: set<string>, now: nat,
                         blockOrder: seq<string>, allowOrder: seq<string>)
    requires forall d :: d in allow <==> Allowed(db, d)
    requires forall d :: d in effective <==> EffectivelyBlocked(db, d)
    requires Enumerates(blockOrder, effective) && Enumerates(allowOrder, allow)
    ensures var blockedSet := Loaded(Split(ZoneText(now, BLOCK_COMMENT, blockOrder, BLOCK)));
            var allowSet := Loaded(Split(ZoneText(now, ALLOW_COMMENT, allowOrder, PASSTHRU)));
            (forall q :: Flagged(blockedSet, allowSet, q) <==> EffectivelyBlocked(db, QueryName(q)) && Loadable(QueryName(q)))
            <==> NoStrays(db)
  {
    var blockedSet := Loaded(Split(ZoneText(now, BLOCK_COMMENT, blockOrder, BLOCK)));
    var allowSet := Loaded(Split(ZoneText(now, ALLOW_COMMENT, allowOrder, PASSTHRU)));
    forall q ensures Flagged(blockedSet, allowSet, q) <==> MentionsBlocked(db, QueryName(q)) && !MentionsAllowed(db, QueryName(q)) {
      FlaggedIffPolicy(db, effective, allow, now, blockOrder, allowOrder, q);
    }
    VerdictIsPolicyIff(db);
    assert (forall q :: VerdictIsPolicy(db, QueryName(q))) <==>
      forall q :: Flagged(blockedSet, allowSet, q) <==> EffectivelyBlocked(db, QueryName(q)) && Loadable(QueryName(q));
  }

  /** Flag and answer agree: for a storable database and any query name but "@" and those with a
      semicolon inside, the processor flags exactly what the resolver blocks. */
  lemma FlagMatchesAnswer(db: Db, effective: set<string>, allow: set<string>, now: nat,
                          blockOrder: seq<string>, allowOrder: seq<string>, qname: string)
    requires StorableDb(db)
    requires forall d :: d in allow <==> Allowed(db, d)
    requires forall d :: d in effective <==> EffectivelyBlocked(db, d)
    requires Enumerates(blockOrder, effective) && Enumerates(allowOrder, allow)
    requires QueryName(qname) != "@" && ';' !in QueryName(qname)
    ensures Flagged(Loaded(Split(ZoneText(now, BLOCK_COMMENT, blockOrder, BLOCK))),
                    Loaded(Split(ZoneText(now, ALLOW_COMMENT, allowOrder, PASSTHRU))), qname)
            <==> Resolver.Answers(ZoneText(now, BLOCK_COMMENT, blockOrder, BLOCK), QueryName(qname), Resolver.Nxdomain)
  {
    FlaggedIffPolicy(db, effective, allow, now, blockOrder, allowOrder, qname);
    ZonesObeyPolicy(db, effective, allow, now, blockOrder, allowOrder);
  }

  // ------------------------------------------------------------------ where stored domains come from

  ghost predicate EntriesStorable(e: map<nat, set<string>>) {
    forall id, d :: id in e && d in e[id] ==> Storable(d)
  }

  /** Each manual entry was stored from an input without white space between its ends. */
  ghost predicate ManualUnbroken(db: Db) {
    forall i :: 0 <= i < |db.manual| ==> exists raw :: db.manual[i].domain == NormalName(raw) && NoGoSpace(Strip(raw, PySpace))
  }

  /** List rows that came through the parser and unbroken manual inputs make a storable database. */
  lemma StorableParts(db: Db)
    requires EntriesStorable(db.entries) && ManualUnbroken(db)
    ensures StorableDb(db)
  {
    forall i | 0 <= i < |db.manual| ensures Storable(db.manual[i].domain) {
      var raw :| db.manual[i].domain == NormalName(raw) && NoGoSpace(Strip(raw, PySpace));
      ManualStorableIff(raw);
    }
  }

  /** The schedule of a list; times in seconds. */
  datatype Timer = Timer(frequencyHours: int, lastUpdated: Option<int>)

  const HOUR: int := 3600

  predicate Due(l: BlockList, t: Timer, now: int) {
    l.enabled && t.frequencyHours > 0
    && (t.lastUpdated.None? || now >= t.lastUpdated.value + t.frequencyHours * HOUR)
  }

  /** After an attempt a list is due again exactly when its interval has passed; one that was never
      fetched is due at once, and a disabled one or one without an interval never is. */
  lemma DueAgainIff(l: BlockList, t: Timer, now: int, later: int)
    ensures Due(l, t, now) ==> (Due(l, t.(lastUpdated := Some(now)), later) <==> later - now >= t.frequencyHours * 3600)
    ensures !l.enabled || t.frequencyHours <= 0 ==> !Due(l, t, now)
    ensures l.enabled && t.frequencyHours > 0 && t.lastUpdated.None? ==> Due(l, t, now)
  {
  }

  datatype Zones = Zones(effective: set<string>, allow: set<string>)

  /** The zones hold exactly what the policy says of the database. */
  ghost predicate ZonesOf(z: Zones, db: Db) {
    && (forall d :: d in z.allow <==> Allowed(db, d))
    && forall d :: d in z.effective <==> EffectivelyBlocked(db, d)
  }

  /** What the job leaves of one list: the parsed rows if it was due and fetched, else its old ones. */
  ghost predicate RowsAfter(before: set<string>, after: set<string>, due: bool, lines: Option<seq<string>>, format: string) {
    if due && lines.Some? then HoldsParsed(after, lines.value, format) else after == before
  }

  /** update_blocklists_job over fetched list texts: `lines[i]` is what the fetch of list i brought,
      if it succeeded. A due list counts as updated now even when its fetch failed. The zones are
      written again exactly when some list was fetched, from the database as it then is. Whatever
      printable text the lists hold, storable rows stay storable. */
  method UpdateBlocklistsJob(db: Db, timers: seq<Timer>, now: int, lines: seq<Option<seq<string>>>, formats: seq<string>)
    returns (db': Db, timers': seq<Timer>, zones: Option<Zones>)
    requires DistinctIds(db) && |timers| == |lines| == |formats| == |db.lists|
    ensures db'.lists == db.lists && db'.manual == db.manual
    ensures EntriesStorable(db.entries) && AllPrintable(lines) ==> EntriesStorable(db'.entries)
    ensures forall i :: 0 <= i < |db.lists| ==>
              RowsAfter(Entries(db.entries, db.lists[i].id), Entries(db'.entries, db.lists[i].id),
                        Due(db.lists[i], timers[i], now), lines[i], formats[i])
    ensures |timers'| == |timers| && forall i :: 0 <= i < |timers| ==>
              timers'[i] == if Due(db.lists[i], timers[i], now) then timers[i].(lastUpdated := Some(now)) else timers[i]
    ensures zones.Some? <==> exists i :: 0 <= i < |db.lists| && Due(db.lists[i], timers[i], now) && lines[i].Some?
    ensures zones.Some? ==> ZonesOf(zones.value, db')
  {
    var due: seq<bool>;
    timers', due := timers, [];
    for k := 0 to |db.lists|
      invariant |timers'| == |timers| && |due| == k
      invariant forall i :: 0 <= i < k ==> due[i] == Due(db.lists[i], timers[i], now)
      invariant forall i :: 0 <= i < |timers| ==>
        timers'[i] == if i < k && due[i] then timers[i].(lastUpdated := Some(now)) else timers[i]
    {
      var isDue := Due(db.lists[k], timers[k], now);
      due := due + [isDue];
      if isDue {
        timers' := timers'[k := timers[k].(lastUpdated := Some(now))];
      }
    }
    var updated;
    db', updated := FetchDue(db, due, lines, formats);
    zones := None;
    if updated > 0 {
      var effective, allow := RegenerateRpz(db');
      zones := Some(Zones(effective, allow));
    }
  }

  /** The rows of the due lists are replaced one list at a time. */
  method FetchDue(db: Db, due: seq<bool>, lines: seq<Option<seq<string>>>, formats: seq<string>)
    returns (db': Db, updated: nat)
    requires DistinctIds(db) && |due| == |lines| == |formats| == |db.lists|
    ensures db'.lists == db.lists && db'.manual == db.manual
    ensures EntriesStorable(db.entries) && AllPrintable(lines) ==> EntriesStorable(db'.entries)
    ensures forall i :: 0 <= i < |db.lists| ==>
              RowsAfter(Entries(db.entries, db.lists[i].id), Entries(db'.entries, db.lists[i].id), due[i], lines[i], formats[i])
    ensures updated > 0 <==> exists i :: 0 <= i < |db.lists| && due[i] && lines[i].Some?
  {
    var entries: map<nat, set<string>> := db.entries;
    ghost var clean := EntriesStorable(db.entries) && AllPrintable(lines);
    updated := 0;
    for k := 0 to |db.lists|
      invariant clean ==> EntriesStorable(entries)
      invariant forall i :: 0 <= i < k ==>
        RowsAfter(Entries(db.entries, db.lists[i].id), Entries(entries, db.lists[i].id), due[i], lines[i], formats[i])
      invariant forall i :: k <= i < |db.lists| ==> Entries(entries, db.lists[i].id) == Entries(db.entries, db.lists[i].id)
      invariant updated > 0 <==> exists i :: 0 <= i < k && due[i] && lines[i].Some?
    {
      if due[k] && lines[k].Some? {
        var domains := FetchAndParse(lines[k].value, formats[k]);
        if clean { StoreRows(entries, db.lists[k].id, domains); }
        OnlyOneList(db, entries, k, domains);
        entries := entries[db.lists[k].id := domains];
        updated := updated + 1;
      }
    }
    db' := Db(db.lists, entries, db.manual);
  }

  /** Writing the rows of one list leaves the others alone. */
  lemma OnlyOneList(db: Db, e: map<nat, set<string>>, k: nat, domains: set<string>)
    requires DistinctIds(db) && k < |db.lists|
    ensures Entries(e[db.lists[k].id := domains], db.lists[k].id) == domains
    ensures forall i :: 0 <= i < |db.lists| && i != k ==>
              Entries(e[db.lists[k].id := domains], db.lists[i].id) == Entries(e, db.lists[i].id)
  {
  }

  lemma StoreRows(e: map<nat, set<string>>, id: nat, domains: set<string>)
    requires EntriesStorable(e) && forall d :: d in domains ==> Storable(d)
    ensures EntriesStorable(e[id := domains])
  {
    var e' := e[id := domains];
    forall j, d | j in e' && d in e'[j] ensures Storable(d) {
      if j == id { assert d in domains; } else { assert j in e && d in e[j]; }
    }
  }

  /** The rows are exactly the domains the lines contribute. */
  ghost predicate HoldsParsed(rows: set<string>, lines: seq<string>, format: string) {
    forall d :: d in rows <==> Parses(lines, format, d)
  }

  ghost predicate PrintableLines(lines: seq<string>) {
    forall i :: 0 <= i < |lines| ==> Printable(Strip(lines[i], PySpace))
  }

  /** Every fetched text is printable. */
  ghost predicate AllPrintable(lines: seq<Option<seq<string>>>) {
    forall i :: 0 <= i < |lines| && lines[i].Some? ==> PrintableLines(lines[i].value)
  }

  /** Some line of the list contributes the domain. */
  ghost predicate Parses(lines: seq<string>, format: string, d: string) {
    exists i :: 0 <= i < |lines| && ParseLine(lines[i], Lower(Strip(format, PySpace)) == "hosts") == Some(d)
  }

  method FetchAndParse(lines: seq<string>, format: string) returns (domains: set<string>)
    ensures HoldsParsed(domains, lines, format)
    ensures PrintableLines(lines) ==> forall d :: d in domains ==> Storable(d)
  {
    domains := ParseBlocklistLines(lines, format);
    forall d | d in domains && PrintableLines(lines) ensures Storable(d) {
      var i :| 0 <= i < |lines| && ParseLine(lines[i], Lower(Strip(format, PySpace)) == "hosts") == Some(d);
      ParsedIsClean(lines[i], Lower(Strip(format, PySpace)) == "hosts");
    }
  }

  lemma {:induction false} RStripDots(s: string)
    ensures NoGoSpace(RStrip(s, Chars("."))) <==> NoGoSpace(s)
  {
    if s != [] && Belongs(s[|s| - 1], Chars(".")) {
      RStripDots(s[..|s| - 1]);
      assert s == s[..|s| - 1] + [s[|s| - 1]] && !IsGoSpace('.');
      assert s[|s| - 1] == '.';
    }
  }

  /** A manual entry is stored in a form that a zone can hold exactly when its input, without the
      white space around it, has none inside. */
  lemma ManualStorableIff(raw: string)
    ensures Storable(NormalName(raw)) <==> NoGoSpace(Strip(raw, PySpace))
  {
    var s := Strip(raw, PySpace);
    assert |Lower(s)| == |s| && forall i :: 0 <= i < |s| ==> Lower(s)[i] == LowerChar(s[i]);
    assert NoGoSpace(Lower(s)) <==> NoGoSpace(s) by {
      assert forall i :: 0 <= i < |s| ==> IsGoSpace(Lower(s)[i]) == IsGoSpace(s[i]);
    }
    RStripDots(Lower(s));
    RStripFacts(Lower(s), Chars("."));
  }

  lemma FirstWordIsRead(w: string, r: string)
    requires Storable(w) && Loadable(w) && TrimDot(w) == w && NoNewline(r)
    ensures Mentions(w + " " + r, w)
  {
    var e := w + " " + r;
    var line := w + (" " + (r + "."));
    assert e + "." == line;
    assert NoNewline(w);
    NoNewlineConcat(w, " ");
    NoNewlineConcat(w + " ", r);
    OneLineMentions(e, w);
    WordOf(w, r + ".");
    LowerOfLower(w);
    assert line[0] == w[0];
  }

  /** A blank inside a manual entry blocks another name: the zone written for two words makes the
      loader block the first, which no entry need mention. */
  lemma BlankInEntryBlocksAnotherName(now: nat, w: string, r: string)
    requires Storable(w) && Loadable(w) && TrimDot(w) == w && NoNewline(r)
    ensures !Storable(w + " " + r)
    ensures w in Loaded(Split(ZoneText(now, BLOCK_COMMENT, [w + " " + r], BLOCK)))
  {
    var e := w + " " + r;
    assert IsGoSpace(e[|w|]);
    FirstWordIsRead(w, r);
    CommentsFit();
    assert e in [e];
    LoadOfRendered(now, BLOCK_COMMENT, [e], BLOCK, w);
  }

  // ------------------------------------------------------------------ the second compiler

  ghost predicate DistinctIds(db: Db) {
    forall i, j :: 0 <= i < j < |db.lists| ==> db.lists[i].id != db.lists[j].id
  }

  /** What a list holds after the fetch round: the fetched domains, or its old rows. */
  function EntriesAfter(db: Db, fetched: seq<Option<set<string>>>, i: nat): set<string>
    requires i < |db.lists| && |fetched| == |db.lists|
  {
    if db.lists[i].enabled && fetched[i].Some? then fetched[i].value else Entries(db.entries, db.lists[i].id)
  }

  ghost predicate Fetched(db: Db, fetched: seq<Option<set<string>>>, n: nat, allow: bool, d: string)
    requires n <= |db.lists| == |fetched|
  {
    exists i :: 0 <= i < n && FetchGives(db, fetched, i, allow, d)
  }

  ghost predicate FetchGives(db: Db, fetched: seq<Option<set<string>>>, i: nat, allow: bool, d: string)
    requires i < |db.lists| == |fetched|
  {
    db.lists[i].enabled && (db.lists[i].listType == "allow") == allow && fetched[i].Some? && d in fetched[i].value
  }

  lemma FetchedStep(db: Db, fetched: seq<Option<set<string>>>, k: nat, allow: bool, d: string)
    requires k < |db.lists| == |fetched|
    ensures Fetched(db, fetched, k + 1, allow, d) <==> Fetched(db, fetched, k, allow, d) || FetchGives(db, fetched, k, allow, d)
  {
  }

  /** blocklists_apply: `fetched[i]` is the parse of list i, or nothing when its fetch failed. */
  method BlocklistsApply(db: Db, fetched: seq<Option<set<string>>>)
    returns (db': Db, zones: Zones)
    requires DistinctIds(db) && |fetched| == |db.lists|
    ensures AppliedTo(db, fetched, db') && Written(db, fetched, zones)
  {
    var blocked := ManualDomains(db, "block");
    var allow := ManualDomains(db, "allow");
    var entries: map<nat, set<string>> := db.entries;
    for k := 0 to |db.lists|
      invariant forall i :: 0 <= i < k ==> Entries(entries, db.lists[i].id) == EntriesAfter(db, fetched, i)
      invariant forall i :: k <= i < |db.lists| ==> Entries(entries, db.lists[i].id) == Entries(db.entries, db.lists[i].id)
      invariant forall d :: d in allow <==> InManual(db, "allow", d) || Fetched(db, fetched, k, true, d)
      invariant forall d :: d in blocked <==> InManual(db, "block", d) || Fetched(db, fetched, k, false, d)
    {
      forall d, a ensures Fetched(db, fetched, k + 1, a, d) <==> Fetched(db, fetched, k, a, d) || FetchGives(db, fetched, k, a, d) {
        FetchedStep(db, fetched, k, a, d);
      }
      if db.lists[k].enabled && fetched[k].Some? {
        var domains := fetched[k].value;
        entries := entries[db.lists[k].id := domains];
        if db.lists[k].listType == "allow" {
          allow := allow + domains;
        } else {
          blocked := blocked + domains;
        }
      }
    }
    zones := Zones(blocked - allow, allow);
    db' := Db(db.lists, entries, db.manual);
  }

  ghost predicate AppliedTo(db: Db, fetched: seq<Option<set<string>>>, db': Db)
    requires |fetched| == |db.lists|
  {
    && db'.lists == db.lists && db'.manual == db.manual
    && forall i :: 0 <= i < |db.lists| ==> Entries(db'.entries, db.lists[i].id) == EntriesAfter(db, fetched, i)
  }

  /** Rows that a failed fetch left in the database but not in the zones just written. */
  ghost predicate KeptByFailure(db: Db, fetched: seq<Option<set<string>>>, allow: bool, d: string)
    requires |fetched| == |db.lists|
  {
    exists i :: 0 <= i < |db.lists| && FailureKeeps(db, fetched, i, allow, d)
  }

  ghost predicate FailureKeeps(db: Db, fetched: seq<Option<set<string>>>, i: nat, allow: bool, d: string)
    requires i < |db.lists| == |fetched|
  {
    db.lists[i].enabled && (db.lists[i].listType == "allow") == allow && fetched[i].None?
    && d in Entries(db.entries, db.lists[i].id)
  }

  /** What the other compiler would now read from the lists: the fetched domains and the rows of
      the failed lists. */
  lemma ListsAfterApply(db: Db, fetched: seq<Option<set<string>>>, db': Db, allow: bool, d: string)
    requires |fetched| == |db.lists| && AppliedTo(db, fetched, db')
    ensures InLists(db', allow, d) <==>
              Fetched(db, fetched, |db.lists|, allow, d) || KeptByFailure(db, fetched, allow, d)
  {
    if InLists(db', allow, d) {
      var i :| 0 <= i < |db'.lists| && db'.lists[i].enabled && (db'.lists[i].listType == "allow") == allow
               && d in Entries(db'.entries, db'.lists[i].id);
      assert FetchGives(db, fetched, i, allow, d) || FailureKeeps(db, fetched, i, allow, d);
    }
    if i :| 0 <= i < |db.lists| && FetchGives(db, fetched, i, allow, d) {
      assert d in Entries(db'.entries, db'.lists[i].id);
    }
    if i :| 0 <= i < |db.lists| && FailureKeeps(db, fetched, i, allow, d) {
      assert d in Entries(db'.entries, db'.lists[i].id);
    }
  }

  /** The sets blocklists_apply writes. */
  ghost predicate Written(db: Db, fetched: seq<Option<set<string>>>, z: Zones)
    requires |fetched| == |db.lists|
  {
    && (forall d :: d in z.allow <==> InManual(db, "allow", d) || Fetched(db, fetched, |db.lists|, true, d))
    && forall d :: d in z.effective <==>
         (InManual(db, "block", d) || Fetched(db, fetched, |db.lists|, false, d)) && d !in z.allow
  }

  /** The two compilers agree on the database that blocklists_apply leaves exactly when no failed
      allow list kept a domain that nothing else allows, and no failed block list kept one that is
      neither allowed nor blocked by anything else. */
  lemma CompilersAgreeIff(db: Db, fetched: seq<Option<set<string>>>, db': Db, z: Zones)
    requires |fetched| == |db.lists| && AppliedTo(db, fetched, db') && Written(db, fetched, z)
    ensures ZonesOf(z, db')
            <==> && (forall d :: KeptByFailure(db, fetched, true, d) ==> d in z.allow)
                 && forall d :: KeptByFailure(db, fetched, false, d) && d !in z.allow ==> d in z.effective
  {
    forall d
      ensures Allowed(db', d) <==> d in z.allow || KeptByFailure(db, fetched, true, d)
      ensures Listed(db', d) <==>
                InManual(db, "block", d) || Fetched(db, fetched, |db.lists|, false, d) || KeptByFailure(db, fetched, false, d)
    {
      ListsAfterApply(db, fetched, db', true, d);
      ListsAfterApply(db, fetched, db', false, d);
    }
  }

  /** One enabled list with a stored domain and a failed fetch is enough: the zones just written
      lack the domain that the other compiler would write, whether the list blocks or allows. */
  lemma FailedFetchSplitsCompilers(d: string, listType: string, db': Db, z: Zones)
    requires var db := OneList(d, listType);
             AppliedTo(db, [None], db') && Written(db, [None], z)
    ensures !ZonesOf(z, db')
  {
    var db := OneList(d, listType);
    CompilersAgreeIff(db, [None], db', z);
    assert FailureKeeps(db, [None], 0, db.lists[0].listType == "allow", d);
    assert d !in z.allow && d !in z.effective;
  }

  function OneList(d: string, listType: string): Db {
    Db([BlockList(1, listType, true)], map[1 := {d}], [])
  }

  /** When every fetch succeeds, blocklists_apply writes what regenerate_rpz computes from the
      database it leaves. */
  lemma ApplyMatchesRegenerate(db: Db, fetched: seq<Option<set<string>>>, db': Db, z: Zones)
    requires |fetched| == |db.lists| && AppliedTo(db, fetched, db') && Written(db, fetched, z)
    requires forall i :: 0 <= i < |db.lists| && db.lists[i].enabled ==> fetched[i].Some?
    ensures ZonesOf(z, db')
  {
    CompilersAgreeIff(db, fetched, db', z);
  }
}
