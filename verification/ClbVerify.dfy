/**
 The binding verifier of cmd/clbverify: which certificate IDs a listener's answer puts up for assertion,
 the time-budgeted poll for the expected one, and the verdict.
 */
module ClbVerify {
  import opened Text

  // ---------- the API's answer ----------

  datatype Binding = Binding(certId: Option<string>, extCertIds: seq<Option<string>>)

  datatype Rule = Rule(domain: Option<string>, certificate: Option<Binding>)

  /** A listener; a rule may be absent from its slot. */
  datatype Listener = Listener(certificate: Option<Binding>, rules: seq<Option<Rule>>)

  datatype Error =
    | EncodeFailed
    | NoRuleServes(domain: string)
    | NothingBound
    | StillBound(id: string)
    | NotBound(id: string)

  function SetOf(s: seq<string>): set<string> { set x | x in s }

  function Deref(s: Option<string>): string { if s.Some? then s.value else "<nil>" }

  // ---------- the IDs of one binding ----------

  predicate Names(id: Option<string>) { id.Some? && id.value != "" }

  function Named(ids: seq<Option<string>>): (r: seq<string>)
    ensures forall x :: x in r <==> x != "" && Some(x) in ids
  {
    if ids == [] then []
    else
      assert ids == [ids[0]] + ids[1..];
      (if Names(ids[0]) then [ids[0].value] else []) + Named(ids[1..])
  }

  /** The primary certificate and the extension certificates, without empty or missing IDs. */
  function BindingIDs(c: Option<Binding>): seq<string> {
    if c.None? then [] else Named([c.value.certId] + c.value.extCertIds)
  }

  lemma {:induction false} NamedSnoc(ids: seq<Option<string>>, x: Option<string>)
    ensures Named(ids + [x]) == Named(ids) + (if Names(x) then [x.value] else [])
  {
    if ids == [] {
      assert ids + [x] == [x];
    } else {
      assert (ids + [x])[1..] == ids[1..] + [x];
      NamedSnoc(ids[1..], x);
    }
  }

  /** A binding names a certificate as its primary or as one of its extensions. */
  ghost predicate NamesID(b: Option<Binding>, x: string) {
    b.Some? && x != "" && (b.value.certId == Some(x) || Some(x) in b.value.extCertIds)
  }

  /** The IDs are those the binding names, the primary before the extensions. */
  lemma BindingIDsAre(b: Option<Binding>)
    ensures forall x :: x in BindingIDs(b) <==> NamesID(b, x)
    ensures b.Some? && NamesID(b, Deref(b.value.certId)) && b.value.certId.Some?
            ==> BindingIDs(b) != [] && Some(BindingIDs(b)[0]) == b.value.certId
  {
    if b.Some? {
      var ids := [b.value.certId] + b.value.extCertIds;
      assert forall i :: i in ids <==> i == b.value.certId || i in b.value.extCertIds;
      assert ids[0] == b.value.certId;
    }
  }

  method BoundCertIDs(c: Option<Binding>) returns (out: seq<string>)
    ensures out == BindingIDs(c)
    ensures forall x :: x in out <==> NamesID(c, x)
  {
    if c.None? {
      return [];
    }
    out := [];
    if c.value.certId.Some? && c.value.certId.value != "" {
      out := out + [c.value.certId.value];
    }
    var exts := c.value.extCertIds;
    assert [c.value.certId] + exts[..0] == [c.value.certId];
    for i := 0 to |exts|
      invariant out == Named([c.value.certId] + exts[..i])
    {
      NamedSnoc([c.value.certId] + exts[..i], exts[i]);
      assert [c.value.certId] + exts[..i + 1] == [c.value.certId] + exts[..i] + [exts[i]];
      if exts[i].Some? && exts[i].value != "" {
        out := out + [exts[i].value];
      }
    }
    assert exts[..|exts|] == exts;
    BindingIDsAre(c);
  }

  // ---------- the IDs of the rules ----------

  datatype RuleCert = RuleCert(domain: string, certIDs: seq<string>)

  function RuleCerts(rules: seq<Option<Rule>>): seq<RuleCert> {
    if rules == [] then []
    else
      (if rules[0].None? then []
       else [RuleCert(Deref(rules[0].value.domain), BindingIDs(rules[0].value.certificate))])
      + RuleCerts(rules[1..])
  }

  lemma {:induction false} RuleCertsSnoc(rules: seq<Option<Rule>>, r: Option<Rule>)
    ensures RuleCerts(rules + [r]) == RuleCerts(rules) + RuleCerts([r])
  {
    if rules == [] {
      assert rules + [r] == [r];
    } else {
      assert (rules + [r])[1..] == rules[1..] + [r];
      RuleCertsSnoc(rules[1..], r);
    }
  }

  method RuleCertificates(l: Listener) returns (out: seq<RuleCert>)
    ensures out == RuleCerts(l.rules)
  {
    out := [];
    for i := 0 to |l.rules|
      invariant out == RuleCerts(l.rules[..i])
    {
      var r := l.rules[i];
      RuleCertsSnoc(l.rules[..i], r);
      assert l.rules[..i + 1] == l.rules[..i] + [r];
      if r.None? {
        continue;
      }
      var ids := BoundCertIDs(r.value.certificate);
      out := out + [RuleCert(Deref(r.value.domain), ids)];
    }
    assert l.rules[..|l.rules|] == l.rules;
  }

  // ---------- the asserted set ----------

  /** The rules a domain selects; `same` compares names without regard to case. */
  predicate Selected(r: RuleCert, domain: string, same: (string, string) -> bool) {
    domain == "" || same(r.domain, domain)
  }

  /** The IDs the rules selected by `domain` carry. */
  ghost function RuleIDs(rules: seq<RuleCert>, domain: string, same: (string, string) -> bool): set<string> {
    if rules == [] then {}
    else
      var r := rules[|rules| - 1];
      RuleIDs(rules[..|rules| - 1], domain, same) + (if Selected(r, domain, same) then SetOf(r.certIDs) else {})
  }

  ghost predicate AnySelected(rules: seq<RuleCert>, domain: string, same: (string, string) -> bool) {
    rules != [] && (Selected(rules[|rules| - 1], domain, same) || AnySelected(rules[..|rules| - 1], domain, same))
  }

  lemma {:induction false} RuleIDsAre(rules: seq<RuleCert>, domain: string, same: (string, string) -> bool)
    ensures forall x :: x in RuleIDs(rules, domain, same)
                   <==> exists r <- rules :: Selected(r, domain, same) && x in r.certIDs
    ensures AnySelected(rules, domain, same) <==> exists r <- rules :: Selected(r, domain, same)
  {
    if rules != [] {
      var front, last := rules[..|rules| - 1], rules[|rules| - 1];
      RuleIDsAre(front, domain, same);
      assert forall r :: r in rules <==> r in front || r == last;
    }
  }

  ghost predicate Serves(l: Listener, domain: string, same: (string, string) -> bool) {
    exists r <- RuleCerts(l.rules) :: same(r.domain, domain)
  }

  /** Everything the listener can serve, or with a domain everything its rules can. */
  ghost function Asserted(l: Listener, domain: string, same: (string, string) -> bool): set<string> {
    (if domain == "" then SetOf(BindingIDs(l.certificate)) else {})
    + RuleIDs(RuleCerts(l.rules), domain, same)
  }

  /** The rule is there and its domain, `<nil>` when it has none, is the given one without regard to case. */
  ghost predicate RuleServes(r: Option<Rule>, domain: string, same: (string, string) -> bool) {
    r.Some? && same(if r.value.domain.Some? then r.value.domain.value else "<nil>", domain)
  }

  /** The listener's own binding, or that of a rule serving the domain, names the certificate; without a
      domain every rule counts, with one the listener's own binding does not. */
  ghost predicate Bound(l: Listener, domain: string, same: (string, string) -> bool, x: string) {
    || (domain == "" && NamesID(l.certificate, x))
    || RuleBound(l.rules, domain, same, x)
  }

  /** The entry of a rule that is there. */
  ghost function EntryOf(r: Rule): RuleCert { RuleCert(Deref(r.domain), BindingIDs(r.certificate)) }

  lemma {:induction false} RuleCertsAre(rules: seq<Option<Rule>>)
    ensures forall r <- rules :: r.Some? ==> EntryOf(r.value) in RuleCerts(rules)
    ensures forall rc <- RuleCerts(rules) :: exists r <- rules :: r.Some? && rc == EntryOf(r.value)
  {
    if rules != [] {
      var first, rest := RuleCerts(rules[..1]), RuleCerts(rules[1..]);
      RuleCertsAre(rules[1..]);
      assert forall r :: r in rules <==> r == rules[0] || r in rules[1..];
      assert RuleCerts(rules) == (if rules[0].None? then [] else [EntryOf(rules[0].value)]) + rest;
    }
  }

  /** Some rule that counts names the certificate. */
  ghost predicate RuleBound(rules: seq<Option<Rule>>, domain: string, same: (string, string) -> bool, x: string) {
    exists r <- rules :: r.Some? && (domain == "" || RuleServes(r, domain, same)) && NamesID(r.value.certificate, x)
  }

  lemma RuleIDsBound(rules: seq<Option<Rule>>, domain: string, same: (string, string) -> bool, x: string)
    ensures x in RuleIDs(RuleCerts(rules), domain, same) <==> RuleBound(rules, domain, same, x)
  {
    var certs := RuleCerts(rules);
    RuleCertsAre(rules);
    RuleIDsAre(certs, domain, same);
    if x in RuleIDs(certs, domain, same) {
      var rc :| rc in certs && Selected(rc, domain, same) && x in rc.certIDs;
      var r :| r in rules && r.Some? && rc == EntryOf(r.value);
      BindingIDsAre(r.value.certificate);
    }
    if RuleBound(rules, domain, same, x) {
      var r :| r in rules && r.Some? && (domain == "" || RuleServes(r, domain, same))
               && NamesID(r.value.certificate, x);
      BindingIDsAre(r.value.certificate);
      assert Selected(EntryOf(r.value), domain, same) && x in EntryOf(r.value).certIDs;
    }
  }

  lemma ServesExactly(l: Listener, domain: string, same: (string, string) -> bool)
    ensures Serves(l, domain, same) <==> exists r <- l.rules :: RuleServes(r, domain, same)
  {
    RuleCertsAre(l.rules);
    if Serves(l, domain, same) {
      var rc :| rc in RuleCerts(l.rules) && same(rc.domain, domain);
      var r :| r in l.rules && r.Some? && rc == EntryOf(r.value);
      assert RuleServes(r, domain, same);
    }
    if r :| r in l.rules && RuleServes(r, domain, same) {
      assert same(EntryOf(r.value).domain, domain);
    }
  }

  /** The asserted set is exactly what the listener's own fields bind, and a domain is served exactly when
      one of its rules has it. */
  lemma AssertedExactly(l: Listener, domain: string, same: (string, string) -> bool)
    ensures forall x :: x in Asserted(l, domain, same) <==> Bound(l, domain, same, x)
    ensures Serves(l, domain, same) <==> exists r <- l.rules :: RuleServes(r, domain, same)
  {
    BindingIDsAre(l.certificate);
    ServesExactly(l, domain, same);
    forall x ensures x in Asserted(l, domain, same) <==> Bound(l, domain, same, x) {
      RuleIDsBound(l.rules, domain, same, x);
    }
  }

  ghost predicate Distinct(s: seq<string>) {
    forall i, j :: 0 <= i < j < |s| ==> s[i] != s[j]
  }

  /** The IDs of `more` that are neither empty nor seen, once each, in order. */
  method Add(ids: seq<string>, seen: set<string>, more: seq<string>) returns (ids': seq<string>, seen': set<string>)
    requires Distinct(ids) && "" !in ids && seen == SetOf(ids)
    ensures Distinct(ids') && "" !in ids' && seen' == SetOf(ids')
    ensures ids <= ids' && seen' == seen + (set x | x in more && x != "")
  {
    ids', seen' := ids, seen;
    for i := 0 to |more|
      invariant Distinct(ids') && "" !in ids' && seen' == SetOf(ids')
      invariant ids <= ids' && seen' == seen + (set x | x in more[..i] && x != "")
    {
      assert more[..i + 1] == more[..i] + [more[i]];
      if more[i] == "" || more[i] in seen' {
        continue;
      }
      seen' := seen' + {more[i]};
      ids' := ids' + [more[i]];
    }
    assert more[..|more|] == more;
  }

  /** The same for IDs known not to be empty. */
  method AddAll(ids: seq<string>, seen: set<string>, more: seq<string>) returns (ids': seq<string>, seen': set<string>)
    requires Distinct(ids) && "" !in ids && seen == SetOf(ids) && "" !in more
    ensures Distinct(ids') && "" !in ids' && seen' == SetOf(ids')
    ensures seen' == seen + SetOf(more)
  {
    ids', seen' := Add(ids, seen, more);
    assert SetOf(more) == set x | x in more && x != "";
  }

  lemma NextRule(rules: seq<RuleCert>, i: nat, domain: string, same: (string, string) -> bool)
    requires i < |rules|
    ensures RuleIDs(rules[..i + 1], domain, same)
         == RuleIDs(rules[..i], domain, same) + if Selected(rules[i], domain, same) then SetOf(rules[i].certIDs) else {}
    ensures AnySelected(rules[..i + 1], domain, same)
       <==> Selected(rules[i], domain, same) || AnySelected(rules[..i], domain, same)
  {
    assert rules[..i + 1][..i] == rules[..i];
  }

  /** The IDs of the selected rules added to `ids`, and whether any rule was selected. */
  method AddRules(l: Listener, domain: string, same: (string, string) -> bool, ids: seq<string>, seen: set<string>)
    returns (ids': seq<string>, matched: bool)
    requires Distinct(ids) && "" !in ids && seen == SetOf(ids)
    ensures Distinct(ids') && "" !in ids'
    ensures SetOf(ids') == SetOf(ids) + RuleIDs(RuleCerts(l.rules), domain, same)
    ensures matched <==> AnySelected(RuleCerts(l.rules), domain, same)
  {
    ids', matched := ids, false;
    var seen' := seen;
    var rules := RuleCertificates(l);
    for i := 0 to |rules|
      invariant Distinct(ids') && "" !in ids' && seen' == SetOf(ids')
      invariant seen' == seen + RuleIDs(rules[..i], domain, same)
      invariant matched <==> AnySelected(rules[..i], domain, same)
    {
      NextRule(rules, i, domain, same);
      RuleIDsNonempty(l.rules, rules[i]);
      if domain == "" || same(rules[i].domain, domain) {
        matched := true;
        ids', seen' := AddAll(ids', seen', rules[i].certIDs);
      }
    }
    assert rules[..|rules|] == rules;
  }

  /** The asserted set is duplicate-free, has no empty ID, and is exactly the certificates the listener
      and its rules carry, or those of the rules serving the domain; naming a domain no rule serves is
      an error. */
  method AssertedCertificates(l: Listener, domain: string, same: (string, string) -> bool)
    returns (ids: seq<string>, err: Option<Error>)
    ensures Distinct(ids) && "" !in ids
    ensures err.None? ==> SetOf(ids) == Asserted(l, domain, same)
    ensures err.None? ==> forall x :: x in ids <==> Bound(l, domain, same, x)
    ensures err.Some? <==> domain != "" && !Serves(l, domain, same)
    ensures err.Some? <==> domain != "" && !exists r <- l.rules :: RuleServes(r, domain, same)
    ensures err.Some? ==> err == Some(NoRuleServes(domain)) && ids == []
  {
    AssertedExactly(l, domain, same);
    var seen: set<string>, matched := {}, false;
    ids, err := [], None;
    if domain == "" {
      var own := BoundCertIDs(l.certificate);
      ids, seen := AddAll(ids, seen, own);
      ids, matched := AddRules(l, domain, same, ids, seen);
      return;
    }
    RuleIDsAre(RuleCerts(l.rules), domain, same);
    ids, matched := AddRules(l, domain, same, ids, seen);
    if !matched {
      return [], Some(NoRuleServes(domain));
    }
  }

  lemma {:induction false} RuleIDsNonempty(rules: seq<Option<Rule>>, r: RuleCert)
    requires r in RuleCerts(rules)
    ensures "" !in r.certIDs
  {
    if rules != [] && r in RuleCerts(rules[1..]) { RuleIDsNonempty(rules[1..], r); }
  }

  /** A set asserted for one served domain is part of the set asserted for the whole listener. */
  lemma ScopedIsSubset(l: Listener, domain: string, same: (string, string) -> bool)
    ensures Asserted(l, domain, same) <= Asserted(l, "", same)
  {
    RuleIDsAre(RuleCerts(l.rules), domain, same);
    RuleIDsAre(RuleCerts(l.rules), "", same);
    forall x | x in RuleIDs(RuleCerts(l.rules), domain, same) ensures x in RuleIDs(RuleCerts(l.rules), "", same) {
      var r :| r in RuleCerts(l.rules) && Selected(r, domain, same) && x in r.certIDs;
      assert Selected(r, "", same);
    }
  }

  // ---------- polling ----------

  /** What a query returns: a set of IDs, or an error. */
  datatype Reply = IDs(ids: seq<string>) | Failed(message: string)

  /** `fetchBoundCertIDs` on the listener a query found, if it found one. */
  method FetchBoundCertIDs(found: Option<Listener>, domain: string, same: (string, string) -> bool) returns (r: Reply)
    ensures r.IDs? <==> found.Some? && (domain == "" || Serves(found.value, domain, same))
                        && Asserted(found.value, domain, same) != {}
    ensures r.IDs? ==> Distinct(r.ids) && SetOf(r.ids) == Asserted(found.value, domain, same)
    ensures Reports(r, found, domain, same)
  {
    if found.None? {
      return Failed("the listener does not exist");
    }
    var ids, err := AssertedCertificates(found.value, domain, same);
    if err.Some? {
      return Failed("no forwarding rule");
    }
    if |ids| == 0 {
      return Failed("no certificate bound");
    }
    assert ids[0] in Asserted(found.value, domain, same);
    assert Bound(found.value, domain, same, ids[0]);
    return IDs(ids);
  }

  /** A query's answer: what the listener found binds for the domain; an error when no listener was found
      or it binds nothing for it. */
  ghost predicate Reports(r: Reply, found: Option<Listener>, domain: string, same: (string, string) -> bool) {
    && (r.IDs? <==> found.Some? && exists x :: Bound(found.value, domain, same, x))
    && (r.IDs? ==> forall x :: x in r.ids <==> Bound(found.value, domain, same, x))
  }

  /** Five seconds, in nanoseconds. */
  const INTERVAL: nat := 5_000_000_000

  /** The outside world of one wait: what the k-th query answers, how long it takes, how late its sleep
      ends, and whether the context is done before that sleep ends. */
  datatype World = World(answer: nat -> Reply, took: nat -> nat, late: nat -> nat, done: nat -> bool)

  datatype Polled = Polled(ids: seq<string>, lastErr: Option<string>, queries: nat)

  function ErrorOf(r: Reply): Option<string> { if r.IDs? then None else Some(r.message) }

  function Min(a: int, b: int): int { if a < b then a else b }

  /** The wait from its k-th query on, begun at `now`. */
  function PollFrom(w: World, wanted: string, deadline: int, k: nat, now: int, ids: seq<string>): (p: Polled)
    ensures p.queries > k
    decreases deadline - now
  {
    var t := now + w.took(k);
    var reply := w.answer(k);
    var seen := if reply.IDs? then reply.ids else ids;
    if (reply.IDs? && wanted in reply.ids) || t >= deadline || w.done(k) then Polled(seen, ErrorOf(reply), k + 1)
    else PollFrom(w, wanted, deadline, k + 1, t + Min(deadline - t, INTERVAL) + w.late(k), seen)
  }

  /** The set of the latest query among the first `n` that succeeded; empty when none did. */
  function LatestGood(w: World, n: nat): seq<string> {
    if n == 0 then []
    else if w.answer(n - 1).IDs? then w.answer(n - 1).ids
    else LatestGood(w, n - 1)
  }

  /** The queries a budget allows at most: one at once, and one after each started interval of it. */
  function MaxQueries(budget: int): nat {
    (if budget <= 0 then 0 else (budget + INTERVAL - 1) / INTERVAL) + 1
  }

  lemma {:induction false} PollFromFacts(w: World, wanted: string, start: int, budget: int,
                                         k: nat, now: int, ids: seq<string>)
    requires ids == LatestGood(w, k)
    requires now >= start && (k > 0 ==> (k - 1) * INTERVAL < budget && now >= start + Min(budget, k * INTERVAL))
    ensures var o := PollFrom(w, wanted, start + budget, k, now, ids);
      && k < o.queries <= MaxQueries(budget)
      && o.ids == LatestGood(w, o.queries)
      && o.lastErr == ErrorOf(w.answer(o.queries - 1))
      && (forall j :: k <= j < o.queries - 1 ==> w.answer(j).IDs? ==> wanted !in w.answer(j).ids)
    decreases start + budget - now
  {
    var deadline, t := start + budget, now + w.took(k);
    var reply := w.answer(k);
    WithinBudget(budget, k);
    if !((reply.IDs? && wanted in reply.ids) || t >= deadline || w.done(k)) {
      var later := t + Min(deadline - t, INTERVAL) + w.late(k);
      NextInTime(start, budget, k, now, t, later);
      PollFromFacts(w, wanted, start, budget, k + 1, later, if reply.IDs? then reply.ids else ids);
    }
  }

  lemma NextInTime(start: int, budget: int, k: nat, now: int, t: int, later: int)
    requires now >= start && (k > 0 ==> now >= start + Min(budget, k * INTERVAL))
    requires now <= t < start + budget && later >= t + Min(start + budget - t, INTERVAL)
    ensures k * INTERVAL < budget && later >= start + Min(budget, (k + 1) * INTERVAL)
  {
  }

  lemma WithinBudget(budget: int, k: nat)
    requires k > 0 ==> (k - 1) * INTERVAL < budget
    ensures k + 1 <= MaxQueries(budget)
  {
    if k > 0 {
      var q := (budget + INTERVAL - 1) / INTERVAL;
      assert budget <= q * INTERVAL;
    }
  }

  function Poll(w: World, wanted: string, start: int, budget: int): (p: Polled)
    ensures p.queries > 0
  {
    PollFrom(w, wanted, start + budget, 0, start, [])
  }

  /** A wait queries at least once and at most once per started interval of its budget and once more,
      however long each query takes. It returns the set of the latest query that succeeded and the
      error of the last query; and when that set holds the expected ID it is the last answer. */
  lemma PollFacts(w: World, wanted: string, start: int, budget: int)
    ensures var o := Poll(w, wanted, start, budget);
      && 1 <= o.queries <= MaxQueries(budget)
      && o.ids == LatestGood(w, o.queries)
      && (o.lastErr.None? <==> w.answer(o.queries - 1).IDs?)
      && (o.lastErr.Some? ==> w.answer(o.queries - 1) == Failed(o.lastErr.value))
      && (wanted in o.ids ==> w.answer(o.queries - 1) == IDs(o.ids))
  {
    PollFromFacts(w, wanted, start, budget, 0, start, []);
    var o := Poll(w, wanted, start, budget);
    if !w.answer(o.queries - 1).IDs? { NotSeenEarlier(w, wanted, o.queries - 1); }
  }

  lemma {:induction false} NotSeenEarlier(w: World, wanted: string, n: nat)
    requires forall j :: 0 <= j < n ==> w.answer(j).IDs? ==> wanted !in w.answer(j).ids
    ensures wanted !in LatestGood(w, n)
  {
    if n > 0 && !w.answer(n - 1).IDs? { NotSeenEarlier(w, wanted, n - 1); }
  }

  /** When the k-th query of a wait is made. */
  function QueriedAt(w: World, start: int, budget: int, k: nat): int {
    if k == 0 then start
    else
      var t := QueriedAt(w, start, budget, k - 1) + w.took(k - 1);
      t + Min(start + budget - t, INTERVAL) + w.late(k - 1)
  }

  /** The k-th query is reason to stop: it finds the expected ID, it ends past the deadline, or the context is done. */
  predicate Ends(w: World, wanted: string, start: int, budget: int, k: nat) {
    || (w.answer(k).IDs? && wanted in w.answer(k).ids)
    || QueriedAt(w, start, budget, k) + w.took(k) >= start + budget
    || w.done(k)
  }

  lemma {:induction false} StopsFrom(w: World, wanted: string, start: int, budget: int,
                                     k: nat, now: int, ids: seq<string>)
    requires now == QueriedAt(w, start, budget, k)
    ensures var q := PollFrom(w, wanted, start + budget, k, now, ids).queries;
      && k < q && Ends(w, wanted, start, budget, q - 1)
      && forall j :: k <= j < q - 1 ==> !Ends(w, wanted, start, budget, j)
    decreases start + budget - now
  {
    if !Ends(w, wanted, start, budget, k) {
      var later := QueriedAt(w, start, budget, k + 1);
      StopsFrom(w, wanted, start, budget, k + 1, later, if w.answer(k).IDs? then w.answer(k).ids else ids);
    }
  }

  /** A wait stops at the first query that is reason to, and not before. */
  lemma StopsAtFirstReason(w: World, wanted: string, start: int, budget: int)
    ensures var q := Poll(w, wanted, start, budget).queries;
      && q > 0 && Ends(w, wanted, start, budget, q - 1)
      && forall j :: 0 <= j < q - 1 ==> !Ends(w, wanted, start, budget, j)
  {
    StopsFrom(w, wanted, start, budget, 0, start, []);
  }

  /** `pollUntilBound` over a clock. The sleeps it asks for are reported: none is longer than the
      interval or goes past the deadline. */
  method PollUntilBound(w: World, wanted: string, start: int, budget: int)
    returns (ids: seq<string>, lastErr: Option<string>, ghost queries: nat, ghost sleeps: seq<(int, int)>)
    ensures ids == Poll(w, wanted, start, budget).ids
    ensures lastErr == Poll(w, wanted, start, budget).lastErr
    ensures queries == Poll(w, wanted, start, budget).queries
    ensures 1 <= queries <= MaxQueries(budget) && |sleeps| == queries - 1
    ensures forall s <- sleeps :: 0 < s.1 <= 5_000_000_000 && s.0 + s.1 <= start + budget
  {
    PollFacts(w, wanted, start, budget);
    var deadline, now := start + budget, start;
    ids, lastErr, queries, sleeps := [], None, 0, [];
    var k := 0;
    while true
      invariant queries == k == |sleeps|
      invariant PollFrom(w, wanted, deadline, k, now, ids) == Poll(w, wanted, start, budget)
      invariant forall s <- sleeps :: 0 < s.1 <= INTERVAL && s.0 + s.1 <= deadline
      decreases deadline - now
    {
      var reply := w.answer(k);
      now := now + w.took(k);
      queries := queries + 1;
      match reply {
        case Failed(message) => lastErr := Some(message);
        case IDs(got) =>
          lastErr := None;
          ids := got;
          if wanted in ids {
            return;
          }
      }
      var remaining := deadline - now;
      if remaining <= 0 {
        return;
      }
      if remaining > INTERVAL {
        remaining := INTERVAL;
      }
      if w.done(k) {
        return;
      }
      sleeps := sleeps + [(now, remaining)];
      now := now + remaining + w.late(k);
      k := k + 1;
    }
  }

  // ---------- the verdict ----------

  datatype Options = Options(domain: string, wanted: string, unwanted: string, wait: int)

  predicate Accepts(bound: set<string>, wanted: string, unwanted: string) {
    (unwanted != "" ==> unwanted !in bound) && (wanted != "" ==> wanted in bound)
  }

  method AssertBindings(bound: seq<string>, wanted: string, unwanted: string) returns (err: Option<Error>)
    ensures err.None? <==> Accepts(SetOf(bound), wanted, unwanted)
    ensures err.Some? ==> err == Some(StillBound(unwanted)) || err == Some(NotBound(wanted))
    ensures err == Some(StillBound(unwanted)) <==> unwanted != "" && unwanted in bound
  {
    if unwanted != "" && unwanted in bound {
      return Some(StillBound(unwanted));
    }
    if wanted != "" && wanted !in bound {
      return Some(NotBound(wanted));
    }
    return None;
  }

  /** Whether the first answer sends the verifier into the wait. */
  ghost predicate Waits(first: set<string>, o: Options) {
    o.wanted != "" && o.wait > 0 && o.wanted !in first
  }

  /** The set the assertions are held against: the first one, or what the wait ended with. */
  ghost function Judged(first: set<string>, o: Options, w: World, start: int): set<string> {
    if Waits(first, o) then SetOf(Poll(w, o.wanted, start, o.wait).ids) else first
  }

  ghost predicate Passes(l: Listener, o: Options, same: (string, string) -> bool, w: World, start: int) {
    var first := Asserted(l, o.domain, same);
    && (o.domain != "" ==> Serves(l, o.domain, same))
    && first != {}
    && Accepts(Judged(first, o, w, start), o.wanted, o.unwanted)
  }

  /** The verdict. Whether the answer was also dumped (`raw`) has no part in it, as long as the dump can
      be encoded. */
  method EvaluateListener(l: Listener, o: Options, raw: bool, encodable: bool,
                          same: (string, string) -> bool, w: World, start: int)
    returns (err: Option<Error>)
    ensures err == Some(EncodeFailed) <==> raw && !encodable
    ensures !(raw && !encodable) ==> (err.None? <==> Passes(l, o, same, w, start))
    ensures !(raw && !encodable) ==>
              && (err == Some(NoRuleServes(o.domain))
                  <==> o.domain != "" && !exists r <- l.rules :: RuleServes(r, o.domain, same))
              && (err == Some(NothingBound)
                  <==> (o.domain == "" || exists r <- l.rules :: RuleServes(r, o.domain, same))
                       && !exists x :: Bound(l, o.domain, same, x))
  {
    if raw && !encodable {
      return Some(EncodeFailed);
    }
    var bound;
    bound, err := AssertedCertificates(l, o.domain, same);
    if err.Some? {
      return;
    }
    ghost var first := Asserted(l, o.domain, same);
    if |bound| == 0 {
      assert first == {};
      return Some(NothingBound);
    }
    assert bound[0] in first;
    assert Bound(l, o.domain, same, bound[0]);
    if o.wanted != "" && o.wait > 0 && o.wanted !in bound {
      var lastErr;
      ghost var queries, sleeps;
      bound, lastErr, queries, sleeps := PollUntilBound(w, o.wanted, start, o.wait);
    }
    assert SetOf(bound) == Judged(first, o, w, start);
    err := AssertBindings(bound, o.wanted, o.unwanted);
  }

  /** The answer already settles it: nothing is wanted, there is no time to wait, or the wanted
      certificate is bound. */
  ghost predicate NoNeedToWait(l: Listener, o: Options, same: (string, string) -> bool) {
    o.wanted == "" || o.wait <= 0 || Bound(l, o.domain, same, o.wanted)
  }

  /** The verdict over the listener's own fields. It passes exactly when a rule serves the domain, something
      is bound, the wanted certificate is bound and the unwanted one is not; when it had to wait these two
      are held against the last query's answer alone. */
  lemma PassExactly(l: Listener, o: Options, same: (string, string) -> bool, w: World, start: int)
    ensures Passes(l, o, same, w, start) <==>
            && (o.domain == "" || exists r <- l.rules :: RuleServes(r, o.domain, same))
            && (exists x :: Bound(l, o.domain, same, x))
            && if NoNeedToWait(l, o, same) then
                 && (o.unwanted != "" ==> !Bound(l, o.domain, same, o.unwanted))
                 && (o.wanted != "" ==> Bound(l, o.domain, same, o.wanted))
               else
                 var last := w.answer(Poll(w, o.wanted, start, o.wait).queries - 1);
                 last.IDs? && o.wanted in last.ids && (o.unwanted != "" ==> o.unwanted !in last.ids)
  {
    AssertedExactly(l, o.domain, same);
    var first := Asserted(l, o.domain, same);
    assert first != {} <==> exists x :: x in first;
    assert Waits(first, o) <==> !NoNeedToWait(l, o, same);
    if Waits(first, o) {
      PollFacts(w, o.wanted, start, o.wait);
      var polled := Poll(w, o.wanted, start, o.wait);
      if o.wanted in polled.ids { assert w.answer(polled.queries - 1) == IDs(polled.ids); }
    }
  }

  /** When the k-th query finds `found(k)` and reports it, a pass after a wait means that the listener of the
      last query binds the wanted certificate and does not bind the unwanted one, as primary or extension. */
  lemma PassAfterWait(l: Listener, o: Options, same: (string, string) -> bool, w: World, start: int,
                      found: nat -> Option<Listener>)
    requires forall k :: Reports(w.answer(k), found(k), o.domain, same)
    requires Passes(l, o, same, w, start) && !NoNeedToWait(l, o, same)
    ensures var last := found(Poll(w, o.wanted, start, o.wait).queries - 1);
      && last.Some? && Bound(last.value, o.domain, same, o.wanted)
      && (o.unwanted != "" ==> !Bound(last.value, o.domain, same, o.unwanted))
  {
    PassExactly(l, o, same, w, start);
    var k := Poll(w, o.wanted, start, o.wait).queries - 1;
    assert Reports(w.answer(k), found(k), o.domain, same);
  }

  /** A pass rests on one observed set: the first answer's, or the latest successful re-query's, and that
      one set has the wanted ID and lacks the unwanted one. After a wait the set is the last answer. */
  lemma PassIsObserved(l: Listener, o: Options, same: (string, string) -> bool, w: World, start: int)
    requires Passes(l, o, same, w, start)
    ensures var first := Asserted(l, o.domain, same);
      if Waits(first, o) then
        var last := Poll(w, o.wanted, start, o.wait).queries - 1;
        && 0 <= last < MaxQueries(o.wait) && w.answer(last).IDs?
        && Accepts(SetOf(w.answer(last).ids), o.wanted, o.unwanted)
      else Accepts(first, o.wanted, o.unwanted)
  {
    var first := Asserted(l, o.domain, same);
    if Waits(first, o) {
      PollFacts(w, o.wanted, start, o.wait);
      var polled := Poll(w, o.wanted, start, o.wait);
      assert w.answer(polled.queries - 1) == IDs(polled.ids);
    }
  }

  /** A wait in which every query fails never passes. */
  lemma AllFailedNeverPasses(l: Listener, o: Options, same: (string, string) -> bool, w: World, start: int)
    requires Waits(Asserted(l, o.domain, same), o) && forall k :: w.answer(k).Failed?
    ensures !Passes(l, o, same, w, start)
  {
    if Passes(l, o, same, w, start) { PassIsObserved(l, o, same, w, start); }
  }

  /** Seen whole, the listener vouches for each of its domains: an ID absent from the whole set is absent
      for every domain, and one found for a domain is in the whole set. */
  lemma WholeVouchesForParts(l: Listener, domain: string, same: (string, string) -> bool, id: string)
    ensures Accepts(Asserted(l, "", same), "", id) ==> Accepts(Asserted(l, domain, same), "", id)
    ensures Accepts(Asserted(l, domain, same), id, "") ==> Accepts(Asserted(l, "", same), id, "")
  {
    ScopedIsSubset(l, domain, same);
  }
}
