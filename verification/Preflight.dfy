/**
 The paged walks of cmd/preflight: the certificate listing that decides what is pruned, and the search
 for a domain. Neither may turn "gave up" into "not there".
 */
module Preflight {
  import opened Text

  // ---------- listing certificates ----------

  datatype Certificate = Certificate(id: Option<string>, alias: Option<string>)

  datatype CertPage = CertPage(certs: seq<Certificate>, total: Option<nat>)

  datatype Fetched = Page(page: CertPage) | FetchFailed(message: string)

  datatype ListError = DidNotAdvance(pages: nat, collected: nat) | Failed(message: string)

  datatype Listing = Complete(certs: seq<Certificate>) | Stopped(error: ListError)

  /** A server: its answer to the k-th request, asked for `limit` entries from `offset` on. */
  type Server = (nat, nat, nat) -> Fetched

  /** The walk from its `page`-th request on, with `all` collected. */
  function ListFrom(server: Server, pageSize: nat, maxPages: nat, page: nat, all: seq<Certificate>): (Listing, nat)
    decreases maxPages - page
  {
    if page >= maxPages then (Stopped(DidNotAdvance(page, |all|)), page)
    else
      match server(page, |all|, pageSize)
      case FetchFailed(message) => (Stopped(Failed(message)), page + 1)
      case Page(p) =>
        var more := all + p.certs;
        if |p.certs| < pageSize || (p.total.Some? && |more| >= p.total.value) then (Complete(more), page + 1)
        else ListFrom(server, pageSize, maxPages, page + 1, more)
  }

  /** `listAllPages`. The offset asked for is always the number collected. */
  method ListAllPages(pageSize: nat, maxPages: nat, server: Server) returns (r: Listing, ghost fetches: nat)
    ensures r == ListFrom(server, pageSize, maxPages, 0, []).0
    ensures fetches == ListFrom(server, pageSize, maxPages, 0, []).1
    ensures fetches <= maxPages
    ensures r.Stopped? && r.error.DidNotAdvance? ==> fetches == maxPages
  {
    var all: seq<Certificate> := [];
    var offset := 0;
    var page := 0;
    fetches := 0;
    while true
      invariant fetches == page <= maxPages && offset == |all|
      invariant ListFrom(server, pageSize, maxPages, page, all) == ListFrom(server, pageSize, maxPages, 0, [])
      decreases maxPages - page
    {
      if page >= maxPages {
        return Stopped(DidNotAdvance(page, offset)), fetches;
      }
      var fetched := server(page, offset, pageSize);
      fetches := fetches + 1;
      match fetched {
        case FetchFailed(message) =>
          return Stopped(Failed(message)), fetches;
        case Page(p) =>
          all := all + p.certs;
          if |p.certs| < pageSize {
            return Complete(all), fetches;
          }
          offset := offset + |p.certs|;
          if p.total.Some? && offset >= p.total.value {
            return Complete(all), fetches;
          }
      }
      page := page + 1;
    }
  }

  /** What the first `n` requests of a walk bring together, each asking from the number collected on. */
  function Collected(server: Server, pageSize: nat, n: nat): seq<Certificate> {
    if n == 0 then []
    else
      var before := Collected(server, pageSize, n - 1);
      match server(n - 1, |before|, pageSize)
      case Page(p) => before + p.certs
      case FetchFailed(_) => before
  }

  /** The answer to the k-th request says the list is over: a short page, or a total that is covered. */
  predicate ListOver(server: Server, pageSize: nat, k: nat) {
    var f := server(k, |Collected(server, pageSize, k)|, pageSize);
    f.Page? && (|f.page.certs| < pageSize
                || (f.page.total.Some? && |Collected(server, pageSize, k + 1)| >= f.page.total.value))
  }

  predicate FetchFails(server: Server, pageSize: nat, k: nat) {
    server(k, |Collected(server, pageSize, k)|, pageSize).FetchFailed?
  }

  /** Against any server: the walk goes on to the first answer that ends the list or fails, and no further; what it
      returns is everything collected, and only then; running out of pages is an error. */
  lemma {:induction false} ListIsJustified(server: Server, pageSize: nat, maxPages: nat, page: nat)
    requires page <= maxPages
    ensures var (r, n) := ListFrom(server, pageSize, maxPages, page, Collected(server, pageSize, page));
      && page <= n <= maxPages
      && (forall k :: page <= k < n - 1 ==> !ListOver(server, pageSize, k) && !FetchFails(server, pageSize, k))
      && match r
         case Complete(certs) =>
           n > page && ListOver(server, pageSize, n - 1) && certs == Collected(server, pageSize, n)
         case Stopped(Failed(_)) => n > page && FetchFails(server, pageSize, n - 1)
         case Stopped(DidNotAdvance(_, m)) =>
           && n == maxPages && m == |Collected(server, pageSize, n)|
           && (n > page ==> !ListOver(server, pageSize, n - 1) && !FetchFails(server, pageSize, n - 1))
    decreases maxPages - page
  {
    if page < maxPages && !FetchFails(server, pageSize, page) && !ListOver(server, pageSize, page) {
      ListIsJustified(server, pageSize, maxPages, page + 1);
    }
  }

  /** The entries of `L` a request for `limit` from `offset` on is due. */
  function Slice(L: seq<Certificate>, offset: nat, limit: nat): seq<Certificate> {
    if offset >= |L| then [] else if offset + limit <= |L| then L[offset..offset + limit] else L[offset..]
  }

  /** A server that holds `L`, honours offset and limit, and reports the total truthfully or not at all. */
  ghost predicate Honest(server: Server, L: seq<Certificate>) {
    forall k: nat, offset: nat, limit: nat :: var f := server(k, offset, limit);
      f.Page? && f.page.certs == Slice(L, offset, limit) && (f.page.total.None? || f.page.total.value == |L|)
  }

  /** Whether the answer to the k-th request, from `offset` on, reports the total. */
  ghost predicate TellsTotal(server: Server, k: nat, offset: nat, limit: nat) {
    var f := server(k, offset, limit);
    f.Page? && f.page.total.Some?
  }

  /** How many entries so many pages hold. */
  function Room(pages: nat, size: nat): (r: nat)
    ensures pages == 0 ==> r == 0
    ensures pages > 0 ==> r >= size
  {
    if pages == 0 then 0 else size + Room(pages - 1, size)
  }

  lemma {:induction false} RoomIs(pages: nat, size: nat)
    ensures Room(pages, size) == pages * size
  {
    if pages > 0 {
      RoomIs(pages - 1, size);
      assert pages * size == (pages - 1) * size + size;
    }
  }

  /** One page of the walk on an honest server. */
  lemma HonestPage(server: Server, L: seq<Certificate>, pageSize: nat, maxPages: nat, page: nat, n: nat)
    requires Honest(server, L) && pageSize > 0 && page < maxPages && n <= |L|
    ensures ListFrom(server, pageSize, maxPages, page, L[..n]).0
         == if n + pageSize <= |L| && !(n + pageSize == |L| && TellsTotal(server, page, n, pageSize))
            then ListFrom(server, pageSize, maxPages, page + 1, L[..n + pageSize]).0
            else Complete(L)
  {
    var f := server(page, n, pageSize);
    assert f.page.certs == Slice(L, n, pageSize);
    SliceExtends(L, n, pageSize);
  }

  /** The pages left are enough for what is left of `L` after `n` entries. */
  ghost predicate Enough(server: Server, L: seq<Certificate>, pageSize: nat, maxPages: nat, page: nat, n: nat)
    requires pageSize > 0 && page <= maxPages && n <= |L|
  {
    var room := n + Room(maxPages - page, pageSize);
    |L| < room || (page < maxPages && |L| == room && TellsTotal(server, maxPages - 1, |L| - pageSize, pageSize))
  }

  lemma EnoughStep(server: Server, L: seq<Certificate>, pageSize: nat, maxPages: nat, page: nat, n: nat)
    requires pageSize > 0 && page < maxPages && n <= |L|
    ensures if n + pageSize <= |L| && !(n + pageSize == |L| && TellsTotal(server, page, n, pageSize))
            then Enough(server, L, pageSize, maxPages, page, n)
                 <==> Enough(server, L, pageSize, maxPages, page + 1, n + pageSize)
            else Enough(server, L, pageSize, maxPages, page, n)
  {
    assert Room(maxPages - page, pageSize) == pageSize + Room(maxPages - (page + 1), pageSize);
    if page + 1 == maxPages && n + pageSize == |L| { assert |L| - pageSize == n; }
  }

  /** The rest of the walk on an honest server, with `n` collected. */
  lemma {:induction false} HonestListFrom(server: Server, L: seq<Certificate>, pageSize: nat, maxPages: nat,
                                          page: nat, n: nat)
    requires Honest(server, L) && pageSize > 0 && page <= maxPages && n <= |L|
    ensures var r := ListFrom(server, pageSize, maxPages, page, L[..n]).0;
      if Enough(server, L, pageSize, maxPages, page, n) then r == Complete(L)
      else r.Stopped? && r.error.DidNotAdvance?
    decreases maxPages - page
  {
    if page < maxPages {
      HonestPage(server, L, pageSize, maxPages, page, n);
      EnoughStep(server, L, pageSize, maxPages, page, n);
      if n + pageSize <= |L| && !(n + pageSize == |L| && TellsTotal(server, page, n, pageSize)) {
        HonestListFrom(server, L, pageSize, maxPages, page + 1, n + pageSize);
      }
    }
  }

  lemma SliceExtends(L: seq<Certificate>, n: nat, limit: nat)
    requires n <= |L|
    ensures var s := Slice(L, n, limit);
      if n + limit < |L| then |s| == limit && L[..n] + s == L[..n + limit]
      else |s| == |L| - n && L[..n] + s == L && L[..n + |s|] == L
  {}

  /** Against an honest server the walk returns the whole list exactly when the list is shorter than the
      pages allow, or just fills them and the last page says so; otherwise it is an error, never a part. */
  lemma CompleteExactly(server: Server, L: seq<Certificate>, pageSize: nat, maxPages: nat)
    requires Honest(server, L) && pageSize > 0
    ensures var r := ListFrom(server, pageSize, maxPages, 0, []).0;
      && (r == Complete(L)
          <==> |L| < maxPages * pageSize
               || (maxPages > 0 && |L| == maxPages * pageSize
                   && TellsTotal(server, maxPages - 1, |L| - pageSize, pageSize)))
      && (r != Complete(L) ==> r.Stopped?)
  {
    RoomIs(maxPages, pageSize);
    HonestListFrom(server, L, pageSize, maxPages, 0, 0);
    assert L[..0] == [];
  }

  const PREFIX := "wecert/"

  predicate Mine(c: Certificate) { c.alias.Some? && PREFIX <= c.alias.value }

  function Doomed(certs: seq<Certificate>): (r: seq<Certificate>)
    ensures forall c :: c in r <==> c in certs && Mine(c)
  {
    if certs == [] then []
    else
      assert certs == [certs[0]] + certs[1..];
      (if Mine(certs[0]) then [certs[0]] else []) + Doomed(certs[1..])
  }

  lemma {:induction false} DoomedSnoc(certs: seq<Certificate>, c: Certificate)
    ensures Doomed(certs + [c]) == Doomed(certs) + if Mine(c) then [c] else []
  {
    if certs == [] {
      assert (certs + [c])[1..] == [];
    } else {
      var head := if Mine(certs[0]) then [certs[0]] else [];
      assert (certs + [c])[1..] == certs[1..] + [c];
      DoomedSnoc(certs[1..], c);
      Assoc(head, Doomed(certs[1..]), if Mine(c) then [c] else []);
    }
  }

  method WithPrefix(certs: seq<Certificate>) returns (doomed: seq<Certificate>)
    ensures doomed == Doomed(certs)
  {
    doomed := [];
    for i := 0 to |certs|
      invariant doomed == Doomed(certs[..i])
    {
      DoomedSnoc(certs[..i], certs[i]);
      assert certs[..i + 1] == certs[..i] + [certs[i]];
      var alias := if certs[i].alias.Some? then certs[i].alias.value else "<nil>";
      if PREFIX <= alias {
        doomed := doomed + [certs[i]];
      }
    }
    assert certs[..|certs|] == certs;
  }

  const PAGE_SIZE: nat := 100
  const CERT_PAGES: nat := 1000

  /** What `pruneCertificates` is about to delete: nothing unless the whole listing was read. */
  method SelectDoomed(server: Server) returns (doomed: seq<Certificate>, error: Option<ListError>)
    ensures match ListFrom(server, PAGE_SIZE, CERT_PAGES, 0, []).0
      case Complete(certs) =>
        && error == None && doomed == Doomed(certs)
        && forall c :: c in doomed <==> c in certs && c.alias.Some? && "wecert/" <= c.alias.value
      case Stopped(e) => error == Some(e) && doomed == []
  {
    var listing: Listing;
    ghost var fetches;
    listing, fetches := ListAllPages(PAGE_SIZE, CERT_PAGES, server);
    if listing.Stopped? {
      return [], Some(listing.error);
    }
    doomed := WithPrefix(listing.certs);
    error := None;
  }

  /** For an account of fewer than 100,000 certificates on an honest server, what is about to be deleted is
      exactly the certificates with the prefix; and whatever the account, nothing else ever is. */
  lemma PruneIsExact(server: Server, L: seq<Certificate>)
    requires Honest(server, L)
    ensures |L| < 100_000 ==> ListFrom(server, PAGE_SIZE, CERT_PAGES, 0, []).0 == Complete(L)
    ensures var r := ListFrom(server, PAGE_SIZE, CERT_PAGES, 0, []).0; r.Complete? ==> Doomed(r.certs) == Doomed(L)
  {
    CompleteExactly(server, L, PAGE_SIZE, CERT_PAGES);
  }

  // ---------- finding a domain ----------

  datatype Item = Item(name: Option<string>)

  datatype DomainPage = DomainPage(items: seq<Item>, total: Option<int>)

  datatype DomainReply = Domains(page: DomainPage) | NoData | NoResponse | CallFailed(message: string)

  datatype Found =
    | Holds(item: Item)
    | NotThere
    | GaveUp(pages: nat, seen: nat)
    | Unreadable(message: string)

  /** The answer to the k-th request, from an offset on. */
  type DomainServer = (nat, nat) -> DomainReply

  const PAGE_LIMIT: nat := 100
  const MAX_PAGES: nat := 100

  predicate Matches(i: Item, domain: string, same: (string, string) -> bool) {
    i.name.Some? && same(i.name.value, domain)
  }

  predicate NoMatch(items: seq<Item>, domain: string, same: (string, string) -> bool) {
    forall i <- items :: !Matches(i, domain, same)
  }

  /** The index of the first match; the length when there is none. */
  function FirstHit(items: seq<Item>, domain: string, same: (string, string) -> bool): (k: nat)
    ensures k <= |items| && NoMatch(items[..k], domain, same)
    ensures k < |items| ==> Matches(items[k], domain, same)
  {
    if items == [] || Matches(items[0], domain, same) then 0
    else
      var k := 1 + FirstHit(items[1..], domain, same);
      assert items[..k] == [items[0]] + items[1..][..k - 1];
      k
  }

  /** `d` is the name that was given, without its final dot if it has one. */
  predicate Stripped(given: string, d: string) {
    given == d + "." || (given == d && (d == "" || d[|d| - 1] != '.'))
  }

  /** A name pasted as an absolute one is searched without its dot, any other as it is. */
  lemma TrimmedOnce(given: string, d: string)
    ensures TrimDot(given) == d <==> Stripped(given, d)
    ensures TrimDot(d + ".") == d
  {
    if TrimDot(given) == d && given != d { assert given == given[..|given| - 1] + "."; }
  }

  function TrimDot(domain: string): string {
    if domain != "" && domain[|domain| - 1] == '.' then domain[..|domain| - 1] else domain
  }

  /** The walk from its `page`-th request on, after pages showing `seen`; with it, all that was seen in
      the end and the number of calls. */
  function FindFrom(server: DomainServer, domain: string, same: (string, string) -> bool, page: nat, seen: seq<Item>)
    : (Found, seq<Item>, nat)
    decreases MAX_PAGES - page
  {
    if page >= MAX_PAGES then (GaveUp(page, |seen|), seen, page)
    else
      match server(page, |seen|)
      case NoData => (NotThere, seen, page + 1)
      case CallFailed(message) => (Unreadable(message), seen, page + 1)
      case NoResponse => (Unreadable("empty response"), seen, page + 1)
      case Domains(p) =>
        var k := FirstHit(p.items, domain, same);
        var all := seen + p.items;
        if k < |p.items| then (Holds(p.items[k]), all, page + 1)
        else if p.items == [] || (p.total.Some? && |all| >= p.total.value) then (NotThere, all, page + 1)
        else FindFrom(server, domain, same, page + 1, all)
  }

  /** The paged search for a name. */
  method Search(server: DomainServer, domain: string, same: (string, string) -> bool)
    returns (r: Found, ghost seen: seq<Item>, ghost calls: nat)
    ensures (r, seen, calls) == FindFrom(server, domain, same, 0, [])
    ensures calls <= MAX_PAGES
  {
    var offset := 0;
    var page := 0;
    seen, calls := [], 0;
    while true
      invariant calls == page <= MAX_PAGES && offset == |seen|
      invariant FindFrom(server, domain, same, page, seen) == FindFrom(server, domain, same, 0, [])
      decreases MAX_PAGES - page
    {
      if page >= MAX_PAGES {
        return GaveUp(page, offset), seen, calls;
      }
      var reply := server(page, offset);
      calls := calls + 1;
      match reply {
        case NoData =>
          return NotThere, seen, calls;
        case CallFailed(message) =>
          return Unreadable(message), seen, calls;
        case NoResponse =>
          return Unreadable("empty response"), seen, calls;
        case Domains(p) =>
          seen := seen + p.items;
          for i := 0 to |p.items|
            invariant i <= FirstHit(p.items, domain, same)
          {
            HitFrom(p.items, domain, same, i);
            if p.items[i].name.Some? && same(p.items[i].name.value, domain) {
              return Holds(p.items[i]), seen, calls;
            }
          }
          offset := offset + |p.items|;
          if |p.items| == 0 {
            return NotThere, seen, calls;
          }
          if p.total.Some? && offset >= p.total.value {
            return NotThere, seen, calls;
          }
      }
      page := page + 1;
    }
  }

  lemma HitFrom(items: seq<Item>, domain: string, same: (string, string) -> bool, i: nat)
    requires i < |items| && i <= FirstHit(items, domain, same)
    ensures Matches(items[i], domain, same) <==> i == FirstHit(items, domain, same)
  {
    var k := FirstHit(items, domain, same);
    if i < k { assert items[i] == items[..k][i]; }
  }

  /** What the first `n` requests of a search bring together, each asking from the number seen on. */
  function Seen(server: DomainServer, n: nat): seq<Item> {
    if n == 0 then []
    else
      var before := Seen(server, n - 1);
      match server(n - 1, |before|)
      case Domains(p) => before + p.items
      case _ => before
  }

  /** The answer to the k-th request of a search. */
  function Answer(server: DomainServer, k: nat): DomainReply { server(k, |Seen(server, k)|) }

  /** An answer that there is no more: no data at all, an empty page, or a total that has been seen. */
  predicate SaysNoMore(server: DomainServer, k: nat) {
    match Answer(server, k)
    case NoData => true
    case Domains(p) => p.items == [] || (p.total.Some? && |Seen(server, k + 1)| >= p.total.value)
    case _ => false
  }

  /** The conclusion `r` follows from the answers to `calls` requests: a domain held is the first match seen, and in
      the last answer; one not there is matched by nothing seen, and the last answer was that there is no more. */
  predicate Justified(server: DomainServer, domain: string, same: (string, string) -> bool, r: Found, calls: nat) {
    var seen := Seen(server, calls);
    var hit := FirstHit(seen, domain, same);
    match r
    case GaveUp(pages, n) => calls == pages == MAX_PAGES && n == |seen| && hit == |seen|
    case Unreadable(_) => calls > 0 && (Answer(server, calls - 1).CallFailed? || Answer(server, calls - 1).NoResponse?)
    case Holds(item) => calls > 0 && |Seen(server, calls - 1)| <= hit < |seen| && item == seen[hit]
    case NotThere => calls > 0 && hit == |seen| && SaysNoMore(server, calls - 1)
  }

  /** None of the answers from the `from`-th up to the `to`-th says that there is no more, or fails. */
  predicate NoneDecides(server: DomainServer, from: nat, to: int)
    decreases to - from
  {
    from < to ==> Answer(server, from).Domains? && !SaysNoMore(server, from) && NoneDecides(server, from + 1, to)
  }

  lemma NoMatchConcat(a: seq<Item>, b: seq<Item>, domain: string, same: (string, string) -> bool)
    requires NoMatch(a, domain, same) && NoMatch(b, domain, same)
    ensures NoMatch(a + b, domain, same)
  {}

  /** Against any server the search goes on to the first answer that decides it, and its conclusion follows from the
      answers, within a hundred calls. */
  lemma {:induction false} FindIsJustified(server: DomainServer, domain: string, same: (string, string) -> bool,
                                           page: nat)
    requires NoMatch(Seen(server, page), domain, same) && page <= MAX_PAGES
    ensures var (r, seen, calls) := FindFrom(server, domain, same, page, Seen(server, page));
      && page <= calls <= MAX_PAGES && seen == Seen(server, calls)
      && Justified(server, domain, same, r, calls)
      && NoneDecides(server, page, calls - 1)
    decreases MAX_PAGES - page
  {
    if page == MAX_PAGES {
      NoHit(Seen(server, page), domain, same);
    } else if GoesOn(server, domain, same, page) {
      SearchGoesOn(server, domain, same, page);
      FindIsJustified(server, domain, same, page + 1);
    } else {
      SearchEnds(server, domain, same, page);
    }
  }

  /** The answer to the k-th request shows no match and does not say that there is no more. */
  predicate GoesOn(server: DomainServer, domain: string, same: (string, string) -> bool, k: nat) {
    var reply := Answer(server, k);
    reply.Domains? && FirstHit(reply.page.items, domain, same) == |reply.page.items| && !SaysNoMore(server, k)
  }

  lemma SearchGoesOn(server: DomainServer, domain: string, same: (string, string) -> bool, page: nat)
    requires NoMatch(Seen(server, page), domain, same) && page < MAX_PAGES && GoesOn(server, domain, same, page)
    ensures FindFrom(server, domain, same, page, Seen(server, page))
         == FindFrom(server, domain, same, page + 1, Seen(server, page + 1))
    ensures NoMatch(Seen(server, page + 1), domain, same)
  {
    var items := Answer(server, page).page.items;
    assert items[..|items|] == items;
    NoMatchConcat(Seen(server, page), items, domain, same);
  }

  lemma SearchEnds(server: DomainServer, domain: string, same: (string, string) -> bool, page: nat)
    requires NoMatch(Seen(server, page), domain, same) && page < MAX_PAGES && !GoesOn(server, domain, same, page)
    ensures var (r, seen, calls) := FindFrom(server, domain, same, page, Seen(server, page));
      calls == page + 1 && seen == Seen(server, calls) && Justified(server, domain, same, r, calls)
  {
    if !Answer(server, page).Domains? {
      NoHit(Seen(server, page), domain, same);
    } else if FirstHit(Answer(server, page).page.items, domain, same) < |Answer(server, page).page.items| {
      HitSeen(server, domain, same, page);
    } else {
      MissSeen(server, domain, same, page);
    }
  }

  lemma HitSeen(server: DomainServer, domain: string, same: (string, string) -> bool, page: nat)
    requires NoMatch(Seen(server, page), domain, same) && Answer(server, page).Domains?
    requires FirstHit(Answer(server, page).page.items, domain, same) < |Answer(server, page).page.items|
    ensures var items, n, seen := Answer(server, page).page.items, |Seen(server, page)|, Seen(server, page + 1);
      var k := FirstHit(items, domain, same);
      FirstHit(seen, domain, same) == n + k < |seen| && seen[n + k] == items[k]
  {
    var before, all, items := Seen(server, page), Seen(server, page + 1), Answer(server, page).page.items;
    assert all == before + items;
    assert all[|before|..] == items && all[..|before|] == before;
    HitInWhole(all, |before|, items, domain, same);
  }

  lemma MissSeen(server: DomainServer, domain: string, same: (string, string) -> bool, page: nat)
    requires NoMatch(Seen(server, page), domain, same) && Answer(server, page).Domains?
    requires FirstHit(Answer(server, page).page.items, domain, same) == |Answer(server, page).page.items|
    ensures FirstHit(Seen(server, page + 1), domain, same) == |Seen(server, page + 1)|
  {
    var items := Answer(server, page).page.items;
    assert items[..|items|] == items;
    NoMatchConcat(Seen(server, page), items, domain, same);
    NoHit(Seen(server, page + 1), domain, same);
  }

  lemma {:induction false} NoHit(items: seq<Item>, domain: string, same: (string, string) -> bool)
    requires NoMatch(items, domain, same)
    ensures FirstHit(items, domain, same) == |items|
  {
    if items != [] {
      assert items[0] in items;
      NoHit(items[1..], domain, same);
    }
  }

  /** A server that holds the matches `M` of the keyword and answers with a part of what remains: not empty
      and not over the limit, and at least `least` entries as long as that many remain. It says there is
      no data only when there is none at all. */
  ghost predicate HonestDomains(server: DomainServer, M: seq<Item>, least: nat) {
    forall k: nat, offset: nat | offset <= |M| :: HonestReply(server(k, offset), offset, M, least)
  }

  ghost predicate HonestReply(reply: DomainReply, offset: nat, M: seq<Item>, least: nat)
    requires offset <= |M|
  {
    match reply
    case Domains(page) =>
      && |page.items| <= PAGE_LIMIT && page.items <= M[offset..]
      && (offset < |M| ==> page.items != [])
      && (|page.items| >= least || offset + |page.items| == |M|)
      && (page.total.None? || page.total.value == |M|)
    case NoData => M == []
    case _ => false
  }

  /** Against an honest server absence is never guessed: "not there" means the whole list was seen and none
      matches, an item held is the first match, and the only other outcome is giving up at the cap on a
      list too long for it, with no match in what was seen. */
  lemma {:induction false} FindIsHonest(server: DomainServer, domain: string, same: (string, string) -> bool,
                                        M: seq<Item>, least: nat, page: nat, n: nat)
    requires HonestDomains(server, M, least) && n <= |M| && page <= MAX_PAGES
    requires n == |M| || page * least <= n
    requires page == 0 || (page - 1) * least < |M|
    requires NoMatch(M[..n], domain, same)
    ensures var (r, all, calls) := FindFrom(server, domain, same, page, M[..n]);
      match r
      case NotThere => all == M && NoMatch(M, domain, same)
      case Holds(item) => FirstHit(M, domain, same) < |M| && item == M[FirstHit(M, domain, same)]
      case GaveUp(_, m) => (MAX_PAGES - 1) * least < |M| && m <= |M| && all == M[..m] && NoMatch(all, domain, same)
      case Unreadable(_) => false
    decreases MAX_PAGES - page
  {
    var seen := M[..n];
    if page < MAX_PAGES {
      assert HonestReply(server(page, n), n, M, least);
      if server(page, n).NoData? {
        assert seen == M;
      } else {
        var p := server(page, n).page;
        var m := n + |p.items|;
        assert seen + p.items == M[..m];
        if m == |M| { assert M[..m] == M; }
        var k := FirstHit(p.items, domain, same);
        if k < |p.items| {
          HitInWhole(M, n, p.items, domain, same);
        } else {
          assert p.items[..k] == p.items;
          NoMatchConcat(seen, p.items, domain, same);
          if p.items != [] && !(p.total.Some? && m >= p.total.value) {
            assert (page + 1) * least == page * least + least;
            FindIsHonest(server, domain, same, M, least, page + 1, m);
          }
        }
      }
    }
  }

  lemma {:induction false} FirstHitIs(items: seq<Item>, domain: string, same: (string, string) -> bool, k: nat)
    requires k < |items| && Matches(items[k], domain, same) && NoMatch(items[..k], domain, same)
    ensures FirstHit(items, domain, same) == k
  {
    if k > 0 {
      assert items[0] in items[..k];
      assert items[1..][..k - 1] == items[..k][1..];
      FirstHitIs(items[1..], domain, same, k - 1);
    }
  }

  lemma HitInWhole(M: seq<Item>, n: nat, items: seq<Item>, domain: string, same: (string, string) -> bool)
    requires n <= |M| && NoMatch(M[..n], domain, same) && items <= M[n..]
    requires FirstHit(items, domain, same) < |items|
    ensures FirstHit(M, domain, same) == n + FirstHit(items, domain, same)
  {
    var k := FirstHit(items, domain, same);
    NoMatchConcat(M[..n], items[..k], domain, same);
    PrefixExtends(M, n, items, k);
    FirstHitIs(M, domain, same, n + k);
  }

  lemma PrefixExtends(M: seq<Item>, n: nat, items: seq<Item>, k: nat)
    requires n <= |M| && items <= M[n..] && k < |items|
    ensures n + k < |M| && M[..n + k] == M[..n] + items[..k] && M[n + k] == items[k]
  {
    assert items[..k] == M[n..][..k];
    assert items[k] == M[n..][k];
  }

  /** A list that leaves one of the hundred pages to spare is always decided: the domain is held exactly when
      some name in the list matches, and not there exactly when none does. */
  lemma DecidedWithinTheCap(server: DomainServer, domain: string, same: (string, string) -> bool,
                            M: seq<Item>, least: nat)
    requires HonestDomains(server, M, least) && |M| <= (MAX_PAGES - 1) * least
    ensures var r := FindFrom(server, domain, same, 0, []).0;
      (r.Holds? <==> !NoMatch(M, domain, same)) && (r.NotThere? <==> NoMatch(M, domain, same))
      && (r.Holds? ==> r.item in M && Matches(r.item, domain, same))
  {
    assert M[..0] == [];
    FindIsHonest(server, domain, same, M, least, 0, 0);
    var h := FirstHit(M, domain, same);
    if h < |M| { assert M[h] in M; }
  }

  /** The search ends with an item of the list whose name is the given one, exactly when there is one. */
  ghost predicate Decides(r: Found, M: seq<Item>, d: string, same: (string, string) -> bool) {
    if exists i <- M :: i.name.Some? && same(i.name.value, d)
    then r.Holds? && r.item in M && r.item.name.Some? && same(r.item.name.value, d)
    else r.NotThere?
  }

  /** What the search for the trimmed name comes to, for the name as it was given. */
  lemma AsGiven(service: string -> DomainServer, given: string, same: (string, string) -> bool)
    ensures forall d :: Stripped(given, d) ==> d == TrimDot(given)
    ensures var (r, _, calls) := FindFrom(service(TrimDot(given)), TrimDot(given), same, 0, []);
      && (r.GaveUp? ==> calls == MAX_PAGES)
      && forall d, M, least: nat :: Stripped(given, d) && HonestDomains(service(d), M, least) && |M| <= 99 * least ==>
           Decides(r, M, d, same)
  {
    var d := TrimDot(given);
    forall e | Stripped(given, e) ensures e == d { TrimmedOnce(given, e); }
    FindIsJustified(service(d), d, same, 0);
    forall M, least: nat | HonestDomains(service(d), M, least) && |M| <= 99 * least
      ensures Decides(FindFrom(service(d), d, same, 0, []).0, M, d, same) {
      DecidedWithinTheCap(service(d), d, same, M, least);
      assert NoMatch(M, d, same) <==> forall i <- M :: !Matches(i, d, same);
    }
  }

  /** `findDomain`: the name is trimmed once, asked for and compared with. */
  method FindDomain(service: string -> DomainServer, given: string, same: (string, string) -> bool)
    returns (r: Found, ghost seen: seq<Item>, ghost calls: nat)
    ensures forall d :: Stripped(given, d) ==> (r, seen, calls) == FindFrom(service(d), d, same, 0, [])
    ensures calls <= 100 && (r.GaveUp? ==> calls == 100)
    ensures forall d, M, least: nat ::
              Stripped(given, d) && HonestDomains(service(d), M, least) && |M| <= 99 * least ==> Decides(r, M, d, same)
  {
    var domain := TrimDot(given);
    AsGiven(service, given, same);
    r, seen, calls := Search(service(domain), domain, same);
  }
}
