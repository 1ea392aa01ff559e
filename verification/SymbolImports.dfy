/**
 What one import makes of a payload's symbol links (quant_data/company/stage4_importer.py):
 which payloads are accepted, which links are resolved, and what is stored of them.
 */
module SymbolImports {
  import opened Wrappers
  import opened Ordering
  import opened VersionChains
  import opened SymbolLinks

  // ----- one issuer -----

  predicate IsSymbol(l: Link) {
    l.kind in {TickerLink, ProviderSymbolLink}
  }

  /** The i-th link is a security over the whole interval of `l`, and no other one is. */
  ghost predicate OnlySecurity(issuer: Issuer, l: Link, i: int) {
    && 0 <= i < |issuer.links| && SecurityOver(issuer.links[i], l)
    && forall j :: 0 <= j < |issuer.links| && SecurityOver(issuer.links[j], l) ==> j == i
  }

  ghost predicate SecurityOver(candidate: Link, l: Link) {
    candidate.kind == SecurityLink && forall date :: On(l.span, date) ==> On(candidate.span, date)
  }

  ghost predicate HasOneSecurity(issuer: Issuer, l: Link) {
    exists i :: OnlySecurity(issuer, l, i)
  }

  ghost predicate OneSecurityIs(issuer: Issuer, l: Link, security: string) {
    exists i :: OnlySecurity(issuer, l, i) && issuer.links[i].identifier == security
  }

  /** The symbol links, in order. */
  function SymbolsAmong(links: seq<Link>): (r: seq<Link>)
    ensures forall l :: l in r <==> l in links && IsSymbol(l)
  {
    if links == [] then []
    else
      assert links == [links[0]] + links[1..];
      (if IsSymbol(links[0]) then [links[0]] else []) + SymbolsAmong(links[1..])
  }

  lemma {:induction false} SymbolsAmongSnoc(links: seq<Link>, l: Link)
    ensures SymbolsAmong(links + [l]) == SymbolsAmong(links) + (if IsSymbol(l) then [l] else [])
  {
    if links != [] {
      assert (links + [l])[1..] == links[1..] + [l];
      SymbolsAmongSnoc(links[1..], l);
    } else {
      assert links + [l] == [l] && [l][1..] == [];
    }
  }

  function LinksOf(found: seq<Resolved>): (r: seq<Link>)
    ensures |r| == |found| && forall i :: 0 <= i < |r| ==> r[i] == found[i].link
  {
    if found == [] then [] else LinksOf(found[..|found| - 1]) + [found[|found| - 1].link]
  }

  lemma CoveringIsOver(candidate: Link, l: Link)
    requires NotInverted(l.span)
    ensures Covering(candidate, l) <==> SecurityOver(candidate, l)
  {
    CoversMeansInside(candidate.span, l.span);
    hide Covers, On;
  }

  lemma {:induction false} CoveringCount(links: seq<Link>, l: Link, i: nat)
    requires i < |links| && Covering(links[i], l)
    requires forall j :: 0 <= j < |links| && Covering(links[j], l) ==> j == i
    ensures CoveringLinks(links, l) == [links[i]]
  {
    hide Covering;
    var n := |links| - 1;
    assert forall j :: 0 <= j < n ==> links[..n][j] == links[j];
    if i < n {
      CoveringCount(links[..n], l, i);
    } else {
      NoneCovering(links[..n], l);
    }
  }

  lemma {:induction false} NoneCovering(links: seq<Link>, l: Link)
    requires forall j :: 0 <= j < |links| ==> !Covering(links[j], l)
    ensures CoveringLinks(links, l) == []
  {
    hide Covering;
    if links != [] { NoneCovering(links[..|links| - 1], l); }
  }

  /** Resolution succeeds exactly when one security is over the link, and gives that one. */
  lemma {:induction false} SecurityExactly(issuer: Issuer, l: Link)
    requires NotInverted(l.span)
    ensures SecurityFor(issuer, l).Ok? <==> HasOneSecurity(issuer, l)
    ensures forall security :: OneSecurityIs(issuer, l, security) <==> SecurityFor(issuer, l) == Ok(security)
  {
    hide Covering, CoveringLinks, SecurityOver;
    forall j | 0 <= j < |issuer.links|
      ensures Covering(issuer.links[j], l) <==> SecurityOver(issuer.links[j], l)
    {
      CoveringIsOver(issuer.links[j], l);
    }
    forall i | OnlySecurity(issuer, l, i) ensures CoveringLinks(issuer.links, l) == [issuer.links[i]] {
      CoveringCount(issuer.links, l, i);
    }
    if SecurityFor(issuer, l).Ok? {
      var i := OnlyCovering(issuer.links, l);
      assert OnlySecurity(issuer, l, i);
    }
  }

  predicate SpansFine(links: seq<Link>) {
    forall l :: l in links ==> NotInverted(l.span)
  }

  lemma {:induction false} SymbolsInExactly(issuer: Issuer, links: seq<Link>)
    requires SpansFine(links)
    ensures SymbolsIn(issuer, links).Ok? <==> forall l :: l in links && IsSymbol(l) ==> HasOneSecurity(issuer, l)
    ensures SymbolsIn(issuer, links).Ok? ==> LinksOf(SymbolsIn(issuer, links).value) == SymbolsAmong(links)
  {
    hide SecurityFor, HasOneSecurity, NotInverted, LinksOf, SymbolsAmong;
    NoLinks();
    if links != [] {
      var n := |links| - 1;
      assert links == links[..n] + [links[n]];
      SymbolsInExactly(issuer, links[..n]);
      SecurityExactly(issuer, links[n]);
      SymbolsAmongSnoc(links[..n], links[n]);
      if SymbolsIn(issuer, links[..n]).Ok? && SecurityFor(issuer, links[n]).Ok? {
        LinksOfSnoc(SymbolsIn(issuer, links[..n]).value,
                    Resolved(issuer.id, links[n], SecurityFor(issuer, links[n]).value));
      }
    }
  }

  lemma {:induction false} NoLinks()
    ensures LinksOf([]) == [] && SymbolsAmong([]) == []
  {
  }

  lemma {:induction false} LinksOfSnoc(found: seq<Resolved>, r: Resolved)
    ensures LinksOf(found + [r]) == LinksOf(found) + [r.link]
  {
    assert (found + [r])[..|found|] == found;
  }

  lemma {:induction false} LinksOfMembers(found: seq<Resolved>, others: seq<Resolved>)
    requires multiset(found) == multiset(others)
    ensures multiset(LinksOf(found)) == multiset(LinksOf(others))
    decreases |found|
  {
    if found == [] {
      assert |multiset(others)| == 0;
    } else {
      var n := |found| - 1;
      var j := SameRest(found, others);
      LinksOfMembers(found[..n], others[..j] + others[j + 1..]);
      LinksWithout(others, j);
      LinksWithout(found, n);
      assert found[..n] + found[n + 1..] == found[..n];
    }
  }

  lemma {:induction false} LinksWithout(found: seq<Resolved>, j: nat)
    requires j < |found|
    ensures multiset(LinksOf(found)) == multiset(LinksOf(found[..j] + found[j + 1..])) + multiset{found[j].link}
  {
    hide LinksOf;
    var links := LinksOf(found);
    WithoutPlace(links, j);
    assert LinksOf(found[..j] + found[j + 1..]) == links[..j] + links[j + 1..];
  }

  /** `_symbol_links`: it succeeds exactly when each ticker and provider symbol has one
      security over its interval, and then finds exactly those links, each with it. */
  lemma {:induction false} SymbolsExactly(issuer: Issuer)
    requires SpansFine(issuer.links)
    ensures SymbolsOf(issuer).Ok? <==> forall l :: l in issuer.links && IsSymbol(l) ==> HasOneSecurity(issuer, l)
    ensures SymbolsOf(issuer).Ok? ==>
      && multiset(LinksOf(SymbolsOf(issuer).value)) == multiset(SymbolsAmong(issuer.links))
      && forall r :: r in SymbolsOf(issuer).value ==>
           r.issuer == issuer.id && OneSecurityIs(issuer, r.link, r.security)
  {
    hide SymbolsIn, IsSymbol, HasOneSecurity, OneSecurityIs, SpansFine, LinksOf, Sort, SymbolsAmong;
    SymbolsInExactly(issuer, issuer.links);
    if SymbolsOf(issuer).Ok? {
      LinksOfMembers(SymbolsIn(issuer, issuer.links).value, SymbolsOf(issuer).value);
      forall r | r in SymbolsOf(issuer).value
        ensures r.issuer == issuer.id && OneSecurityIs(issuer, r.link, r.security)
      {
        ResolvedHasSecurity(issuer, r);
      }
    }
  }

  lemma {:induction false} ResolvedHasSecurity(issuer: Issuer, r: Resolved)
    requires SpansFine(issuer.links) && SymbolsOf(issuer).Ok? && r in SymbolsOf(issuer).value
    ensures r.issuer == issuer.id && r.link in issuer.links && OneSecurityIs(issuer, r.link, r.security)
  {
    SortMembers(SymbolsIn(issuer, issuer.links).value, ResolvedLt);
    hide Sort, ResolvedLt, OneSecurityIs, SecurityFor, NotInverted;
    SymbolsInFacts(issuer, issuer.links, r);
    SecurityExactly(issuer, r.link);
  }

  // ----- their order -----

  lemma {:induction false} TextsOrder(a: seq<string>, b: seq<string>, c: seq<string>)
    ensures !TextsLt(a, a)
    ensures TextsLt(a, b) && TextsLt(b, c) ==> TextsLt(a, c)
    ensures TextsLt(a, c) ==> TextsLt(a, b) || TextsLt(b, c)
  {
    hide TextLt;
    if a != [] {
      TextIrreflexive(a[0]);
      if b != [] && c != [] {
        TextTotal(a[0], b[0]);
        TextTotal(b[0], c[0]);
        if TextLt(a[0], b[0]) && TextLt(b[0], c[0]) { TextTransitive(a[0], b[0], c[0]); }
        if TextLt(b[0], a[0]) && TextLt(a[0], c[0]) { TextTransitive(b[0], a[0], c[0]); }
        TextsOrder(a[1..], b[1..], c[1..]);
      } else {
        TextsOrder(a[1..], a[1..], a[1..]);
      }
    }
  }

  lemma ResolvedOrder()
    ensures StrictWeak(ResolvedLt)
  {
    hide TextsLt, SortKey;
    forall a { TextsOrder(SortKey(a), SortKey(a), SortKey(a)); }
    forall a, b, c
      ensures ResolvedLt(a, b) && ResolvedLt(b, c) ==> ResolvedLt(a, c)
      ensures ResolvedLt(a, c) ==> ResolvedLt(a, b) || ResolvedLt(b, c)
    {
      TextsOrder(SortKey(a), SortKey(b), SortKey(c));
    }
  }

  function Ending(s: Span): string {
    if s.through.Some? then s.through.value else ""
  }

  /** By provider, then identifier, security and interval. */
  lemma {:induction false} SymbolsInOrder(issuer: Issuer, i: nat, j: nat)
    requires SymbolsOf(issuer).Ok? && i < j < |SymbolsOf(issuer).value|
    ensures var a, b := SymbolsOf(issuer).value[i], SymbolsOf(issuer).value[j];
      && TextLe(a.link.provider, b.link.provider)
      && (a.link.provider == b.link.provider ==>
            && TextLe(a.link.identifier, b.link.identifier)
            && (a.link.identifier == b.link.identifier ==>
                  && TextLe(a.security, b.security)
                  && (a.security == b.security ==>
                        && TextLe(a.link.span.from, b.link.span.from)
                        && (a.link.span.from == b.link.span.from ==>
                              TextLe(Ending(a.link.span), Ending(b.link.span))))))
  {
    hide SymbolsIn, ResolvedLt, Sort, TextLt;
    ResolvedOrder();
    SortSorted(SymbolsIn(issuer, issuer.links).value, ResolvedLt);
    NotBefore(SymbolsOf(issuer).value[j], SymbolsOf(issuer).value[i]);
  }

  /** Links that are stored under one key stay in the order they were given. */
  lemma {:induction false} OneKeyStaysInOrder(issuer: Issuer, r: Resolved)
    requires SymbolsOf(issuer).Ok?
    ensures Tied(SymbolsOf(issuer).value, r, ResolvedLt) == Tied(SymbolsIn(issuer, issuer.links).value, r, ResolvedLt)
    ensures forall q :: WriteOf(q).key == WriteOf(r).key ==> !ResolvedLt(q, r) && !ResolvedLt(r, q)
  {
    hide SymbolsIn, ResolvedLt, Sort, Tied;
    ResolvedOrder();
    SortIsStable(SymbolsIn(issuer, issuer.links).value, r, ResolvedLt);
    forall q | WriteOf(q).key == WriteOf(r).key ensures !ResolvedLt(q, r) && !ResolvedLt(r, q) {
      SameSortKey(q, r);
    }
  }

  lemma SameSortKey(q: Resolved, r: Resolved)
    requires WriteOf(q).key == WriteOf(r).key
    ensures !ResolvedLt(q, r) && !ResolvedLt(r, q)
  {
    hide TextsLt;
    TextsOrder(SortKey(r), SortKey(r), SortKey(r));
  }

  lemma NotBefore(b: Resolved, a: Resolved)
    requires !ResolvedLt(b, a)
    ensures TextLe(a.link.provider, b.link.provider)
    ensures a.link.provider == b.link.provider ==>
      && TextLe(a.link.identifier, b.link.identifier)
      && (a.link.identifier == b.link.identifier ==>
            && TextLe(a.security, b.security)
            && (a.security == b.security ==>
                  && TextLe(a.link.span.from, b.link.span.from)
                  && (a.link.span.from == b.link.span.from ==> TextLe(Ending(a.link.span), Ending(b.link.span)))))
  {
    hide TextLt;
    var x, y := SortKey(b), SortKey(a);
    assert x[1..] == [x[1], x[2], x[3], x[4]] && y[1..] == [y[1], y[2], y[3], y[4]];
    assert x[1..][1..] == [x[2], x[3], x[4]] && y[1..][1..] == [y[2], y[3], y[4]];
    assert x[1..][1..][1..] == [x[3], x[4]] && y[1..][1..][1..] == [y[3], y[4]];
    assert x[1..][1..][1..][1..] == [x[4]] && y[1..][1..][1..][1..] == [y[4]];
    assert TextLt(x[4], y[4]) ==> TextsLt([x[4]], [y[4]]);
    assert x[3] == y[3] && TextsLt([x[4]], [y[4]]) ==> TextsLt([x[3], x[4]], [y[3], y[4]]);
    assert x[2] == y[2] && TextsLt([x[3], x[4]], [y[3], y[4]]) ==> TextsLt([x[2], x[3], x[4]], [y[2], y[3], y[4]]);
    assert x[1] == y[1] && TextsLt([x[2], x[3], x[4]], [y[2], y[3], y[4]]) ==> TextsLt(x[1..], y[1..]);
    assert TextLt(x[1], y[1]) ==> TextsLt(x[1..], y[1..]);
  }

  // ----- one payload -----

  ghost predicate ShareDate(a: Span, b: Span) {
    exists date :: On(a, date) && On(b, date)
  }

  predicate SameName(a: Link, b: Link) {
    a.provider == b.provider && a.identifier == b.identifier
  }

  ghost predicate Repeats(a: Link, b: Link) {
    a.kind == b.kind && SameName(a, b) && ShareDate(a.span, b.span)
  }

  ghost predicate NoRepeat(links: seq<Link>) {
    forall a, b :: 0 <= a < b < |links| ==> !Repeats(links[a], links[b])
  }

  ghost predicate NoRepeatAcross(links: seq<Link>, others: seq<Link>) {
    forall a, b :: a in links && b in others ==> !Repeats(a, b)
  }

  /** No identifier of a kind is given twice for one date, by one issuer or by two. */
  ghost predicate NothingRepeated(issuers: seq<Issuer>) {
    && (forall i :: 0 <= i < |issuers| ==> NoRepeat(issuers[i].links))
    && (forall i, j :: 0 <= i < j < |issuers| ==> NoRepeatAcross(issuers[i].links, issuers[j].links))
  }

  lemma RepeatsExactly(a: Link, b: Link)
    requires NotInverted(a.span) && NotInverted(b.span)
    ensures SameIdentifierOverlaps(a, b) <==> Repeats(a, b)
  {
    OverlapMeansCommonDate(a.span, b.span);
    hide Overlaps, On;
  }

  lemma {:induction false} AmongAll(issuers: seq<Issuer>, l: Link)
    ensures l in AllLinks(issuers) <==> exists i :: 0 <= i < |issuers| && l in issuers[i].links
  {
    if issuers != [] {
      var n := |issuers| - 1;
      AmongAll(issuers[..n], l);
      assert forall i :: 0 <= i < n ==> issuers[..n][i] == issuers[i];
    }
  }

  ghost predicate AllSpansFine(issuers: seq<Issuer>) {
    forall i :: 0 <= i < |issuers| ==> SpansFine(issuers[i].links)
  }

  lemma {:induction false} IntervalsExactly(issuers: seq<Issuer>)
    requires AllSpansFine(issuers)
    ensures IntervalsOk(issuers) <==> NoRepeat(AllLinks(issuers))
  {
    hide NotInverted, SameIdentifierOverlaps, Repeats, AllLinks;
    var links := AllLinks(issuers);
    forall a | a in links ensures NotInverted(a.span) {
      AmongAll(issuers, a);
    }
    forall a, b | a in links && b in links ensures SameIdentifierOverlaps(a, b) <==> Repeats(a, b) {
      RepeatsExactly(a, b);
    }
  }

  lemma NoRepeatConcat(links: seq<Link>, others: seq<Link>)
    ensures NoRepeat(links + others) <==> NoRepeat(links) && NoRepeat(others) && NoRepeatAcross(links, others)
  {
    hide Repeats;
    var all, n := links + others, |links|;
    if NoRepeat(all) {
      forall a, b | 0 <= a < b < n ensures !Repeats(links[a], links[b]) { assert !Repeats(all[a], all[b]); }
      forall a, b | 0 <= a < b < |others| ensures !Repeats(others[a], others[b]) {
        assert !Repeats(all[n + a], all[n + b]);
      }
      forall a, b | 0 <= a < n && 0 <= b < |others| ensures !Repeats(links[a], others[b]) {
        assert !Repeats(all[a], all[n + b]);
      }
    }
  }

  lemma {:induction false} NothingRepeatedExactly(issuers: seq<Issuer>)
    ensures NoRepeat(AllLinks(issuers)) <==> NothingRepeated(issuers)
  {
    hide NoRepeat, Repeats, NoRepeatAcross;
    NothingToRepeat();
    if issuers != [] {
      var n := |issuers| - 1;
      NothingRepeatedExactly(issuers[..n]);
      NoRepeatConcat(AllLinks(issuers[..n]), issuers[n].links);
      AcrossAll(issuers[..n], issuers[n].links);
      assert forall i :: 0 <= i < n ==> issuers[..n][i] == issuers[i];
    }
  }

  lemma NothingToRepeat()
    ensures NoRepeat([])
  {
  }

  lemma {:induction false} AcrossAll(issuers: seq<Issuer>, links: seq<Link>)
    ensures NoRepeatAcross(AllLinks(issuers), links) <==>
      forall i :: 0 <= i < |issuers| ==> NoRepeatAcross(issuers[i].links, links)
  {
    hide AllLinks, Repeats;
    forall a ensures a in AllLinks(issuers) <==> exists i :: 0 <= i < |issuers| && a in issuers[i].links {
      AmongAll(issuers, a);
    }
  }

  // ----- what a payload resolves to -----

  /** Every symbol link of every issuer has its one security. */
  ghost predicate AllSecured(issuers: seq<Issuer>) {
    forall i, l :: 0 <= i < |issuers| && l in issuers[i].links && IsSymbol(l) ==> HasOneSecurity(issuers[i], l)
  }

  ghost predicate ResolvesTo(issuer: Issuer, r: Resolved) {
    r.issuer == issuer.id && r.link in issuer.links && IsSymbol(r.link) && OneSecurityIs(issuer, r.link, r.security)
  }

  lemma {:induction false} OneIsOne(issuer: Issuer, l: Link, s: string, t: string)
    requires OneSecurityIs(issuer, l, s) && OneSecurityIs(issuer, l, t)
    ensures s == t
  {
    hide SecurityOver;
    var i :| OnlySecurity(issuer, l, i) && issuer.links[i].identifier == s;
    var j :| OnlySecurity(issuer, l, j) && issuer.links[j].identifier == t;
    assert i == j;
  }

  lemma {:induction false} MemberOfLinks(found: seq<Resolved>, l: Link)
    ensures l in LinksOf(found) <==> exists r :: r in found && r.link == l
  {
    hide LinksOf;
    var links := LinksOf(found);
    if l in links {
      var i :| 0 <= i < |links| && links[i] == l;
      assert found[i] in found;
    }
    if r :| r in found && r.link == l {
      var i :| 0 <= i < |found| && found[i] == r;
      assert links[i] == l;
    }
  }

  lemma {:induction false} ResolvedExactly(issuer: Issuer, r: Resolved)
    requires SpansFine(issuer.links) && SymbolsOf(issuer).Ok?
    ensures r in SymbolsOf(issuer).value <==> ResolvesTo(issuer, r)
  {
    hide SymbolsOf, OneSecurityIs, HasOneSecurity, NotInverted, LinksOf, SymbolsAmong, IsSymbol;
    SymbolsExactly(issuer);
    var found := SymbolsOf(issuer).value;
    MemberOfLinks(found, r.link);
    assert r.link in LinksOf(found) <==> r.link in multiset(LinksOf(found));
    assert r.link in SymbolsAmong(issuer.links) <==> r.link in multiset(SymbolsAmong(issuer.links));
    if ResolvesTo(issuer, r) {
      var q :| q in found && q.link == r.link;
      OneIsOne(issuer, r.link, q.security, r.security);
    }
  }

  lemma {:induction false} AllOkExactly(issuers: seq<Issuer>)
    requires AllSpansFine(issuers)
    ensures SymbolsOfAll(issuers).Ok? <==> AllSecured(issuers)
    ensures SymbolsOfAll(issuers).Ok? ==> forall r ::
      r in SymbolsOfAll(issuers).value <==> SomeResolvesTo(issuers, r)
  {
    hide SymbolsOf, SomeResolvesTo, AllSecured, SpansFine, ResolvesTo;
    NobodyResolves();
    if issuers != [] {
      var n := |issuers| - 1;
      AllOkExactly(issuers[..n]);
      SecuredSnoc(issuers);
      if SymbolsOfAll(issuers).Ok? {
        forall r
          ensures r in SymbolsOf(issuers[n]).value <==> ResolvesTo(issuers[n], r)
          ensures SomeResolvesTo(issuers, r) <==> SomeResolvesTo(issuers[..n], r) || ResolvesTo(issuers[n], r)
        {
          ResolvedExactly(issuers[n], r);
          SomeSnoc(issuers, r);
        }
      }
    }
  }

  ghost predicate SomeResolvesTo(issuers: seq<Issuer>, r: Resolved) {
    exists i :: 0 <= i < |issuers| && ResolvesTo(issuers[i], r)
  }

  lemma NobodyResolves()
    ensures AllSecured([]) && forall r :: !SomeResolvesTo([], r)
  {
  }

  lemma SomeSnoc(issuers: seq<Issuer>, r: Resolved)
    requires issuers != []
    ensures SomeResolvesTo(issuers, r) <==>
      SomeResolvesTo(issuers[..|issuers| - 1], r) || ResolvesTo(issuers[|issuers| - 1], r)
  {
    hide ResolvesTo;
    var n := |issuers| - 1;
    assert forall i :: 0 <= i < n ==> issuers[..n][i] == issuers[i];
  }

  lemma SecuredSnoc(issuers: seq<Issuer>)
    requires issuers != [] && SpansFine(issuers[|issuers| - 1].links)
    ensures AllSecured(issuers) <==>
      AllSecured(issuers[..|issuers| - 1]) && SymbolsOf(issuers[|issuers| - 1]).Ok?
  {
    hide SymbolsOf, IsSymbol, HasOneSecurity, SpansFine;
    var n := |issuers| - 1;
    assert forall i :: 0 <= i < n ==> issuers[..n][i] == issuers[i];
    SymbolsExactly(issuers[n]);
  }

  /** Symbol links of one name that share a date are one issuer's and one security's. */
  ghost predicate SymbolsAgree(issuers: seq<Issuer>) {
    forall i, j, l, m :: 0 <= i < |issuers| && 0 <= j < |issuers| && l in issuers[i].links && m in issuers[j].links
                         && IsSymbol(l) && IsSymbol(m) && SameName(l, m) && ShareDate(l.span, m.span) ==>
      Agree(issuers[i], l, issuers[j], m)
  }

  ghost predicate Agree(a: Issuer, l: Link, b: Issuer, m: Link) {
    a.id == b.id && exists security :: OneSecurityIs(a, l, security) && OneSecurityIs(b, m, security)
  }

  lemma ClashExactly(a: Issuer, x: Resolved, b: Issuer, y: Resolved)
    requires ResolvesTo(a, x) && ResolvesTo(b, y) && NotInverted(x.link.span) && NotInverted(y.link.span)
    ensures SymbolClash(x, y) <==>
      SameName(x.link, y.link) && ShareDate(x.link.span, y.link.span) && !Agree(a, x.link, b, y.link)
  {
    OverlapMeansCommonDate(x.link.span, y.link.span);
    hide Overlaps, On, OneSecurityIs, NotInverted;
    if security :| OneSecurityIs(a, x.link, security) && OneSecurityIs(b, y.link, security) {
      OneIsOne(a, x.link, security, x.security);
      OneIsOne(b, y.link, security, y.security);
    }
  }

  lemma NoClashOfMembers(all: seq<Resolved>)
    ensures NoClash(all) <==> forall x, y :: x in all && y in all ==> !SymbolClash(x, y)
  {
    forall x, y | x in all && y in all && NoClash(all) ensures !SymbolClash(x, y) {
      var i :| 0 <= i < |all| && all[i] == x;
      var j :| 0 <= j < |all| && all[j] == y;
      OverlapsSymmetric(x.link.span, y.link.span);
      hide Overlaps;
      assert i < j ==> !SymbolClash(all[i], all[j]);
      assert j < i ==> !SymbolClash(all[j], all[i]);
    }
  }

  lemma {:induction false} ReferencesExactly(issuers: seq<Issuer>)
    requires AllSpansFine(issuers)
    ensures ReferencesOk(issuers) <==> AllSecured(issuers) && SymbolsAgree(issuers)
  {
    hide SymbolClash, ResolvesTo, NotInverted, SymbolsOfAll, NoClash, Agree, ShareDate, HasOneSecurity;
    AllOkExactly(issuers);
    if SymbolsOfAll(issuers).Ok? {
      var all := SymbolsOfAll(issuers).value;
      NoClashOfMembers(all);
      if SymbolsAgree(issuers) {
        forall x, y | x in all && y in all ensures !SymbolClash(x, y) { AgreeingPair(issuers, x, y); }
      }
      if NoClash(all) {
        forall i, j, l, m | 0 <= i < |issuers| && 0 <= j < |issuers| && l in issuers[i].links && m in issuers[j].links
                            && IsSymbol(l) && IsSymbol(m) && SameName(l, m) && ShareDate(l.span, m.span)
          ensures Agree(issuers[i], l, issuers[j], m)
        {
          var x := ResolvedOf(issuers, i, l);
          var y := ResolvedOf(issuers, j, m);
          ClashExactly(issuers[i], x, issuers[j], y);
        }
      }
    }
  }

  lemma AgreeingPair(issuers: seq<Issuer>, x: Resolved, y: Resolved)
    requires AllSpansFine(issuers) && SymbolsAgree(issuers)
    requires SomeResolvesTo(issuers, x) && SomeResolvesTo(issuers, y)
    ensures !SymbolClash(x, y)
  {
    hide SymbolClash, NotInverted, Agree, ShareDate, OneSecurityIs, IsSymbol;
    var i :| 0 <= i < |issuers| && ResolvesTo(issuers[i], x);
    var j :| 0 <= j < |issuers| && ResolvesTo(issuers[j], y);
    ClashExactly(issuers[i], x, issuers[j], y);
  }

  lemma ResolvedOf(issuers: seq<Issuer>, i: nat, l: Link) returns (x: Resolved)
    requires AllSpansFine(issuers) && SymbolsOfAll(issuers).Ok?
    requires i < |issuers| && l in issuers[i].links && IsSymbol(l)
    ensures x.link == l && ResolvesTo(issuers[i], x) && x in SymbolsOfAll(issuers).value
  {
    hide SymbolsOfAll, NotInverted, OnlySecurity;
    AllOkExactly(issuers);
    assert HasOneSecurity(issuers[i], l);
    var k :| OnlySecurity(issuers[i], l, k);
    SecurityPlace(issuers[i], l, k);
    x := Resolved(issuers[i].id, l, issuers[i].links[k].identifier);
  }

  lemma SecurityPlace(issuer: Issuer, l: Link, k: int)
    requires OnlySecurity(issuer, l, k)
    ensures 0 <= k < |issuer.links|
  {
  }

  // ----- one import -----

  /** A stored row of another issuer has the symbol on a date of the link. */
  ghost predicate HeldByOther(row: Assertion, issuer: Issuer, l: Link) {
    && row.key.provider == l.provider && row.key.symbol == l.identifier
    && row.key.issuer != issuer.id && ShareDate(row.key.span, l.span)
  }

  ghost predicate SymbolsFree(rows: seq<Assertion>, issuers: seq<Issuer>) {
    forall row, i, l :: row in rows && 0 <= i < |issuers| && l in issuers[i].links && IsSymbol(l) ==>
      !HeldByOther(row, issuers[i], l)
  }

  /** No row is of another issuer over a common date. */
  predicate LinkFree(rows: seq<Assertion>, r: Resolved) {
    forall i :: 0 <= i < |rows| ==> !OtherIssuerOverlaps(rows[i], r.issuer, r.link)
  }

  /** Links that do not clash among themselves go in exactly when no stored row forbids one. */
  lemma {:induction false} LinksGoInExactly(rows: seq<Assertion>, links: seq<Resolved>)
    requires NoClash(links)
    ensures AppendLinks(rows, links).Ok? <==> forall r :: r in links ==> LinkFree(rows, r)
  {
    hide Append, LinkFree, SymbolClash;
    if links != [] {
      var n := |links| - 1;
      assert links == links[..n] + [links[n]];
      assert NoClash(links[..n]);
      LinksGoInExactly(rows, links[..n]);
      if AppendLinks(rows, links[..n]).Ok? {
        OwnRowsAreFree(rows, links);
        AppendLinkExactly(AppendLinks(rows, links[..n]).value, links[n]);
      }
    }
  }

  lemma AppendLinkExactly(rows: seq<Assertion>, r: Resolved)
    ensures AppendLink(rows, r).Ok? <==> LinkFree(rows, r)
  {
    hide OtherIssuerOverlaps, Append;
  }

  lemma {:induction false} OwnRowsAreFree(rows: seq<Assertion>, links: seq<Resolved>)
    requires links != [] && NoClash(links) && AppendLinks(rows, links[..|links| - 1]).Ok?
    ensures LinkFree(AppendLinks(rows, links[..|links| - 1]).value, links[|links| - 1]) <==>
      LinkFree(rows, links[|links| - 1])
  {
    hide AppendLinks, Overlaps;
    var n := |links| - 1;
    var mid := AppendLinks(rows, links[..n]).value;
    LinksExtend(rows, links[..n]);
    forall i | |rows| <= i < |mid| ensures !OtherIssuerOverlaps(mid[i], links[n].issuer, links[n].link) {
      RowsOfLinks(rows, links[..n], i);
      var m :| 0 <= m < n && mid[i].key == WriteOf(links[..n][m]).key;
      assert !SymbolClash(links[m], links[n]);
    }
    assert forall i :: 0 <= i < |rows| ==> mid[i] == rows[i];
  }

  lemma HeldExactly(row: Assertion, issuer: Issuer, r: Resolved)
    requires r.issuer == issuer.id && NotInverted(row.key.span) && NotInverted(r.link.span)
    ensures OtherIssuerOverlaps(row, r.issuer, r.link) <==> HeldByOther(row, issuer, r.link)
  {
    OverlapMeansCommonDate(row.key.span, r.link.span);
    hide Overlaps, On;
  }

  lemma {:induction false} FreeExactly(rows: seq<Assertion>, issuers: seq<Issuer>)
    requires AllSpansFine(issuers) && SymbolsOfAll(issuers).Ok?
    requires forall row :: row in rows ==> NotInverted(row.key.span)
    ensures (forall r :: r in SymbolsOfAll(issuers).value ==> LinkFree(rows, r)) <==> SymbolsFree(rows, issuers)
  {
    hide SymbolsOfAll, NotInverted, OtherIssuerOverlaps, HeldByOther, IsSymbol, OneSecurityIs, HasOneSecurity;
    AllOkExactly(issuers);
    var all := SymbolsOfAll(issuers).value;
    if forall r :: r in all ==> LinkFree(rows, r) {
      forall row, i, l | row in rows && 0 <= i < |issuers| && l in issuers[i].links && IsSymbol(l)
        ensures !HeldByOther(row, issuers[i], l)
      {
        var x := ResolvedOf(issuers, i, l);
        HeldExactly(row, issuers[i], x);
        assert LinkFree(rows, x);
      }
    }
    if SymbolsFree(rows, issuers) {
      forall r, k | r in all && 0 <= k < |rows| ensures !OtherIssuerOverlaps(rows[k], r.issuer, r.link) {
        var i :| 0 <= i < |issuers| && ResolvesTo(issuers[i], r);
        HeldExactly(rows[k], issuers[i], r);
        assert !HeldByOther(rows[k], issuers[i], r.link);
      }
    }
  }

  ghost predicate HoldsDates(s: Span) {
    exists date :: On(s, date)
  }

  lemma InvertedIsEmpty(s: Span)
    ensures NotInverted(s) <==> HoldsDates(s)
  {
    hide TextLt;
    TextIrreflexive(s.from);
    if NotInverted(s) { assert On(s, s.from); }
    if date :| On(s, date) {
      if s.through.Some? { TextLeTransitive(s.from, date, s.through.value); }
    }
  }

  lemma SpansExactly(issuers: seq<Issuer>)
    ensures SpansOk(issuers) <==> AllSpansFine(issuers)
    ensures AllSpansFine(issuers) <==> forall i, l :: 0 <= i < |issuers| && l in issuers[i].links ==> HoldsDates(l.span)
  {
    hide NotInverted, HoldsDates;
    forall s ensures NotInverted(s) <==> HoldsDates(s) { InvertedIsEmpty(s); }
    if SpansOk(issuers) {
      forall i, l | 0 <= i < |issuers| && l in issuers[i].links ensures NotInverted(l.span) {
        var j :| 0 <= j < |issuers[i].links| && issuers[i].links[j] == l;
      }
    }
  }

  /** Which imports are accepted: every interval has a date, no identifier of a kind is given
      twice for a date, each ticker and provider symbol has one security over it, those of
      one name and date agree on issuer and security, and no other issuer holds one. */
  lemma {:induction false} AcceptedImportsExactly(rows: seq<Assertion>, issuers: seq<Issuer>)
    requires OneIssuer(rows)
    ensures Imported(rows, issuers).Ok? <==>
      && (forall i, l :: 0 <= i < |issuers| && l in issuers[i].links ==> HoldsDates(l.span))
      && NothingRepeated(issuers) && AllSecured(issuers) && SymbolsAgree(issuers) && SymbolsFree(rows, issuers)
    ensures Imported(rows, issuers).Err? ==>
      var fine := (forall i, l :: 0 <= i < |issuers| && l in issuers[i].links ==> HoldsDates(l.span))
                  && NothingRepeated(issuers) && AllSecured(issuers) && SymbolsAgree(issuers);
      Imported(rows, issuers).error == if fine then ConflictFault else ValidationFault
  {
    hide SpansOk, IntervalsOk, NoClash, AllSpansFine, NothingRepeated, SymbolsAgree, SymbolsFree, SymbolsOfAll,
         AppendLinks, LinkFree, AllSecured, NotInverted, HoldsDates;
    SpansExactly(issuers);
    if SpansOk(issuers) {
      IntervalsExactly(issuers);
      NothingRepeatedExactly(issuers);
      ReferencesExactly(issuers);
      if ReferencesOk(issuers) {
        RowSpans(rows);
        FreeExactly(rows, issuers);
        LinksGoInExactly(rows, SymbolsOfAll(issuers).value);
        LinksConflict(rows, SymbolsOfAll(issuers).value);
      }
    }
  }

  lemma {:induction false} LinksConflict(rows: seq<Assertion>, links: seq<Resolved>)
    ensures AppendLinks(rows, links).Err? ==> AppendLinks(rows, links).error == ConflictFault
  {
    hide OtherIssuerOverlaps, Append;
    if links != [] { LinksConflict(rows, links[..|links| - 1]); }
  }

  lemma RowSpans(rows: seq<Assertion>)
    requires OneIssuer(rows)
    ensures forall row :: row in rows ==> NotInverted(row.key.span)
  {
    hide NotInverted;
  }

  // ----- what is stored -----

  function WritesOf(links: seq<Resolved>): (r: seq<Write<LinkKey, LinkColumns>>)
    ensures |r| == |links| && forall i :: 0 <= i < |r| ==> r[i] == WriteOf(links[i])
  {
    if links == [] then [] else WritesOf(links[..|links| - 1]) + [WriteOf(links[|links| - 1])]
  }

  lemma {:induction false} LinksAreWrites(rows: seq<Assertion>, links: seq<Resolved>)
    requires AppendLinks(rows, links).Ok?
    ensures AppendLinks(rows, links).value == AppendAll(rows, WritesOf(links))
  {
    hide Append, WriteOf;
    if links != [] {
      var n := |links| - 1;
      LinksAreWrites(rows, links[..n]);
      assert WritesOf(links)[..n] == WritesOf(links[..n]);
    }
  }

  /** Two symbol links of a payload that are stored under one key. */
  predicate OneRow(a: Issuer, l: Link, b: Issuer, m: Link) {
    a.id == b.id && SameName(l, m) && l.span == m.span
  }

  ghost predicate SameColumns(issuers: seq<Issuer>, i: nat, l: Link)
    requires i < |issuers|
  {
    forall j, m ::
      0 <= j < |issuers| && m in issuers[j].links && IsSymbol(m) && OneRow(issuers[i], l, issuers[j], m) ==>
      m.confidence == l.confidence && m.availableAt == l.availableAt
  }

  function KeyOf(issuer: Issuer, l: Link, security: string): LinkKey {
    LinkKey(issuer.id, l.provider, l.identifier, security, l.span)
  }

  /** The link has a stored row under its one security. */
  ghost predicate Stored(rows: seq<Assertion>, issuer: Issuer, l: Link) {
    exists security :: OneSecurityIs(issuer, l, security) && Current(rows, KeyOf(issuer, l, security)).Some?
  }

  /** And the current columns of that row are the link's. */
  ghost predicate StoredAsGiven(rows: seq<Assertion>, issuer: Issuer, l: Link) {
    exists security ::
      && OneSecurityIs(issuer, l, security)
      && Current(rows, KeyOf(issuer, l, security)) == Some(LinkColumns(l.confidence, l.availableAt))
  }

  /** After an accepted import each symbol link of its payload is stored with its security,
      and its confidence and availability are current unless another symbol link of the
      payload with the same issuer, name and interval says otherwise. */
  lemma {:induction false} EverySymbolIsStored(rows: seq<Assertion>, issuers: seq<Issuer>, i: nat, l: Link)
    requires WellChained(rows) && Imported(rows, issuers).Ok?
    requires i < |issuers| && l in issuers[i].links && IsSymbol(l)
    ensures Stored(Imported(rows, issuers).value, issuers[i], l)
    ensures SameColumns(issuers, i, l) ==> StoredAsGiven(Imported(rows, issuers).value, issuers[i], l)
  {
    hide SpansOk, IntervalsOk, NoClash, SymbolsOfAll, WellChained, Current, AppendLinks, OneSecurityIs, NotInverted,
         SameColumns;
    SpansExactly(issuers);
    var all := SymbolsOfAll(issuers).value;
    var x := ResolvedOf(issuers, i, l);
    var k :| 0 <= k < |all| && all[k] == x;
    var j := LastOf(WritesOf(all), k);
    LinksAreWrites(rows, all);
    CurrentAfter(rows, WritesOf(all), j);
    if SameColumns(issuers, i, l) { LastSaysTheSame(issuers, i, l, x, all[j]); }
    assert WriteOf(x).key == KeyOf(issuers[i], l, x.security);
  }

  ghost predicate AllAsGiven(rows: seq<Assertion>, issuers: seq<Issuer>) {
    forall i, l :: 0 <= i < |issuers| && l in issuers[i].links && IsSymbol(l) ==> StoredAsGiven(rows, issuers[i], l)
  }

  ghost predicate RowsUniform(issuers: seq<Issuer>) {
    forall i, l :: 0 <= i < |issuers| && l in issuers[i].links && IsSymbol(l) ==> SameColumns(issuers, i, l)
  }

  /** All symbol links of an accepted payload are current as given, exactly when no two of
      them with one issuer, name and interval differ in confidence or availability. */
  lemma {:induction false} CurrentAsGivenExactly(rows: seq<Assertion>, issuers: seq<Issuer>)
    requires OneIssuer(rows) && WellChained(rows) && Imported(rows, issuers).Ok?
    ensures AllAsGiven(Imported(rows, issuers).value, issuers) <==> RowsUniform(issuers)
  {
    hide WellChained, OneIssuer, StoredAsGiven, SameColumns, Imported, IsSymbol, SymbolsAgree, NothingRepeated,
         AllSecured,
         SymbolsFree;
    var after := Imported(rows, issuers).value;
    forall i: nat, l | i < |issuers| && l in issuers[i].links && IsSymbol(l)
      ensures SameColumns(issuers, i, l) ==> StoredAsGiven(after, issuers[i], l)
    {
      EverySymbolIsStored(rows, issuers, i, l);
    }
    AcceptedImportsExactly(rows, issuers);
    if AllAsGiven(after, issuers) {
      forall i: nat, l | i < |issuers| && l in issuers[i].links && IsSymbol(l) ensures SameColumns(issuers, i, l) {
        GivenMeansSame(after, issuers, i, l);
      }
    }
  }

  lemma {:induction false} GivenMeansSame(after: seq<Assertion>, issuers: seq<Issuer>, i: nat, l: Link)
    requires AllAsGiven(after, issuers) && SymbolsAgree(issuers)
    requires i < |issuers| && l in issuers[i].links && IsSymbol(l) && HoldsDates(l.span)
    ensures SameColumns(issuers, i, l)
  {
    hide OneSecurityIs, Current, On, IsSymbol;
    forall j, m | 0 <= j < |issuers| && m in issuers[j].links && IsSymbol(m) && OneRow(issuers[i], l, issuers[j], m)
      ensures m.confidence == l.confidence && m.availableAt == l.availableAt
    {
      var date :| On(l.span, date);
      assert ShareDate(l.span, m.span);
      assert Agree(issuers[i], l, issuers[j], m);
      assert StoredAsGiven(after, issuers[i], l) && StoredAsGiven(after, issuers[j], m);
      OneKey(after, issuers[i], l, issuers[j], m);
    }
  }

  lemma OneKey(after: seq<Assertion>, a: Issuer, l: Link, b: Issuer, m: Link)
    requires OneRow(a, l, b, m) && Agree(a, l, b, m) && StoredAsGiven(after, a, l) && StoredAsGiven(after, b, m)
    ensures m.confidence == l.confidence && m.availableAt == l.availableAt
  {
    hide OneSecurityIs, Current;
    var security :| OneSecurityIs(a, l, security) && OneSecurityIs(b, m, security);
    var s :| OneSecurityIs(a, l, s)
      && Current(after, KeyOf(a, l, s)) == Some(LinkColumns(l.confidence, l.availableAt));
    var t :| OneSecurityIs(b, m, t)
      && Current(after, KeyOf(b, m, t)) == Some(LinkColumns(m.confidence, m.availableAt));
    OneIsOne(a, l, security, s);
    OneIsOne(b, m, security, t);
  }

  /** A security with a ticker and a provider symbol of one name, which differ in their
      confidence. */
  function TwoKinds(id: string, security: string, symbol: string, span: Span): Issuer {
    Issuer(id, [Link(SecurityLink, "sec", security, span, "confirmed", "2026-01-01"),
                Link(TickerLink, "sec", symbol, span, "confirmed", "2026-01-01"),
                Link(ProviderSymbolLink, "sec", symbol, span, "provisional", "2026-01-01")])
  }

  /** Such a payload is accepted, and one of its links is stored but not current. */
  lemma {:induction false} TwoKindsOneRow(id: string, security: string, symbol: string, span: Span)
    requires NotInverted(span)
    ensures var issuers := [TwoKinds(id, security, symbol, span)];
      Imported([], issuers).Ok? && !AllAsGiven(Imported([], issuers).value, issuers)
  {
    hide *;
    var issuers := [TwoKinds(id, security, symbol, span)];
    NoRows();
    TwoKindsFine(id, security, symbol, span);
    AcceptedImportsExactly([], issuers);
    CurrentAsGivenExactly([], issuers);
  }

  lemma {:induction false} TwoKindsFine(id: string, security: string, symbol: string, span: Span)
    requires NotInverted(span)
    ensures var issuers := [TwoKinds(id, security, symbol, span)];
      && (forall i, l :: 0 <= i < |issuers| && l in issuers[i].links ==> HoldsDates(l.span))
      && NothingRepeated(issuers) && AllSecured(issuers) && SymbolsAgree(issuers) && SymbolsFree([], issuers)
      && !RowsUniform(issuers)
  {
    hide HoldsDates, NotInverted, SecurityOver, ShareDate, OneSecurityIs, RowsUniform, NothingRepeated;
    InvertedIsEmpty(span);
    var issuer := TwoKinds(id, security, symbol, span);
    forall l | l in issuer.links && IsSymbol(l)
      ensures OneSecurityIs(issuer, l, security) && HasOneSecurity(issuer, l)
    {
      OverBoth(issuer, l, security);
    }
    TwoKindsDiffer(id, security, symbol, span);
    TwoKindsApart(id, security, symbol, span);
  }

  lemma TwoKindsApart(id: string, security: string, symbol: string, span: Span)
    ensures NothingRepeated([TwoKinds(id, security, symbol, span)])
  {
    hide ShareDate;
  }

  lemma {:induction false} OverBoth(issuer: Issuer, l: Link, security: string)
    requires |issuer.links| == 3 && issuer.links[0].kind == SecurityLink && issuer.links[0].identifier == security
    requires IsSymbol(issuer.links[1]) && IsSymbol(issuer.links[2]) && l.span == issuer.links[0].span
    ensures OneSecurityIs(issuer, l, security) && HasOneSecurity(issuer, l)
  {
    hide On;
    assert OnlySecurity(issuer, l, 0);
  }

  lemma TwoKindsDiffer(id: string, security: string, symbol: string, span: Span)
    ensures !RowsUniform([TwoKinds(id, security, symbol, span)])
  {
    var issuer := TwoKinds(id, security, symbol, span);
    var ticker, other := issuer.links[1], issuer.links[2];
    assert ticker in issuer.links && other in issuer.links;
    assert ticker.confidence[0] == 'c' && other.confidence[0] == 'p';
    assert OneRow(issuer, ticker, issuer, other);
    var issuers := [issuer];
    assert issuers[0] == issuer;
    assert !SameColumns(issuers, 0, ticker);
  }

  lemma {:induction false} LastSaysTheSame(issuers: seq<Issuer>, i: nat, l: Link, x: Resolved, y: Resolved)
    requires AllSpansFine(issuers) && SymbolsOfAll(issuers).Ok? && y in SymbolsOfAll(issuers).value
    requires i < |issuers| && SameColumns(issuers, i, l) && x.link == l && x.issuer == issuers[i].id
    requires WriteOf(y).key == WriteOf(x).key
    ensures WriteOf(y).columns == WriteOf(x).columns
  {
    hide SymbolsOfAll, OneSecurityIs, IsSymbol, NotInverted;
    AllOkExactly(issuers);
    var j :| 0 <= j < |issuers| && ResolvesTo(issuers[j], y);
    assert OneRow(issuers[i], l, issuers[j], y.link);
  }
}
