/**
 Which issuer a provider symbol belongs to, and when
 (quant_data/company/stage4_importer.py): dates as text, validity intervals, the checks
 on one payload, and the link assertions stored over all publication runs.
 */
module SymbolLinks {
  import opened Wrappers
  import opened Ordering
  import opened Digits
  import opened VersionChains

  // ----- dates as text -----

  datatype CalendarDate = CalendarDate(year: nat, month: nat, day: nat)

  predicate InRange(d: CalendarDate) {
    d.year < 10000 && d.month < 100 && d.day < 100
  }

  predicate Earlier(a: CalendarDate, b: CalendarDate) {
    || a.year < b.year
    || (a.year == b.year && a.month < b.month)
    || (a.year == b.year && a.month == b.month && a.day < b.day)
  }

  /** The last `width` digits, zeros in front. */
  function Padded(n: nat, width: nat): (s: string)
    ensures |s| == width
  {
    if width == 0 then "" else Padded(n / 10, width - 1) + [DigitChar(n % 10)]
  }

  /** YYYY-MM-DD. */
  function IsoText(d: CalendarDate): string {
    Padded(d.year, 4) + ("-" + (Padded(d.month, 2) + ("-" + Padded(d.day, 2))))
  }

  lemma {:induction false} TextLtParts(a: string, b: string, c: string, d: string)
    requires |a| == |b|
    ensures TextLt(a + c, b + d) <==> TextLt(a, b) || (a == b && TextLt(c, d))
  {
    if a == [] {
      assert a + c == c && b + d == d;
    } else {
      assert (a + c)[1..] == a[1..] + c && (b + d)[1..] == b[1..] + d;
      TextLtParts(a[1..], b[1..], c, d);
      assert a == [a[0]] + a[1..] && b == [b[0]] + b[1..];
    }
  }

  lemma OneDigitOrder(a: nat, b: nat)
    requires a < 10 && b < 10
    ensures TextLt([DigitChar(a)], [DigitChar(b)]) <==> a < b
    ensures DigitChar(a) == DigitChar(b) <==> a == b
  {
    var x, y := [DigitChar(a)], [DigitChar(b)];
    assert x[1..] == [] && y[1..] == [];
  }

  lemma {:induction false} PaddedOrder(a: nat, b: nat, width: nat)
    requires a < Pow(10, width) && b < Pow(10, width)
    ensures TextLt(Padded(a, width), Padded(b, width)) <==> a < b
    ensures Padded(a, width) == Padded(b, width) <==> a == b
  {
    if width > 0 {
      PaddedOrder(a / 10, b / 10, width - 1);
      OneDigitOrder(a % 10, b % 10);
      hide TextLt, Pow;
      var front, other := Padded(a / 10, width - 1), Padded(b / 10, width - 1);
      TextLtParts(front, other, [DigitChar(a % 10)], [DigitChar(b % 10)]);
      assert Padded(a, width)[..width - 1] == front && Padded(b, width)[..width - 1] == other;
      assert Padded(a, width)[width - 1] == DigitChar(a % 10) && Padded(b, width)[width - 1] == DigitChar(b % 10);
    }
  }

  lemma SmallPowers()
    ensures Pow(10, 4) == 10000 && Pow(10, 2) == 100
  {
  }

  /** Comparing dates as text compares them as dates. */
  lemma TextOrderIsDateOrder(a: CalendarDate, b: CalendarDate)
    requires InRange(a) && InRange(b)
    ensures TextLt(IsoText(a), IsoText(b)) <==> Earlier(a, b)
    ensures IsoText(a) == IsoText(b) <==> a == b
  {
    SmallPowers();
    PaddedOrder(a.year, b.year, 4);
    PaddedOrder(a.month, b.month, 2);
    PaddedOrder(a.day, b.day, 2);
    DashFirst(Padded(a.day, 2), Padded(b.day, 2));
    hide TextLt, Padded, Pow;
    var (y, m, d) := (Padded(a.year, 4), Padded(a.month, 2), Padded(a.day, 2));
    var (y2, m2, d2) := (Padded(b.year, 4), Padded(b.month, 2), Padded(b.day, 2));
    TextLtParts(m, m2, "-" + d, "-" + d2);
    DashFirst(m + ("-" + d), m2 + ("-" + d2));
    TextLtParts(y, y2, "-" + (m + ("-" + d)), "-" + (m2 + ("-" + d2)));
    SameParts(m, m2, "-" + d, "-" + d2);
    SameParts(y, y2, "-" + (m + ("-" + d)), "-" + (m2 + ("-" + d2)));
  }

  lemma {:induction false} DashFirst(a: string, b: string)
    ensures TextLt("-" + a, "-" + b) <==> TextLt(a, b)
    ensures "-" + a == "-" + b <==> a == b
  {
    assert ("-" + a)[1..] == a && ("-" + b)[1..] == b;
  }

  lemma SameParts(a: string, b: string, c: string, d: string)
    requires |a| == |b|
    ensures a + c == b + d <==> a == b && c == d
  {
    assert (a + c)[..|a|] == a && (b + d)[..|b|] == b;
    assert (a + c)[|a|..] == c && (b + d)[|b|..] == d;
  }

  // ----- intervals -----

  datatype Span = Span(from: string, through: Option<string>)

  /** What the parser of a link demands. */
  predicate NotInverted(s: Span) {
    s.through.Some? ==> TextLe(s.from, s.through.value)
  }

  predicate On(s: Span, date: string) {
    TextLe(s.from, date) && (s.through.None? || TextLe(date, s.through.value))
  }

  /** `_interval_overlaps`. */
  predicate Overlaps(a: Span, b: Span) {
    && (a.through.None? || TextLe(b.from, a.through.value))
    && (b.through.None? || TextLe(a.from, b.through.value))
  }

  lemma TextLeTransitive(a: string, b: string, c: string)
    requires TextLe(a, b) && TextLe(b, c)
    ensures TextLe(a, c)
  {
    if TextLt(c, a) {
      TextTotal(a, b);
      TextTotal(b, c);
      if TextLt(a, b) { TextTransitive(c, a, b); }
    }
  }

  /** The comparison decides whether the intervals share a date. */
  lemma OverlapMeansCommonDate(a: Span, b: Span)
    requires NotInverted(a) && NotInverted(b)
    ensures Overlaps(a, b) <==> exists date :: On(a, date) && On(b, date)
  {
    hide TextLt;
    TextIrreflexive(a.from);
    TextIrreflexive(b.from);
    TextTotal(a.from, b.from);
    if Overlaps(a, b) {
      var date := if TextLt(a.from, b.from) then b.from else a.from;
      if TextLt(a.from, b.from) && TextLt(b.from, a.from) { TextTransitive(a.from, b.from, a.from); }
      assert On(a, date) && On(b, date);
    }
    if date :| On(a, date) && On(b, date) {
      if a.through.Some? { TextLeTransitive(b.from, date, a.through.value); }
      if b.through.Some? { TextLeTransitive(a.from, date, b.through.value); }
    }
  }

  /** `candidate` holds for as long as `s` does. */
  predicate Covers(candidate: Span, s: Span) {
    && TextLe(candidate.from, s.from)
    && (candidate.through.None? || (s.through.Some? && TextLe(s.through.value, candidate.through.value)))
  }

  lemma CoversMeansInside(candidate: Span, s: Span)
    requires NotInverted(s)
    ensures Covers(candidate, s) <==> forall date :: On(s, date) ==> On(candidate, date)
  {
    hide TextLt;
    TextIrreflexive(s.from);
    if Covers(candidate, s) {
      forall date | On(s, date) ensures On(candidate, date) {
        TextLeTransitive(candidate.from, s.from, date);
        if candidate.through.Some? { TextLeTransitive(date, s.through.value, candidate.through.value); }
      }
    }
    if forall date :: On(s, date) ==> On(candidate, date) {
      assert On(s, s.from);
      if s.through.Some? {
        TextIrreflexive(s.through.value);
        assert On(s, s.through.value);
      } else if candidate.through.Some? {
        var date := DateBehind(s.from, candidate.through.value);
        assert On(s, date);
      }
    }
  }

  /** No text is the last one. */
  lemma {:induction false} DateBehind(from: string, through: string) returns (date: string)
    ensures TextLe(from, date) && TextLt(through, date)
  {
    LongerIsGreater(through);
    TextIrreflexive(from);
    hide TextLt;
    date := through + "0";
    if TextLt(date, from) {
      TextTransitive(through, date, from);
      date := from;
    }
  }

  lemma {:induction false} LongerIsGreater(text: string)
    ensures TextLt(text, text + "0")
  {
    if text != [] {
      LongerIsGreater(text[1..]);
      assert (text + "0")[1..] == text[1..] + "0";
    }
  }

  // ----- one payload -----

  datatype LinkKind = SecurityLink | TickerLink | ProviderSymbolLink | OtherLink

  datatype Link = Link(kind: LinkKind, provider: string, identifier: string, span: Span,
                       confidence: string, availableAt: string)

  datatype Issuer = Issuer(id: string, links: seq<Link>)

  /** A symbol link with its issuer and the security it resolves to. */
  datatype Resolved = Resolved(issuer: string, link: Link, security: string)

  predicate Covering(candidate: Link, link: Link) {
    candidate.kind == SecurityLink && Covers(candidate.span, link.span)
  }

  function CoveringLinks(links: seq<Link>, link: Link): (r: seq<Link>)
    ensures forall c :: c in r <==> c in links && Covering(c, link)
  {
    if links == [] then []
    else
      var n := |links| - 1;
      assert links == links[..n] + [links[n]];
      CoveringLinks(links[..n], link) + (if Covering(links[n], link) then [links[n]] else [])
  }

  /** `_security_identifier_for_link`: exactly one covering security link. */
  function SecurityFor(issuer: Issuer, link: Link): Result<string, Fault> {
    var candidates := CoveringLinks(issuer.links, link);
    if |candidates| != 1 then Err(ValidationFault) else Ok(candidates[0].identifier)
  }

  function SymbolsIn(issuer: Issuer, links: seq<Link>): Result<seq<Resolved>, Fault> {
    if links == [] then Ok([])
    else
      var n := |links| - 1;
      match SymbolsIn(issuer, links[..n])
      case Err(e) => Err(e)
      case Ok(front) =>
        if !(links[n].kind.TickerLink? || links[n].kind.ProviderSymbolLink?) then Ok(front)
        else match SecurityFor(issuer, links[n])
          case Err(e) => Err(e)
          case Ok(security) => Ok(front + [Resolved(issuer.id, links[n], security)])
  }

  function SortKey(r: Resolved): seq<string> {
    [r.link.provider, r.link.identifier, r.security, r.link.span.from,
     if r.link.span.through.None? then "" else r.link.span.through.value]
  }

  predicate TextsLt(a: seq<string>, b: seq<string>) {
    if b == [] then false
    else if a == [] then true
    else TextLt(a[0], b[0]) || (a[0] == b[0] && TextsLt(a[1..], b[1..]))
  }

  predicate ResolvedLt(a: Resolved, b: Resolved) {
    TextsLt(SortKey(a), SortKey(b))
  }

  /** `_symbol_links`. */
  function SymbolsOf(issuer: Issuer): Result<seq<Resolved>, Fault> {
    match SymbolsIn(issuer, issuer.links)
    case Err(e) => Err(e)
    case Ok(found) => Ok(Sort(found, ResolvedLt))
  }

  function SymbolsOfAll(issuers: seq<Issuer>): Result<seq<Resolved>, Fault> {
    if issuers == [] then Ok([])
    else
      var n := |issuers| - 1;
      match SymbolsOfAll(issuers[..n])
      case Err(e) => Err(e)
      case Ok(front) =>
        match SymbolsOf(issuers[n])
        case Err(e) => Err(e)
        case Ok(own) => Ok(front + own)
  }

  predicate SymbolClash(a: Resolved, b: Resolved) {
    && a.link.provider == b.link.provider && a.link.identifier == b.link.identifier
    && Overlaps(a.link.span, b.link.span)
    && (a.issuer != b.issuer || a.security != b.security)
  }

  predicate NoClash(all: seq<Resolved>) {
    forall i, j :: 0 <= i < j < |all| ==> !SymbolClash(all[i], all[j])
  }

  /** Every interval the parser let through. */
  predicate SpansOk(issuers: seq<Issuer>) {
    forall i, j :: 0 <= i < |issuers| && 0 <= j < |issuers[i].links| ==> NotInverted(issuers[i].links[j].span)
  }

  function AllLinks(issuers: seq<Issuer>): seq<Link> {
    if issuers == [] then [] else AllLinks(issuers[..|issuers| - 1]) + issuers[|issuers| - 1].links
  }

  predicate SameIdentifierOverlaps(a: Link, b: Link) {
    a.kind == b.kind && a.provider == b.provider && a.identifier == b.identifier && Overlaps(a.span, b.span)
  }

  /** `_validate_link_intervals`: no identifier twice at a time. */
  predicate IntervalsOk(issuers: seq<Issuer>) {
    var links := AllLinks(issuers);
    forall i, j :: 0 <= i < j < |links| ==> !SameIdentifierOverlaps(links[i], links[j])
  }

  /** The symbol part of `_validate_payload_references`. */
  predicate ReferencesOk(issuers: seq<Issuer>) {
    SymbolsOfAll(issuers).Ok? && NoClash(SymbolsOfAll(issuers).value)
  }

  method ValidateReferences(issuers: seq<Issuer>) returns (ok: bool)
    ensures ok <==> ReferencesOk(issuers)
  {
    hide SymbolsOf, SymbolClash, Overlaps;
    var all: seq<Resolved> := [];
    assert issuers[..0] == [];
    for i := 0 to |issuers|
      invariant SymbolsOfAll(issuers[..i]) == Ok(all)
    {
      assert issuers[..i + 1][..i] == issuers[..i];
      var own := SymbolsOf(issuers[i]);
      if own.Err? {
        SymbolsStop(issuers, i + 1);
        return false;
      }
      all := all + own.value;
    }
    assert issuers[..|issuers|] == issuers;
    for i := 0 to |all|
      invariant forall a, b :: 0 <= a < i && a < b < |all| ==> !SymbolClash(all[a], all[b])
    {
      for j := i + 1 to |all|
        invariant forall b :: i < b < j ==> !SymbolClash(all[i], all[b])
      {
        if SymbolClash(all[i], all[j]) { return false; }
      }
    }
    ok := true;
  }

  lemma {:induction false} SymbolsStop(issuers: seq<Issuer>, k: nat)
    requires k <= |issuers| && SymbolsOfAll(issuers[..k]).Err?
    ensures SymbolsOfAll(issuers).Err?
    decreases |issuers| - k
  {
    hide SymbolsOf;
    if k == |issuers| {
      assert issuers[..k] == issuers;
    } else {
      assert issuers[..k + 1][..k] == issuers[..k];
      SymbolsStop(issuers, k + 1);
    }
  }

  // ----- what a resolved link is -----

  lemma {:induction false} SymbolsInFacts(issuer: Issuer, links: seq<Link>, r: Resolved)
    requires SymbolsIn(issuer, links).Ok? && r in SymbolsIn(issuer, links).value
    ensures r.issuer == issuer.id && r.link in links && SecurityFor(issuer, r.link) == Ok(r.security)
  {
    hide SecurityFor;
    var n := |links| - 1;
    var front := SymbolsIn(issuer, links[..n]).value;
    if r in front { SymbolsInFacts(issuer, links[..n], r); }
  }

  /** A resolved symbol link lies inside exactly one security link of its issuer, the one
      whose identifier it got. */
  lemma ResolvedInsideOneSecurity(issuer: Issuer, r: Resolved)
    requires SymbolsOf(issuer).Ok? && r in SymbolsOf(issuer).value
    ensures r.issuer == issuer.id && r.link in issuer.links
    ensures exists i :: 0 <= i < |issuer.links| && Covering(issuer.links[i], r.link)
                        && issuer.links[i].identifier == r.security
                        && forall j :: 0 <= j < |issuer.links| && j != i ==> !Covering(issuer.links[j], r.link)
  {
    SortMembers(SymbolsIn(issuer, issuer.links).value, ResolvedLt);
    hide Sort, ResolvedLt, Covering;
    SymbolsInFacts(issuer, issuer.links, r);
    var i := OnlyCovering(issuer.links, r.link);
  }

  lemma {:induction false} OnlyCovering(links: seq<Link>, link: Link) returns (i: nat)
    requires |CoveringLinks(links, link)| == 1
    ensures i < |links| && Covering(links[i], link) && links[i] == CoveringLinks(links, link)[0]
    ensures forall j :: 0 <= j < |links| && j != i ==> !Covering(links[j], link)
  {
    hide Covering;
    var n := |links| - 1;
    if Covering(links[n], link) {
      i := n;
      assert CoveringLinks(links[..n], link) == [];
      forall j | 0 <= j < n ensures !Covering(links[j], link) {
        assert links[..n][j] == links[j];
        assert links[j] !in CoveringLinks(links[..n], link);
      }
    } else {
      i := OnlyCovering(links[..n], link);
      assert forall j :: 0 <= j < n ==> links[..n][j] == links[j];
    }
  }

  // ----- the stored assertions -----

  datatype LinkKey = LinkKey(issuer: string, provider: string, symbol: string, security: string, span: Span)

  datatype LinkColumns = LinkColumns(confidence: string, availableAt: string)

  type Assertion = Version<LinkKey, LinkColumns>

  predicate OtherIssuerOverlaps(row: Assertion, issuer: string, link: Link) {
    && row.key.provider == link.provider && row.key.symbol == link.identifier
    && row.key.issuer != issuer && Overlaps(row.key.span, link.span)
  }

  function WriteOf(r: Resolved): Write<LinkKey, LinkColumns> {
    Write(LinkKey(r.issuer, r.link.provider, r.link.identifier, r.security, r.link.span),
          LinkColumns(r.link.confidence, r.link.availableAt))
  }

  /** `_append_link_assertion`. */
  function AppendLink(rows: seq<Assertion>, r: Resolved): Result<seq<Assertion>, Fault> {
    if exists i :: 0 <= i < |rows| && OtherIssuerOverlaps(rows[i], r.issuer, r.link) then Err(ConflictFault)
    else Ok(Append(rows, WriteOf(r)))
  }

  function AppendLinks(rows: seq<Assertion>, links: seq<Resolved>): Result<seq<Assertion>, Fault> {
    if links == [] then Ok(rows)
    else
      var n := |links| - 1;
      match AppendLinks(rows, links[..n])
      case Err(e) => Err(e)
      case Ok(mid) => AppendLink(mid, links[n])
  }

  /** One publication run: all checks, then all writes in one transaction. */
  function Imported(rows: seq<Assertion>, issuers: seq<Issuer>): Result<seq<Assertion>, Fault> {
    if !SpansOk(issuers) || !IntervalsOk(issuers) || !ReferencesOk(issuers) then Err(ValidationFault)
    else AppendLinks(rows, SymbolsOfAll(issuers).value)
  }

  /** Any number of runs, each committed or rolled back. */
  function AfterRuns(rows: seq<Assertion>, runs: seq<seq<Issuer>>): seq<Assertion> {
    if runs == [] then rows
    else
      var n := |runs| - 1;
      var before := AfterRuns(rows, runs[..n]);
      match Imported(before, runs[n])
      case Err(_) => before
      case Ok(after) => after
  }

  // ----- over all runs -----

  predicate SameSymbolOverlaps(a: LinkKey, b: LinkKey) {
    a.provider == b.provider && a.symbol == b.symbol && Overlaps(a.span, b.span)
  }

  /** Rows of one symbol whose intervals share a date belong to one issuer. */
  ghost predicate OneIssuer(rows: seq<Assertion>) {
    && (forall i :: 0 <= i < |rows| ==> NotInverted(rows[i].key.span))
    && (forall i, j :: 0 <= i < |rows| && 0 <= j < |rows| && SameSymbolOverlaps(rows[i].key, rows[j].key) ==>
          rows[i].key.issuer == rows[j].key.issuer)
  }

  lemma OverlapsSymmetric(a: Span, b: Span)
    ensures Overlaps(a, b) <==> Overlaps(b, a)
  {
  }

  lemma AppendLinkKeeps(rows: seq<Assertion>, r: Resolved)
    requires OneIssuer(rows) && WellChained(rows) && NotInverted(r.link.span)
    requires AppendLink(rows, r).Ok?
    ensures OneIssuer(AppendLink(rows, r).value) && WellChained(AppendLink(rows, r).value)
    ensures rows <= AppendLink(rows, r).value
  {
    var w := WriteOf(r);
    var next := Append(rows, w);
    forall key { AppendKeepsChain(rows, w, key); }
    AppendExtends(rows, w);
    AppendedRow(rows, w);
    hide Append, WellChained, Overlaps, NotInverted;
    if next != rows {
      var n := |rows|;
      forall i | 0 <= i < n
        && (SameSymbolOverlaps(rows[i].key, next[n].key) || SameSymbolOverlaps(next[n].key, rows[i].key))
        ensures rows[i].key.issuer == next[n].key.issuer
      {
        OverlapsSymmetric(rows[i].key.span, next[n].key.span);
        assert !OtherIssuerOverlaps(rows[i], r.issuer, r.link);
      }
      assert forall i :: 0 <= i < n ==> next[i] == rows[i];
    }
  }

  lemma AppendedRow(rows: seq<Assertion>, w: Write<LinkKey, LinkColumns>)
    ensures Append(rows, w) != rows ==> |Append(rows, w)| == |rows| + 1 && Append(rows, w)[|rows|].key == w.key
  {
    hide Prior;
  }

  lemma {:induction false} AppendLinksKeep(rows: seq<Assertion>, links: seq<Resolved>)
    requires OneIssuer(rows) && WellChained(rows) && (forall i :: 0 <= i < |links| ==> NotInverted(links[i].link.span))
    requires AppendLinks(rows, links).Ok?
    ensures OneIssuer(AppendLinks(rows, links).value) && WellChained(AppendLinks(rows, links).value)
    ensures rows <= AppendLinks(rows, links).value
  {
    hide OneIssuer, WellChained, AppendLink, NotInverted;
    if links != [] {
      var n := |links| - 1;
      AppendLinksKeep(rows, links[..n]);
      AppendLinkKeeps(AppendLinks(rows, links[..n]).value, links[n]);
    }
  }

  lemma {:induction false} SymbolsOfAllFacts(issuers: seq<Issuer>, r: Resolved)
    requires SymbolsOfAll(issuers).Ok? && r in SymbolsOfAll(issuers).value
    ensures exists i :: 0 <= i < |issuers| && SymbolsOf(issuers[i]).Ok? && r in SymbolsOf(issuers[i]).value
  {
    hide SymbolsOf;
    var n := |issuers| - 1;
    if r in SymbolsOfAll(issuers[..n]).value {
      SymbolsOfAllFacts(issuers[..n], r);
      var i :| 0 <= i < n && SymbolsOf(issuers[..n][i]).Ok? && r in SymbolsOf(issuers[..n][i]).value;
      assert issuers[i] == issuers[..n][i];
    }
  }

  lemma ImportKeeps(rows: seq<Assertion>, issuers: seq<Issuer>)
    requires OneIssuer(rows) && WellChained(rows) && Imported(rows, issuers).Ok?
    ensures OneIssuer(Imported(rows, issuers).value) && WellChained(Imported(rows, issuers).value)
    ensures rows <= Imported(rows, issuers).value
  {
    hide OneIssuer, WellChained, AppendLinks, NotInverted, SymbolsOfAll, NoClash, SymbolsOf, IntervalsOk, SpansOk;
    SpansOfLinks(issuers);
    AppendLinksKeep(rows, SymbolsOfAll(issuers).value);
  }

  lemma {:induction false} RunsKeep(runs: seq<seq<Issuer>>)
    ensures OneIssuer(AfterRuns([], runs)) && WellChained(AfterRuns([], runs))
  {
    hide OneIssuer, WellChained, Imported;
    if runs == [] {
      NoRows();
    } else {
      var n := |runs| - 1;
      RunsKeep(runs[..n]);
      if Imported(AfterRuns([], runs[..n]), runs[n]).Ok? { ImportKeeps(AfterRuns([], runs[..n]), runs[n]); }
    }
  }

  lemma NoRows()
    ensures OneIssuer([]) && WellChained<LinkKey, LinkColumns>([])
  {
    assert forall key :: Chain<LinkKey, LinkColumns>([], key) == [];
  }

  /** Over all publication runs, a provider's symbol has at most one issuer on any date. */
  lemma {:induction false} OneIssuerOnAnyDate(runs: seq<seq<Issuer>>, date: string, i: nat, j: nat)
    requires i < |AfterRuns([], runs)| && j < |AfterRuns([], runs)|
    requires var (a, b) := (AfterRuns([], runs)[i].key, AfterRuns([], runs)[j].key);
      a.provider == b.provider && a.symbol == b.symbol && On(a.span, date) && On(b.span, date)
    ensures AfterRuns([], runs)[i].key.issuer == AfterRuns([], runs)[j].key.issuer
  {
    RunsKeep(runs);
    hide AfterRuns, WellChained, Overlaps, On, NotInverted;
    var rows := AfterRuns([], runs);
    OverlapMeansCommonDate(rows[i].key.span, rows[j].key.span);
  }

  // ----- where a stored link comes from -----

  predicate CoversKey(candidate: Link, key: LinkKey) {
    candidate.kind.SecurityLink? && Covers(candidate.span, key.span)
  }

  /** The issuer has exactly one security link over the stored interval, the stored one. */
  ghost predicate Explains(issuer: Issuer, key: LinkKey) {
    && issuer.id == key.issuer
    && exists i :: 0 <= i < |issuer.links| && CoversKey(issuer.links[i], key)
                   && issuer.links[i].identifier == key.security
                   && forall j :: 0 <= j < |issuer.links| && j != i ==> !CoversKey(issuer.links[j], key)
  }

  lemma ResolvedExplains(issuer: Issuer, r: Resolved)
    requires SymbolsOf(issuer).Ok? && r in SymbolsOf(issuer).value
    ensures Explains(issuer, WriteOf(r).key)
  {
    hide SymbolsOf, Covers;
    ResolvedInsideOneSecurity(issuer, r);
    assert forall i :: 0 <= i < |issuer.links| ==>
      (Covering(issuer.links[i], r.link) <==> CoversKey(issuer.links[i], WriteOf(r).key));
  }

  lemma {:induction false} RowsOfLinks(rows: seq<Assertion>, links: seq<Resolved>, i: nat)
    requires AppendLinks(rows, links).Ok? && |rows| <= i < |AppendLinks(rows, links).value|
    ensures exists n :: 0 <= n < |links| && AppendLinks(rows, links).value[i].key == WriteOf(links[n]).key
  {
    hide Append, WriteOf;
    if links != [] {
      var n := |links| - 1;
      var mid := AppendLinks(rows, links[..n]).value;
      AppendExtends(mid, WriteOf(links[n]));
      AppendedRow(mid, WriteOf(links[n]));
      if i < |mid| {
        RowsOfLinks(rows, links[..n], i);
        var m :| 0 <= m < n && mid[i].key == WriteOf(links[..n][m]).key;
        assert links[m] == links[..n][m];
      }
    }
  }

  /** A row that an import added is explained by one of the import's issuers. */
  lemma ImportedRowExplained(rows: seq<Assertion>, issuers: seq<Issuer>, i: nat) returns (n: nat)
    requires Imported(rows, issuers).Ok? && |rows| <= i < |Imported(rows, issuers).value|
    ensures n < |issuers| && Explains(issuers[n], Imported(rows, issuers).value[i].key)
  {
    hide SymbolsOf, SymbolsOfAll, AppendLinks, Explains, SpansOk, IntervalsOk, NoClash, WriteOf;
    var links := SymbolsOfAll(issuers).value;
    RowsOfLinks(rows, links, i);
    var m :| 0 <= m < |links| && Imported(rows, issuers).value[i].key == WriteOf(links[m]).key;
    SymbolsOfAllFacts(issuers, links[m]);
    n :| 0 <= n < |issuers| && SymbolsOf(issuers[n]).Ok? && links[m] in SymbolsOf(issuers[n]).value;
    ResolvedExplains(issuers[n], links[m]);
  }

  lemma {:induction false} RunOf(runs: seq<seq<Issuer>>, i: nat) returns (k: nat, n: nat)
    requires i < |AfterRuns([], runs)|
    ensures k < |runs| && n < |runs[k]| && Imported(AfterRuns([], runs[..k]), runs[k]).Ok?
    ensures Explains(runs[k][n], AfterRuns([], runs)[i].key)
  {
    hide Imported, Explains;
    var last := |runs| - 1;
    var before := AfterRuns([], runs[..last]);
    if i < |before| {
      k, n := RunOf(runs[..last], i);
      assert runs[..last][..k] == runs[..k];
      if Imported(before, runs[last]).Ok? { ImportAppends(before, runs[last], i); }
    } else {
      k := last;
      n := ImportedRowExplained(before, runs[last], i);
    }
  }

  lemma ImportAppends(rows: seq<Assertion>, issuers: seq<Issuer>, i: nat)
    requires Imported(rows, issuers).Ok? && i < |rows|
    ensures i < |Imported(rows, issuers).value| && Imported(rows, issuers).value[i] == rows[i]
  {
    hide SymbolsOfAll, AppendLinks, SpansOk, IntervalsOk, NoClash;
    LinksExtend(rows, SymbolsOfAll(issuers).value);
  }

  lemma {:induction false} LinksExtend(rows: seq<Assertion>, links: seq<Resolved>)
    requires AppendLinks(rows, links).Ok?
    ensures rows <= AppendLinks(rows, links).value
  {
    hide Append;
    if links != [] {
      var n := |links| - 1;
      LinksExtend(rows, links[..n]);
      AppendExtends(AppendLinks(rows, links[..n]).value, WriteOf(links[n]));
    }
  }

  /** Over all publication runs: every stored link lies inside the interval of exactly one
      security link that an accepted run gave for its issuer, the security it is stored with. */
  lemma {:induction false} StoredInsideOneSecurity(runs: seq<seq<Issuer>>, i: nat)
    requires i < |AfterRuns([], runs)|
    ensures exists k, n :: 0 <= k < |runs| && 0 <= n < |runs[k]| && Imported(AfterRuns([], runs[..k]), runs[k]).Ok?
                           && Explains(runs[k][n], AfterRuns([], runs)[i].key)
  {
    hide AfterRuns, Imported, Explains;
    var k, n := RunOf(runs, i);
  }

  // ----- and its security? -----

  /** Rows of one symbol whose intervals share a date name one security. */
  ghost predicate OneSecurity(rows: seq<Assertion>) {
    forall i, j :: 0 <= i < |rows| && 0 <= j < |rows| && SameSymbolOverlaps(rows[i].key, rows[j].key) ==>
      rows[i].key.security == rows[j].key.security
  }

  /** The store is asked only about other issuers. What it is not asked: */
  predicate StoredSecurityDiffers(rows: seq<Assertion>, r: Resolved) {
    exists i :: 0 <= i < |rows| && SameSymbolOverlaps(rows[i].key, WriteOf(r).key) && rows[i].key.security != r.security
  }

  /** Writing a link keeps one security per symbol and date exactly when no stored row of
      the symbol that shares a date names another one. */
  lemma OneSecurityKeptExactly(rows: seq<Assertion>, r: Resolved)
    requires OneSecurity(rows) && WellChained(rows) && AppendLink(rows, r).Ok? && NotInverted(r.link.span)
    ensures OneSecurity(AppendLink(rows, r).value) <==> !StoredSecurityDiffers(rows, r)
  {
    var w := WriteOf(r);
    var next := Append(rows, w);
    AppendExtends(rows, w);
    AppendedRow(rows, w);
    SomeRowHas(rows, w);
    SpanMeetsItself(r.link.span);
    hide Append, WellChained, Overlaps, NotInverted;
    var k :| 0 <= k < |next| && next[k].key == w.key;
    assert forall i :: 0 <= i < |rows| ==> next[i] == rows[i];
    if StoredSecurityDiffers(rows, r) {
      var i :| 0 <= i < |rows| && SameSymbolOverlaps(rows[i].key, w.key) && rows[i].key.security != r.security;
      assert SameSymbolOverlaps(next[i].key, next[k].key);
    } else if next != rows {
      var n := |rows|;
      forall i | 0 <= i < n
        && (SameSymbolOverlaps(rows[i].key, next[n].key) || SameSymbolOverlaps(next[n].key, rows[i].key))
        ensures rows[i].key.security == next[n].key.security
      {
        OverlapsSymmetric(rows[i].key.span, next[n].key.span);
      }
    }
  }

  predicate ResolvesDifferently(rows: seq<Assertion>, links: seq<Resolved>) {
    exists n :: 0 <= n < |links| && StoredSecurityDiffers(rows, links[n])
  }

  lemma {:induction false} LinksKeepOneSecurityExactly(rows: seq<Assertion>, links: seq<Resolved>)
    requires OneSecurity(rows) && OneIssuer(rows) && WellChained(rows) && NoClash(links)
    requires (forall n :: 0 <= n < |links| ==> NotInverted(links[n].link.span)) && AppendLinks(rows, links).Ok?
    ensures OneSecurity(AppendLinks(rows, links).value) <==> !ResolvesDifferently(rows, links)
  {
    hide OneSecurity, OneIssuer, WellChained, NotInverted, AppendLink, StoredSecurityDiffers, SymbolClash;
    if links != [] {
      var n := |links| - 1;
      var front := links[..n];
      var mid := AppendLinks(rows, front).value;
      assert forall m :: 0 <= m < n ==> front[m] == links[m];
      LinksKeepOneSecurityExactly(rows, front);
      AppendLinksKeep(rows, front);
      if OneSecurity(mid) {
        OneSecurityKeptExactly(mid, links[n]);
        DiffersAlready(rows, front, links[n]);
      } else {
        AppendLinkKeeps(mid, links[n]);
        StaysAmbiguous(mid, AppendLink(mid, links[n]).value);
      }
    }
  }

  lemma StaysAmbiguous(rows: seq<Assertion>, more: seq<Assertion>)
    requires rows <= more && !OneSecurity(rows)
    ensures !OneSecurity(more)
  {
    hide SameSymbolOverlaps;
    var i, j :| 0 <= i < |rows| && 0 <= j < |rows| && SameSymbolOverlaps(rows[i].key, rows[j].key)
      && rows[i].key.security != rows[j].key.security;
    assert more[i] == rows[i] && more[j] == rows[j];
  }

  /** The links of one payload agree, so only rows of earlier imports can differ. */
  lemma {:induction false} DiffersAlready(rows: seq<Assertion>, front: seq<Resolved>, r: Resolved)
    requires AppendLinks(rows, front).Ok? && forall n :: 0 <= n < |front| ==> !SymbolClash(front[n], r)
    ensures StoredSecurityDiffers(AppendLinks(rows, front).value, r) <==> StoredSecurityDiffers(rows, r)
  {
    hide AppendLinks, Overlaps;
    var mid := AppendLinks(rows, front).value;
    LinksExtend(rows, front);
    if StoredSecurityDiffers(mid, r) {
      var i :| 0 <= i < |mid| && SameSymbolOverlaps(mid[i].key, WriteOf(r).key) && mid[i].key.security != r.security;
      if i >= |rows| { NewRowsAgree(rows, front, r, i); }
    }
    if StoredSecurityDiffers(rows, r) {
      var i :| 0 <= i < |rows| && SameSymbolOverlaps(rows[i].key, WriteOf(r).key) && rows[i].key.security != r.security;
      assert mid[i] == rows[i];
    }
  }

  lemma {:induction false} NewRowsAgree(rows: seq<Assertion>, front: seq<Resolved>, r: Resolved, i: nat)
    requires AppendLinks(rows, front).Ok? && forall n :: 0 <= n < |front| ==> !SymbolClash(front[n], r)
    requires |rows| <= i < |AppendLinks(rows, front).value|
    ensures var key := AppendLinks(rows, front).value[i].key;
      SameSymbolOverlaps(key, WriteOf(r).key) ==> key.security == r.security
  {
    hide AppendLinks, Overlaps;
    RowsOfLinks(rows, front, i);
    var n :| 0 <= n < |front| && AppendLinks(rows, front).value[i].key == WriteOf(front[n]).key;
    assert !SymbolClash(front[n], r);
  }

  /** One import keeps one security per symbol and date exactly when it resolves no symbol
      to another security than a link stored before that shares a date. */
  lemma {:induction false} ImportKeepsOneSecurityExactly(rows: seq<Assertion>, issuers: seq<Issuer>)
    requires OneSecurity(rows) && OneIssuer(rows) && WellChained(rows) && Imported(rows, issuers).Ok?
    ensures OneSecurity(Imported(rows, issuers).value) <==> !ResolvesDifferently(rows, SymbolsOfAll(issuers).value)
  {
    hide OneSecurity, OneIssuer, WellChained, AppendLinks, NotInverted, SymbolsOfAll, NoClash, ResolvesDifferently,
         IntervalsOk,
         SpansOk;
    SpansOfLinks(issuers);
    LinksKeepOneSecurityExactly(rows, SymbolsOfAll(issuers).value);
  }

  lemma {:induction false} SpansOfLinks(issuers: seq<Issuer>)
    requires SpansOk(issuers) && SymbolsOfAll(issuers).Ok?
    ensures var links := SymbolsOfAll(issuers).value; forall k :: 0 <= k < |links| ==> NotInverted(links[k].link.span)
  {
    hide NotInverted, SymbolsOfAll, SymbolsOf;
    var links := SymbolsOfAll(issuers).value;
    forall k | 0 <= k < |links| ensures NotInverted(links[k].link.span) {
      SymbolsOfAllFacts(issuers, links[k]);
      var i :| 0 <= i < |issuers| && SymbolsOf(issuers[i]).Ok? && links[k] in SymbolsOf(issuers[i]).value;
      ResolvedInsideOneSecurity(issuers[i], links[k]);
      var j :| 0 <= j < |issuers[i].links| && issuers[i].links[j] == links[k].link;
    }
  }

  /** Run `k` was refused, or resolved no symbol to another security than a link stored by
      then that shares a date. */
  predicate RunAgrees(runs: seq<seq<Issuer>>, k: nat)
    requires k < |runs|
  {
    var before := AfterRuns([], runs[..k]);
    Imported(before, runs[k]).Ok? ==> !ResolvesDifferently(before, SymbolsOfAll(runs[k]).value)
  }

  /** Over all runs: one security per symbol and date exactly when every run agrees with
      what was stored before it. */
  lemma {:induction false} OneSecurityOverRunsExactly(runs: seq<seq<Issuer>>)
    ensures OneSecurity(AfterRuns([], runs)) <==> forall k :: 0 <= k < |runs| ==> RunAgrees(runs, k)
  {
    hide OneSecurity, RunAgrees, AfterRuns;
    NoRowsOneSecurity();
    if runs != [] {
      var n := |runs| - 1;
      OneSecurityOverRunsExactly(runs[..n]);
      LastRunExactly(runs);
      forall k | 0 <= k < n ensures RunAgrees(runs[..n], k) <==> RunAgrees(runs, k) { EarlierRun(runs, n, k); }
    }
  }

  lemma EarlierRun(runs: seq<seq<Issuer>>, n: nat, k: nat)
    requires k < n <= |runs|
    ensures RunAgrees(runs[..n], k) <==> RunAgrees(runs, k)
  {
    hide AfterRuns, Imported, ResolvesDifferently, SymbolsOfAll;
    assert runs[..n][..k] == runs[..k];
  }

  lemma {:induction false} LastRunExactly(runs: seq<seq<Issuer>>)
    requires runs != []
    ensures var n := |runs| - 1;
      OneSecurity(AfterRuns([], runs)) <==> OneSecurity(AfterRuns([], runs[..n])) && RunAgrees(runs, n)
  {
    hide OneSecurity, OneIssuer, WellChained, Imported, ResolvesDifferently, SymbolsOfAll;
    var n := |runs| - 1;
    var before := AfterRuns([], runs[..n]);
    RunsKeep(runs[..n]);
    if Imported(before, runs[n]).Ok? {
      if OneSecurity(before) {
        ImportKeepsOneSecurityExactly(before, runs[n]);
      } else {
        ImportKeeps(before, runs[n]);
        StaysAmbiguous(before, Imported(before, runs[n]).value);
      }
    }
  }

  lemma NoRowsOneSecurity()
    ensures OneSecurity(AfterRuns([], []))
  {
  }

  lemma SomeRowHas(rows: seq<Assertion>, w: Write<LinkKey, LinkColumns>)
    ensures exists k :: 0 <= k < |Append(rows, w)| && Append(rows, w)[k].key == w.key
  {
    var prior := Prior(rows, w.key);
    var next := Append(rows, w);
    if prior.Some? { assert next[prior.value].key == w.key; } else { assert next[|rows|].key == w.key; }
  }

  lemma SpanMeetsItself(s: Span)
    requires NotInverted(s)
    ensures Overlaps(s, s)
  {
  }

  /** Within one payload the security is checked too. */
  lemma {:induction false} PayloadNamesOneSecurity(issuers: seq<Issuer>, a: Resolved, b: Resolved)
    requires ReferencesOk(issuers) && a in SymbolsOfAll(issuers).value && b in SymbolsOfAll(issuers).value
    requires a.link.provider == b.link.provider && a.link.identifier == b.link.identifier
    requires Overlaps(a.link.span, b.link.span)
    ensures a.issuer == b.issuer && a.security == b.security
  {
    hide SymbolsOfAll, Overlaps;
    var all := SymbolsOfAll(issuers).value;
    var i :| 0 <= i < |all| && all[i] == a;
    var j :| 0 <= j < |all| && all[j] == b;
    OverlapsSymmetric(a.link.span, b.link.span);
    assert i < j ==> !SymbolClash(all[i], all[j]);
    assert j < i ==> !SymbolClash(all[j], all[i]);
  }

  /** An issuer with one security and one ticker over the same interval. */
  function OneTicker(id: string, security: string, symbol: string, span: Span): Issuer {
    Issuer(id, [Link(SecurityLink, "sec", security, span, "confirmed", "2026-01-01"),
                Link(TickerLink, "sec", symbol, span, "confirmed", "2026-01-01")])
  }

  lemma OneTickerResolves(id: string, security: string, symbol: string, span: Span)
    ensures SymbolsOf(OneTicker(id, security, symbol, span)) ==
      Ok([Resolved(id, OneTicker(id, security, symbol, span).links[1], security)])
  {
    var issuer := OneTicker(id, security, symbol, span);
    var links := issuer.links;
    var found := [Resolved(id, links[1], security)];
    OneTickerCovered(issuer, links[0], links[1]);
    hide SecurityFor, Sort, ResolvedLt;
    assert links[..1] == [links[0]] && [links[0]][..0] == [];
    assert SymbolsIn(issuer, []) == Ok([]);
    assert SymbolsIn(issuer, [links[0]]) == Ok([]);
    assert [] + found == found;
    assert SymbolsIn(issuer, links) == Ok(found);
    SortOne(found[0]);
  }

  lemma OneTickerCovered(issuer: Issuer, held: Link, ticker: Link)
    requires issuer.links == [held, ticker] && held.kind == SecurityLink && ticker.kind == TickerLink
    requires held.span == ticker.span
    ensures SecurityFor(issuer, ticker) == Ok(held.identifier)
  {
    TextIrreflexive(held.span.from);
    if held.span.through.Some? { TextIrreflexive(held.span.through.value); }
    hide TextLt;
    assert Covering(held, ticker) && !Covering(ticker, ticker);
    hide Covering;
    assert issuer.links[..1] == [held] && [held][..0] == [];
    assert CoveringLinks([], ticker) == [];
    assert CoveringLinks([held], ticker) == [held];
  }

  lemma SortOne(r: Resolved)
    ensures Sort([r], ResolvedLt) == [r]
  {
    hide ResolvedLt;
    assert [r][..0] == [];
    assert Insert([], r, ResolvedLt) == [r];
  }

  lemma OneTickerImports(rows: seq<Assertion>, id: string, security: string, symbol: string, span: Span)
    requires NotInverted(span)
    ensures var r := Resolved(id, OneTicker(id, security, symbol, span).links[1], security);
      Imported(rows, [OneTicker(id, security, symbol, span)]) == AppendLink(rows, r)
  {
    var issuer := OneTicker(id, security, symbol, span);
    var r := Resolved(id, issuer.links[1], security);
    OneTickerPasses(id, security, symbol, span);
    hide SymbolsOfAll, AppendLink, SpansOk, IntervalsOk, NoClash;
    assert [r][..0] == [];
    assert AppendLinks(rows, []) == Ok(rows);
    assert AppendLinks(rows, [r]) == AppendLink(rows, r);
  }

  lemma OneTickerPasses(id: string, security: string, symbol: string, span: Span)
    requires NotInverted(span)
    ensures var issuer := OneTicker(id, security, symbol, span);
      && SpansOk([issuer]) && IntervalsOk([issuer]) && ReferencesOk([issuer])
      && SymbolsOfAll([issuer]) == Ok([Resolved(id, issuer.links[1], security)])
  {
    hide SymbolsOf, Overlaps, NotInverted;
    var issuer := OneTicker(id, security, symbol, span);
    var r := Resolved(id, issuer.links[1], security);
    OneTickerResolves(id, security, symbol, span);
    OneIssuerOnly(issuer);
    assert NoClash([r]);
  }

  lemma OneIssuerOnly(issuer: Issuer)
    ensures AllLinks([issuer]) == issuer.links && SymbolsOfAll([issuer]) == SymbolsOf(issuer)
  {
    hide SymbolsOf;
    assert [issuer][..0] == [];
    assert AllLinks([]) == [] && [] + issuer.links == issuer.links;
    assert SymbolsOfAll([]) == Ok([]);
    if SymbolsOf(issuer).Ok? { assert [] + SymbolsOf(issuer).value == SymbolsOf(issuer).value; }
  }

  /** Two valid payloads of one issuer, in two runs: both are committed, and the symbol then
      stands for two securities on every date of the interval. */
  lemma TwoRunsTwoSecurities(id: string, one: string, other: string, symbol: string, span: Span)
    requires one != other && NotInverted(span)
    ensures var rows := AfterRuns([], [[OneTicker(id, one, symbol, span)], [OneTicker(id, other, symbol, span)]]);
      && |rows| == 2
      && rows[0].key == LinkKey(id, "sec", symbol, one, span) && rows[1].key == LinkKey(id, "sec", symbol, other, span)
      && !OneSecurity(rows)
  {
    hide Imported, Overlaps;
    var first, second := [OneTicker(id, one, symbol, span)], [OneTicker(id, other, symbol, span)];
    OneTickerImports([], id, one, symbol, span);
    var r := Resolved(id, first[0].links[1], one);
    var q := Resolved(id, second[0].links[1], other);
    var rows := Append([], WriteOf(r));
    OneTickerImports(rows, id, other, symbol, span);
    SpanMeetsItself(span);
    assert rows == [Version(WriteOf(r).key, WriteOf(r).columns, 1, None)];
    assert rows[..0] == [];
    assert Prior(rows, WriteOf(q).key) == None;
    var all := Append(rows, WriteOf(q));
    assert [first, second][..1] == [first] && [first][..0] == [];
    assert AfterRuns([], [first]) == rows;
    assert AfterRuns([], [first, second]) == all;
    assert SameSymbolOverlaps(all[0].key, all[1].key);
  }

  // ----- the store -----

  class LinkStore {
    var rows: seq<Assertion>

    constructor ()
      ensures rows == []
    {
      rows := [];
    }

    /** One publication run: nothing is written unless everything is. */
    method Publish(issuers: seq<Issuer>) returns (r: Result<nat, Fault>)
      modifies this
      ensures match Imported(old(rows), issuers)
        case Ok(next) => rows == next && r == Ok(|next| - |old(rows)|)
        case Err(e) => rows == old(rows) && r == Err(e)
    {
      hide IntervalsOk, NoClash, SymbolsOfAll, AppendLinks, SpansOk;
      var ok := ValidateReferences(issuers);
      if !SpansOk(issuers) || !IntervalsOk(issuers) || !ok { return Err(ValidationFault); }
      var written;
      var work;
      work, written := WriteSymbolLinks(rows, SymbolsOfAll(issuers).value);
      if work.Err? { return Err(work.error); }
      rows := work.value;
      r := Ok(written);
    }

    /** `_write_symbol_links`, on the transaction's working copy. */
    method WriteSymbolLinks(before: seq<Assertion>, links: seq<Resolved>)
      returns (work: Result<seq<Assertion>, Fault>, written: nat)
      ensures work == AppendLinks(before, links)
      ensures work.Ok? ==> written == |work.value| - |before|
    {
      hide AppendLink;
      work, written := Ok(before), 0;
      assert links[..0] == [];
      for i := 0 to |links|
        invariant work.Ok? && AppendLinks(before, links[..i]) == work
        invariant written == |work.value| - |before|
      {
        assert links[..i + 1][..i] == links[..i];
        AppendedCount(work.value, links[i]);
        var step := AppendLink(work.value, links[i]);
        if step.Err? {
          LinksStop(before, links, i + 1);
          return step, 0;
        }
        if |step.value| > |work.value| { written := written + 1; }
        work := step;
      }
      assert links[..|links|] == links;
    }
  }

  lemma {:induction false} LinksStop(rows: seq<Assertion>, links: seq<Resolved>, k: nat)
    requires k <= |links| && AppendLinks(rows, links[..k]).Err?
    ensures AppendLinks(rows, links) == AppendLinks(rows, links[..k])
    decreases |links| - k
  {
    hide AppendLink;
    if k == |links| {
      assert links[..k] == links;
    } else {
      assert links[..k + 1][..k] == links[..k];
      LinksStop(rows, links, k + 1);
    }
  }

  lemma AppendedCount(rows: seq<Assertion>, r: Resolved)
    ensures AppendLink(rows, r).Ok? ==> |rows| <= |AppendLink(rows, r).value| <= |rows| + 1
  {
    AppendExtends(rows, WriteOf(r));
    hide Append, Overlaps;
  }
}
