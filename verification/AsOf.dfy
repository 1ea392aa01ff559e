/**
 Choosing, as of a cutoff, one version for each identity (`_market_projection`,
 `_company_projection` and `_news_projection` in quant_data/atlas/projections.py).
 */
module AsOf {
  import opened Wrappers
  import opened Ordering
  import opened Temporal

  /** A stored version: `key` is the identity it is a version of, `available` what its
      availability parses to (None: it does not, or not to the stated precision). */
  datatype Version = Version(key: seq<string>, sequence: int, availableAt: string,
                             available: Option<TemporalValue>, id: string)

  /** `_candidate_limit`. */
  function CandidateLimit(maxRows: nat): nat {
    var scaled := if maxRows * 32 > 128 then maxRows * 32 else 128;
    if scaled < 200_000 then scaled else 200_000
  }

  predicate Eligible(v: Version, cutoff: TemporalValue) {
    v.available.Some? && Admitted(v.available.value, cutoff, CompletedDate)
  }

  function EligibleOf(versions: seq<Version>, cutoff: TemporalValue): (r: seq<Version>)
    ensures forall v :: v in r <==> v in versions && Eligible(v, cutoff)
  {
    if versions == [] then []
    else
      var n := |versions| - 1;
      assert versions == versions[..n] + [versions[n]];
      EligibleOf(versions[..n], cutoff) + (if Eligible(versions[n], cutoff) then [versions[n]] else [])
  }

  /** The order `max` looks for: sequence, then availability as text, then id. */
  predicate Below(a: Version, b: Version) {
    || a.sequence < b.sequence
    || (a.sequence == b.sequence && TextLt(a.availableAt, b.availableAt))
    || (a.sequence == b.sequence && a.availableAt == b.availableAt && TextLt(a.id, b.id))
  }

  /** `max(group, key=...)`: the first of the greatest. */
  function Greatest(group: seq<Version>): (r: Version)
    requires group != []
    ensures r in group
  {
    var n := |group| - 1;
    if n == 0 then group[0]
    else
      var front := Greatest(group[..n]);
      if Below(front, group[n]) then group[n] else front
  }

  function GroupOf(versions: seq<Version>, key: seq<string>): (r: seq<Version>)
    ensures forall v :: v in r <==> v in versions && v.key == key
  {
    if versions == [] then []
    else
      var n := |versions| - 1;
      assert versions == versions[..n] + [versions[n]];
      GroupOf(versions[..n], key) + (if versions[n].key == key then [versions[n]] else [])
  }

  /** Keys in order of first appearance. */
  function KeysOf(versions: seq<Version>): (r: seq<seq<string>>)
    ensures forall k :: k in r <==> exists v :: v in versions && v.key == k
    ensures forall i, j :: 0 <= i < j < |r| ==> r[i] != r[j]
  {
    if versions == [] then []
    else
      var n := |versions| - 1;
      var front := KeysOf(versions[..n]);
      assert versions == versions[..n] + [versions[n]];
      if versions[n].key in front then front else front + [versions[n].key]
  }

  function Chosen(versions: seq<Version>, keys: seq<seq<string>>): (r: seq<Version>)
    requires forall i :: 0 <= i < |keys| ==> GroupOf(versions, keys[i]) != []
    ensures |r| == |keys|
    ensures forall i :: 0 <= i < |keys| ==> r[i] == Greatest(GroupOf(versions, keys[i]))
  {
    seq(|keys|, i requires 0 <= i < |keys| => Greatest(GroupOf(versions, keys[i])))
  }

  lemma {:induction false} KeysHaveGroups(versions: seq<Version>)
    ensures forall i :: 0 <= i < |KeysOf(versions)| ==> GroupOf(versions, KeysOf(versions)[i]) != []
  {
    hide GroupOf, KeysOf;
    forall i | 0 <= i < |KeysOf(versions)| ensures GroupOf(versions, KeysOf(versions)[i]) != [] {
      assert KeysOf(versions)[i] in KeysOf(versions);
      var v :| v in versions && v.key == KeysOf(versions)[i];
      assert v in GroupOf(versions, KeysOf(versions)[i]);
    }
  }

  /** The rows selected as of `cutoff`, in the order their identities first appear. */
  function Latest(eligible: seq<Version>): seq<Version> {
    KeysHaveGroups(eligible);
    Chosen(eligible, KeysOf(eligible))
  }

  predicate Readable(versions: seq<Version>) {
    forall i :: 0 <= i < |versions| ==> versions[i].available.Some?
  }

  /** What a projection selects or raises, `cutoff` being a UTC datetime. */
  function Selected(versions: seq<Version>, cutoff: TemporalValue, maxRows: nat): Result<seq<Version>, Fault> {
    if |versions| > CandidateLimit(maxRows) then Err(ResourceLimit)
    else if !Readable(versions) then Err(ValidationFault)
    else Ok(Latest(EligibleOf(versions, cutoff)))
  }

  // ----- what the selection is -----

  lemma BelowTransitive(a: Version, b: Version, c: Version)
    requires Below(a, b) && Below(b, c)
    ensures Below(a, c)
  {
    if a.sequence == b.sequence == c.sequence {
      if TextLt(a.availableAt, b.availableAt) && TextLt(b.availableAt, c.availableAt) {
        TextTransitive(a.availableAt, b.availableAt, c.availableAt);
      }
      if TextLt(a.id, b.id) && TextLt(b.id, c.id) { TextTransitive(a.id, b.id, c.id); }
    }
  }

  lemma BelowTotal(a: Version, b: Version)
    ensures !Below(a, a)
    ensures Below(a, b) || Below(b, a) || (a.sequence == b.sequence && a.availableAt == b.availableAt && a.id == b.id)
    ensures !(Below(a, b) && Below(b, a))
  {
    TextTotal(a.availableAt, b.availableAt);
    TextTotal(a.id, b.id);
    TextIrreflexive(a.availableAt);
    TextIrreflexive(a.id);
    if TextLt(a.availableAt, b.availableAt) && TextLt(b.availableAt, a.availableAt) {
      TextTransitive(a.availableAt, b.availableAt, a.availableAt);
    }
    if TextLt(a.id, b.id) && TextLt(b.id, a.id) { TextTransitive(a.id, b.id, a.id); }
  }

  lemma {:induction false} GreatestIsMaximal(group: seq<Version>, v: Version)
    requires v in group
    ensures !Below(Greatest(group), v)
  {
    hide Below;
    var n := |group| - 1;
    BelowTotal(v, v);
    assert group == group[..n] + [group[n]];
    if n > 0 {
      var front := Greatest(group[..n]);
      if v in group[..n] { GreatestIsMaximal(group[..n], v); }
      if Below(front, group[n]) && v in group[..n] && Below(group[n], v) { BelowTransitive(front, group[n], v); }
    }
  }

  /** Ids are primary keys. */
  ghost predicate UniqueIds(versions: seq<Version>) {
    forall a, b :: a in versions && b in versions && a.id == b.id ==> a == b
  }

  /** Stated, and past by the cutoff: a day when it is over at the cutoff's offset, a time as
      an instant. */
  predicate AvailableBy(v: Version, cutoff: TemporalValue)
    requires cutoff.DateTime?
  {
    match v.available
    case Some(Date(day)) => EndOfDay(day, cutoff.offset) <= Instant(cutoff)
    case Some(DateTime(day, time, offset)) => day * DAY + time - offset * MINUTE <= Instant(cutoff)
    case _ => false
  }

  /** The selected rows, told without groups: `v` is selected iff it is available and every
      other available version of its identity has a smaller sequence or, with the same one,
      an earlier text of availability or, with the same one, a smaller id. */
  ghost predicate IsLatest(v: Version, versions: seq<Version>, cutoff: TemporalValue)
    requires cutoff.DateTime?
  {
    && v in versions && AvailableBy(v, cutoff)
    && forall u :: u in versions && AvailableBy(u, cutoff) && u.key == v.key && u != v ==>
         && u.sequence <= v.sequence
         && (u.sequence == v.sequence ==>
               && TextLe(u.availableAt, v.availableAt)
               && (u.availableAt == v.availableAt ==> TextLt(u.id, v.id)))
  }

  lemma EligibleMeans(v: Version, cutoff: TemporalValue)
    requires cutoff.DateTime? && Temporal.Valid(cutoff)
    ensures Eligible(v, cutoff) <==> AvailableBy(v, cutoff)
  {
    if v.available.Some? && v.available.value.Date? { CompletedMeansTheDayIsOver(v.available.value.day, cutoff); }
  }

  lemma BelowMeans(u: Version, v: Version)
    ensures Below(u, v) <==>
      && u.sequence <= v.sequence
      && (u.sequence == v.sequence ==>
            TextLe(u.availableAt, v.availableAt) && (u.availableAt == v.availableAt ==> TextLt(u.id, v.id)))
  {
    hide TextLt;
    TextTotal(u.availableAt, v.availableAt);
    TextIrreflexive(u.availableAt);
    if TextLt(u.availableAt, v.availableAt) && TextLt(v.availableAt, u.availableAt) {
      TextTransitive(u.availableAt, v.availableAt, u.availableAt);
    }
  }

  /** When a selection raises: more candidates than 32 for each row, at least 128 and at most
      200000, or else a candidate whose availability cannot be read. */
  lemma SelectionRaisesExactly(versions: seq<Version>, cutoff: TemporalValue, maxRows: nat)
    ensures Selected(versions, cutoff, maxRows) == Err(ResourceLimit) <==>
      |versions| > 200_000 || (|versions| > 128 && |versions| > 32 * maxRows)
    ensures Selected(versions, cutoff, maxRows).Err? <==>
      || |versions| > 200_000 || (|versions| > 128 && |versions| > 32 * maxRows)
      || exists v :: v in versions && v.available.None?
    ensures Selected(versions, cutoff, maxRows).Err? ==>
      Selected(versions, cutoff, maxRows).error in {ResourceLimit, ValidationFault}
  {
    hide Latest, EligibleOf;
    if !Readable(versions) {
      var i :| 0 <= i < |versions| && versions[i].available.None?;
      assert versions[i] in versions;
    }
  }

  lemma {:induction false} ChosenMember(eligible: seq<Version>, v: Version)
    ensures v in Latest(eligible) <==> v in eligible && v == Greatest(GroupOf(eligible, v.key))
  {
    KeysHaveGroups(eligible);
    var keys, r := KeysOf(eligible), Latest(eligible);
    hide KeysOf, GroupOf, Greatest, Chosen;
    if v in r {
      var i :| 0 <= i < |r| && r[i] == v;
      assert v in GroupOf(eligible, keys[i]);
    }
    if v in eligible && v in GroupOf(eligible, v.key) && v == Greatest(GroupOf(eligible, v.key)) {
      assert v.key in keys;
      var i :| 0 <= i < |keys| && keys[i] == v.key;
      assert r[i] == v;
    }
  }

  /** Exactly the greatest eligible version of each identity that has one. */
  lemma SelectsExactlyTheLatest(versions: seq<Version>, cutoff: TemporalValue, maxRows: nat, v: Version)
    requires cutoff.DateTime? && Temporal.Valid(cutoff)
    requires UniqueIds(versions) && Selected(versions, cutoff, maxRows).Ok?
    ensures v in Selected(versions, cutoff, maxRows).value <==> IsLatest(v, versions, cutoff)
  {
    hide Below, Eligible, AvailableBy, Selected, TextLt, EligibleOf;
    GreatestOfIdentity(versions, cutoff, maxRows, v);
    forall u ensures Eligible(u, cutoff) <==> AvailableBy(u, cutoff) { EligibleMeans(u, cutoff); }
    forall u { BelowMeans(u, v); }
  }

  /** The same in terms of the order that `max` looks for. */
  lemma {:induction false} GreatestOfIdentity(versions: seq<Version>, cutoff: TemporalValue, maxRows: nat, v: Version)
    requires UniqueIds(versions) && Selected(versions, cutoff, maxRows).Ok?
    ensures v in Selected(versions, cutoff, maxRows).value <==>
      && v in EligibleOf(versions, cutoff)
      && forall u :: u in EligibleOf(versions, cutoff) && u.key == v.key && u != v ==> Below(u, v)
  {
    var eligible := EligibleOf(versions, cutoff);
    ChosenMember(eligible, v);
    if v in eligible {
      var group := GroupOf(eligible, v.key);
      assert v in group;
      var g := Greatest(group);
      hide Below, Greatest, GroupOf, EligibleOf, Latest, Eligible, KeysOf;
      assert g in group;
      GreatestIsMaximal(group, v);
      forall u | u in group && u != g ensures Below(u, g) {
        GreatestIsMaximal(group, u);
        BelowTotal(u, g);
        assert u in versions && g in versions;
      }
      if v != g { BelowTotal(v, g); }
    }
  }

  predicate HasKey(versions: seq<Version>, key: seq<string>) {
    exists v :: v in versions && v.key == key
  }

  predicate FirstBefore(versions: seq<Version>, key: seq<string>, other: seq<string>) {
    exists i :: 0 <= i < |versions| && versions[i].key == key && forall j :: 0 <= j <= i ==> versions[j].key != other
  }

  lemma {:induction false} KeysFirstSeen(versions: seq<Version>, i: nat, j: nat)
    requires i < j < |KeysOf(versions)|
    ensures FirstBefore(versions, KeysOf(versions)[i], KeysOf(versions)[j])
  {
    hide KeysOf, FirstBefore;
    var n := |versions| - 1;
    LastKey(versions);
    var front := KeysOf(versions[..n]);
    if j < |front| {
      KeysFirstSeen(versions[..n], i, j);
      FirstInFront(versions, n, front[i], front[j]);
    } else {
      NewKeyLast(versions, front[i]);
    }
  }

  lemma {:induction false} LastKey(versions: seq<Version>)
    requires KeysOf(versions) != []
    ensures versions != []
    ensures var n := |versions| - 1;
      var front := KeysOf(versions[..n]);
      KeysOf(versions) == if versions[n].key in front then front else front + [versions[n].key]
  {
  }

  lemma FirstInFront(versions: seq<Version>, n: nat, key: seq<string>, other: seq<string>)
    requires n <= |versions| && FirstBefore(versions[..n], key, other)
    ensures FirstBefore(versions, key, other)
  {
    var i :| 0 <= i < n && versions[..n][i].key == key && forall j :: 0 <= j <= i ==> versions[..n][j].key != other;
    assert versions[i].key == key && forall j :: 0 <= j <= i ==> versions[j].key != other;
  }

  lemma {:induction false} NewKeyLast(versions: seq<Version>, key: seq<string>)
    requires versions != [] && key in KeysOf(versions[..|versions| - 1])
    requires versions[|versions| - 1].key !in KeysOf(versions[..|versions| - 1])
    ensures FirstBefore(versions, key, versions[|versions| - 1].key)
  {
    hide KeysOf;
    var front := versions[..|versions| - 1];
    var v :| v in front && v.key == key;
    var i :| 0 <= i < |front| && front[i] == v;
    assert forall j :: 0 <= j < |front| ==> versions[j] in front;
  }

  /** Identities are in the order in which the eligible versions first name them. */
  lemma {:induction false} IdentitiesAsFirstSeen(versions: seq<Version>, cutoff: TemporalValue, maxRows: nat, i: nat,
                                                 j: nat)
    requires Selected(versions, cutoff, maxRows).Ok? && i < j < |Selected(versions, cutoff, maxRows).value|
    ensures var r := Selected(versions, cutoff, maxRows).value;
      FirstBefore(EligibleOf(versions, cutoff), r[i].key, r[j].key)
  {
    var eligible := EligibleOf(versions, cutoff);
    KeysHaveGroups(eligible);
    hide EligibleOf, Greatest, GroupOf, KeysOf, FirstBefore, CandidateLimit;
    var keys, r := KeysOf(eligible), Latest(eligible);
    assert r[i] in GroupOf(eligible, keys[i]) && r[j] in GroupOf(eligible, keys[j]);
    KeysFirstSeen(eligible, i, j);
  }

  /** No identity twice, and none with an eligible version left out. */
  lemma {:induction false} OneRowPerIdentity(versions: seq<Version>, cutoff: TemporalValue, maxRows: nat,
                                             key: seq<string>)
    requires Selected(versions, cutoff, maxRows).Ok?
    ensures var r := Selected(versions, cutoff, maxRows).value;
      && (forall i, j :: 0 <= i < j < |r| ==> r[i].key != r[j].key)
      && (HasKey(r, key) <==> HasKey(EligibleOf(versions, cutoff), key))
  {
    var eligible := EligibleOf(versions, cutoff);
    var r, keys := Latest(eligible), KeysOf(eligible);
    KeysHaveGroups(eligible);
    hide Eligible, EligibleOf, Greatest, GroupOf, KeysOf, Chosen;
    forall i | 0 <= i < |r| ensures r[i].key == keys[i] {
      assert r[i] in GroupOf(eligible, keys[i]);
    }
    if key in keys {
      var i :| 0 <= i < |keys| && keys[i] == key;
      assert r[i] in r && r[i].key == key;
    }
    if HasKey(r, key) {
      var v :| v in r && v.key == key;
      var i :| 0 <= i < |r| && r[i] == v;
      assert keys[i] in keys;
    }
  }

  /** Versions not yet available change nothing, wherever they stand. */
  lemma NotYetAvailableChangesNothing(before: seq<Version>, late: Version, after: seq<Version>,
                                      cutoff: TemporalValue, maxRows: nat)
    requires late.available.Some? && !Eligible(late, cutoff)
    requires |before| + |after| < CandidateLimit(maxRows)
    ensures Selected(before + [late] + after, cutoff, maxRows) == Selected(before + after, cutoff, maxRows)
  {
    LateIsFiltered(before, late, after, cutoff);
    ReadableConcat(before + [late], after);
    ReadableConcat(before, [late]);
    ReadableConcat(before, after);
    assert Readable([late]);
    hide Eligible, EligibleOf, Latest, CandidateLimit, Readable;
  }

  lemma {:induction false} LateIsFiltered(before: seq<Version>, late: Version, after: seq<Version>,
                                          cutoff: TemporalValue)
    requires !Eligible(late, cutoff)
    ensures EligibleOf(before + [late] + after, cutoff) == EligibleOf(before + after, cutoff)
  {
    hide Eligible;
    assert EligibleOf([late], cutoff) == [] by { assert [late][..0] == []; }
    hide EligibleOf;
    EligibleConcat(before + [late], after, cutoff);
    EligibleConcat(before, [late], cutoff);
    EligibleConcat(before, after, cutoff);
    assert EligibleOf(before, cutoff) + [] == EligibleOf(before, cutoff);
  }

  lemma {:induction false} EligibleConcat(a: seq<Version>, b: seq<Version>, cutoff: TemporalValue)
    ensures EligibleOf(a + b, cutoff) == EligibleOf(a, cutoff) + EligibleOf(b, cutoff)
  {
    hide Eligible, EligibleOf;
    if b == [] {
      assert a + b == a;
      EligibleNone(cutoff);
    } else {
      var n := |b| - 1;
      EligibleConcat(a, b[..n], cutoff);
      EligibleLast(b, cutoff);
      EligibleLast(a + b, cutoff);
      assert (a + b)[..|a| + n] == a + b[..n] && (a + b)[|a| + n] == b[n];
    }
  }

  lemma {:induction false} EligibleNone(cutoff: TemporalValue)
    ensures EligibleOf([], cutoff) == []
  {
  }

  lemma {:induction false} EligibleLast(versions: seq<Version>, cutoff: TemporalValue)
    requires versions != []
    ensures var n := |versions| - 1;
      EligibleOf(versions, cutoff) ==
      EligibleOf(versions[..n], cutoff) + (if Eligible(versions[n], cutoff) then [versions[n]] else [])
  {
    hide Eligible;
  }

  lemma ReadableConcat(a: seq<Version>, b: seq<Version>)
    ensures Readable(a + b) <==> Readable(a) && Readable(b)
  {
    var all := a + b;
    if Readable(all) {
      assert forall i :: 0 <= i < |a| ==> a[i] == all[i];
      assert forall i :: 0 <= i < |b| ==> b[i] == all[|a| + i];
    }
  }

  /** A later cutoff keeps every identity and never selects a lower sequence. */
  lemma LaterCutoffNeverLoses(versions: seq<Version>, a: TemporalValue, b: TemporalValue, maxRows: nat, v: Version)
    requires a.DateTime? && b.DateTime? && Temporal.Valid(a) && Temporal.Valid(b) && a.offset == b.offset
    requires Instant(a) <= Instant(b)
    requires Selected(versions, a, maxRows).Ok? && v in Selected(versions, a, maxRows).value
    ensures Selected(versions, b, maxRows).Ok?
    ensures exists u :: u in Selected(versions, b, maxRows).value && u.key == v.key && u.sequence >= v.sequence
  {
    hide EligibleOf, Eligible, GroupOf, Greatest, Latest, Instant, TextLt, Readable;
    var early, late := EligibleOf(versions, a), EligibleOf(versions, b);
    ChosenMember(early, v);
    StaysEligible(a, b, v);
    assert v in GroupOf(late, v.key);
    var u := Greatest(GroupOf(late, v.key));
    GreatestIsMaximal(GroupOf(late, v.key), v);
    assert u in GroupOf(late, v.key);
    ChosenMember(late, u);
  }

  lemma StaysEligible(a: TemporalValue, b: TemporalValue, v: Version)
    requires a.DateTime? && b.DateTime? && Temporal.Valid(a) && Temporal.Valid(b) && a.offset == b.offset
    requires Instant(a) <= Instant(b) && Eligible(v, a)
    ensures Eligible(v, b)
  {
    SameOffsetKeepsDates(a, b);
    LaterCutoffAdmitsAsMuch(a, b, CompletedDate);
    hide Admitted;
  }

  /** The selected versions do not depend on the order the store returns them in. */
  lemma OrderOfVersionsDoesNotMatter(versions: seq<Version>, others: seq<Version>, cutoff: TemporalValue, maxRows: nat,
                                     v: Version)
    requires UniqueIds(versions) && (forall x :: x in versions <==> x in others)
    requires Selected(versions, cutoff, maxRows).Ok? && Selected(others, cutoff, maxRows).Ok?
    ensures v in Selected(versions, cutoff, maxRows).value <==> v in Selected(others, cutoff, maxRows).value
  {
    GreatestOfIdentity(versions, cutoff, maxRows, v);
    GreatestOfIdentity(others, cutoff, maxRows, v);
    hide Selected, Eligible;
  }

  // ----- the loops -----

  lemma {:induction false} GroupOfSnoc(versions: seq<Version>, v: Version, key: seq<string>)
    ensures GroupOf(versions + [v], key) == GroupOf(versions, key) + (if v.key == key then [v] else [])
    ensures KeysOf(versions + [v]) == if v.key in KeysOf(versions) then KeysOf(versions) else KeysOf(versions) + [v.key]
  {
    assert (versions + [v])[..|versions|] == versions;
  }

  /** `grouped` as the loop has it after the versions `eligible`: `order` is the order
      of its keys, as a Python dict keeps it. */
  ghost predicate Groups(order: seq<seq<string>>, grouped: map<seq<string>, seq<Version>>, eligible: seq<Version>) {
    && order == KeysOf(eligible)
    && (forall key :: key in grouped <==> key in order)
    && GroupsHold(grouped, eligible)
  }

  ghost predicate GroupsHold(grouped: map<seq<string>, seq<Version>>, eligible: seq<Version>) {
    forall key :: key in grouped ==> grouped[key] == GroupOf(eligible, key)
  }

  lemma GroupsSnoc(order: seq<seq<string>>, grouped: map<seq<string>, seq<Version>>, eligible: seq<Version>, v: Version)
    requires Groups(order, grouped, eligible)
    ensures v.key !in grouped ==> Groups(order + [v.key], grouped[v.key := [v]], eligible + [v])
    ensures v.key in grouped ==> Groups(order, grouped[v.key := grouped[v.key] + [v]], eligible + [v])
  {
    hide KeysOf, GroupOf, Groups;
    if v.key in grouped {
      KnownKey(order, grouped, eligible, v);
    } else {
      NewKey(order, grouped, eligible, v);
    }
  }

  lemma KnownKey(order: seq<seq<string>>, grouped: map<seq<string>, seq<Version>>, eligible: seq<Version>, v: Version)
    requires Groups(order, grouped, eligible) && v.key in grouped
    ensures Groups(order, grouped[v.key := grouped[v.key] + [v]], eligible + [v])
  {
    hide KeysOf, GroupOf, GroupsHold;
    KeyStays(eligible, v);
    KnownGroup(grouped, eligible, v);
  }

  lemma KnownGroup(grouped: map<seq<string>, seq<Version>>, eligible: seq<Version>, v: Version)
    requires GroupsHold(grouped, eligible) && v.key in grouped
    ensures GroupsHold(grouped[v.key := grouped[v.key] + [v]], eligible + [v])
  {
    hide GroupOf;
    forall key | key in grouped ensures ExtendedGroup(grouped, v, key) == GroupOf(eligible + [v], key) {
      GroupExtends(grouped, eligible, v, key);
    }
  }

  lemma NewKey(order: seq<seq<string>>, grouped: map<seq<string>, seq<Version>>, eligible: seq<Version>, v: Version)
    requires Groups(order, grouped, eligible) && v.key !in grouped
    ensures Groups(order + [v.key], grouped[v.key := [v]], eligible + [v])
  {
    hide KeysOf, GroupOf, GroupsHold;
    KeyStays(eligible, v);
    OnlyMember(eligible, v);
    NewGroup(grouped, eligible, v);
  }

  lemma {:induction false} NewGroup(grouped: map<seq<string>, seq<Version>>, eligible: seq<Version>, v: Version)
    requires GroupsHold(grouped, eligible) && v.key !in grouped && GroupOf(eligible + [v], v.key) == [v]
    ensures GroupsHold(grouped[v.key := [v]], eligible + [v])
  {
    hide GroupOf;
    forall key | key in grouped ensures grouped[key] == GroupOf(eligible + [v], key) {
      GroupExtends(grouped, eligible, v, key);
    }
  }

  lemma {:induction false} KeyStays(eligible: seq<Version>, v: Version)
    ensures KeysOf(eligible + [v]) == if v.key in KeysOf(eligible) then KeysOf(eligible) else KeysOf(eligible) + [v.key]
  {
    GroupOfSnoc(eligible, v, v.key);
  }

  lemma {:induction false} OnlyMember(eligible: seq<Version>, v: Version)
    requires v.key !in KeysOf(eligible)
    ensures GroupOf(eligible + [v], v.key) == [v]
  {
    hide KeysOf, GroupOf;
    GroupOfSnoc(eligible, v, v.key);
    FreshGroup(eligible, v.key);
    assert [] + [v] == [v];
  }

  function ExtendedGroup(grouped: map<seq<string>, seq<Version>>, v: Version, key: seq<string>): seq<Version>
    requires key in grouped
  {
    if key == v.key then grouped[key] + [v] else grouped[key]
  }

  lemma {:induction false} GroupExtends(grouped: map<seq<string>, seq<Version>>, eligible: seq<Version>, v: Version,
                                        key: seq<string>)
    requires key in grouped && grouped[key] == GroupOf(eligible, key)
    ensures ExtendedGroup(grouped, v, key) == GroupOf(eligible + [v], key)
  {
    hide GroupOf, KeysOf;
    GroupOfSnoc(eligible, v, key);
    assert GroupOf(eligible, key) + [] == GroupOf(eligible, key);
  }

  lemma NoGroups()
    ensures Groups([], map[], [])
  {
  }

  /** Filter, and group in a dictionary. */
  method GroupEligible(versions: seq<Version>, cutoff: TemporalValue)
    returns (ok: bool, order: seq<seq<string>>, grouped: map<seq<string>, seq<Version>>)
    ensures ok <==> Readable(versions)
    ensures ok ==> Groups(order, grouped, EligibleOf(versions, cutoff))
  {
    hide Groups, GroupsHold, GroupOf, KeysOf, Eligible, EligibleOf;
    ok, order, grouped := true, [], map[];
    EligibleNone(cutoff);
    NoGroups();
    assert versions[..0] == [];
    for i := 0 to |versions|
      invariant Readable(versions[..i])
      invariant Groups(order, grouped, EligibleOf(versions[..i], cutoff))
    {
      var v := versions[i];
      if v.available.None? { return false, order, grouped; }
      assert versions[..i + 1][..i] == versions[..i];
      EligibleLast(versions[..i + 1], cutoff);
      if Eligible(v, cutoff) {
        GroupsSnoc(order, grouped, EligibleOf(versions[..i], cutoff), v);
        if v.key in grouped {
          grouped := grouped[v.key := grouped[v.key] + [v]];
        } else {
          order, grouped := order + [v.key], grouped[v.key := [v]];
        }
      } else {
        assert EligibleOf(versions[..i], cutoff) + [] == EligibleOf(versions[..i], cutoff);
      }
    }
    assert versions[..|versions|] == versions;
  }

  /** Filter, group, and pick the greatest of each group. */
  method SelectLatest(versions: seq<Version>, cutoff: TemporalValue, maxRows: nat)
    returns (r: Result<seq<Version>, Fault>)
    ensures r == Selected(versions, cutoff, maxRows)
  {
    hide Eligible, EligibleOf, GroupOf, KeysOf, Chosen, Greatest, CandidateLimit, Readable;
    if |versions| > CandidateLimit(maxRows) { return Err(ResourceLimit); }
    var ok, order, grouped := GroupEligible(versions, cutoff);
    if !ok { return Err(ValidationFault); }
    ghost var eligible := EligibleOf(versions, cutoff);
    KeysHaveGroups(eligible);
    var selected: seq<Version> := [];
    for i := 0 to |order|
      invariant |selected| == i
      invariant forall k :: 0 <= k < i ==> selected[k] == Greatest(GroupOf(eligible, order[k]))
    {
      assert order[i] in order;
      var best := PickGreatest(grouped[order[i]]);
      selected := selected + [best];
    }
    assert selected == Chosen(eligible, order);
    r := Ok(selected);
  }

  lemma {:induction false} FreshGroup(versions: seq<Version>, key: seq<string>)
    ensures key !in KeysOf(versions) ==> GroupOf(versions, key) == []
  {
    hide KeysOf, GroupOf;
    if key !in KeysOf(versions) && GroupOf(versions, key) != [] {
      assert GroupOf(versions, key)[0] in GroupOf(versions, key);
    }
  }

  method PickGreatest(group: seq<Version>) returns (best: Version)
    requires group != []
    ensures best == Greatest(group)
  {
    hide Below;
    best := group[0];
    assert group[..1] == [group[0]];
    for i := 1 to |group|
      invariant best == Greatest(group[..i])
    {
      assert group[..i + 1][..i] == group[..i];
      if Below(best, group[i]) { best := group[i]; }
    }
    assert group[..|group|] == group;
  }
}
