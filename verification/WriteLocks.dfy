/**
 Lock sessions over several stores (quant_data/stores.py): canonical order, one deadline
 for the whole set, release in reverse, and the capability that stands for the locks.
 */
module WriteLocks {
  import opened Wrappers
  import opened Ordering

  datatype Role = Market | Macro | Company | News

  /** `canonical_uri`; the lock key is a hash of it and adds nothing. */
  datatype Identity = Identity(role: Role, uri: string)

  /** Where each role's store lies, and what `validate_distinct` says about the paths. */
  datatype StoreMap = StoreMap(uris: Role -> string, distinct: bool)

  // ----- the order of acquisition -----

  predicate UriLt(a: Identity, b: Identity) {
    TextLt(a.uri, b.uri)
  }

  /** `tuple(dict.fromkeys(roles))` mapped to identities. */
  function Wanted(stores: StoreMap, roles: seq<Role>): (r: seq<Identity>)
    ensures forall x :: x in r <==> x.role in roles && x.uri == stores.uris(x.role)
    ensures forall i, j :: 0 <= i < j < |r| ==> r[i].role != r[j].role
  {
    if roles == [] then []
    else
      var n := |roles| - 1;
      var front := Wanted(stores, roles[..n]);
      var x := Identity(roles[n], stores.uris(roles[n]));
      assert roles == roles[..n] + [roles[n]];
      if x in front then front else front + [x]
  }

  predicate DistinctUris(ids: seq<Identity>) {
    forall i, j :: 0 <= i < j < |ids| ==> ids[i].uri != ids[j].uri
  }

  /** `_ordered_write_lock_identities`. */
  function Ordered(stores: StoreMap, roles: seq<Role>): Result<seq<Identity>, Fault> {
    var ids := Sort(Wanted(stores, roles), UriLt);
    if roles == [] then Err(ValidationFault)
    else if !stores.distinct then Err(ConflictFault)
    else if !DistinctUris(ids) then Err(ConflictFault)
    else Ok(ids)
  }

  lemma UriOrder()
    ensures StrictWeak(UriLt)
  {
    TextOrder();
    hide TextLt;
  }

  /** Accepted sets are strictly increasing and hold the stores of the roles asked for. */
  lemma OrderedIsSorted(stores: StoreMap, roles: seq<Role>)
    requires Ordered(stores, roles).Ok?
    ensures var ids := Ordered(stores, roles).value;
      && ids != [] && StrictlySorted(ids, UriLt)
      && forall x :: x in ids <==> x.role in roles && x.uri == stores.uris(x.role)
  {
    hide Sort, Wanted, StrictWeak, UriLt, Sorted, StrictlySorted, DistinctUris;
    var wanted := Wanted(stores, roles);
    UriOrder();
    SortSorted(wanted, UriLt);
    SortMembers(wanted, UriLt);
    assert Identity(roles[0], stores.uris(roles[0])) in wanted;
    SortedDistinctIsStrict(Sort(wanted, UriLt));
  }

  lemma SortedDistinctIsStrict(ids: seq<Identity>)
    requires Sorted(ids, UriLt) && DistinctUris(ids)
    ensures StrictlySorted(ids, UriLt)
  {
    hide TextLt;
    forall i, j | 0 <= i < j < |ids| ensures UriLt(ids[i], ids[j]) {
      TextTotal(ids[i].uri, ids[j].uri);
    }
  }

  predicate DistinctLocations(stores: StoreMap, roles: seq<Role>) {
    forall i, j :: 0 <= i < |roles| && 0 <= j < |roles| && roles[i] != roles[j] ==>
      stores.uris(roles[i]) != stores.uris(roles[j])
  }

  /** The set is refused exactly for an empty request, paths that are the same file, or
      two roles with one canonical location. */
  lemma RefusedExactly(stores: StoreMap, roles: seq<Role>)
    ensures Ordered(stores, roles).Ok? <==> roles != [] && stores.distinct && DistinctLocations(stores, roles)
    ensures Ordered(stores, roles).Err? ==>
      Ordered(stores, roles).error == if roles == [] then ValidationFault else ConflictFault
  {
    hide Sort, Wanted, DistinctUris, DistinctLocations;
    var wanted := Wanted(stores, roles);
    SortMembers(wanted, UriLt);
    SortKeepsRoles(wanted);
    UrisFollowLocations(stores, roles, Sort(wanted, UriLt));
  }

  lemma UrisFollowLocations(stores: StoreMap, roles: seq<Role>, ids: seq<Identity>)
    requires forall x :: x in ids <==> x.role in roles && x.uri == stores.uris(x.role)
    requires forall i, j :: 0 <= i < j < |ids| ==> ids[i].role != ids[j].role
    ensures DistinctUris(ids) <==> DistinctLocations(stores, roles)
  {
    if !DistinctUris(ids) {
      var i, j :| 0 <= i < j < |ids| && ids[i].uri == ids[j].uri;
      assert ids[i] in ids && ids[j] in ids;
      var a :| 0 <= a < |roles| && roles[a] == ids[i].role;
      var b :| 0 <= b < |roles| && roles[b] == ids[j].role;
      assert roles[a] != roles[b] && stores.uris(roles[a]) == stores.uris(roles[b]);
    }
    if !DistinctLocations(stores, roles) {
      var a, b :| 0 <= a < |roles| && 0 <= b < |roles| && roles[a] != roles[b]
        && stores.uris(roles[a]) == stores.uris(roles[b]);
      var x, y := Identity(roles[a], stores.uris(roles[a])), Identity(roles[b], stores.uris(roles[b]));
      assert x in ids && y in ids;
      var i :| 0 <= i < |ids| && ids[i] == x;
      var j :| 0 <= j < |ids| && ids[j] == y;
      assert i != j;
      assert ids[if i < j then i else j].uri == ids[if i < j then j else i].uri;
    }
  }

  lemma {:induction false} SortKeepsRoles(wanted: seq<Identity>)
    requires forall i, j :: 0 <= i < j < |wanted| ==> wanted[i].role != wanted[j].role
    ensures forall i, j :: 0 <= i < j < |Sort(wanted, UriLt)| ==>
      Sort(wanted, UriLt)[i].role != Sort(wanted, UriLt)[j].role
  {
    hide Sort, UriLt;
    var ids := Sort(wanted, UriLt);
    forall i, j | 0 <= i < j < |ids| ensures ids[i].role != ids[j].role {
      if ids[i].role == ids[j].role {
        SortMembers(wanted, UriLt);
        assert ids[i] in wanted && ids[j] in wanted;
        assert ids[i] == ids[j];
        OnceEach(wanted, ids[i]);
        TwoPlaces(ids, i, j);
      }
    }
  }

  lemma {:induction false} OnceEach(s: seq<Identity>, x: Identity)
    requires forall i, j :: 0 <= i < j < |s| ==> s[i].role != s[j].role
    ensures multiset(s)[x] <= 1
  {
    if s != [] {
      var n := |s| - 1;
      OnceEach(s[..n], x);
      assert s == s[..n] + [s[n]];
      if s[n] == x {
        assert x !in s[..n];
        assert x !in multiset(s[..n]);
      }
    }
  }

  // ----- the machine -----

  /** A session on its way: how many of its locks it has, or still has. */
  datatype Proc =
    | Idle
    | Acquiring(ids: seq<Identity>, k: nat)
    | Active(ids: seq<Identity>)
    | Releasing(ids: seq<Identity>, k: nat)

  /** Who holds each lock file, and the processes. */
  datatype World = World(owners: map<string, nat>, procs: seq<Proc>)

  datatype Event =
    | Start(p: nat, stores: StoreMap, roles: seq<Role>)
    | Take(p: nat)      // the next lock is free
    | Complete(p: nat)  // all locks taken: the capability is handed out
    | TimeOut(p: nat)   // the next lock is busy past the deadline
    | Break(p: nat)     // any other exception while acquiring
    | Leave(p: nat)     // the block ends: the capability is void before any lock goes
    | Free(p: nat)      // the last lock still held is released
    | Finish(p: nat)
    | Crash(p: nat)

  predicate Enabled(w: World, e: Event) {
    && e.p < |w.procs|
    && var proc := w.procs[e.p];
       match e
       case Start(_, stores, roles) => proc.Idle? && Ordered(stores, roles).Ok?
       case Take(_) => proc.Acquiring? && proc.k < |proc.ids| && proc.ids[proc.k].uri !in w.owners
       case Complete(_) => proc.Acquiring? && proc.k == |proc.ids|
       case TimeOut(_) => proc.Acquiring? && proc.k < |proc.ids| && proc.ids[proc.k].uri in w.owners
       case Break(_) => proc.Acquiring?
       case Leave(_) => proc.Active?
       case Free(_) => proc.Releasing? && 0 < proc.k <= |proc.ids|
       case Finish(_) => proc.Releasing? && proc.k == 0
       case Crash(_) => !proc.Idle?
  }

  function Apply(w: World, e: Event): World
    requires Enabled(w, e)
  {
    var proc := w.procs[e.p];
    match e
    case Start(p, stores, roles) => w.(procs := w.procs[p := Acquiring(Ordered(stores, roles).value, 0)])
    case Take(p) => World(w.owners[proc.ids[proc.k].uri := p], w.procs[p := Acquiring(proc.ids, proc.k + 1)])
    case Complete(p) => w.(procs := w.procs[p := Active(proc.ids)])
    case TimeOut(p) => w.(procs := w.procs[p := Releasing(proc.ids, proc.k)])
    case Break(p) => w.(procs := w.procs[p := Releasing(proc.ids, proc.k)])
    case Leave(p) => w.(procs := w.procs[p := Releasing(proc.ids, |proc.ids|)])
    case Free(p) =>
      World(w.owners - {proc.ids[proc.k - 1].uri}, w.procs[p := Releasing(proc.ids, proc.k - 1)])
    case Finish(p) => w.(procs := w.procs[p := Idle])
    case Crash(p) => World(map u | u in w.owners && w.owners[u] != p :: w.owners[u], w.procs[p := Idle])
  }

  /** The locks a process has. */
  function Held(proc: Proc): seq<Identity> {
    match proc
    case Idle => []
    case Acquiring(ids, k) => if k <= |ids| then ids[..k] else []
    case Active(ids) => ids
    case Releasing(ids, k) => if k <= |ids| then ids[..k] else []
  }

  predicate Holds(proc: Proc, uri: string) {
    exists i :: 0 <= i < |Held(proc)| && Held(proc)[i].uri == uri
  }

  ghost predicate WellFormed(proc: Proc) {
    match proc
    case Idle => true
    case Acquiring(ids, k) => StrictlySorted(ids, UriLt) && k <= |ids|
    case Active(ids) => StrictlySorted(ids, UriLt)
    case Releasing(ids, k) => StrictlySorted(ids, UriLt) && k <= |ids|
  }

  /** The lock files and the sessions agree on who has what. */
  ghost predicate Inv(w: World) {
    && (forall p :: 0 <= p < |w.procs| ==> WellFormed(w.procs[p]))
    && (forall u :: u in w.owners ==> w.owners[u] < |w.procs|)
    && OwnersAgree(w)
  }

  ghost predicate OwnersAgree(w: World) {
    forall p: nat, u :: p < |w.procs| ==> (Holds(w.procs[p], u) <==> u in w.owners && w.owners[u] == p)
  }

  // ----- the invariant -----

  lemma StrictUris(ids: seq<Identity>, i: nat, j: nat)
    requires StrictlySorted(ids, UriLt) && i < |ids| && j < |ids| && ids[i].uri == ids[j].uri
    ensures i == j
  {
    assert i < j ==> UriLt(ids[i], ids[j]);
    assert j < i ==> UriLt(ids[j], ids[i]);
    TextIrreflexive(ids[i].uri);
  }

  lemma HeldAfterTake(ids: seq<Identity>, k: nat, u: string)
    requires k < |ids|
    ensures Holds(Acquiring(ids, k + 1), u) <==> Holds(Acquiring(ids, k), u) || u == ids[k].uri
  {
    var a, b := Held(Acquiring(ids, k + 1)), Held(Acquiring(ids, k));
    assert a == b + [ids[k]];
    if Holds(Acquiring(ids, k), u) {
      var i :| 0 <= i < |b| && b[i].uri == u;
      assert a[i].uri == u;
    }
    assert a[k] == ids[k];
  }

  lemma HeldAfterFree(ids: seq<Identity>, k: nat, u: string)
    requires 0 < k <= |ids| && StrictlySorted(ids, UriLt)
    ensures Holds(Releasing(ids, k - 1), u) <==> Holds(Releasing(ids, k), u) && u != ids[k - 1].uri
  {
    HeldAfterTake(ids, k - 1, u);
    assert Held(Releasing(ids, k - 1)) == Held(Acquiring(ids, k - 1));
    assert Held(Releasing(ids, k)) == Held(Acquiring(ids, k));
    if Holds(Releasing(ids, k - 1), u) {
      var i :| 0 <= i < k - 1 && ids[i].uri == u;
      if u == ids[k - 1].uri { StrictUris(ids, i, k - 1); }
    }
  }

  lemma HeldSame(proc: Proc, next: Proc, u: string)
    requires Held(proc) == Held(next)
    ensures Holds(proc, u) <==> Holds(next, u)
  {
  }

  /** Most steps leave a process with the locks it had. */
  lemma HeldUnmoved(w: World, e: Event)
    requires Enabled(w, e) && !e.Take? && !e.Free? && !e.Crash?
    ensures Held(Apply(w, e).procs[e.p]) == Held(w.procs[e.p]) && Apply(w, e).owners == w.owners
  {
    hide Ordered;
  }

  lemma OwnersKept(w: World, e: Event, u: string)
    requires Inv(w) && Enabled(w, e)
    ensures var next := Apply(w, e);
      Holds(next.procs[e.p], u) <==> u in next.owners && next.owners[u] == e.p
  {
    hide Holds, Ordered, StrictlySorted, Inv, WellFormed, Held;
    var proc, next := w.procs[e.p], Apply(w, e);
    EachWellFormed(w, e.p);
    OwnersOf(w, e.p, u);
    if e.Take? {
      HeldAfterTake(proc.ids, proc.k, u);
    } else if e.Free? {
      FreeingIsFine(proc);
      HeldAfterFree(proc.ids, proc.k, u);
    } else if e.Crash? {
      IdleHoldsNothing(u);
    } else {
      HeldUnmoved(w, e);
      HeldSame(proc, next.procs[e.p], u);
    }
  }

  lemma EachWellFormed(w: World, p: nat)
    requires Inv(w) && p < |w.procs|
    ensures WellFormed(w.procs[p])
  {
    hide OwnersAgree;
  }

  lemma FreeingIsFine(proc: Proc)
    requires WellFormed(proc) && proc.Releasing?
    ensures StrictlySorted(proc.ids, UriLt)
  {
  }

  lemma IdleHoldsNothing(u: string)
    ensures !Holds(Idle, u)
  {
  }

  lemma FreedIsOwn(w: World, p: nat)
    requires Inv(w) && Enabled(w, Free(p))
    ensures var proc := w.procs[p];
      proc.ids[proc.k - 1].uri in w.owners && w.owners[proc.ids[proc.k - 1].uri] == p
  {
    hide Ordered, WellFormed;
    var proc := w.procs[p];
    assert Held(proc)[proc.k - 1] == proc.ids[proc.k - 1];
    assert Holds(proc, proc.ids[proc.k - 1].uri);
  }

  /** Nobody else's locks move. */
  lemma OthersKept(w: World, e: Event, p: nat, u: string)
    requires Inv(w) && Enabled(w, e) && p < |w.procs| && p != e.p
    ensures var next := Apply(w, e);
      next.procs[p] == w.procs[p] &&
      (u in next.owners && next.owners[u] == p <==> u in w.owners && w.owners[u] == p)
  {
    hide Inv, Held, Holds, Ordered, WellFormed;
    if e.Free? { FreedIsOwn(w, e.p); }
  }

  lemma WellFormedKept(w: World, e: Event)
    requires Inv(w) && Enabled(w, e)
    ensures WellFormed(Apply(w, e).procs[e.p])
  {
    assert WellFormed(w.procs[e.p]);
    if e.Start? { OrderedIsSorted(e.stores, e.roles); }
    hide Ordered, Holds, StrictlySorted;
  }

  lemma OwnersInRange(w: World, e: Event)
    requires Inv(w) && Enabled(w, e)
    ensures forall u :: u in Apply(w, e).owners ==> Apply(w, e).owners[u] < |Apply(w, e).procs|
  {
    hide Ordered, Holds, WellFormed;
  }

  lemma ProcsWellFormed(w: World, e: Event)
    requires Inv(w) && Enabled(w, e)
    ensures forall p :: 0 <= p < |Apply(w, e).procs| ==> WellFormed(Apply(w, e).procs[p])
  {
    WellFormedKept(w, e);
    var next := Apply(w, e);
    hide Apply, Enabled, Holds, WellFormed;
    forall p | 0 <= p < |next.procs| ensures WellFormed(next.procs[p]) {
      if p != e.p { OthersKept(w, e, p, ""); }
    }
  }

  lemma InvKept(w: World, e: Event)
    requires Inv(w) && Enabled(w, e)
    ensures Inv(Apply(w, e))
  {
    ProcsWellFormed(w, e);
    OwnersInRange(w, e);
    hide Apply, Enabled, Holds, WellFormed, OwnersAgree;
    OwnersStayAgreed(w, e);
  }

  lemma OwnersStayAgreed(w: World, e: Event)
    requires Inv(w) && Enabled(w, e)
    ensures OwnersAgree(Apply(w, e))
  {
    hide Apply, Enabled, Holds, WellFormed, Inv;
    var next := Apply(w, e);
    SameProcs(w, e);
    forall p: nat, u | p < |next.procs| ensures Holds(next.procs[p], u) <==> u in next.owners && next.owners[u] == p {
      if p == e.p {
        OwnersKept(w, e, u);
      } else {
        OthersKept(w, e, p, u);
        OwnersOf(w, p, u);
      }
    }
  }

  lemma SameProcs(w: World, e: Event)
    requires Enabled(w, e)
    ensures |Apply(w, e).procs| == |w.procs| && e.p < |w.procs|
  {
  }

  lemma OwnersOf(w: World, p: nat, u: string)
    requires Inv(w) && p < |w.procs|
    ensures Holds(w.procs[p], u) <==> u in w.owners && w.owners[u] == p
  {
    hide Holds;
  }

  // ----- every run -----

  ghost predicate Legal(w: World, events: seq<Event>)
    decreases events
  {
    events == [] || (Enabled(w, events[0]) && Legal(Apply(w, events[0]), events[1..]))
  }

  function Run(w: World, events: seq<Event>): World
    requires Legal(w, events)
    decreases events
  {
    if events == [] then w else Run(Apply(w, events[0]), events[1..])
  }

  /** `n` processes, no locks. */
  function Begin(n: nat): World {
    World(map[], seq(n, _ => Idle))
  }

  lemma {:induction false} RunKeepsInv(w: World, events: seq<Event>)
    requires Inv(w) && Legal(w, events)
    ensures Inv(Run(w, events))
    decreases events
  {
    if events != [] {
      InvKept(w, events[0]);
      hide Inv, Enabled, Apply;
      RunKeepsInv(Apply(w, events[0]), events[1..]);
    }
  }

  lemma BeginIsFine(n: nat)
    ensures Inv(Begin(n))
  {
  }

  /** Two processes never hold the same store. */
  lemma {:induction false} MutualExclusion(n: nat, events: seq<Event>, p: nat, q: nat, uri: string)
    requires Legal(Begin(n), events)
    requires p < |Run(Begin(n), events).procs| && q < |Run(Begin(n), events).procs|
    requires Holds(Run(Begin(n), events).procs[p], uri) && Holds(Run(Begin(n), events).procs[q], uri)
    ensures p == q
  {
    BeginIsFine(n);
    RunKeepsInv(Begin(n), events);
    var w := Run(Begin(n), events);
    hide Legal, Run, Holds, Inv;
    HeldMeansOwned(w, p, uri);
    HeldMeansOwned(w, q, uri);
  }

  lemma HeldMeansOwned(w: World, p: nat, uri: string)
    requires Inv(w) && p < |w.procs| && Holds(w.procs[p], uri)
    ensures uri in w.owners && w.owners[uri] == p
  {
    hide Holds;
  }

  // ----- the capability -----

  /** `HeldWriteLocks._require_target`: accepts iff the session is active and its identity
      for the role is the target's. */
  predicate RequireTarget(proc: Proc, stores: StoreMap, role: Role) {
    && proc.Active?
    && stores.distinct
    && exists i :: 0 <= i < |proc.ids| && proc.ids[i].role == role
                   && (forall j :: 0 <= j < i ==> proc.ids[j].role != role)
                   && proc.ids[i].uri == stores.uris(role)
  }

  /** An accepted capability means the process has the lock of that store. */
  lemma {:induction false} AcceptedMeansOwned(n: nat, events: seq<Event>, p: nat, stores: StoreMap, role: Role)
    requires Legal(Begin(n), events) && p < |Run(Begin(n), events).procs|
    requires RequireTarget(Run(Begin(n), events).procs[p], stores, role)
    ensures var w := Run(Begin(n), events);
      stores.uris(role) in w.owners && w.owners[stores.uris(role)] == p
  {
    BeginIsFine(n);
    RunKeepsInv(Begin(n), events);
    var w := Run(Begin(n), events);
    hide Legal, Run, Inv, RequireTarget;
    AcceptedMeansHeld(w.procs[p], stores, role);
    HeldMeansOwned(w, p, stores.uris(role));
  }

  lemma AcceptedMeansHeld(proc: Proc, stores: StoreMap, role: Role)
    requires RequireTarget(proc, stores, role)
    ensures Holds(proc, stores.uris(role))
  {
    var i :| 0 <= i < |proc.ids| && proc.ids[i].uri == stores.uris(role);
    assert Held(proc)[i].uri == stores.uris(role);
  }

  /** A process that acquires can take its next lock exactly while nobody has it, and can time
      out exactly while somebody has. */
  lemma TakesOrTimesOut(w: World, p: nat)
    requires p < |w.procs| && w.procs[p].Acquiring? && w.procs[p].k < |w.procs[p].ids|
    ensures Enabled(w, Take(p)) <==> w.procs[p].ids[w.procs[p].k].uri !in w.owners
    ensures Enabled(w, TimeOut(p)) <==> w.procs[p].ids[w.procs[p].k].uri in w.owners
  {
  }

  /** For a session over `roles`, exactly the stores it was opened for are accepted. */
  lemma AcceptedExactly(stores: StoreMap, roles: seq<Role>, target: StoreMap, role: Role)
    requires Ordered(stores, roles).Ok?
    ensures RequireTarget(Active(Ordered(stores, roles).value), target, role) <==>
      target.distinct && role in roles && target.uris(role) == stores.uris(role)
  {
    var ids := Ordered(stores, roles).value;
    OrderedIsSorted(stores, roles);
    SortKeepsRoles(Wanted(stores, roles));
    FirstOfItsRole(ids, target, role);
    hide Ordered, Wanted, Sort, StrictlySorted, RequireTarget;
  }

  lemma FirstOfItsRole(ids: seq<Identity>, target: StoreMap, role: Role)
    requires forall i, j :: 0 <= i < j < |ids| ==> ids[i].role != ids[j].role
    ensures RequireTarget(Active(ids), target, role) <==>
      target.distinct && Identity(role, target.uris(role)) in ids
  {
    var proc := Active(ids);
    if target.distinct && Identity(role, target.uris(role)) in ids {
      var i :| 0 <= i < |ids| && ids[i] == Identity(role, target.uris(role));
      assert proc.ids[i].role == role;
      assert forall j :: 0 <= j < i ==> proc.ids[j].role != proc.ids[i].role;
    }
  }

  // ----- no deadlock -----

  /** What a process can do without failing and without new work. */
  predicate Progress(e: Event) {
    e.Take? || e.Complete? || e.Leave? || e.Free? || e.Finish?
  }

  /** The lock a process waits for. */
  function Next(proc: Proc): Option<string> {
    if proc.Acquiring? && proc.k < |proc.ids| then Some(proc.ids[proc.k].uri) else None
  }

  predicate Waits(w: World, p: nat) {
    p < |w.procs| && Next(w.procs[p]).Some? && Next(w.procs[p]).value in w.owners
  }

  /** The owner of a lock some process waits for is further along in the order. */
  lemma OwnerIsAhead(w: World, p: nat)
    requires Inv(w) && Waits(w, p)
    ensures var q := w.owners[Next(w.procs[p]).value];
      && q < |w.procs| && !w.procs[q].Idle?
      && (Next(w.procs[q]).Some? ==> TextLt(Next(w.procs[p]).value, Next(w.procs[q]).value))
  {
    var u := Next(w.procs[p]).value;
    var q := w.owners[u];
    assert Holds(w.procs[q], u);
    assert WellFormed(w.procs[q]);
    if Next(w.procs[q]).Some? {
      var ids, k := w.procs[q].ids, w.procs[q].k;
      var i :| 0 <= i < k && ids[i].uri == u;
      assert UriLt(ids[i], ids[k]);
    }
  }

  lemma CanMove(w: World, p: nat)
    requires p < |w.procs| && !w.procs[p].Idle? && WellFormed(w.procs[p]) && !Waits(w, p)
    ensures exists e :: Progress(e) && e.p == p && Enabled(w, e)
  {
    hide Ordered, StrictlySorted;
    var proc := w.procs[p];
    var e := match proc
      case Acquiring(ids, k) => if k < |ids| then Take(p) else Complete(p)
      case Active(_) => Leave(p)
      case Releasing(_, k) => if k == 0 then Finish(p) else Free(p)
      case Idle => Finish(p);
    assert Progress(e) && Enabled(w, e);
  }

  /** Among the processes below `n` that wait, one waits for the greatest lock. */
  lemma {:induction false} GreatestWait(w: World, n: nat) returns (p: nat)
    requires n <= |w.procs| && exists q :: 0 <= q < n && Waits(w, q)
    ensures p < n && Waits(w, p)
    ensures forall q :: 0 <= q < n && Waits(w, q) ==> !TextLt(Next(w.procs[p]).value, Next(w.procs[q]).value)
  {
    hide Waits, TextLt;
    WaitsHasNextAll(w);
    if exists q :: 0 <= q < n - 1 && Waits(w, q) {
      p := GreatestWait(w, n - 1);
      if Waits(w, n - 1) && TextLt(Next(w.procs[p]).value, Next(w.procs[n - 1]).value) {
        var was := p;
        p := n - 1;
        forall q | 0 <= q < n - 1 && Waits(w, q) ensures !TextLt(Next(w.procs[p]).value, Next(w.procs[q]).value) {
          if TextLt(Next(w.procs[p]).value, Next(w.procs[q]).value) {
            TextTransitive(Next(w.procs[was]).value, Next(w.procs[p]).value, Next(w.procs[q]).value);
          }
        }
      }
    } else {
      p := n - 1;
    }
    TextIrreflexive(Next(w.procs[p]).value);
  }

  lemma WaitsHasNextAll(w: World)
    ensures forall q: nat :: Waits(w, q) ==> q < |w.procs| && Next(w.procs[q]).Some?
  {
  }

  /** In every state with a session under way, some process can go on: no circle of
      processes waits for one another. */
  lemma NoDeadlock(w: World, p: nat)
    requires Inv(w) && p < |w.procs| && !w.procs[p].Idle?
    ensures exists e :: Progress(e) && Enabled(w, e)
  {
    hide Enabled, Progress, Waits, WellFormed, TextLt;
    if forall q :: 0 <= q < |w.procs| ==> !Waits(w, q) {
      assert WellFormed(w.procs[p]);
      CanMove(w, p);
    } else {
      var g := GreatestWait(w, |w.procs|);
      OwnerIsAhead(w, g);
      var q := OwnerOf(w, g);
      assert WellFormed(w.procs[q]);
      WaitsHasNext(w, q);
      CanMove(w, q);
    }
  }

  lemma OwnerOf(w: World, g: nat) returns (q: nat)
    requires Inv(w) && Waits(w, g)
    ensures Next(w.procs[g]).Some? && Next(w.procs[g]).value in w.owners
    ensures q == w.owners[Next(w.procs[g]).value] && q < |w.procs|
  {
    q := w.owners[Next(w.procs[g]).value];
  }

  lemma WaitsHasNext(w: World, q: nat)
    ensures Waits(w, q) ==> q < |w.procs| && Next(w.procs[q]).Some?
  {
  }

  // ----- sessions come to an end -----

  function Left(proc: Proc): nat {
    match proc
    case Idle => 0
    case Acquiring(ids, k) => 2 * |ids| + 3 + (if k <= |ids| then |ids| - k else 0)
    case Active(ids) => |ids| + 2
    case Releasing(_, k) => k + 1
  }

  function TotalLeft(procs: seq<Proc>): nat {
    if procs == [] then 0 else TotalLeft(procs[..|procs| - 1]) + Left(procs[|procs| - 1])
  }

  lemma {:induction false} TotalAfter(procs: seq<Proc>, p: nat, proc: Proc)
    requires p < |procs|
    ensures TotalLeft(procs[p := proc]) == TotalLeft(procs) - Left(procs[p]) + Left(proc)
  {
    hide Left;
    var n := |procs| - 1;
    if p < n {
      TotalAfter(procs[..n], p, proc);
      assert procs[p := proc][..n] == procs[..n][p := proc];
    } else {
      assert procs[p := proc][..n] == procs[..n];
    }
  }

  /** Every step except starting a session, failures included, brings the sessions under
      way closer to their end. With `NoDeadlock`: all of them end. */
  lemma StepsRunOut(w: World, e: Event)
    requires Inv(w) && Enabled(w, e) && !e.Start?
    ensures TotalLeft(Apply(w, e).procs) < TotalLeft(w.procs)
  {
    LeftDrops(w, e);
    hide Apply, Enabled, Left, TotalLeft, Inv;
    TotalAfter(w.procs, e.p, Apply(w, e).procs[e.p]);
  }

  lemma LeftDrops(w: World, e: Event)
    requires Inv(w) && Enabled(w, e) && !e.Start?
    ensures e.p < |w.procs| && |Apply(w, e).procs| == |w.procs|
    ensures Left(Apply(w, e).procs[e.p]) < Left(w.procs[e.p])
    ensures Apply(w, e).procs == w.procs[e.p := Apply(w, e).procs[e.p]]
  {
    assert WellFormed(w.procs[e.p]);
    hide Ordered, StrictlySorted, Holds, OwnersAgree, Inv;
  }
}
