/**
 `acquire_write_session` in quant_data/stores.py, step by step on the lock files.
 */
module WriteSession {
  import opened Wrappers
  import opened Ordering
  import opened WriteLocks

  /** `HeldWriteLocks` and its state. */
  class Capability {
    const ids: seq<Identity>
    var active: bool

    constructor (ids: seq<Identity>)
      ensures this.ids == ids && active
    {
      this.ids := ids;
      active := true;
    }
  }

  function Uris(ids: seq<Identity>): set<string> {
    set i | 0 <= i < |ids| :: ids[i].uri
  }

  function WithLocks(owners: map<string, nat>, p: nat, ids: seq<Identity>): map<string, nat> {
    owners + map u | u in Uris(ids) :: p
  }

  lemma OneMore(owners: map<string, nat>, p: nat, ids: seq<Identity>, k: nat)
    requires k < |ids| && DistinctUris(ids)
    ensures WithLocks(owners, p, ids[..k + 1]) == WithLocks(owners, p, ids[..k])[ids[k].uri := p]
    ensures ids[k].uri !in Uris(ids[..k])
  {
    assert Uris(ids[..k + 1]) == Uris(ids[..k]) + {ids[k].uri} by {
      assert ids[..k + 1] == ids[..k] + [ids[k]];
      UrisSnoc(ids[..k], ids[k]);
    }
  }

  lemma UrisSnoc(ids: seq<Identity>, x: Identity)
    ensures Uris(ids + [x]) == Uris(ids) + {x.uri}
  {
    var all := ids + [x];
    forall u | u in Uris(ids) ensures u in Uris(all) {
      var i :| 0 <= i < |ids| && ids[i].uri == u;
      assert all[i].uri == u;
    }
    assert all[|ids|].uri == x.uri;
  }

  /** Every lock of the set is free and none of the attempts breaks. */
  predicate Obtainable(owners: map<string, nat>, ids: seq<Identity>, broken: Option<nat>) {
    forall i :: 0 <= i < |ids| ==> ids[i].uri !in owners && broken != Some(i)
  }

  class LockFiles {
    var owners: map<string, nat>

    constructor ()
      ensures owners == map[]
    {
      owners := map[];
    }

    /** Locks held by others, and no lock held by `p` outside `ids`, stay as they are;
        an attempt that cannot get the whole set gives back what it got. `broken`: an
        exception other than the time-out while getting that lock. */
    method AcquireWriteSession(p: nat, stores: StoreMap, roles: seq<Role>, broken: Option<nat>)
      returns (r: Result<Capability, Fault>)
      modifies this
      ensures r.Ok? <==>
        && Ordered(stores, roles).Ok?
        && Obtainable(old(owners), Ordered(stores, roles).value, broken)
      ensures r.Ok? ==> fresh(r.value) && r.value.active && r.value.ids == Ordered(stores, roles).value
      ensures r.Ok? ==> owners == WithLocks(old(owners), p, r.value.ids)
      ensures r.Err? ==> owners == old(owners)
    {
      var ordered := Ordered(stores, roles);
      if ordered.Err? { return Err(ordered.error); }
      var ids := ordered.value;
      DistinctWhenOrdered(stores, roles);
      hide Ordered, DistinctUris, Uris, WithLocks, Obtainable;
      var k, fault := TakeAll(p, ids, broken);
      if fault.Some? {
        Release(p, ids, k, old(owners));
        return Err(fault.value);
      }
      assert ids[..k] == ids;
      var capability := new Capability(ids);
      r := Ok(capability);
    }

    /** The acquisition loop: stops at the first lock that is busy or breaks. */
    method TakeAll(p: nat, ids: seq<Identity>, broken: Option<nat>) returns (k: nat, fault: Option<Fault>)
      requires DistinctUris(ids)
      modifies this
      ensures k <= |ids| && owners == WithLocks(old(owners), p, ids[..k])
      ensures forall i :: 0 <= i < k ==> ids[i].uri !in old(owners)
      ensures fault.None? <==> Obtainable(old(owners), ids, broken)
      ensures fault.None? ==> k == |ids|
    {
      hide DistinctUris, Uris, WithLocks;
      NoLocks(owners, p, ids);
      k := 0;
      while k < |ids|
        invariant k <= |ids| && owners == WithLocks(old(owners), p, ids[..k])
        invariant forall i :: 0 <= i < k ==> ids[i].uri !in old(owners) && broken != Some(i)
      {
        OneMore(old(owners), p, ids, k);
        OwnedAfter(old(owners), p, ids[..k], ids[k].uri);
        if broken == Some(k) { return k, Some(OtherFault); }
        if ids[k].uri in owners { return k, Some(ConflictFault); }
        owners := owners[ids[k].uri := p];
        k := k + 1;
      }
      fault := None;
    }

    /** The locks taken so far, last one first. */
    method Release(p: nat, ids: seq<Identity>, taken: nat, ghost before: map<string, nat>)
      requires taken <= |ids| && DistinctUris(ids)
      requires owners == WithLocks(before, p, ids[..taken])
      requires forall i :: 0 <= i < taken ==> ids[i].uri !in before
      modifies this
      ensures owners == before
    {
      hide DistinctUris, Uris, WithLocks;
      var k := taken;
      while k > 0
        invariant 0 <= k <= taken && owners == WithLocks(before, p, ids[..k])
      {
        OneMore(before, p, ids, k - 1);
        OwnedAfter(before, p, ids[..k - 1], ids[k - 1].uri);
        owners := owners - {ids[k - 1].uri};
        assert owners == WithLocks(before, p, ids[..k - 1]);
        k := k - 1;
      }
      NoLocks(before, p, ids);
    }

    /** Leaving the block: the capability is void before the first lock is released. */
    method LeaveSession(p: nat, capability: Capability, ghost before: map<string, nat>)
      requires DistinctUris(capability.ids) && owners == WithLocks(before, p, capability.ids)
      requires forall x :: x in capability.ids ==> x.uri !in before
      modifies this, capability
      ensures !capability.active && owners == before
    {
      capability.active := false;
      assert capability.ids[..|capability.ids|] == capability.ids;
      Release(p, capability.ids, |capability.ids|, before);
    }
  }

  lemma NoLocks(owners: map<string, nat>, p: nat, ids: seq<Identity>)
    ensures WithLocks(owners, p, ids[..0]) == owners
  {
    assert Uris(ids[..0]) == {};
  }

  lemma OwnedAfter(owners: map<string, nat>, p: nat, ids: seq<Identity>, u: string)
    ensures u in WithLocks(owners, p, ids) <==> u in owners || u in Uris(ids)
  {
  }

  lemma DistinctWhenOrdered(stores: StoreMap, roles: seq<Role>)
    requires Ordered(stores, roles).Ok?
    ensures DistinctUris(Ordered(stores, roles).value)
  {
  }
}
