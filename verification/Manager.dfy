// The cache manager itself (lib/cache_mngr.c:75-113, 293-364): which caches are
// managed, and which groups its event socket is in.

module Manager {
  import opened Types

  // struct nl_cache_ops, as far as the manager looks at it.  Types that cannot
  // be followed have no groups at all.
  datatype CacheType = CacheType(id: nat, protocol: nat, groups: Groups, msgtypes: seq<nat>)
  datatype Groups = NoGroups | Groups(ids: seq<nat>)

  // struct nl_cache_assoc: the managed cache and its callback, or a free slot
  datatype Assoc = Free | Managed(ty: CacheType, cache: nat, callback: nat)

  datatype AddStatus = Added | ProtoMismatch | NotSupported | Exists | JoinFailed | RefillFailed(error: Error)

  const EXPAND := 8     // NASSOC_EXPAND

  // struct nl_cache_mngr: the slots, and the groups its event socket is in
  class CacheMngr {
    const protocol: nat
    var assocs: array<Assoc>
    var memberships: set<nat>
  }

  predicate Manages(slots: seq<Assoc>, id: nat)
  {
    exists a :: a in slots && a.Managed? && a.ty.id == id
  }

  // No cache type is managed twice.
  ghost predicate OnePerType(slots: seq<Assoc>)
  {
    forall i, j :: 0 <= i < j < |slots| && slots[i].Managed? && slots[j].Managed? ==> slots[i].ty.id != slots[j].ty.id
  }

  // The events of every managed cache reach the socket.
  ghost predicate Subscribed(slots: seq<Assoc>, memberships: set<nat>)
  {
    forall a, g :: a in slots && a.Managed? && a.ty.groups.Groups? && g in a.ty.groups.ids ==> g in memberships
  }

  function FirstFree(slots: seq<Assoc>): (i: nat)
    ensures i <= |slots| && (i < |slots| ==> slots[i].Free?)
    ensures forall k :: 0 <= k < i ==> slots[k].Managed?
  {
    if slots == [] || slots[0].Free? then 0 else 1 + FirstFree(slots[1..])
  }

  // Room for one more: the slots, or as many and EXPAND free ones.
  function Expanded(slots: seq<Assoc>): (r: seq<Assoc>)
    ensures FirstFree(slots) < |r| && r[FirstFree(slots)].Free?
    ensures |r| == (if Free in slots then |slots| else |slots| + 8) && r[..|slots|] == slots
    ensures forall k :: |slots| <= k < |r| ==> r[k].Free?
  {
    if FirstFree(slots) < |slots| then slots else slots + seq(EXPAND, _ => Free)
  }

  function ToSet(ids: seq<nat>): set<nat>
  {
    set g | g in ids
  }

  // How many groups can be joined before one fails.
  function Joins(ok: nat -> bool, ids: seq<nat>): (n: nat)
    ensures n <= |ids| && (n < |ids| ==> !ok(ids[n])) && forall i :: 0 <= i < n ==> ok(ids[i])
  {
    if ids == [] || !ok(ids[0]) then 0 else 1 + Joins(ok, ids[1..])
  }

  // What nl_cache_mngr_add_cache returns: ok tells which joins succeed, refill
  // what nl_cache_refill returns.
  function AddResult(protocol: nat, slots: seq<Assoc>, ty: CacheType, ok: nat -> bool, refill: Status): AddStatus
  {
    if ty.protocol != protocol then ProtoMismatch
    else if ty.groups.NoGroups? then NotSupported
    else if Manages(slots, ty.id) then Exists
    else if Joins(ok, ty.groups.ids) < |ty.groups.ids| then JoinFailed
    else match refill case Failed(e) => RefillFailed(e) case Ok => Added
  }

  // The groups the socket is in afterwards: a failed join keeps the earlier
  // ones, a failed refill drops all of the type's groups.
  function MembershipsAfter(memberships: set<nat>, ty: CacheType, ok: nat -> bool, r: AddStatus): set<nat>
    requires r.JoinFailed? || r.RefillFailed? || r.Added? ==> ty.groups.Groups?
  {
    match r
    case JoinFailed => memberships + ToSet(ty.groups.ids[..Joins(ok, ty.groups.ids)])
    case RefillFailed(_) => memberships - ToSet(ty.groups.ids)
    case Added => memberships + ToSet(ty.groups.ids)
    case _ => memberships
  }

  // Which refusal comes first, and what it takes to be added
  lemma AddResultMeans(protocol: nat, slots: seq<Assoc>, ty: CacheType, ok: nat -> bool, refill: Status)
    ensures var r := AddResult(protocol, slots, ty, ok, refill);
            var managed := exists a :: a in slots && a.Managed? && a.ty.id == ty.id;
            if ty.protocol != protocol then r == ProtoMismatch
            else if ty.groups.NoGroups? then r == NotSupported
            else if managed then r == Exists
            else if exists g :: g in ty.groups.ids && !ok(g) then r == JoinFailed
            else if refill.Failed? then r == RefillFailed(refill.error)
            else r == Added
  {
    if ty.groups.Groups? && Joins(ok, ty.groups.ids) < |ty.groups.ids| {
      var g := ty.groups.ids[Joins(ok, ty.groups.ids)];
      assert g in ty.groups.ids && !ok(g);
    }
  }

  // The socket is in the groups it was in, and in those of the type that were
  // joined: up to the first that could not be, or all of them.  After a failed
  // refill it is in none of the type's groups.
  lemma MembershipsMean(memberships: set<nat>, ty: CacheType, ok: nat -> bool, r: AddStatus, g: nat)
    requires ty.groups.Groups? && (r.Added? || r.RefillFailed? || r.JoinFailed?)
    ensures var ids, after := ty.groups.ids, MembershipsAfter(memberships, ty, ok, r);
            && (r.Added? ==> (g in after <==> g in memberships || g in ids))
            && (r.RefillFailed? ==> (g in after <==> g in memberships && g !in ids))
            && (r.JoinFailed? ==>
                  (g in after <==>
                    || g in memberships
                    || exists i :: 0 <= i < |ids| && ids[i] == g && forall j :: 0 <= j <= i ==> ok(ids[j])))
  {
    var ids, n := ty.groups.ids, Joins(ok, ty.groups.ids);
    if g in ids[..n] {
      var i :| 0 <= i < n && ids[i] == g;
    }
    if i :| 0 <= i < |ids| && ids[i] == g && forall j :: 0 <= j <= i ==> ok(ids[j]) {
      assert i < n && ids[..n][i] == g;
    }
  }

  method FindSlot(m: CacheMngr, id: nat) returns (found: bool, i: nat)
    ensures found <==> Manages(m.assocs[..], id)
    ensures i == FirstFree(m.assocs[..])
  {
    found, i := false, 0;
    var k := 0;
    while k < m.assocs.Length && !found
      invariant 0 <= k <= m.assocs.Length
      invariant found <==> Manages(m.assocs[..k], id)
    {
      assert m.assocs[..k + 1] == m.assocs[..k] + [m.assocs[k]];
      found := m.assocs[k].Managed? && m.assocs[k].ty.id == id;
      k := k + 1;
    }
    if found { assert forall a :: a in m.assocs[..k] ==> a in m.assocs[..]; } else { assert m.assocs[..k] == m.assocs[..]; }
    assert m.assocs[0..] == m.assocs[..];
    while i < m.assocs.Length && m.assocs[i].Managed?
      invariant 0 <= i <= m.assocs.Length
      invariant FirstFree(m.assocs[..]) == i + FirstFree(m.assocs[i..])
    {
      assert m.assocs[i..][1..] == m.assocs[i + 1..];
      i := i + 1;
    }
  }

  // The slots are moved to a larger array when none is free.
  method MakeRoom(m: CacheMngr, i: nat)
    requires i == FirstFree(m.assocs[..])
    modifies m`assocs
    ensures m.assocs[..] == Expanded(old(m.assocs[..]))
    ensures m.assocs == old(m.assocs) || fresh(m.assocs)
  {
    if i >= m.assocs.Length {
      var from, n := m.assocs, m.assocs.Length;
      var more := new Assoc[n + EXPAND](_ => Free);
      var k := 0;
      while k < n
        invariant 0 <= k <= n && more.Length == n + EXPAND
        invariant more[..] == from[..k] + seq(n + EXPAND - k, _ => Free)
      {
        more[k] := from[k];
        k := k + 1;
      }
      assert from[..n] == from[..];
      m.assocs := more;
    }
  }

  // nl_socket_add_membership for each group, until one fails
  method JoinAll(m: CacheMngr, ids: seq<nat>, ok: nat -> bool) returns (all: bool)
    modifies m`memberships
    ensures all <==> Joins(ok, ids) == |ids|
    ensures m.memberships == old(m.memberships) + ToSet(ids[..Joins(ok, ids)])
  {
    var i := 0;
    assert ids[0..] == ids;
    while i < |ids|
      invariant 0 <= i <= |ids| && Joins(ok, ids) == i + Joins(ok, ids[i..])
      invariant m.memberships == old(m.memberships) + ToSet(ids[..i])
    {
      if !ok(ids[i]) {
        return false;
      }
      m.memberships := m.memberships + {ids[i]};
      assert ids[i..][1..] == ids[i + 1..];
      assert ids[..i + 1] == ids[..i] + [ids[i]];
      i := i + 1;
    }
    return true;
  }

  // nl_cache_mngr_add_cache: the groups are joined before the cache is filled,
  // and the cache is managed only when both worked.
  method AddCache(m: CacheMngr, ty: CacheType, cache: nat, callback: nat, ok: nat -> bool, refill: Status)
    returns (r: AddStatus)
    modifies m`assocs, m`memberships, m.assocs
    ensures r == AddResult(m.protocol, old(m.assocs[..]), ty, ok, refill)
    ensures m.memberships == MembershipsAfter(old(m.memberships), ty, ok, r)
    ensures m.assocs[..] == match r
                            case Added => Expanded(old(m.assocs[..]))[FirstFree(old(m.assocs[..])) := Managed(ty, cache, callback)]
                            case JoinFailed => Expanded(old(m.assocs[..]))
                            case RefillFailed(_) => Expanded(old(m.assocs[..]))
                            case _ => old(m.assocs[..])
  {
    if ty.protocol != m.protocol {
      return ProtoMismatch;
    }
    if ty.groups.NoGroups? {
      return NotSupported;
    }
    var found, i := FindSlot(m, ty.id);
    if found {
      return Exists;
    }
    MakeRoom(m, i);
    var all := JoinAll(m, ty.groups.ids, ok);
    assert ty.groups.ids[..|ty.groups.ids|] == ty.groups.ids;
    if !all {
      return JoinFailed;
    }
    if refill.Failed? {
      m.memberships := m.memberships - ToSet(ty.groups.ids);
      assert m.memberships == old(m.memberships) - ToSet(ty.groups.ids);
      return RefillFailed(refill.error);
    }
    m.assocs[i] := Managed(ty, cache, callback);
    return Added;
  }

  // Adding keeps one cache a type, and keeps every managed cache subscribed
  // unless a refill fails for a type that shares a group with a managed one.
  lemma AddKeeps(protocol: nat, slots: seq<Assoc>, memberships: set<nat>, ty: CacheType, cache: nat, callback: nat,
                 ok: nat -> bool, refill: Status)
    requires OnePerType(slots) && Subscribed(slots, memberships)
    ensures var r := AddResult(protocol, slots, ty, ok, refill);
            var slots' := if r.Added? then Expanded(slots)[FirstFree(slots) := Managed(ty, cache, callback)] else slots;
            && OnePerType(slots')
            && (Subscribed(slots', MembershipsAfter(memberships, ty, ok, r))
                <==> (r.RefillFailed? ==> !SharesGroup(slots, ty)))
  {
    var r := AddResult(protocol, slots, ty, ok, refill);
    var n := MembershipsAfter(memberships, ty, ok, r);
    if r.Added? {
      var slots' := Expanded(slots)[FirstFree(slots) := Managed(ty, cache, callback)];
      forall a, g | a in slots' && a.Managed? && a.ty.groups.Groups? && g in a.ty.groups.ids ensures g in n {
        var k :| 0 <= k < |slots'| && slots'[k] == a;
        if k != FirstFree(slots) {
          assert k < |slots| && a == slots[k];
          assert a in slots;
        } else {
          assert Joins(ok, ty.groups.ids) == |ty.groups.ids|;
        }
      }
      forall i, j | 0 <= i < j < |slots'| && slots'[i].Managed? && slots'[j].Managed?
        ensures slots'[i].ty.id != slots'[j].ty.id
      {
        var f := FirstFree(slots);
        if i == f { assert slots[j] in slots; } else if j == f { assert slots[i] in slots; }
      }
    } else if r.RefillFailed? && SharesGroup(slots, ty) {
      var a, g :| a in slots && a.Managed? && a.ty.groups.Groups? && g in a.ty.groups.ids && g in ty.groups.ids;
      assert g !in n;
    }
  }

  predicate SharesGroup(slots: seq<Assoc>, ty: CacheType)
  {
    exists a, g :: a in slots && a.Managed? && a.ty.groups.Groups? && g in a.ty.groups.ids
                   && ty.groups.Groups? && g in ty.groups.ids
  }

  // The slot an event goes to: the first whose cache knows the message type.
  function Route(slots: seq<Assoc>, msgtype: nat): (i: nat)
    ensures i <= |slots| && (i < |slots| ==> slots[i].Managed? && msgtype in slots[i].ty.msgtypes)
    ensures forall j :: 0 <= j < i ==> slots[j].Free? || msgtype !in slots[j].ty.msgtypes
  {
    if slots == [] || (slots[0].Managed? && msgtype in slots[0].ty.msgtypes) then 0
    else 1 + Route(slots[1..], msgtype)
  }

  // event_input, up to the inclusion
  method EventInput(m: CacheMngr, msgtype: nat) returns (skip: bool, i: nat)
    ensures i == Route(m.assocs[..], msgtype) && (skip <==> i == m.assocs.Length)
  {
    i := 0;
    assert m.assocs[0..] == m.assocs[..];
    while i < m.assocs.Length
      invariant 0 <= i <= m.assocs.Length
      invariant Route(m.assocs[..], msgtype) == i + Route(m.assocs[i..], msgtype)
    {
      if m.assocs[i].Managed? {
        var types, n := m.assocs[i].ty.msgtypes, 0;
        while n < |types|
          invariant 0 <= n <= |types| && msgtype !in types[..n]
        {
          if types[n] == msgtype {
            return false, i;
          }
          n := n + 1;
        }
      }
      assert m.assocs[i..][1..] == m.assocs[i + 1..];
      i := i + 1;
    }
    return true, i;
  }

  // When no two managed types share a message type, an event reaches the cache
  // of its type.
  lemma {:induction false} RouteFinds(slots: seq<Assoc>, msgtype: nat, k: nat)
    requires k < |slots| && slots[k].Managed? && msgtype in slots[k].ty.msgtypes
    requires forall i :: 0 <= i < |slots| && slots[i].Managed? && msgtype in slots[i].ty.msgtypes ==> i == k
    ensures Route(slots, msgtype) == k
  {
    if k > 0 {
      forall i | 0 <= i < |slots| - 1 && slots[1..][i].Managed? && msgtype in slots[1..][i].ty.msgtypes ensures i == k - 1 {
        assert slots[i + 1] == slots[1..][i];
      }
      RouteFinds(slots[1..], msgtype, k - 1);
    }
  }
}
