/** The identity module as tables: identities by address with a role index, and the register, update
    and revoke lifecycle. */
module Identity {
  import opened ByteStrings
  import opened Scan

  const ACTIVE: Bytes := [97, 99, 116, 105, 118, 101]        // active
  const REVOKED: Bytes := [114, 101, 118, 111, 107, 101, 100]  // revoked

  datatype Identity = Identity(address: Bytes, name: Bytes, role: Bytes, status: Bytes, metadata: Bytes,
    registeredAt: int64, updatedAt: int64)

  datatype Params = Params(adminAddress: Bytes)

  const DEFAULT_PARAMS := Params([])

  datatype GenesisState = GenesisState(identities: seq<Identity>, params: Params)

  datatype Msg =
    | Register(creator: Bytes, address: Bytes, name: Bytes, role: Bytes, metadata: Bytes)
    | Update(creator: Bytes, address: Bytes, name: Bytes, metadata: Bytes)
    | Revoke(creator: Bytes, address: Bytes)

  datatype Response = Done | Unauthorized | AlreadyRegistered | NotFound | AlreadyRevoked

  /** byRole holds entries role | 0x00 | address. */
  datatype State = State(identities: map<Bytes, Identity>, byRole: set<Bytes>, params: Option<Params>)

  const EMPTY := State(map[], {}, None)

  function AddressOf(i: Identity): Bytes { i.address }

  function SetIdentity(a: State, i: Identity): State {
    a.(identities := a.identities[i.address := i], byRole := a.byRole + {IndexEntry(i.role, i.address)})
  }

  /** DeleteIdentity of the keeper; no message reaches it. */
  function Remove(a: State, address: Bytes): State {
    if address !in a.identities then a
    else a.(identities := a.identities - {address},
      byRole := a.byRole - {IndexEntry(a.identities[address].role, address)})
  }

  function ParamsOf(a: State): Params {
    if a.params.Some? then a.params.value else DEFAULT_PARAMS
  }

  predicate IsAdmin(authority: Bytes, a: State, address: Bytes) {
    address == authority || (ParamsOf(a).adminAddress != [] && ParamsOf(a).adminAddress == address)
  }

  predicate HasRole(a: State, address: Bytes, role: Bytes) {
    address in a.identities && a.identities[address].role == role && a.identities[address].status == ACTIVE
  }

  function Updated(i: Identity, name: Bytes, metadata: Bytes, now: int64): Identity {
    i.(name := if name != [] then name else i.name, metadata := if metadata != [] then metadata else i.metadata,
      updatedAt := now)
  }

  function Handle(authority: Bytes, a: State, msg: Msg, now: int64): (State, Response) {
    match msg
    case Register(creator, address, name, role, metadata) =>
      if !IsAdmin(authority, a, creator) then (a, Unauthorized)
      else if address in a.identities then (a, AlreadyRegistered)
      else (SetIdentity(a, Identity(address, name, role, ACTIVE, metadata, now, now)), Done)
    case Update(creator, address, name, metadata) =>
      if address !in a.identities then (a, NotFound)
      else if !IsAdmin(authority, a, creator) && creator != address then (a, Unauthorized)
      else (SetIdentity(a, Updated(a.identities[address], name, metadata, now)), Done)
    case Revoke(creator, address) =>
      if !IsAdmin(authority, a, creator) then (a, Unauthorized)
      else if address !in a.identities then (a, NotFound)
      else if a.identities[address].status == REVOKED then (a, AlreadyRevoked)
      else (SetIdentity(a, a.identities[address].(status := REVOKED, updatedAt := now)), Done)
  }

  datatype Step = Step(msg: Msg, now: int64)

  function Run(authority: Bytes, a: State, steps: seq<Step>): State
    decreases |steps|
  {
    if steps == [] then a else Run(authority, Handle(authority, a, steps[0].msg, steps[0].now).0, steps[1..])
  }

  // ---------- the invariant ----------

  ghost predicate RoleIndexAgrees(ids: map<Bytes, Identity>, index: set<Bytes>) {
    forall k :: k in index <==> exists x :: x in ids && k == IndexEntry(ids[x].role, x)
  }

  ghost predicate Inv(a: State) {
    && (forall x :: x in a.identities ==> a.identities[x].address == x)
    && RoleIndexAgrees(a.identities, a.byRole)
  }

  lemma RoleIndexPut(ids: map<Bytes, Identity>, index: set<Bytes>, i: Identity)
    requires RoleIndexAgrees(ids, index)
    requires i.address in ids ==> ids[i.address].role == i.role
    ensures RoleIndexAgrees(ids[i.address := i], index + {IndexEntry(i.role, i.address)})
  {
    hide IndexEntry;
    var x, ids' := i.address, ids[i.address := i];
    forall k
      ensures k in index + {IndexEntry(i.role, x)} <==> exists z :: z in ids' && k == IndexEntry(ids'[z].role, z)
    {
      if k in index {
        var z :| z in ids && k == IndexEntry(ids[z].role, z);
        assert z in ids' && k == IndexEntry(ids'[z].role, z);
      } else if k == IndexEntry(i.role, x) {
        assert x in ids' && k == IndexEntry(ids'[x].role, x);
      }
    }
  }

  /** What a step may change of an identity that exists: its name, metadata, update time and status,
      and the status only from anything to revoked. */
  ghost predicate Evolves(i: Identity, j: Identity) {
    && j.address == i.address && j.role == i.role && j.registeredAt == i.registeredAt
    && (j.status == i.status || j.status == REVOKED)
  }

  ghost predicate Extends(a: State, b: State) {
    b.params == a.params && forall x :: x in a.identities ==>
      x in b.identities && Evolves(a.identities[x], b.identities[x])
  }

  /** One message: the invariant, who may change what, and that nobody else's identity moves. */
  lemma HandleKeeps(authority: Bytes, a: State, msg: Msg, now: int64, b: State, r: Response)
    requires Inv(a) && (b, r) == Handle(authority, a, msg, now)
    ensures Inv(b) && Extends(a, b)
    ensures !r.Done? ==> b == a
    ensures r.Done? ==> IsAdmin(authority, a, msg.creator) || (msg.Update? && msg.creator == msg.address)
    ensures msg.Register? ==> (r.Done? <==> IsAdmin(authority, a, msg.creator) && msg.address !in a.identities)
    ensures msg.Register? && r.Done? ==>
      HasRole(b, msg.address, msg.role) && b.identities[msg.address].registeredAt == now
    ensures msg.Update? ==> (r.Done? <==>
      msg.address in a.identities && (IsAdmin(authority, a, msg.creator) || msg.creator == msg.address))
    ensures msg.Update? && r.Done? ==> b.identities[msg.address].status == a.identities[msg.address].status
    ensures msg.Revoke? ==> (r.Done? <==>
      IsAdmin(authority, a, msg.creator) && msg.address in a.identities && a.identities[msg.address].status != REVOKED)
    ensures msg.Revoke? && r.Done? ==> b.identities[msg.address].status == REVOKED
    ensures forall x :: x in b.identities && x != msg.address ==>
      x in a.identities && b.identities[x] == a.identities[x]
  {
    if r.Done? {
      var i := b.identities[msg.address];
      RoleIndexPut(a.identities, a.byRole, i);
      hide RoleIndexAgrees, IndexEntry;
      assert b == SetIdentity(a, i);
    }
  }

  /** The authority, or the admin of the parameters unless that is empty. */
  predicate MayAdminister(authority: Bytes, params: Option<Params>, address: Bytes) {
    || address == authority
    || (params.Some? && params.value.adminAddress == address && address != [])
  }

  /** What each message answers, in the order of its checks, and the identity that it leaves. */
  lemma RegisterIs(authority: Bytes, a: State, msg: Msg, now: int64, b: State, r: Response)
    requires msg.Register? && (b, r) == Handle(authority, a, msg, now)
    ensures r == Unauthorized <==> !MayAdminister(authority, a.params, msg.creator)
    ensures r == AlreadyRegistered <==> MayAdminister(authority, a.params, msg.creator) && msg.address in a.identities
    ensures r.Unauthorized? || r.AlreadyRegistered? || r.Done?
    ensures r.Done? ==>
      msg.address in b.identities &&
      b.identities[msg.address] ==
        Identity(msg.address, msg.name, msg.role, [97, 99, 116, 105, 118, 101], msg.metadata, now, now)
  {}

  lemma UpdateIs(authority: Bytes, a: State, msg: Msg, now: int64, b: State, r: Response)
    requires Inv(a) && msg.Update? && (b, r) == Handle(authority, a, msg, now)
    ensures r == NotFound <==> msg.address !in a.identities
    ensures r == Unauthorized <==>
      msg.address in a.identities &&
      msg.creator != msg.address && !MayAdminister(authority, a.params, msg.creator)
    ensures r.NotFound? || r.Unauthorized? || r.Done?
    ensures r.Done? ==>
      msg.address in b.identities && msg.address in a.identities &&
      var i, j := a.identities[msg.address], b.identities[msg.address];
      && (msg.name == [] ==> j.name == i.name) && (msg.name != [] ==> j.name == msg.name)
      && (msg.metadata == [] ==> j.metadata == i.metadata) && (msg.metadata != [] ==> j.metadata == msg.metadata)
      && j.updatedAt == now && j.status == i.status && j.role == i.role && j.registeredAt == i.registeredAt
  {}

  lemma RevokeIs(authority: Bytes, a: State, msg: Msg, now: int64, b: State, r: Response)
    requires Inv(a) && msg.Revoke? && (b, r) == Handle(authority, a, msg, now)
    ensures r == Unauthorized <==> !MayAdminister(authority, a.params, msg.creator)
    ensures r == NotFound <==> MayAdminister(authority, a.params, msg.creator) && msg.address !in a.identities
    ensures r == AlreadyRevoked <==>
      MayAdminister(authority, a.params, msg.creator) && msg.address in a.identities &&
      a.identities[msg.address].status == [114, 101, 118, 111, 107, 101, 100]
    ensures r.Unauthorized? || r.NotFound? || r.AlreadyRevoked? || r.Done?
    ensures r.Done? ==>
      msg.address in b.identities && msg.address in a.identities &&
      b.identities[msg.address] ==
        a.identities[msg.address].(status := [114, 101, 118, 111, 107, 101, 100], updatedAt := now)
  {}

  lemma {:induction false} RunKeeps(authority: Bytes, a: State, steps: seq<Step>)
    requires Inv(a)
    ensures Inv(Run(authority, a, steps)) && Extends(a, Run(authority, a, steps))
    decreases |steps|
  {
    hide Inv, Handle;
    if steps != [] {
      var (b, r) := Handle(authority, a, steps[0].msg, steps[0].now);
      HandleKeeps(authority, a, steps[0].msg, steps[0].now, b, r);
      RunKeeps(authority, b, steps[1..]);
    }
  }

  /** Revocation is terminal: whatever follows, the identity stays registered and revoked, holds no
      role, keeps its address, role and registration time, and can be neither registered nor revoked again. */
  lemma RevokedIsTerminal(authority: Bytes, a: State, steps: seq<Step>, x: Bytes, b: State)
    requires Inv(a) && x in a.identities && a.identities[x].status == REVOKED && b == Run(authority, a, steps)
    ensures x in b.identities && b.identities[x].status == REVOKED
    ensures b.identities[x].role == a.identities[x].role && b.identities[x].registeredAt == a.identities[x].registeredAt
    ensures forall role: Bytes :: !HasRole(b, x, role)
    ensures forall msg: Msg, now: int64 :: (msg.Register? || msg.Revoke?) && msg.address == x ==>
      Handle(authority, b, msg, now).0 == b && !Handle(authority, b, msg, now).1.Done?
  {
    RunKeeps(authority, a, steps);
    hide Inv, Run;
    assert Evolves(a.identities[x], b.identities[x]);
  }

  /** Registered identities only ever lose a role by revocation. */
  lemma RoleKeptUntilRevoked(authority: Bytes, a: State, steps: seq<Step>, x: Bytes, role: Bytes, b: State)
    requires Inv(a) && HasRole(a, x, role) && b == Run(authority, a, steps)
    ensures x in b.identities
    ensures HasRole(b, x, role) <==> b.identities[x].status != REVOKED
    ensures forall other: Bytes :: other != role ==> !HasRole(b, x, other)
  {
    RunKeeps(authority, a, steps);
    hide Inv, Run;
    assert Evolves(a.identities[x], b.identities[x]);
  }

  /** Deleting what was just registered under a new NUL-free address restores the tables. */
  lemma RemoveUndoesSet(a: State, i: Identity)
    requires Inv(a) && i.address !in a.identities && NulFree(i.address)
    requires forall x :: x in a.identities ==> NulFree(x)
    ensures Remove(SetIdentity(a, i), i.address) == a
  {
    var entry := IndexEntry(i.role, i.address);
    hide IndexEntry, NulFree;
    if entry in a.byRole {
      var x :| x in a.identities && entry == IndexEntry(a.identities[x].role, x);
      ForeignPartHasNul(a.identities[x].role, x, i.role, i.address);
      assert false;
    }
    assert a.identities[i.address := i] - {i.address} == a.identities;
    assert a.byRole + {entry} - {entry} == a.byRole;
  }

  // ---------- role queries ----------

  /** The query by role: stripped keys are taken as addresses and looked up. */
  function QueryByRole(ids: map<Bytes, Identity>, index: set<Bytes>, role: Bytes): seq<Identity> {
    Collect(SortedKeys(EntriesUnder(index, role)), MapLookup(ids))
  }

  function InRole(role: Bytes): Identity -> bool {
    (i: Identity) => i.role == role
  }

  /** An entry of another role that the queried prefix selects carries a NUL in its address part. */
  lemma ForeignPartHasNul(n: Bytes, x: Bytes, role: Bytes, y: Bytes)
    requires NulFree(x) && NulFree(y) && IndexEntry(n, x) == IndexEntry(role, y)
    ensures n == role && x == y
  {
    SeparatorUnique(n, x, role, y);
  }

  /** No entry of a stored identity can be read as the queried role and the address of an identity
      that has another role. */
  ghost predicate NoFalseRole(ids: map<Bytes, Identity>, role: Bytes) {
    forall x, y :: x in ids && y in ids && IndexEntry(ids[x].role, x) == IndexEntry(role, y) ==> ids[y].role == role
  }

  lemma RoleQuerySoundIff(ids: map<Bytes, Identity>, index: set<Bytes>, role: Bytes)
    requires RoleIndexAgrees(ids, index)
    ensures ScanIsSound(ids.Keys, MapLookup(ids), EntriesUnder(index, role), MapLookup(ids), InRole(role)) <==>
      NoFalseRole(ids, role)
  {
    hide IndexEntry;
    if NoFalseRole(ids, role) {
      forall y | y in EntriesUnder(index, role) && y in ids
        ensures ids[y].role == role
      {
        var x :| x in ids && IndexEntry(role, y) == IndexEntry(ids[x].role, x);
      }
    } else {
      var x, y :| x in ids && y in ids && IndexEntry(ids[x].role, x) == IndexEntry(role, y) && ids[y].role != role;
      assert IndexEntry(role, y) in index;
      assert y in EntriesUnder(index, role) && MapLookup(ids)(y) == Some(ids[y]) && !InRole(role)(ids[y]);
    }
  }

  lemma RoleQueryComplete(ids: map<Bytes, Identity>, index: set<Bytes>, role: Bytes)
    requires RoleIndexAgrees(ids, index)
    ensures ScanIsComplete(ids.Keys, MapLookup(ids), EntriesUnder(index, role), MapLookup(ids), InRole(role))
  {
    hide IndexEntry;
    forall x | x in ids && ids[x].role == role
      ensures x in EntriesUnder(index, role)
    {
      assert IndexEntry(role, x) in index;
    }
  }

  /** The role query is the filter over all identities, in address order, exactly when no entry is
      read as an identity of another role. */
  lemma RoleQueryExactIff(a: State, role: Bytes)
    requires Inv(a)
    ensures QueryByRole(a.identities, a.byRole, role) == Filter(Values(a.identities), InRole(role))
       <==> NoFalseRole(a.identities, role)
  {
    var ids := a.identities;
    RoleQueryComplete(ids, a.byRole, role);
    RoleQuerySoundIff(ids, a.byRole, role);
    assert forall x :: x in ids.Keys ==> MapLookup(ids)(x).Some?;
    hide IndexEntry, NoFalseRole, ScanIsSound, ScanIsComplete, RoleIndexAgrees, EntriesUnder, Collect, Filter,
      MapLookup;
    ScanExactIff(ids.Keys, MapLookup(ids), EntriesUnder(a.byRole, role), MapLookup(ids), InRole(role));
  }

  /** NUL-free addresses are enough, for every queried role and whatever NULs the stored roles contain. */
  lemma RoleQueryExact(a: State, role: Bytes)
    requires Inv(a) && forall x :: x in a.identities ==> NulFree(x)
    ensures QueryByRole(a.identities, a.byRole, role) == Filter(Values(a.identities), InRole(role))
  {
    var ids := a.identities;
    forall x, y | x in ids && y in ids && IndexEntry(ids[x].role, x) == IndexEntry(role, y)
      ensures ids[y].role == role
    {
      ForeignPartHasNul(ids[x].role, x, role, y);
    }
    hide QueryByRole, Filter, Values, IndexEntry;
    RoleQueryExactIff(a, role);
  }

  /** The condition is needed: two registered identities, one with a NUL in its role and one with a
      NUL in its address, whose role is another, are told apart by no entry of the queried role. */
  lemma NulAddressLeaks(a: State, role: Bytes, p: Bytes, x: Bytes, y: Bytes)
    requires Inv(a) && x in a.identities && y in a.identities
    requires a.identities[x].role == role + [0x00] + p && y == p + [0x00] + x && a.identities[y].role != role
    ensures QueryByRole(a.identities, a.byRole, role) != Filter(Values(a.identities), InRole(role))
  {
    assert IndexEntry(a.identities[x].role, x) == IndexEntry(role, y);
    hide IndexEntry, QueryByRole, Filter, Values;
    RoleQueryExactIff(a, role);
  }

  // ---------- genesis ----------

  datatype GenesisError = EmptyAddress | DuplicateAddress | EmptyName | EmptyRole | EmptyStatus

  predicate Complete(i: Identity) {
    i.address != [] && i.name != [] && i.role != [] && i.status != []
  }

  ghost predicate ValidGenesis(gs: GenesisState) {
    && (forall i :: 0 <= i < |gs.identities| ==> Complete(gs.identities[i]))
    && DistinctKeys(gs.identities, AddressOf)
  }

  method Validate(gs: GenesisState) returns (err: Option<GenesisError>)
    ensures err.None? <==> ValidGenesis(gs)
  {
    var seen: set<Bytes> := {};
    for i := 0 to |gs.identities|
      invariant forall x :: x in seen <==> exists j :: 0 <= j < i && gs.identities[j].address == x
      invariant forall j :: 0 <= j < i ==> Complete(gs.identities[j])
      invariant forall j, k :: 0 <= j < k < i ==> gs.identities[j].address != gs.identities[k].address
    {
      var id := gs.identities[i];
      if id.address == [] {
        return Some(EmptyAddress);
      }
      if id.address in seen {
        return Some(DuplicateAddress);
      }
      seen := seen + {id.address};
      if id.name == [] {
        return Some(EmptyName);
      }
      if id.role == [] {
        return Some(EmptyRole);
      }
      if id.status == [] {
        return Some(EmptyStatus);
      }
    }
    err := None;
  }

  function SetAll(a: State, ids: seq<Identity>): State {
    if ids == [] then a else SetIdentity(SetAll(a, ids[..|ids| - 1]), ids[|ids| - 1])
  }

  function Import(a: State, gs: GenesisState): State {
    SetAll(a.(params := Some(gs.params)), gs.identities)
  }

  function Export(a: State): GenesisState {
    GenesisState(Values(a.identities), ParamsOf(a))
  }

  lemma {:induction false} SetAllKeeps(a: State, ids: seq<Identity>, b: State)
    requires a.identities == map[] && Inv(a) && DistinctKeys(ids, AddressOf) && b == SetAll(a, ids)
    ensures Inv(b) && b.identities == Rebuild(ids, AddressOf) && b.params == a.params
  {
    hide RoleIndexAgrees, IndexEntry;
    if ids != [] {
      var n := |ids| - 1;
      var prev := SetAll(a, ids[..n]);
      SetAllKeeps(a, ids[..n], prev);
      RebuildHasRows(ids[..n], AddressOf);
      assert AddressOf(ids[n]) !in prev.identities;
      RoleIndexPut(prev.identities, prev.byRole, ids[n]);
    }
  }

  lemma EmptyInv(params: Option<Params>)
    ensures Inv(EMPTY.(params := params))
  {}

  lemma RoleIndexUnique(ids: map<Bytes, Identity>, i1: set<Bytes>, i2: set<Bytes>)
    requires RoleIndexAgrees(ids, i1) && RoleIndexAgrees(ids, i2)
    ensures i1 == i2
  {
    hide IndexEntry;
    assert forall k :: k in i1 <==> k in i2;
  }

  /** Export and import restore a reachable state completely, hence every query. */
  lemma RoundTrip(a: State)
    requires Inv(a) && a.params.Some?
    ensures Import(EMPTY, Export(a)) == a
  {
    EmptyInv(a.params);
    hide RoleIndexAgrees, Rebuild, Values, SetAll;
    var b := Import(EMPTY, Export(a));
    ValuesDistinct(a.identities, AddressOf);
    RebuildValues(a.identities, AddressOf);
    SetAllKeeps(EMPTY.(params := a.params), Values(a.identities), b);
    RoleIndexUnique(a.identities, a.byRole, b.byRole);
  }

  /** A valid genesis is imported into agreeing tables that hold exactly its identities. */
  lemma ImportIsFaithful(gs: GenesisState, a: State)
    requires ValidGenesis(gs) && a == Import(EMPTY, gs)
    ensures Inv(a) && a.params == Some(gs.params)
    ensures forall x :: x in a.identities <==> exists i :: 0 <= i < |gs.identities| && AddressOf(gs.identities[i]) == x
    ensures forall i :: 0 <= i < |gs.identities| ==> a.identities[AddressOf(gs.identities[i])] == gs.identities[i]
  {
    EmptyInv(Some(gs.params));
    SetAllKeeps(EMPTY.(params := Some(gs.params)), gs.identities, a);
    RebuildHasRows(gs.identities, AddressOf);
  }
}
