/** The identity keeper, message server and module genesis over the byte store. */
module IdentityKeeper {
  import opened ByteStrings
  import opened Scan
  import opened Identity

  datatype Value = IdentityV(identity: Identity) | Marker | ParamsV(params: Params)

  // identity_params
  const PARAMS_KEY: Bytes := [105, 100, 101, 110, 116, 105, 116, 121, 95, 112, 97, 114, 97, 109, 115]

  function IdentityKey(address: Bytes): Bytes { [0x01] + address }

  function RoleKey(role: Bytes, address: Bytes): Bytes { [0x02] + IndexEntry(role, address) }

  function RolePrefix(role: Bytes): Bytes { [0x02] + role + [0x00] }

  function At(a: State): Bytes -> Option<Value> {
    k =>
      if k == [] then None
      else if k[0] == 0x01 then (if k[1..] in a.identities then Some(IdentityV(a.identities[k[1..]])) else None)
      else if k[0] == 0x02 then (if k[1..] in a.byRole then Some(Marker) else None)
      else if k == PARAMS_KEY then (if a.params.Some? then Some(ParamsV(a.params.value)) else None)
      else None
  }

  lemma StoreIdentity(store: map<Bytes, Value>, a: State, i: Identity, b: State)
    requires Encodes(store, At(a)) && b == a.(identities := a.identities[i.address := i])
    ensures Encodes(store[IdentityKey(i.address) := IdentityV(i)], At(b))
  {
    forall k
      ensures At(b)(k) == if k == IdentityKey(i.address) then Some(IdentityV(i)) else At(a)(k)
    {
      TaggedKey(0x01, i.address, k);
    }
    EncodesSet(store, At(a), IdentityKey(i.address), IdentityV(i), At(b));
  }

  lemma StoreRoleEntry(store: map<Bytes, Value>, a: State, entry: Bytes, b: State)
    requires Encodes(store, At(a)) && b == a.(byRole := a.byRole + {entry})
    ensures Encodes(store[[0x02] + entry := Marker], At(b))
  {
    forall k
      ensures At(b)(k) == if k == [0x02] + entry then Some(Marker) else At(a)(k)
    {
      TaggedKey(0x02, entry, k);
    }
    EncodesSet(store, At(a), [0x02] + entry, Marker, At(b));
  }

  lemma DropIdentity(store: map<Bytes, Value>, a: State, address: Bytes, b: State)
    requires Encodes(store, At(a)) && b == a.(identities := a.identities - {address})
    ensures Encodes(store - {IdentityKey(address)}, At(b))
  {
    forall k
      ensures At(b)(k) == if k == IdentityKey(address) then None else At(a)(k)
    {
      TaggedKey(0x01, address, k);
    }
    EncodesDelete(store, At(a), IdentityKey(address), At(b));
  }

  lemma DropRoleEntry(store: map<Bytes, Value>, a: State, entry: Bytes, b: State)
    requires Encodes(store, At(a)) && b == a.(byRole := a.byRole - {entry})
    ensures Encodes(store - {[0x02] + entry}, At(b))
  {
    forall k
      ensures At(b)(k) == if k == [0x02] + entry then None else At(a)(k)
    {
      TaggedKey(0x02, entry, k);
    }
    EncodesDelete(store, At(a), [0x02] + entry, At(b));
  }

  lemma Stored(store: map<Bytes, Value>, a: State, x: Bytes)
    requires Encodes(store, At(a))
    ensures [0x01] + x in store <==> x in a.identities
    ensures x in a.identities ==> store[[0x01] + x] == IdentityV(a.identities[x])
  {
    assert At(a)([0x01] + x).Some? <==> [0x01] + x in store;
  }

  lemma StoredSuffixes(store: map<Bytes, Value>, a: State, role: Bytes)
    requires Encodes(store, At(a))
    ensures Suffixes(store, [0x01]) == a.identities.Keys
    ensures Suffixes(store, RolePrefix(role)) == EntriesUnder(a.byRole, role)
  {
    forall y
      ensures [0x01] + y in store <==> y in a.identities
      ensures RolePrefix(role) + y in store <==> IndexEntry(role, y) in a.byRole
    {
      Stored(store, a, y);
      assert RolePrefix(role) + y == [0x02] + IndexEntry(role, y);
      assert RolePrefix(role) + y in store <==> At(a)(RolePrefix(role) + y).Some?;
    }
  }

  /** The bytes of the keys: which are in the store, and which table they stand for. */
  lemma KeyLayout(store: map<Bytes, Value>, a: State, n: Bytes, x: Bytes)
    requires Encodes(store, At(a))
    ensures [0x01] + x in store <==> x in a.identities
    ensures [0x02] + (n + [0x00] + x) in store <==> n + [0x00] + x in a.byRole
    ensures [105, 100, 101, 110, 116, 105, 116, 121, 95, 112, 97, 114, 97, 109, 115] in store <==> a.params.Some?
  {
    assert [0x01] + x in store <==> At(a)([0x01] + x).Some?;
    assert [0x02] + (n + [0x00] + x) in store <==> At(a)([0x02] + (n + [0x00] + x)).Some?;
    var p: Bytes := [105, 100, 101, 110, 116, 105, 116, 121, 95, 112, 97, 114, 97, 109, 115];
    assert p in store <==> At(a)(p).Some?;
  }

  class Keeper {
    const authority: Bytes
    var store: map<Bytes, Value>
    ghost var tables: State

    ghost predicate Valid()
      reads this
    {
      Encodes(store, At(tables))
    }

    constructor (authority: Bytes)
      ensures Valid() && tables == EMPTY && this.authority == authority
    {
      this.authority := authority;
      store := map[];
      tables := EMPTY;
    }

    method SetParams(params: Params)
      requires Valid()
      modifies this
      ensures Valid() && tables == old(tables).(params := Some(params))
    {
      ghost var a := tables;
      tables := tables.(params := Some(params));
      EncodesSet(store, At(a), PARAMS_KEY, ParamsV(params), At(tables));
      store := store[PARAMS_KEY := ParamsV(params)];
    }

    method GetParams() returns (params: Params)
      requires Valid()
      ensures params == ParamsOf(tables)
    {
      assert At(tables)(PARAMS_KEY).Some? <==> PARAMS_KEY in store;
      if PARAMS_KEY !in store {
        return DEFAULT_PARAMS;
      }
      assert At(tables)(PARAMS_KEY) == Some(store[PARAMS_KEY]);
      params := store[PARAMS_KEY].params;
    }

    method PutIdentity(identity: Identity)
      requires Valid()
      modifies this
      ensures Valid() && tables == SetIdentity(old(tables), identity)
    {
      ghost var a := tables;
      ghost var b := a.(identities := a.identities[identity.address := identity]);
      tables := SetIdentity(a, identity);
      StoreIdentity(store, a, identity, b);
      store := store[IdentityKey(identity.address) := IdentityV(identity)];
      StoreRoleEntry(store, b, IndexEntry(identity.role, identity.address), tables);
      store := store[RoleKey(identity.role, identity.address) := Marker];
    }

    method GetIdentity(address: Bytes) returns (r: Option<Identity>)
      requires Valid()
      ensures r == MapLookup(tables.identities)(address)
    {
      Stored(store, tables, address);
      if IdentityKey(address) !in store {
        return None;
      }
      r := Some(store[IdentityKey(address)].identity);
    }

    method DeleteIdentity(address: Bytes)
      requires Valid()
      modifies this
      ensures Valid() && tables == Remove(old(tables), address)
    {
      var identity := GetIdentity(address);
      if identity.None? {
        return;
      }
      ghost var a := tables;
      ghost var b := a.(identities := a.identities - {address});
      tables := b.(byRole := b.byRole - {IndexEntry(identity.value.role, address)});
      DropIdentity(store, a, address, b);
      store := store - {IdentityKey(address)};
      DropRoleEntry(store, b, IndexEntry(identity.value.role, address), tables);
      store := store - {RoleKey(identity.value.role, address)};
    }

    method GetIdentitiesByRole(role: Bytes) returns (identities: seq<Identity>)
      requires Valid()
      ensures identities == QueryByRole(tables.identities, tables.byRole, role)
    {
      StoredSuffixes(store, tables, role);
      var keys := SortedKeys(Suffixes(store, RolePrefix(role)));
      identities := [];
      for i := 0 to |keys|
        invariant identities == Collect(keys[..i], MapLookup(tables.identities))
      {
        CollectStep(keys, MapLookup(tables.identities), i);
        var identity := GetIdentity(keys[i]);
        if identity.Some? {
          identities := identities + [identity.value];
        }
      }
      assert keys[..|keys|] == keys;
    }

    method GetAllIdentities() returns (identities: seq<Identity>)
      requires Valid()
      ensures identities == Values(tables.identities)
    {
      StoredSuffixes(store, tables, []);
      var keys := SortedKeys(Suffixes(store, [0x01]));
      identities := [];
      for i := 0 to |keys|
        invariant identities == Collect(keys[..i], MapLookup(tables.identities))
      {
        assert keys[i] in keys;
        Stored(store, tables, keys[i]);
        CollectStep(keys, MapLookup(tables.identities), i);
        identities := identities + [store[[0x01] + keys[i]].identity];
      }
      assert keys[..|keys|] == keys;
    }

    method CheckRole(address: Bytes, role: Bytes) returns (ok: bool)
      requires Valid()
      ensures ok <==> HasRole(tables, address, role)
    {
      var identity := GetIdentity(address);
      ok := identity.Some? && identity.value.role == role && identity.value.status == ACTIVE;
    }

    // ---------- message server ----------

    method CheckAdmin(address: Bytes) returns (ok: bool)
      requires Valid()
      ensures ok <==> IsAdmin(authority, tables, address)
    {
      if address == authority {
        return true;
      }
      var params := GetParams();
      ok := params.adminAddress != [] && params.adminAddress == address;
    }

    method RegisterIdentity(msg: Msg, now: int64) returns (r: Response)
      requires Valid() && msg.Register?
      modifies this
      ensures Valid() && (tables, r) == Handle(authority, old(tables), msg, now)
    {
      var admin := CheckAdmin(msg.creator);
      if !admin {
        return Unauthorized;
      }
      Stored(store, tables, msg.address);
      if IdentityKey(msg.address) in store {
        return AlreadyRegistered;
      }
      PutIdentity(Identity(msg.address, msg.name, msg.role, ACTIVE, msg.metadata, now, now));
      r := Done;
    }

    method UpdateIdentity(msg: Msg, now: int64) returns (r: Response)
      requires Valid() && msg.Update?
      modifies this
      ensures Valid() && (tables, r) == Handle(authority, old(tables), msg, now)
    {
      var found := GetIdentity(msg.address);
      if found.None? {
        return NotFound;
      }
      var identity := found.value;
      var admin := CheckAdmin(msg.creator);
      if !admin && msg.creator != msg.address {
        return Unauthorized;
      }
      if msg.name != [] {
        identity := identity.(name := msg.name);
      }
      if msg.metadata != [] {
        identity := identity.(metadata := msg.metadata);
      }
      identity := identity.(updatedAt := now);
      PutIdentity(identity);
      r := Done;
    }

    method RevokeIdentity(msg: Msg, now: int64) returns (r: Response)
      requires Valid() && msg.Revoke?
      modifies this
      ensures Valid() && (tables, r) == Handle(authority, old(tables), msg, now)
    {
      var admin := CheckAdmin(msg.creator);
      if !admin {
        return Unauthorized;
      }
      var found := GetIdentity(msg.address);
      if found.None? {
        return NotFound;
      }
      if found.value.status == REVOKED {
        return AlreadyRevoked;
      }
      PutIdentity(found.value.(status := REVOKED, updatedAt := now));
      r := Done;
    }

    // ---------- genesis ----------

    method InitGenesis(gs: GenesisState)
      requires Valid()
      modifies this
      ensures Valid() && tables == Import(old(tables), gs)
    {
      hide At, Encodes, SetIdentity;
      SetParams(gs.params);
      ghost var a := tables;
      for i := 0 to |gs.identities|
        invariant Valid() && tables == SetAll(a, gs.identities[..i])
      {
        assert gs.identities[..i + 1][..i] == gs.identities[..i];
        PutIdentity(gs.identities[i]);
      }
      assert gs.identities[..|gs.identities|] == gs.identities;
    }

    method ExportGenesis() returns (gs: GenesisState)
      requires Valid()
      ensures gs == Export(tables)
    {
      var identities := GetAllIdentities();
      var params := GetParams();
      gs := GenesisState(identities, params);
    }
  }
}
