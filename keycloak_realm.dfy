/**
 * The two remote realms the administration utility changes, as objects: the broker realm holding
 * identity providers, their mappers and the users that logged in through them, and the project-user
 * realm. Every remote call is also appended to a call log, so that the order of calls can be stated.
 */
module KeycloakRealm {
  import opened Wrappers
  import opened JavaString
  import opened KeycloakConfig
  import MrnUtil

  /** A mapper stored under an identity provider, with the id the broker gave it. */
  datatype StoredMapper = StoredMapper(id: nat, mapper: Mapper)

  /** The calls made on the broker realm. */
  datatype BrokerCall =
    | CreateIdp(descriptor: IdpDescriptor)
    | UpdateIdp(descriptor: IdpDescriptor)
    | DeleteMapper(alias: string, mapperId: nat)
    | AddMapper(alias: string, mapper: Mapper)
    | RemoveBrokerUser(userId: nat)
    | RemoveIdp(alias: string)

  const CreateIdpFailed: string := "Could not create IDP"

  /** The mappers of a stored list, without their ids. */
  function MapperList(stored: seq<StoredMapper>): (ms: seq<Mapper>)
    ensures |ms| == |stored| && forall i :: 0 <= i < |ms| ==> ms[i] == stored[i].mapper
  {
    seq(|stored|, i requires 0 <= i < |stored| => stored[i].mapper)
  }

  /** `ms` stored with consecutive ids from `first` on. */
  function Stored(ms: seq<Mapper>, first: nat): (stored: seq<StoredMapper>)
    ensures |stored| == |ms|
    ensures forall i :: 0 <= i < |stored| ==> stored[i] == StoredMapper(first + i, ms[i])
  {
    if ms == [] then [] else Stored(ms[..|ms| - 1], first) + [StoredMapper(first + |ms| - 1, ms[|ms| - 1])]
  }

  /** Storing mappers and listing them again gives the same mappers. */
  lemma StoredMapperList(ms: seq<Mapper>, first: nat)
    ensures MapperList(Stored(ms, first)) == ms
  {
    var listed := MapperList(Stored(ms, first));
    assert forall i :: 0 <= i < |ms| ==> listed[i] == ms[i];
  }

  /** One delete call per stored mapper, in list order. */
  function DeleteCalls(alias: string, stored: seq<StoredMapper>): (cs: seq<BrokerCall>)
    ensures |cs| == |stored|
    ensures forall i :: 0 <= i < |cs| ==> cs[i] == DeleteMapper(alias, stored[i].id)
  {
    if stored == [] then [] else DeleteCalls(alias, stored[..|stored| - 1]) + [DeleteMapper(alias, stored[|stored| - 1].id)]
  }

  /** One add call per mapper, in list order. */
  function AddCalls(alias: string, ms: seq<Mapper>): (cs: seq<BrokerCall>)
    ensures |cs| == |ms|
    ensures forall i :: 0 <= i < |cs| ==> cs[i] == AddMapper(alias, ms[i])
  {
    if ms == [] then [] else AddCalls(alias, ms[..|ms| - 1]) + [AddMapper(alias, ms[|ms| - 1])]
  }

  /** One removal call per user id, in order. */
  function UserRemovals(ids: seq<nat>): (cs: seq<BrokerCall>)
    ensures |cs| == |ids|
    ensures forall i :: 0 <= i < |cs| ==> cs[i] == RemoveBrokerUser(ids[i])
  {
    if ids == [] then [] else UserRemovals(ids[..|ids| - 1]) + [RemoveBrokerUser(ids[|ids| - 1])]
  }

  /** No id occurs twice. */
  predicate Distinct(ids: seq<nat>) {
    forall a, b :: 0 <= a < b < |ids| ==> ids[a] != ids[b]
  }

  /** The broker users whose user name does not start with `prefix`. */
  function UsersWithoutPrefix(users: map<nat, string>, prefix: string): (kept: map<nat, string>)
    ensures kept.Keys <= users.Keys
    ensures forall id :: id in users ==> (id in kept <==> !StartsWith(users[id], prefix))
    ensures forall id :: id in kept ==> kept[id] == users[id]
  {
    map id | id in users && !StartsWith(users[id], prefix) :: users[id]
  }

  /** The broker users whose user name starts with `prefix`. */
  function UsersWithPrefix(users: map<nat, string>, prefix: string): (ids: set<nat>)
    ensures forall id :: id in ids <==> id in users && StartsWith(users[id], prefix)
  {
    set id | id in users && StartsWith(users[id], prefix)
  }

  /** Appending an id not yet present keeps a sequence free of duplicates. */
  lemma DistinctAppend(ids: seq<nat>, id: nat)
    requires Distinct(ids) && id !in ids
    ensures Distinct(ids + [id])
  {
  }

  /** Logging one more removal extends the removal calls by one. */
  lemma LogAppend(prior: seq<BrokerCall>, ids: seq<nat>, id: nat)
    ensures prior + UserRemovals(ids) + [RemoveBrokerUser(id)] == prior + UserRemovals(ids + [id])
  {
    assert (ids + [id])[..|ids|] == ids;
  }

  /** Removing the users with the prefix leaves the ones without it. */
  lemma KeptUsers(users: map<nat, string>, prefix: string)
    ensures users - UsersWithPrefix(users, prefix) == UsersWithoutPrefix(users, prefix)
  {
  }

  class BrokerRealm {
    var providers: map<string, IdpDescriptor>
    var mappers: map<string, seq<StoredMapper>>
    var nextMapperId: nat
    var users: map<nat, string>
    var calls: seq<BrokerCall>

    /** Only identity providers have mappers. */
    predicate Valid()
      reads this
    {
      mappers.Keys <= providers.Keys
    }

    constructor ()
      ensures Valid() && providers == map[] && mappers == map[] && users == map[] && calls == []
    {
      providers := map[];
      mappers := map[];
      nextMapperId := 0;
      users := map[];
      calls := [];
    }

    /** The mappers stored under `alias`; a provider nobody added mappers to has none. */
    function MappersOf(alias: string): (stored: seq<StoredMapper>)
      reads this
      ensures alias !in mappers ==> stored == []
    {
      if alias in mappers then mappers[alias] else []
    }

    /** The users a search for `query` returns: those whose user name contains it. */
    function Search(query: string): (ids: set<nat>)
      reads this
      ensures forall id :: id in ids <==> id in users && Contains(users[id], query)
    {
      set id | id in users && Contains(users[id], query)
    }

    /**
     * `createIdentityProvider`: the checks and the descriptor come first; then the provider is
     * updated when its alias exists and created otherwise (a status other than 201 fails), and in
     * both cases its mappers are rebuilt. `imported` is what the broker's import returns for
     * `importUrl`, `createStatus` the status of the create call.
     */
    method CreateIdentityProvider(orgMrn: string, input: seq<IdpAttribute>, imported: Option<map<string, string>>,
                                  createStatus: int) returns (r: Outcome<KcError>)
      requires Valid()
      modifies this`providers, this`mappers, this`nextMapperId, this`calls
      ensures Valid()
      ensures var d := ResolveIdentityProvider(orgMrn, AttributeMap(input), imported);
        d.Failure? ==>
          r == Fail(d.error) && providers == old(providers) && mappers == old(mappers) && calls == old(calls)
      ensures var d := ResolveIdentityProvider(orgMrn, AttributeMap(input), imported);
        d.Success? && d.value.alias !in old(providers) && createStatus != 201 ==>
          r == Fail(IoFailure(CreateIdpFailed)) && providers == old(providers) && mappers == old(mappers) &&
          calls == old(calls) + [CreateIdp(d.value)]
      ensures var d := ResolveIdentityProvider(orgMrn, AttributeMap(input), imported);
        d.Success? && (d.value.alias in old(providers) || createStatus == 201) ==>
          var alias := d.value.alias;
          var ms := IdpMappers(alias, AttributeMap(input), orgMrn);
          r == Pass && providers == old(providers)[alias := d.value] &&
          mappers == old(mappers)[alias := Stored(ms, old(nextMapperId))] &&
          calls == old(calls) + [if alias in old(providers) then UpdateIdp(d.value) else CreateIdp(d.value)] +
                   DeleteCalls(alias, old(MappersOf(alias))) + AddCalls(alias, ms)
    {
      var attrs := IdpAttributesToMap(input);
      var d := ResolveIdentityProvider(orgMrn, attrs, imported);
      if d.Failure? {
        return Fail(d.error);
      }
      r := InstallProvider(d.value, attrs, orgMrn, createStatus);
    }

    /** The part of `createIdentityProvider` after the descriptor is built: register it, then rebuild its mappers. */
    method InstallProvider(idp: IdpDescriptor, attrs: AttrMap, orgMrn: string, createStatus: int) returns (r: Outcome<KcError>)
      requires Valid() && "providerType" in attrs
      modifies this`providers, this`mappers, this`nextMapperId, this`calls
      ensures Valid()
      ensures idp.alias !in old(providers) && createStatus != 201 ==>
        r == Fail(IoFailure(CreateIdpFailed)) && providers == old(providers) && mappers == old(mappers) &&
        calls == old(calls) + [CreateIdp(idp)]
      ensures idp.alias in old(providers) || createStatus == 201 ==>
        var ms := IdpMappers(idp.alias, attrs, orgMrn);
        r == Pass && providers == old(providers)[idp.alias := idp] &&
        mappers == old(mappers)[idp.alias := Stored(ms, old(nextMapperId))] &&
        calls == old(calls) + [if idp.alias in old(providers) then UpdateIdp(idp) else CreateIdp(idp)] +
                 DeleteCalls(idp.alias, old(MappersOf(idp.alias))) + AddCalls(idp.alias, ms)
    {
      r := RegisterProvider(idp, createStatus);
      if r.Pass? {
        CreateIdpMappers(idp.alias, attrs, orgMrn);
      }
    }

    /**
     * The middle of `createIdentityProvider`: update the provider when its alias exists, else
     * create it, failing when the create call answers other than 201.
     */
    method RegisterProvider(idp: IdpDescriptor, createStatus: int) returns (r: Outcome<KcError>)
      requires Valid()
      modifies this`providers, this`calls
      ensures Valid()
      ensures idp.alias in old(providers) ==>
        r == Pass && providers == old(providers)[idp.alias := idp] && calls == old(calls) + [UpdateIdp(idp)]
      ensures idp.alias !in old(providers) ==> calls == old(calls) + [CreateIdp(idp)]
      ensures idp.alias !in old(providers) && createStatus != 201 ==>
        r == Fail(IoFailure(CreateIdpFailed)) && providers == old(providers)
      ensures idp.alias !in old(providers) && createStatus == 201 ==>
        r == Pass && providers == old(providers)[idp.alias := idp]
    {
      if idp.alias in providers {
        providers := providers[idp.alias := idp];
        calls := calls + [UpdateIdp(idp)];
        return Pass;
      }
      calls := calls + [CreateIdp(idp)];
      if createStatus != 201 {
        return Fail(IoFailure(CreateIdpFailed));
      }
      providers := providers[idp.alias := idp];
      r := Pass;
    }

    /**
     * `createIdpMappers`: delete every existing mapper of the provider, then add the mappers of
     * `IdpMappers` with fresh ids. Afterwards the provider has exactly those mappers.
     */
    method CreateIdpMappers(alias: string, attrs: AttrMap, orgMrn: string)
      requires Valid() && alias in providers && "providerType" in attrs
      modifies this`mappers, this`nextMapperId, this`calls
      ensures Valid()
      ensures mappers == old(mappers)[alias := Stored(IdpMappers(alias, attrs, orgMrn), old(nextMapperId))]
      ensures MapperList(mappers[alias]) == IdpMappers(alias, attrs, orgMrn)
      ensures calls == old(calls) + DeleteCalls(alias, old(MappersOf(alias))) + AddCalls(alias, IdpMappers(alias, attrs, orgMrn))
    {
      var ms := IdpMappers(alias, attrs, orgMrn);
      ReplaceMappers(alias, ms);
      StoredMapperList(ms, old(nextMapperId));
    }

    /** The two loops of `createIdpMappers`: delete the stored mappers in list order, then add `ms` in order. */
    method ReplaceMappers(alias: string, ms: seq<Mapper>)
      modifies this`mappers, this`nextMapperId, this`calls
      ensures mappers == old(mappers)[alias := Stored(ms, old(nextMapperId))]
      ensures nextMapperId == old(nextMapperId) + |ms|
      ensures calls == old(calls) + DeleteCalls(alias, old(MappersOf(alias))) + AddCalls(alias, ms)
    {
      DeleteMappers(alias);
      AddMappers(alias, ms);
    }

    /** Delete every stored mapper of `alias`, one call per mapper, in list order. */
    method DeleteMappers(alias: string)
      modifies this`mappers, this`calls
      ensures mappers == old(mappers)[alias := []]
      ensures calls == old(calls) + DeleteCalls(alias, old(MappersOf(alias)))
    {
      var existing := MappersOf(alias);
      var remaining := existing;
      var log := calls;
      for i := 0 to |existing|
        invariant calls == old(calls)
        invariant remaining == existing[i..]
        invariant log == calls + DeleteCalls(alias, existing[..i])
      {
        assert existing[..i + 1][..i] == existing[..i];
        log := log + [DeleteMapper(alias, remaining[0].id)];
        remaining := remaining[1..];
      }
      assert existing[..|existing|] == existing;
      mappers, calls := mappers[alias := remaining], log;
    }

    /** Add `ms` to the empty mapper list of `alias`, one call per mapper, with consecutive ids. */
    method AddMappers(alias: string, ms: seq<Mapper>)
      requires alias in mappers && mappers[alias] == []
      modifies this`mappers, this`nextMapperId, this`calls
      ensures mappers == old(mappers)[alias := Stored(ms, old(nextMapperId))]
      ensures nextMapperId == old(nextMapperId) + |ms|
      ensures calls == old(calls) + AddCalls(alias, ms)
    {
      var stored: seq<StoredMapper> := [];
      var next := nextMapperId;
      var log := calls;
      for j := 0 to |ms|
        invariant calls == old(calls) && nextMapperId == old(nextMapperId)
        invariant next == nextMapperId + j
        invariant stored == Stored(ms[..j], nextMapperId)
        invariant log == calls + AddCalls(alias, ms[..j])
      {
        assert ms[..j + 1][..j] == ms[..j];
        stored := stored + [StoredMapper(next, ms[j])];
        log := log + [AddMapper(alias, ms[j])];
        next := next + 1;
      }
      assert ms[..|ms|] == ms;
      mappers, nextMapperId, calls := mappers[alias := stored], next, log;
    }

    /**
     * `deleteIdentityProvider`: remove the users the organization's logins created, then the
     * provider itself. `removed` is the order in which the users were removed.
     */
    method DeleteIdentityProvider(orgMrn: string) returns (ghost removed: seq<nat>)
      requires Valid()
      modifies this
      ensures Valid() && nextMapperId == old(nextMapperId)
      ensures var alias := MrnUtil.OrgShortNameFromOrgMrn(orgMrn);
        providers == old(providers) - {alias} && mappers == old(mappers) - {alias} &&
        calls == old(calls) + UserRemovals(removed) + [RemoveIdp(alias)]
      ensures users == UsersWithoutPrefix(old(users), orgMrn + ":user:")
      ensures Distinct(removed)
      ensures forall id :: id in removed <==> id in UsersWithPrefix(old(users), orgMrn + ":user:")
    {
      var alias := MrnUtil.OrgShortNameFromOrgMrn(orgMrn);
      removed := RemovePrefixedUsers(orgMrn + ":user:");
      providers := providers - {alias};
      mappers := mappers - {alias};
      calls := calls + [RemoveIdp(alias)];
    }

    /**
     * The user loop of `deleteIdentityProvider`: search the users whose name contains `prefix`
     * and remove, in the order the search returns them, those whose name starts with it.
     */
    method RemovePrefixedUsers(prefix: string) returns (ghost removed: seq<nat>)
      modifies this`users, this`calls
      ensures calls == old(calls) + UserRemovals(removed)
      ensures users == UsersWithoutPrefix(old(users), prefix)
      ensures Distinct(removed)
      ensures forall id :: id in removed <==> id in UsersWithPrefix(old(users), prefix)
    {
      var found := Search(prefix);
      forall id | id in UsersWithPrefix(users, prefix) ensures id in found {
        StartsWithContains(users[id], prefix);
      }
      var remaining, log;
      remaining, log, removed := RemoveMatching(users, calls, found, prefix);
      users, calls := remaining, log;
    }
  }

  /**
   * Progress of the removal loop: of the users `doomed` to go, those in `gone` are removed (in the
   * order of `removed`, each once) and the others are still `left` to visit.
   */
  ghost predicate RemovalProgress(current: map<nat, string>, doomed: set<nat>, left: set<nat>, gone: set<nat>,
                                  removed: seq<nat>, remaining: map<nat, string>)
  {
    remaining == current - gone && gone <= doomed && doomed <= left + gone && left <= remaining.Keys &&
    (forall id :: id in removed <==> id in gone) && Distinct(removed)
  }

  /** Visiting a user to be removed removes it and logs it. */
  lemma RemoveOne(current: map<nat, string>, doomed: set<nat>, left: set<nat>, gone: set<nat>,
                  removed: seq<nat>, remaining: map<nat, string>, id: nat)
    requires RemovalProgress(current, doomed, left, gone, removed, remaining)
    requires id in left && id in doomed
    ensures RemovalProgress(current, doomed, left - {id}, gone + {id}, removed + [id], remaining - {id})
  {
    DistinctAppend(removed, id);
  }

  /** Visiting a user to be kept changes nothing but what is left to visit. */
  lemma KeepOne(current: map<nat, string>, doomed: set<nat>, left: set<nat>, gone: set<nat>,
                removed: seq<nat>, remaining: map<nat, string>, id: nat)
    requires RemovalProgress(current, doomed, left, gone, removed, remaining)
    requires id in left && id !in doomed
    ensures RemovalProgress(current, doomed, left - {id}, gone, removed, remaining)
  {
  }

  /**
   * The removal loop over the search result `found`: every found user whose name starts with
   * `prefix` is removed from `current` and its removal logged after `prior`; the others stay.
   */
  method RemoveMatching(current: map<nat, string>, prior: seq<BrokerCall>, found: set<nat>, prefix: string)
    returns (remaining: map<nat, string>, log: seq<BrokerCall>, ghost removed: seq<nat>)
    requires UsersWithPrefix(current, prefix) <= found <= current.Keys
    ensures remaining == UsersWithoutPrefix(current, prefix)
    ensures log == prior + UserRemovals(removed)
    ensures Distinct(removed)
    ensures forall id :: id in removed <==> id in UsersWithPrefix(current, prefix)
  {
    ghost var doomed := UsersWithPrefix(current, prefix);
    var left := found;
    remaining, log := current, prior;
    ghost var gone: set<nat> := {};
    removed := [];
    while left != {}
      invariant RemovalProgress(current, doomed, left, gone, removed, remaining)
      invariant log == prior + UserRemovals(removed)
      decreases |left|
    {
      var id :| id in left;
      var starts := StartsWith(remaining[id], prefix);
      if starts {
        RemoveOne(current, doomed, left, gone, removed, remaining, id);
        LogAppend(prior, removed, id);
        remaining := remaining - {id};
        log := log + [RemoveBrokerUser(id)];
        removed := removed + [id];
        gone := gone + {id};
      } else {
        KeepOne(current, doomed, left, gone, removed, remaining, id);
      }
      left := left - {id};
    }
    assert gone == doomed;
    KeptUsers(current, prefix);
  }

  // -----------------------------------------------------------------------------------------------
  // Project-user realm

  /** A user record of the project-user realm; attribute values are lists of possibly-null strings. */
  datatype KcUser = KcUser(
    username: Option<string>,
    enabled: bool,
    email: Option<string>,
    emailVerified: bool,
    firstName: Option<string>,
    lastName: Option<string>,
    attributes: map<string, seq<Option<string>>>)

  datatype UserCall =
    | CreateUserCall(user: KcUser)
    | UpdateUserCall(userId: nat, user: KcUser)
    | RemoveUserCall(userId: nat)

  /** A non-null string that is not blank after trimming. */
  predicate Given(s: Option<string>) {
    s.Some? && !IsBlank(s.value)
  }

  /** The user `createUser` submits: the email is the user name; blank fields are left unset. */
  function NewUser(userMrn: string, firstName: Option<string>, lastName: Option<string>, email: Option<string>,
                   orgMrn: string, permissions: Option<string>, enabled: bool): (u: KcUser)
    ensures u.username == email && u.enabled == enabled
    ensures Given(email) ==> u.email == email && u.emailVerified
    ensures !Given(email) ==> u.email.None? && !u.emailVerified
    ensures Given(firstName) <==> u.firstName.Some?
    ensures Given(lastName) <==> u.lastName.Some?
    ensures u.firstName.Some? ==> u.firstName == firstName
    ensures u.lastName.Some? ==> u.lastName == lastName
    ensures u.attributes == map["org" := [Some(orgMrn)], "mrn" := [Some(userMrn)], "permissions" := [permissions]]
  {
    KcUser(email, enabled,
           if Given(email) then email else None, Given(email),
           if Given(firstName) then firstName else None,
           if Given(lastName) then lastName else None,
           map["org" := [Some(orgMrn)], "mrn" := [Some(userMrn)], "permissions" := [permissions]])
  }

  /**
   * The field rules of `updateUser`: each given (non-blank) field is written, and raises the
   * `updated` flag even when the stored value is the same; a given email is also marked verified.
   */
  function FieldsUpdate(u: KcUser, firstName: Option<string>, lastName: Option<string>, email: Option<string>):
    (r: (KcUser, bool))
    ensures r.1 <==> Given(email) || Given(firstName) || Given(lastName)
    ensures r.0.username == u.username && r.0.enabled == u.enabled && r.0.attributes == u.attributes
    ensures r.0.email == (if Given(email) then email else u.email)
    ensures r.0.emailVerified == (Given(email) || u.emailVerified)
    ensures r.0.firstName == (if Given(firstName) then firstName else u.firstName)
    ensures r.0.lastName == (if Given(lastName) then lastName else u.lastName)
  {
    var u1 := if Given(email) then u.(email := email, emailVerified := true) else u;
    var u2 := if Given(firstName) then u1.(firstName := firstName) else u1;
    var u3 := if Given(lastName) then u2.(lastName := lastName) else u2;
    (u3, Given(email) || Given(firstName) || Given(lastName))
  }

  /**
   * The attribute rule of `updateUser` for one key: a present key whose list is non-empty is
   * replaced when its first entry is null or differs from `value`; a present key with an empty list
   * is left alone; an absent key is set when `setWhenAbsent`. The flag says whether it was set.
   */
  function AttributeUpdate(attrs: map<string, seq<Option<string>>>, key: string, value: Option<string>, setWhenAbsent: bool):
    (r: (map<string, seq<Option<string>>>, bool))
    ensures r.1 <==> (key in attrs && |attrs[key]| > 0 && (attrs[key][0].None? || attrs[key][0] != value)) ||
                     (key !in attrs && setWhenAbsent)
    ensures r.1 ==> r.0 == attrs[key := [value]]
    ensures !r.1 ==> r.0 == attrs
  {
    if key in attrs then
      var current := attrs[key];
      if |current| > 0 && (current[0].None? || current[0] != value) then (attrs[key := [value]], true) else (attrs, false)
    else if setWhenAbsent then (attrs[key := [value]], true)
    else (attrs, false)
  }

  /**
   * The attribute rules of `updateUser`: permissions (set when absent only if non-null), then the
   * MRN (always set when absent).
   */
  function AttributesUpdate(attrs: map<string, seq<Option<string>>>, userMrn: string, newPermissions: Option<string>):
    (r: (map<string, seq<Option<string>>>, bool))
    ensures r.0.Keys == attrs.Keys + {"mrn"} + (if newPermissions.Some? then {"permissions"} else {})
    ensures "mrn" !in attrs ==> r.1 && r.0["mrn"] == [Some(userMrn)]
    ensures forall k :: k in attrs && k != "mrn" && k != "permissions" ==> r.0[k] == attrs[k]
  {
    var (a1, p) := AttributeUpdate(attrs, "permissions", newPermissions, newPermissions.Some?);
    var (a2, m) := AttributeUpdate(a1, "mrn", Some(userMrn), true);
    (a2, p || m)
  }

  /** The user record and the `updated` flag `updateUser` computes: the field rules, then the attribute rules. */
  function UserUpdate(u: KcUser, userMrn: string, firstName: Option<string>, lastName: Option<string>,
                      email: Option<string>, newPermissions: Option<string>): (r: (KcUser, bool))
    ensures r.1 <==> FieldsUpdate(u, firstName, lastName, email).1 || AttributesUpdate(u.attributes, userMrn, newPermissions).1
    ensures r.0 == FieldsUpdate(u, firstName, lastName, email).0.(attributes := AttributesUpdate(u.attributes, userMrn, newPermissions).0)
  {
    var (u1, f) := FieldsUpdate(u, firstName, lastName, email);
    var (attrs, g) := AttributesUpdate(u1.attributes, userMrn, newPermissions);
    (u1.(attributes := attrs), f || g)
  }

  /**
   * Applying the same update twice leaves the record as the first application left it; the second
   * application still raises the flag for every given field, and for null permissions that were
   * stored as a non-empty list, since a null first entry always counts as a change.
   */
  lemma UserUpdateTwice(u: KcUser, userMrn: string, firstName: Option<string>, lastName: Option<string>,
                        email: Option<string>, newPermissions: Option<string>)
    ensures var once := UserUpdate(u, userMrn, firstName, lastName, email, newPermissions).0;
      var twice := UserUpdate(once, userMrn, firstName, lastName, email, newPermissions);
      twice.0 == once &&
      (twice.1 <==> Given(email) || Given(firstName) || Given(lastName) ||
                    (newPermissions.None? && "permissions" in u.attributes && |u.attributes["permissions"]| > 0))
  {
    var once := UserUpdate(u, userMrn, firstName, lastName, email, newPermissions).0;
    AttributesUpdateTwice(u.attributes, userMrn, newPermissions);
    assert FieldsUpdate(once, firstName, lastName, email).0 == once;
  }

  /** The attribute rules reach a fixed point after one application; see `UserUpdateTwice` for the flag. */
  lemma AttributesUpdateTwice(attrs: map<string, seq<Option<string>>>, userMrn: string, newPermissions: Option<string>)
    ensures var once := AttributesUpdate(attrs, userMrn, newPermissions).0;
      var twice := AttributesUpdate(once, userMrn, newPermissions);
      twice.0 == once &&
      (twice.1 <==> newPermissions.None? && "permissions" in attrs && |attrs["permissions"]| > 0)
  {
    var p1 := AttributeUpdate(attrs, "permissions", newPermissions, newPermissions.Some?);
    var m1 := AttributeUpdate(p1.0, "mrn", Some(userMrn), true);
    var p2 := AttributeUpdate(m1.0, "permissions", newPermissions, newPermissions.Some?);
    assert p2.0 == m1.0;
    var m2 := AttributeUpdate(p2.0, "mrn", Some(userMrn), true);
    assert !m2.1;
  }

  /** The field changes of `updateUser`, one statement per given field, on a local copy. */
  method UpdatedFields(current: KcUser, firstName: Option<string>, lastName: Option<string>, email: Option<string>)
    returns (user: KcUser, updated: bool)
    ensures (user, updated) == FieldsUpdate(current, firstName, lastName, email)
  {
    user := current;
    updated := false;
    if Given(email) {
      user := user.(email := email, emailVerified := true);
      updated := true;
    }
    if Given(firstName) {
      user := user.(firstName := firstName);
      updated := true;
    }
    if Given(lastName) {
      user := user.(lastName := lastName);
      updated := true;
    }
  }

  /** The attribute changes of `updateUser`, made in place on the attribute map. */
  method UpdatedAttributes(current: map<string, seq<Option<string>>>, userMrn: string, newPermissions: Option<string>)
    returns (attr: map<string, seq<Option<string>>>, updated: bool)
    ensures (attr, updated) == AttributesUpdate(current, userMrn, newPermissions)
  {
    attr := current;
    updated := false;
    if "permissions" in attr {
      var oldPermissions := attr["permissions"];
      if |oldPermissions| > 0 && (oldPermissions[0].None? || oldPermissions[0] != newPermissions) {
        attr := attr["permissions" := [newPermissions]];
        updated := true;
      }
    } else if newPermissions.Some? {
      attr := attr["permissions" := [newPermissions]];
      updated := true;
    }
    if "mrn" in attr {
      var oldMrn := attr["mrn"];
      if |oldMrn| > 0 && (oldMrn[0].None? || oldMrn[0] != Some(userMrn)) {
        attr := attr["mrn" := [Some(userMrn)]];
        updated := true;
      }
    } else {
      attr := attr["mrn" := [Some(userMrn)]];
      updated := true;
    }
  }

  /** The record `updateUser` submits and whether it submits it. */
  method UpdatedUser(current: KcUser, userMrn: string, firstName: Option<string>, lastName: Option<string>,
                     email: Option<string>, newPermissions: Option<string>) returns (user: KcUser, updated: bool)
    ensures (user, updated) == UserUpdate(current, userMrn, firstName, lastName, email, newPermissions)
  {
    var changed;
    user, updated := UpdatedFields(current, firstName, lastName, email);
    var attr;
    attr, changed := UpdatedAttributes(user.attributes, userMrn, newPermissions);
    user, updated := user.(attributes := attr), updated || changed;
  }

  /** A one-element set is the set of its element. */
  lemma SingletonSet(s: set<nat>, x: nat)
    requires |s| == 1 && x in s
    ensures s == {x}
  {
    var rest := s - {x};
    assert s == rest + {x};
    assert |rest| == 0;
  }

  class UserRealm {
    var users: map<nat, KcUser>
    var nextUserId: nat
    var calls: seq<UserCall>

    /** Every user id is below the next id to hand out. */
    predicate Valid()
      reads this
    {
      forall id :: id in users ==> id < nextUserId
    }

    constructor ()
      ensures Valid() && users == map[] && calls == []
    {
      users := map[];
      nextUserId := 0;
      calls := [];
    }

    /** The users a search by user name returns: all of them for null, else those whose name contains it. */
    function Search(query: Option<string>): (ids: set<nat>)
      reads this
      ensures ids <= users.Keys
      ensures forall id :: id in users ==>
        (id in ids <==> query.None? || (users[id].username.Some? && Contains(users[id].username.value, query.value)))
    {
      set id | id in users && (query.None? || (users[id].username.Some? && Contains(users[id].username.value, query.value)))
    }

    /**
     * `createUser` up to the creation call: `status` and `errMsg` are the realm's reply. The
     * password reset that follows a successful creation is not modelled.
     */
    method CreateUser(userMrn: string, firstName: Option<string>, lastName: Option<string>, email: Option<string>,
                      orgMrn: string, permissions: Option<string>, enabled: bool, status: int, errMsg: string)
      returns (r: Outcome<KcError>)
      requires Valid()
      modifies this
      ensures Valid()
      ensures calls == old(calls) + [CreateUserCall(NewUser(userMrn, firstName, lastName, email, orgMrn, permissions, enabled))]
      ensures status != 201 ==> r == Fail(IoFailure("User creation failed: " + errMsg)) && users == old(users)
      ensures status == 201 ==>
        r == Pass && old(nextUserId) !in old(users) &&
        users == old(users)[old(nextUserId) := NewUser(userMrn, firstName, lastName, email, orgMrn, permissions, enabled)]
    {
      var user := NewUser(userMrn, firstName, lastName, email, orgMrn, permissions, enabled);
      calls := calls + [CreateUserCall(user)];
      if status != 201 {
        return Fail(IoFailure("User creation failed: " + errMsg));
      }
      users := users[nextUserId := user];
      nextUserId := nextUserId + 1;
      r := Pass;
    }

    /**
     * `updateUser`: the search for `email` must find exactly one user; the record is then changed
     * field by field, and the single update call is made only when the `updated` flag was raised.
     */
    method UpdateUser(userMrn: string, firstName: Option<string>, lastName: Option<string>, email: Option<string>,
                      newPermissions: Option<string>, enabled: bool) returns (r: Outcome<KcError>)
      requires Valid()
      modifies this`users, this`calls
      ensures Valid()
      ensures |old(Search(email))| != 1 ==>
        r == Fail(IoFailure("User update failed! Found " + DecimalString(|old(Search(email))|) +
                            " users while trying to update, expected 1")) &&
        users == old(users) && calls == old(calls)
      ensures forall id :: old(Search(email)) == {id} ==>
        var (u, updated) := UserUpdate(old(users)[id], userMrn, firstName, lastName, email, newPermissions);
        r == Pass &&
        (updated ==> users == old(users)[id := u] && calls == old(calls) + [UpdateUserCall(id, u)]) &&
        (!updated ==> users == old(users) && calls == old(calls))
    {
      var found := Search(email);
      if |found| != 1 {
        return Fail(IoFailure("User update failed! Found " + DecimalString(|found|) + " users while trying to update, expected 1"));
      }
      var id :| id in found;
      SingletonSet(found, id);
      var user, updated := UpdatedUser(users[id], userMrn, firstName, lastName, email, newPermissions);
      if updated {
        users := users[id := user];
        calls := calls + [UpdateUserCall(id, user)];
      }
      r := Pass;
    }

    /** `deleteUser`: remove the first user the search for `email` returns, if there is one. */
    method DeleteUser(email: Option<string>) returns (ghost removed: Option<nat>)
      requires Valid()
      modifies this`users, this`calls
      ensures Valid()
      ensures old(Search(email)) == {} ==> removed == None && users == old(users) && calls == old(calls)
      ensures old(Search(email)) != {} ==>
        removed.Some? && removed.value in old(Search(email)) &&
        users == old(users) - {removed.value} && calls == old(calls) + [RemoveUserCall(removed.value)]
    {
      var found := Search(email);
      removed := None;
      if found != {} {
        var id :| id in found;
        users := users - {id};
        calls := calls + [RemoveUserCall(id)];
        removed := Some(id);
      }
    }
  }
}
