# Identity registry core, modelled in Dafny

This project models the core of the Maritime Cloud identity registry. The registry is a
service that issues identities to organizations and to their users, devices, vessels and
services. The model covers:

- **Maritime Resource Names (MRNs).** `MrnUtil` and its older variant `MrnUtils` build
  entity MRNs, pull the organization, validator, type and id segments out of them, validate
  them against the URN grammar of RFC 2141, and compose Keycloak client names.
- **Identity-broker administration.** This is `KeycloakAdminUtil`:
  - the attribute map of an organization's identity provider (IdP);
  - the checks and configuration resolution in `createIdentityProvider`;
  - the provider descriptor;
  - the update-or-create branch;
  - the mapper list rebuilt by `createIdpMappers`;
  - removing a provider together with its users;
  - creating, updating and deleting project users;
  - the client flags chosen by `createClient` and `updateClient`.

  The remote broker and project-user realms are two classes, `BrokerRealm` and `UserRealm`.
  Each holds its stored entities and the log of calls made on it.
- **Certificates and their owners.** `CertificateModel` binds the certificates in an owner's
  list to that owner and revokes and detaches all of them when the owner is removed. `Service`
  is the concrete owner, with its copy, selective-copy and field-clearing rules. These are
  classes whose methods update fields in place.
- **Organization life cycle.** This is the decision logic of `OrganizationController`: apply,
  approve, update, delete, revoke a certificate, and the certificate-owner accessors. Each
  endpoint is a function from what the stores answer to a reply. The reply holds a status, a
  reason and the ordered list of calls the endpoint made. The user-deletion loop of `deleteOrg`
  is a method.

Modules, one per file:

- `Wrappers`: `Option`, `Result`, `Outcome`.
- `JavaString`: the `java.lang.String` operations the code relies on, with Java's
  index-out-of-bounds failures. These are `indexOf`, `lastIndexOf`, `substring`, `trim`,
  ASCII `toLowerCase`, `contains` and `startsWith`.
- `UrnSyntax`: the character classes and regular expressions of the MRN patterns, written as
  predicates.
- `MrnUtil`, `MrnUtils`, `KeycloakConfig`, `KeycloakRealm`, `Certificates`,
  `OrganizationController`: the core described above.

Behaviour of the code worth noting:

- `MrnUtil.validateMrn` runs the type check of every marker the MRN contains, not only the
  first one. The else-if chain only stops on a failing check.
- `approveOrganization` and `updateOrganization` catch different exceptions around the same
  provider creation (`OrganizationController.FailureRepliesDiffer`).
- `generateMrnForEntity` replaces only URN punctuation in the entity id. Any other character,
  such as a space or a non-ASCII letter, survives, so the MRN it returns can then fail
  `validateMrn` (`UrnSyntax.SanitizedIdIsNss`).
- `revokeOrgCert` dereferences the certificate it looked up, so an unknown certificate id
  fails with an internal error (500), not NOT_FOUND.
- `updateOrganization` deletes the old provider under the body's MRN as given. It creates the
  new provider under the lower-cased MRN.
- The client name `mcl_dma_nw-nm_nw-nm2` for `urn:mrn:mcl:org:dma:service:nw-nm:instance:nw-nm2`
  comes only from the corrected `MrnUtils` helpers (see Findings). The newer
  `MrnUtil.generateClientName` rejects that MRN, and every organization service instance MRN
  like it, with "MRN is not a valid entity MRN!": none of `:user:`, `:device:`, `:vessel:` or
  `:service:instance:` occurs in it, so the organization lookup throws before the service type
  is read (`MrnUtils.NewerClientNameRejectsInstanceMrn`). For the other layout,
  `urn:mrn:mcl:service:instance:<org>:<id>`, it does give a name, and there the service type it
  reads is the organization segment (`MrnUtil.ClientNameRepeatsOrgSegment`).
- `updateUser` raises its "updated" flag whenever an email or name argument is non-blank, even
  when the value is unchanged.
  - It also raises the flag whenever no permissions are given and the stored user has a
    permissions entry. A null first entry, or a null argument compared with any entry, counts
    as a change.
  - The effect: such a user is written back on every call, although a second call computes
    the same record (`KeycloakRealm.UserUpdateTwice`).
  - The `enabled` argument is never used.

## Model

| member | source | states |
|---|---|---|
| MrnUtil.OrgShortNameFromOrgMrn | src/main/java/net/maritimecloud/identityregistry/utils/MrnUtil.java:36-39 | the result is the suffix of the MRN after its last `:`: a colon-free suffix preceded by `:` or equal to the whole input when it has no colon |
| MrnUtil.EntityIdFromMrn | src/main/java/net/maritimecloud/identityregistry/utils/MrnUtil.java:80-83 | the entity id is the same last-colon suffix as the organization short name |
| MrnUtil.LastSegmentUnique | src/main/java/net/maritimecloud/identityregistry/utils/MrnUtil.java:36-39 | any colon-free suffix preceded by `:` (or the whole colon-free string) is the extracted short name |
| MrnUtil.LastSegmentOfJoined | src/main/java/net/maritimecloud/identityregistry/utils/MrnUtil.java:80-83 | after a prefix ending in `:`, a colon-free tail is both the short name and the entity id |
| MrnUtil.OrgShortNameOfOrgMrn | src/main/java/net/maritimecloud/identityregistry/utils/MrnUtil.java:26-39 | `urn:mrn:mcl:org:<name>` gives back `<name>` for any colon-free name |
| MrnUtil.OrgValidatorFromOrgShortname | src/main/java/net/maritimecloud/identityregistry/utils/MrnUtil.java:47-55 | "mcl" without `@`; otherwise exactly the text after the first `@` |
| MrnUtil.FirstContained | src/main/java/net/maritimecloud/identityregistry/utils/MrnUtil.java:59-72 | the index of the first marker, in priority order, that the MRN contains; none before it is contained |
| MrnUtil.FirstContainedIs | src/main/java/net/maritimecloud/identityregistry/utils/MrnUtil.java:59-72 | the marker chosen is the first contained one and no other |
| MrnUtil.OrgShortNameFromEntityMrn | src/main/java/net/maritimecloud/identityregistry/utils/MrnUtil.java:57-78 | with no marker it fails with "MRN is not a valid entity MRN!"; otherwise it succeeds exactly when a `:` follows the marker, and returns the colon-free segment between the marker and that colon |
| MrnUtil.OrgShortNameOfUserMrn | src/main/java/net/maritimecloud/identityregistry/utils/MrnUtil.java:58-60 | the documented example `urn:mrn:mcl:user:dma:jdoe` has short name `dma` |
| MrnUtil.ServiceTypeFromMrn | src/main/java/net/maritimecloud/identityregistry/utils/MrnUtil.java:85-92 | fails unless both `:instance:` and `:service:` occur; otherwise the segment after `:service:instance:` up to the next `:` |
| MrnUtil.ServiceTypeWithoutInstanceMarker | src/main/java/net/maritimecloud/identityregistry/utils/MrnUtil.java:89-91 | when `:service:instance:` itself is absent, the search result -1 makes extraction start at index 17 |
| MrnUtil.ServiceTypeIsOrgSegment | src/main/java/net/maritimecloud/identityregistry/utils/MrnUtil.java:70-71 | for an MRN whose only marker is `:service:instance:`, the service type is the organization segment |
| MrnUtil.GenerateMrnForEntity | src/main/java/net/maritimecloud/identityregistry/utils/MrnUtil.java:94-107 | fails exactly for type "service"; otherwise `orgMrn:type:` followed by the id with each reserved character replaced by `_`, same length |
| MrnUtil.EntityIdOfGeneratedMrn | src/main/java/net/maritimecloud/identityregistry/utils/MrnUtil.java:94-107 | round trip: the entity id of a generated MRN is the sanitised id |
| MrnUtil.FirstFailedCheck | src/main/java/net/maritimecloud/identityregistry/utils/MrnUtil.java:117-125 | the first per-type check the MRN fails, all before it passing |
| MrnUtil.ValidateMrn | src/main/java/net/maritimecloud/identityregistry/utils/MrnUtil.java:109-127 | never returns false; succeeds exactly for non-blank MRNs matching the base and every applicable per-type pattern; each failure carries the message of the check that failed |
| MrnUtil.ValidateMrnRejections | src/main/java/net/maritimecloud/identityregistry/utils/MrnUtil.java:110-118 | the empty MRN, any MRN not starting with `urn:mrn:`, and a `:service:` MRN without `:service:instance:` are rejected |
| MrnUtil.GeneratedMrnIsValid | src/main/java/net/maritimecloud/identityregistry/utils/MrnUtil.java:94-127 | an MRN generated for a user, vessel or device of a plain organization MRN passes validation |
| MrnUtil.JoinedIsValid | src/main/java/net/maritimecloud/identityregistry/utils/MrnUtil.java:109-127 | `orgMrn:type:id` with an NSS id passes every check |
| MrnUtil.GenerateClientName | src/main/java/net/maritimecloud/identityregistry/utils/MrnUtil.java:134-141 | fails with the short-name lookup's error when that fails, otherwise with the service-type lookup's error ("The MRN must belong to a service instance!" or an index out of bounds) when that fails; otherwise validator, short name, service type and entity id joined by `_` |
| MrnUtil.ClientNameRepeatsOrgSegment | src/main/java/net/maritimecloud/identityregistry/utils/MrnUtil.java:134-141 | for a `:service:instance:` MRN the client name repeats the organization segment as the service type |
| UrnSyntax.Sanitize | src/main/java/net/maritimecloud/identityregistry/utils/MrnUtil.java:97 | same length; each reserved or "other" URN character becomes `_`, every other character stays |
| UrnSyntax.SanitizeProperties | src/main/java/net/maritimecloud/identityregistry/utils/MrnUtil.java:95-97 | a sanitised id has no `:` and no `%`, and sanitising is idempotent |
| UrnSyntax.SanitizedIdIsNss | src/main/java/net/maritimecloud/identityregistry/utils/MrnUtil.java:29 | a sanitised id is a run of NSS characters exactly when every character of the id is a letter, a digit or URN punctuation that sanitising replaces; any other character survives and is not an NSS character |
| UrnSyntax.MrnPatternIsUrnPattern | src/main/java/net/maritimecloud/identityregistry/utils/MrnUtil.java:28-29 | every MRN matching the MRN pattern matches the general URN pattern |
| UrnSyntax.LegacyPatternIsMrnPattern | src/main/java/net/maritimecloud/identityregistry/utils/MrnUtils.java:26 | the older pattern (with its NID) is stricter than the MRN pattern |
| MrnUtils.OrgShortNameFromOrgMrnAsWritten | src/main/java/net/maritimecloud/identityregistry/utils/MrnUtils.java:29-32 | fails without a colon; otherwise `:` followed by the last segment |
| MrnUtils.EntityIdFromMrnAsWritten | src/main/java/net/maritimecloud/identityregistry/utils/MrnUtils.java:79-82 | the entity id keeps the leading `:` exactly like the short name |
| MrnUtils.OrgShortNameKeepsColon | src/main/java/net/maritimecloud/identityregistry/utils/MrnUtils.java:29-32 | `urn:mrn:mcl:org:dma` gives `:dma` where the newer helper gives `dma` |
| MrnUtils.OrgValidatorFromOrgMrnAsWritten | src/main/java/net/maritimecloud/identityregistry/utils/MrnUtils.java:40-47 | "mcl" exactly when the last `:` is at index 16; otherwise the segment from index 16 up to the next `:` |
| MrnUtils.OrgValidatorFromOrgMrn | src/main/java/net/maritimecloud/identityregistry/utils/MrnUtils.java:40-47 | corrected: "mcl" when the last `:` ends the `urn:mrn:mcl:org` prefix; otherwise the colon-free validator segment after that prefix |
| MrnUtils.ValidatorOfOrgMrn | src/main/java/net/maritimecloud/identityregistry/utils/MrnUtils.java:40-47 | on `urn:mrn:mcl:org:<org>` the code as written fails and the corrected one gives "mcl"; on `urn:mrn:mcl:org:<validator>:<org>` both give the validator |
| MrnUtils.MarkerIndex | src/main/java/net/maritimecloud/identityregistry/utils/MrnUtils.java:50-59 | -1 exactly when no marker occurs; otherwise the first occurrence of the highest-priority marker present, which starts with `:` |
| MrnUtils.OrgShortNameFromEntityMrnAsWritten | src/main/java/net/maritimecloud/identityregistry/utils/MrnUtils.java:49-62 | fails without a marker; with one it always returns the empty string |
| MrnUtils.OrgShortNameFromEntityMrn | src/main/java/net/maritimecloud/identityregistry/utils/MrnUtils.java:49-62 | corrected: the colon-free segment right before the marker |
| MrnUtils.OrgMrnEntityMrn | src/main/java/net/maritimecloud/identityregistry/utils/MrnUtils.java:64-77 | fails without a marker; otherwise the prefix before the chosen marker |
| MrnUtils.ServiceTypeFromMrn | src/main/java/net/maritimecloud/identityregistry/utils/MrnUtils.java:84-88 | with `:service:` it succeeds exactly when a `:` follows the first `:service:`, giving the colon-free segment in between; without `:service:` the search result -1 makes extraction start at index 8; every failure is an index out of bounds |
| MrnUtils.ValidateMrn | src/main/java/net/maritimecloud/identityregistry/utils/MrnUtils.java:105-111 | true exactly for a non-null MRN matching the older pattern, never an exception; every accepted MRN also matches the MRN and URN patterns |
| MrnUtils.GenerateClientNameAsWritten | src/main/java/net/maritimecloud/identityregistry/utils/MrnUtils.java:118-126 | fails (index out of bounds) when the MRN has no marker; with one it succeeds exactly when the validator and the service type can be read; the name is then `<validator>__<type>_:<id>`: the short name always empty and the id keeping its `:` |
| MrnUtils.GenerateClientName | src/main/java/net/maritimecloud/identityregistry/utils/MrnUtils.java:118-126 | the parts joined by `_`, each computed by the corrected helpers |
| MrnUtils.ClientNameOfParts | src/main/java/net/maritimecloud/identityregistry/utils/MrnUtils.java:118-126 | with the parts known, the client name is their `_`-join |
| MrnUtils.GeneratedMrnRoundTrip | src/main/java/net/maritimecloud/identityregistry/utils/MrnUtils.java:64-103 | the organization MRN, its short name and the sanitised id are recovered from a generated user, device or vessel MRN |
| MrnUtils.ClientNameOfInstanceMrn | src/main/java/net/maritimecloud/identityregistry/utils/MrnUtils.java:118-126 | on `urn:mrn:mcl:org:<org>:service:<type>:instance:<id>` the code as written fails and the corrected one gives `mcl_<org>_<type>_<id>` |
| MrnUtils.NewerClientNameRejectsInstanceMrn | src/main/java/net/maritimecloud/identityregistry/utils/MrnUtil.java:134-141 | the newer `generateClientName` fails with "MRN is not a valid entity MRN!" on every organization service instance MRN whose type is neither `service` nor `instance` |
| MrnUtils.ClientNameAsWrittenFails | src/main/java/net/maritimecloud/identityregistry/utils/MrnUtils.java:42-46 | every such service instance MRN makes the code as written fail |
| MrnUtils.OrgPartsOfInstanceMrn | src/main/java/net/maritimecloud/identityregistry/utils/MrnUtils.java:49-77 | the organization MRN and short name of a service instance MRN; the code as written gives an empty short name |
| MrnUtils.ServicePartsOfInstanceMrn | src/main/java/net/maritimecloud/identityregistry/utils/MrnUtils.java:79-88 | the service type and the instance id of a service instance MRN |
| KeycloakConfig.AttributeMap | src/main/java/net/maritimecloud/identityregistry/utils/KeycloakAdminUtil.java:164-172 | the keys are exactly the attribute names |
| KeycloakConfig.IdpAttributesToMap | src/main/java/net/maritimecloud/identityregistry/utils/KeycloakAdminUtil.java:164-172 | the loop fills the map the function describes |
| KeycloakConfig.LastValueWins | src/main/java/net/maritimecloud/identityregistry/utils/KeycloakAdminUtil.java:164-172 | each name maps to the value of its last attribute |
| KeycloakConfig.ProviderTypeOf | src/main/java/net/maritimecloud/identityregistry/utils/KeycloakAdminUtil.java:185-191 | missing or empty type rejected with "Missing providerType", any other than oidc/saml with the illegal-type message |
| KeycloakConfig.BaseConfig | src/main/java/net/maritimecloud/identityregistry/utils/KeycloakAdminUtil.java:158-160 | with `importUrl` the imported map, failing with an I/O error when null or empty; otherwise the attributes without `providerType` |
| KeycloakConfig.ResolveConfig | src/main/java/net/maritimecloud/identityregistry/utils/KeycloakAdminUtil.java:193-213 | for oidc, missing clientId or clientSecret rejected in that order, otherwise both written into the base config and nothing else changed |
| KeycloakConfig.ConfigWithoutImport | src/main/java/net/maritimecloud/identityregistry/utils/KeycloakAdminUtil.java:193-213 | without import the configuration is the attribute map minus `providerType` |
| KeycloakConfig.ResolveIdentityProvider | src/main/java/net/maritimecloud/identityregistry/utils/KeycloakAdminUtil.java:181-223 | fails as the checks fail; otherwise alias = org short name, providerId = providerType, enabled, trustEmail, no token storage, the "Auto first broker login" flow |
| KeycloakConfig.DefaultsFor | src/main/java/net/maritimecloud/identityregistry/utils/KeycloakAdminUtil.java:87-109 | oidc has only a permissions default, saml has all four |
| KeycloakConfig.AttrValue | src/main/java/net/maritimecloud/identityregistry/utils/KeycloakAdminUtil.java:287-314 | the explicit attribute value, or failing that the provider default |
| KeycloakConfig.ConfKey | src/main/java/net/maritimecloud/identityregistry/utils/KeycloakAdminUtil.java:289-293 | `claim` for oidc, `attribute.name` otherwise |
| KeycloakConfig.UsernameMapper | src/main/java/net/maritimecloud/identityregistry/utils/KeycloakAdminUtil.java:267-283 | template `urn:mrn:mcl:user:${ALIAS}:${...}` with the username claim for oidc or the SAML attribute (default NAMEID) |
| KeycloakConfig.AttributeMappers | src/main/java/net/maritimecloud/identityregistry/utils/KeycloakAdminUtil.java:287-314 | at most one user-attribute mapper per key, each for the provider's alias and type |
| KeycloakConfig.MapperForValue | src/main/java/net/maritimecloud/identityregistry/utils/KeycloakAdminUtil.java:287-314 | every key with a value gets its mapper |
| KeycloakConfig.ValueForMapper | src/main/java/net/maritimecloud/identityregistry/utils/KeycloakAdminUtil.java:287-314 | every attribute mapper comes from a key with a value |
| KeycloakConfig.IdpMappers | src/main/java/net/maritimecloud/identityregistry/utils/KeycloakAdminUtil.java:246-315 | org mapper (attribute `org` = org MRN) first, username mapper second, then up to four attribute mappers, all for the alias |
| KeycloakConfig.AttributeMapperIffValue | src/main/java/net/maritimecloud/identityregistry/utils/KeycloakAdminUtil.java:287-314 | a named attribute mapper is present exactly when the explicit or default value exists |
| KeycloakConfig.MapperNameInjective | src/main/java/net/maritimecloud/identityregistry/utils/KeycloakAdminUtil.java:103-109 | distinct attributes give distinct mapper names |
| KeycloakConfig.OrgMapper | src/main/java/net/maritimecloud/identityregistry/utils/KeycloakAdminUtil.java:255-264 | a hard-coded mapper of the provider that sets the broker attribute `org` to the organization MRN, and nothing else |
| KeycloakConfig.OidcDefaultMappers | src/main/java/net/maritimecloud/identityregistry/utils/KeycloakAdminUtil.java:87-94 | an oidc provider without attribute names gets only the permissions mapper |
| KeycloakConfig.SamlDefaultMappers | src/main/java/net/maritimecloud/identityregistry/utils/KeycloakAdminUtil.java:95-102 | a saml provider without attribute names gets six mappers; after the organization and username mappers come the first name, last name, email and permissions mappers, in the model's fixed order (see `KeycloakConfig.AttributeMappers` under Left out), each reading its standard SAML claim URI (`SamlStandardMappers`) |
| KeycloakConfig.OptMapper | src/main/java/net/maritimecloud/identityregistry/utils/KeycloakAdminUtil.java:287-314 | one mapper exactly when a value exists |
| KeycloakConfig.FlagsForAccessType | src/main/java/net/maritimecloud/identityregistry/utils/KeycloakAdminUtil.java:494-504 | public client exactly for "public", bearer-only exactly for "bearer-only", never both |
| KeycloakConfig.NewClient | src/main/java/net/maritimecloud/identityregistry/utils/KeycloakAdminUtil.java:483-504 | client-secret authenticator, the one redirect URI, openid-connect, enabled, no consent, no direct grants, flags of the type |
| KeycloakConfig.UpdatedClientAsWritten | src/main/java/net/maritimecloud/identityregistry/utils/KeycloakAdminUtil.java:525-539 | the code as written stores the access type as authenticator type |
| KeycloakConfig.UpdatedClient | src/main/java/net/maritimecloud/identityregistry/utils/KeycloakAdminUtil.java:525-539 | corrected: only redirect URIs and flags change |
| KeycloakConfig.UpdateMatchesCreate | src/main/java/net/maritimecloud/identityregistry/utils/KeycloakAdminUtil.java:483-539 | updating a created client gives the client created with the new values; the code as written does not, for any access type |
| KeycloakConfig.ReturnedSecret | src/main/java/net/maritimecloud/identityregistry/utils/KeycloakAdminUtil.java:507-514 | empty for public clients, the secret otherwise |
| Certificates.AcceptedAccessTypeFlags | src/main/java/net/maritimecloud/identityregistry/model/database/entities/Service.java:42-45 | the three accepted access types get pairwise distinct flags; confidential sets neither |
| KeycloakRealm.MapperList | src/main/java/net/maritimecloud/identityregistry/utils/KeycloakAdminUtil.java:251-253 | the mappers of stored entries, in order |
| KeycloakRealm.Stored | src/main/java/net/maritimecloud/identityregistry/utils/KeycloakAdminUtil.java:255-314 | added mappers get consecutive fresh ids in order |
| KeycloakRealm.StoredMapperList | src/main/java/net/maritimecloud/identityregistry/utils/KeycloakAdminUtil.java:255-314 | the stored list gives back the added mappers |
| KeycloakRealm.UsersWithoutPrefix | src/main/java/net/maritimecloud/identityregistry/utils/KeycloakAdminUtil.java:322-333 | exactly the users whose name does not start with the prefix, unchanged |
| KeycloakRealm.UsersWithPrefix | src/main/java/net/maritimecloud/identityregistry/utils/KeycloakAdminUtil.java:322-333 | exactly the users whose name starts with the prefix |
| KeycloakRealm.KeptUsers | src/main/java/net/maritimecloud/identityregistry/utils/KeycloakAdminUtil.java:322-333 | removing the prefixed users leaves the others |
| KeycloakRealm.BrokerRealm.Search | src/main/java/net/maritimecloud/identityregistry/utils/KeycloakAdminUtil.java:324 | the users whose name contains the query |
| KeycloakRealm.BrokerRealm.CreateIdentityProvider | src/main/java/net/maritimecloud/identityregistry/utils/KeycloakAdminUtil.java:181-244 | a rejected input changes nothing; a new provider refused by the broker is an I/O failure after the create call; otherwise the provider is stored, updated or created, and its mappers are replaced, with the calls in order |
| KeycloakRealm.BrokerRealm.InstallProvider | src/main/java/net/maritimecloud/identityregistry/utils/KeycloakAdminUtil.java:225-243 | a new provider refused by the broker (status other than 201) is an I/O failure after the create call, with providers and mappers unchanged; otherwise the provider is stored, its old mappers are deleted and `IdpMappers` added under fresh ids, with the update or create call first |
| KeycloakRealm.BrokerRealm.RegisterProvider | src/main/java/net/maritimecloud/identityregistry/utils/KeycloakAdminUtil.java:225-240 | an existing alias is updated; a new one created, failing with "Could not create IDP" unless status 201 |
| KeycloakRealm.BrokerRealm.CreateIdpMappers | src/main/java/net/maritimecloud/identityregistry/utils/KeycloakAdminUtil.java:246-315 | every old mapper deleted, then exactly the mapper list added, in order |
| KeycloakRealm.BrokerRealm.ReplaceMappers | src/main/java/net/maritimecloud/identityregistry/utils/KeycloakAdminUtil.java:251-314 | deletes then adds, ids advancing by the number added |
| KeycloakRealm.BrokerRealm.DeleteMappers | src/main/java/net/maritimecloud/identityregistry/utils/KeycloakAdminUtil.java:251-253 | one delete call per stored mapper; none remain |
| KeycloakRealm.BrokerRealm.AddMappers | src/main/java/net/maritimecloud/identityregistry/utils/KeycloakAdminUtil.java:255-314 | one add call per mapper, stored in order |
| KeycloakRealm.BrokerRealm.DeleteIdentityProvider | src/main/java/net/maritimecloud/identityregistry/utils/KeycloakAdminUtil.java:322-333 | exactly the users named `<orgMrn>:user:...` are removed, each once, before the provider and its mappers |
| KeycloakRealm.BrokerRealm.RemovePrefixedUsers | src/main/java/net/maritimecloud/identityregistry/utils/KeycloakAdminUtil.java:324-330 | the loop removes each prefixed user once and keeps all others |
| KeycloakRealm.RemoveMatching | src/main/java/net/maritimecloud/identityregistry/utils/KeycloakAdminUtil.java:324-330 | over the search result, the loop removes exactly the users whose name starts with the prefix, each once, logging one removal per user |
| KeycloakRealm.UpdatedUser | src/main/java/net/maritimecloud/identityregistry/utils/KeycloakAdminUtil.java:409-454 | the field updates then the attribute updates compute the specified record and flag |
| KeycloakRealm.NewUser | src/main/java/net/maritimecloud/identityregistry/utils/KeycloakAdminUtil.java:349-366 | username = email; blank fields unset; email verified when given; org, mrn and permissions attributes |
| KeycloakRealm.FieldsUpdate | src/main/java/net/maritimecloud/identityregistry/utils/KeycloakAdminUtil.java:409-421 | each non-blank field replaces the stored one; the flag rises exactly when one is given |
| KeycloakRealm.AttributeUpdate | src/main/java/net/maritimecloud/identityregistry/utils/KeycloakAdminUtil.java:422-454 | an attribute is rewritten exactly when its first value is null or differs, or when it is absent and may be added |
| KeycloakRealm.AttributesUpdate | src/main/java/net/maritimecloud/identityregistry/utils/KeycloakAdminUtil.java:422-454 | mrn always present afterwards, permissions when given; other attributes unchanged |
| KeycloakRealm.UserUpdate | src/main/java/net/maritimecloud/identityregistry/utils/KeycloakAdminUtil.java:409-454 | fields and attributes updated together; flag is the disjunction |
| KeycloakRealm.UserUpdateTwice | src/main/java/net/maritimecloud/identityregistry/utils/KeycloakAdminUtil.java:409-454 | a second identical update computes the same record, yet raises the flag again for given fields or absent permissions over a stored permissions entry |
| KeycloakRealm.AttributesUpdateTwice | src/main/java/net/maritimecloud/identityregistry/utils/KeycloakAdminUtil.java:422-454 | attribute update is a fixed point; its flag on a second call |
| KeycloakRealm.UpdatedFields | src/main/java/net/maritimecloud/identityregistry/utils/KeycloakAdminUtil.java:409-421 | the step-by-step field update computes the specified record and flag |
| KeycloakRealm.UpdatedAttributes | src/main/java/net/maritimecloud/identityregistry/utils/KeycloakAdminUtil.java:422-454 | the step-by-step attribute update computes the specified map and flag |
| KeycloakRealm.UserRealm.Search | src/main/java/net/maritimecloud/identityregistry/utils/KeycloakAdminUtil.java:403 | the users whose name contains the query; every user for a null query |
| KeycloakRealm.UserRealm.CreateUser | src/main/java/net/maritimecloud/identityregistry/utils/KeycloakAdminUtil.java:346-375 | the create call with the new user; stored under a fresh id on 201, otherwise "User creation failed: " + message and nothing stored |
| KeycloakRealm.UserRealm.UpdateUser | src/main/java/net/maritimecloud/identityregistry/utils/KeycloakAdminUtil.java:401-458 | fails with the found count unless exactly one user matches; otherwise writes the updated record, with one update call, exactly when the flag rises |
| KeycloakRealm.UserRealm.DeleteUser | src/main/java/net/maritimecloud/identityregistry/utils/KeycloakAdminUtil.java:465-472 | nothing when no user matches; otherwise exactly one matching user removed |
| Certificates.Service.AssignToCert | src/main/java/net/maritimecloud/identityregistry/model/database/entities/Service.java:94-96 | the certificate's service becomes this one; nothing else about it changes |
| Certificates.Service.SetChildIds | src/main/java/net/maritimecloud/identityregistry/model/database/CertificateModel.java:28-36 | every listed certificate bound to this owner, all other certificate fields unchanged; a null list left alone |
| Certificates.Service.PreRemove | src/main/java/net/maritimecloud/identityregistry/model/database/CertificateModel.java:38-59 | every listed certificate revoked for cessation of operation, revocation time and end both the one `now`, all five owner references cleared |
| Certificates.Service.CopyTo | src/main/java/net/maritimecloud/identityregistry/model/database/entities/Service.java:69-81 | the five fields copied; a NullPointerException exactly when the target's list is null or (another service) this service's list is null, after which the target's list is left null or cleared; otherwise the target's list holds this service's certificates in order, each bound to the target; onto itself the list ends empty |
| Certificates.Service.SelectiveCopyTo | src/main/java/net/maritimecloud/identityregistry/model/database/entities/Service.java:83-92 | access type, redirect URI and domain name copied; client id, secret and list kept; certificates bound to the target |
| Certificates.Service.HasSensitiveFields | src/main/java/net/maritimecloud/identityregistry/model/database/entities/Service.java:98-100 | always true |
| Certificates.Service.ClearSensitiveFields | src/main/java/net/maritimecloud/identityregistry/model/database/entities/Service.java:102-107 | the four client fields nulled; domain name and certificates unchanged |
| OrganizationController.StatusCode | src/main/java/net/maritimecloud/identityregistry/controllers/OrganizationController.java:117 | 200 exactly for success, an error code otherwise |
| OrganizationController.IdpFailureOf | src/main/java/net/maritimecloud/identityregistry/controllers/OrganizationController.java:157-163 | an I/O failure of the broker model is an IOException, a rejected attribute list the unchecked IllegalArgumentException |
| OrganizationController.Application | src/main/java/net/maritimecloud/identityregistry/controllers/OrganizationController.java:105-106 | MRN trimmed and lower-cased, approved false, other fields kept |
| OrganizationController.ApplicationMrnNormal | src/main/java/net/maritimecloud/identityregistry/controllers/OrganizationController.java:104-105 | the stored MRN is lower case with no surrounding blanks |
| OrganizationController.ApplicationIdempotent | src/main/java/net/maritimecloud/identityregistry/controllers/OrganizationController.java:105-106 | normalizing a stored application changes nothing |
| OrganizationController.ApplyOrganization | src/main/java/net/maritimecloud/identityregistry/controllers/OrganizationController.java:102-118 | the normalized application is saved first; a refused save is BAD_REQUEST with its cause and no mail; otherwise both mails follow, in order |
| OrganizationController.ApproveFailureReply | src/main/java/net/maritimecloud/identityregistry/controllers/OrganizationController.java:157-163 | on approval a malformed URL is BAD_REQUEST invalid URL and any other IOException BAD_REQUEST no data, each reason iff its failure; the unchecked exceptions escape as 500, exactly the uncaught replies |
| OrganizationController.UpdateFailureReply | src/main/java/net/maritimecloud/identityregistry/controllers/OrganizationController.java:230-236 | on update a broker error status is BAD_REQUEST invalid URL and every IOException (a malformed URL included) BAD_REQUEST no data, each reason iff its failure; only a rejected attribute list escapes as 500 uncaught |
| OrganizationController.ApproveOrganization | src/main/java/net/maritimecloud/identityregistry/controllers/OrganizationController.java:146-169 | NOT_FOUND; BAD_REQUEST when already approved, no call; the provider is created only for non-empty attributes; the approved organization is saved only when that succeeds |
| OrganizationController.ApprovalIsOneWay | src/main/java/net/maritimecloud/identityregistry/controllers/OrganizationController.java:151-168 | anything approval saves is the stored organization approved, and approving it again is refused without a call |
| OrganizationController.UpdateIdpPlan | src/main/java/net/maritimecloud/identityregistry/controllers/OrganizationController.java:223-241 | new and old with different lists: delete then create; new only or equal lists: create; old only: delete; neither: nothing |
| OrganizationController.UpdateOrganization | src/main/java/net/maritimecloud/identityregistry/controllers/OrganizationController.java:214-248 | NOT_FOUND exactly for an unknown organization; BAD_REQUEST on MRN mismatch with no call; the provider plan, then the save unless creation failed |
| OrganizationController.FailureRepliesDiffer | src/main/java/net/maritimecloud/identityregistry/controllers/OrganizationController.java:157-163 | the same broker failure gets a different reply from approval and from update |
| OrganizationController.UpdateDeletesBeforeCreate | src/main/java/net/maritimecloud/identityregistry/controllers/OrganizationController.java:223-241 | at most one delete before at most one create; a create exactly when new attributes are given |
| OrganizationController.Cascade | src/main/java/net/maritimecloud/identityregistry/controllers/OrganizationController.java:274-279 | six store deletions ending with the organization, none of them realm calls |
| OrganizationController.UserDeletions | src/main/java/net/maritimecloud/identityregistry/controllers/OrganizationController.java:268-272 | one project-user deletion per user, in order |
| OrganizationController.DeletePlan | src/main/java/net/maritimecloud/identityregistry/controllers/OrganizationController.java:260-284 | the provider deletion or the user deletions, then the cascade |
| OrganizationController.DeleteOrg | src/main/java/net/maritimecloud/identityregistry/controllers/OrganizationController.java:260-284 | NOT_FOUND for an unknown organization; otherwise the loop issues exactly the deletion plan |
| OrganizationController.DeleteOrder | src/main/java/net/maritimecloud/identityregistry/controllers/OrganizationController.java:264-279 | provider or users, never both, all before any store deletion, the organization last |
| OrganizationController.RevokeOrgCert | src/main/java/net/maritimecloud/identityregistry/controllers/OrganizationController.java:318-331 | revoked exactly when the certificate's organization is this one; otherwise, with no call, NOT_FOUND for an unknown organization, an uncaught 500 for an unknown certificate, and FORBIDDEN for another owner's certificate |
| OrganizationController.CertificateSubject | src/main/java/net/maritimecloud/identityregistry/controllers/OrganizationController.java:333-351 | the organization's name, its MRN as uid and its email; no extra attributes (null) |
| OrganizationController.SubjectOfApplication | src/main/java/net/maritimecloud/identityregistry/controllers/OrganizationController.java:339-341 | an applied organization's certificate uid is its normalized, lower-case MRN |

## Left out

- Remote calls and I/O are not modelled as code. This covers the HTTP and Keycloak client
  sessions, `getFromKeycloak`, `getContent`, the client-descriptor exports and secret
  retrieval. Their answers are parameters: the import result, the create status, the user
  store's list of emails, and how a provider creation ended.
- The `importFrom` fetch of `getIdpSetupUrl` is a parameter (`imported`). The broker model
  reports every fetch failure as an I/O failure; the controller's `IdpFailure` also names a
  malformed URL and an error status of the broker, which only the controller tells apart.
- Password reset in `createUser` is left out. It happens after the user is stored and
  returns nothing to the model.
- Mail sending (`EmailUtil`) is modelled only as the two mail calls in the reply of
  `applyOrganization`.
- Persistence, `@PreAuthorize` role checks and request validation are left out.
  - The stores are represented by what they return and by the ordered calls made on them.
  - `revokeCertificate` of the shared base controller is one call, `RevokeCertificate`.
- `super.copyTo` and `super.selectiveCopyTo` of the owner base class are not part of this
  model. Only the fields `Service` itself copies are modelled.
- Only the `Service` owner of `CertificateModel` is modelled. The organization, device, user
  and vessel owners bind their certificates the same way.
- Calendar and time-zone arithmetic are left out; `now` is a parameter of `PreRemove`.
- `OrganizationController.UpdateOrganization`: does not model the comparison of the old and
  new attribute lists. That comparison lives in a class that is not part of this model, so
  its answer is the parameter `sameAttributes`.
- `OrganizationController.UpdateOrganization`: `Organization.selectiveCopyTo` is not part of
  this model, so the saved organization is the stored one, without the copied fields.
- `OrganizationController.RevokeOrgCert`: compares organization ids as values. The
  certificate owner is represented by its id.
- `KeycloakRealm.BrokerRealm.Search`, `KeycloakRealm.UserRealm.Search`: the order of search
  results is not modelled (they are sets).
  - `DeleteUser` removes one matching user, not a specific one.
  - The removal order of `DeleteIdentityProvider` is an unspecified sequence of the matching
    users, returned as a ghost value.
- `KeycloakConfig.AttributeMappers`: the optional mappers come from a hash map whose iteration
  order Java leaves unspecified. The model fixes the order as first name, last name, email,
  permissions.
- `KeycloakConfig.AttrValue`: a provider attribute whose value is null cannot be represented.
  Attribute values are plain strings. In `createIdpMappers`, `getOrDefault` returns a stored null, not
  the default, so that attribute gets no mapper (KeycloakAdminUtil.java:299-303). A stored
  null `usernameAttr` also reaches the username template (KeycloakAdminUtil.java:276, 280).
- `KeycloakRealm.UserRealm.UpdateUser`: a user whose attribute map is null is not represented.
  `updateUser` throws a NullPointerException on such a user at
  KeycloakAdminUtil.java:423.
- `JavaString.ToLower`: lower-cases ASCII letters only; Java's locale-dependent
  `toLowerCase` also folds other alphabets.
- The `java.util.regex` engine is not modelled. The patterns are written as predicates over
  the characters they accept; case-insensitive matching is modelled for the `urn:mrn:`
  prefix and the type markers.
- Certificates are modelled with the fields `preRemove` and `setChildIds` touch. Serial
  numbers, certificate bodies and the other certificate fields are left out.
- Aliasing between the certificate lists of different services is not modelled beyond
  `CopyTo` onto itself.
- `Certificates.Service.SetChildIds`, `Certificates.Service.PreRemove`: a certificate listed
  twice is handled, but a list shared with another owner is not modelled.

## Findings

| source | as written | input that shows it | evidently intended | confidence | as-written member | corrected member |
|---|---|---|---|---|---|---|
| src/main/java/net/maritimecloud/identityregistry/utils/MrnUtils.java:29-32 | `substring(lastIndexOf(":"))` keeps the colon | `urn:mrn:mcl:org:dma` gives `:dma` | `dma`, as in the newer `MrnUtil` | not executed | MrnUtils.OrgShortNameKeepsColon | MrnUtil.OrgShortNameFromOrgMrn |
| src/main/java/net/maritimecloud/identityregistry/utils/MrnUtils.java:60-61 | the backward search for `:` starts on the marker's own colon, so the result is always empty | `urn:mrn:mcl:org:dma:service:nw-nm:instance:nw-nm2` gives `""` | the segment before the marker, `dma` | not executed | MrnUtils.OrgShortNameFromEntityMrnAsWritten | MrnUtils.OrgShortNameFromEntityMrn |
| src/main/java/net/maritimecloud/identityregistry/utils/MrnUtils.java:42-46 | compares the last colon with index 16 instead of 15 | `urn:mrn:mcl:org:dma` (last colon at 15) is out of bounds instead of "mcl" | "mcl" for an organization validated by Maritime Cloud | not executed | MrnUtils.ValidatorOfOrgMrn | MrnUtils.OrgValidatorFromOrgMrn |
| src/main/java/net/maritimecloud/identityregistry/utils/MrnUtils.java:118-126 | every service instance MRN of a Maritime Cloud organization throws | `urn:mrn:mcl:org:dma:service:nw-nm:instance:nw-nm2` | `mcl_dma_nw-nm_nw-nm2` | not executed | MrnUtils.ClientNameAsWrittenFails | MrnUtils.ClientNameOfInstanceMrn |
| src/main/java/net/maritimecloud/identityregistry/utils/KeycloakAdminUtil.java:527 | `updateClient` stores the access type as the client authenticator type | updating a client to "confidential" sets authenticator "confidential" | keep "client-secret", as `createClient` sets it | not executed | KeycloakConfig.UpdatedClientAsWritten | KeycloakConfig.UpdatedClient |
