/**
 * The pure decisions of the identity-broker administration: the attribute map of an identity
 * provider, the checks and configuration resolution of `createIdentityProvider`, the provider
 * descriptor, the mapper list of `createIdpMappers` and the client flags of
 * `createClient`/`updateClient`. The remote realms that these plans are applied to are in
 * `KeycloakRealm`.
 */
module KeycloakConfig {
  import opened Wrappers
  import opened JavaString
  import MrnUtil

  /** One name/value pair describing an organization's identity provider. */
  datatype IdpAttribute = IdpAttribute(name: string, value: string)

  type AttrMap = map<string, string>

  /** The exceptions the administration utility throws. */
  datatype KcError = InvalidArgument(message: string) | IoFailure(message: string)

  const MissingProviderType: string := "Missing providerType"
  const IllegalProviderType: string := "Illegal providerType, must be \"oidc\" or \"saml\""
  const MissingClientId: string := "Missing clientId"
  const MissingClientSecret: string := "Missing clientSecret"
  const ImportFailed: string := "Could not find needed information using the provided URL!"
  const FirstBrokerLoginFlow: string := "Auto first broker login"

  // ---------------------------------------------------------------------------------------------
  // Attribute list to map

  /** The map of an attribute list: every name is a key, and a later pair overwrites an earlier one. */
  function AttributeMap(input: seq<IdpAttribute>): (m: AttrMap)
    ensures m.Keys == set a | a in input :: a.name
  {
    if input == [] then map[]
    else
      var init := input[..|input| - 1];
      var last := input[|input| - 1];
      assert input == init + [last];
      AttributeMap(init)[last.name := last.value]
  }

  /** `idpAttributes2Map`: one `put` per attribute, in list order. */
  method IdpAttributesToMap(input: seq<IdpAttribute>) returns (m: AttrMap)
    ensures m == AttributeMap(input)
  {
    m := map[];
    for i := 0 to |input|
      invariant m == AttributeMap(input[..i])
    {
      assert input[..i + 1][..i] == input[..i];
      m := m[input[i].name := input[i].value];
    }
    assert input[..|input|] == input;
  }

  /** A name maps to the value of the last attribute that carries it. */
  lemma {:induction false} LastValueWins(input: seq<IdpAttribute>, i: nat)
    requires i < |input|
    requires forall j :: i < j < |input| ==> input[j].name != input[i].name
    ensures AttributeMap(input)[input[i].name] == input[i].value
    decreases |input|
  {
    var init := input[..|input| - 1];
    if i < |input| - 1 {
      assert input[i] == init[i];
      LastValueWins(init, i);
    }
  }

  // ---------------------------------------------------------------------------------------------
  // Provider type and configuration

  /** The checked `providerType`: present, non-empty, and "oidc" or "saml". */
  function ProviderTypeOf(attrs: AttrMap): (r: Result<string, KcError>)
    ensures r.Success? <==> "providerType" in attrs && (attrs["providerType"] == "oidc" || attrs["providerType"] == "saml")
    ensures r.Success? ==> r.value == attrs["providerType"]
    ensures r == Failure(InvalidArgument(MissingProviderType)) <==> "providerType" !in attrs || attrs["providerType"] == ""
    ensures r.Failure? && r != Failure(InvalidArgument(MissingProviderType)) ==> r == Failure(InvalidArgument(IllegalProviderType))
  {
    if "providerType" !in attrs || attrs["providerType"] == "" then Failure(InvalidArgument(MissingProviderType))
    else if attrs["providerType"] != "oidc" && attrs["providerType"] != "saml" then Failure(InvalidArgument(IllegalProviderType))
    else Success(attrs["providerType"])
  }

  /** Whether the attribute map holds a non-empty value for `key`. */
  predicate HasValue(attrs: AttrMap, key: string) {
    key in attrs && attrs[key] != ""
  }

  /**
   * The base configuration: what the broker's import returns for `importUrl` when that attribute is
   * given (`imported`, None standing for null), otherwise the attributes without `providerType`.
   */
  function BaseConfig(attrs: AttrMap, imported: Option<map<string, string>>): (r: Result<map<string, string>, KcError>)
    ensures "importUrl" in attrs ==>
      (r.Failure? <==> imported.None? || imported.value == map[]) &&
      (r.Failure? ==> r.error == IoFailure(ImportFailed)) &&
      (r.Success? ==> r.value == imported.value)
    ensures "importUrl" !in attrs ==>
      r.Success? && r.value.Keys == attrs.Keys - {"providerType"} &&
      (forall k :: k in r.value ==> r.value[k] == attrs[k])
  {
    if "importUrl" in attrs then
      if imported.None? || imported.value == map[] then Failure(IoFailure(ImportFailed))
      else Success(imported.value)
    else Success(attrs - {"providerType"})
  }

  /**
   * The provider configuration: the base configuration, to which an oidc provider adds its
   * `clientId` and `clientSecret`, both required non-empty.
   */
  function ResolveConfig(attrs: AttrMap, providerType: string, imported: Option<map<string, string>>): (r: Result<map<string, string>, KcError>)
    ensures BaseConfig(attrs, imported).Failure? ==> r == Failure(BaseConfig(attrs, imported).error)
    ensures providerType != "oidc" ==> r == BaseConfig(attrs, imported)
    ensures providerType == "oidc" && BaseConfig(attrs, imported).Success? ==>
      (!HasValue(attrs, "clientId") ==> r == Failure(InvalidArgument(MissingClientId))) &&
      (HasValue(attrs, "clientId") && !HasValue(attrs, "clientSecret") ==> r == Failure(InvalidArgument(MissingClientSecret))) &&
      (HasValue(attrs, "clientId") && HasValue(attrs, "clientSecret") ==> r.Success?)
    ensures r.Success? && providerType == "oidc" ==>
      r.value.Keys == BaseConfig(attrs, imported).value.Keys + {"clientId", "clientSecret"} &&
      r.value["clientId"] == attrs["clientId"] && r.value["clientSecret"] == attrs["clientSecret"] &&
      forall k :: k in r.value && k != "clientId" && k != "clientSecret" ==> r.value[k] == BaseConfig(attrs, imported).value[k]
  {
    var conf :- BaseConfig(attrs, imported);
    if providerType == "oidc" then
      if !HasValue(attrs, "clientId") then Failure(InvalidArgument(MissingClientId))
      else if !HasValue(attrs, "clientSecret") then Failure(InvalidArgument(MissingClientSecret))
      else Success(conf["clientId" := attrs["clientId"]]["clientSecret" := attrs["clientSecret"]])
    else Success(conf)
  }

  /** Without `importUrl` the configuration is the attribute map minus `providerType`, for both provider types. */
  lemma ConfigWithoutImport(attrs: AttrMap, imported: Option<map<string, string>>)
    requires "importUrl" !in attrs
    requires ProviderTypeOf(attrs).Success?
    requires ProviderTypeOf(attrs).value == "oidc" ==> HasValue(attrs, "clientId") && HasValue(attrs, "clientSecret")
    ensures ResolveConfig(attrs, ProviderTypeOf(attrs).value, imported) == Success(attrs - {"providerType"})
  {
    var pt := ProviderTypeOf(attrs).value;
    var conf := attrs - {"providerType"};
    var r := ResolveConfig(attrs, pt, imported).value;
    assert r.Keys == conf.Keys;
    assert forall k :: k in r ==> r[k] == conf[k];
    assert r == conf;
  }

  /** The identity-provider representation that is created or updated in the broker realm. */
  datatype IdpDescriptor = IdpDescriptor(
    alias: string,
    enabled: bool,
    providerId: string,
    trustEmail: bool,
    storeToken: bool,
    addReadTokenRoleOnCreate: bool,
    firstBrokerLoginFlowAlias: string,
    config: map<string, string>)

  /**
   * The checks and the descriptor of `createIdentityProvider`, before any change to the broker realm:
   * the provider type is checked first, then the configuration is resolved.
   */
  function ResolveIdentityProvider(orgMrn: string, attrs: AttrMap, imported: Option<map<string, string>>): (r: Result<IdpDescriptor, KcError>)
    ensures ProviderTypeOf(attrs).Failure? ==> r == Failure(ProviderTypeOf(attrs).error)
    ensures ProviderTypeOf(attrs).Success? ==>
      (r.Success? <==> ResolveConfig(attrs, attrs["providerType"], imported).Success?) &&
      (r.Failure? ==> r.error == ResolveConfig(attrs, attrs["providerType"], imported).error)
    ensures r.Success? ==>
      (r.value.providerId == "oidc" || r.value.providerId == "saml") &&
      r.value.providerId == attrs["providerType"] &&
      r.value.config == ResolveConfig(attrs, attrs["providerType"], imported).value &&
      r.value.alias == MrnUtil.OrgShortNameFromOrgMrn(orgMrn) && ':' !in r.value.alias &&
      r.value.enabled && r.value.trustEmail && !r.value.storeToken && !r.value.addReadTokenRoleOnCreate &&
      r.value.firstBrokerLoginFlowAlias == FirstBrokerLoginFlow
  {
    var providerType :- ProviderTypeOf(attrs);
    var config :- ResolveConfig(attrs, providerType, imported);
    Success(IdpDescriptor(MrnUtil.OrgShortNameFromOrgMrn(orgMrn), true, providerType, true, false, false,
                          FirstBrokerLoginFlow, config))
  }

  // ---------------------------------------------------------------------------------------------
  // Mappers

  /** An identity-provider mapper as the broker stores it. */
  datatype Mapper = Mapper(name: string, idpAlias: string, mapperType: string, config: map<string, string>)

  /** The attributes that may get an attribute mapper, in the order the model adds them. */
  const MapperAttrs: seq<string> := ["firstNameAttr", "lastNameAttr", "emailAttr", "permissionsAttr"]

  /** Default claim names of oidc providers: only the permissions claim has one. */
  const OidcDefaults: map<string, Option<string>> := map[
    "firstNameAttr" := None,
    "lastNameAttr" := None,
    "emailAttr" := None,
    "permissionsAttr" := Some("permissions")]

  /** Default SAML attribute names. */
  const SamlDefaults: map<string, Option<string>> := map[
    "firstNameAttr" := Some("http://schemas.xmlsoap.org/ws/2005/05/identity/claims/givenname"),
    "lastNameAttr" := Some("http://schemas.xmlsoap.org/ws/2005/05/identity/claims/surname"),
    "emailAttr" := Some("http://schemas.xmlsoap.org/ws/2005/05/identity/claims/emailaddress"),
    "permissionsAttr" := Some("http://schemas.microsoft.com/ws/2008/06/identity/claims/role")]

  /** The broker's user attribute each mapper writes. */
  const KeycloakAttrNames: map<string, string> := map[
    "firstNameAttr" := "firstName",
    "lastNameAttr" := "lastName",
    "emailAttr" := "email",
    "permissionsAttr" := "permissions"]

  const UserMrnTemplatePrefix: string := "urn:mrn:mcl:user:${ALIAS}:${"

  /** The default table of a provider type: oidc, and SAML for every other type. */
  function DefaultsFor(providerType: string): (d: map<string, Option<string>>)
    ensures d.Keys == KeycloakAttrNames.Keys
    ensures providerType == "oidc" ==> forall k :: k in d ==> (d[k].Some? <==> k == "permissionsAttr")
    ensures providerType != "oidc" ==> forall k :: k in d ==> d[k].Some?
  {
    if providerType == "oidc" then OidcDefaults else SamlDefaults
  }

  /** `getOrDefault(key, default)`: the explicit value, or failing that the provider default. */
  function AttrValue(providerType: string, attrs: AttrMap, key: string): (v: Option<string>)
    requires key in KeycloakAttrNames
    ensures key in attrs ==> v == Some(attrs[key])
    ensures key !in attrs ==> v == DefaultsFor(providerType)[key]
  {
    if key in attrs then Some(attrs[key]) else DefaultsFor(providerType)[key]
  }

  /** The configuration key that names the claim (oidc) or the SAML attribute. */
  function ConfKey(providerType: string): (k: string)
    ensures providerType == "oidc" ==> k == "claim"
    ensures providerType != "oidc" ==> k == "attribute.name"
  {
    if providerType == "oidc" then "claim" else "attribute.name"
  }

  /** The hard-coded organization mapper. */
  function OrgMapper(alias: string, orgMrn: string): (m: Mapper)
    ensures m.idpAlias == alias && m.mapperType == "hardcoded-attribute-idp-mapper"
    ensures m.config.Keys == {"attribute", "attribute.value"}
    ensures m.config["attribute"] == "org" && m.config["attribute.value"] == orgMrn
  {
    Mapper("org mapper", alias, "hardcoded-attribute-idp-mapper", map["attribute.value" := orgMrn, "attribute" := "org"])
  }

  /** What the username template reads: a claim for oidc, a SAML attribute otherwise. */
  function UsernameSource(providerType: string, attrs: AttrMap): string {
    if providerType == "oidc" then
      "CLAIM." + (if "usernameAttr" in attrs then attrs["usernameAttr"] else "preferred_username")
    else if "usernameAttr" in attrs then attrs["usernameAttr"] else "NAMEID"
  }

  /** The username mapper: imports the user name as `urn:mrn:mcl:user:<alias>:<source>`. */
  function UsernameMapper(alias: string, providerType: string, attrs: AttrMap): (m: Mapper)
    ensures m.name == "username mapper" && m.idpAlias == alias
    ensures m.mapperType == (if providerType == "oidc" then "oidc-username-idp-mapper" else "saml-username-idp-mapper")
    ensures m.config.Keys == {"template"}
    ensures var t := m.config["template"];
      |t| > |UserMrnTemplatePrefix| && t[..|UserMrnTemplatePrefix|] == UserMrnTemplatePrefix &&
      t[|UserMrnTemplatePrefix|..] == UsernameSource(providerType, attrs) + "}"
  {
    var template := UserMrnTemplatePrefix + UsernameSource(providerType, attrs) + "}";
    var mapperType := if providerType == "oidc" then "oidc-username-idp-mapper" else "saml-username-idp-mapper";
    assert template[..|UserMrnTemplatePrefix|] == UserMrnTemplatePrefix;
    assert template[|UserMrnTemplatePrefix|..] == UsernameSource(providerType, attrs) + "}";
    Mapper("username mapper", alias, mapperType, map["template" := template])
  }

  /** The attribute mapper for `key` with claim or attribute name `value`. */
  function AttrMapper(alias: string, providerType: string, key: string, value: string): Mapper
    requires key in KeycloakAttrNames
  {
    Mapper(KeycloakAttrNames[key] + " mapper", alias, providerType + "-user-attribute-idp-mapper",
           map[ConfKey(providerType) := value, "user.attribute" := KeycloakAttrNames[key]])
  }

  /** The attribute mappers for `keys`, skipping every key without an explicit or default value. */
  function AttributeMappers(alias: string, providerType: string, attrs: AttrMap, keys: seq<string>): (ms: seq<Mapper>)
    requires forall k :: k in keys ==> k in KeycloakAttrNames
    ensures |ms| <= |keys|
    ensures forall m :: m in ms ==> m.idpAlias == alias && m.mapperType == providerType + "-user-attribute-idp-mapper"
  {
    if keys == [] then []
    else OptMapper(alias, providerType, attrs, keys[0]) + AttributeMappers(alias, providerType, attrs, keys[1..])
  }

  /** Every key with a value gets its attribute mapper. */
  lemma {:induction false} MapperForValue(alias: string, pt: string, attrs: AttrMap, keys: seq<string>, k: string)
    requires forall k :: k in keys ==> k in KeycloakAttrNames
    requires k in keys && AttrValue(pt, attrs, k).Some?
    ensures AttrMapper(alias, pt, k, AttrValue(pt, attrs, k).value) in AttributeMappers(alias, pt, attrs, keys)
    decreases |keys|
  {
    if k != keys[0] {
      MapperForValue(alias, pt, attrs, keys[1..], k);
    }
  }

  /** Every attribute mapper belongs to a key with a value. */
  lemma {:induction false} ValueForMapper(alias: string, pt: string, attrs: AttrMap, keys: seq<string>, m: Mapper)
    requires forall k :: k in keys ==> k in KeycloakAttrNames
    requires m in AttributeMappers(alias, pt, attrs, keys)
    ensures exists k :: k in keys && AttrValue(pt, attrs, k).Some? && m == AttrMapper(alias, pt, k, AttrValue(pt, attrs, k).value)
    decreases |keys|
  {
    if m !in OptMapper(alias, pt, attrs, keys[0]) {
      ValueForMapper(alias, pt, attrs, keys[1..], m);
      var k :| k in keys[1..] && AttrValue(pt, attrs, k).Some? && m == AttrMapper(alias, pt, k, AttrValue(pt, attrs, k).value);
      assert k in keys;
    }
  }

  /**
   * The mappers `createIdpMappers` adds, in order: the organization mapper, the username mapper, then
   * the attribute mappers of first name, last name, email and permissions, as `AttributeMapperIffValue`
   * describes them.
   */
  function IdpMappers(alias: string, attrs: AttrMap, orgMrn: string): (ms: seq<Mapper>)
    requires "providerType" in attrs
    ensures 2 <= |ms| <= 6
    ensures ms[0].name == "org mapper" && ms[0].mapperType == "hardcoded-attribute-idp-mapper"
    ensures ms[0].config == map["attribute.value" := orgMrn, "attribute" := "org"]
    ensures ms[1] == UsernameMapper(alias, attrs["providerType"], attrs)
    ensures forall m :: m in ms ==> m.idpAlias == alias
    ensures forall m :: m in ms[2..] ==> m.mapperType == attrs["providerType"] + "-user-attribute-idp-mapper"
  {
    var pt := attrs["providerType"];
    assert forall k :: k in MapperAttrs ==> k in KeycloakAttrNames;
    var ms := [OrgMapper(alias, orgMrn), UsernameMapper(alias, pt, attrs)] + AttributeMappers(alias, pt, attrs, MapperAttrs);
    assert ms[2..] == AttributeMappers(alias, pt, attrs, MapperAttrs);
    ms
  }

  /**
   * An attribute mapper named after `k`'s broker attribute is added exactly when `k` has an explicit
   * or default value, and then it reads that value.
   */
  lemma AttributeMapperIffValue(alias: string, attrs: AttrMap, orgMrn: string, k: string)
    requires "providerType" in attrs && k in MapperAttrs
    ensures var ms := IdpMappers(alias, attrs, orgMrn)[2..];
      (exists m :: m in ms && m.name == KeycloakAttrNames[k] + " mapper") <==> AttrValue(attrs["providerType"], attrs, k).Some?
    ensures var ms := IdpMappers(alias, attrs, orgMrn)[2..];
      AttrValue(attrs["providerType"], attrs, k).Some? ==>
        AttrMapper(alias, attrs["providerType"], k, AttrValue(attrs["providerType"], attrs, k).value) in ms
  {
    var pt := attrs["providerType"];
    assert forall k :: k in MapperAttrs ==> k in KeycloakAttrNames;
    var ms := IdpMappers(alias, attrs, orgMrn)[2..];
    assert ms == AttributeMappers(alias, pt, attrs, MapperAttrs);
    if AttrValue(pt, attrs, k).Some? {
      MapperForValue(alias, pt, attrs, MapperAttrs, k);
    }
    forall m | m in ms && m.name == KeycloakAttrNames[k] + " mapper"
      ensures AttrValue(pt, attrs, k).Some?
    {
      ValueForMapper(alias, pt, attrs, MapperAttrs, m);
      var k' :| k' in MapperAttrs && AttrValue(pt, attrs, k').Some? && m == AttrMapper(alias, pt, k', AttrValue(pt, attrs, k').value);
      MapperNameInjective(k, k');
    }
  }

  /** Attribute mappers of different keys have different names. */
  lemma MapperNameInjective(k1: string, k2: string)
    requires k1 in KeycloakAttrNames && k2 in KeycloakAttrNames
    requires KeycloakAttrNames[k1] + " mapper" == KeycloakAttrNames[k2] + " mapper"
    ensures k1 == k2
  {
    var n1 := KeycloakAttrNames[k1];
    var n2 := KeycloakAttrNames[k2];
    assert |n1| == |n2|;
    assert n1 == (n1 + " mapper")[..|n1|] == (n2 + " mapper")[..|n2|] == n2;
  }

  /**
   * An oidc provider without explicit attribute claims gets exactly three mappers: organization,
   * username, and the permissions mapper reading the `permissions` claim.
   */
  lemma OidcDefaultMappers(alias: string, attrs: AttrMap, orgMrn: string)
    requires "providerType" in attrs && attrs["providerType"] == "oidc"
    requires forall k :: k in MapperAttrs ==> k !in attrs
    ensures IdpMappers(alias, attrs, orgMrn)[2..] ==
      [Mapper("permissions mapper", alias, "oidc" + "-user-attribute-idp-mapper",
              map["claim" := "permissions", "user.attribute" := "permissions"])]
  {
    var pt := "oidc";
    var keys := MapperAttrs;
    DefaultMappersFrom(alias, pt, attrs, keys);
    assert AttrValue(pt, attrs, keys[0]) == None;
    assert AttrValue(pt, attrs, keys[1]) == None;
    assert AttrValue(pt, attrs, keys[2]) == None;
    assert AttrValue(pt, attrs, keys[3]) == Some("permissions");
    assert IdpMappers(alias, attrs, orgMrn)[2..] == AttributeMappers(alias, pt, attrs, keys);
    assert "permissions" + " mapper" == "permissions mapper";
  }

  /**
   * A SAML provider without explicit attribute names gets all four attribute mappers, six in all:
   * first name, last name, email and permissions, reading the standard claim URIs.
   */
  lemma SamlDefaultMappers(alias: string, attrs: AttrMap, orgMrn: string)
    requires "providerType" in attrs && attrs["providerType"] == "saml"
    requires forall k :: k in MapperAttrs ==> k !in attrs
    ensures |IdpMappers(alias, attrs, orgMrn)| == 6
    ensures IdpMappers(alias, attrs, orgMrn)[2..] == SamlStandardMappers(alias)
  {
    assert forall k :: k in MapperAttrs ==> k in KeycloakAttrNames;
    assert IdpMappers(alias, attrs, orgMrn)[2..] == AttributeMappers(alias, "saml", attrs, MapperAttrs);
    SamlAttributeMappers(alias, attrs);
  }

  /** The four SAML attribute mappers reading the standard claim URIs, in the order they are added. */
  function SamlStandardMappers(alias: string): seq<Mapper> {
    [Mapper("firstName mapper", alias, "saml-user-attribute-idp-mapper",
            map["attribute.name" := "http://schemas.xmlsoap.org/ws/2005/05/identity/claims/givenname",
                "user.attribute" := "firstName"]),
     Mapper("lastName mapper", alias, "saml-user-attribute-idp-mapper",
            map["attribute.name" := "http://schemas.xmlsoap.org/ws/2005/05/identity/claims/surname",
                "user.attribute" := "lastName"]),
     Mapper("email mapper", alias, "saml-user-attribute-idp-mapper",
            map["attribute.name" := "http://schemas.xmlsoap.org/ws/2005/05/identity/claims/emailaddress",
                "user.attribute" := "email"]),
     Mapper("permissions mapper", alias, "saml-user-attribute-idp-mapper",
            map["attribute.name" := "http://schemas.microsoft.com/ws/2008/06/identity/claims/role",
                "user.attribute" := "permissions"])]
  }

  lemma SamlAttributeMappers(alias: string, attrs: AttrMap)
    requires forall k :: k in MapperAttrs ==> k !in attrs
    ensures forall k :: k in MapperAttrs ==> k in KeycloakAttrNames
    ensures AttributeMappers(alias, "saml", attrs, MapperAttrs) == SamlStandardMappers(alias)
  {
    var keys := MapperAttrs;
    DefaultMappersFrom(alias, "saml", attrs, keys);
    SamlDefaultMapper(alias, attrs, keys[0], "http://schemas.xmlsoap.org/ws/2005/05/identity/claims/givenname");
    SamlDefaultMapper(alias, attrs, keys[1], "http://schemas.xmlsoap.org/ws/2005/05/identity/claims/surname");
    SamlDefaultMapper(alias, attrs, keys[2], "http://schemas.xmlsoap.org/ws/2005/05/identity/claims/emailaddress");
    SamlDefaultMapper(alias, attrs, keys[3], "http://schemas.microsoft.com/ws/2008/06/identity/claims/role");
    MapperNames();
  }

  lemma MapperNames()
    ensures "firstName" + " mapper" == "firstName mapper" && "lastName" + " mapper" == "lastName mapper"
    ensures "email" + " mapper" == "email mapper" && "permissions" + " mapper" == "permissions mapper"
  {
  }

  /** The mapper of one SAML key left at its default claim URI. */
  lemma SamlDefaultMapper(alias: string, attrs: AttrMap, key: string, uri: string)
    requires key in SamlDefaults && key in KeycloakAttrNames && key !in attrs && SamlDefaults[key] == Some(uri)
    ensures OptMapper(alias, "saml", attrs, key) ==
      [Mapper(KeycloakAttrNames[key] + " mapper", alias, "saml-user-attribute-idp-mapper",
              map["attribute.name" := uri, "user.attribute" := KeycloakAttrNames[key]])]
  {
    assert "saml"[0] != "oidc"[0];
    assert AttrValue("saml", attrs, key) == Some(uri);
    SamlMapperShape(alias, key, uri);
  }

  lemma SamlMapperShape(alias: string, key: string, uri: string)
    requires key in KeycloakAttrNames
    ensures AttrMapper(alias, "saml", key, uri) ==
      Mapper(KeycloakAttrNames[key] + " mapper", alias, "saml-user-attribute-idp-mapper",
             map["attribute.name" := uri, "user.attribute" := KeycloakAttrNames[key]])
  {
    assert "saml"[0] != "oidc"[0];
    assert ConfKey("saml") == "attribute.name";
    assert "saml" + "-user-attribute-idp-mapper" == "saml-user-attribute-idp-mapper";
  }

  /** The attribute mappers for the four keys, one key at a time. */
  lemma DefaultMappersFrom(alias: string, pt: string, attrs: AttrMap, keys: seq<string>)
    requires keys == MapperAttrs
    ensures forall k :: k in keys ==> k in KeycloakAttrNames
    ensures AttributeMappers(alias, pt, attrs, keys) ==
      OptMapper(alias, pt, attrs, keys[0]) + OptMapper(alias, pt, attrs, keys[1]) +
      OptMapper(alias, pt, attrs, keys[2]) + OptMapper(alias, pt, attrs, keys[3])
  {
    assert forall k :: k in keys ==> k in KeycloakAttrNames;
    FourMappers(alias, pt, attrs, keys);
  }

  lemma FourMappers(alias: string, pt: string, attrs: AttrMap, keys: seq<string>)
    requires |keys| == 4 && forall k :: k in keys ==> k in KeycloakAttrNames
    ensures AttributeMappers(alias, pt, attrs, keys) ==
      OptMapper(alias, pt, attrs, keys[0]) + OptMapper(alias, pt, attrs, keys[1]) +
      OptMapper(alias, pt, attrs, keys[2]) + OptMapper(alias, pt, attrs, keys[3])
  {
    assert keys[1..][1..] == keys[2..] && keys[2..][1..] == keys[3..] && keys[3..][1..] == [];
    var o0 := OptMapper(alias, pt, attrs, keys[0]);
    var o1 := OptMapper(alias, pt, attrs, keys[1]);
    var o2 := OptMapper(alias, pt, attrs, keys[2]);
    var o3 := OptMapper(alias, pt, attrs, keys[3]);
    MappersStep(alias, pt, attrs, keys);
    MappersStep(alias, pt, attrs, keys[1..]);
    MappersStep(alias, pt, attrs, keys[2..]);
    MappersStep(alias, pt, attrs, keys[3..]);
    assert AttributeMappers(alias, pt, attrs, keys[3..]) == o3 + [] == o3;
    Regroup(o0, o1, o2, o3);
  }

  lemma Regroup(a: seq<Mapper>, b: seq<Mapper>, c: seq<Mapper>, d: seq<Mapper>)
    ensures a + (b + (c + d)) == a + b + c + d
  {
  }

  /** One step of `AttributeMappers`: the first key's mapper, then those of the rest. */
  lemma MappersStep(alias: string, pt: string, attrs: AttrMap, keys: seq<string>)
    requires |keys| >= 1 && forall k :: k in keys ==> k in KeycloakAttrNames
    ensures AttributeMappers(alias, pt, attrs, keys) ==
      OptMapper(alias, pt, attrs, keys[0]) + AttributeMappers(alias, pt, attrs, keys[1..])
  {
  }

  /** The one-element or empty list of attribute mappers for `key`. */
  function OptMapper(alias: string, pt: string, attrs: AttrMap, key: string): (ms: seq<Mapper>)
    requires key in KeycloakAttrNames
    ensures |ms| == (if AttrValue(pt, attrs, key).Some? then 1 else 0)
  {
    match AttrValue(pt, attrs, key)
    case None => []
    case Some(v) => [AttrMapper(alias, pt, key, v)]
  }

  // ---------------------------------------------------------------------------------------------
  // OIDC clients

  /** The client flags that depend on the access type. */
  datatype ClientFlags = ClientFlags(bearerOnly: bool, publicClient: bool)

  /** "public" and "bearer-only" set their flag; every other type falls back to confidential (neither). */
  function FlagsForAccessType(accessType: string): (f: ClientFlags)
    ensures f.publicClient <==> accessType == "public"
    ensures f.bearerOnly <==> accessType == "bearer-only"
    ensures !(f.bearerOnly && f.publicClient)
  {
    if accessType == "public" then ClientFlags(false, true)
    else if accessType == "bearer-only" then ClientFlags(true, false)
    else ClientFlags(false, false)
  }

  /** An OpenID Connect client as the broker stores it. */
  datatype OidcClient = OidcClient(
    clientId: string,
    authenticatorType: string,
    redirectUris: seq<string>,
    webOrigins: seq<string>,
    directAccessGrantsEnabled: bool,
    protocol: string,
    enabled: bool,
    consentRequired: bool,
    clientTemplate: string,
    flags: ClientFlags)

  /** The client `createClient` builds. */
  function NewClient(clientId: string, accessType: string, redirectUri: string, template: string): (c: OidcClient)
    ensures c.clientId == clientId && c.authenticatorType == "client-secret" && c.redirectUris == [redirectUri]
    ensures c.flags == FlagsForAccessType(accessType)
    ensures c.protocol == "openid-connect" && c.enabled && !c.consentRequired && !c.directAccessGrantsEnabled
  {
    OidcClient(clientId, "client-secret", [redirectUri], ["+"], false, "openid-connect", true, false, template,
               FlagsForAccessType(accessType))
  }

  /** `updateClient` as written: the access type is also stored as the authenticator type. */
  function UpdatedClientAsWritten(c: OidcClient, accessType: string, redirectUri: string): (r: OidcClient)
    ensures r.authenticatorType == accessType
    ensures r == UpdatedClient(c, accessType, redirectUri).(authenticatorType := accessType)
  {
    c.(authenticatorType := accessType, redirectUris := [redirectUri], flags := FlagsForAccessType(accessType))
  }

  /** `updateClient` keeping the client-secret authenticator that `createClient` sets. */
  function UpdatedClient(c: OidcClient, accessType: string, redirectUri: string): (r: OidcClient)
    ensures r.redirectUris == [redirectUri] && r.flags == FlagsForAccessType(accessType)
    ensures r.(redirectUris := c.redirectUris, flags := c.flags) == c
  {
    c.(redirectUris := [redirectUri], flags := FlagsForAccessType(accessType))
  }

  /** Updating a created client gives the client that creating it with the new settings gives. */
  lemma UpdateMatchesCreate(clientId: string, t1: string, u1: string, t2: string, u2: string, template: string)
    ensures UpdatedClient(NewClient(clientId, t1, u1, template), t2, u2) == NewClient(clientId, t2, u2, template)
    ensures t2 != "client-secret" ==>
      UpdatedClientAsWritten(NewClient(clientId, t1, u1, template), t2, u2) != NewClient(clientId, t2, u2, template)
  {
  }

  /** The secret `createClient` and `updateClient` return: the broker's secret, or "" for a public client. */
  function ReturnedSecret(accessType: string, secret: string): (r: string)
    ensures accessType == "public" ==> r == ""
    ensures accessType != "public" ==> r == secret
  {
    if accessType == "public" then "" else secret
  }
}
