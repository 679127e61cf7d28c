/**
 * Certificates and their owners. A certificate points back at the entity it was issued to; an
 * owner keeps the list of its certificates, binds every one of them to itself after it is stored
 * and revokes and detaches all of them when it is removed. The service is the owner modelled here.
 */
module Certificates {
  import opened Wrappers
  import KeycloakConfig

  /** The revocation reason given to the certificates of a removed owner. */
  const CessationOfOperation: string := "cessationofoperation"

  /** The access types a service may declare for its OpenID Connect client. */
  const AcceptedAccessTypes: seq<string> := ["public", "bearer-only", "confidential"]

  /** Everything a certificate holds except its service reference. */
  datatype CertState = CertState(
    revoked: bool,
    revokeReason: Option<string>,
    revokedAt: Option<int>,
    end: int,
    organization: Option<nat>,
    device: Option<nat>,
    user: Option<nat>,
    vessel: Option<nat>)

  /**
   * An issued certificate. Dates are instants in milliseconds; the owners other than the service
   * are referred to by their entity id.
   */
  class Certificate {
    var revoked: bool
    var revokeReason: Option<string>
    var revokedAt: Option<int>
    var end: int
    var organization: Option<nat>
    var device: Option<nat>
    var service: Service?
    var user: Option<nat>
    var vessel: Option<nat>

    constructor (end: int)
      ensures !revoked && revokeReason == None && revokedAt == None && this.end == end
      ensures organization == None && device == None && service == null && user == None && vessel == None
    {
      revoked := false;
      revokeReason := None;
      revokedAt := None;
      this.end := end;
      organization := None;
      device := None;
      service := null;
      user := None;
      vessel := None;
    }

    /** The fields other than the service reference. */
    function State(): CertState
      reads this
    {
      CertState(revoked, revokeReason, revokedAt, end, organization, device, user, vessel)
    }

    /** Revoked for cessation of operation at `now`, and attached to no owner. */
    predicate RevokedAndDetached(now: int)
      reads this
    {
      revoked && revokeReason == Some(CessationOfOperation) && revokedAt == Some(now) && end == now &&
      organization == None && device == None && service == null && user == None && vessel == None
    }
  }

  class Service {
    var oidcAccessType: Option<string>
    var oidcClientId: Option<string>
    var oidcClientSecret: Option<string>
    var oidcRedirectUri: Option<string>
    var certDomainName: Option<string>
    var certificates: Option<seq<Certificate>>

    /** A new service: every field is null, the certificate list included. */
    constructor ()
      ensures oidcAccessType == None && oidcClientId == None && oidcClientSecret == None
      ensures oidcRedirectUri == None && certDomainName == None && certificates == None
    {
      oidcAccessType := None;
      oidcClientId := None;
      oidcClientSecret := None;
      oidcRedirectUri := None;
      certDomainName := None;
      certificates := None;
    }

    /** The certificate list, read as empty when it is null. */
    function Certs(): seq<Certificate>
      reads this
    {
      if certificates.Some? then certificates.value else []
    }

    /** `assignToCert`: the certificate now belongs to this service, and nothing else about it changes. */
    method AssignToCert(cert: Certificate)
      modifies cert
      ensures cert.service == this && cert.State() == old(cert.State())
    {
      cert.service := this;
    }

    /**
     * `setChildIds`: bind every certificate in the list to this service. A null list is left alone;
     * the list itself and every other certificate field stay as they were.
     */
    method SetChildIds()
      modifies Certs()
      ensures forall c :: c in Certs() ==> c.service == this
      ensures forall c :: c in Certs() ==> c.State() == old(c.State())
    {
      var certs := Certs();
      for i := 0 to |certs|
        invariant forall j :: 0 <= j < i ==> certs[j].service == this
        invariant forall c :: c in certs ==> c.State() == old(c.State())
      {
        AssignToCert(certs[i]);
      }
    }

    /**
     * `preRemove`: revoke every certificate for cessation of operation with the one instant `now`
     * (taken once, before the loop) as revocation time and end, and detach it from every owner.
     * The list keeps its certificates; a null list is left alone.
     */
    method PreRemove(now: int)
      modifies Certs()
      ensures forall c :: c in Certs() ==> c.RevokedAndDetached(now)
    {
      var certs := Certs();
      for i := 0 to |certs|
        invariant forall j :: 0 <= j < i ==> certs[j].RevokedAndDetached(now)
      {
        var cert := certs[i];
        cert.revokedAt := Some(now);
        cert.end := now;
        cert.revokeReason := Some(CessationOfOperation);
        cert.revoked := true;
        cert.organization := None;
        cert.device := None;
        cert.service := null;
        cert.user := None;
        cert.vessel := None;
      }
    }

    /**
     * `copyTo`: copy the five client and certificate fields, replace the contents of the target's
     * certificate list with this service's certificates in order, and bind them to the target.
     * `nullPointer` is true when Java throws a NullPointerException: a null target list fails at
     * `clear` after the five fields are copied, and a null list of this service fails at `addAll`
     * after the target's list is cleared. Copying a service onto itself clears its list before
     * refilling it from the same list, so the list ends up empty.
     */
    method CopyTo(target: Service) returns (nullPointer: bool)
      modifies target, Certs()
      ensures target.oidcAccessType == old(oidcAccessType) && target.oidcClientId == old(oidcClientId)
      ensures target.oidcClientSecret == old(oidcClientSecret) && target.oidcRedirectUri == old(oidcRedirectUri)
      ensures target.certDomainName == old(certDomainName)
      ensures nullPointer <==> old(target.certificates).None? || (target != this && old(certificates).None?)
      ensures old(target.certificates).None? ==> target.certificates == None
      ensures old(target.certificates).Some? && nullPointer ==> target.certificates == Some([])
      ensures !nullPointer ==> target.certificates == Some(if target == this then [] else old(Certs()))
      ensures !nullPointer ==> forall c :: c in target.Certs() ==> c.service == target && c.State() == old(c.State())
      ensures nullPointer ==> forall c :: c in old(Certs()) ==> c.service == old(c.service) && c.State() == old(c.State())
    {
      target.oidcAccessType := oidcAccessType;
      target.oidcClientId := oidcClientId;
      target.oidcClientSecret := oidcClientSecret;
      target.oidcRedirectUri := oidcRedirectUri;
      target.certDomainName := certDomainName;
      if target.certificates.None? {
        return true;
      }
      target.certificates := Some([]);
      if certificates.None? {
        return true;
      }
      ghost var copied := Certs();
      assert copied == if target == this then [] else old(Certs());
      target.certificates := Some(target.certificates.value + Certs());
      assert [] + copied == copied;
      target.SetChildIds();
      nullPointer := false;
    }

    /**
     * `selectiveCopyTo`: copy only the fields an update may change (access type, redirect URI,
     * certificate domain name); the client id and secret and the certificate list of the target
     * stay; the target's certificates are bound to the target.
     */
    method SelectiveCopyTo(target: Service)
      modifies target, target.Certs()
      ensures target.oidcAccessType == old(oidcAccessType) && target.oidcRedirectUri == old(oidcRedirectUri)
      ensures target.certDomainName == old(certDomainName)
      ensures target.oidcClientId == old(target.oidcClientId) && target.oidcClientSecret == old(target.oidcClientSecret)
      ensures target.certificates == old(target.certificates)
      ensures forall c :: c in target.Certs() ==> c.service == target && c.State() == old(c.State())
    {
      target.oidcAccessType := oidcAccessType;
      target.oidcRedirectUri := oidcRedirectUri;
      target.certDomainName := certDomainName;
      target.SetChildIds();
    }

    /** `hasSensitiveFields`: a service always has fields hidden from readers outside its organization. */
    method HasSensitiveFields() returns (r: bool)
      ensures r
    {
      r := true;
    }

    /** `clearSensitiveFields`: null the four client fields; the domain name and certificates stay. */
    method ClearSensitiveFields()
      modifies this
      ensures oidcAccessType == None && oidcClientId == None && oidcClientSecret == None && oidcRedirectUri == None
      ensures certDomainName == old(certDomainName) && certificates == old(certificates)
    {
      oidcAccessType := None;
      oidcClientId := None;
      oidcClientSecret := None;
      oidcRedirectUri := None;
    }
  }

  /**
   * Each accepted access type selects its own client flags: "public" and "bearer-only" set their
   * flag and "confidential" sets neither, so the three are told apart by the flags alone.
   */
  lemma AcceptedAccessTypeFlags(t: string, u: string)
    requires t in AcceptedAccessTypes && u in AcceptedAccessTypes
    ensures KeycloakConfig.FlagsForAccessType(t) == KeycloakConfig.FlagsForAccessType(u) <==> t == u
    ensures t == "confidential" <==> KeycloakConfig.FlagsForAccessType(t) == KeycloakConfig.ClientFlags(false, false)
  {
  }
}
