/**
 * The decisions of the organization endpoints: which reply each request gets and which calls it
 * makes on the identity broker, the project-user realm and the entity stores, in order. Each
 * endpoint is a function from what the stores answer to a reply carrying that ordered plan.
 */
module OrganizationController {
  import opened Wrappers
  import opened JavaString
  import opened KeycloakConfig

  /** A stored or submitted organization. `idpAttributes` is null when no identity provider is set up. */
  datatype Organization = Organization(
    id: nat,
    mrn: string,
    name: string,
    email: string,
    approved: bool,
    idpAttributes: Option<seq<IdpAttribute>>)

  /** A stored certificate, seen through the organization it belongs to (null for other owners). */
  datatype StoredCert = StoredCert(id: nat, organizationId: Option<nat>)

  datatype Status = Ok | BadRequest | Forbidden | NotFound | InternalServerError

  /** The reasons the endpoints give with an error status. */
  datatype Reason =
    | OrgNotFound
    | OrgAlreadyApproved
    | InvalidIdpUrl
    | CouldNotGetDataFromIdp
    | UrlDataMismatch
    | MissingRights
    | IntegrityViolation(cause: string)
    | Uncaught

  /** The calls an endpoint makes, in the order it makes them. */
  datatype Effect =
    | SaveOrganization(org: Organization)
    | SendOrgAwaitingApprovalMail(orgEmail: string, orgName: string)
    | SendAdminAwaitingApprovalMail(applicant: string)
    | CreateIdentityProvider(orgMrn: string, attributes: seq<IdpAttribute>)
    | DeleteIdentityProvider(orgMrn: string)
    | DeleteProjectUser(email: Option<string>)
    | DeleteDevices(orgId: nat)
    | DeleteServices(orgId: nat)
    | DeleteUsers(orgId: nat)
    | DeleteVessels(orgId: nat)
    | DeleteRoles(orgId: nat)
    | DeleteOrganization(orgId: nat)
    | RevokeCertificate(certId: nat)

  /** The reply of an endpoint and the calls it made before replying. */
  datatype Reply = Reply(status: Status, reason: Option<Reason>, effects: seq<Effect>)

  /**
   * How the identity-provider creation call failed, as the controller sees it: a malformed import
   * URL (an IOException subclass), any other IOException, an error status of the broker (an
   * unchecked InternalServerErrorException) or a rejected attribute list (an unchecked
   * IllegalArgumentException).
   */
  datatype IdpFailure = MalformedUrl | IoError | ServerError | Rejected

  /** The HTTP status code of a reply status. */
  function StatusCode(s: Status): (code: int)
    ensures s == Ok <==> code == 200
    ensures 400 <= code < 600 <==> s != Ok
  {
    match s
    case Ok => 200
    case BadRequest => 400
    case Forbidden => 403
    case NotFound => 404
    case InternalServerError => 500
  }

  /**
   * How a failure of `createIdentityProvider` reaches the controller: an I/O failure is an
   * IOException, a rejected attribute list an IllegalArgumentException, which no endpoint catches.
   */
  function IdpFailureOf(o: Outcome<KcError>): (f: Option<IdpFailure>)
    ensures o.Pass? <==> f.None?
    ensures o.Fail? && o.error.IoFailure? ==> f == Some(IoError)
    ensures o.Fail? && o.error.InvalidArgument? ==> f == Some(Rejected)
  {
    match o
    case Pass => None
    case Fail(IoFailure(_)) => Some(IoError)
    case Fail(InvalidArgument(_)) => Some(Rejected)
  }

  /** The organization has a non-empty identity-provider attribute list. */
  predicate HasIdp(org: Organization) {
    org.idpAttributes.Some? && |org.idpAttributes.value| > 0
  }

  // -----------------------------------------------------------------------------------------------
  // applyOrganization

  /** The application as it is stored: MRN trimmed and lower-cased, never approved. */
  function Application(input: Organization): (org: Organization)
    ensures org.mrn == ToLower(Trim(input.mrn)) && !org.approved
    ensures org.id == input.id && org.name == input.name && org.email == input.email
    ensures org.idpAttributes == input.idpAttributes
  {
    input.(mrn := ToLower(Trim(input.mrn)), approved := false)
  }

  /** A stored application has an MRN without surrounding blanks or upper-case letters. */
  lemma ApplicationMrnNormal(input: Organization)
    ensures var m := Application(input).mrn;
      IsLowerCase(m) && (m == [] || (!IsTrimmable(m[0]) && !IsTrimmable(m[|m| - 1])))
  {
    var t := Trim(input.mrn);
    var m := ToLower(t);
    if m != [] {
      assert m[0] == LowerChar(t[0]) && m[|m| - 1] == LowerChar(t[|t| - 1]);
    }
  }

  /** Applying with an already stored application stores the same organization again. */
  lemma ApplicationIdempotent(input: Organization)
    ensures Application(Application(input)) == Application(input)
  {
    NormalizeIdempotent(input.mrn);
  }

  /**
   * `applyOrganization`: save the normalized application; a save refused by the store (`saveError`,
   * the root cause of the integrity violation) is a BAD_REQUEST; otherwise the applicant and the
   * administrators are mailed.
   */
  function ApplyOrganization(input: Organization, saveError: Option<string>): (r: Reply)
    ensures |r.effects| >= 1 && r.effects[0] == SaveOrganization(Application(input))
    ensures saveError.Some? <==> r.status == BadRequest
    ensures saveError.Some? ==> r.reason == Some(IntegrityViolation(saveError.value)) && |r.effects| == 1
    ensures saveError.None? ==>
      r.status == Ok && r.effects[1..] ==
        [SendOrgAwaitingApprovalMail(input.email, input.name), SendAdminAwaitingApprovalMail(input.name)]
  {
    var org := Application(input);
    if saveError.Some? then Reply(BadRequest, Some(IntegrityViolation(saveError.value)), [SaveOrganization(org)])
    else Reply(Ok, None, [SaveOrganization(org), SendOrgAwaitingApprovalMail(org.email, org.name),
                          SendAdminAwaitingApprovalMail(org.name)])
  }

  // -----------------------------------------------------------------------------------------------
  // approveOrganization

  /**
   * The reply to a failed identity-provider creation during approval: a malformed URL and any other
   * IOException are BAD_REQUEST; the unchecked exceptions are not caught.
   */
  function ApproveFailureReply(f: IdpFailure, effects: seq<Effect>): (r: Reply)
    ensures r.effects == effects
    ensures r.status == BadRequest <==> f == MalformedUrl || f == IoError
    ensures r.status != BadRequest ==> r.status == InternalServerError
    ensures f == MalformedUrl <==> r.reason == Some(InvalidIdpUrl)
    ensures f == IoError <==> r.reason == Some(CouldNotGetDataFromIdp)
    ensures r.status == InternalServerError <==> r.reason == Some(Uncaught)
  {
    match f
    case MalformedUrl => Reply(BadRequest, Some(InvalidIdpUrl), effects)
    case IoError => Reply(BadRequest, Some(CouldNotGetDataFromIdp), effects)
    case ServerError => Reply(InternalServerError, Some(Uncaught), effects)
    case Rejected => Reply(InternalServerError, Some(Uncaught), effects)
  }

  /**
   * The reply to a failed identity-provider creation during an update: an error status of the
   * broker is BAD_REQUEST for an invalid URL, every IOException (a malformed URL among them) is
   * BAD_REQUEST for missing data; a rejected attribute list is not caught.
   */
  function UpdateFailureReply(f: IdpFailure, effects: seq<Effect>): (r: Reply)
    ensures r.effects == effects
    ensures r.status == InternalServerError <==> f == Rejected
    ensures r.status != InternalServerError ==> r.status == BadRequest
    ensures f == ServerError <==> r.reason == Some(InvalidIdpUrl)
    ensures f == MalformedUrl || f == IoError <==> r.reason == Some(CouldNotGetDataFromIdp)
    ensures f == Rejected <==> r.reason == Some(Uncaught)
  {
    match f
    case ServerError => Reply(BadRequest, Some(InvalidIdpUrl), effects)
    case MalformedUrl => Reply(BadRequest, Some(CouldNotGetDataFromIdp), effects)
    case IoError => Reply(BadRequest, Some(CouldNotGetDataFromIdp), effects)
    case Rejected => Reply(InternalServerError, Some(Uncaught), effects)
  }

  /**
   * `approveOrganization`: an unknown organization is NOT_FOUND and an approved one BAD_REQUEST;
   * otherwise the identity provider is created when attributes are present, and only when that
   * succeeds is the organization saved as approved. `idp` is how the creation call ended.
   */
  function ApproveOrganization(stored: Option<Organization>, idp: Option<IdpFailure>): (r: Reply)
    ensures stored.None? ==> r == Reply(NotFound, Some(OrgNotFound), [])
    ensures stored.Some? && stored.value.approved ==> r == Reply(BadRequest, Some(OrgAlreadyApproved), [])
    ensures stored.Some? && !stored.value.approved ==>
      var org := stored.value;
      var create := if HasIdp(org) then [CreateIdentityProvider(ToLower(org.mrn), org.idpAttributes.value)] else [];
      (r.status == Ok <==> !HasIdp(org) || idp.None?) &&
      (r.status == Ok ==> r.effects == create + [SaveOrganization(org.(approved := true))]) &&
      (r.status != Ok ==> r == ApproveFailureReply(idp.value, create))
  {
    if stored.None? then Reply(NotFound, Some(OrgNotFound), [])
    else
      var org := stored.value;
      if org.approved then Reply(BadRequest, Some(OrgAlreadyApproved), [])
      else if HasIdp(org) then
        var create := [CreateIdentityProvider(ToLower(org.mrn), org.idpAttributes.value)];
        if idp.Some? then ApproveFailureReply(idp.value, create)
        else Reply(Ok, None, create + [SaveOrganization(org.(approved := true))])
      else Reply(Ok, None, [SaveOrganization(org.(approved := true))])
  }

  /**
   * Approval only ever moves an organization from pending to approved: whatever the broker answers,
   * every organization the endpoint saves is approved, and a second approval of a saved
   * organization is refused without any call.
   */
  lemma ApprovalIsOneWay(stored: Option<Organization>, idp: Option<IdpFailure>, again: Option<IdpFailure>)
    ensures forall e :: e in ApproveOrganization(stored, idp).effects && e.SaveOrganization? ==>
      e.org.approved && stored.Some? && e.org == stored.value.(approved := true) &&
      ApproveOrganization(Some(e.org), again) == Reply(BadRequest, Some(OrgAlreadyApproved), [])
  {
  }

  // -----------------------------------------------------------------------------------------------
  // updateOrganization

  /**
   * The identity-provider calls of an update: with new attributes, delete the old provider first
   * when there was one with a different list, then create or update; without new attributes,
   * delete an old provider; otherwise nothing. `sameAttributes` is the answer of the attribute
   * list comparison, whose code is not part of this model.
   */
  function UpdateIdpPlan(stored: Organization, input: Organization, sameAttributes: bool): (plan: seq<Effect>)
    ensures HasIdp(input) && HasIdp(stored) && !sameAttributes ==>
      plan == [DeleteIdentityProvider(input.mrn), CreateIdentityProvider(ToLower(input.mrn), input.idpAttributes.value)]
    ensures HasIdp(input) && (!HasIdp(stored) || sameAttributes) ==>
      plan == [CreateIdentityProvider(ToLower(input.mrn), input.idpAttributes.value)]
    ensures !HasIdp(input) && HasIdp(stored) ==> plan == [DeleteIdentityProvider(input.mrn)]
    ensures !HasIdp(input) && !HasIdp(stored) ==> plan == []
  {
    if HasIdp(input) then
      (if HasIdp(stored) && !sameAttributes then [DeleteIdentityProvider(input.mrn)] else []) +
      [CreateIdentityProvider(ToLower(input.mrn), input.idpAttributes.value)]
    else if HasIdp(stored) then [DeleteIdentityProvider(input.mrn)]
    else []
  }

  /**
   * `updateOrganization`: NOT_FOUND for an unknown organization, BAD_REQUEST when the path MRN is
   * not the body's; otherwise the identity-provider plan runs, and unless the creation fails the
   * updated organization is saved.
   */
  function UpdateOrganization(orgMrn: string, stored: Option<Organization>, input: Organization,
                              sameAttributes: bool, idp: Option<IdpFailure>): (r: Reply)
    ensures stored.None? <==> r.status == NotFound
    ensures stored.None? ==> r == Reply(NotFound, Some(OrgNotFound), [])
    ensures stored.Some? && orgMrn != input.mrn ==> r == Reply(BadRequest, Some(UrlDataMismatch), [])
    ensures stored.Some? && orgMrn == input.mrn ==>
      var plan := UpdateIdpPlan(stored.value, input, sameAttributes);
      (r.status == Ok <==> !HasIdp(input) || idp.None?) &&
      (r.status == Ok ==> r.effects == plan + [SaveOrganization(stored.value)]) &&
      (r.status != Ok ==> r == UpdateFailureReply(idp.value, plan))
  {
    if stored.None? then Reply(NotFound, Some(OrgNotFound), [])
    else if orgMrn != input.mrn then Reply(BadRequest, Some(UrlDataMismatch), [])
    else
      var plan := UpdateIdpPlan(stored.value, input, sameAttributes);
      if HasIdp(input) && idp.Some? then UpdateFailureReply(idp.value, plan)
      else Reply(Ok, None, plan + [SaveOrganization(stored.value)])
  }

  /** An update never deletes the identity provider after creating it, and creates at most one. */
  lemma UpdateDeletesBeforeCreate(stored: Organization, input: Organization, sameAttributes: bool)
    ensures var plan := UpdateIdpPlan(stored, input, sameAttributes);
      |plan| <= 2 &&
      (forall i, j :: 0 <= i < j < |plan| ==> plan[i].DeleteIdentityProvider? && plan[j].CreateIdentityProvider?) &&
      (HasIdp(input) <==> (|plan| > 0 && plan[|plan| - 1].CreateIdentityProvider?))
  {
  }

  /**
   * The two endpoints that create a provider answer its failures differently: an error status of
   * the broker escapes approval as an internal error but is a bad request on update, and a
   * malformed URL is reported as an invalid URL only on approval.
   */
  lemma FailureRepliesDiffer(stored: Organization, input: Organization, sameAttributes: bool)
    requires !stored.approved && HasIdp(stored)
    requires HasIdp(input) && stored.mrn == input.mrn
    ensures ApproveOrganization(Some(stored), Some(ServerError)).status == InternalServerError
    ensures UpdateOrganization(input.mrn, Some(stored), input, sameAttributes, Some(ServerError)) ==
      Reply(BadRequest, Some(InvalidIdpUrl), UpdateIdpPlan(stored, input, sameAttributes))
    ensures ApproveOrganization(Some(stored), Some(MalformedUrl)).reason == Some(InvalidIdpUrl)
    ensures UpdateOrganization(input.mrn, Some(stored), input, sameAttributes, Some(MalformedUrl)).reason ==
      Some(CouldNotGetDataFromIdp)
  {
  }

  // -----------------------------------------------------------------------------------------------
  // deleteOrg

  /** The entity stores emptied for the organization, in the order `deleteOrg` empties them. */
  function Cascade(orgId: nat): (es: seq<Effect>)
    ensures |es| == 6 && es[5] == DeleteOrganization(orgId)
    ensures forall e :: e in es ==> !e.DeleteIdentityProvider? && !e.DeleteProjectUser?
  {
    [DeleteDevices(orgId), DeleteServices(orgId), DeleteUsers(orgId), DeleteVessels(orgId),
     DeleteRoles(orgId), DeleteOrganization(orgId)]
  }

  /** One project-realm user deletion per organization user, in the order the store lists them. */
  function UserDeletions(emails: seq<Option<string>>): (es: seq<Effect>)
    ensures |es| == |emails|
    ensures forall i :: 0 <= i < |es| ==> es[i] == DeleteProjectUser(emails[i])
  {
    if emails == [] then [] else UserDeletions(emails[..|emails| - 1]) + [DeleteProjectUser(emails[|emails| - 1])]
  }

  /**
   * The calls of `deleteOrg` for a stored organization: its identity provider when it has one,
   * else each of its users in the project realm (`emails`, as the user store lists them); then
   * the cascade.
   */
  function DeletePlan(org: Organization, emails: seq<Option<string>>): (plan: seq<Effect>)
    ensures HasIdp(org) ==> plan == [DeleteIdentityProvider(ToLower(org.mrn))] + Cascade(org.id)
    ensures !HasIdp(org) ==> plan == UserDeletions(emails) + Cascade(org.id)
  {
    (if HasIdp(org) then [DeleteIdentityProvider(ToLower(org.mrn))] else UserDeletions(emails)) + Cascade(org.id)
  }

  /**
   * `deleteOrg`, building its calls in the order it makes them, with the user loop of the
   * no-provider branch. An unknown organization is NOT_FOUND.
   */
  method DeleteOrg(stored: Option<Organization>, emails: seq<Option<string>>) returns (r: Reply)
    ensures stored.None? ==> r == Reply(NotFound, Some(OrgNotFound), [])
    ensures stored.Some? ==> r == Reply(Ok, None, DeletePlan(stored.value, emails))
  {
    if stored.None? {
      return Reply(NotFound, Some(OrgNotFound), []);
    }
    var org := stored.value;
    var effects: seq<Effect> := [];
    if HasIdp(org) {
      effects := effects + [DeleteIdentityProvider(ToLower(org.mrn))];
    } else {
      for i := 0 to |emails|
        invariant effects == UserDeletions(emails[..i])
      {
        assert emails[..i + 1][..i] == emails[..i];
        effects := effects + [DeleteProjectUser(emails[i])];
      }
      assert emails[..|emails|] == emails;
    }
    effects := effects + [DeleteDevices(org.id), DeleteServices(org.id), DeleteUsers(org.id),
                          DeleteVessels(org.id), DeleteRoles(org.id), DeleteOrganization(org.id)];
    r := Reply(Ok, None, effects);
  }

  /**
   * Deleting an organization removes its identity provider or its project users, never both, all
   * of them before any entity store is emptied, and the organization itself last.
   */
  lemma DeleteOrder(org: Organization, emails: seq<Option<string>>)
    ensures var plan := DeletePlan(org, emails);
      var n := |plan| - 6;
      n >= 0 && plan[|plan| - 1] == DeleteOrganization(org.id) &&
      (forall i :: 0 <= i < n ==> (plan[i].DeleteIdentityProvider? <==> HasIdp(org))) &&
      (forall i :: 0 <= i < n ==> (plan[i].DeleteProjectUser? <==> !HasIdp(org))) &&
      (forall i :: n <= i < |plan| ==> !plan[i].DeleteIdentityProvider? && !plan[i].DeleteProjectUser?)
  {
    var plan := DeletePlan(org, emails);
    var head := if HasIdp(org) then [DeleteIdentityProvider(ToLower(org.mrn))] else UserDeletions(emails);
    assert plan == head + Cascade(org.id);
    forall i | |head| <= i < |plan|
      ensures !plan[i].DeleteIdentityProvider? && !plan[i].DeleteProjectUser?
    {
      assert plan[i] in Cascade(org.id);
    }
  }

  // -----------------------------------------------------------------------------------------------
  // revokeOrgCert and the certificate-owner accessors

  /**
   * `revokeOrgCert`: NOT_FOUND for an unknown organization; a missing certificate is dereferenced
   * and fails; the certificate is revoked only when it belongs to this very organization, and
   * otherwise the request is FORBIDDEN.
   */
  function RevokeOrgCert(stored: Option<Organization>, cert: Option<StoredCert>): (r: Reply)
    ensures r.status == Ok <==>
      stored.Some? && cert.Some? && cert.value.organizationId == Some(stored.value.id)
    ensures r.status == Ok ==> r.effects == [RevokeCertificate(cert.value.id)]
    ensures r.status != Ok ==> r.effects == []
    ensures stored.None? ==> r == Reply(NotFound, Some(OrgNotFound), [])
    ensures stored.Some? && cert.None? ==> r == Reply(InternalServerError, Some(Uncaught), [])
    ensures stored.Some? && cert.Some? && cert.value.organizationId != Some(stored.value.id) ==>
      r == Reply(Forbidden, Some(MissingRights), [])
  {
    if stored.None? then Reply(NotFound, Some(OrgNotFound), [])
    else if cert.None? then Reply(InternalServerError, Some(Uncaught), [])
    else if cert.value.organizationId.Some? && cert.value.organizationId.value == stored.value.id then
      Reply(Ok, None, [RevokeCertificate(cert.value.id)])
    else Reply(Forbidden, Some(MissingRights), [])
  }

  /** What a certificate issued to an organization names: its name, MRN and email, no extra attributes. */
  datatype Subject = Subject(name: string, uid: string, email: string, attributes: Option<map<string, string>>)

  function CertificateSubject(org: Organization): (s: Subject)
    ensures s.name == org.name && s.uid == org.mrn && s.email == org.email
    ensures s.attributes.None?
  {
    Subject(org.name, org.mrn, org.email, None)
  }

  /** The certificate subject of an applied organization carries the normalized MRN as its uid. */
  lemma SubjectOfApplication(input: Organization)
    ensures CertificateSubject(Application(input)).uid == ToLower(Trim(input.mrn))
    ensures IsLowerCase(CertificateSubject(Application(input)).uid)
  {
    ApplicationMrnNormal(input);
  }
}
