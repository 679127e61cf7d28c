/**
 * The MRN helpers of the registry: the organization short name, its validator, the entity id and
 * the service type read out of an MRN, entity MRN generation, MRN validation and client naming.
 * Every Java exception becomes a `Failure` carrying the exception and its message.
 */
module MrnUtil {
  import opened Wrappers
  import opened JavaString
  import opened UrnSyntax

  const McMrnPrefix: string := "urn:mrn"
  const McMrnOwnerPrefix: string := McMrnPrefix + ":mcl"
  const McMrnOrgPrefix: string := McMrnOwnerPrefix + ":org"

  /** The validator named when an organization short name carries no `@`. */
  const DefaultValidator: string := "mcl"

  /** The text after the last `:` of an organization MRN; the whole MRN when it has no `:`. */
  function OrgShortNameFromOrgMrn(orgMrn: string): (r: string)
    ensures |r| <= |orgMrn| && r == orgMrn[|orgMrn| - |r|..]
    ensures ':' !in r
    ensures |r| < |orgMrn| ==> orgMrn[|orgMrn| - |r| - 1] == ':'
    ensures ':' !in orgMrn ==> r == orgMrn
  {
    var idx := LastIndexOf(orgMrn, ':') + 1;
    assert forall k :: 0 <= k < |orgMrn[idx..]| ==> orgMrn[idx..][k] == orgMrn[idx + k];
    orgMrn[idx..]
  }

  /** The entity id of an entity MRN: computed exactly as the organization short name of an org MRN. */
  function EntityIdFromMrn(entityMrn: string): (r: string)
    ensures r == OrgShortNameFromOrgMrn(entityMrn)
  {
    entityMrn[LastIndexOf(entityMrn, ':') + 1..]
  }

  /** A colon-free suffix preceded by `:` (or making up all of `s`) is the text after the last `:`. */
  lemma LastSegmentUnique(s: string, r: string)
    requires |r| <= |s| && s[|s| - |r|..] == r && ':' !in r
    requires |r| == |s| || s[|s| - |r| - 1] == ':'
    ensures OrgShortNameFromOrgMrn(s) == r
  {
    var q := OrgShortNameFromOrgMrn(s);
    assert |q| <= |r|;
    assert |q| >= |r|;
  }

  /** The suffix after the last `:` of `prefix + tail`, when `prefix` ends in `:` and `tail` has none, is `tail`. */
  lemma LastSegmentOfJoined(prefix: string, tail: string)
    requires |prefix| > 0 && prefix[|prefix| - 1] == ':' && ':' !in tail
    ensures OrgShortNameFromOrgMrn(prefix + tail) == tail
    ensures EntityIdFromMrn(prefix + tail) == tail
  {
    var s := prefix + tail;
    assert s[|s| - |tail|..] == tail;
    LastSegmentUnique(s, tail);
  }

  /** The organization MRN `urn:mrn:mcl:org:<n>` gives back `n` for a colon-free short name. */
  lemma OrgShortNameOfOrgMrn(shortName: string)
    requires ':' !in shortName
    ensures OrgShortNameFromOrgMrn(McMrnOrgPrefix + ":" + shortName) == shortName
  {
    LastSegmentOfJoined(McMrnOrgPrefix + ":", shortName);
    assert McMrnOrgPrefix + ":" + shortName == (McMrnOrgPrefix + ":") + shortName;
  }

  /**
   * The validator of an organization: everything after the first `@` of its short name (the
   * nested-validator form), or "mcl" when there is no `@`.
   */
  function OrgValidatorFromOrgShortname(orgShortname: string): (r: string)
    ensures !Contains(orgShortname, "@") ==> r == DefaultValidator
    ensures Contains(orgShortname, "@") ==>
      |r| < |orgShortname| && r == orgShortname[|orgShortname| - |r|..] &&
      orgShortname[|orgShortname| - |r| - 1] == '@' &&
      forall k :: 0 <= k < |orgShortname| - |r| - 1 ==> orgShortname[k] != '@'
  {
    if Contains(orgShortname, "@") then
      var at := IndexOf(orgShortname, "@");
      assert orgShortname[at..at + 1] == "@";
      assert forall k :: 0 <= k < at ==> !OccursAt(orgShortname, "@", k) && orgShortname[k..k + 1] == [orgShortname[k]];
      orgShortname[at + 1..]
    else
      DefaultValidator
  }

  /** The entity markers in the order `getOrgShortNameFromEntityMrn` tries them. */
  const EntityMarkers: seq<string> := [":user:", ":device:", ":vessel:", ":service:instance:"]

  /** The position in `markers` of the first one `s` contains; `|markers|` when it contains none. */
  function FirstContained(s: string, markers: seq<string>): (k: nat)
    ensures k <= |markers|
    ensures k < |markers| ==> Contains(s, markers[k])
    ensures forall i :: 0 <= i < k ==> !Contains(s, markers[i])
  {
    if markers == [] then 0
    else if Contains(s, markers[0]) then 0
    else 1 + FirstContained(s, markers[1..])
  }

  /** A contained marker none of whose predecessors is contained is the one `FirstContained` picks. */
  lemma {:induction false} FirstContainedIs(s: string, markers: seq<string>, k: nat)
    requires k < |markers| && Contains(s, markers[k])
    requires forall i :: 0 <= i < k ==> !Contains(s, markers[i])
    ensures FirstContained(s, markers) == k
  {
    if k > 0 {
      assert markers[1..][k - 1] == markers[k];
      FirstContainedIs(s, markers[1..], k - 1);
    }
  }

  /**
   * The organization short name of an entity MRN (`urn:mrn:mcl:user:<org-shortname>:<user-id>`):
   * the markers are tried in the order of `EntityMarkers`, and the result is the segment after the
   * first occurrence of the chosen marker up to the next `:`, which must exist.
   */
  function OrgShortNameFromEntityMrn(entityMrn: string): (r: Result<string, JavaError>)
    ensures FirstContained(entityMrn, EntityMarkers) == |EntityMarkers| <==>
      r == Failure(IllegalArgument("MRN is not a valid entity MRN!"))
    ensures FirstContained(entityMrn, EntityMarkers) < |EntityMarkers| ==>
      var m := EntityMarkers[FirstContained(entityMrn, EntityMarkers)];
      var start := IndexOf(entityMrn, m) + |m|;
      (r.Success? <==> ':' in entityMrn[start..]) &&
      (r.Success? ==>
         start + |r.value| < |entityMrn| && entityMrn[start..start + |r.value|] == r.value &&
         entityMrn[start + |r.value|] == ':' && ':' !in r.value)
  {
    var k := FirstContained(entityMrn, EntityMarkers);
    if k == |EntityMarkers| then
      Failure(IllegalArgument("MRN is not a valid entity MRN!"))
    else
      var tmpIdx := IndexOf(entityMrn, EntityMarkers[k]);
      SubstringToNext(entityMrn, tmpIdx + |EntityMarkers[k]|, ':')
  }

  /** A user MRN in the documented layout yields its organization segment. */
  lemma OrgShortNameOfUserMrn(s: string)
    requires s == "urn:mrn:mcl:user:dma:jdoe"
    ensures OrgShortNameFromEntityMrn(s) == Success("dma")
  {
    FirstUserMarker(s);
    assert s[17] == 'd' && s[18] == 'm' && s[19] == 'a' && s[20] == ':';
    assert s[17..20] == "dma";
  }

  lemma FirstUserMarker(s: string)
    requires s == "urn:mrn:mcl:user:dma:jdoe"
    ensures IndexOf(s, ":user:") == 11
  {
    assert s[11..17] == ":user:";
    assert OccursAt(s, ":user:", 11);
    assert s[1] == 'r' && s[2] == 'n' && s[3] == ':' && s[4] == 'm' && s[5] == 'r' && s[6] == 'n';
    assert s[7] == ':' && s[8] == 'm' && s[9] == 'c' && s[10] == 'l' && s[11] == ':';
    forall j | 0 <= j < 11 ensures !OccursAt(s, ":user:", j) {
      assert s[j..j + 6][1] == s[j + 1];
    }
  }

  const InstanceMarker: string := ":service:instance:"

  /**
   * The service type of a service instance MRN: it demands both `:instance:` and `:service:`, then
   * reads the segment after `:service:instance:` up to the next `:`. When that marker is absent,
   * `indexOf` yields -1 and the segment is read from index 17.
   */
  function ServiceTypeFromMrn(serviceMrn: string): (r: Result<string, JavaError>)
    ensures !(Contains(serviceMrn, ":instance:") && Contains(serviceMrn, ":service:")) ==>
      r == Failure(IllegalArgument("The MRN must belong to a service instance!"))
    ensures Contains(serviceMrn, ":instance:") && Contains(serviceMrn, ":service:") ==>
      r == SubstringToNext(serviceMrn, IndexOf(serviceMrn, InstanceMarker) + |InstanceMarker|, ':')
  {
    if !Contains(serviceMrn, ":instance:") || !Contains(serviceMrn, ":service:") then
      Failure(IllegalArgument("The MRN must belong to a service instance!"))
    else
      var startIdx := IndexOf(serviceMrn, ":service:instance:") + 18;
      SubstringToNext(serviceMrn, startIdx, ':')
  }

  /** Without `:service:instance:` but with both other markers, the service type is read from index 17. */
  lemma ServiceTypeWithoutInstanceMarker(serviceMrn: string)
    requires Contains(serviceMrn, ":instance:") && Contains(serviceMrn, ":service:")
    requires !Contains(serviceMrn, InstanceMarker)
    ensures ServiceTypeFromMrn(serviceMrn) == SubstringToNext(serviceMrn, 17, ':')
  {
  }

  /**
   * When `:service:instance:` is the marker that names the organization, the service type and the
   * organization short name are the same segment of the MRN.
   */
  lemma ServiceTypeIsOrgSegment(serviceMrn: string)
    requires FirstContained(serviceMrn, EntityMarkers) == 3
    ensures ServiceTypeFromMrn(serviceMrn) == OrgShortNameFromEntityMrn(serviceMrn)
  {
    assert EntityMarkers[3] == InstanceMarker;
    InstanceMarkerParts(serviceMrn);
  }

  /** An MRN holding `:service:instance:` holds `:service:` and `:instance:`. */
  lemma InstanceMarkerParts(s: string)
    requires Contains(s, InstanceMarker)
    ensures Contains(s, ":service:") && Contains(s, ":instance:")
  {
    var i :| 0 <= i <= |s| && OccursAt(s, InstanceMarker, i);
    assert s[i..i + 18] == InstanceMarker;
    assert s[i..i + 9] == s[i..i + 18][..9] == ":service:";
    assert s[i + 8..i + 18] == s[i..i + 18][8..] == ":instance:";
    assert OccursAt(s, ":service:", i) && OccursAt(s, ":instance:", i + 8);
  }

  /** `generateMrnForEntity`: `orgMrn:type:id` with the id sanitised; services are refused. */
  function GenerateMrnForEntity(orgMrn: string, entityType: string, entityId: string): (r: Result<string, JavaError>)
    ensures r.Failure? <==> entityType == "service"
    ensures r.Failure? ==> r.error == IllegalArgument("Generating MRN for services is not supported")
    ensures r.Success? ==>
      |r.value| == |orgMrn| + |entityType| + |entityId| + 2 &&
      StartsWith(r.value, orgMrn + ":" + entityType + ":") &&
      forall k :: 0 <= k < |entityId| ==> r.value[|r.value| - |entityId| + k] == Sanitize(entityId)[k]
  {
    var cleaned := Sanitize(entityId);
    if entityType == "service" then
      Failure(IllegalArgument("Generating MRN for services is not supported"))
    else
      var mrn := orgMrn + ":" + entityType + ":" + cleaned;
      assert mrn[..|orgMrn| + |entityType| + 2] == orgMrn + ":" + entityType + ":";
      Success(mrn)
  }

  /** The entity id read back from a generated MRN is the sanitised id. */
  lemma EntityIdOfGeneratedMrn(orgMrn: string, entityType: string, entityId: string)
    requires entityType != "service"
    ensures EntityIdFromMrn(GenerateMrnForEntity(orgMrn, entityType, entityId).value) == Sanitize(entityId)
  {
    var s := GenerateMrnForEntity(orgMrn, entityType, entityId).value;
    var prefix := orgMrn + ":" + entityType + ":";
    SanitizeProperties(entityId);
    assert s == prefix + Sanitize(entityId);
    LastSegmentOfJoined(prefix, Sanitize(entityId));
  }

  /** One of the per-type checks of `validateMrn`: the text that triggers it, the marker its pattern demands, its message. */
  datatype TypeCheck = TypeCheck(guard: string, marker: string, message: string)

  const TypeChecks: seq<TypeCheck> := [
    TypeCheck(":service:", ":service:instance:", "MRN is not in a valid format for a service instances"),
    TypeCheck(":user:", ":user:", "MRN is not in a valid format for a user"),
    TypeCheck(":vessel:", ":vessel:", "MRN is not in a valid format for a vessel"),
    TypeCheck(":device:", ":device:", "MRN is not in a valid format for a device")
  ]

  /** An MRN containing the check's text matches that type's pattern. */
  predicate PassesCheck(mrn: string, check: TypeCheck) {
    Contains(mrn, check.guard) ==> MatchesTypedPattern(mrn, check.marker)
  }

  /** The MRNs `validateMrn` accepts: not blank, the base pattern, and every per-type check. */
  predicate IsValidMrn(mrn: string) {
    !IsBlank(mrn) && MatchesMrnPattern(mrn) && forall i :: 0 <= i < |TypeChecks| ==> PassesCheck(mrn, TypeChecks[i])
  }

  /** The position in `TypeChecks` of the first check `mrn` fails; `|TypeChecks|` when it passes all. */
  function FirstFailedCheck(mrn: string): (i: nat)
    ensures i <= |TypeChecks|
    ensures i < |TypeChecks| ==> !PassesCheck(mrn, TypeChecks[i])
    ensures forall j :: 0 <= j < i ==> PassesCheck(mrn, TypeChecks[j])
  {
    if !PassesCheck(mrn, TypeChecks[0]) then 0
    else if !PassesCheck(mrn, TypeChecks[1]) then 1
    else if !PassesCheck(mrn, TypeChecks[2]) then 2
    else if !PassesCheck(mrn, TypeChecks[3]) then 3
    else 4
  }

  /**
   * `validateMrn`: true for a valid MRN, otherwise the first failing check's exception (`None` is
   * a null MRN). The per-type branches form one if/else-if chain, each firing only when its text
   * occurs and its pattern fails, so a check whose pattern matches passes control to the next.
   */
  function ValidateMrn(mrn: Option<string>): (r: Result<bool, JavaError>)
    ensures r.Success? ==> r.value
    ensures r.Success? <==> mrn.Some? && IsValidMrn(mrn.value)
    ensures mrn.None? || IsBlank(mrn.value) ==> r == Failure(IllegalArgument("MRN is empty"))
    ensures mrn.Some? && !IsBlank(mrn.value) && !MatchesMrnPattern(mrn.value) ==>
      r == Failure(IllegalArgument("MRN is not in a valid format"))
    ensures mrn.Some? && !IsBlank(mrn.value) && MatchesMrnPattern(mrn.value) && r.Failure? ==>
      r.error == IllegalArgument(TypeChecks[FirstFailedCheck(mrn.value)].message)
  {
    if mrn.None? || IsBlank(mrn.value) then
      Failure(IllegalArgument("MRN is empty"))
    else if !MatchesMrnPattern(mrn.value) then
      Failure(IllegalArgument("MRN is not in a valid format"))
    else if FirstFailedCheck(mrn.value) < |TypeChecks| then
      Failure(IllegalArgument(TypeChecks[FirstFailedCheck(mrn.value)].message))
    else
      Success(true)
  }

  /** The rejections: empty, no `urn:mrn:` prefix, `:service:` without `:instance:`. */
  lemma ValidateMrnRejections(s: string)
    ensures ValidateMrn(Some("")).Failure?
    ensures !StartsWithIgnoreCase(s, MrnPrefix) ==> ValidateMrn(Some(s)).Failure?
    ensures Contains(s, ":service:") && (forall i :: !OccursAtIgnoreCase(s, ":service:instance:", i)) ==>
      ValidateMrn(Some(s)).Failure?
  {
  }

  /** Organization MRNs for which generated entity MRNs are checked: no type text anywhere in `orgMrn + ":"`. */
  predicate IsPlainOrgMrn(orgMrn: string) {
    MatchesMrnPattern(orgMrn) && forall i :: 0 <= i < |TypeChecks| ==> !Contains(orgMrn + ":", TypeChecks[i].guard)
  }

  lemma LetterOrColonIsNssChar(c: char)
    requires IsLetter(c) || c == ':'
    ensures IsNssChar(c)
  {
    assert OtherChars[6] == ':';
  }

  /** A marker of letters and colons is a run of NSS tokens. */
  lemma MarkerTokens(marker: string)
    requires forall k :: 0 <= k < |marker| ==> IsLetter(marker[k]) || marker[k] == ':'
    ensures NssTokens(marker)
  {
    forall k | 0 <= k < |marker| ensures IsNssChar(marker[k]) {
      LetterOrColonIsNssChar(marker[k]);
    }
    NssCharsAreTokens(marker);
  }

  /** Anything appended to a string keeps the prefix it starts with, ignoring case. */
  lemma PrefixKept(s: string, t: string, p: string)
    requires StartsWithIgnoreCase(s, p)
    ensures StartsWithIgnoreCase(s + t, p)
  {
    assert (s + t)[..|p|] == s[..|p|];
  }

  /** Dropping a prefix of the first part of a three-part join. */
  lemma DropFromJoin(a: string, b: string, c: string, n: nat)
    requires n <= |a|
    ensures (a + b + c)[n..] == a[n..] + b + c
  {
  }

  /** The base pattern, from its two parts. */
  lemma MrnPatternOf(w: string, rest: string)
    requires StartsWithIgnoreCase(w, MrnPrefix) && w[8..] == rest && IsNss(rest)
    ensures MatchesMrnPattern(w)
  {
  }

  /** `orgMrn:type:id` matches the base MRN pattern when `orgMrn` does and `id` is a run of NSS tokens. */
  lemma JoinedMatchesMrnPattern(orgMrn: string, marker: string, id: string)
    requires MatchesMrnPattern(orgMrn) && NssTokens(id)
    requires forall k :: 0 <= k < |marker| ==> IsLetter(marker[k]) || marker[k] == ':'
    ensures MatchesMrnPattern(orgMrn + marker + id)
  {
    var rest := orgMrn[8..];
    MarkerTokens(marker);
    NssTokensConcat(rest, marker);
    NssTokensConcat(rest + marker, id);
    PrefixKept(orgMrn, marker, MrnPrefix);
    PrefixKept(orgMrn + marker, id, MrnPrefix);
    DropFromJoin(orgMrn, marker, id, 8);
    MrnPatternOf(orgMrn + marker + id, rest + marker + id);
  }

  /** `orgMrn:type:id` matches the pattern of the marker `:type:` that was joined in. */
  lemma JoinedMatchesTypedPattern(orgMrn: string, marker: string, id: string)
    requires MatchesMrnPattern(orgMrn) && IsNss(id)
    ensures MatchesTypedPattern(orgMrn + marker + id, marker)
  {
    var w := orgMrn + marker + id;
    var n := |orgMrn|;
    assert w[..8] == orgMrn[..8];
    assert w[8..n] == orgMrn[8..];
    assert w[n..n + |marker|] == marker;
    OccursAtIgnoresCase(w, marker, n);
    assert w[n + |marker|..] == id;
  }

  /**
   * For a plain organization MRN, an MRN generated for a user, vessel or device from a non-empty id of
   * letters, digits and cleaned characters is accepted by `validateMrn`.
   */
  lemma GeneratedMrnIsValid(orgMrn: string, entityType: string, entityId: string)
    requires IsPlainOrgMrn(orgMrn)
    requires entityType == "user" || entityType == "vessel" || entityType == "device"
    requires |entityId| > 0
    requires forall k :: 0 <= k < |entityId| ==> IsAlnum(entityId[k]) || entityId[k] in SanitizedChars
    ensures GenerateMrnForEntity(orgMrn, entityType, entityId).Success?
    ensures ValidateMrn(Some(GenerateMrnForEntity(orgMrn, entityType, entityId).value)) == Success(true)
  {
    var id := Sanitize(entityId);
    SanitizeProperties(entityId);
    SanitizedIdIsNss(entityId);
    JoinedIsValid(orgMrn, entityType, id);
  }

  /** `orgMrn:type:id`, for a plain organization MRN and a colon-free NSS `id`, is a valid MRN. */
  lemma JoinedIsValid(orgMrn: string, entityType: string, id: string)
    requires IsPlainOrgMrn(orgMrn)
    requires entityType == "user" || entityType == "vessel" || entityType == "device"
    requires IsNss(id) && ':' !in id
    ensures IsValidMrn(orgMrn + ":" + entityType + ":" + id)
  {
    var w := orgMrn + ":" + entityType + ":" + id;
    GeneratedMatchesPatterns(orgMrn, entityType, id);
    forall i | 0 <= i < |TypeChecks| ensures PassesCheck(w, TypeChecks[i]) {
      GeneratedPassesCheck(orgMrn, entityType, id, i);
    }
  }

  /** `orgMrn:type:id` is not blank and matches the base pattern and the pattern of its own type. */
  lemma GeneratedMatchesPatterns(orgMrn: string, entityType: string, id: string)
    requires MatchesMrnPattern(orgMrn)
    requires entityType == "user" || entityType == "vessel" || entityType == "device"
    requires IsNss(id)
    ensures var w := orgMrn + ":" + entityType + ":" + id;
      !IsBlank(w) && MatchesMrnPattern(w) && MatchesTypedPattern(w, ":" + entityType + ":")
  {
    var marker := ":" + entityType + ":";
    var w := orgMrn + ":" + entityType + ":" + id;
    assert w == orgMrn + marker + id;
    assert forall k :: 0 <= k < |marker| ==> IsLetter(marker[k]) || marker[k] == ':';
    JoinedMatchesMrnPattern(orgMrn, marker, id);
    JoinedMatchesTypedPattern(orgMrn, marker, id);
    assert !IsBlank(w) by {
      assert w[..8] == orgMrn[..8];
      assert LowerChar(w[0]) == 'u';
    }
  }

  /** A check whose text is not the joined marker cannot fire: that text would lie inside `orgMrn + ":"`. */
  lemma GeneratedPassesCheck(orgMrn: string, entityType: string, id: string, i: nat)
    requires IsPlainOrgMrn(orgMrn) && i < |TypeChecks|
    requires entityType == "user" || entityType == "vessel" || entityType == "device"
    requires ':' !in id
    requires MatchesTypedPattern(orgMrn + ":" + entityType + ":" + id, ":" + entityType + ":")
    ensures PassesCheck(orgMrn + ":" + entityType + ":" + id, TypeChecks[i])
  {
    var w := orgMrn + ":" + entityType + ":" + id;
    var g := TypeChecks[i].guard;
    var x := g[1..|g| - 1];
    assert g == ":" + x + ":" && ':' !in x;
    if j :| 0 <= j <= |w| && OccursAt(w, g, j) {
      MarkerInJoined(orgMrn, entityType, id, x, j);
      assert !OccursAt(orgMrn + ":", g, j);
      assert x == entityType;
      assert TypeChecks[i].marker == g;
    }
  }

  /**
   * `generateClientName`: `<validator>_<org short name>_<service type>_<entity id>`, failing with the
   * first exception among the parts.
   */
  function GenerateClientName(serviceMrn: string): (r: Result<string, JavaError>)
    ensures OrgShortNameFromEntityMrn(serviceMrn).Failure? ==> r == OrgShortNameFromEntityMrn(serviceMrn).PropagateFailure()
    ensures OrgShortNameFromEntityMrn(serviceMrn).Success? ==>
      r.Success? == ServiceTypeFromMrn(serviceMrn).Success?
    ensures OrgShortNameFromEntityMrn(serviceMrn).Success? && ServiceTypeFromMrn(serviceMrn).Failure? ==>
      r == ServiceTypeFromMrn(serviceMrn).PropagateFailure()
    ensures r.Success? ==>
      var org := OrgShortNameFromEntityMrn(serviceMrn).value;
      r.value == OrgValidatorFromOrgShortname(org) + "_" + org + "_" + ServiceTypeFromMrn(serviceMrn).value + "_" + EntityIdFromMrn(serviceMrn)
  {
    var orgShortName :- OrgShortNameFromEntityMrn(serviceMrn);
    var orgValidator := OrgValidatorFromOrgShortname(orgShortName);
    var serviceName := EntityIdFromMrn(serviceMrn);
    var serviceType :- ServiceTypeFromMrn(serviceMrn);
    Success(orgValidator + "_" + orgShortName + "_" + serviceType + "_" + serviceName)
  }

  /** For an MRN whose only entity marker is `:service:instance:`, the client name repeats the organization segment. */
  lemma ClientNameRepeatsOrgSegment(serviceMrn: string)
    requires FirstContained(serviceMrn, EntityMarkers) == 3
    requires GenerateClientName(serviceMrn).Success?
    ensures var org := OrgShortNameFromEntityMrn(serviceMrn).value;
      GenerateClientName(serviceMrn).value ==
        OrgValidatorFromOrgShortname(org) + "_" + org + "_" + org + "_" + EntityIdFromMrn(serviceMrn)
  {
    ServiceTypeIsOrgSegment(serviceMrn);
  }
}
