/**
 * The older MRN helpers, for MRNs shaped `urn:mrn:mcl:org:<org>:<type>:<id>`. Three of them read
 * their segment at the wrong offset; each is modelled as written (suffix `AsWritten`) next to the
 * corrected definition, and the corrected ones are what the rest of the model relies on.
 * `generateMrnForEntity` is textually the same as the newer one and is `MrnUtil.GenerateMrnForEntity`.
 */
module MrnUtils {
  import opened Wrappers
  import opened JavaString
  import opened UrnSyntax
  import MrnUtil

  const McMrnPrefix: string := "urn:mrn:mcl"
  const McMrnOrgPrefix: string := McMrnPrefix + ":org"

  /** The entity markers in the order the older helpers try them. */
  const LegacyMarkers: seq<string> := [":user:", ":device:", ":vessel:", ":service:"]

  /** `substring(lastIndexOf(":"))` as written: the suffix from the last `:`, colon included. */
  function OrgShortNameFromOrgMrnAsWritten(orgMrn: string): (r: Result<string, JavaError>)
    ensures r.Failure? <==> ':' !in orgMrn
    ensures r.Success? ==> r.value == ":" + MrnUtil.OrgShortNameFromOrgMrn(orgMrn)
  {
    var idx := LastIndexOf(orgMrn, ':');
    assert idx >= 0 ==> orgMrn[idx..] == [orgMrn[idx]] + orgMrn[idx + 1..];
    Substring(orgMrn, idx, |orgMrn|)
  }

  /** `getEntityIdFromMrn` as written: the same computation as `getOrgShortNameFromOrgMrn`. */
  function EntityIdFromMrnAsWritten(entityMrn: string): (r: Result<string, JavaError>)
    ensures r == OrgShortNameFromOrgMrnAsWritten(entityMrn)
  {
    Substring(entityMrn, LastIndexOf(entityMrn, ':'), |entityMrn|)
  }

  /** On `urn:mrn:mcl:org:dma` the helpers keep the colon that the newer ones drop. */
  lemma OrgShortNameKeepsColon(orgMrn: string)
    requires orgMrn == "urn:mrn:mcl:org:dma"
    ensures OrgShortNameFromOrgMrnAsWritten(orgMrn) == Success(":dma")
    ensures EntityIdFromMrnAsWritten(orgMrn) == Success(":dma")
    ensures MrnUtil.OrgShortNameFromOrgMrn(orgMrn) == "dma"
  {
    assert orgMrn == MrnUtil.McMrnOrgPrefix + ":" + "dma";
    assert orgMrn[3] == ':';
    MrnUtil.OrgShortNameOfOrgMrn("dma");
    assert MrnUtil.OrgShortNameFromOrgMrn(orgMrn) == "dma";
    assert OrgShortNameFromOrgMrnAsWritten(orgMrn).Success?;
    assert OrgShortNameFromOrgMrnAsWritten(orgMrn).value == ":dma";
  }

  /** `getOrgValidatorFromOrgMrn` as written: "mcl" only when the last `:` is at index 16. */
  function OrgValidatorFromOrgMrnAsWritten(orgMrn: string): (r: Result<string, JavaError>)
    ensures LastIndexOf(orgMrn, ':') == |McMrnOrgPrefix| + 1 ==> r == Success(MrnUtil.DefaultValidator)
    ensures LastIndexOf(orgMrn, ':') != |McMrnOrgPrefix| + 1 ==>
      r == SubstringToNext(orgMrn, |McMrnOrgPrefix| + 1, ':')
  {
    var idx := LastIndexOf(orgMrn, ':');
    if idx == |McMrnOrgPrefix| + 1 then Success("mcl")
    else SubstringToNext(orgMrn, |McMrnOrgPrefix| + 1, ':')
  }

  /**
   * The validator of an organization MRN: "mcl" for `urn:mrn:mcl:org:<org>` (last `:` right after the
   * prefix), otherwise the segment after the prefix, as in `urn:mrn:mcl:org:<validator>:<org>`.
   */
  function OrgValidatorFromOrgMrn(orgMrn: string): (r: Result<string, JavaError>)
    ensures LastIndexOf(orgMrn, ':') == |McMrnOrgPrefix| ==> r == Success(MrnUtil.DefaultValidator)
    ensures r.Success? && LastIndexOf(orgMrn, ':') != |McMrnOrgPrefix| ==>
      |McMrnOrgPrefix| + 1 + |r.value| < |orgMrn| &&
      orgMrn[|McMrnOrgPrefix| + 1..|McMrnOrgPrefix| + 1 + |r.value|] == r.value &&
      orgMrn[|McMrnOrgPrefix| + 1 + |r.value|] == ':' && ':' !in r.value
  {
    var idx := LastIndexOf(orgMrn, ':');
    if idx == |McMrnOrgPrefix| then Success("mcl")
    else SubstringToNext(orgMrn, |McMrnOrgPrefix| + 1, ':')
  }

  /** The last `:` of `urn:mrn:mcl:org:<org>` (no `:` in `org`) is the one right after the prefix. */
  lemma LastColonOfOrgMrn(org: string)
    requires ':' !in org
    ensures LastIndexOf(McMrnOrgPrefix + ":" + org, ':') == |McMrnOrgPrefix|
  {
    var w := McMrnOrgPrefix + ":" + org;
    assert McMrnOrgPrefix == MrnUtil.McMrnOrgPrefix;
    MrnUtil.OrgShortNameOfOrgMrn(org);
    assert MrnUtil.OrgShortNameFromOrgMrn(w) == w[LastIndexOf(w, ':') + 1..];
    assert |McMrnOrgPrefix| == 15 && |w| == 16 + |org|;
  }

  /**
   * For a plain organization MRN the corrected validator is "mcl" while the code as written throws;
   * for a nested one, `urn:mrn:mcl:org:<validator>:<org>`, both give the validator segment.
   */
  lemma ValidatorOfOrgMrn(validator: string, org: string)
    requires ':' !in validator && ':' !in org && |validator| > 0
    ensures OrgValidatorFromOrgMrn(McMrnOrgPrefix + ":" + org) == Success("mcl")
    ensures OrgValidatorFromOrgMrnAsWritten(McMrnOrgPrefix + ":" + org) == Failure(IndexOutOfBounds)
    ensures OrgValidatorFromOrgMrn(McMrnOrgPrefix + ":" + validator + ":" + org) == Success(validator)
    ensures OrgValidatorFromOrgMrnAsWritten(McMrnOrgPrefix + ":" + validator + ":" + org) == Success(validator)
  {
    var plain := McMrnOrgPrefix + ":" + org;
    LastColonOfOrgMrn(org);
    assert plain[16..] == org;
    var nested := McMrnOrgPrefix + ":" + validator + ":" + org;
    assert nested == (McMrnOrgPrefix + ":" + validator + ":") + org;
    MrnUtil.LastSegmentOfJoined(McMrnOrgPrefix + ":" + validator + ":", org);
    assert LastIndexOf(nested, ':') == 16 + |validator|;
    assert nested[16..16 + |validator|] == validator && nested[16 + |validator|] == ':';
    SegmentAt(nested, 16, validator);
  }

  /** A colon-free `seg` followed by `:` at `start` is what `SubstringToNext` reads there. */
  lemma SegmentAt(s: string, start: nat, seg: string)
    requires start + |seg| < |s| && s[start..start + |seg|] == seg && s[start + |seg|] == ':' && ':' !in seg
    ensures SubstringToNext(s, start, ':') == Success(seg)
  {
    assert ':' in s[start..] by {
      assert s[start..][|seg|] == ':';
    }
    var r := SubstringToNext(s, start, ':').value;
    assert forall k :: 0 <= k < |r| ==> s[start + k] == r[k];
    assert forall k :: 0 <= k < |seg| ==> s[start + k] == seg[k];
    assert |r| <= |seg|;
    assert |r| >= |seg|;
  }

  /** The end index the older helpers compute: the first occurrence of the first marker contained, or -1. */
  function MarkerIndex(entityMrn: string): (e: int)
    ensures e == -1 <==> MrnUtil.FirstContained(entityMrn, LegacyMarkers) == |LegacyMarkers|
    ensures e >= 0 ==> var k := MrnUtil.FirstContained(entityMrn, LegacyMarkers);
      OccursAt(entityMrn, LegacyMarkers[k], e) && forall j :: 0 <= j < e ==> !OccursAt(entityMrn, LegacyMarkers[k], j)
    ensures e >= 0 ==> e < |entityMrn| && entityMrn[e] == ':'
  {
    var k := MrnUtil.FirstContained(entityMrn, LegacyMarkers);
    if k == |LegacyMarkers| then -1
    else
      var e := IndexOf(entityMrn, LegacyMarkers[k]);
      assert LegacyMarkers[k][0] == ':';
      assert entityMrn[e..e + |LegacyMarkers[k]|][0] == entityMrn[e];
      e
  }

  /**
   * `getOrgShortNameFromEntityMrn` as written: the backward search for `:` starts on the marker's own
   * leading `:`, so a found marker always yields the empty string; without one it throws.
   */
  function OrgShortNameFromEntityMrnAsWritten(entityMrn: string): (r: Result<string, JavaError>)
    ensures MarkerIndex(entityMrn) == -1 ==> r == Failure(IndexOutOfBounds)
    ensures MarkerIndex(entityMrn) >= 0 ==> r == Success("")
  {
    var endIdx := MarkerIndex(entityMrn);
    var startIdx := LastIndexOfFrom(entityMrn, ':', endIdx);
    Substring(entityMrn, startIdx, endIdx)
  }

  /**
   * The organization short name of an entity MRN: the colon-free segment that ends where the chosen
   * marker starts, beginning after the `:` before it. Without a marker it throws.
   */
  function OrgShortNameFromEntityMrn(entityMrn: string): (r: Result<string, JavaError>)
    ensures MarkerIndex(entityMrn) == -1 ==> r == Failure(IndexOutOfBounds)
    ensures MarkerIndex(entityMrn) >= 0 ==> r.Success?
    ensures r.Success? ==> var e := MarkerIndex(entityMrn);
      |r.value| <= e && entityMrn[e - |r.value|..e] == r.value && ':' !in r.value &&
      (|r.value| == e || entityMrn[e - |r.value| - 1] == ':')
  {
    var endIdx := MarkerIndex(entityMrn);
    var startIdx := LastIndexOfFrom(entityMrn, ':', endIdx - 1) + 1;
    assert forall k :: 0 <= k < endIdx - startIdx ==> entityMrn[startIdx..endIdx][k] == entityMrn[startIdx + k];
    Substring(entityMrn, startIdx, endIdx)
  }

  /** `getOrgMrnEntityMrn`: the MRN up to the chosen marker; it throws without one. */
  function OrgMrnEntityMrn(entityMrn: string): (r: Result<string, JavaError>)
    ensures MarkerIndex(entityMrn) == -1 ==> r == Failure(IndexOutOfBounds)
    ensures MarkerIndex(entityMrn) >= 0 ==> r == Success(entityMrn[..MarkerIndex(entityMrn)])
  {
    var endIdx := MarkerIndex(entityMrn);
    Substring(entityMrn, 0, endIdx)
  }

  /**
   * `getServiceTypeFromMrn`: the segment after the first `:service:` up to the next `:`; without
   * `:service:`, `indexOf` yields -1 and the segment is read from index 8.
   */
  function ServiceTypeFromMrn(serviceMrn: string): (r: Result<string, JavaError>)
    ensures !Contains(serviceMrn, ":service:") ==> r == SubstringToNext(serviceMrn, 8, ':')
    ensures Contains(serviceMrn, ":service:") ==>
      (r.Success? <==> ':' in serviceMrn[IndexOf(serviceMrn, ":service:") + 9..])
    ensures r.Failure? ==> r.error == IndexOutOfBounds
    ensures Contains(serviceMrn, ":service:") && r.Success? ==>
      var start := IndexOf(serviceMrn, ":service:") + 9;
      start + |r.value| < |serviceMrn| && serviceMrn[start..start + |r.value|] == r.value &&
      serviceMrn[start + |r.value|] == ':' && ':' !in r.value
  {
    var startIdx := IndexOf(serviceMrn, ":service:") + 9;
    SubstringToNext(serviceMrn, startIdx, ':')
  }

  /**
   * The boolean `validateMrn`: false for null or blank input, otherwise whether the older pattern
   * matches. Blank input never matches, and a match also satisfies the base MRN pattern.
   */
  function ValidateMrn(mrn: Option<string>): (r: bool)
    ensures r <==> mrn.Some? && MatchesLegacyMrnPattern(mrn.value)
    ensures r ==> MatchesMrnPattern(mrn.value) && MatchesUrnPattern(mrn.value)
  {
    assert mrn.Some? && MatchesLegacyMrnPattern(mrn.value) ==>
      !IsBlank(mrn.value) && MatchesMrnPattern(mrn.value) && MatchesUrnPattern(mrn.value) by {
      if mrn.Some? && MatchesLegacyMrnPattern(mrn.value) {
        LegacyPatternIsMrnPattern(mrn.value);
        MrnPatternIsUrnPattern(mrn.value);
        assert mrn.value[..8][0] == mrn.value[0];
        assert LowerChar(mrn.value[0]) == 'u';
      }
    }
    if mrn.None? || IsBlank(mrn.value) then false
    else MatchesLegacyMrnPattern(mrn.value)
  }

  /**
   * `generateClientName` as written, with the helpers above failing in the order the code calls them.
   * With a marker it succeeds exactly when the validator and the service type can be read; the short
   * name is then always empty and the service id keeps its leading `:`.
   */
  function GenerateClientNameAsWritten(serviceMrn: string): (r: Result<string, JavaError>)
    ensures MarkerIndex(serviceMrn) == -1 ==> r == Failure(IndexOutOfBounds)
    ensures MarkerIndex(serviceMrn) >= 0 ==>
      (r.Success? <==> OrgValidatorFromOrgMrnAsWritten(serviceMrn[..MarkerIndex(serviceMrn)]).Success? &&
                       ServiceTypeFromMrn(serviceMrn).Success?)
    ensures r.Failure? ==> r.error == IndexOutOfBounds
    ensures r.Success? ==>
      r.value == OrgValidatorFromOrgMrnAsWritten(serviceMrn[..MarkerIndex(serviceMrn)]).value + "__" +
        ServiceTypeFromMrn(serviceMrn).value + "_:" + MrnUtil.OrgShortNameFromOrgMrn(serviceMrn)
  {
    // the short name and the organization MRN fail together, when no marker is found, and the
    // service id never fails once a marker (which holds a `:`) is found
    if MarkerIndex(serviceMrn) == -1 then Failure(IndexOutOfBounds)
    else
    var orgShortName := OrgShortNameFromEntityMrnAsWritten(serviceMrn).value;
    var orgMrn := OrgMrnEntityMrn(serviceMrn).value;
    var orgValidator :- OrgValidatorFromOrgMrnAsWritten(orgMrn);
    assert ':' in serviceMrn by {
      assert serviceMrn[MarkerIndex(serviceMrn)] == ':';
    }
    var serviceName := EntityIdFromMrnAsWritten(serviceMrn).value;
    var serviceType :- ServiceTypeFromMrn(serviceMrn);
    JoinWithEmptyShortName(orgValidator, serviceType, MrnUtil.OrgShortNameFromOrgMrn(serviceMrn));
    Success(orgValidator + "_" + orgShortName + "_" + serviceType + "_" + serviceName)
  }

  /** Joining with an empty short name and a `:`-prefixed id. */
  lemma JoinWithEmptyShortName(validator: string, serviceType: string, id: string)
    ensures validator + "_" + "" + "_" + serviceType + "_" + (":" + id) ==
      validator + "__" + serviceType + "_:" + id
  {
    assert validator + "_" + "" == validator + "_";
  }

  /**
   * `generateClientName` with the corrected helpers:
   * `<validator>_<org short name>_<service type>_<service id>`.
   */
  function GenerateClientName(serviceMrn: string): (r: Result<string, JavaError>)
    ensures MarkerIndex(serviceMrn) == -1 ==> r == Failure(IndexOutOfBounds)
    ensures r.Success? ==>
      OrgShortNameFromEntityMrn(serviceMrn).Success? && OrgMrnEntityMrn(serviceMrn).Success? &&
      OrgValidatorFromOrgMrn(OrgMrnEntityMrn(serviceMrn).value).Success? && ServiceTypeFromMrn(serviceMrn).Success? &&
      r.value == OrgValidatorFromOrgMrn(OrgMrnEntityMrn(serviceMrn).value).value + "_" +
        OrgShortNameFromEntityMrn(serviceMrn).value + "_" + ServiceTypeFromMrn(serviceMrn).value + "_" +
        MrnUtil.EntityIdFromMrn(serviceMrn)
  {
    // the short name and the organization MRN fail together, when no marker is found
    if MarkerIndex(serviceMrn) == -1 then Failure(IndexOutOfBounds)
    else
    var orgShortName := OrgShortNameFromEntityMrn(serviceMrn).value;
    var orgMrn := OrgMrnEntityMrn(serviceMrn).value;
    var orgValidator :- OrgValidatorFromOrgMrn(orgMrn);
    var serviceName := MrnUtil.EntityIdFromMrn(serviceMrn);
    var serviceType :- ServiceTypeFromMrn(serviceMrn);
    Success(orgValidator + "_" + orgShortName + "_" + serviceType + "_" + serviceName)
  }

  /** When every helper succeeds, the client name joins their results with `_`. */
  lemma ClientNameOfParts(serviceMrn: string, org: string, orgMrn: string, validator: string, serviceType: string, id: string)
    requires MarkerIndex(serviceMrn) >= 0
    requires OrgShortNameFromEntityMrn(serviceMrn) == Success(org) && OrgMrnEntityMrn(serviceMrn) == Success(orgMrn)
    requires OrgValidatorFromOrgMrn(orgMrn) == Success(validator) && ServiceTypeFromMrn(serviceMrn) == Success(serviceType)
    requires MrnUtil.EntityIdFromMrn(serviceMrn) == id
    ensures GenerateClientName(serviceMrn) == Success(validator + "_" + org + "_" + serviceType + "_" + id)
  {
  }

  /** Organization MRNs none of whose markers occur in `orgMrn + ":"`. */
  predicate HasNoMarker(orgMrn: string) {
    forall i :: 0 <= i < |LegacyMarkers| ==> !Contains(orgMrn + ":", LegacyMarkers[i])
  }

  /**
   * For an organization MRN without markers, the MRN generated for a user, device or vessel gives
   * back the organization MRN, its short name and the sanitised id.
   */
  lemma GeneratedMrnRoundTrip(orgMrn: string, entityType: string, entityId: string)
    requires HasNoMarker(orgMrn)
    requires entityType == "user" || entityType == "device" || entityType == "vessel"
    ensures var w := MrnUtil.GenerateMrnForEntity(orgMrn, entityType, entityId).value;
      OrgMrnEntityMrn(w) == Success(orgMrn) &&
      OrgShortNameFromEntityMrn(w) == Success(MrnUtil.OrgShortNameFromOrgMrn(orgMrn)) &&
      MrnUtil.EntityIdFromMrn(w) == Sanitize(entityId)
  {
    var id := Sanitize(entityId);
    SanitizeProperties(entityId);
    var w := orgMrn + ":" + entityType + ":" + id;
    assert MrnUtil.GenerateMrnForEntity(orgMrn, entityType, entityId).value == w;
    MarkerOfGeneratedMrn(orgMrn, entityType, id);
    ShortNameBeforeMarker(w, orgMrn);
    MrnUtil.EntityIdOfGeneratedMrn(orgMrn, entityType, entityId);
  }

  /** When the chosen marker starts right after the prefix `orgMrn`, the short name is that of `orgMrn`. */
  lemma ShortNameBeforeMarker(w: string, orgMrn: string)
    requires |orgMrn| <= |w| && w[..|orgMrn|] == orgMrn && MarkerIndex(w) == |orgMrn|
    ensures OrgMrnEntityMrn(w) == Success(orgMrn)
    ensures OrgShortNameFromEntityMrn(w) == Success(MrnUtil.OrgShortNameFromOrgMrn(orgMrn))
  {
    var r := OrgShortNameFromEntityMrn(w).value;
    assert w[|orgMrn| - |r|..|orgMrn|] == orgMrn[|orgMrn| - |r|..];
    assert |r| < |orgMrn| ==> w[|orgMrn| - |r| - 1] == orgMrn[|orgMrn| - |r| - 1];
    MrnUtil.LastSegmentUnique(orgMrn, r);
  }

  /** In `orgMrn:type:id`, the chosen marker is `:type:` and it starts right after `orgMrn`. */
  lemma MarkerOfGeneratedMrn(orgMrn: string, entityType: string, id: string)
    requires HasNoMarker(orgMrn) && ':' !in id
    requires entityType == "user" || entityType == "device" || entityType == "vessel"
    ensures MarkerIndex(orgMrn + ":" + entityType + ":" + id) == |orgMrn|
  {
    var w := orgMrn + ":" + entityType + ":" + id;
    var m := ":" + entityType + ":";
    var k := if entityType == "user" then 0 else if entityType == "device" then 1 else 2;
    assert LegacyMarkers[k] == m;
    assert w[|orgMrn|..|orgMrn| + |m|] == m;
    assert OccursAt(w, LegacyMarkers[k], |orgMrn|);
    forall i, j | 0 <= i < |LegacyMarkers| && OccursAt(w, LegacyMarkers[i], j)
      ensures LegacyMarkers[i] == m && j == |orgMrn|
    {
      OnlyMarkerOfGeneratedMrn(orgMrn, entityType, id, i, j);
    }
    assert forall i :: 0 <= i < k ==> LegacyMarkers[i] != m;
    MrnUtil.FirstContainedIs(w, LegacyMarkers, k);
  }

  /** Every marker occurrence in `orgMrn:type:id` is `:type:` right after `orgMrn`. */
  lemma OnlyMarkerOfGeneratedMrn(orgMrn: string, entityType: string, id: string, i: nat, j: int)
    requires HasNoMarker(orgMrn) && ':' !in id
    requires entityType == "user" || entityType == "device" || entityType == "vessel"
    requires i < |LegacyMarkers| && OccursAt(orgMrn + ":" + entityType + ":" + id, LegacyMarkers[i], j)
    ensures LegacyMarkers[i] == ":" + entityType + ":" && j == |orgMrn|
  {
    var g := LegacyMarkers[i];
    var x := g[1..|g| - 1];
    assert g == ":" + x + ":" && ':' !in x;
    MarkerInJoined(orgMrn, entityType, id, x, j);
    assert !Contains(orgMrn + ":", g);
  }

  /** A service instance MRN `urn:mrn:mcl:org:<org>:service:<type>:instance:<id>`. */
  function InstanceMrn(org: string, serviceType: string, id: string): string {
    McMrnOrgPrefix + ":" + org + ":service:" + serviceType + ":instance:" + id
  }

  /** Service instance MRNs whose segments are colon-free and none of whose segments names another entity type. */
  predicate PlainInstanceParts(org: string, serviceType: string, id: string) {
    ':' !in org && ':' !in serviceType && ':' !in id &&
    org != "user" && org != "device" && org != "vessel" && org != "service" &&
    serviceType != "user" && serviceType != "device" && serviceType != "vessel" &&
    id != "user" && id != "device" && id != "vessel"
  }

  /**
   * The client name of a service instance MRN (for example
   * `urn:mrn:mcl:org:dma:service:nw-nm:instance:nw-nm2`): the code as written always throws, because
   * its validator lookup reads past the last `:`; the corrected helpers give
   * `mcl_<org>_<type>_<id>`.
   */
  lemma ClientNameOfInstanceMrn(org: string, serviceType: string, id: string)
    requires PlainInstanceParts(org, serviceType, id)
    ensures GenerateClientNameAsWritten(InstanceMrn(org, serviceType, id)) == Failure(IndexOutOfBounds)
    ensures GenerateClientName(InstanceMrn(org, serviceType, id)) ==
      Success("mcl" + "_" + org + "_" + serviceType + "_" + id)
  {
    ClientNameAsWrittenFails(org, serviceType, id);
    var s := InstanceMrn(org, serviceType, id);
    OrgPartsOfInstanceMrn(org, serviceType, id);
    ServicePartsOfInstanceMrn(org, serviceType, id);
    LastColonOfOrgMrn(org);
    ClientNameOfParts(s, org, McMrnOrgPrefix + ":" + org, "mcl", serviceType, id);
  }

  /**
   * The newer `MrnUtil.generateClientName` rejects every organization service instance MRN (for
   * example `urn:mrn:mcl:org:dma:service:nw-nm:instance:nw-nm2`): it holds none of `:user:`,
   * `:device:`, `:vessel:` and `:service:instance:`, so the organization lookup throws first.
   */
  lemma NewerClientNameRejectsInstanceMrn(org: string, serviceType: string, id: string)
    requires PlainInstanceParts(org, serviceType, id) && serviceType != "service" && serviceType != "instance"
    ensures MrnUtil.GenerateClientName(InstanceMrn(org, serviceType, id)) ==
      Failure(IllegalArgument("MRN is not a valid entity MRN!"))
  {
    var s := InstanceMrn(org, serviceType, id);
    InstanceEntityMarkersAbsent(org, serviceType, id);
    InstanceMarkerAbsent(org, serviceType, id);
    assert MrnUtil.EntityMarkers[3] == MrnUtil.InstanceMarker;
    forall i | 0 <= i < 4 ensures !Contains(s, MrnUtil.EntityMarkers[i]) {
      if i < 3 {
        assert MrnUtil.EntityMarkers[i] == LegacyMarkers[i];
      }
    }
  }

  /** `:service:instance:` occurs in no organization service instance MRN whose type is neither `service` nor `instance`. */
  lemma InstanceMarkerAbsent(org: string, serviceType: string, id: string)
    requires PlainInstanceParts(org, serviceType, id) && serviceType != "service" && serviceType != "instance"
    ensures !Contains(InstanceMrn(org, serviceType, id), MrnUtil.InstanceMarker)
  {
    var s := InstanceMrn(org, serviceType, id);
    var segs := ["urn", "mrn", "mcl", "org", org, "service", serviceType, "instance", id];
    InstanceSegments(org, serviceType, id, segs);
    var head := McMrnOrgPrefix + ":" + org + ":service:";
    var tail := serviceType + ":" + ("instance:" + id);
    Regroup(McMrnOrgPrefix + ":" + org, ":service:", serviceType, ":instance:", id);
    Regroup(head, serviceType, ":", "instance:", id);
    assert s == head + tail;
    OnlyInstanceWord(serviceType, "instance:" + id);
    OccursAfterPrefix(head, tail, "instance:");
    ServiceMarkerOnlyAfterOrg(org, serviceType, id);
    forall j | 0 <= j <= |s| ensures !OccursAt(s, MrnUtil.InstanceMarker, j) {
      InstanceMarkerAt(s, j);
    }
  }

  /** Where `:service:instance:` occurs, `:service:` occurs and `instance:` follows it. */
  lemma InstanceMarkerAt(s: string, j: int)
    ensures OccursAt(s, MrnUtil.InstanceMarker, j) ==> OccursAt(s, ":service:", j) && OccursAt(s, "instance:", j + 9)
  {
    if OccursAt(s, MrnUtil.InstanceMarker, j) {
      assert s[j..j + 18] == MrnUtil.InstanceMarker;
      assert s[j..j + 9] == s[j..j + 18][..9] == ":service:";
      assert s[j + 9..j + 18] == s[j..j + 18][9..] == "instance:";
    }
  }

  /** Unless the service type is itself `service`, the only `:service:` of an instance MRN follows the organization MRN. */
  lemma ServiceMarkerOnlyAfterOrg(org: string, serviceType: string, id: string)
    requires PlainInstanceParts(org, serviceType, id) && serviceType != "service"
    ensures forall j :: OccursAt(InstanceMrn(org, serviceType, id), ":service:", j) ==> j == |McMrnOrgPrefix| + 1 + |org|
  {
    var segs := ["urn", "mrn", "mcl", "org", org, "service", serviceType, "instance", id];
    InstanceSegments(org, serviceType, id, segs);
    assert ":service:" == ":" + "service" + ":";
    forall j | OccursAt(JoinSegments(segs), ":service:", j) ensures j == |McMrnOrgPrefix| + 1 + |org| {
      MarkerInSegments(segs, "service", j);
    }
  }

  /** Text occurring right after `head` in `head + tail` opens `tail`. */
  lemma OccursAfterPrefix(head: string, tail: string, p: string)
    ensures OccursAt(head + tail, p, |head|) ==> |p| <= |tail| && tail[..|p|] == p
  {
    if OccursAt(head + tail, p, |head|) {
      assert (head + tail)[|head|..|head| + |p|] == tail[..|p|];
    }
  }

  /** A colon-free segment followed by `:` reads `instance:` only when the segment is `instance`. */
  lemma OnlyInstanceWord(t: string, rest: string)
    requires ':' !in t
    ensures var w := t + ":" + rest; |w| >= 9 && w[..9] == "instance:" ==> t == "instance"
  {
    var w := t + ":" + rest;
    var p := "instance:";
    if |w| >= 9 && w[..9] == p {
      assert forall k :: 0 <= k < 9 ==> w[k] == p[k];
      assert w[|t|] == ':';
      assert forall k :: 0 <= k < |t| ==> w[k] == t[k] && t[k] != ':';
      assert forall k :: 0 <= k < 9 && p[k] == ':' ==> k == 8;
      assert w[8] == ':';
      assert |t| == 8;
      assert t == w[..8] == p[..8];
    }
  }

  lemma ClientNameAsWrittenFails(org: string, serviceType: string, id: string)
    requires PlainInstanceParts(org, serviceType, id)
    ensures GenerateClientNameAsWritten(InstanceMrn(org, serviceType, id)) == Failure(IndexOutOfBounds)
  {
    OrgPartsOfInstanceMrn(org, serviceType, id);
    ValidatorOfOrgMrn("mcl", org);
  }

  /** The organization MRN and short name read from a service instance MRN. */
  lemma OrgPartsOfInstanceMrn(org: string, serviceType: string, id: string)
    requires PlainInstanceParts(org, serviceType, id)
    ensures OrgMrnEntityMrn(InstanceMrn(org, serviceType, id)) == Success(McMrnOrgPrefix + ":" + org)
    ensures OrgShortNameFromEntityMrn(InstanceMrn(org, serviceType, id)) == Success(org)
    ensures OrgShortNameFromEntityMrnAsWritten(InstanceMrn(org, serviceType, id)) == Success("")
  {
    OrgMrnOfInstanceMrn(org, serviceType, id);
    ShortNameOfOrgMrn(org);
  }

  lemma OrgMrnOfInstanceMrn(org: string, serviceType: string, id: string)
    requires PlainInstanceParts(org, serviceType, id)
    ensures MarkerIndex(InstanceMrn(org, serviceType, id)) >= 0
    ensures OrgMrnEntityMrn(InstanceMrn(org, serviceType, id)) == Success(McMrnOrgPrefix + ":" + org)
    ensures OrgShortNameFromEntityMrn(InstanceMrn(org, serviceType, id)) ==
      Success(MrnUtil.OrgShortNameFromOrgMrn(McMrnOrgPrefix + ":" + org))
  {
    var s := InstanceMrn(org, serviceType, id);
    var orgMrn := McMrnOrgPrefix + ":" + org;
    ServiceMarkerOfInstanceMrn(org, serviceType, id);
    Regroup(orgMrn, ":service:", serviceType, ":instance:", id);
    assert s[..|orgMrn|] == orgMrn;
    ShortNameBeforeMarker(s, orgMrn);
  }

  lemma Regroup(x: string, a: string, b: string, c: string, d: string)
    ensures x + a + b + c + d == x + (a + b + c + d)
  {
  }

  /** `MrnUtil.OrgShortNameOfOrgMrn` for this module's spelling of the organization prefix. */
  lemma ShortNameOfOrgMrn(org: string)
    requires ':' !in org
    ensures MrnUtil.OrgShortNameFromOrgMrn(McMrnOrgPrefix + ":" + org) == org
  {
    assert McMrnOrgPrefix == MrnUtil.McMrnOrgPrefix;
    MrnUtil.OrgShortNameOfOrgMrn(org);
  }

  /** The service type and the service id read from a service instance MRN. */
  lemma ServicePartsOfInstanceMrn(org: string, serviceType: string, id: string)
    requires PlainInstanceParts(org, serviceType, id)
    ensures ServiceTypeFromMrn(InstanceMrn(org, serviceType, id)) == Success(serviceType)
    ensures MrnUtil.EntityIdFromMrn(InstanceMrn(org, serviceType, id)) == id
  {
    var s := InstanceMrn(org, serviceType, id);
    var e := |McMrnOrgPrefix| + 1 + |org|;
    ServiceMarkerOfInstanceMrn(org, serviceType, id);
    var prefix := McMrnOrgPrefix + ":" + org + ":service:";
    assert s == prefix + serviceType + ":instance:" + id;
    assert |prefix| == e + 9;
    assert s[e + 9..e + 9 + |serviceType|] == serviceType && s[e + 9 + |serviceType|] == ':';
    SegmentAt(s, e + 9, serviceType);
    var upToId := prefix + serviceType + ":instance:";
    assert s == upToId + id;
    MrnUtil.LastSegmentOfJoined(upToId, id);
  }

  /** In a service instance MRN the chosen marker is the first `:service:`, right after the organization MRN. */
  lemma ServiceMarkerOfInstanceMrn(org: string, serviceType: string, id: string)
    requires PlainInstanceParts(org, serviceType, id)
    ensures var e := |McMrnOrgPrefix| + 1 + |org|;
      MarkerIndex(InstanceMrn(org, serviceType, id)) == e && IndexOf(InstanceMrn(org, serviceType, id), ":service:") == e
  {
    var s := InstanceMrn(org, serviceType, id);
    InstanceEntityMarkersAbsent(org, serviceType, id);
    InstanceServiceMarkerFirst(org, serviceType, id);
    assert LegacyMarkers[3] == ":service:";
    MrnUtil.FirstContainedIs(s, LegacyMarkers, 3);
  }

  /** No `:user:`, `:device:` or `:vessel:` occurs in a service instance MRN. */
  lemma InstanceEntityMarkersAbsent(org: string, serviceType: string, id: string)
    requires PlainInstanceParts(org, serviceType, id)
    ensures forall i, j :: 0 <= i < 3 ==> !OccursAt(InstanceMrn(org, serviceType, id), LegacyMarkers[i], j)
  {
    var segs := ["urn", "mrn", "mcl", "org", org, "service", serviceType, "instance", id];
    InstanceSegments(org, serviceType, id, segs);
    forall i, j | 0 <= i < 3 ensures !OccursAt(JoinSegments(segs), LegacyMarkers[i], j) {
      var y := if i == 0 then "user" else if i == 1 then "device" else "vessel";
      assert LegacyMarkers[i] == ":" + y + ":";
      AbsentMarker(segs, y, j);
    }
  }

  /** The first `:service:` of a service instance MRN is the one right after the organization MRN. */
  lemma InstanceServiceMarkerFirst(org: string, serviceType: string, id: string)
    requires PlainInstanceParts(org, serviceType, id)
    ensures var e := |McMrnOrgPrefix| + 1 + |org|;
      OccursAt(InstanceMrn(org, serviceType, id), ":service:", e) &&
      forall j :: OccursAt(InstanceMrn(org, serviceType, id), ":service:", j) ==> j >= e
  {
    var s := InstanceMrn(org, serviceType, id);
    var e := |McMrnOrgPrefix| + 1 + |org|;
    var segs := ["urn", "mrn", "mcl", "org", org, "service", serviceType, "instance", id];
    InstanceSegments(org, serviceType, id, segs);
    assert s == McMrnOrgPrefix + ":" + org + ":service:" + (serviceType + ":instance:" + id);
    assert s[e..e + 9] == ":service:";
    assert ":service:" == ":" + "service" + ":";
    forall j | OccursAt(JoinSegments(segs), ":service:", j) ensures j >= e {
      MarkerInSegments(segs, "service", j);
    }
  }

  /** The segments of a service instance MRN and the lengths of their joined prefixes. */
  lemma InstanceSegments(org: string, serviceType: string, id: string, segs: seq<string>)
    requires ':' !in org && ':' !in serviceType && ':' !in id
    requires segs == ["urn", "mrn", "mcl", "org", org, "service", serviceType, "instance", id]
    ensures ColonFree(segs) && JoinSegments(segs) == InstanceMrn(org, serviceType, id)
    ensures |JoinSegments(segs[..5])| == |McMrnOrgPrefix| + 1 + |org|
    ensures |JoinSegments(segs[..6])| == |McMrnOrgPrefix| + 9 + |org|
    ensures |JoinSegments(segs[..7])| > |McMrnOrgPrefix| + 9 + |org|
  {
    InstanceJoin(org, serviceType, id, segs);
    assert forall k :: 0 <= k < |segs| ==> ':' !in segs[k] by {
      assert ':' !in "urn" && ':' !in "mrn" && ':' !in "mcl" && ':' !in "org";
      assert ':' !in "service" && ':' !in "instance";
    }
    assert segs[..1] == ["urn"];
    JoinPrefixLength(segs, 1);
    JoinPrefixLength(segs, 2);
    JoinPrefixLength(segs, 3);
    JoinPrefixLength(segs, 4);
    JoinPrefixLength(segs, 5);
    JoinPrefixLength(segs, 6);
  }

  /** Joining the segments of a service instance MRN gives the MRN back. */
  lemma InstanceJoin(org: string, serviceType: string, id: string, segs: seq<string>)
    requires ':' !in org && ':' !in serviceType && ':' !in id
    requires segs == ["urn", "mrn", "mcl", "org", org, "service", serviceType, "instance", id]
    ensures JoinSegments(segs) == InstanceMrn(org, serviceType, id)
  {
    var head := segs[..4];
    var tail := segs[4..];
    assert segs == head + tail;
    JoinAppend(head, tail);
    PrefixJoin(head);
    InstanceTailJoin(tail);
    InstanceMrnSplit(org, serviceType, id);
  }

  /** The instance MRN is the organization prefix, a colon and the rest. */
  lemma InstanceMrnSplit(org: string, serviceType: string, id: string)
    ensures InstanceMrn(org, serviceType, id) ==
      McMrnOrgPrefix + ":" + (org + ":service:" + serviceType + ":instance:" + id)
  {
  }

  lemma PrefixJoin(head: seq<string>)
    requires head == ["urn", "mrn", "mcl", "org"]
    ensures JoinSegments(head) == McMrnOrgPrefix
  {
    JoinAppend(["urn", "mrn"], ["mcl", "org"]);
    assert head == ["urn", "mrn"] + ["mcl", "org"];
    assert JoinSegments(["urn", "mrn"]) == "urn" + ":" + "mrn";
    assert JoinSegments(["mcl", "org"]) == "mcl" + ":" + "org";
  }

  lemma InstanceTailJoin(tail: seq<string>)
    requires |tail| == 5 && tail[1] == "service" && tail[3] == "instance"
    ensures JoinSegments(tail) == tail[0] + ":service:" + tail[2] + ":instance:" + tail[4]
  {
    assert tail == tail[..2] + tail[2..];
    JoinAppend(tail[..2], tail[2..]);
    assert tail[2..] == tail[2..3] + tail[3..];
    JoinAppend(tail[2..3], tail[3..]);
    assert JoinSegments(tail[3..]) == "instance" + ":" + tail[4] by {
      assert tail[3..][1..] == [tail[4]];
    }
  }
}
