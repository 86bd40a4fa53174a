/** Four places where `data_parsing.py` does not do what it evidently means,
    modelled as the code is written, each beside a lemma that shows the input
    on which it parts from the corrected definition the rest of the model uses.

    - Line 74 tests whether the Product object is in a list of integers, and
      line 100 whether the identifier string is: neither ever holds, so every
      severity and impact is the sentinel and every KB is empty.
    - Line 142 iterates `find("vuln:ProductID")` on the `vuln:CVE` element,
      which has no children: a matching record raises instead of giving
      vulnerabilities.
    - Line 159 iterates the children of the remediation's `vuln:ProductID`,
      which are text nodes, and line 160 passes one as the Product: a matching
      remediation that lists products raises instead of giving
      vulnerabilities. */
module AsWritten {
  import opened Wrappers
  import opened Text
  import opened Cvrf
  import opened IdList
  import opened Resolution
  import opened Search

  /** The loop of lines 71-75 as written: every identifier list of the kind is
      still read, and may raise, but none is ever found to name the product. */
  function ThreatScanAsWritten(ts: seq<Threat>, kind: ThreatKind): (r: Result<string>)
    ensures r.Ok? ==> r.value == kind.Sentinel()
  {
    if ts == [] then Ok(kind.Sentinel())
    else if ts[0].threatType != kind.TypeName() then ThreatScanAsWritten(ts[1..], kind)
    else match ts[0].productId
      case None => Err(MissingElement("vuln:ProductID"))
      case Some(raw) =>
        var ids :- ParseIdList(Trim(raw));
        ThreatScanAsWritten(ts[1..], kind)
  }

  /** `__get_impact_or_severity` as written. */
  function ThreatLookupAsWritten(threats: Option<seq<Threat>>, kind: ThreatKind): (r: Result<string>)
    ensures r.Ok? ==> r.value == kind.Sentinel()
    ensures threats.None? ==> r == Ok(kind.Sentinel())
  {
    match threats
    case None => Ok(kind.Sentinel())
    case Some(ts) => ThreatScanAsWritten(ts, kind)
  }

  /** When no threat of the kind names the product, the code as written and
      the corrected lookup agree. */
  lemma {:induction false} ThreatScanAsWrittenAgrees(ts: seq<Threat>, kind: ThreatKind, productId: string)
    requires forall i :: 0 <= i < |ts| ==> ThreatClear(ts[i], kind, productId)
    ensures ThreatScanAsWritten(ts, kind) == ThreatScan(ts, kind, productId)
  {
    if ts != [] {
      ThreatScanAsWrittenAgrees(ts[1..], kind, productId);
    }
  }

  /** A single threat of the kind naming product `n`: the corrected lookup
      gives its description, the code as written the sentinel. */
  lemma ThreatLookupDiffers(n: nat, d: string, kind: ThreatKind)
    requires Trim(d) != kind.Sentinel()
    ensures var t := Threat(kind.TypeName(), Some(d), Some(NatToString(n)));
      ThreatLookup(Some([t]), kind, NatToString(n)) == Ok(Trim(d))
      && ThreatLookupAsWritten(Some([t]), kind) == Ok(kind.Sentinel())
  {
    var t := Threat(kind.TypeName(), Some(d), Some(NatToString(n)));
    DigitsAreStripped(NatToString(n));
    ParseIdListSingle(n);
    assert Covers(NatToString(n), NatToString(n)) == Ok(true);
    assert ThreatHit(t, kind, NatToString(n));
    ThreatScanFirstHit([t], kind, NatToString(n), 0);
    assert ThreatLookup(Some([t]), kind, NatToString(n)) == ThreatScan([t], kind, NatToString(n));
    assert ParseIdList(Trim(NatToString(n))).Ok?;
    assert [t][1..] == [];
    assert ThreatScanAsWritten([t], kind) == ThreatScanAsWritten([], kind);
  }

  /** The loop of lines 95-102 as written: every vendor fix's identifier list
      is still read, and may raise, but the value is never replaced. */
  function RemediationScanAsWritten(rs: seq<Remediation>, acc: string): (r: Result<string>)
    ensures r.Ok? ==> r.value == acc
  {
    if rs == [] then Ok(acc)
    else if !VendorFix(rs[0]) then RemediationScanAsWritten(rs[1..], acc)
    else
      var ids :- ParseIdList(Trim(rs[0].productId.value));
      RemediationScanAsWritten(rs[1..], acc)
  }

  /** `__get_remediation_info` as written, without its cache. */
  function RemediationInfoAsWritten(rs: seq<Remediation>): (r: Result<string>)
    ensures r.Ok? ==> r.value == ""
  {
    RemediationScanAsWritten(rs, "")
  }

  /** When no vendor fix names the product, the code as written and the
      corrected loop agree. */
  lemma {:induction false} RemediationScanAsWrittenAgrees(rs: seq<Remediation>, field: RemediationField, productId: string, acc: string)
    requires forall j :: 0 <= j < |rs| ==> !RemediationHit(rs[j], productId)
    ensures RemediationScanAsWritten(rs, acc) == RemediationScan(rs, field, productId, acc)
  {
    if rs != [] {
      RemediationScanAsWrittenAgrees(rs[1..], field, productId, acc);
    }
  }

  /** A single vendor fix for product `n` with KB `kb`: the corrected lookup
      gives the KB, the code as written the empty string. */
  lemma RemediationInfoDiffers(n: nat, kb: nat)
    ensures var r := Remediation("Vendor Fix", Some(NatToString(kb)), None, Some(NatToString(n)));
      RemediationInfo([r], DescriptionField, NatToString(n)) == Ok(NatToString(kb))
      && RemediationInfoAsWritten([r]) == Ok("")
      && NatToString(kb) != ""
  {
    var r := Remediation("Vendor Fix", Some(NatToString(kb)), None, Some(NatToString(n)));
    DigitsAreStripped(NatToString(n));
    DigitsAreStripped(NatToString(kb));
    ParseIdListSingle(n);
    assert RemediationHit(r, NatToString(n));
    RemediationInfoLastHit([r], DescriptionField, NatToString(n), 0);
    assert FieldText(r, DescriptionField) == NatToString(kb);
    assert ParseIdList(Trim(NatToString(n))).Ok?;
    assert [r][1..] == [];
    assert RemediationScanAsWritten([r], "") == RemediationScanAsWritten([], "");
  }

  /** The loop of lines 137-143 as written, from record `i` on: the first
      record whose CVE matches raises at line 142. */
  function CveHitsAsWritten(recs: seq<VulnRecord>, i: nat, cve: string): (r: Result<seq<Hit>>)
    requires i <= |recs|
    ensures r == Ok([]) || r == Err(NotIterable)
    decreases |recs| - i
  {
    if i == |recs| then Ok([])
    else if CveMatches(recs[i], cve) then Err(NotIterable)
    else CveHitsAsWritten(recs, i + 1, cve)
  }

  /** `get_vuln_info_by_cve` as written. */
  function CveSearchAsWritten(doc: Document, cve: string): (r: Result<seq<Hit>>)
    ensures r == Ok([]) || r == Err(NotIterable)
  {
    CveHitsAsWritten(doc.vulnerabilities, 0, cve)
  }

  /** The search as written succeeds exactly when no record matches, and then
      finds nothing. */
  lemma {:induction false} CveHitsAsWrittenOk(recs: seq<VulnRecord>, i: nat, cve: string)
    requires i <= |recs|
    ensures CveHitsAsWritten(recs, i, cve).Ok? <==> forall j :: i <= j < |recs| ==> !CveMatches(recs[j], cve)
    decreases |recs| - i
  {
    if i < |recs| {
      CveHitsAsWrittenOk(recs, i + 1, cve);
    }
  }

  /** Whenever the corrected CVE search finds a vulnerability, the code as
      written raises. */
  lemma CveSearchDiffers(doc: Document, catalogIds: seq<string>, cve: string)
    requires CveSearch(doc, catalogIds, cve).Ok? && CveSearch(doc, catalogIds, cve).value != []
    ensures CveSearchAsWritten(doc, cve) == Err(NotIterable)
  {
    CveSearchSound(doc, catalogIds, cve);
    var h := CveSearch(doc, catalogIds, cve).value[0];
    assert CveMatches(doc.vulnerabilities[h.record], cve);
    CveHitsAsWrittenOk(doc.vulnerabilities, 0, cve);
  }

  /** Lines 158-160 as written raise for a remediation with the KB: with no
      `vuln:ProductID` the iteration fails, and a non-empty one yields a text
      node that is used as the Product. An empty element has no children. */
  predicate KbRaises(rem: Remediation, kb: int) {
    KbMatches(rem, kb) && (rem.productId.None? || rem.productId.value != "")
  }

  /** Lines 155-160 as written, for one remediation. */
  function RemediationKbAsWritten(rem: Remediation, kb: int): Result<seq<Hit>> {
    if !KbRaises(rem, kb) then Ok([])
    else if rem.productId.None? then Err(NotIterable)
    else Err(NotAProduct)
  }

  /** The loop of lines 154-160 as written over a record's remediations. */
  function RecordKbAsWritten(rems: seq<Remediation>, kb: int): (r: Result<seq<Hit>>)
    ensures r.Ok? ==> r.value == []
  {
    if rems == [] then Ok([])
    else
      var here :- RemediationKbAsWritten(rems[0], kb);
      RecordKbAsWritten(rems[1..], kb)
  }

  /** The loop of lines 150-160 as written over the records. */
  function KbHitsAsWritten(recs: seq<VulnRecord>, kb: int): (r: Result<seq<Hit>>)
    ensures r.Ok? ==> r.value == []
  {
    if recs == [] then Ok([])
    else
      var here :- RecordKbAsWritten(recs[0].remediations, kb);
      KbHitsAsWritten(recs[1..], kb)
  }

  /** `get_vuln_info_by_kb` as written. */
  function KbSearchAsWritten(doc: Document, kb: int): (r: Result<seq<Hit>>)
    ensures r.Ok? ==> r.value == []
  {
    KbHitsAsWritten(doc.vulnerabilities, kb)
  }

  /** A record's loop as written succeeds exactly when none of its
      remediations raises. */
  lemma {:induction false} RecordKbAsWrittenOk(rems: seq<Remediation>, kb: int)
    ensures RecordKbAsWritten(rems, kb).Ok? <==> forall j :: 0 <= j < |rems| ==> !KbRaises(rems[j], kb)
  {
    if rems != [] {
      RecordKbAsWrittenOk(rems[1..], kb);
      assert forall j :: 1 <= j < |rems| ==> rems[j] == rems[1..][j - 1];
    }
  }

  /** A remediation that raises makes the whole search as written raise. */
  lemma {:induction false} KbHitsAsWrittenRaises(recs: seq<VulnRecord>, kb: int, i: nat, j: nat)
    requires i < |recs| && j < |recs[i].remediations| && KbRaises(recs[i].remediations[j], kb)
    ensures KbHitsAsWritten(recs, kb).Err?
  {
    if i == 0 {
      RecordKbAsWrittenOk(recs[0].remediations, kb);
    } else {
      KbHitsAsWrittenRaises(recs[1..], kb, i - 1, j);
    }
  }

  /** Whenever the corrected KB search finds a vulnerability, the code as
      written raises. */
  lemma KbSearchDiffers(doc: Document, catalogIds: seq<string>, kb: int)
    requires KbSearch(doc, catalogIds, kb).Ok? && KbSearch(doc, catalogIds, kb).value != []
    ensures KbSearchAsWritten(doc, kb).Err?
  {
    KbSearchSound(doc, catalogIds, kb);
    var h := KbSearch(doc, catalogIds, kb).value[0];
    var recs := doc.vulnerabilities;
    assert KbNamed(h, recs, 0, catalogIds, kb);
    var jj :| 0 <= jj < |recs[h.record].remediations| && KbNamedBy(recs, h.record, jj, catalogIds, h.product, kb);
    var rem := recs[h.record].remediations[jj];
    ParseIdListEmptyPart("");
    assert Trim("") == "";
    assert KbRaises(rem, kb);
    KbHitsAsWrittenRaises(recs, kb, h.record, jj);
  }
}
