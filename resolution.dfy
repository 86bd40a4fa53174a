/** Per-product resolution of a vulnerability record: severity, impact,
    remediation (KB and superseded KB), description and exploited-in-the-wild,
    as pure functions of the product identifier and the record.

    The Threat and Remediation entries of a record are flat; an entry applies
    to a product when its identifier list names the product. The original
    compares the Product object (line 74) or the identifier string (line 100)
    with the parsed integers, which can never be equal; this model compares the
    product identifier read as an integer (see `AsWritten` for the code as
    written). */
module Resolution {
  import opened Wrappers
  import opened Text
  import opened Cvrf
  import opened IdList

  /** The identifier list names the product whose identifier is `productId`.
      A product identifier that is not a number is named by no list. */
  predicate Names(productId: string, ids: seq<nat>) {
    match ParseInt(productId)
    case None => false
    case Some(n) => n in ids
  }

  /** Reads the text of a `vuln:ProductID` element as an identifier list and
      decides whether it names the product. */
  function Covers(productId: string, raw: string): Result<bool> {
    var ids :- ParseIdList(Trim(raw));
    Ok(Names(productId, ids))
  }

  /** A `vuln:ProductID` text holding one number names exactly the products
      whose identifier reads as it; one holding two numbers joined by a
      hyphen names the products of either; no list names a product whose
      identifier is not a number. */
  lemma CoversListed(productId: string, a: nat, b: nat, raw: string)
    ensures Covers(productId, NatToString(a)) == Ok(ParseInt(productId) == Some(a))
    ensures Covers(productId, NatToString(a) + "-" + NatToString(b))
      == Ok(ParseInt(productId) == Some(a) || ParseInt(productId) == Some(b))
    ensures ParseInt(productId).None? ==> Covers(productId, raw) != Ok(true)
  {
    CoversSingle(productId, a);
    CoversPair(productId, a, b);
  }

  lemma CoversSingle(productId: string, a: nat)
    ensures Covers(productId, NatToString(a)) == Ok(ParseInt(productId) == Some(a))
  {
    DigitsAreStripped(NatToString(a));
    ParseIdListSingle(a);
  }

  lemma CoversPair(productId: string, a: nat, b: nat)
    ensures Covers(productId, NatToString(a) + "-" + NatToString(b))
      == Ok(ParseInt(productId) == Some(a) || ParseInt(productId) == Some(b))
  {
    PairIsStripped(a, b);
    ParseIdListPair(a, b);
    assert Covers(productId, NatToString(a) + "-" + NatToString(b)) == Ok(Names(productId, [a, b]));
  }

  lemma PairIsStripped(a: nat, b: nat)
    ensures Trim(NatToString(a) + "-" + NatToString(b)) == NatToString(a) + "-" + NatToString(b)
  {
    var sa, sb := NatToString(a), NatToString(b);
    assert IsDigit(sa[0]) && IsDigit(sb[|sb| - 1]);
    JoinedStripped(sa, sb);
  }

  lemma JoinedStripped(x: string, y: string)
    requires x != [] && y != [] && !IsSpace(x[0]) && !IsSpace(y[|y| - 1])
    ensures Stripped(x + "-" + y)
  {
    var j := x + "-" + y;
    assert j[0] == x[0] && j[|j| - 1] == y[|y| - 1];
  }

  /** The two kinds of threat looked up per product. */
  datatype ThreatKind = Impact | Severity {
    /** The `Type` attribute of the threats of this kind. */
    function TypeName(): string {
      match this
      case Impact => "Impact"
      case Severity => "Severity"
    }

    /** `f"<UNKNOWN_{what.upper()}>"`: the value when no threat applies. */
    function Sentinel(): string {
      match this
      case Impact => "<UNKNOWN_IMPACT>"
      case Severity => "<UNKNOWN_SEVERITY>"
    }
  }

  /** A threat entry of the kind that applies to the product. */
  predicate ThreatHit(t: Threat, kind: ThreatKind, productId: string) {
    t.threatType == kind.TypeName() && t.productId.Some? && Covers(productId, t.productId.value) == Ok(true)
  }

  /** A threat entry the scan passes over: of another kind, or with a readable
      identifier list that does not name the product. */
  predicate ThreatClear(t: Threat, kind: ThreatKind, productId: string) {
    t.threatType != kind.TypeName() || (t.productId.Some? && Covers(productId, t.productId.value) == Ok(false))
  }

  /** The value a matching threat gives: its stripped `vuln:Description`. */
  function ThreatValue(t: Threat): Result<string> {
    match t.description
    case None => Err(MissingElement("vuln:Description"))
    case Some(d) => Ok(Trim(d))
  }

  /** The loop of lines 71-75: the first threat of the kind that names the
      product gives the value; an unreadable identifier list raises. */
  function ThreatScan(ts: seq<Threat>, kind: ThreatKind, productId: string): Result<string> {
    if ts == [] then Ok(kind.Sentinel())
    else if ts[0].threatType != kind.TypeName() then ThreatScan(ts[1..], kind, productId)
    else match ts[0].productId
      case None => Err(MissingElement("vuln:ProductID"))
      case Some(raw) =>
        var hit :- Covers(productId, raw);
        if hit then ThreatValue(ts[0]) else ThreatScan(ts[1..], kind, productId)
  }

  /** `__get_impact_or_severity` (lines 68-76): no `vuln:Threats` section means
      the sentinel. */
  function ThreatLookup(threats: Option<seq<Threat>>, kind: ThreatKind, productId: string): Result<string> {
    match threats
    case None => Ok(kind.Sentinel())
    case Some(ts) => ThreatScan(ts, kind, productId)
  }

  /** When no threat of the kind names the product, the result is the sentinel. */
  lemma {:induction false} ThreatScanNoHit(ts: seq<Threat>, kind: ThreatKind, productId: string)
    requires forall i :: 0 <= i < |ts| ==> ThreatClear(ts[i], kind, productId)
    ensures ThreatScan(ts, kind, productId) == Ok(kind.Sentinel())
  {
    if ts != [] {
      ThreatScanNoHit(ts[1..], kind, productId);
    }
  }

  /** The first threat of the kind that names the product decides the result;
      later entries are not read. */
  lemma {:induction false} ThreatScanFirstHit(ts: seq<Threat>, kind: ThreatKind, productId: string, i: nat)
    requires i < |ts| && ThreatHit(ts[i], kind, productId)
    requires forall j :: 0 <= j < i ==> ThreatClear(ts[j], kind, productId)
    ensures ThreatScan(ts, kind, productId) == ThreatValue(ts[i])
  {
    if i > 0 {
      ThreatScanFirstHit(ts[1..], kind, productId, i - 1);
    }
  }

  /** No threat of the kind names the product. */
  predicate AllClear(ts: seq<Threat>, kind: ThreatKind, productId: string) {
    forall j :: 0 <= j < |ts| ==> ThreatClear(ts[j], kind, productId)
  }

  /** Threat `i` is the first of the kind that names the product. */
  predicate FirstHitAt(ts: seq<Threat>, kind: ThreatKind, productId: string, i: int) {
    0 <= i < |ts| && ThreatHit(ts[i], kind, productId) && forall j :: 0 <= j < i ==> ThreatClear(ts[j], kind, productId)
  }

  /** Every successful lookup is one of the two cases above: the sentinel with
      no threat naming the product, or the description of the first one that does. */
  lemma {:induction false} ThreatScanOk(ts: seq<Threat>, kind: ThreatKind, productId: string)
    requires ThreatScan(ts, kind, productId).Ok?
    ensures var v := ThreatScan(ts, kind, productId).value;
      (v == kind.Sentinel() && AllClear(ts, kind, productId))
      || exists i :: FirstHitAt(ts, kind, productId, i) && ThreatValue(ts[i]) == Ok(v)
  {
    if ts != [] {
      var v := ThreatScan(ts, kind, productId).value;
      if ThreatHit(ts[0], kind, productId) {
        assert ThreatValue(ts[0]) == ThreatScan(ts, kind, productId);
        assert FirstHitAt(ts, kind, productId, 0);
      } else {
        assert ThreatClear(ts[0], kind, productId);
        assert ThreatScan(ts, kind, productId) == ThreatScan(ts[1..], kind, productId);
        ThreatScanOk(ts[1..], kind, productId);
        if v == kind.Sentinel() && AllClear(ts[1..], kind, productId) {
          AllClearCons(ts, kind, productId);
        } else {
          var i :| FirstHitAt(ts[1..], kind, productId, i) && ThreatValue(ts[1..][i]) == Ok(v);
          FirstHitCons(ts, kind, productId, i);
        }
      }
    }
  }

  lemma AllClearCons(ts: seq<Threat>, kind: ThreatKind, productId: string)
    requires ts != [] && ThreatClear(ts[0], kind, productId) && AllClear(ts[1..], kind, productId)
    ensures AllClear(ts, kind, productId)
  {
    forall j | 0 <= j < |ts| ensures ThreatClear(ts[j], kind, productId) {
      if j > 0 { assert ts[j] == ts[1..][j - 1]; }
    }
  }

  lemma FirstHitCons(ts: seq<Threat>, kind: ThreatKind, productId: string, i: int)
    requires ts != [] && ThreatClear(ts[0], kind, productId) && FirstHitAt(ts[1..], kind, productId, i)
    ensures FirstHitAt(ts, kind, productId, i + 1) && ts[i + 1] == ts[1..][i]
  {
    forall j | 0 <= j < i + 1 ensures ThreatClear(ts[j], kind, productId) {
      if j > 0 { assert ts[j] == ts[1..][j - 1]; }
    }
  }

  /** `__get_impact_or_severity` succeeds with the sentinel when there is no
      `vuln:Threats` section or no threat of the kind names the product, and
      otherwise with the description of the first threat of the kind that
      does. */
  lemma ThreatLookupOk(threats: Option<seq<Threat>>, kind: ThreatKind, productId: string)
    requires ThreatLookup(threats, kind, productId).Ok?
    ensures var v := ThreatLookup(threats, kind, productId).value;
      (v == kind.Sentinel() && (threats.None? || AllClear(threats.value, kind, productId)))
      || (threats.Some? && exists i :: FirstHitAt(threats.value, kind, productId, i) && ThreatValue(threats.value[i]) == Ok(v))
  {
    if threats.Some? {
      ThreatScanOk(threats.value, kind, productId);
    }
  }

  /** Which sub-field of a remediation is read: `"Description"` gives the KB,
      `"Supercedence"` the KB it replaces. */
  datatype RemediationField = DescriptionField | SupercedenceField {
    /** The key under which the value is cached. */
    function Key(): string {
      match this
      case DescriptionField => "Description"
      case SupercedenceField => "Supercedence"
    }

    /** `r.find(f"vuln:{what}")`. */
    function Of(r: Remediation): Option<string> {
      match this
      case DescriptionField => r.description
      case SupercedenceField => r.supercedence
    }
  }

  /** The entries the remediation loop reads: `Type="Vendor Fix"` with a
      `vuln:ProductID` child. */
  predicate VendorFix(r: Remediation) {
    r.remediationType == "Vendor Fix" && r.productId.Some?
  }

  /** A vendor fix whose identifier list names the product. */
  predicate RemediationHit(r: Remediation, productId: string) {
    VendorFix(r) && Covers(productId, r.productId.value) == Ok(true)
  }

  /** An entry the loop reads without raising. */
  predicate RemediationReadable(r: Remediation, productId: string) {
    VendorFix(r) ==> Covers(productId, r.productId.value).Ok?
  }

  /** `info.text.strip() if info else ""`. */
  function FieldText(r: Remediation, field: RemediationField): string {
    match field.Of(r)
    case None => ""
    case Some(t) => Trim(t)
  }

  /** One iteration of the loop of lines 95-102, from the value so far. */
  function RemediationStep(r: Remediation, field: RemediationField, productId: string, acc: string): Result<string> {
    if !VendorFix(r) then Ok(acc)
    else
      var hit :- Covers(productId, r.productId.value);
      Ok(if hit then FieldText(r, field) else acc)
  }

  /** The loop of lines 95-102 from the value `acc`. */
  function RemediationScan(rs: seq<Remediation>, field: RemediationField, productId: string, acc: string): Result<string> {
    if rs == [] then Ok(acc)
    else
      var next :- RemediationStep(rs[0], field, productId, acc);
      RemediationScan(rs[1..], field, productId, next)
  }

  /** `__get_remediation_info` without its cache: start from `""`, the last
      matching vendor fix wins. */
  function RemediationInfo(rs: seq<Remediation>, field: RemediationField, productId: string): Result<string> {
    RemediationScan(rs, field, productId, "")
  }

  /** Entries that name nothing leave the value as it is. */
  lemma {:induction false} RemediationScanNoHit(rs: seq<Remediation>, field: RemediationField, productId: string, acc: string)
    requires forall j :: 0 <= j < |rs| ==> RemediationReadable(rs[j], productId) && !RemediationHit(rs[j], productId)
    ensures RemediationScan(rs, field, productId, acc) == Ok(acc)
  {
    if rs != [] {
      RemediationScanNoHit(rs[1..], field, productId, acc);
    }
  }

  /** A matching entry replaces the value, whatever came before it. */
  lemma {:induction false} RemediationScanThrough(rs: seq<Remediation>, field: RemediationField, productId: string, acc: string, i: nat)
    requires i < |rs| && RemediationHit(rs[i], productId)
    requires forall j :: 0 <= j < i ==> RemediationReadable(rs[j], productId)
    ensures RemediationScan(rs, field, productId, acc) == RemediationScan(rs[i + 1..], field, productId, FieldText(rs[i], field))
  {
    if i > 0 {
      RemediationStepReadable(rs[0], field, productId, acc);
      var next := RemediationStep(rs[0], field, productId, acc).value;
      assert RemediationScan(rs, field, productId, acc) == RemediationScan(rs[1..], field, productId, next);
      ReadableTail(rs, productId, i);
      assert rs[1..][i - 1] == rs[i];
      RemediationScanThrough(rs[1..], field, productId, next, i - 1);
      assert rs[1..][i..] == rs[i + 1..];
    } else {
      RemediationStepHit(rs[0], field, productId, acc);
    }
  }

  lemma RemediationStepReadable(r: Remediation, field: RemediationField, productId: string, acc: string)
    requires RemediationReadable(r, productId)
    ensures RemediationStep(r, field, productId, acc).Ok?
  {
  }

  lemma RemediationStepHit(r: Remediation, field: RemediationField, productId: string, acc: string)
    requires RemediationHit(r, productId)
    ensures RemediationStep(r, field, productId, acc) == Ok(FieldText(r, field))
  {
  }

  lemma ReadableTail(rs: seq<Remediation>, productId: string, i: nat)
    requires 0 < i <= |rs| && forall j :: 0 <= j < i ==> RemediationReadable(rs[j], productId)
    ensures forall j :: 0 <= j < i - 1 ==> RemediationReadable(rs[1..][j], productId)
  {
    assert forall j :: 0 <= j < i - 1 ==> rs[1..][j] == rs[j + 1];
  }

  /** The last vendor fix naming the product decides the value (no
      first-match short cut). */
  lemma RemediationInfoLastHit(rs: seq<Remediation>, field: RemediationField, productId: string, i: nat)
    requires i < |rs| && RemediationHit(rs[i], productId)
    requires forall j :: 0 <= j < |rs| ==> RemediationReadable(rs[j], productId)
    requires forall j :: i < j < |rs| ==> !RemediationHit(rs[j], productId)
    ensures RemediationInfo(rs, field, productId) == Ok(FieldText(rs[i], field))
  {
    RemediationScanThrough(rs, field, productId, "", i);
    RemediationScanNoHit(rs[i + 1..], field, productId, FieldText(rs[i], field));
  }

  /** With no vendor fix naming the product the value is the empty string. */
  lemma RemediationInfoNoHit(rs: seq<Remediation>, field: RemediationField, productId: string)
    requires forall j :: 0 <= j < |rs| ==> RemediationReadable(rs[j], productId) && !RemediationHit(rs[j], productId)
    ensures RemediationInfo(rs, field, productId) == Ok("")
  {
    RemediationScanNoHit(rs, field, productId, "");
  }

  /** The vendor-fix loop fails exactly when some vendor fix has an
      identifier list that does not read. */
  lemma {:induction false} RemediationScanOk(rs: seq<Remediation>, field: RemediationField, productId: string, acc: string)
    ensures RemediationScan(rs, field, productId, acc).Ok? <==> forall j :: 0 <= j < |rs| ==> RemediationReadable(rs[j], productId)
  {
    if rs != [] {
      var next := RemediationStep(rs[0], field, productId, acc);
      assert next.Ok? <==> RemediationReadable(rs[0], productId);
      if next.Ok? {
        RemediationScanOk(rs[1..], field, productId, next.value);
      }
      assert forall j :: 1 <= j < |rs| ==> rs[j] == rs[1..][j - 1];
    }
  }

  lemma RemediationInfoOk(rs: seq<Remediation>, field: RemediationField, productId: string)
    ensures RemediationInfo(rs, field, productId).Ok? <==> forall j :: 0 <= j < |rs| ==> RemediationReadable(rs[j], productId)
  {
    RemediationScanOk(rs, field, productId, "");
  }

  /** The first element of `ts` of the given type (`find(..., Type=...)`). */
  function FirstThreatOfType(ts: seq<Threat>, threatType: string): (r: Option<nat>)
    ensures r.Some? ==> r.value < |ts| && ts[r.value].threatType == threatType
    ensures r.Some? ==> forall j :: 0 <= j < r.value ==> ts[j].threatType != threatType
    ensures r.None? ==> forall j :: 0 <= j < |ts| ==> ts[j].threatType != threatType
  {
    if ts == [] then None
    else if ts[0].threatType == threatType then Some(0)
    else match FirstThreatOfType(ts[1..], threatType)
      case None => None
      case Some(i) => Some(i + 1)
  }

  const ExploitedMarker := "Exploited:Yes"

  /** Lines 58-61: `itw` is whether the stripped text of the first
      `Type="Exploit Status"` threat contains `Exploited:Yes`; a missing entry raises. */
  function ExploitedInTheWild(threats: Option<seq<Threat>>): (r: Result<bool>)
    ensures r.Err? <==> threats.None? || FirstThreatOfType(threats.value, "Exploit Status").None?
    ensures r.Ok? ==> (r.value <==> Contains(Trim(ThreatText(threats.value[FirstThreatOfType(threats.value, "Exploit Status").value])), ExploitedMarker))
  {
    match threats
    case None => Err(MissingElement("vuln:Threat Type=\"Exploit Status\""))
    case Some(ts) =>
      match FirstThreatOfType(ts, "Exploit Status")
      case None => Err(MissingElement("vuln:Threat Type=\"Exploit Status\""))
      case Some(i) => Ok(Contains(Trim(ThreatText(ts[i])), ExploitedMarker))
  }

  predicate IsDescriptionNote(n: Note) {
    n.title == "Description" && n.noteType == "Description"
  }

  /** The first note with `Title` and `Type` both `"Description"`. */
  function FirstDescriptionNote(notes: seq<Note>): (r: Option<nat>)
    ensures r.Some? ==> r.value < |notes| && IsDescriptionNote(notes[r.value])
    ensures r.Some? ==> forall j :: 0 <= j < r.value ==> !IsDescriptionNote(notes[j])
    ensures r.None? ==> forall j :: 0 <= j < |notes| ==> !IsDescriptionNote(notes[j])
  {
    if notes == [] then None
    else if IsDescriptionNote(notes[0]) then Some(0)
    else match FirstDescriptionNote(notes[1..])
      case None => None
      case Some(i) => Some(i + 1)
  }

  /** Lines 53-55: the stripped text of that note; a missing note raises. */
  function DescriptionNote(notes: seq<Note>): Result<string> {
    match FirstDescriptionNote(notes)
    case None => Err(MissingElement("vuln:Note Title=\"Description\""))
    case Some(i) => Ok(Trim(notes[i].text))
  }

  /** The description is the stripped text of the first note titled and
      typed `Description`; with no such note it is an error. */
  lemma DescriptionNoteFirst(notes: seq<Note>)
    ensures DescriptionNote(notes).Err? <==> forall j :: 0 <= j < |notes| ==> !IsDescriptionNote(notes[j])
    ensures DescriptionNote(notes).Ok? ==>
      exists i :: 0 <= i < |notes| && IsDescriptionNote(notes[i])
        && (forall j :: 0 <= j < i ==> !IsDescriptionNote(notes[j]))
        && DescriptionNote(notes).value == Trim(notes[i].text)
  {
    if DescriptionNote(notes).Ok? {
      var i := FirstDescriptionNote(notes).value;
      assert DescriptionNote(notes).value == Trim(notes[i].text);
    }
  }

  /** `.find(tag).text.strip()` of an element the record must have. */
  function Required(element: Option<string>, name: string): (r: Result<string>)
    ensures r.Ok? <==> element.Some?
    ensures r.Ok? ==> r.value == Trim(element.value)
  {
    match element
    case None => Err(MissingElement(name))
    case Some(t) => Ok(Trim(t))
  }

  /** The field values of a `Vulnerability` built for one product. */
  datatype Fields = Fields(
    cve: string,
    title: string,
    severity: string,
    impact: string,
    description: string,
    kb: string,
    supersededKb: string,
    itw: bool)

  /** The values of lines 51-61, which depend on the product. */
  datatype Assessment = Assessment(
    severity: string,
    impact: string,
    description: string,
    kb: string,
    supersededKb: string,
    itw: bool)

  /** Lines 51-61 as a function of the product's identifier and the record,
      failing at the first step that raises. */
  function Assess(productId: string, rec: VulnRecord): Result<Assessment> {
    var severity :- ThreatLookup(rec.threats, Severity, productId);
    var impact :- ThreatLookup(rec.threats, Impact, productId);
    var description :- DescriptionNote(rec.notes);
    var kb :- RemediationInfo(rec.remediations, DescriptionField, productId);
    var supersededKb :- RemediationInfo(rec.remediations, SupercedenceField, productId);
    var itw :- ExploitedInTheWild(rec.threats);
    Ok(Assessment(severity, impact, description, kb, supersededKb, itw))
  }

  /** `Vulnerability.__init__` (lines 45-61) as a function of the product's
      identifier and the record, failing at the first step that raises. */
  function Resolve(productId: string, rec: VulnRecord): Result<Fields> {
    var cve :- Required(rec.cve, "vuln:CVE");
    var title :- Required(rec.title, "vuln:Title");
    var a :- Assess(productId, rec);
    Ok(Fields(cve, title, a.severity, a.impact, a.description, a.kb, a.supersededKb, a.itw))
  }

  /** Building a Vulnerability succeeds exactly when the record has a CVE and
      a title and each of the reads of lines 51-61 succeeds. */
  lemma ResolveOk(productId: string, rec: VulnRecord)
    ensures Resolve(productId, rec).Ok? <==>
      rec.cve.Some? && rec.title.Some? && Assessable(productId, rec)
  {
    AssessOk(productId, rec);
  }

  /** Each read of lines 51-61 succeeds. */
  predicate Assessable(productId: string, rec: VulnRecord) {
    ThreatLookup(rec.threats, Severity, productId).Ok? && ThreatLookup(rec.threats, Impact, productId).Ok?
    && DescriptionNote(rec.notes).Ok?
    && RemediationInfo(rec.remediations, DescriptionField, productId).Ok?
    && RemediationInfo(rec.remediations, SupercedenceField, productId).Ok?
    && ExploitedInTheWild(rec.threats).Ok?
  }

  lemma AssessOk(productId: string, rec: VulnRecord)
    ensures Assess(productId, rec).Ok? <==> Assessable(productId, rec)
  {
  }

  /** Every field of a built Vulnerability is the value its read gives: the
      stripped CVE and title, the Severity and Impact lookups, the
      description note, the two vendor-fix lookups and exploited-in-the-wild. */
  lemma ResolveFields(productId: string, rec: VulnRecord)
    requires Resolve(productId, rec).Ok?
    ensures var f := Resolve(productId, rec).value;
      rec.cve.Some? && f.cve == Trim(rec.cve.value)
    ensures var f := Resolve(productId, rec).value;
      rec.title.Some? && f.title == Trim(rec.title.value)
    ensures AssessedAs(productId, rec, Resolve(productId, rec).value)
  {
    var a := Assess(productId, rec).value;
    AssessFields(productId, rec);
    assert Resolve(productId, rec).value == Fields(Trim(rec.cve.value), Trim(rec.title.value), a.severity, a.impact, a.description, a.kb, a.supersededKb, a.itw);
  }

  /** The product-dependent fields of `f` are what the reads of lines 51-61
      give. */
  predicate AssessedAs(productId: string, rec: VulnRecord, f: Fields) {
    ThreatLookup(rec.threats, Severity, productId) == Ok(f.severity)
    && ThreatLookup(rec.threats, Impact, productId) == Ok(f.impact)
    && DescriptionNote(rec.notes) == Ok(f.description)
    && RemediationInfo(rec.remediations, DescriptionField, productId) == Ok(f.kb)
    && RemediationInfo(rec.remediations, SupercedenceField, productId) == Ok(f.supersededKb)
    && ExploitedInTheWild(rec.threats) == Ok(f.itw)
  }

  lemma AssessFields(productId: string, rec: VulnRecord)
    requires Assess(productId, rec).Ok?
    ensures var a := Assess(productId, rec).value;
      ThreatLookup(rec.threats, Severity, productId) == Ok(a.severity)
      && ThreatLookup(rec.threats, Impact, productId) == Ok(a.impact)
      && DescriptionNote(rec.notes) == Ok(a.description)
      && RemediationInfo(rec.remediations, DescriptionField, productId) == Ok(a.kb)
      && RemediationInfo(rec.remediations, SupercedenceField, productId) == Ok(a.supersededKb)
      && ExploitedInTheWild(rec.threats) == Ok(a.itw)
  {
    AssessOk(productId, rec);
    assert Assess(productId, rec) == Ok(Assessment(
      ThreatLookup(rec.threats, Severity, productId).value,
      ThreatLookup(rec.threats, Impact, productId).value,
      DescriptionNote(rec.notes).value,
      RemediationInfo(rec.remediations, DescriptionField, productId).value,
      RemediationInfo(rec.remediations, SupercedenceField, productId).value,
      ExploitedInTheWild(rec.threats).value));
  }

  /** A record without a `vuln:Threats` section, or whose Severity threats all
      name other products, resolves to the unknown-severity sentinel, never to
      an empty string. */
  lemma ResolveUnknownSeverity(productId: string, rec: VulnRecord)
    requires rec.threats.Some? ==>
      forall i :: 0 <= i < |rec.threats.value| ==> ThreatClear(rec.threats.value[i], Severity, productId)
    ensures Resolve(productId, rec).Ok? ==> Resolve(productId, rec).value.severity == "<UNKNOWN_SEVERITY>"
  {
    if rec.threats.Some? {
      ThreatScanNoHit(rec.threats.value, Severity, productId);
    }
    ResolveSeverity(productId, rec);
  }

  lemma ResolveSeverity(productId: string, rec: VulnRecord)
    ensures Resolve(productId, rec).Ok? ==> ThreatLookup(rec.threats, Severity, productId) == Ok(Resolve(productId, rec).value.severity)
  {
    if Resolve(productId, rec).Ok? {
      ResolveFields(productId, rec);
    }
  }

  /** Resolution sees the product only through its identifier read as a
      number: "010377" and "10377" resolve alike. */
  lemma ResolveByNumber(p: string, q: string, rec: VulnRecord)
    requires ParseInt(p) == ParseInt(q)
    ensures Resolve(p, rec) == Resolve(q, rec)
  {
    ThreatScanByNumber(p, q, rec.threats, Severity);
    ThreatScanByNumber(p, q, rec.threats, Impact);
    RemediationScanByNumber(p, q, rec.remediations, DescriptionField, "");
    RemediationScanByNumber(p, q, rec.remediations, SupercedenceField, "");
  }

  lemma ThreatScanByNumber(p: string, q: string, threats: Option<seq<Threat>>, kind: ThreatKind)
    requires ParseInt(p) == ParseInt(q)
    ensures ThreatLookup(threats, kind, p) == ThreatLookup(threats, kind, q)
  {
    if threats.Some? {
      ThreatScanSame(p, q, threats.value, kind);
    }
  }

  lemma {:induction false} ThreatScanSame(p: string, q: string, ts: seq<Threat>, kind: ThreatKind)
    requires ParseInt(p) == ParseInt(q)
    ensures ThreatScan(ts, kind, p) == ThreatScan(ts, kind, q)
  {
    if ts != [] {
      ThreatScanSame(p, q, ts[1..], kind);
    }
  }

  lemma {:induction false} RemediationScanByNumber(p: string, q: string, rs: seq<Remediation>, field: RemediationField, acc: string)
    requires ParseInt(p) == ParseInt(q)
    ensures RemediationScan(rs, field, p, acc) == RemediationScan(rs, field, q, acc)
  {
    if rs != [] {
      var next := RemediationStep(rs[0], field, p, acc);
      if next.Ok? {
        RemediationScanByNumber(p, q, rs[1..], field, next.value);
      }
    }
  }
}
