/** `Vulnerability.find` and the two searches (lines 116-161) as functions.

    A search yields, in document order, one result per (record, product) pair
    it builds a Vulnerability for. As written, the searches hand the text
    nodes of a `vuln:ProductID` element to the Vulnerability constructor in
    place of a Product (lines 142-143 and 159-160), and the CVE search looks
    for that element under the `vuln:CVE` node, which has none; this model
    reads the element as an identifier list and builds the Vulnerability for
    the catalog Product each identifier names (see `AsWritten` for the code as
    written). The catalog is given by its products' identifiers. */
module Search {
  import opened Wrappers
  import opened Text
  import opened Cvrf
  import opened IdList
  import opened Resolution

  /** The argument of `find`: `Union[str, int]`. */
  datatype Token = StrToken(s: string) | IntToken(n: int)

  /** The search `find` chooses. */
  datatype Query = ByCve(cve: string) | ByKb(kb: int)

  /** The dispatch of lines 121-129. */
  function Dispatch(t: Token): (r: Result<Query>)
    ensures (r.Ok? && r.value.ByCve?) <==> (t.StrToken? && StartsWith(ToLower(t.s), "cve-"))
    ensures r.Ok? && r.value.ByCve? ==> r.value.cve == t.s
    ensures t.IntToken? ==> r == Ok(ByKb(t.n))
    ensures r == Err(InvalidQuery)
        <==> t.StrToken? && !StartsWith(ToLower(t.s), "cve-") && !StartsWith(ToLower(t.s), "kb")
    ensures t.StrToken? && r.Ok? && r.value.ByKb? ==> StartsWith(ToLower(t.s), "kb") && ParseInt(t.s[2..]) == Some(r.value.kb)
  {
    match t
    case IntToken(n) => Ok(ByKb(n))
    case StrToken(s) =>
      if StartsWith(ToLower(s), "cve-") then Ok(ByCve(s))
      else if StartsWith(ToLower(s), "kb") then
        match ParseInt(s[2..])
        case None => Err(InvalidInteger(s[2..]))
        case Some(n) => Ok(ByKb(n))
      else Err(InvalidQuery)
  }

  /** `"kb"` (in any case) followed by a number reaches the same search as the
      number itself. */
  lemma DispatchKbText(prefix: string, n: nat)
    requires ToLower(prefix) == "kb"
    ensures Dispatch(StrToken(prefix + NatToString(n))) == Dispatch(IntToken(n)) == Ok(ByKb(n))
  {
    var s := prefix + NatToString(n);
    assert ToLower(s)[..2] == ToLower(prefix);
    assert StartsWith(ToLower(s), "kb");
    assert ToLower(s)[1] == 'b' != "cve-"[1];
    assert !StartsWith(ToLower(s), "cve-");
    assert s[2..] == NatToString(n);
    assert ParseInt(s[2..]) == Some(n);
  }

  /** A bare string of digits is not a query: only an `int` goes straight to
      the KB search. */
  lemma DispatchDigitsRejected(s: string)
    requires IsDigits(s)
    ensures Dispatch(StrToken(s)) == Err(InvalidQuery)
  {
    assert Lower(s[0]) == s[0] && IsDigit(s[0]);
    assert ToLower(s)[0] == s[0];
  }

  /** The first catalog position whose identifier reads as `id`. */
  function FindProduct(catalogIds: seq<string>, id: nat): (r: Option<nat>)
    ensures r.Some? ==> r.value < |catalogIds| && ParseInt(catalogIds[r.value]) == Some(id)
    ensures r.Some? ==> forall k :: 0 <= k < r.value ==> ParseInt(catalogIds[k]) != Some(id)
    ensures r.None? ==> forall k :: 0 <= k < |catalogIds| ==> ParseInt(catalogIds[k]) != Some(id)
  {
    if catalogIds == [] then None
    else if ParseInt(catalogIds[0]) == Some(id) then Some(0)
    else match FindProduct(catalogIds[1..], id)
      case None => None
      case Some(k) => Some(k + 1)
  }

  /** One search result: the catalog position of the product, the position of
      the record, and the fields the Vulnerability is built with. */
  datatype Hit = Hit(product: nat, record: nat, fields: Fields)

  /** The result is the resolution of an existing record for an existing
      product. */
  predicate Resolved(h: Hit, catalogIds: seq<string>, recs: seq<VulnRecord>) {
    h.product < |catalogIds| && h.record < |recs|
    && Resolve(catalogIds[h.product], recs[h.record]) == Ok(h.fields)
  }

  /** A table of outcomes, one row per record and one column per product. */
  predicate Shaped(table: seq<seq<Result<Fields>>>, products: nat, records: nat) {
    |table| == records && forall i :: 0 <= i < records ==> |table[i]| == products
  }

  /** `table[i][p]` is what building a Vulnerability from record `i` for
      product `p` gives. The equation is stated per pair and is used where the
      resolution of that pair is named. */
  predicate Tabulates(table: seq<seq<Result<Fields>>>, catalogIds: seq<string>, recs: seq<VulnRecord>) {
    Shaped(table, |catalogIds|, |recs|)
    && forall i, p {:trigger Resolve(catalogIds[p], recs[i])} :: 0 <= i < |recs| && 0 <= p < |catalogIds| ==>
      table[i][p] == Resolve(catalogIds[p], recs[i])
  }

  /** The outcomes of every record for every product. */
  function Outcomes(catalogIds: seq<string>, recs: seq<VulnRecord>): (t: seq<seq<Result<Fields>>>)
    ensures Tabulates(t, catalogIds, recs)
  {
    seq(|recs|, i requires 0 <= i < |recs| =>
      seq(|catalogIds|, p requires 0 <= p < |catalogIds| => Resolve(catalogIds[p], recs[i])))
  }

  /** The result is the entry of the table for its record and product. */
  predicate InTable(h: Hit, table: seq<seq<Result<Fields>>>) {
    h.record < |table| && h.product < |table[h.record]| && table[h.record][h.product] == Ok(h.fields)
  }

  lemma InTableResolved(h: Hit, table: seq<seq<Result<Fields>>>, catalogIds: seq<string>, recs: seq<VulnRecord>)
    requires Tabulates(table, catalogIds, recs) && InTable(h, table)
    ensures Resolved(h, catalogIds, recs)
  {
    assert table[h.record][h.product] == Resolve(catalogIds[h.product], recs[h.record]);
  }

  /** One Vulnerability per identifier, in list order, from the row of
      outcomes of record `i`; an identifier with no Product in the catalog
      fails. */
  function ResolveIds(ids: seq<nat>, catalogIds: seq<string>, row: seq<Result<Fields>>, i: nat): Result<seq<Hit>>
    requires |row| == |catalogIds|
  {
    if ids == [] then Ok([])
    else match FindProduct(catalogIds, ids[0])
      case None => Err(UnknownProduct(ids[0]))
      case Some(p) =>
        var fields :- row[p];
        var rest :- ResolveIds(ids[1..], catalogIds, row, i);
        Ok([Hit(p, i, fields)] + rest)
  }

  /** A resolved list holds one result per identifier, in list order, each
      for the catalog product the identifier reads as and with that
      product's outcome in the row. */
  lemma {:induction false} ResolveIdsSound(ids: seq<nat>, catalogIds: seq<string>, row: seq<Result<Fields>>, i: nat)
    requires |row| == |catalogIds| && ResolveIds(ids, catalogIds, row, i).Ok?
    ensures var hs := ResolveIds(ids, catalogIds, row, i).value;
      |hs| == |ids|
      && forall k :: 0 <= k < |ids| ==>
        hs[k].record == i && hs[k].product < |row| && row[hs[k].product] == Ok(hs[k].fields)
        && ParseInt(catalogIds[hs[k].product]) == Some(ids[k])
    decreases |ids|
  {
    if ids != [] {
      var p := FindProduct(catalogIds, ids[0]).value;
      ResolveIdsSound(ids[1..], catalogIds, row, i);
      var hs := ResolveIds(ids, catalogIds, row, i).value;
      var rest := ResolveIds(ids[1..], catalogIds, row, i).value;
      assert hs == [Hit(p, i, row[p].value)] + rest;
      forall k | 1 <= k < |ids|
        ensures hs[k] == rest[k - 1] && ids[k] == ids[1..][k - 1]
      {
      }
    }
  }

  /** Resolving a list is resolving its head, then its tail. */
  lemma ResolveIdsCons(ids: seq<nat>, catalogIds: seq<string>, row: seq<Result<Fields>>, i: nat, p: nat, fields: Fields)
    requires |row| == |catalogIds| && ids != []
    requires FindProduct(catalogIds, ids[0]) == Some(p)
    requires row[p] == Ok(fields)
    ensures ResolveIds(ids, catalogIds, row, i) == Prepend([Hit(p, i, fields)], ResolveIds(ids[1..], catalogIds, row, i))
  {
  }

  /** The identifier list of an element the search iterates; iterating a
      missing element raises. */
  function ListedIds(element: Option<string>): Result<seq<nat>> {
    match element
    case None => Err(NotIterable)
    case Some(raw) => ParseIdList(Trim(raw))
  }

  /** Lines 138-141: a record with a CVE text matches when the text, unstripped,
      equals the query ignoring case. */
  predicate CveMatches(rec: VulnRecord, cve: string) {
    rec.cve.Some? && rec.cve.value != "" && ToLower(rec.cve.value) == ToLower(cve)
  }

  /** Lines 138-143 for record `i`. */
  function RecordCveHits(recs: seq<VulnRecord>, i: nat, catalogIds: seq<string>, table: seq<seq<Result<Fields>>>, cve: string): Result<seq<Hit>>
    requires i < |recs| && Shaped(table, |catalogIds|, |recs|)
  {
    if !CveMatches(recs[i], cve) then Ok([])
    else
      var ids :- ListedIds(recs[i].statusProductId);
      ResolveIds(ids, catalogIds, table[i], i)
  }

  /** The loop of lines 137-143 from record `i` on. */
  function CveHitsFrom(recs: seq<VulnRecord>, i: nat, catalogIds: seq<string>, table: seq<seq<Result<Fields>>>, cve: string): Result<seq<Hit>>
    requires i <= |recs| && Shaped(table, |catalogIds|, |recs|)
    decreases |recs| - i
  {
    if i == |recs| then Ok([])
    else
      var here :- RecordCveHits(recs, i, catalogIds, table, cve);
      var rest :- CveHitsFrom(recs, i + 1, catalogIds, table, cve);
      Ok(here + rest)
  }

  /** The results follow document order: their records never decrease. */
  predicate InOrder(hs: seq<Hit>) {
    forall a, b :: 0 <= a < b < |hs| ==> hs[a].record <= hs[b].record
  }

  /** Results up to record `m` followed by results from record `m` on are in
      order when each part is. */
  lemma InOrderAppend(xs: seq<Hit>, ys: seq<Hit>, m: int)
    requires forall k :: 0 <= k < |xs| ==> xs[k].record == m
    requires forall k :: 0 <= k < |ys| ==> m <= ys[k].record
    requires InOrder(ys)
    ensures InOrder(xs + ys)
  {
    forall a, b | 0 <= a < b < |xs + ys|
      ensures (xs + ys)[a].record <= (xs + ys)[b].record
    {
      if a >= |xs| {
        assert (xs + ys)[a] == ys[a - |xs|] && (xs + ys)[b] == ys[b - |xs|];
      }
    }
  }

  /** A result of the CVE search: an outcome in the table for a record whose
      CVE matches. */
  predicate CveFound(h: Hit, recs: seq<VulnRecord>, table: seq<seq<Result<Fields>>>, cve: string) {
    h.record < |recs| && InTable(h, table) && CveMatches(recs[h.record], cve)
  }

  /** The results for record `i` come from that record, whose CVE matches,
      and carry its outcomes in the table. */
  lemma RecordCveHitsSound(recs: seq<VulnRecord>, i: nat, catalogIds: seq<string>, table: seq<seq<Result<Fields>>>, cve: string)
    requires i < |recs| && Shaped(table, |catalogIds|, |recs|) && RecordCveHits(recs, i, catalogIds, table, cve).Ok?
    ensures var hs := RecordCveHits(recs, i, catalogIds, table, cve).value;
      forall k :: 0 <= k < |hs| ==> hs[k].record == i && InTable(hs[k], table) && CveMatches(recs[i], cve)
  {
    if CveMatches(recs[i], cve) {
      ResolveIdsSound(ListedIds(recs[i].statusProductId).value, catalogIds, table[i], i);
    }
  }

  /** The results from record `i` on come from matching records at or after
      `i`, in record order. */
  lemma {:induction false} CveHitsFromSound(recs: seq<VulnRecord>, i: nat, catalogIds: seq<string>, table: seq<seq<Result<Fields>>>, cve: string)
    requires i <= |recs| && Shaped(table, |catalogIds|, |recs|) && CveHitsFrom(recs, i, catalogIds, table, cve).Ok?
    ensures var hs := CveHitsFrom(recs, i, catalogIds, table, cve).value;
      AllCveFound(hs, i, recs, table, cve) && InOrder(hs)
    decreases |recs| - i
  {
    if i < |recs| {
      RecordCveHitsSound(recs, i, catalogIds, table, cve);
      CveHitsFromSound(recs, i + 1, catalogIds, table, cve);
      var here := RecordCveHits(recs, i, catalogIds, table, cve).value;
      var rest := CveHitsFrom(recs, i + 1, catalogIds, table, cve).value;
      assert CveHitsFrom(recs, i, catalogIds, table, cve).value == here + rest;
      AllCveFoundConcat(here, rest, i, recs, table, cve);
      InOrderAppend(here, rest, i);
    }
  }

  /** Every result is found for a record at or after `i`. */
  predicate AllCveFound(hs: seq<Hit>, i: nat, recs: seq<VulnRecord>, table: seq<seq<Result<Fields>>>, cve: string) {
    forall k :: 0 <= k < |hs| ==> i <= hs[k].record && CveFound(hs[k], recs, table, cve)
  }

  lemma AllCveFoundConcat(here: seq<Hit>, rest: seq<Hit>, i: nat, recs: seq<VulnRecord>, table: seq<seq<Result<Fields>>>, cve: string)
    requires i < |recs|
    requires forall k :: 0 <= k < |here| ==> here[k].record == i && InTable(here[k], table) && CveMatches(recs[i], cve)
    requires AllCveFound(rest, i + 1, recs, table, cve)
    ensures AllCveFound(here + rest, i, recs, table, cve)
  {
    assert forall k :: |here| <= k < |here + rest| ==> (here + rest)[k] == rest[k - |here|];
  }

  /** `get_vuln_info_by_cve`, over the outcomes of every record for every
      product. */
  function CveSearch(doc: Document, catalogIds: seq<string>, cve: string): Result<seq<Hit>> {
    CveHitsFrom(doc.vulnerabilities, 0, catalogIds, Outcomes(catalogIds, doc.vulnerabilities), cve)
  }

  /** Every result of the CVE search is a record whose CVE matches the query,
      resolved for a catalog product, and the results follow document order. */
  lemma CveSearchSound(doc: Document, catalogIds: seq<string>, cve: string)
    requires CveSearch(doc, catalogIds, cve).Ok?
    ensures var hs := CveSearch(doc, catalogIds, cve).value;
      (forall k :: 0 <= k < |hs| ==>
        Resolved(hs[k], catalogIds, doc.vulnerabilities) && CveMatches(doc.vulnerabilities[hs[k].record], cve))
      && InOrder(hs)
  {
    var table := Outcomes(catalogIds, doc.vulnerabilities);
    var hs := CveSearch(doc, catalogIds, cve).value;
    CveHitsFromSound(doc.vulnerabilities, 0, catalogIds, table, cve);
    assert AllCveFound(hs, 0, doc.vulnerabilities, table, cve);
    forall k | 0 <= k < |hs|
      ensures Resolved(hs[k], catalogIds, doc.vulnerabilities)
    {
      InTableResolved(hs[k], table, catalogIds, doc.vulnerabilities);
    }
  }

  /** The CVE search ignores the case of the query. */
  lemma {:induction false} CveHitsCaseInsensitive(recs: seq<VulnRecord>, i: nat, catalogIds: seq<string>, table: seq<seq<Result<Fields>>>, a: string, b: string)
    requires i <= |recs| && Shaped(table, |catalogIds|, |recs|) && ToLower(a) == ToLower(b)
    ensures CveHitsFrom(recs, i, catalogIds, table, a) == CveHitsFrom(recs, i, catalogIds, table, b)
    decreases |recs| - i
  {
    if i < |recs| {
      assert RecordCveHits(recs, i, catalogIds, table, a) == RecordCveHits(recs, i, catalogIds, table, b);
      CveHitsCaseInsensitive(recs, i + 1, catalogIds, table, a, b);
    }
  }

  /** Lines 155-158: a remediation of any Type whose Description text,
      unstripped, is all digits with the value of the query (an empty text is
      skipped at line 156 and is not all digits either). */
  predicate KbMatches(r: Remediation, kb: int) {
    r.description.Some? && IsDigits(r.description.value) && kb == DigitsValue(r.description.value)
  }

  /** Remediation `j` of record `i` has the queried KB and names the product. */
  predicate KbNamedBy(recs: seq<VulnRecord>, i: nat, j: nat, catalogIds: seq<string>, p: nat, kb: int) {
    i < |recs| && j < |recs[i].remediations| && p < |catalogIds|
    && KbMatches(recs[i].remediations[j], kb)
    && ListedIds(recs[i].remediations[j].productId).Ok?
    && Names(catalogIds[p], ListedIds(recs[i].remediations[j].productId).value)
  }

  /** Lines 155-160 for remediation `j` of record `i`. */
  function RemediationKbHits(recs: seq<VulnRecord>, i: nat, j: nat, catalogIds: seq<string>, table: seq<seq<Result<Fields>>>, kb: int): Result<seq<Hit>>
    requires i < |recs| && j < |recs[i].remediations| && Shaped(table, |catalogIds|, |recs|)
  {
    var rem := recs[i].remediations[j];
    if !KbMatches(rem, kb) then Ok([])
    else
      var ids :- ListedIds(rem.productId);
      ResolveIds(ids, catalogIds, table[i], i)
  }

  /** The results for remediation `j` of record `i` are products the
      remediation names, when it carries the KB. */
  lemma RemediationKbHitsSound(recs: seq<VulnRecord>, i: nat, j: nat, catalogIds: seq<string>, table: seq<seq<Result<Fields>>>, kb: int)
    requires i < |recs| && j < |recs[i].remediations| && Shaped(table, |catalogIds|, |recs|)
    requires RemediationKbHits(recs, i, j, catalogIds, table, kb).Ok?
    ensures var hs := RemediationKbHits(recs, i, j, catalogIds, table, kb).value;
      forall k :: 0 <= k < |hs| ==>
        hs[k].record == i && InTable(hs[k], table) && KbNamedBy(recs, i, j, catalogIds, hs[k].product, kb)
  {
    var rem := recs[i].remediations[j];
    if KbMatches(rem, kb) {
      var ids := ListedIds(rem.productId).value;
      ResolveIdsSound(ids, catalogIds, table[i], i);
      assert forall k :: 0 <= k < |ids| ==> ids[k] in ids;
    }
  }

  /** The result comes from some remediation of its record, from `j` on. */
  predicate KbNamed(h: Hit, recs: seq<VulnRecord>, j: nat, catalogIds: seq<string>, kb: int) {
    h.record < |recs|
    && exists jj :: j <= jj < |recs[h.record].remediations| && KbNamedBy(recs, h.record, jj, catalogIds, h.product, kb)
  }

  /** The loop of lines 154-160 over the remediations of record `i`, from `j` on. */
  function RecordKbHits(recs: seq<VulnRecord>, i: nat, j: nat, catalogIds: seq<string>, table: seq<seq<Result<Fields>>>, kb: int): Result<seq<Hit>>
    requires i < |recs| && j <= |recs[i].remediations| && Shaped(table, |catalogIds|, |recs|)
    decreases |recs[i].remediations| - j
  {
    if j == |recs[i].remediations| then Ok([])
    else
      var here :- RemediationKbHits(recs, i, j, catalogIds, table, kb);
      var rest :- RecordKbHits(recs, i, j + 1, catalogIds, table, kb);
      Ok(here + rest)
  }

  /** The loop of lines 150-160 from record `i` on. */
  function KbHitsFrom(recs: seq<VulnRecord>, i: nat, catalogIds: seq<string>, table: seq<seq<Result<Fields>>>, kb: int): Result<seq<Hit>>
    requires i <= |recs| && Shaped(table, |catalogIds|, |recs|)
    decreases |recs| - i
  {
    if i == |recs| then Ok([])
    else
      var here :- RecordKbHits(recs, i, 0, catalogIds, table, kb);
      var rest :- KbHitsFrom(recs, i + 1, catalogIds, table, kb);
      Ok(here + rest)
  }

  /** The results for record `i` from remediation `j` on come from a
      remediation of the record, at or after `j`, that carries the KB and
      names the product. */
  lemma {:induction false} RecordKbHitsSound(recs: seq<VulnRecord>, i: nat, j: nat, catalogIds: seq<string>, table: seq<seq<Result<Fields>>>, kb: int)
    requires i < |recs| && j <= |recs[i].remediations| && Shaped(table, |catalogIds|, |recs|)
    requires RecordKbHits(recs, i, j, catalogIds, table, kb).Ok?
    ensures var hs := RecordKbHits(recs, i, j, catalogIds, table, kb).value;
      forall k :: 0 <= k < |hs| ==> hs[k].record == i && InTable(hs[k], table) && KbNamed(hs[k], recs, j, catalogIds, kb)
    decreases |recs[i].remediations| - j
  {
    if j < |recs[i].remediations| {
      RemediationKbHitsSound(recs, i, j, catalogIds, table, kb);
      RecordKbHitsSound(recs, i, j + 1, catalogIds, table, kb);
      var here := RemediationKbHits(recs, i, j, catalogIds, table, kb).value;
      var rest := RecordKbHits(recs, i, j + 1, catalogIds, table, kb).value;
      assert RecordKbHits(recs, i, j, catalogIds, table, kb).value == here + rest;
      KbNamedConcat(here, rest, recs, i, j, catalogIds, table, kb);
    }
  }

  lemma KbNamedConcat(here: seq<Hit>, rest: seq<Hit>, recs: seq<VulnRecord>, i: nat, j: nat, catalogIds: seq<string>, table: seq<seq<Result<Fields>>>, kb: int)
    requires i < |recs| && j < |recs[i].remediations|
    requires forall k :: 0 <= k < |here| ==> here[k].record == i && InTable(here[k], table) && KbNamedBy(recs, i, j, catalogIds, here[k].product, kb)
    requires forall k :: 0 <= k < |rest| ==> rest[k].record == i && InTable(rest[k], table) && KbNamed(rest[k], recs, j + 1, catalogIds, kb)
    ensures forall k :: 0 <= k < |here + rest| ==> (here + rest)[k].record == i && InTable((here + rest)[k], table) && KbNamed((here + rest)[k], recs, j, catalogIds, kb)
  {
    forall k | 0 <= k < |here + rest|
      ensures (here + rest)[k].record == i && InTable((here + rest)[k], table) && KbNamed((here + rest)[k], recs, j, catalogIds, kb)
    {
      if k < |here| {
        assert (here + rest)[k] == here[k];
      } else {
        assert (here + rest)[k] == rest[k - |here|];
      }
    }
  }

  /** A result of the KB search: an outcome in the table for a record with a
      remediation that carries the KB and names the product. */
  predicate KbFound(h: Hit, recs: seq<VulnRecord>, catalogIds: seq<string>, table: seq<seq<Result<Fields>>>, kb: int) {
    h.record < |recs| && InTable(h, table) && KbNamed(h, recs, 0, catalogIds, kb)
  }

  /** The results from record `i` on come from records at or after `i`, each
      with a remediation that carries the KB and names the product, in
      record order. */
  lemma {:induction false} KbHitsFromSound(recs: seq<VulnRecord>, i: nat, catalogIds: seq<string>, table: seq<seq<Result<Fields>>>, kb: int)
    requires i <= |recs| && Shaped(table, |catalogIds|, |recs|) && KbHitsFrom(recs, i, catalogIds, table, kb).Ok?
    ensures var hs := KbHitsFrom(recs, i, catalogIds, table, kb).value;
      AllKbFound(hs, i, recs, catalogIds, table, kb) && InOrder(hs)
    decreases |recs| - i
  {
    if i < |recs| {
      RecordKbHitsSound(recs, i, 0, catalogIds, table, kb);
      KbHitsFromSound(recs, i + 1, catalogIds, table, kb);
      var here := RecordKbHits(recs, i, 0, catalogIds, table, kb).value;
      var rest := KbHitsFrom(recs, i + 1, catalogIds, table, kb).value;
      assert KbHitsFrom(recs, i, catalogIds, table, kb).value == here + rest;
      AllKbFoundConcat(here, rest, i, recs, catalogIds, table, kb);
      InOrderAppend(here, rest, i);
    }
  }

  /** Every result is found for a record at or after `i`. */
  predicate AllKbFound(hs: seq<Hit>, i: nat, recs: seq<VulnRecord>, catalogIds: seq<string>, table: seq<seq<Result<Fields>>>, kb: int) {
    forall k :: 0 <= k < |hs| ==> i <= hs[k].record && KbFound(hs[k], recs, catalogIds, table, kb)
  }

  lemma AllKbFoundConcat(here: seq<Hit>, rest: seq<Hit>, i: nat, recs: seq<VulnRecord>, catalogIds: seq<string>, table: seq<seq<Result<Fields>>>, kb: int)
    requires i < |recs|
    requires forall k :: 0 <= k < |here| ==> here[k].record == i && InTable(here[k], table) && KbNamed(here[k], recs, 0, catalogIds, kb)
    requires AllKbFound(rest, i + 1, recs, catalogIds, table, kb)
    ensures AllKbFound(here + rest, i, recs, catalogIds, table, kb)
  {
    assert forall k :: |here| <= k < |here + rest| ==> (here + rest)[k] == rest[k - |here|];
  }

  /** `get_vuln_info_by_kb`, over the outcomes of every record for every
      product. */
  function KbSearch(doc: Document, catalogIds: seq<string>, kb: int): Result<seq<Hit>> {
    KbHitsFrom(doc.vulnerabilities, 0, catalogIds, Outcomes(catalogIds, doc.vulnerabilities), kb)
  }

  /** Every result of the KB search is a record with a remediation that
      carries the KB and names the product, resolved for that product, and
      the results follow document order. */
  lemma KbSearchSound(doc: Document, catalogIds: seq<string>, kb: int)
    requires KbSearch(doc, catalogIds, kb).Ok?
    ensures var hs := KbSearch(doc, catalogIds, kb).value;
      (forall k :: 0 <= k < |hs| ==>
        Resolved(hs[k], catalogIds, doc.vulnerabilities) && KbNamed(hs[k], doc.vulnerabilities, 0, catalogIds, kb))
      && InOrder(hs)
  {
    var table := Outcomes(catalogIds, doc.vulnerabilities);
    var hs := KbSearch(doc, catalogIds, kb).value;
    KbHitsFromSound(doc.vulnerabilities, 0, catalogIds, table, kb);
    assert AllKbFound(hs, 0, doc.vulnerabilities, catalogIds, table, kb);
    forall k | 0 <= k < |hs|
      ensures Resolved(hs[k], catalogIds, doc.vulnerabilities)
    {
      InTableResolved(hs[k], table, catalogIds, doc.vulnerabilities);
    }
  }

  /** With no record whose CVE matches, the CVE search succeeds with no
      results: an empty result is not an error. */
  lemma {:induction false} CveHitsNoMatch(recs: seq<VulnRecord>, i: nat, catalogIds: seq<string>, table: seq<seq<Result<Fields>>>, cve: string)
    requires i <= |recs| && Shaped(table, |catalogIds|, |recs|)
    requires forall j :: i <= j < |recs| ==> !CveMatches(recs[j], cve)
    ensures CveHitsFrom(recs, i, catalogIds, table, cve) == Ok([])
    decreases |recs| - i
  {
    if i < |recs| {
      CveHitsNoMatch(recs, i + 1, catalogIds, table, cve);
      assert RecordCveHits(recs, i, catalogIds, table, cve) == Ok([]);
      assert CveHitsFrom(recs, i, catalogIds, table, cve) == Ok([] + []);
      var none: seq<Hit> := [];
      assert none + none == none;
    }
  }

  lemma CveSearchEmpty(doc: Document, catalogIds: seq<string>, cve: string)
    requires forall j :: 0 <= j < |doc.vulnerabilities| ==> !CveMatches(doc.vulnerabilities[j], cve)
    ensures CveSearch(doc, catalogIds, cve) == Ok([])
  {
    CveHitsNoMatch(doc.vulnerabilities, 0, catalogIds, Outcomes(catalogIds, doc.vulnerabilities), cve);
  }

  /** With no remediation from `j` on that carries the KB, the record gives
      no results. */
  lemma {:induction false} RecordKbNoMatch(recs: seq<VulnRecord>, i: nat, j: nat, catalogIds: seq<string>, table: seq<seq<Result<Fields>>>, kb: int)
    requires i < |recs| && j <= |recs[i].remediations| && Shaped(table, |catalogIds|, |recs|)
    requires forall jj :: j <= jj < |recs[i].remediations| ==> !KbMatches(recs[i].remediations[jj], kb)
    ensures RecordKbHits(recs, i, j, catalogIds, table, kb) == Ok([])
    decreases |recs[i].remediations| - j
  {
    if j < |recs[i].remediations| {
      RecordKbNoMatch(recs, i, j + 1, catalogIds, table, kb);
      assert RemediationKbHits(recs, i, j, catalogIds, table, kb) == Ok([]);
      assert RecordKbHits(recs, i, j, catalogIds, table, kb) == Ok([] + []);
      var none: seq<Hit> := [];
      assert none + none == none;
    }
  }

  /** With no remediation from record `i` on that carries the KB, the KB
      search succeeds with no results. */
  lemma {:induction false} KbHitsNoMatch(recs: seq<VulnRecord>, i: nat, catalogIds: seq<string>, table: seq<seq<Result<Fields>>>, kb: int)
    requires i <= |recs| && Shaped(table, |catalogIds|, |recs|)
    requires forall ii, jj :: i <= ii < |recs| && 0 <= jj < |recs[ii].remediations| ==> !KbMatches(recs[ii].remediations[jj], kb)
    ensures KbHitsFrom(recs, i, catalogIds, table, kb) == Ok([])
    decreases |recs| - i
  {
    if i < |recs| {
      RecordKbNoMatch(recs, i, 0, catalogIds, table, kb);
      KbHitsNoMatch(recs, i + 1, catalogIds, table, kb);
      assert KbHitsFrom(recs, i, catalogIds, table, kb) == Ok([] + []);
      var none: seq<Hit> := [];
      assert none + none == none;
    }
  }

  lemma KbSearchEmpty(doc: Document, catalogIds: seq<string>, kb: int)
    requires var recs := doc.vulnerabilities;
      forall ii, jj :: 0 <= ii < |recs| && 0 <= jj < |recs[ii].remediations| ==> !KbMatches(recs[ii].remediations[jj], kb)
    ensures KbSearch(doc, catalogIds, kb) == Ok([])
  {
    KbHitsNoMatch(doc.vulnerabilities, 0, catalogIds, Outcomes(catalogIds, doc.vulnerabilities), kb);
  }

  /** The KB search matches a remediation by its KB, but the `kb` field of
      the Vulnerability it builds is read by lines 92-103 from the last vendor
      fix naming the product: two fixes for product `n`, with KBs `a` then
      `b`, match a search for `a` and give the field `b`. */
  lemma KbFieldFromLastFix(n: nat, a: nat, b: nat)
    requires a != b
    ensures var fa := Remediation("Vendor Fix", Some(NatToString(a)), None, Some(NatToString(n)));
      var fb := Remediation("Vendor Fix", Some(NatToString(b)), None, Some(NatToString(n)));
      KbMatches(fa, a)
      && RemediationInfo([fa, fb], DescriptionField, NatToString(n)) == Ok(NatToString(b))
      && NatToString(b) != NatToString(a)
  {
    var fa := Remediation("Vendor Fix", Some(NatToString(a)), None, Some(NatToString(n)));
    var fb := Remediation("Vendor Fix", Some(NatToString(b)), None, Some(NatToString(n)));
    DigitsAreStripped(NatToString(n));
    DigitsAreStripped(NatToString(b));
    ParseIdListSingle(n);
    assert RemediationHit(fa, NatToString(n)) && RemediationHit(fb, NatToString(n));
    RemediationInfoLastHit([fa, fb], DescriptionField, NatToString(n), 1);
    assert FieldText(fb, DescriptionField) == NatToString(b);
    assert ParseInt(NatToString(a)) != ParseInt(NatToString(b));
  }

  /** The results `hs` followed by those of `r`, or the failure of `r`. */
  function Prepend(hs: seq<Hit>, r: Result<seq<Hit>>): Result<seq<Hit>> {
    var rest :- r;
    Ok(hs + rest)
  }

  lemma PrependEmpty(r: Result<seq<Hit>>)
    ensures Prepend([], r) == r
  {
    if r.Ok? {
      assert [] + r.value == r.value;
    }
  }

  lemma PrependPrepend(hs: seq<Hit>, xs: seq<Hit>, r: Result<seq<Hit>>)
    ensures Prepend(hs, Prepend(xs, r)) == Prepend(hs + xs, r)
  {
    if r.Ok? {
      assert hs + (xs + r.value) == (hs + xs) + r.value;
    }
  }

  /** `find`: dispatch, then search. */
  function Find(doc: Document, catalogIds: seq<string>, t: Token): (r: Result<seq<Hit>>)
    ensures t.IntToken? ==> r == KbSearch(doc, catalogIds, t.n)
    ensures t.StrToken? && StartsWith(ToLower(t.s), "cve-") ==> r == CveSearch(doc, catalogIds, t.s)
    ensures t.StrToken? && !StartsWith(ToLower(t.s), "cve-") && StartsWith(ToLower(t.s), "kb") ==>
      |t.s| >= 2 && r == match ParseInt(t.s[2..])
        case Some(n) => KbSearch(doc, catalogIds, n)
        case None => Err(InvalidInteger(t.s[2..]))
    ensures t.StrToken? && !StartsWith(ToLower(t.s), "cve-") && !StartsWith(ToLower(t.s), "kb") ==> r == Err(InvalidQuery)
  {
    var q :- Dispatch(t);
    match q
    case ByCve(cve) => CveSearch(doc, catalogIds, cve)
    case ByKb(kb) => KbSearch(doc, catalogIds, kb)
  }

  /** `find(doc, "kb<n>")` and `find(doc, n)` give equal results. */
  lemma FindKbTextOrNumber(doc: Document, catalogIds: seq<string>, prefix: string, n: nat)
    requires ToLower(prefix) == "kb"
    ensures Find(doc, catalogIds, StrToken(prefix + NatToString(n))) == Find(doc, catalogIds, IntToken(n))
  {
    DispatchKbText(prefix, n);
  }

  /** `find` with CVE identifiers that differ only in case gives equal results. */
  lemma FindCveAnyCase(doc: Document, catalogIds: seq<string>, a: string, b: string)
    requires StartsWith(ToLower(a), "cve-") && ToLower(a) == ToLower(b)
    ensures Find(doc, catalogIds, StrToken(a)) == Find(doc, catalogIds, StrToken(b))
  {
    CveHitsCaseInsensitive(doc.vulnerabilities, 0, catalogIds, Outcomes(catalogIds, doc.vulnerabilities), a, b);
  }

  /** The results for record `i`, in their order. */
  function OfRecord(hs: seq<Hit>, i: nat): (r: seq<Hit>)
    ensures |r| <= |hs|
    ensures forall k :: 0 <= k < |r| ==> r[k].record == i
  {
    if hs == [] then [] else (if hs[0].record == i then [hs[0]] else []) + OfRecord(hs[1..], i)
  }

  lemma {:induction false} OfRecordConcat(a: seq<Hit>, b: seq<Hit>, i: nat)
    ensures OfRecord(a + b, i) == OfRecord(a, i) + OfRecord(b, i)
  {
    if a != [] {
      assert (a + b)[0] == a[0] && (a + b)[1..] == a[1..] + b;
      OfRecordConcat(a[1..], b, i);
      var head: seq<Hit> := if a[0].record == i then [a[0]] else [];
      assert OfRecord(a + b, i) == head + (OfRecord(a[1..], i) + OfRecord(b, i));
      assert head + (OfRecord(a[1..], i) + OfRecord(b, i)) == (head + OfRecord(a[1..], i)) + OfRecord(b, i);
    } else {
      assert a + b == b;
    }
  }

  lemma {:induction false} OfRecordAll(hs: seq<Hit>, i: nat)
    requires forall k :: 0 <= k < |hs| ==> hs[k].record == i
    ensures OfRecord(hs, i) == hs
  {
    if hs != [] {
      OfRecordAll(hs[1..], i);
    }
  }

  lemma {:induction false} OfRecordNone(hs: seq<Hit>, i: nat)
    requires forall k :: 0 <= k < |hs| ==> hs[k].record != i
    ensures OfRecord(hs, i) == []
  {
    if hs != [] {
      OfRecordNone(hs[1..], i);
    }
  }

  /** The results of one record followed by those of later records: the
      block of the first record is its results, every other block comes from
      the later ones. */
  lemma BlockSplit(here: seq<Hit>, rest: seq<Hit>, i0: nat, i: nat)
    requires forall k :: 0 <= k < |here| ==> here[k].record == i0
    requires forall k :: 0 <= k < |rest| ==> i0 < rest[k].record
    ensures OfRecord(here + rest, i) == if i == i0 then here else OfRecord(rest, i)
  {
    OfRecordConcat(here, rest, i);
    if i == i0 {
      OfRecordAll(here, i0);
      OfRecordNone(rest, i0);
    } else {
      OfRecordNone(here, i);
    }
  }

  /** Every record has the same results in `a` as in `b`. */
  ghost predicate SameBlocks(a: seq<Hit>, b: seq<Hit>) {
    forall i: nat :: OfRecord(a, i) == OfRecord(b, i)
  }

  /** Two lists in record order with the same results for every record are
      the same list: the blocks and the order determine the results. */
  lemma {:induction false} BlocksDetermine(a: seq<Hit>, b: seq<Hit>)
    requires InOrder(a) && InOrder(b) && SameBlocks(a, b)
    ensures a == b
    decreases |a| + |b|
  {
    if a == [] || b == [] {
      if a != [] {
        OfRecordHead(a);
        assert false;
      } else if b != [] {
        OfRecordHead(b);
        assert false;
      }
    } else {
      HeadRecordsEqual(a, b);
      TailBlocks(a, b);
      InOrderTail(a);
      InOrderTail(b);
      BlocksDetermine(a[1..], b[1..]);
      assert a == [a[0]] + a[1..] && b == [b[0]] + b[1..];
    }
  }

  /** Lists in record order with the same blocks start with the same record. */
  lemma HeadRecordsEqual(a: seq<Hit>, b: seq<Hit>)
    requires a != [] && b != [] && InOrder(a) && InOrder(b) && SameBlocks(a, b)
    ensures a[0].record == b[0].record
  {
    var r, s := a[0].record, b[0].record;
    OfRecordHead(a);
    OfRecordHead(b);
    if r < s {
      OfRecordNone(b, r);
      assert false;
    } else if s < r {
      OfRecordNone(a, s);
      assert false;
    }
  }

  /** With the same first record, the heads agree and so do the blocks of
      the tails. */
  lemma TailBlocks(a: seq<Hit>, b: seq<Hit>)
    requires a != [] && b != [] && a[0].record == b[0].record && SameBlocks(a, b)
    ensures a[0] == b[0] && SameBlocks(a[1..], b[1..])
  {
    var r := a[0].record;
    OfRecordHead(a);
    OfRecordHead(b);
    assert OfRecord(a, r) == OfRecord(b, r);
    assert a[0] == OfRecord(a, r)[0] == OfRecord(b, r)[0] == b[0];
    forall j: nat
      ensures OfRecord(a[1..], j) == OfRecord(b[1..], j)
    {
      assert OfRecord(a, j) == OfRecord(b, j);
      if j == r {
        assert OfRecord(a[1..], j) == OfRecord(a, j)[1..];
        assert OfRecord(b[1..], j) == OfRecord(b, j)[1..];
      } else {
        assert OfRecord(a, j) == OfRecord(a[1..], j);
        assert OfRecord(b, j) == OfRecord(b[1..], j);
      }
    }
  }

  lemma OfRecordHead(hs: seq<Hit>)
    requires hs != []
    ensures OfRecord(hs, hs[0].record) == [hs[0]] + OfRecord(hs[1..], hs[0].record)
  {
  }

  lemma InOrderTail(hs: seq<Hit>)
    requires hs != [] && InOrder(hs)
    ensures InOrder(hs[1..])
  {
    forall x, y | 0 <= x < y < |hs[1..]|
      ensures hs[1..][x].record <= hs[1..][y].record
    {
      assert hs[1..][x] == hs[x + 1] && hs[1..][y] == hs[y + 1];
    }
  }

  /** The result expected for identifier `id` of record `i`: the first
      catalog product the identifier reads as, with the fields the record
      resolves to for that product. */
  predicate ResultFor(h: Hit, id: nat, catalogIds: seq<string>, rec: VulnRecord, i: nat) {
    h.record == i && FindProduct(catalogIds, id) == Some(h.product) && h.product < |catalogIds|
    && Resolve(catalogIds[h.product], rec) == Ok(h.fields)
  }

  /** One expected result per identifier, in list order. */
  predicate ListsProducts(rs: seq<Hit>, ids: seq<nat>, catalogIds: seq<string>, rec: VulnRecord, i: nat) {
    |rs| == |ids| && forall k :: 0 <= k < |ids| ==> ResultFor(rs[k], ids[k], catalogIds, rec, i)
  }

  lemma ListsProductsUnique(a: seq<Hit>, b: seq<Hit>, ids: seq<nat>, catalogIds: seq<string>, rec: VulnRecord, i: nat)
    requires ListsProducts(a, ids, catalogIds, rec, i) && ListsProducts(b, ids, catalogIds, rec, i)
    ensures a == b
  {
    forall k | 0 <= k < |a|
      ensures a[k] == b[k]
    {
      assert ResultFor(a[k], ids[k], catalogIds, rec, i) && ResultFor(b[k], ids[k], catalogIds, rec, i);
    }
  }

  /** `row` holds the outcome of record `rec` for every catalog product. */
  predicate RowOf(row: seq<Result<Fields>>, catalogIds: seq<string>, rec: VulnRecord) {
    |row| == |catalogIds|
    && forall p {:trigger row[p]} :: 0 <= p < |catalogIds| ==> row[p] == Resolve(catalogIds[p], rec)
  }

  lemma TabulatesRow(table: seq<seq<Result<Fields>>>, catalogIds: seq<string>, recs: seq<VulnRecord>, i: nat)
    requires Tabulates(table, catalogIds, recs) && i < |recs|
    ensures RowOf(table[i], catalogIds, recs[i])
  {
    forall p | 0 <= p < |catalogIds|
      ensures table[i][p] == Resolve(catalogIds[p], recs[i])
    {
    }
  }

  /** A resolved identifier list gives exactly the expected results. */
  lemma {:induction false} ResolveIdsListed(ids: seq<nat>, catalogIds: seq<string>, row: seq<Result<Fields>>, rec: VulnRecord, i: nat)
    requires RowOf(row, catalogIds, rec) && ResolveIds(ids, catalogIds, row, i).Ok?
    ensures ListsProducts(ResolveIds(ids, catalogIds, row, i).value, ids, catalogIds, rec, i)
    decreases |ids|
  {
    if ids != [] {
      var p := FindProduct(catalogIds, ids[0]).value;
      assert row[p] == Resolve(catalogIds[p], rec);
      ResolveIdsListed(ids[1..], catalogIds, row, rec, i);
      var hs := ResolveIds(ids, catalogIds, row, i).value;
      var rest := ResolveIds(ids[1..], catalogIds, row, i).value;
      assert hs == [Hit(p, i, row[p].value)] + rest;
      assert ResultFor(hs[0], ids[0], catalogIds, rec, i);
      forall k | 1 <= k < |ids|
        ensures ResultFor(hs[k], ids[k], catalogIds, rec, i)
      {
        assert hs[k] == rest[k - 1] && ids[k] == ids[1..][k - 1];
      }
    }
  }

  /** Every identifier of the list reads as a catalog product for which the
      record resolves. */
  predicate IdsResolve(ids: seq<nat>, catalogIds: seq<string>, rec: VulnRecord) {
    forall k :: 0 <= k < |ids| ==>
      FindProduct(catalogIds, ids[k]).Some? && Resolve(catalogIds[FindProduct(catalogIds, ids[k]).value], rec).Ok?
  }

  /** Resolving an identifier list fails exactly when some identifier has no
      catalog product or does not resolve. */
  lemma {:induction false} ResolveIdsOk(ids: seq<nat>, catalogIds: seq<string>, row: seq<Result<Fields>>, rec: VulnRecord, i: nat)
    requires RowOf(row, catalogIds, rec)
    ensures ResolveIds(ids, catalogIds, row, i).Ok? <==> IdsResolve(ids, catalogIds, rec)
    decreases |ids|
  {
    if ids != [] {
      ResolveIdsOk(ids[1..], catalogIds, row, rec, i);
      assert forall k :: 1 <= k < |ids| ==> ids[k] == ids[1..][k - 1];
      var f := FindProduct(catalogIds, ids[0]);
      if f.Some? {
        assert row[f.value] == Resolve(catalogIds[f.value], rec);
      }
    }
  }

  /** What record `i` contributes to a CVE search: nothing when its CVE does
      not match; otherwise one result per identifier of its `vuln:ProductID`
      list, in list order. */
  predicate CveBlock(rs: seq<Hit>, rec: VulnRecord, i: nat, catalogIds: seq<string>, cve: string) {
    if CveMatches(rec, cve) then
      ListedIds(rec.statusProductId).Ok? && ListsProducts(rs, ListedIds(rec.statusProductId).value, catalogIds, rec, i)
    else rs == []
  }

  lemma RecordCveBlock(recs: seq<VulnRecord>, i: nat, catalogIds: seq<string>, table: seq<seq<Result<Fields>>>, cve: string)
    requires i < |recs| && Shaped(table, |catalogIds|, |recs|) && RowOf(table[i], catalogIds, recs[i])
    requires RecordCveHits(recs, i, catalogIds, table, cve).Ok?
    ensures CveBlock(RecordCveHits(recs, i, catalogIds, table, cve).value, recs[i], i, catalogIds, cve)
  {
    if CveMatches(recs[i], cve) {
      ResolveIdsListed(ListedIds(recs[i].statusProductId).value, catalogIds, table[i], recs[i], i);
    }
  }

  /** Every record from `i0` on contributes its whole block to `hs`. */
  predicate CveComplete(hs: seq<Hit>, recs: seq<VulnRecord>, i0: nat, catalogIds: seq<string>, cve: string) {
    forall i :: i0 <= i < |recs| ==> CveBlock(OfRecord(hs, i), recs[i], i, catalogIds, cve)
  }

  /** The records at or after `i0` each contribute their whole block to the
      results from `i0` on. */
  lemma {:induction false} CveHitsFromComplete(recs: seq<VulnRecord>, i0: nat, catalogIds: seq<string>, table: seq<seq<Result<Fields>>>, cve: string)
    requires i0 <= |recs| && Tabulates(table, catalogIds, recs) && CveHitsFrom(recs, i0, catalogIds, table, cve).Ok?
    ensures CveComplete(CveHitsFrom(recs, i0, catalogIds, table, cve).value, recs, i0, catalogIds, cve)
    decreases |recs| - i0
  {
    if i0 < |recs| {
      var here := RecordCveHits(recs, i0, catalogIds, table, cve).value;
      var rest := CveHitsFrom(recs, i0 + 1, catalogIds, table, cve).value;
      assert CveHitsFrom(recs, i0, catalogIds, table, cve).value == here + rest;
      TabulatesRow(table, catalogIds, recs, i0);
      RecordCveBlock(recs, i0, catalogIds, table, cve);
      RecordCveHitsSound(recs, i0, catalogIds, table, cve);
      CveHitsFromSound(recs, i0 + 1, catalogIds, table, cve);
      CveFoundAfter(rest, i0 + 1, recs, table, cve);
      CveHitsFromComplete(recs, i0 + 1, catalogIds, table, cve);
      CveCompleteStep(here, rest, recs, i0, catalogIds, cve);
    }
  }

  lemma CveFoundAfter(hs: seq<Hit>, i: nat, recs: seq<VulnRecord>, table: seq<seq<Result<Fields>>>, cve: string)
    requires AllCveFound(hs, i, recs, table, cve)
    ensures forall k :: 0 <= k < |hs| ==> i <= hs[k].record
  {
  }

  lemma CveCompleteStep(here: seq<Hit>, rest: seq<Hit>, recs: seq<VulnRecord>, i0: nat, catalogIds: seq<string>, cve: string)
    requires i0 < |recs|
    requires forall k :: 0 <= k < |here| ==> here[k].record == i0
    requires forall k :: 0 <= k < |rest| ==> i0 < rest[k].record
    requires CveBlock(here, recs[i0], i0, catalogIds, cve) && CveComplete(rest, recs, i0 + 1, catalogIds, cve)
    ensures CveComplete(here + rest, recs, i0, catalogIds, cve)
  {
    forall i | i0 <= i < |recs|
      ensures CveBlock(OfRecord(here + rest, i), recs[i], i, catalogIds, cve)
    {
      BlockSplit(here, rest, i0, i);
    }
  }

  /** The results of a CVE search: in document order, each from a record of
      the document, and each record contributing exactly its block. */
  predicate CveResults(hs: seq<Hit>, recs: seq<VulnRecord>, catalogIds: seq<string>, cve: string) {
    InOrder(hs)
    && (forall k :: 0 <= k < |hs| ==> hs[k].record < |recs|)
    && forall i :: 0 <= i < |recs| ==> CveBlock(OfRecord(hs, i), recs[i], i, catalogIds, cve)
  }

  /** A successful CVE search returns the results described by `CveResults`,
      and no other list is so described: one result per identifier listed by
      each record whose CVE matches, record by record in document order. */
  lemma CveSearchExact(doc: Document, catalogIds: seq<string>, cve: string, hs: seq<Hit>)
    requires CveSearch(doc, catalogIds, cve).Ok?
    ensures CveResults(CveSearch(doc, catalogIds, cve).value, doc.vulnerabilities, catalogIds, cve)
    ensures CveResults(hs, doc.vulnerabilities, catalogIds, cve) ==> hs == CveSearch(doc, catalogIds, cve).value
  {
    var recs := doc.vulnerabilities;
    var table := Outcomes(catalogIds, recs);
    var found := CveSearch(doc, catalogIds, cve).value;
    CveHitsFromSound(recs, 0, catalogIds, table, cve);
    CveHitsFromComplete(recs, 0, catalogIds, table, cve);
    assert AllCveFound(found, 0, recs, table, cve);
    assert CveComplete(found, recs, 0, catalogIds, cve);
    if CveResults(hs, recs, catalogIds, cve) {
      forall i: nat
        ensures OfRecord(hs, i) == OfRecord(found, i)
      {
        if i < |recs| {
          CveBlockUnique(OfRecord(hs, i), OfRecord(found, i), recs[i], i, catalogIds, cve);
        } else {
          OfRecordNone(hs, i);
          OfRecordNone(found, i);
        }
      }
      BlocksDetermine(hs, found);
    }
  }

  lemma CveBlockUnique(a: seq<Hit>, b: seq<Hit>, rec: VulnRecord, i: nat, catalogIds: seq<string>, cve: string)
    requires CveBlock(a, rec, i, catalogIds, cve) && CveBlock(b, rec, i, catalogIds, cve)
    ensures a == b
  {
    if CveMatches(rec, cve) {
      ListsProductsUnique(a, b, ListedIds(rec.statusProductId).value, catalogIds, rec, i);
    }
  }

  /** Record `rec` can contribute its block: when its CVE matches, its
      identifier list reads and every identifier resolves. */
  predicate CveReady(rec: VulnRecord, catalogIds: seq<string>, cve: string) {
    CveMatches(rec, cve) ==>
      ListedIds(rec.statusProductId).Ok? && IdsResolve(ListedIds(rec.statusProductId).value, catalogIds, rec)
  }

  /** Every record from `i0` on is ready. */
  predicate CveAllReady(recs: seq<VulnRecord>, i0: nat, catalogIds: seq<string>, cve: string) {
    forall i :: i0 <= i < |recs| ==> CveReady(recs[i], catalogIds, cve)
  }

  lemma RecordCveOk(recs: seq<VulnRecord>, i: nat, catalogIds: seq<string>, table: seq<seq<Result<Fields>>>, cve: string)
    requires i < |recs| && Shaped(table, |catalogIds|, |recs|) && RowOf(table[i], catalogIds, recs[i])
    ensures RecordCveHits(recs, i, catalogIds, table, cve).Ok? <==> CveReady(recs[i], catalogIds, cve)
  {
    if CveMatches(recs[i], cve) && ListedIds(recs[i].statusProductId).Ok? {
      ResolveIdsOk(ListedIds(recs[i].statusProductId).value, catalogIds, table[i], recs[i], i);
    }
  }

  lemma {:induction false} CveHitsFromOk(recs: seq<VulnRecord>, i0: nat, catalogIds: seq<string>, table: seq<seq<Result<Fields>>>, cve: string)
    requires i0 <= |recs| && Tabulates(table, catalogIds, recs)
    ensures CveHitsFrom(recs, i0, catalogIds, table, cve).Ok? <==> CveAllReady(recs, i0, catalogIds, cve)
    decreases |recs| - i0
  {
    if i0 < |recs| {
      CveHitsFromOk(recs, i0 + 1, catalogIds, table, cve);
      TabulatesRow(table, catalogIds, recs, i0);
      RecordCveOk(recs, i0, catalogIds, table, cve);
      assert CveAllReady(recs, i0, catalogIds, cve) <==> CveReady(recs[i0], catalogIds, cve) && CveAllReady(recs, i0 + 1, catalogIds, cve);
    }
  }

  /** The CVE search fails exactly when a record whose CVE matches has an
      unreadable identifier list, or lists an identifier with no catalog
      product or one for which the record does not resolve. */
  lemma CveSearchOk(doc: Document, catalogIds: seq<string>, cve: string)
    ensures CveSearch(doc, catalogIds, cve).Ok? <==>
      forall i :: 0 <= i < |doc.vulnerabilities| ==> CveReady(doc.vulnerabilities[i], catalogIds, cve)
  {
    assert CveAllReady(doc.vulnerabilities, 0, catalogIds, cve) <==>
      forall i :: 0 <= i < |doc.vulnerabilities| ==> CveReady(doc.vulnerabilities[i], catalogIds, cve);
    CveHitsFromOk(doc.vulnerabilities, 0, catalogIds, Outcomes(catalogIds, doc.vulnerabilities), cve);
  }

  /** What record `i` contributes to a KB search from remediation `j` on:
      remediation by remediation, nothing for one without the KB, and one
      result per identifier of the `vuln:ProductID` list of one with it. */
  predicate KbBlock(rs: seq<Hit>, rec: VulnRecord, i: nat, j: nat, catalogIds: seq<string>, kb: int)
    decreases |rec.remediations| - j
  {
    if j >= |rec.remediations| then rs == []
    else if !KbMatches(rec.remediations[j], kb) then KbBlock(rs, rec, i, j + 1, catalogIds, kb)
    else
      var ids := ListedIds(rec.remediations[j].productId);
      ids.Ok? && |ids.value| <= |rs|
      && ListsProducts(rs[..|ids.value|], ids.value, catalogIds, rec, i)
      && KbBlock(rs[|ids.value|..], rec, i, j + 1, catalogIds, kb)
  }

  lemma {:induction false} KbBlockUnique(a: seq<Hit>, b: seq<Hit>, rec: VulnRecord, i: nat, j: nat, catalogIds: seq<string>, kb: int)
    requires KbBlock(a, rec, i, j, catalogIds, kb) && KbBlock(b, rec, i, j, catalogIds, kb)
    ensures a == b
    decreases |rec.remediations| - j
  {
    if j < |rec.remediations| {
      if !KbMatches(rec.remediations[j], kb) {
        KbBlockSkip(a, rec, i, j, catalogIds, kb);
        KbBlockSkip(b, rec, i, j, catalogIds, kb);
        KbBlockUnique(a, b, rec, i, j + 1, catalogIds, kb);
      } else {
        var ids := ListedIds(rec.remediations[j].productId).value;
        KbBlockTake(a, rec, i, j, catalogIds, kb);
        KbBlockTake(b, rec, i, j, catalogIds, kb);
        ListsProductsUnique(a[..|ids|], b[..|ids|], ids, catalogIds, rec, i);
        KbBlockUnique(a[|ids|..], b[|ids|..], rec, i, j + 1, catalogIds, kb);
        SplitEqual(a, b, |ids|);
      }
    } else {
      KbBlockEnd(a, rec, i, j, catalogIds, kb);
      KbBlockEnd(b, rec, i, j, catalogIds, kb);
    }
  }

  lemma SplitEqual(a: seq<Hit>, b: seq<Hit>, n: nat)
    requires n <= |a| && n <= |b| && a[..n] == b[..n] && a[n..] == b[n..]
    ensures a == b
  {
    assert a == a[..n] + a[n..] && b == b[..n] + b[n..];
  }

  lemma KbBlockEnd(rs: seq<Hit>, rec: VulnRecord, i: nat, j: nat, catalogIds: seq<string>, kb: int)
    requires j >= |rec.remediations| && KbBlock(rs, rec, i, j, catalogIds, kb)
    ensures rs == []
  {
  }

  lemma KbBlockSkip(rs: seq<Hit>, rec: VulnRecord, i: nat, j: nat, catalogIds: seq<string>, kb: int)
    requires j < |rec.remediations| && !KbMatches(rec.remediations[j], kb) && KbBlock(rs, rec, i, j, catalogIds, kb)
    ensures KbBlock(rs, rec, i, j + 1, catalogIds, kb)
  {
  }

  lemma KbBlockTake(rs: seq<Hit>, rec: VulnRecord, i: nat, j: nat, catalogIds: seq<string>, kb: int)
    requires j < |rec.remediations| && KbMatches(rec.remediations[j], kb) && KbBlock(rs, rec, i, j, catalogIds, kb)
    ensures ListedIds(rec.remediations[j].productId).Ok?
    ensures var ids := ListedIds(rec.remediations[j].productId).value;
      |ids| <= |rs| && ListsProducts(rs[..|ids|], ids, catalogIds, rec, i)
      && KbBlock(rs[|ids|..], rec, i, j + 1, catalogIds, kb)
  {
  }

  /** The results of remediation `j` followed by those of the later ones
      form the block from `j` on. */
  lemma KbBlockStep(here: seq<Hit>, rest: seq<Hit>, rec: VulnRecord, i: nat, j: nat, catalogIds: seq<string>, kb: int)
    requires j < |rec.remediations|
    requires KbMatches(rec.remediations[j], kb) ==>
      ListedIds(rec.remediations[j].productId).Ok?
      && ListsProducts(here, ListedIds(rec.remediations[j].productId).value, catalogIds, rec, i)
    requires !KbMatches(rec.remediations[j], kb) ==> here == []
    requires KbBlock(rest, rec, i, j + 1, catalogIds, kb)
    ensures KbBlock(here + rest, rec, i, j, catalogIds, kb)
  {
    if KbMatches(rec.remediations[j], kb) {
      assert (here + rest)[..|here|] == here && (here + rest)[|here|..] == rest;
    } else {
      assert here + rest == rest;
    }
  }

  lemma {:induction false} RecordKbBlock(recs: seq<VulnRecord>, i: nat, j: nat, catalogIds: seq<string>, table: seq<seq<Result<Fields>>>, kb: int)
    requires i < |recs| && j <= |recs[i].remediations| && Shaped(table, |catalogIds|, |recs|) && RowOf(table[i], catalogIds, recs[i])
    requires RecordKbHits(recs, i, j, catalogIds, table, kb).Ok?
    ensures KbBlock(RecordKbHits(recs, i, j, catalogIds, table, kb).value, recs[i], i, j, catalogIds, kb)
    decreases |recs[i].remediations| - j
  {
    if j < |recs[i].remediations| {
      var here := RemediationKbHits(recs, i, j, catalogIds, table, kb).value;
      var rest := RecordKbHits(recs, i, j + 1, catalogIds, table, kb).value;
      assert RecordKbHits(recs, i, j, catalogIds, table, kb).value == here + rest;
      var rem := recs[i].remediations[j];
      if KbMatches(rem, kb) {
        ResolveIdsListed(ListedIds(rem.productId).value, catalogIds, table[i], recs[i], i);
      }
      RecordKbBlock(recs, i, j + 1, catalogIds, table, kb);
      KbBlockStep(here, rest, recs[i], i, j, catalogIds, kb);
    }
  }

  /** Every record from `i0` on contributes its whole block to `hs`. */
  predicate KbComplete(hs: seq<Hit>, recs: seq<VulnRecord>, i0: nat, catalogIds: seq<string>, kb: int) {
    forall i :: i0 <= i < |recs| ==> KbBlock(OfRecord(hs, i), recs[i], i, 0, catalogIds, kb)
  }

  /** The records at or after `i0` each contribute their whole block to the
      results from `i0` on. */
  lemma {:induction false} KbHitsFromComplete(recs: seq<VulnRecord>, i0: nat, catalogIds: seq<string>, table: seq<seq<Result<Fields>>>, kb: int)
    requires i0 <= |recs| && Tabulates(table, catalogIds, recs) && KbHitsFrom(recs, i0, catalogIds, table, kb).Ok?
    ensures KbComplete(KbHitsFrom(recs, i0, catalogIds, table, kb).value, recs, i0, catalogIds, kb)
    decreases |recs| - i0
  {
    if i0 < |recs| {
      var here := RecordKbHits(recs, i0, 0, catalogIds, table, kb).value;
      var rest := KbHitsFrom(recs, i0 + 1, catalogIds, table, kb).value;
      assert KbHitsFrom(recs, i0, catalogIds, table, kb).value == here + rest;
      TabulatesRow(table, catalogIds, recs, i0);
      RecordKbBlock(recs, i0, 0, catalogIds, table, kb);
      RecordKbHitsSound(recs, i0, 0, catalogIds, table, kb);
      KbHitsFromSound(recs, i0 + 1, catalogIds, table, kb);
      KbFoundAfter(rest, i0 + 1, recs, catalogIds, table, kb);
      KbHitsFromComplete(recs, i0 + 1, catalogIds, table, kb);
      KbCompleteStep(here, rest, recs, i0, catalogIds, kb);
    }
  }

  lemma KbFoundAfter(hs: seq<Hit>, i: nat, recs: seq<VulnRecord>, catalogIds: seq<string>, table: seq<seq<Result<Fields>>>, kb: int)
    requires AllKbFound(hs, i, recs, catalogIds, table, kb)
    ensures forall k :: 0 <= k < |hs| ==> i <= hs[k].record
  {
  }

  lemma KbCompleteStep(here: seq<Hit>, rest: seq<Hit>, recs: seq<VulnRecord>, i0: nat, catalogIds: seq<string>, kb: int)
    requires i0 < |recs|
    requires forall k :: 0 <= k < |here| ==> here[k].record == i0
    requires forall k :: 0 <= k < |rest| ==> i0 < rest[k].record
    requires KbBlock(here, recs[i0], i0, 0, catalogIds, kb) && KbComplete(rest, recs, i0 + 1, catalogIds, kb)
    ensures KbComplete(here + rest, recs, i0, catalogIds, kb)
  {
    forall i | i0 <= i < |recs|
      ensures KbBlock(OfRecord(here + rest, i), recs[i], i, 0, catalogIds, kb)
    {
      BlockSplit(here, rest, i0, i);
    }
  }

  /** The results of a KB search: in document order, each from a record of
      the document, and each record contributing exactly its block. */
  predicate KbResults(hs: seq<Hit>, recs: seq<VulnRecord>, catalogIds: seq<string>, kb: int) {
    InOrder(hs)
    && (forall k :: 0 <= k < |hs| ==> hs[k].record < |recs|)
    && forall i :: 0 <= i < |recs| ==> KbBlock(OfRecord(hs, i), recs[i], i, 0, catalogIds, kb)
  }

  /** A successful KB search returns the results described by `KbResults`,
      and no other list is so described: for each record in document order,
      and each of its remediations carrying the KB in order, one result per
      identifier the remediation lists. */
  lemma KbSearchExact(doc: Document, catalogIds: seq<string>, kb: int, hs: seq<Hit>)
    requires KbSearch(doc, catalogIds, kb).Ok?
    ensures KbResults(KbSearch(doc, catalogIds, kb).value, doc.vulnerabilities, catalogIds, kb)
    ensures KbResults(hs, doc.vulnerabilities, catalogIds, kb) ==> hs == KbSearch(doc, catalogIds, kb).value
  {
    var recs := doc.vulnerabilities;
    var table := Outcomes(catalogIds, recs);
    var found := KbSearch(doc, catalogIds, kb).value;
    KbHitsFromSound(recs, 0, catalogIds, table, kb);
    KbHitsFromComplete(recs, 0, catalogIds, table, kb);
    assert AllKbFound(found, 0, recs, catalogIds, table, kb);
    assert KbComplete(found, recs, 0, catalogIds, kb);
    if KbResults(hs, recs, catalogIds, kb) {
      forall i: nat
        ensures OfRecord(hs, i) == OfRecord(found, i)
      {
        if i < |recs| {
          KbBlockUnique(OfRecord(hs, i), OfRecord(found, i), recs[i], i, 0, catalogIds, kb);
        } else {
          OfRecordNone(hs, i);
          OfRecordNone(found, i);
        }
      }
      BlocksDetermine(hs, found);
    }
  }

  /** Every remediation of `rec` from `j` on that carries the KB has a
      readable identifier list whose identifiers all resolve. */
  predicate KbReady(rec: VulnRecord, j: nat, catalogIds: seq<string>, kb: int) {
    forall jj :: j <= jj < |rec.remediations| && KbMatches(rec.remediations[jj], kb) ==>
      ListedIds(rec.remediations[jj].productId).Ok?
      && IdsResolve(ListedIds(rec.remediations[jj].productId).value, catalogIds, rec)
  }

  /** Remediation `rem` of record `rec` can contribute its results. */
  predicate RemediationReady(rem: Remediation, rec: VulnRecord, catalogIds: seq<string>, kb: int) {
    KbMatches(rem, kb) ==>
      ListedIds(rem.productId).Ok? && IdsResolve(ListedIds(rem.productId).value, catalogIds, rec)
  }

  lemma KbReadyStep(rec: VulnRecord, j: nat, catalogIds: seq<string>, kb: int)
    requires j < |rec.remediations|
    ensures KbReady(rec, j, catalogIds, kb) <==>
      RemediationReady(rec.remediations[j], rec, catalogIds, kb) && KbReady(rec, j + 1, catalogIds, kb)
  {
  }

  lemma RemediationKbOk(recs: seq<VulnRecord>, i: nat, j: nat, catalogIds: seq<string>, table: seq<seq<Result<Fields>>>, kb: int)
    requires i < |recs| && j < |recs[i].remediations| && Shaped(table, |catalogIds|, |recs|) && RowOf(table[i], catalogIds, recs[i])
    ensures RemediationKbHits(recs, i, j, catalogIds, table, kb).Ok? <==> RemediationReady(recs[i].remediations[j], recs[i], catalogIds, kb)
  {
    var rem := recs[i].remediations[j];
    if KbMatches(rem, kb) && ListedIds(rem.productId).Ok? {
      ResolveIdsOk(ListedIds(rem.productId).value, catalogIds, table[i], recs[i], i);
    }
  }

  lemma {:induction false} RecordKbOk(recs: seq<VulnRecord>, i: nat, j: nat, catalogIds: seq<string>, table: seq<seq<Result<Fields>>>, kb: int)
    requires i < |recs| && j <= |recs[i].remediations| && Shaped(table, |catalogIds|, |recs|) && RowOf(table[i], catalogIds, recs[i])
    ensures RecordKbHits(recs, i, j, catalogIds, table, kb).Ok? <==> KbReady(recs[i], j, catalogIds, kb)
    decreases |recs[i].remediations| - j
  {
    if j < |recs[i].remediations| {
      RecordKbOk(recs, i, j + 1, catalogIds, table, kb);
      RemediationKbOk(recs, i, j, catalogIds, table, kb);
      KbReadyStep(recs[i], j, catalogIds, kb);
      assert RecordKbHits(recs, i, j, catalogIds, table, kb).Ok? <==>
        RemediationKbHits(recs, i, j, catalogIds, table, kb).Ok? && RecordKbHits(recs, i, j + 1, catalogIds, table, kb).Ok?;
    }
  }

  /** Every record from `i0` on is ready. */
  predicate KbAllReady(recs: seq<VulnRecord>, i0: nat, catalogIds: seq<string>, kb: int) {
    forall i :: i0 <= i < |recs| ==> KbReady(recs[i], 0, catalogIds, kb)
  }

  lemma {:induction false} KbHitsFromOk(recs: seq<VulnRecord>, i0: nat, catalogIds: seq<string>, table: seq<seq<Result<Fields>>>, kb: int)
    requires i0 <= |recs| && Tabulates(table, catalogIds, recs)
    ensures KbHitsFrom(recs, i0, catalogIds, table, kb).Ok? <==> KbAllReady(recs, i0, catalogIds, kb)
    decreases |recs| - i0
  {
    if i0 < |recs| {
      KbHitsFromOk(recs, i0 + 1, catalogIds, table, kb);
      TabulatesRow(table, catalogIds, recs, i0);
      RecordKbOk(recs, i0, 0, catalogIds, table, kb);
      assert KbAllReady(recs, i0, catalogIds, kb) <==> KbReady(recs[i0], 0, catalogIds, kb) && KbAllReady(recs, i0 + 1, catalogIds, kb);
    }
  }

  /** The KB search fails exactly when a remediation carrying the KB has an
      unreadable identifier list, or lists an identifier with no catalog
      product or one for which its record does not resolve. */
  lemma KbSearchOk(doc: Document, catalogIds: seq<string>, kb: int)
    ensures KbSearch(doc, catalogIds, kb).Ok? <==>
      forall i :: 0 <= i < |doc.vulnerabilities| ==> KbReady(doc.vulnerabilities[i], 0, catalogIds, kb)
  {
    assert KbAllReady(doc.vulnerabilities, 0, catalogIds, kb) <==>
      forall i :: 0 <= i < |doc.vulnerabilities| ==> KbReady(doc.vulnerabilities[i], 0, catalogIds, kb);
    KbHitsFromOk(doc.vulnerabilities, 0, catalogIds, Outcomes(catalogIds, doc.vulnerabilities), kb);
  }
}
