/** The objects of the engine: a `Product` collects the Vulnerabilities built
    for it, a `Vulnerability` caches what it reads from its record, and the
    searches build Vulnerabilities for catalog Products. Each method is proved
    against the specification functions of `Catalog`, `Resolution` and
    `Search`. */
module DataParsing {
  import opened Wrappers
  import opened Text
  import opened Cvrf
  import opened IdList
  import opened Resolution
  import opened Catalog
  import opened Search

  /** The keys of `__characteristics`: `"Impact"`, `"Severity"` (lines 78-90),
      `"Description"` and `"Supercedence"` (line 93). */
  datatype Characteristic = ThreatOf(kind: ThreatKind) | RemediationOf(field: RemediationField) {
    function Key(): string {
      match this
      case ThreatOf(kind) => kind.TypeName()
      case RemediationOf(field) => field.Key()
    }
  }

  /** A product of the bulletin (lines 15-32). The list of Vulnerabilities is
      the only state that changes; `vulnerabilities` is the field itself, as
      the property of lines 30-32 hands out the list, not a copy. */
  class Product {
    const id: string
    const name: string
    const family: string
    var vulnerabilities: seq<Vulnerability>

    /** `Product.__init__` once the identifier assertion of line 21 has passed. */
    constructor (entry: Entry)
      ensures id == entry.id && name == entry.name && family == entry.family
      ensures vulnerabilities == []
    {
      id := entry.id;
      name := entry.name;
      family := entry.family;
      vulnerabilities := [];
    }

    function AsEntry(): Entry {
      Catalog.Entry(id, name, family)
    }

    /** `add_vulnerability` (lines 27-28). */
    method AddVulnerability(v: Vulnerability)
      modifies this`vulnerabilities
      ensures vulnerabilities == old(vulnerabilities) + [v]
    {
      vulnerabilities := vulnerabilities + [v];
    }
  }

  /** A vulnerability record resolved for one product (lines 34-161). */
  class Vulnerability {
    const product: Product
    const node: VulnRecord
    var cve: string
    var title: string
    var severity: string
    var impact: string
    var description: string
    var kb: string
    var supersededKb: string
    var itw: bool
    /** `__characteristics`: the values already looked up. */
    var characteristics: map<Characteristic, string>

    /** The first statements of `__init__` (lines 45-50). */
    constructor Start(product: Product, node: VulnRecord, cve: string, title: string)
      ensures this.product == product && this.node == node
      ensures this.cve == cve && this.title == title
      ensures characteristics == map[]
    {
      this.product := product;
      this.node := node;
      this.cve := cve;
      this.title := title;
      severity, impact, description, kb, supersededKb, itw := "", "", "", "", "", false;
      characteristics := map[];
    }

    /** The field values. */
    function Fields(): Fields
      reads this
    {
      Resolution.Fields(cve, title, severity, impact, description, kb, supersededKb, itw)
    }

    /** What a characteristic caches: the uncached computation of lines
        68-76 or 92-103. */
    function Expected(c: Characteristic): Result<string> {
      match c
      case ThreatOf(kind) => ThreatLookup(node.threats, kind, product.id)
      case RemediationOf(field) => RemediationInfo(node.remediations, field, product.id)
    }

    /** Every cached value is the one its computation gives. */
    ghost predicate CacheSound()
      reads this`characteristics
    {
      forall c :: c in characteristics ==> Expected(c) == Ok(characteristics[c])
    }

    /** `__get_impact_or_severity` (lines 68-76): the first threat of the kind
        whose identifier list names this product gives the value. */
    method ImpactOrSeverity(kind: ThreatKind) returns (r: Result<string>)
      ensures r == ThreatLookup(node.threats, kind, product.id)
    {
      if node.threats.None? {
        return Ok(kind.Sentinel());
      }
      var ts := node.threats.value;
      var i := 0;
      while i < |ts|
        invariant 0 <= i <= |ts|
        invariant ThreatScan(ts, kind, product.id) == ThreatScan(ts[i..], kind, product.id)
      {
        var t := ts[i];
        assert ts[i..][0] == t && ts[i..][1..] == ts[i + 1..];
        if t.threatType == kind.TypeName() {
          if t.productId.None? {
            return Err(MissingElement("vuln:ProductID"));
          }
          var named :- Covers(product.id, t.productId.value);
          if named {
            return ThreatValue(t);
          }
        }
        i := i + 1;
      }
      return Ok(kind.Sentinel());
    }

    /** `__get_impact` and `__get_severity` (lines 78-90): a cached value is
        returned as it is; otherwise the lookup is made and, when it succeeds,
        cached. */
    method GetThreat(kind: ThreatKind) returns (r: Result<string>)
      modifies this`characteristics
      ensures ThreatOf(kind) in old(characteristics) ==>
        r == Ok(old(characteristics)[ThreatOf(kind)]) && characteristics == old(characteristics)
      ensures ThreatOf(kind) !in old(characteristics) ==>
        r == ThreatLookup(node.threats, kind, product.id)
        && characteristics == (if r.Ok? then old(characteristics)[ThreatOf(kind) := r.value] else old(characteristics))
      ensures old(CacheSound()) ==> r == Expected(ThreatOf(kind)) && (r.Ok? ==> CacheSound())
    {
      var key := ThreatOf(kind);
      if key !in characteristics {
        var value :- ImpactOrSeverity(kind);
        characteristics := characteristics[key := value];
      }
      return Ok(characteristics[key]);
    }

    /** `__get_remediation_info` (lines 92-103): on a cache miss the entry
        starts as `""` and every vendor fix that names this product overwrites
        it, so the last one wins. A failure leaves the partial entry behind.
        The running value is kept in `info` and stored at each exit of the
        loop, which leaves the cache as the source leaves it. */
    method GetRemediationInfo(field: RemediationField) returns (r: Result<string>)
      modifies this`characteristics
      ensures RemediationOf(field) in old(characteristics) ==>
        r == Ok(old(characteristics)[RemediationOf(field)]) && characteristics == old(characteristics)
      ensures RemediationOf(field) !in old(characteristics) ==>
        r == RemediationInfo(node.remediations, field, product.id)
        && RemediationOf(field) in characteristics
        && characteristics == old(characteristics)[RemediationOf(field) := characteristics[RemediationOf(field)]]
        && (r.Ok? ==> characteristics[RemediationOf(field)] == r.value)
      ensures old(CacheSound()) ==> r == Expected(RemediationOf(field)) && (r.Ok? ==> CacheSound())
    {
      var key := RemediationOf(field);
      if key in characteristics {
        return Ok(characteristics[key]);
      }
      var info := "";
      var rs := node.remediations;
      var i := 0;
      while i < |rs|
        invariant 0 <= i <= |rs|
        invariant RemediationInfo(rs, field, product.id) == RemediationScan(rs[i..], field, product.id, info)
      {
        var rem := rs[i];
        assert rs[i..][0] == rem && rs[i..][1..] == rs[i + 1..];
        if VendorFix(rem) {
          var named := Covers(product.id, rem.productId.value);
          if named.Err? {
            characteristics := characteristics[key := info];
            return Err(named.error);
          }
          if named.value {
            info := FieldText(rem, field);
          }
        }
        i := i + 1;
      }
      characteristics := characteristics[key := info];
      return Ok(info);
    }

    /** Lines 51-61 of `__init__`, on a sound cache: severity and impact
        through their memoised getters, the description note, KB and
        superseded KB through the memoised remediation lookup, and the
        exploited-in-the-wild flag. */
    method ReadCharacteristics() returns (r: Result<Assessment>)
      requires CacheSound()
      modifies this`characteristics
      ensures r == Assess(product.id, node)
      ensures r.Ok? ==> CacheSound()
    {
      var severity :- GetThreat(Severity);
      var impact :- GetThreat(Impact);
      var description :- DescriptionNote(node.notes);
      var kb :- GetRemediationInfo(DescriptionField);
      var supersededKb :- GetRemediationInfo(SupercedenceField);
      var itw :- ExploitedInTheWild(node.threats);
      return Ok(Assessment(severity, impact, description, kb, supersededKb, itw));
    }

    /** Lines 51-62 of `__init__` once the CVE and the title are read: the
        fields that depend on the product, in source order, then the append
        to the product's list. */
    method Finish() returns (r: Result<Assessment>)
      requires CacheSound()
      modifies this`severity, this`impact, this`description, this`kb, this`supersededKb, this`itw
      modifies this`characteristics, product`vulnerabilities
      ensures r == Assess(product.id, node)
      ensures r.Ok? ==> severity == r.value.severity && impact == r.value.impact && description == r.value.description
      ensures r.Ok? ==> kb == r.value.kb && supersededKb == r.value.supersededKb && itw == r.value.itw
      ensures r.Ok? ==> product.vulnerabilities == old(product.vulnerabilities) + [this]
      ensures r.Err? ==> product.vulnerabilities == old(product.vulnerabilities)
      ensures r.Ok? ==> CacheSound()
    {
      var a :- ReadCharacteristics();
      severity, impact, description := a.severity, a.impact, a.description;
      kb, supersededKb, itw := a.kb, a.supersededKb, a.itw;
      product.AddVulnerability(this);
      return Ok(a);
    }

    /** `Vulnerability(product, node)` (lines 45-62): the fields are read in
        source order, the first failure ends the construction, and a
        successful one appends the new Vulnerability to the product's list. */
    static method Build(product: Product, node: VulnRecord) returns (r: Result<Vulnerability>)
      modifies product`vulnerabilities
      ensures r.Err? ==> Resolve(product.id, node) == Err(r.error) && product.vulnerabilities == old(product.vulnerabilities)
      ensures r.Ok? ==> fresh(r.value) && r.value.product == product && r.value.node == node
      ensures r.Ok? ==> Resolve(product.id, node) == Ok(r.value.Fields())
      ensures r.Ok? ==> product.vulnerabilities == old(product.vulnerabilities) + [r.value]
      ensures r.Ok? ==> r.value.CacheSound()
    {
      var cve :- Required(node.cve, "vuln:CVE");
      var title :- Required(node.title, "vuln:Title");
      var v := new Vulnerability.Start(product, node, cve, title);
      var a :- v.Finish();
      return Ok(v);
    }

    /** `get_vuln_info_by_cve` (lines 131-144). */
    static method GetVulnInfoByCve(doc: Document, catalog: seq<Product>, cve: string) returns (r: Result<seq<Vulnerability>>)
      modifies catalog`vulnerabilities
      ensures r.Err? ==> CveSearch(doc, Ids(catalog), cve) == Err(r.error)
      ensures r.Ok? ==> CveSearch(doc, Ids(catalog), cve).Ok? && Built(r.value, CveSearch(doc, Ids(catalog), cve).value, catalog, doc.vulnerabilities)
      ensures r.Ok? ==> Lists(catalog) == Grown(old(Lists(catalog)), catalog, r.value)
    {
      r := CveVulnerabilities(doc.vulnerabilities, catalog, cve, Outcomes(Ids(catalog), doc.vulnerabilities));
    }

    /** `get_vuln_info_by_kb` (lines 146-161). */
    static method GetVulnInfoByKb(doc: Document, catalog: seq<Product>, kb: int) returns (r: Result<seq<Vulnerability>>)
      modifies catalog`vulnerabilities
      ensures r.Err? ==> KbSearch(doc, Ids(catalog), kb) == Err(r.error)
      ensures r.Ok? ==> KbSearch(doc, Ids(catalog), kb).Ok? && Built(r.value, KbSearch(doc, Ids(catalog), kb).value, catalog, doc.vulnerabilities)
      ensures r.Ok? ==> Lists(catalog) == Grown(old(Lists(catalog)), catalog, r.value)
    {
      r := KbVulnerabilities(doc.vulnerabilities, catalog, kb, Outcomes(Ids(catalog), doc.vulnerabilities));
    }

    /** `find` (lines 116-129): dispatch on the query, then search. */
    static method Find(doc: Document, catalog: seq<Product>, t: Token) returns (r: Result<seq<Vulnerability>>)
      modifies catalog`vulnerabilities
      ensures r.Err? ==> Search.Find(doc, Ids(catalog), t) == Err(r.error)
      ensures r.Ok? ==> Search.Find(doc, Ids(catalog), t).Ok? && Built(r.value, Search.Find(doc, Ids(catalog), t).value, catalog, doc.vulnerabilities)
      ensures r.Ok? ==> Lists(catalog) == Grown(old(Lists(catalog)), catalog, r.value)
    {
      var q :- Dispatch(t);
      match q
      case ByCve(cve) =>
        r := GetVulnInfoByCve(doc, catalog, cve);
      case ByKb(kb) =>
        r := GetVulnInfoByKb(doc, catalog, kb);
    }
  }

  /** `collect_products` (lines 164-168): one new Product per leaf of the
      product tree, in document order, each with an empty list. */
  method CollectProducts(doc: Document) returns (r: Result<seq<Product>>)
    ensures r.Err? <==> CollectEntries(doc).Err?
    ensures r.Err? ==> r.error == CollectEntries(doc).error
    ensures r.Ok? ==> |r.value| == |CollectEntries(doc).value|
    ensures r.Ok? ==> forall k :: 0 <= k < |r.value| ==>
      r.value[k].AsEntry() == CollectEntries(doc).value[k] && r.value[k].vulnerabilities == [] && fresh(r.value[k])
    ensures r.Ok? ==> forall a, b :: 0 <= a < b < |r.value| ==> r.value[a] != r.value[b]
  {
    var entries :- CollectEntries(doc);
    var products := NewProducts(entries);
    return Ok(products);
  }

  /** The list comprehension of line 168: one new Product per entry, in order. */
  method NewProducts(entries: seq<Entry>) returns (products: seq<Product>)
    ensures |products| == |entries|
    ensures forall k :: 0 <= k < |entries| ==>
      products[k].AsEntry() == entries[k] && products[k].vulnerabilities == [] && fresh(products[k])
    ensures forall a, b :: 0 <= a < b < |products| ==> products[a] != products[b]
  {
    products := [];
    var k := 0;
    while k < |entries|
      invariant 0 <= k <= |entries| && |products| == k
      invariant forall m :: 0 <= m < k ==>
        products[m].AsEntry() == entries[m] && products[m].vulnerabilities == [] && fresh(products[m])
      invariant forall a, b :: 0 <= a < b < k ==> products[a] != products[b]
    {
      var p := new Product(entries[k]);
      products := products + [p];
      k := k + 1;
    }
  }

  /** The identifiers of the catalog's products, in order. */
  function Ids(catalog: seq<Product>): (r: seq<string>)
    ensures |r| == |catalog|
    ensures forall k :: 0 <= k < |catalog| ==> r[k] == catalog[k].id
  {
    seq(|catalog|, k requires 0 <= k < |catalog| => catalog[k].id)
  }

  /** The Vulnerabilities of `vs` built for `p`, in order. */
  function For(vs: seq<Vulnerability>, p: Product): seq<Vulnerability> {
    if vs == [] then []
    else For(vs[..|vs| - 1], p) + (if vs[|vs| - 1].product == p then [vs[|vs| - 1]] else [])
  }

  lemma {:induction false} ForAppend(vs: seq<Vulnerability>, ws: seq<Vulnerability>, p: Product)
    ensures For(vs + ws, p) == For(vs, p) + For(ws, p)
    decreases |ws|
  {
    if ws == [] {
      assert vs + ws == vs;
    } else {
      var init := ws[..|ws| - 1];
      assert (vs + ws)[..|vs + ws| - 1] == vs + init;
      ForAppend(vs, init, p);
    }
  }

  /** The lists of the catalog's products, in catalog order. */
  ghost function Lists(catalog: seq<Product>): (r: seq<seq<Vulnerability>>)
    reads set p | p in catalog
    ensures |r| == |catalog|
    ensures forall j :: 0 <= j < |catalog| ==> r[j] == catalog[j].vulnerabilities
  {
    seq(|catalog|, j requires 0 <= j < |catalog| reads set p | p in catalog => catalog[j].vulnerabilities)
  }

  /** The lists `before` once every Vulnerability of `vs` has been appended
      to the list of its product. */
  function Grown(before: seq<seq<Vulnerability>>, catalog: seq<Product>, vs: seq<Vulnerability>): (r: seq<seq<Vulnerability>>)
    requires |before| == |catalog|
    ensures |r| == |catalog|
    ensures forall j :: 0 <= j < |catalog| ==> r[j] == before[j] + For(vs, catalog[j])
  {
    seq(|catalog|, j requires 0 <= j < |catalog| => before[j] + For(vs, catalog[j]))
  }

  lemma GrownEmpty(before: seq<seq<Vulnerability>>, catalog: seq<Product>)
    requires |before| == |catalog|
    ensures Grown(before, catalog, []) == before
  {
    assert forall j :: 0 <= j < |catalog| ==> before[j] + [] == before[j];
  }

  lemma GrownConcat(before: seq<seq<Vulnerability>>, catalog: seq<Product>, vs: seq<Vulnerability>, ws: seq<Vulnerability>)
    requires |before| == |catalog|
    ensures Grown(Grown(before, catalog, vs), catalog, ws) == Grown(before, catalog, vs + ws)
  {
    forall j | 0 <= j < |catalog|
      ensures Grown(Grown(before, catalog, vs), catalog, ws)[j] == Grown(before, catalog, vs + ws)[j]
    {
      ForAppend(vs, ws, catalog[j]);
    }
  }

  /** The lists `ls` once `v` has been appended to the list of its product. */
  function Added(ls: seq<seq<Vulnerability>>, catalog: seq<Product>, v: Vulnerability): (r: seq<seq<Vulnerability>>)
    requires |ls| == |catalog|
    ensures |r| == |catalog|
    ensures forall j :: 0 <= j < |catalog| ==> r[j] == if catalog[j] == v.product then ls[j] + [v] else ls[j]
  {
    seq(|catalog|, j requires 0 <= j < |catalog| => if catalog[j] == v.product then ls[j] + [v] else ls[j])
  }

  lemma GrownAdded(before: seq<seq<Vulnerability>>, catalog: seq<Product>, vs: seq<Vulnerability>, v: Vulnerability)
    requires |before| == |catalog|
    ensures Added(Grown(before, catalog, vs), catalog, v) == Grown(before, catalog, vs + [v])
  {
    forall j | 0 <= j < |catalog|
      ensures Added(Grown(before, catalog, vs), catalog, v)[j] == Grown(before, catalog, vs + [v])[j]
    {
      assert (vs + [v])[..|vs|] == vs;
    }
  }

  /** The field values of `vs`, in order. */
  ghost function FieldsOf(vs: seq<Vulnerability>): (r: seq<Fields>)
    reads set v | v in vs
    ensures |r| == |vs|
  {
    if vs == [] then [] else FieldsOf(vs[..|vs| - 1]) + [vs[|vs| - 1].Fields()]
  }

  lemma {:induction false} FieldsOfAppend(vs: seq<Vulnerability>, ws: seq<Vulnerability>)
    ensures FieldsOf(vs + ws) == FieldsOf(vs) + FieldsOf(ws)
    decreases |ws|
  {
    if ws == [] {
      assert vs + ws == vs;
    } else {
      var init := ws[..|ws| - 1];
      assert (vs + ws)[..|vs + ws| - 1] == vs + init;
      FieldsOfAppend(vs, init);
    }
  }

  /** The field values the results `hits` carry, in order. */
  function HitFields(hits: seq<Hit>): (r: seq<Fields>)
    ensures |r| == |hits|
    ensures forall k :: 0 <= k < |hits| ==> r[k] == hits[k].fields
  {
    seq(|hits|, k requires 0 <= k < |hits| => hits[k].fields)
  }

  /** `vs` are the Vulnerabilities the results `hits` describe: each built for
      the catalog product and from the record its result names, with its
      field values. */
  ghost predicate Built(vs: seq<Vulnerability>, hits: seq<Hit>, catalog: seq<Product>, recs: seq<VulnRecord>)
    reads set v | v in vs
  {
    |vs| == |hits|
    && (forall k :: 0 <= k < |vs| ==> Placed(vs[k], hits[k], catalog, recs))
    && FieldsOf(vs) == HitFields(hits)
  }

  /** `v` was built for the catalog product and from the record `h` names. */
  predicate Placed(v: Vulnerability, h: Hit, catalog: seq<Product>, recs: seq<VulnRecord>) {
    h.product < |catalog| && h.record < |recs| && v.product == catalog[h.product] && v.node == recs[h.record]
  }

  lemma BuiltConcat(vs: seq<Vulnerability>, hits: seq<Hit>, ws: seq<Vulnerability>, more: seq<Hit>, catalog: seq<Product>, recs: seq<VulnRecord>)
    requires Built(vs, hits, catalog, recs) && Built(ws, more, catalog, recs)
    ensures Built(vs + ws, hits + more, catalog, recs)
  {
    FieldsOfAppend(vs, ws);
    HitFieldsAppend(hits, more);
    forall k | 0 <= k < |vs| + |ws|
      ensures Placed((vs + ws)[k], (hits + more)[k], catalog, recs)
    {
      if k < |vs| {
        assert (vs + ws)[k] == vs[k] && (hits + more)[k] == hits[k];
      } else {
        assert (vs + ws)[k] == ws[k - |vs|] && (hits + more)[k] == more[k - |vs|];
      }
    }
  }

  lemma HitFieldsAppend(hits: seq<Hit>, more: seq<Hit>)
    ensures HitFields(hits + more) == HitFields(hits) + HitFields(more)
  {
    forall k | 0 <= k < |hits| + |more|
      ensures HitFields(hits + more)[k] == (HitFields(hits) + HitFields(more))[k]
    {
      if k >= |hits| {
        assert (hits + more)[k] == more[k - |hits|];
      }
    }
  }

  lemma BuiltAppend(vs: seq<Vulnerability>, hits: seq<Hit>, catalog: seq<Product>, recs: seq<VulnRecord>, v: Vulnerability, h: Hit)
    requires Built(vs, hits, catalog, recs)
    requires h.product < |catalog| && h.record < |recs|
    requires v.product == catalog[h.product] && v.node == recs[h.record] && v.Fields() == h.fields
    ensures Built(vs + [v], hits + [h], catalog, recs)
  {
    assert (vs + [v])[..|vs|] == vs;
    HitFieldsAppend(hits, [h]);
  }

  /** `Vulnerability(catalog[p], recs[i])` with its effect on the lists of the
      whole catalog, its outcome read from the table. */
  method BuildFor(catalog: seq<Product>, p: nat, recs: seq<VulnRecord>, i: nat, ghost table: seq<seq<Result<Fields>>>) returns (r: Result<Vulnerability>)
    requires p < |catalog| && i < |recs| && Tabulates(table, Ids(catalog), recs)
    modifies catalog`vulnerabilities
    ensures r.Err? ==> table[i][p] == Err(r.error)
    ensures r.Ok? ==> r.value.product == catalog[p] && r.value.node == recs[i]
    ensures r.Ok? ==> table[i][p] == Ok(r.value.Fields())
    ensures r.Ok? ==> Lists(catalog) == Added(old(Lists(catalog)), catalog, r.value)
  {
    ghost var before := Lists(catalog);
    r := Vulnerability.Build(catalog[p], recs[i]);
    assert table[i][p] == Resolve(Ids(catalog)[p], recs[i]);
    if r.Ok? {
      assert Lists(catalog) == Added(before, catalog, r.value);
    }
  }

  /** One turn of the loop of lines 142-143 and 159-160: the Vulnerability
      for the `k`-th listed identifier of record `i`, appended to what the
      earlier turns built. A failure is the failure of the whole loop. */
  method BuildNext(listed: seq<nat>, k: nat, catalog: seq<Product>, recs: seq<VulnRecord>, i: nat, ghost table: seq<seq<Result<Fields>>>,
                   ws: seq<Vulnerability>, ghost hs: seq<Hit>, ghost before: seq<seq<Vulnerability>>)
    returns (r: Result<seq<Vulnerability>>, ghost hs': seq<Hit>)
    requires k < |listed| && i < |recs| && Tabulates(table, Ids(catalog), recs) && |before| == |catalog|
    requires ResolveIds(listed, Ids(catalog), table[i], i) == Prepend(hs, ResolveIds(listed[k..], Ids(catalog), table[i], i))
    requires Built(ws, hs, catalog, recs) && Lists(catalog) == Grown(before, catalog, ws)
    modifies catalog`vulnerabilities
    ensures r.Err? ==> ResolveIds(listed, Ids(catalog), table[i], i) == Err(r.error)
    ensures r.Ok? ==> ResolveIds(listed, Ids(catalog), table[i], i) == Prepend(hs', ResolveIds(listed[k + 1..], Ids(catalog), table[i], i))
    ensures r.Ok? ==> Built(r.value, hs', catalog, recs) && Lists(catalog) == Grown(before, catalog, r.value)
  {
    var ids := Ids(catalog);
    assert listed[k..][0] == listed[k] && listed[k..][1..] == listed[k + 1..];
    hs' := hs;
    match FindProduct(ids, listed[k])
    case None =>
      return Err(UnknownProduct(listed[k])), hs;
    case Some(p) =>
      var v := BuildFor(catalog, p, recs, i, table);
      if v.Err? {
        return Err(v.error), hs;
      }
      ghost var h := Hit(p, i, v.value.Fields());
      ResolveIdsCons(listed[k..], ids, table[i], i, p, h.fields);
      PrependPrepend(hs, [h], ResolveIds(listed[k + 1..], ids, table[i], i));
      BuiltAppend(ws, hs, catalog, recs, v.value, h);
      GrownAdded(before, catalog, ws, v.value);
      return Ok(ws + [v.value]), hs + [h];
  }

  /** The loop `for product_id in ...: vulnerabilities.append(Vulnerability(...))`
      (lines 142-143 and 159-160), building one Vulnerability per identifier
      for the record `i`. */
  method BuildAll(listed: seq<nat>, catalog: seq<Product>, recs: seq<VulnRecord>, i: nat, ghost table: seq<seq<Result<Fields>>>) returns (r: Result<seq<Vulnerability>>)
    requires i < |recs| && Tabulates(table, Ids(catalog), recs)
    modifies catalog`vulnerabilities
    ensures r.Err? ==> ResolveIds(listed, Ids(catalog), table[i], i) == Err(r.error)
    ensures r.Ok? ==> ResolveIds(listed, Ids(catalog), table[i], i).Ok? && Built(r.value, ResolveIds(listed, Ids(catalog), table[i], i).value, catalog, recs)
    ensures r.Ok? ==> Lists(catalog) == Grown(old(Lists(catalog)), catalog, r.value)
  {
    ghost var before := Lists(catalog);
    var ws: seq<Vulnerability> := [];
    ghost var hs: seq<Hit> := [];
    var k := 0;
    assert listed[k..] == listed;
    PrependEmpty(ResolveIds(listed, Ids(catalog), table[i], i));
    GrownEmpty(before, catalog);
    while k < |listed|
      invariant 0 <= k <= |listed|
      invariant ResolveIds(listed, Ids(catalog), table[i], i) == Prepend(hs, ResolveIds(listed[k..], Ids(catalog), table[i], i))
      invariant Built(ws, hs, catalog, recs) && Lists(catalog) == Grown(before, catalog, ws)
    {
      ws, hs :- BuildNext(listed, k, catalog, recs, i, table, ws, hs, before);
      k := k + 1;
    }
    assert listed[k..] == [];
    assert hs + [] == hs;
    return Ok(ws);
  }

  /** Lines 138-143 for record `i`. */
  method CveRecord(recs: seq<VulnRecord>, i: nat, catalog: seq<Product>, cve: string, ghost table: seq<seq<Result<Fields>>>) returns (r: Result<seq<Vulnerability>>)
    requires i < |recs| && Tabulates(table, Ids(catalog), recs)
    modifies catalog`vulnerabilities
    ensures r.Err? ==> RecordCveHits(recs, i, Ids(catalog), table, cve) == Err(r.error)
    ensures r.Ok? ==> RecordCveHits(recs, i, Ids(catalog), table, cve).Ok? && Built(r.value, RecordCveHits(recs, i, Ids(catalog), table, cve).value, catalog, recs)
    ensures r.Ok? ==> Lists(catalog) == Grown(old(Lists(catalog)), catalog, r.value)
  {
    var node := recs[i].cve;
    if node.None? || node.value == "" || ToLower(node.value) != ToLower(cve) {
      GrownEmpty(Lists(catalog), catalog);
      return Ok([]);
    }
    var listed :- ListedIds(recs[i].statusProductId);
    r := BuildAll(listed, catalog, recs, i, table);
  }

  /** One turn of the loop over the records: record `i` adds its
      Vulnerabilities to those built so far, or fails the whole loop. */
  method CveRecordNext(recs: seq<VulnRecord>, i: nat, catalog: seq<Product>, cve: string, ghost table: seq<seq<Result<Fields>>>,
                ws: seq<Vulnerability>, ghost hs: seq<Hit>, ghost before: seq<seq<Vulnerability>>)
    returns (r: Result<seq<Vulnerability>>, ghost hs': seq<Hit>)
    requires i < |recs| && Tabulates(table, Ids(catalog), recs) && |before| == |catalog|
    requires CveHitsFrom(recs, 0, Ids(catalog), table, cve) == Prepend(hs, CveHitsFrom(recs, i, Ids(catalog), table, cve))
    requires Built(ws, hs, catalog, recs) && Lists(catalog) == Grown(before, catalog, ws)
    modifies catalog`vulnerabilities
    ensures r.Err? ==> CveHitsFrom(recs, 0, Ids(catalog), table, cve) == Err(r.error)
    ensures r.Ok? ==> CveHitsFrom(recs, 0, Ids(catalog), table, cve) == Prepend(hs', CveHitsFrom(recs, i + 1, Ids(catalog), table, cve))
    ensures r.Ok? ==> Built(r.value, hs', catalog, recs) && Lists(catalog) == Grown(before, catalog, r.value)
  {
    var ids := Ids(catalog);
    var vs := CveRecord(recs, i, catalog, cve, table);
    if vs.Err? {
      return Err(vs.error), hs;
    }
    ghost var found := RecordCveHits(recs, i, ids, table, cve).value;
    PrependPrepend(hs, found, CveHitsFrom(recs, i + 1, ids, table, cve));
    BuiltConcat(ws, hs, vs.value, found, catalog, recs);
    GrownConcat(before, catalog, ws, vs.value);
    return Ok(ws + vs.value), hs + found;
  }

  /** The loop of lines 137-143 over the records. */
  method CveVulnerabilities(recs: seq<VulnRecord>, catalog: seq<Product>, cve: string, ghost table: seq<seq<Result<Fields>>>) returns (r: Result<seq<Vulnerability>>)
    requires Tabulates(table, Ids(catalog), recs)
    modifies catalog`vulnerabilities
    ensures r.Err? ==> CveHitsFrom(recs, 0, Ids(catalog), table, cve) == Err(r.error)
    ensures r.Ok? ==> CveHitsFrom(recs, 0, Ids(catalog), table, cve).Ok? && Built(r.value, CveHitsFrom(recs, 0, Ids(catalog), table, cve).value, catalog, recs)
    ensures r.Ok? ==> Lists(catalog) == Grown(old(Lists(catalog)), catalog, r.value)
  {
    var ids := Ids(catalog);
    ghost var before := Lists(catalog);
    var ws: seq<Vulnerability> := [];
    ghost var hs: seq<Hit> := [];
    var i := 0;
    PrependEmpty(CveHitsFrom(recs, 0, ids, table, cve));
    GrownEmpty(before, catalog);
    while i < |recs|
      invariant 0 <= i <= |recs|
      invariant CveHitsFrom(recs, 0, ids, table, cve) == Prepend(hs, CveHitsFrom(recs, i, ids, table, cve))
      invariant Built(ws, hs, catalog, recs)
      invariant Lists(catalog) == Grown(before, catalog, ws)
    {
      ws, hs :- CveRecordNext(recs, i, catalog, cve, table, ws, hs, before);
      i := i + 1;
    }
    assert CveHitsFrom(recs, i, ids, table, cve) == Ok([]);
    assert hs + [] == hs;
    return Ok(ws);
  }

  /** One turn of the loop of lines 154-160: the remediation `j` of record
      `i`, whose description names `kb`, builds a Vulnerability per product
      it lists; any other remediation builds nothing. A failure is the
      failure of the whole loop. */
  method KbNext(recs: seq<VulnRecord>, i: nat, j: nat, catalog: seq<Product>, kb: int, ghost table: seq<seq<Result<Fields>>>,
                ws: seq<Vulnerability>, ghost hs: seq<Hit>, ghost before: seq<seq<Vulnerability>>)
    returns (r: Result<seq<Vulnerability>>, ghost hs': seq<Hit>)
    requires i < |recs| && j < |recs[i].remediations| && Tabulates(table, Ids(catalog), recs) && |before| == |catalog|
    requires RecordKbHits(recs, i, 0, Ids(catalog), table, kb) == Prepend(hs, RecordKbHits(recs, i, j, Ids(catalog), table, kb))
    requires Built(ws, hs, catalog, recs) && Lists(catalog) == Grown(before, catalog, ws)
    modifies catalog`vulnerabilities
    ensures r.Err? ==> RecordKbHits(recs, i, 0, Ids(catalog), table, kb) == Err(r.error)
    ensures r.Ok? ==> RecordKbHits(recs, i, 0, Ids(catalog), table, kb) == Prepend(hs', RecordKbHits(recs, i, j + 1, Ids(catalog), table, kb))
    ensures r.Ok? ==> Built(r.value, hs', catalog, recs) && Lists(catalog) == Grown(before, catalog, r.value)
  {
    var ids := Ids(catalog);
    var rem := recs[i].remediations[j];
    var text := rem.description;
    if text.Some? && text.value != "" && IsDigits(text.value) && kb == DigitsValue(text.value) {
      var listed := ListedIds(rem.productId);
      if listed.Err? {
        return Err(listed.error), hs;
      }
      var vs := BuildAll(listed.value, catalog, recs, i, table);
      if vs.Err? {
        return Err(vs.error), hs;
      }
      ghost var found := RemediationKbHits(recs, i, j, ids, table, kb).value;
      PrependPrepend(hs, found, RecordKbHits(recs, i, j + 1, ids, table, kb));
      BuiltConcat(ws, hs, vs.value, found, catalog, recs);
      GrownConcat(before, catalog, ws, vs.value);
      return Ok(ws + vs.value), hs + found;
    }
    assert RecordKbHits(recs, i, j, ids, table, kb) == Prepend([], RecordKbHits(recs, i, j + 1, ids, table, kb));
    PrependPrepend(hs, [], RecordKbHits(recs, i, j + 1, ids, table, kb));
    assert hs + [] == hs;
    return Ok(ws), hs;
  }

  /** The loop of lines 154-160 over the remediations of record `i`. */
  method KbRecord(recs: seq<VulnRecord>, i: nat, catalog: seq<Product>, kb: int, ghost table: seq<seq<Result<Fields>>>) returns (r: Result<seq<Vulnerability>>)
    requires i < |recs| && Tabulates(table, Ids(catalog), recs)
    modifies catalog`vulnerabilities
    ensures r.Err? ==> RecordKbHits(recs, i, 0, Ids(catalog), table, kb) == Err(r.error)
    ensures r.Ok? ==> RecordKbHits(recs, i, 0, Ids(catalog), table, kb).Ok? && Built(r.value, RecordKbHits(recs, i, 0, Ids(catalog), table, kb).value, catalog, recs)
    ensures r.Ok? ==> Lists(catalog) == Grown(old(Lists(catalog)), catalog, r.value)
  {
    ghost var before := Lists(catalog);
    var ws: seq<Vulnerability> := [];
    ghost var hs: seq<Hit> := [];
    var j := 0;
    PrependEmpty(RecordKbHits(recs, i, 0, Ids(catalog), table, kb));
    GrownEmpty(before, catalog);
    while j < |recs[i].remediations|
      invariant 0 <= j <= |recs[i].remediations|
      invariant RecordKbHits(recs, i, 0, Ids(catalog), table, kb) == Prepend(hs, RecordKbHits(recs, i, j, Ids(catalog), table, kb))
      invariant Built(ws, hs, catalog, recs) && Lists(catalog) == Grown(before, catalog, ws)
    {
      ws, hs :- KbNext(recs, i, j, catalog, kb, table, ws, hs, before);
      j := j + 1;
    }
    assert RecordKbHits(recs, i, j, Ids(catalog), table, kb) == Ok([]);
    assert hs + [] == hs;
    return Ok(ws);
  }

  /** One turn of the loop over the records: record `i` adds its
      Vulnerabilities to those built so far, or fails the whole loop. */
  method KbRecordNext(recs: seq<VulnRecord>, i: nat, catalog: seq<Product>, kb: int, ghost table: seq<seq<Result<Fields>>>,
                ws: seq<Vulnerability>, ghost hs: seq<Hit>, ghost before: seq<seq<Vulnerability>>)
    returns (r: Result<seq<Vulnerability>>, ghost hs': seq<Hit>)
    requires i < |recs| && Tabulates(table, Ids(catalog), recs) && |before| == |catalog|
    requires KbHitsFrom(recs, 0, Ids(catalog), table, kb) == Prepend(hs, KbHitsFrom(recs, i, Ids(catalog), table, kb))
    requires Built(ws, hs, catalog, recs) && Lists(catalog) == Grown(before, catalog, ws)
    modifies catalog`vulnerabilities
    ensures r.Err? ==> KbHitsFrom(recs, 0, Ids(catalog), table, kb) == Err(r.error)
    ensures r.Ok? ==> KbHitsFrom(recs, 0, Ids(catalog), table, kb) == Prepend(hs', KbHitsFrom(recs, i + 1, Ids(catalog), table, kb))
    ensures r.Ok? ==> Built(r.value, hs', catalog, recs) && Lists(catalog) == Grown(before, catalog, r.value)
  {
    var ids := Ids(catalog);
    var vs := KbRecord(recs, i, catalog, kb, table);
    if vs.Err? {
      return Err(vs.error), hs;
    }
    ghost var found := RecordKbHits(recs, i, 0, ids, table, kb).value;
    PrependPrepend(hs, found, KbHitsFrom(recs, i + 1, ids, table, kb));
    BuiltConcat(ws, hs, vs.value, found, catalog, recs);
    GrownConcat(before, catalog, ws, vs.value);
    return Ok(ws + vs.value), hs + found;
  }

  /** The loop of lines 150-160 over the records. */
  method KbVulnerabilities(recs: seq<VulnRecord>, catalog: seq<Product>, kb: int, ghost table: seq<seq<Result<Fields>>>) returns (r: Result<seq<Vulnerability>>)
    requires Tabulates(table, Ids(catalog), recs)
    modifies catalog`vulnerabilities
    ensures r.Err? ==> KbHitsFrom(recs, 0, Ids(catalog), table, kb) == Err(r.error)
    ensures r.Ok? ==> KbHitsFrom(recs, 0, Ids(catalog), table, kb).Ok? && Built(r.value, KbHitsFrom(recs, 0, Ids(catalog), table, kb).value, catalog, recs)
    ensures r.Ok? ==> Lists(catalog) == Grown(old(Lists(catalog)), catalog, r.value)
  {
    var ids := Ids(catalog);
    ghost var before := Lists(catalog);
    var ws: seq<Vulnerability> := [];
    ghost var hs: seq<Hit> := [];
    var i := 0;
    PrependEmpty(KbHitsFrom(recs, 0, ids, table, kb));
    GrownEmpty(before, catalog);
    while i < |recs|
      invariant 0 <= i <= |recs|
      invariant KbHitsFrom(recs, 0, ids, table, kb) == Prepend(hs, KbHitsFrom(recs, i, ids, table, kb))
      invariant Built(ws, hs, catalog, recs)
      invariant Lists(catalog) == Grown(before, catalog, ws)
    {
      ws, hs :- KbRecordNext(recs, i, catalog, kb, table, ws, hs, before);
      i := i + 1;
    }
    assert KbHitsFrom(recs, i, ids, table, kb) == Ok([]);
    assert hs + [] == hs;
    return Ok(ws);
  }
}
