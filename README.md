# MS Patch Tuesday bulletin engine — a Dafny model

This project models the extraction and query engine of `data_parsing.py`. The
engine reads a Microsoft security-update bulletin in CVRF 1.2 form (the ICASI
Common Vulnerability Reporting Framework). It turns the bulletin into
`Product` and `Vulnerability` objects and answers searches by CVE or by KB.

The XML tree is abstracted into datatypes (`Cvrf`):

- a product tree of branches and `FullProductName` leaves;
- vulnerability records with optional CVE and title, notes, an optional
  `Threats` section and remediations.

bs4's `find` is "the first element" and `find_all` is "all of them, in
document order".

Modules:

- `Wrappers`: `Option`, and a `Result` whose error kinds stand for the
  Python exceptions the engine raises.
- `Text`: ASCII `strip`, `lower`, `startswith`, `in`, `isdigit` and `int`.
- `IdList`: the identifier-list reading `list(map(int, s.split("-", 1)))`.
- `Resolution`: what a Vulnerability resolves for one product, as pure
  functions. This covers:
  - the first-match threat lookup with its `<UNKNOWN_…>` sentinels;
  - the last-match vendor-fix lookup;
  - the description note;
  - exploited-in-the-wild;
  - the whole of `__init__` as `Resolve`.
- `Catalog`: `collect_products` as a function from the document to the
  catalog entries.
- `Display`: `__str__` and `__format__`. As written, `__format__` raises
  `ValueError` for `"c"`; `FormatIntended` is the corrected form.
- `Search`: the `find` dispatch and the two searches as functions. A search
  yields one `Hit` per (record, product) pair, in document order. Each
  outcome is read from a table of `Resolve` results, one per record and
  catalog product. The searches are proved sound, complete and exact: a
  successful search returns the one list that its description fits.
- `DataParsing`: the objects.
  - `Product` is a class whose list of Vulnerabilities is a `seq` field that
    only grows.
  - `Vulnerability` is a class whose `characteristics` map is the
    write-once cache of lines 78-103. The cache is keyed by a
    `Characteristic` datatype standing for the four string keys.
  - Building a Vulnerability runs the field reads in source order through
    the memoised getters, then appends it to its product's list.
  - The search methods run the source's nested loops. Each is proved
    against the `Search` function, with its effect on the list of every
    catalog product.
- `AsWritten`: four defective lines as the code has them, each beside the
  input that separates them from the corrected definition the rest of the
  model uses (see Findings). The fifth finding, `__format__`, is in
  `Display`.

In two places the code does less than its documented intent, and the model follows the code:

- "12-34-56" splits only at the first hyphen, so its second part "34-56" is
  not a number and the list is an error, not `[12, 34]`
  (`IdList.SecondHyphenFails`).
- The KB search does not promise that each result's `kb` field equals the
  searched KB. The match is on any remediation carrying the KB, but the
  field comes from the last vendor fix naming the product
  (`Search.KbFieldFromLastFix`).

## Model

| member | source | states |
|---|---|---|
| IdList.SplitFirstHyphen | data_parsing.py:73 | `split("-", 1)`: one part exactly when there is no hyphen, else two parts rejoining to the text, the first hyphen-free |
| IdList.ParseAll | data_parsing.py:73 | `map(int, …)` succeeds iff every part is all digits, keeps the number of parts and reads each part; on failure the error names a part that is not a number |
| IdList.ParseIdList | data_parsing.py:73 | a parsed identifier list has one or two identifiers |
| IdList.ParseIdListSingle | data_parsing.py:73 | a single number reads as the one-element list of itself |
| IdList.ParseIdListPair | data_parsing.py:99 | two numbers joined by a hyphen read as both, in order |
| IdList.SecondHyphenFails | data_parsing.py:73 | a second hyphen stays in the second part and makes the list an error; after a number the error names that second part |
| IdList.ParseIdListEmptyPart | data_parsing.py:99 | an empty text, or one starting with a hyphen, has an empty first part and is an invalid integer |
| Text.ToLower | data_parsing.py:122 | `lower()` keeps the length and lowers each character |
| Text.Trim | data_parsing.py:72 | `strip()` gives a stripped text no longer than its input and leaves a stripped text unchanged |
| Text.TrimExact | data_parsing.py:72 | `strip()` is empty iff the text is all whitespace; otherwise it is the slice starting after the leading whitespace, and only whitespace follows it |
| Text.NatToString | data_parsing.py:125 | the decimal text of a number is all digits and `int` reads it back as that number |
| Resolution.ThreatScanNoHit | data_parsing.py:68-76 | when no threat of the kind names the product, the result is exactly the `<UNKNOWN_…>` sentinel |
| Resolution.ThreatScanFirstHit | data_parsing.py:71-75 | the first threat of the kind that names the product gives its stripped description; later entries are not read |
| Resolution.ThreatLookupOk | data_parsing.py:68-76 | a successful lookup is the sentinel when there is no Threats section or no threat of the kind names the product, else the description of the first threat of the kind that does |
| Resolution.ThreatScanOk | data_parsing.py:68-76 | every successful lookup is the sentinel with no entry naming the product, or the description of the first entry that does |
| Resolution.RemediationScanNoHit | data_parsing.py:95-102 | vendor fixes that name other products leave the value as it is |
| Resolution.RemediationScanThrough | data_parsing.py:95-102 | a matching vendor fix replaces the value, whatever came before it |
| Resolution.RemediationInfoLastHit | data_parsing.py:92-103 | the last vendor fix naming the product decides the value; a missing sub-field gives `""` |
| Resolution.RemediationInfoOk | data_parsing.py:92-103 | the vendor-fix lookup succeeds iff every vendor fix's identifier list reads |
| Resolution.RemediationInfoNoHit | data_parsing.py:92-103 | with no vendor fix naming the product the value is `""` |
| Resolution.FirstThreatOfType | data_parsing.py:60 | the position of the first threat of the type, with none of that type before it, or none at all |
| Resolution.ExploitedInTheWild | data_parsing.py:58-61 | `itw` fails iff there is no Exploit Status threat, else holds iff its stripped text contains `Exploited:Yes` |
| Resolution.FirstDescriptionNote | data_parsing.py:53-55 | the position of the first note titled and typed `Description`, or none |
| Resolution.DescriptionNoteFirst | data_parsing.py:53-55 | the description fails iff no note is titled and typed `Description`; otherwise it is the stripped text of the first such note |
| Resolution.Required | data_parsing.py:48-49 | `find(tag).text.strip()` fails iff the element is missing, else gives the stripped text |
| Resolution.CoversListed | data_parsing.py:99-100 | one number names exactly the product it reads as; two joined by a hyphen name the products of either; a product id that is not a number is never named |
| Resolution.ResolveOk | data_parsing.py:45-61 | building a Vulnerability succeeds iff the record has a CVE and a title and every read of lines 51-61 succeeds |
| Resolution.ResolveFields | data_parsing.py:48-61 | each field of a built Vulnerability is its read: stripped CVE and title, Severity and Impact lookups, description note, the two vendor-fix lookups and exploited-in-the-wild |
| Resolution.ResolveUnknownSeverity | data_parsing.py:51 | a resolved Vulnerability with no Severity threat naming its product has severity `<UNKNOWN_SEVERITY>`, never `""` |
| Resolution.ResolveSeverity | data_parsing.py:51 | the resolved severity is the threat lookup of kind Severity |
| Resolution.ResolveByNumber | data_parsing.py:74 | resolution sees the product only through its identifier read as a number |
| Catalog.LeafEntry | data_parsing.py:20-24 | a leaf gives an entry iff it has a ProductID; the entry holds that id, the stripped text and the parent's Name or `""` |
| Catalog.BranchLeaves | data_parsing.py:167 | one leaf per FullProductName of the branch, in order, paired with the branch |
| Catalog.FindAllLeaves | data_parsing.py:167 | `find_all` yields exactly as many leaves as the tree holds |
| Catalog.Entries | data_parsing.py:167 | the comprehension succeeds iff every leaf has an id, with one entry per leaf in order, each that leaf's entry |
| Catalog.CollectEntries | data_parsing.py:164-168 | no product tree is an error; otherwise one entry per leaf |
| Catalog.FindAllLeavesAt | data_parsing.py:167 | leaf `l` of branch `b` is at position `LeafCount(bs[..b]) + l` of the document-order list |
| Catalog.CatalogEntryAt | data_parsing.py:164-168 | the catalog entry at that position is the entry of that leaf |
| Catalog.CollectEntriesOk | data_parsing.py:165-167 | the catalog exists iff there is a product tree and every leaf has a ProductID |
| Catalog.LeafPositionsOrdered | data_parsing.py:167 | leaf positions follow document order and never coincide, so equal names give separate entries |
| Display.Summary | data_parsing.py:105-106 | the line starts with the CVE, the separator and the `KB`-prefixed KB, and is as long as the five fields and four separators |
| Display.Format | data_parsing.py:108-114 | `"s"` gives the summary line; `"c"` raises `ValueError` (an error exactly for `"c"`); any other specification gives `""` |
| Display.FormatIntended | data_parsing.py:112-113 | `"c"` gives the CVE; every other specification agrees with the code as written |
| Display.FormatCveHeadsSummary | data_parsing.py:105-113 | the intended `"c"` form is a prefix of the `"s"` form, while the code as written raises for `"c"` |
| Display.SummaryInjective | data_parsing.py:105-106 | when no displayed field but the last contains '/', the summary line determines all five displayed fields |
| Display.KbTailInjective | data_parsing.py:106 | the part of the summary after the CVE determines KB, title, severity and impact |
| Search.Dispatch | data_parsing.py:121-129 | `cve-` in any case goes to the CVE search with the text unchanged; `kb` goes to the KB search with the rest read as a number; an int goes to the KB search; any other string is `ValueError` |
| Search.DispatchKbText | data_parsing.py:124-128 | `"kb"` in any case followed by a number reaches the same search as the number |
| Search.DispatchDigitsRejected | data_parsing.py:121-129 | a bare string of digits is rejected |
| Search.FindProduct | data_parsing.py:143 | the first catalog product whose id reads as the identifier, or none if no product does |
| Search.ResolveIdsSound | data_parsing.py:142-143 | one result per listed identifier, in list order, for the catalog product it reads as, with that product's outcome |
| Search.RecordCveHitsSound | data_parsing.py:138-143 | the results for a record are outcomes of that record, which matches the CVE |
| Search.CveHitsFromSound | data_parsing.py:137-144 | results from record `i` on come from matching records at or after `i`, in record order |
| Search.CveSearchSound | data_parsing.py:132-144 | every CVE result is a matching record resolved for a catalog product, in document order |
| Search.CveSearchExact | data_parsing.py:131-144 | a successful CVE search returns one result per identifier listed by each matching record, record by record in document order, and no other list fits that description |
| Search.CveSearchOk | data_parsing.py:137-143 | the CVE search fails iff a matching record has an unreadable or missing identifier list, or lists an identifier with no catalog product or one it does not resolve for |
| Search.CveHitsCaseInsensitive | data_parsing.py:141 | CVE texts that differ only in case give the same results |
| Search.CveSearchEmpty | data_parsing.py:136-144 | with no matching record the search succeeds with no results |
| Search.RemediationKbHitsSound | data_parsing.py:155-160 | the results for a remediation carry its KB and are products it names |
| Search.RecordKbHitsSound | data_parsing.py:154-160 | the results for a record come from its remediations that carry the KB and name the product |
| Search.KbHitsFromSound | data_parsing.py:150-161 | results from record `i` on come from records at or after `i`, each with such a remediation, in record order |
| Search.KbSearchSound | data_parsing.py:147-161 | every KB result is a record with a remediation carrying the KB and naming the product, resolved for it, in document order |
| Search.KbSearchExact | data_parsing.py:146-161 | a successful KB search returns, record by record and remediation by remediation, one result per identifier listed by each remediation carrying the KB, and no other list fits that description |
| Search.KbSearchOk | data_parsing.py:150-160 | the KB search fails iff a remediation carrying the KB has an unreadable or missing identifier list, or lists an identifier with no catalog product or one its record does not resolve for |
| Search.KbSearchEmpty | data_parsing.py:149-161 | with no remediation carrying the KB the search succeeds with no results |
| Search.KbFieldFromLastFix | data_parsing.py:158 | a remediation matching KB `a` can coexist with a later fix giving the `kb` field `b`, with `b` ≠ `a` |
| Search.Find | data_parsing.py:116-129 | an int goes to the KB search; a `cve-` string in any case to the CVE search; a `kb` string to the KB search with the rest read as a number, or `ValueError`; any other string is `ValueError` |
| Search.FindKbTextOrNumber | data_parsing.py:124-128 | `find(doc, "kb<n>")` and `find(doc, n)` give equal results |
| Search.FindCveAnyCase | data_parsing.py:122-123 | `find` with CVE queries that differ only in case gives equal results |
| DataParsing.Product.constructor | data_parsing.py:16-25 | a new Product holds the entry's id, name and family and an empty list |
| DataParsing.Product.AddVulnerability | data_parsing.py:27-28 | the list gains the Vulnerability at its end and nothing else changes |
| DataParsing.Vulnerability.Start | data_parsing.py:45-50 | the object starts with its product, record, CVE, title and an empty cache |
| DataParsing.Vulnerability.ImpactOrSeverity | data_parsing.py:68-76 | the loop with early returns computes the threat lookup |
| DataParsing.Vulnerability.GetThreat | data_parsing.py:78-90 | a cached key returns its value and leaves the cache unchanged; a miss computes the lookup and caches it on success; a sound cache stays sound |
| DataParsing.Vulnerability.GetRemediationInfo | data_parsing.py:92-103 | a cached key returns its value unchanged; a miss computes the last-match value and stores the running value under the key, and only that key |
| DataParsing.Vulnerability.ReadCharacteristics | data_parsing.py:51-61 | the memoised reads give the pure assessment of the record for the product |
| DataParsing.Vulnerability.Finish | data_parsing.py:51-62 | the fields take the assessed values, and on success the object is appended once at the end of its product's list; on failure the list is unchanged |
| DataParsing.Vulnerability.Build | data_parsing.py:45-62 | construction fails exactly as `Resolve` does, leaving the list unchanged; on success it gives a fresh object with the resolved fields, appended at the end of its product's list, with a sound cache |
| DataParsing.Vulnerability.GetVulnInfoByCve | data_parsing.py:131-144 | the method fails as the CVE search does; on success its objects are the search's results in order, and each product's list has grown by exactly its own results |
| DataParsing.Vulnerability.GetVulnInfoByKb | data_parsing.py:146-161 | the same for the KB search |
| DataParsing.Vulnerability.Find | data_parsing.py:116-129 | the same for the dispatched search |
| DataParsing.CollectProducts | data_parsing.py:164-168 | fails iff the catalog function fails; otherwise one fresh, distinct Product per catalog entry, in order, each with an empty list |
| DataParsing.NewProducts | data_parsing.py:167 | one fresh, distinct Product per entry, in order, holding that entry and an empty list |
| DataParsing.BuildFor | data_parsing.py:143 | building for catalog product `p` and record `i` gives the table's outcome, and only that product's list gains the object |
| DataParsing.BuildNext | data_parsing.py:142-143 | one turn of the loop extends the built objects and the lists by the next identifier's result |
| DataParsing.BuildAll | data_parsing.py:142-143 | the loop over a record's listed identifiers builds exactly the resolved results |
| DataParsing.CveRecord | data_parsing.py:138-143 | one record's turn of the CVE search builds exactly that record's results |
| DataParsing.CveRecordNext | data_parsing.py:137-143 | one record's turn of the CVE loop extends the built objects by its results, or fails the whole search with its error |
| DataParsing.CveVulnerabilities | data_parsing.py:137-144 | the loop over records builds exactly the CVE search's results |
| DataParsing.KbNext | data_parsing.py:155-160 | one remediation's turn of the KB search extends the built objects by its results |
| DataParsing.KbRecord | data_parsing.py:154-160 | the loop over a record's remediations builds exactly that record's KB results |
| DataParsing.KbRecordNext | data_parsing.py:150-160 | one record's turn of the KB loop extends the built objects by its results, or fails the whole search with its error |
| DataParsing.KbVulnerabilities | data_parsing.py:150-161 | the loop over records builds exactly the KB search's results |
| DataParsing.GrownAdded | data_parsing.py:62 | appending one more object grows exactly its product's list |
| DataParsing.BuiltConcat | data_parsing.py:144 | objects built for consecutive result lists describe their concatenation |
| AsWritten.ThreatScanAsWritten | data_parsing.py:71-76 | as written, a successful lookup is always the sentinel |
| AsWritten.ThreatLookupAsWritten | data_parsing.py:68-76 | as written, a successful lookup is the sentinel, also with no Threats section |
| AsWritten.ThreatScanAsWrittenAgrees | data_parsing.py:71-76 | when no threat names the product, the code as written agrees with the corrected lookup |
| AsWritten.ThreatLookupDiffers | data_parsing.py:74 | one threat naming the product: corrected gives its description, as written the sentinel |
| AsWritten.RemediationScanAsWritten | data_parsing.py:95-102 | as written, a successful lookup never changes the value |
| AsWritten.RemediationInfoAsWritten | data_parsing.py:92-103 | as written, a successful vendor-fix lookup is always `""` |
| AsWritten.RemediationScanAsWrittenAgrees | data_parsing.py:95-102 | when no vendor fix names the product, the code as written agrees with the corrected loop |
| AsWritten.RemediationInfoDiffers | data_parsing.py:100 | one vendor fix naming the product: corrected gives its KB, as written `""` |
| AsWritten.CveHitsAsWritten | data_parsing.py:137-143 | as written, the CVE search gives no results or raises `TypeError` |
| AsWritten.CveSearchAsWritten | data_parsing.py:131-144 | as written, the CVE search finds nothing or raises `TypeError` |
| AsWritten.CveHitsAsWrittenOk | data_parsing.py:137-143 | as written, the CVE search succeeds iff no record matches |
| AsWritten.CveSearchDiffers | data_parsing.py:142 | whenever the corrected CVE search finds something, the code as written raises |
| AsWritten.RecordKbAsWritten | data_parsing.py:154-160 | as written, a record's KB loop never yields a result |
| AsWritten.KbHitsAsWritten | data_parsing.py:150-160 | as written, the KB search never yields a result |
| AsWritten.KbSearchAsWritten | data_parsing.py:146-161 | as written, a successful KB search finds nothing |
| AsWritten.RecordKbAsWrittenOk | data_parsing.py:154-160 | as written, a record's loop succeeds iff none of its remediations raises |
| AsWritten.KbHitsAsWrittenRaises | data_parsing.py:150-160 | one raising remediation makes the whole KB search as written raise |
| AsWritten.KbSearchDiffers | data_parsing.py:159-160 | whenever the corrected KB search finds something, the code as written raises |

## Left out

- `get_root` (lines 5-12), `Product.node` and `Product.root`: they only walk and
  hold bs4 objects. The document is given as a value.
- The `assert isinstance(self.root, bs4.Tag)` of line 19 holds for any parsed
  document and is not modelled.
- `Vulnerability.url()` (lines 65-66): `KB_SEARCH_URL` is not defined in the
  module, so the method always raises.
- `main.py`, `data_retrieval.py` and `logging_display.py`: the command line,
  the HTTP fetch with the XML parse, and console output. All are I/O.
- Python's `int()` also accepts surrounding whitespace, a sign, underscores
  and non-ASCII digits. `isdigit()`, `strip()` and `lower()` are also
  Unicode-aware. The model reads ASCII digits only, strips ASCII whitespace
  and lowers ASCII letters.
- bs4's `if threads:` and `if not field:` on a found Tag are taken as "the
  element is present".
- `__format__` passes the summary through `format(…, "s")`, the identity on
  strings. For `"c"`, `format` on a string raises `ValueError`, which the
  model gives as the error `InvalidFormat`.
- DataParsing.Vulnerability.GetVulnInfoByCve: after a failure the contract does not state which Vulnerabilities earlier turns already appended to product lists.
- DataParsing.Vulnerability.GetVulnInfoByKb: after a failure the contract does not state which Vulnerabilities earlier turns already appended to product lists.
- DataParsing.Vulnerability.Find: after a failure the contract does not state which Vulnerabilities earlier turns already appended to product lists.
- DataParsing.Vulnerability.Build: a failure after the cache was partly filled leaves that object unreachable. Its cache after a failure is not stated.
- AsWritten.RecordKbAsWritten: a raising remediation that lists products is one error kind, `NotAProduct`. The source may first raise another exception inside `__init__`, such as a missing CVE or an unreadable identifier list, but it always raises.
- Search.CveSearchSound: a record's products are read only from its first `vuln:ProductID` element (`statusProductId`), the one the corrected line 142 reaches. An identifier with no catalog product fails the search with `UnknownProduct`, since the source has no Product to build for it.
- Search.KbSearchSound: an identifier a matching remediation lists with no catalog product fails the search with `UnknownProduct`, since the source has no Product to build for it.
- The searches take the catalog as a parameter. In the source, the Product objects the corrected searches would use are not reachable from `find`'s arguments.

## Findings

| source | as written | input that shows it | evidently intended | confidence | as-written member | corrected member |
|---|---|---|---|---|---|---|
| data_parsing.py:74 | `self.product in _product_ids` compares a Product object with integers, so no threat ever matches | a Severity threat with ProductID `11926` and Description `Critical`, read for product `11926`: gives `<UNKNOWN_SEVERITY>` | the product's id, read as an integer, is in the list, giving `Critical` | high (not executed) | AsWritten.ThreatLookupDiffers | Resolution.ThreatScanFirstHit |
| data_parsing.py:100 | `self.product.id in current_product_ids` compares a string with integers, so no remediation ever matches | a Vendor Fix for ProductID `11926` with Description `5029244`, read for product `11926`: `kb` is `""` | `kb` is `5029244` | high (not executed) | AsWritten.RemediationInfoDiffers | Resolution.RemediationInfoLastHit |
| data_parsing.py:142 | `cve_node.find("vuln:ProductID")` on the childless `vuln:CVE` element gives `None`, and iterating it raises `TypeError` | any record whose CVE equals the query | build a Vulnerability for each catalog product named by the record's first `vuln:ProductID` element | high (not executed) | AsWritten.CveSearchDiffers | Search.CveSearchExact |
| data_parsing.py:159-160 | iterating the `vuln:ProductID` Tag yields its text node, which is passed as the Product and fails | a remediation with Description `5029244` and ProductID `11926`, searched for KB 5029244 | build a Vulnerability for catalog product `11926` | high (not executed) | AsWritten.KbSearchDiffers | Search.KbSearchExact |
| data_parsing.py:113 | `format(self.cve, "c")` uses `c`, a presentation type Python strings do not have, so it raises `ValueError` | any Vulnerability formatted with `"c"` | the CVE text | high (not executed) | Display.Format | Display.FormatIntended |
