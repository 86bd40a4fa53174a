/** The part of a CVRF 1.2 bulletin document the engine reads, as values.

    The XML tree is abstracted to the elements and attributes the engine asks
    for. An element that may be absent is an `Option`. A list of elements is a
    `seq` in document order, so bs4's `find` is "the first element" and
    `find_all` is "all of them, in order". Text is the element's `.text`,
    before any `strip()`. */
module Cvrf {
  import opened Wrappers

  /** A `prod:FullProductName` leaf: its `ProductID` attribute and its text. */
  datatype FullProductName = FullProductName(productId: Option<string>, text: string)

  /** The parent element of a group of leaves (a `prod:Branch`, or the tree root
      itself), with its optional `Name` attribute. */
  datatype Branch = Branch(name: Option<string>, leaves: seq<FullProductName>)

  /** `prod:ProductTree`: its leaves grouped by parent, in document order. */
  datatype ProductTree = ProductTree(branches: seq<Branch>)

  /** A `vuln:Note` with its `Title` and `Type` attributes. */
  datatype Note = Note(title: string, noteType: string, text: string)

  /** A `vuln:Threat` with its `Type` attribute and its `vuln:Description` and
      `vuln:ProductID` children. */
  datatype Threat = Threat(threatType: string, description: Option<string>, productId: Option<string>)

  /** A `vuln:Remediation` with its `Type` attribute and the children the
      engine reads. */
  datatype Remediation = Remediation(
    remediationType: string,
    description: Option<string>,
    supercedence: Option<string>,
    productId: Option<string>)

  /** A `vuln:Vulnerability` record. `cve` is the text of `vuln:CVE` (an element
      without children in CVRF). `statusProductId` is the record's first
      `vuln:ProductID` element, the one listed under `vuln:ProductStatuses`.
      `threats` is `None` when there is no `vuln:Threats` section. */
  datatype VulnRecord = VulnRecord(
    cve: Option<string>,
    title: Option<string>,
    notes: seq<Note>,
    statusProductId: Option<string>,
    threats: Option<seq<Threat>>,
    remediations: seq<Remediation>)

  /** A whole bulletin: the optional product tree and the vulnerability records. */
  datatype Document = Document(productTree: Option<ProductTree>, vulnerabilities: seq<VulnRecord>)

  /** The `.text` of a Threat element: the texts of its children, concatenated. */
  function ThreatText(t: Threat): string {
    (match t.description case Some(d) => d case None => "")
    + (match t.productId case Some(p) => p case None => "")
  }
}
