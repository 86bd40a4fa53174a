/** `collect_products` (lines 164-168) as a function: the values of the
    Products it builds, one per `prod:FullProductName` leaf, in document order. */
module Catalog {
  import opened Wrappers
  import opened Text
  import opened Cvrf

  /** The identifier, name and family a `Product` is built with (lines 20-24). */
  datatype Entry = Entry(id: string, name: string, family: string)

  /** A leaf together with its parent element. */
  datatype Leaf = Leaf(parent: Branch, node: FullProductName)

  /** `node.parent.get("Name", "")`. */
  function Family(b: Branch): string {
    match b.name
    case None => ""
    case Some(n) => n
  }

  /** `Product.__init__` on one leaf: a leaf without a `ProductID` attribute
      fails the `assert isinstance(__id, str)` of line 21. */
  function LeafEntry(leaf: Leaf): (r: Result<Entry>)
    ensures r.Ok? <==> leaf.node.productId.Some?
    ensures r.Ok? ==> r.value == Entry(leaf.node.productId.value, Trim(leaf.node.text), Family(leaf.parent))
  {
    match leaf.node.productId
    case None => Err(MissingElement("ProductID"))
    case Some(id) => Ok(Entry(id, Trim(leaf.node.text), Family(leaf.parent)))
  }

  /** Number of leaves in the branches. */
  function LeafCount(bs: seq<Branch>): nat {
    if bs == [] then 0 else |bs[0].leaves| + LeafCount(bs[1..])
  }

  /** The leaves of one branch, each paired with the branch. */
  function BranchLeaves(b: Branch): (r: seq<Leaf>)
    ensures |r| == |b.leaves|
    ensures forall l :: 0 <= l < |r| ==> r[l] == Leaf(b, b.leaves[l])
  {
    seq(|b.leaves|, l requires 0 <= l < |b.leaves| => Leaf(b, b.leaves[l]))
  }

  /** `find_all("prod:FullProductName")`: every leaf, in document order. */
  function FindAllLeaves(bs: seq<Branch>): (r: seq<Leaf>)
    ensures |r| == LeafCount(bs)
  {
    if bs == [] then [] else BranchLeaves(bs[0]) + FindAllLeaves(bs[1..])
  }

  /** The entries of the leaves, in order; the first leaf without an
      identifier fails the whole catalog. */
  function Entries(leaves: seq<Leaf>): (r: Result<seq<Entry>>)
    ensures r.Ok? <==> forall k :: 0 <= k < |leaves| ==> leaves[k].node.productId.Some?
    ensures r.Ok? ==> |r.value| == |leaves|
    ensures r.Ok? ==> forall k :: 0 <= k < |leaves| ==> LeafEntry(leaves[k]) == Ok(r.value[k])
    ensures r.Err? ==> r.error == MissingElement("ProductID")
  {
    if leaves == [] then Ok([])
    else
      var e :- LeafEntry(leaves[0]);
      match Entries(leaves[1..])
      case Err(err) =>
        EntriesTail(leaves);
        Err(err)
      case Ok(rest) =>
        EntriesCons(leaves, e, rest);
        Ok([e] + rest)
  }

  lemma EntriesTail(leaves: seq<Leaf>)
    requires leaves != []
    ensures (forall k :: 0 <= k < |leaves| ==> leaves[k].node.productId.Some?)
      ==> forall k :: 0 <= k < |leaves[1..]| ==> leaves[1..][k].node.productId.Some?
  {
    if forall k :: 0 <= k < |leaves| ==> leaves[k].node.productId.Some? {
      forall k | 0 <= k < |leaves[1..]| ensures leaves[1..][k].node.productId.Some? {
        assert leaves[1..][k] == leaves[k + 1];
      }
    }
  }

  lemma EntriesCons(leaves: seq<Leaf>, e: Entry, rest: seq<Entry>)
    requires leaves != [] && LeafEntry(leaves[0]) == Ok(e) && |rest| == |leaves| - 1
    requires forall k :: 0 <= k < |rest| ==> LeafEntry(leaves[1..][k]) == Ok(rest[k])
    ensures forall k :: 0 <= k < |leaves| ==> LeafEntry(leaves[k]) == Ok(([e] + rest)[k])
    ensures forall k :: 0 <= k < |leaves| ==> leaves[k].node.productId.Some?
  {
    forall k | 0 <= k < |leaves| ensures LeafEntry(leaves[k]) == Ok(([e] + rest)[k]) {
      if k == 0 {
        assert ([e] + rest)[0] == e;
      } else {
        assert ([e] + rest)[k] == rest[k - 1];
        assert leaves[k] == leaves[1..][k - 1];
      }
    }
  }

  /** `collect_products`: no `prod:ProductTree` fails the assert of line 166;
      there is no partial catalog. */
  function CollectEntries(doc: Document): (r: Result<seq<Entry>>)
    ensures doc.productTree.None? ==> r.Err?
    ensures r.Ok? ==> |r.value| == LeafCount(doc.productTree.value.branches)
  {
    match doc.productTree
    case None => Err(MissingElement("prod:ProductTree"))
    case Some(tree) => Entries(FindAllLeaves(tree.branches))
  }

  lemma LeafCountSplit(bs: seq<Branch>)
    requires bs != []
    ensures LeafCount(bs) == |bs[0].leaves| + LeafCount(bs[1..])
  {
  }

  /** Leaf `l` of branch `b` is found at position `LeafCount(bs[..b]) + l`. */
  lemma {:induction false} FindAllLeavesAt(bs: seq<Branch>, b: nat, l: nat)
    requires b < |bs| && l < |bs[b].leaves|
    ensures LeafCount(bs[..b]) + l < |FindAllLeaves(bs)|
    ensures FindAllLeaves(bs)[LeafCount(bs[..b]) + l] == Leaf(bs[b], bs[b].leaves[l])
  {
    var first := BranchLeaves(bs[0]);
    var tail := bs[1..];
    assert FindAllLeaves(bs) == first + FindAllLeaves(tail);
    if b == 0 {
      assert bs[..0] == [];
    } else {
      FindAllLeavesAt(tail, b - 1, l);
      assert tail[..b - 1] == bs[1..b];
      assert tail[b - 1] == bs[b];
      LeafCountSplit(bs[..b]);
      assert bs[..b][1..] == bs[1..b];
      var k := LeafCount(bs[1..b]) + l;
      assert (first + FindAllLeaves(tail))[|first| + k] == FindAllLeaves(tail)[k];
    }
  }

  /** Leaf `l` of branch `b` gives the catalog entry at position
      `LeafCount(bs[..b]) + l` (with the leaf's identifier, its stripped text
      as name and its parent's `Name` as family, by `LeafEntry`). */
  lemma CatalogEntryAt(doc: Document, b: nat, l: nat)
    requires CollectEntries(doc).Ok?
    requires b < |doc.productTree.value.branches| && l < |doc.productTree.value.branches[b].leaves|
    ensures var bs := doc.productTree.value.branches;
      LeafCount(bs[..b]) + l < |CollectEntries(doc).value|
      && LeafEntry(Leaf(bs[b], bs[b].leaves[l])) == Ok(CollectEntries(doc).value[LeafCount(bs[..b]) + l])
  {
    var bs := doc.productTree.value.branches;
    assert CollectEntries(doc) == Entries(FindAllLeaves(bs));
    LeafEntryAt(bs, b, l);
  }

  lemma LeafEntryAt(bs: seq<Branch>, b: nat, l: nat)
    requires Entries(FindAllLeaves(bs)).Ok?
    requires b < |bs| && l < |bs[b].leaves|
    ensures LeafCount(bs[..b]) + l < |Entries(FindAllLeaves(bs)).value|
      && LeafEntry(Leaf(bs[b], bs[b].leaves[l])) == Ok(Entries(FindAllLeaves(bs)).value[LeafCount(bs[..b]) + l])
  {
    FindAllLeavesAt(bs, b, l);
  }

  /** A catalog exists exactly when there is a product tree and every leaf
      carries an identifier. */
  lemma CollectEntriesOk(doc: Document)
    ensures CollectEntries(doc).Ok? <==>
      doc.productTree.Some? &&
      forall b, l :: 0 <= b < |doc.productTree.value.branches| && 0 <= l < |doc.productTree.value.branches[b].leaves|
        ==> doc.productTree.value.branches[b].leaves[l].productId.Some?
  {
    if doc.productTree.Some? {
      var bs := doc.productTree.value.branches;
      if forall b, l :: 0 <= b < |bs| && 0 <= l < |bs[b].leaves| ==> bs[b].leaves[l].productId.Some? {
        IdentifiedLeaves(bs);
      } else {
        var b, l :| 0 <= b < |bs| && 0 <= l < |bs[b].leaves| && bs[b].leaves[l].productId.None?;
        FindAllLeavesAt(bs, b, l);
      }
    }
  }

  lemma {:induction false} IdentifiedLeaves(bs: seq<Branch>)
    requires forall b, l :: 0 <= b < |bs| && 0 <= l < |bs[b].leaves| ==> bs[b].leaves[l].productId.Some?
    ensures forall k :: 0 <= k < |FindAllLeaves(bs)| ==> FindAllLeaves(bs)[k].node.productId.Some?
  {
    if bs != [] {
      IdentifiedLeaves(bs[1..]) by {
        forall b, l | 0 <= b < |bs[1..]| && 0 <= l < |bs[1..][b].leaves|
          ensures bs[1..][b].leaves[l].productId.Some?
        {
          assert bs[1..][b] == bs[b + 1];
        }
      }
      var first := BranchLeaves(bs[0]);
      assert FindAllLeaves(bs) == first + FindAllLeaves(bs[1..]);
    }
  }

  lemma {:induction false} LeafCountAppend(a: seq<Branch>, c: seq<Branch>)
    ensures LeafCount(a + c) == LeafCount(a) + LeafCount(c)
  {
    if a == [] {
      assert a + c == c;
    } else {
      assert (a + c)[0] == a[0] && (a + c)[1..] == a[1..] + c;
      LeafCountAppend(a[1..], c);
    }
  }

  /** Leaf positions follow document order and never coincide: the catalog
      holds one entry per leaf, and two leaves with the same name (in the same
      or different branches) give two entries. */
  lemma LeafPositionsOrdered(bs: seq<Branch>, b1: nat, l1: nat, b2: nat, l2: nat)
    requires b1 < |bs| && l1 < |bs[b1].leaves|
    requires b2 < |bs| && l2 < |bs[b2].leaves|
    requires b1 < b2 || (b1 == b2 && l1 < l2)
    ensures LeafCount(bs[..b1]) + l1 < LeafCount(bs[..b2]) + l2
  {
    if b1 < b2 {
      assert bs[..b2] == bs[..b1] + bs[b1..b2];
      LeafCountAppend(bs[..b1], bs[b1..b2]);
      assert bs[b1..b2][0] == bs[b1];
      LeafCountSplit(bs[b1..b2]);
    }
  }
}
