/** Identifier lists: the `vuln:ProductID` text of a threat or a remediation,
    read as `list(map(int, text.split("-", 1)))`. */
module IdList {
  import opened Wrappers
  import opened Text

  /** Index of the first '-' in `s`, if any. */
  function HyphenIndex(s: string): (r: Option<nat>)
    ensures r.Some? ==> r.value < |s| && s[r.value] == '-' && '-' !in s[..r.value]
    ensures r.None? ==> '-' !in s
  {
    if s == [] then None
    else if s[0] == '-' then Some(0)
    else match HyphenIndex(s[1..])
      case None => None
      case Some(i) => assert s[..i + 1] == [s[0]] + s[1..][..i]; Some(i + 1)
  }

  /** Python's `s.split("-", 1)`: split at the first hyphen only. */
  function SplitFirstHyphen(s: string): (parts: seq<string>)
    ensures 1 <= |parts| <= 2
    ensures |parts| == 1 <==> '-' !in s
    ensures |parts| == 1 ==> parts[0] == s
    ensures |parts| == 2 ==> '-' !in parts[0] && parts[0] + "-" + parts[1] == s
  {
    match HyphenIndex(s)
    case None => [s]
    case Some(i) => assert s[..i] + "-" + s[i + 1..] == s; [s[..i], s[i + 1..]]
  }

  /** `list(map(int, parts))`: the first part that is not a number raises. */
  function ParseAll(parts: seq<string>): (r: Result<seq<nat>>)
    ensures r.Ok? <==> forall i :: 0 <= i < |parts| ==> IsDigits(parts[i])
    ensures r.Ok? ==> |r.value| == |parts|
    ensures r.Ok? ==> forall i :: 0 <= i < |parts| ==> ParseInt(parts[i]) == Some(r.value[i])
    ensures r.Err? ==> exists i :: 0 <= i < |parts| && r.error == InvalidInteger(parts[i]) && !IsDigits(parts[i])
  {
    if parts == [] then Ok([])
    else match ParseInt(parts[0])
      case None => Err(InvalidInteger(parts[0]))
      case Some(n) =>
        var rest :- ParseAll(parts[1..]);
        Ok([n] + rest)
  }

  /** The identifiers named by an identifier-list text (already stripped). */
  function ParseIdList(raw: string): (r: Result<seq<nat>>)
    ensures r.Ok? ==> 1 <= |r.value| <= 2
  {
    ParseAll(SplitFirstHyphen(raw))
  }

  /** An empty text, or one that starts with the hyphen, has an empty first
      part, which `int` rejects. */
  lemma ParseIdListEmptyPart(s: string)
    requires s == [] || s[0] == '-'
    ensures ParseIdList(s) == Err(InvalidInteger(""))
  {
    var parts := SplitFirstHyphen(s);
    if s == [] {
      assert parts == [""];
    } else {
      assert HyphenIndex(s) == Some(0);
      assert parts[0] == "";
    }
    assert ParseInt(parts[0]) == None;
  }

  /** A single number parses to itself. */
  lemma ParseIdListSingle(n: nat)
    ensures ParseIdList(NatToString(n)) == Ok([n])
  {
    var sn := NatToString(n);
    NoHyphenInDigits(sn);
    assert SplitFirstHyphen(sn) == [sn];
    assert ParseAll([sn]) == Ok([n]) by {
      assert ParseInt(sn) == Some(n);
      assert [sn][1..] == [] && ParseAll([]) == Ok([]);
      assert [n] + [] == [n];
    }
  }

  /** Two numbers joined by one hyphen parse to both, in order. */
  lemma ParseIdListPair(a: nat, b: nat)
    ensures ParseIdList(NatToString(a) + "-" + NatToString(b)) == Ok([a, b])
  {
    var sa, sb := NatToString(a), NatToString(b);
    var s := sa + "-" + sb;
    NoHyphenInDigits(sa);
    assert s == sa + ("-" + sb);
    HyphenIndexAt(sa, "-" + sb);
    assert s[..|sa|] == sa && s[|sa| + 1..] == sb;
    assert SplitFirstHyphen(s) == [sa, sb];
    assert ParseAll([sa, sb]) == Ok([a, b]) by {
      assert ParseInt(sa) == Some(a) && ParseInt(sb) == Some(b);
      assert [sa, sb][1..] == [sb];
      assert ParseAll([sb]) == Ok([b]) by {
        assert [sb][1..] == [] && ParseAll([]) == Ok([]);
        assert [b] + [] == [b];
      }
      assert [a] + [b] == [a, b];
    }
  }

  lemma NoHyphenInDigits(s: string)
    requires IsDigits(s)
    ensures '-' !in s
  {
    assert forall i :: 0 <= i < |s| ==> IsDigit(s[i]);
  }

  /** The hyphen search finds the first hyphen after a hyphen-free prefix. */
  lemma {:induction false} HyphenIndexAt(p: string, rest: string)
    requires '-' !in p
    requires rest != [] && rest[0] == '-'
    ensures HyphenIndex(p + rest) == Some(|p|)
  {
    if p != [] {
      assert (p + rest)[1..] == p[1..] + rest;
      HyphenIndexAt(p[1..], rest);
    }
  }

  /** After a hyphen-free first part, the text splits at the hyphen that
      follows it, whatever the rest holds. */
  lemma SplitAfter(a: string, rest: string)
    requires '-' !in a
    ensures SplitFirstHyphen(a + "-" + rest) == [a, rest]
  {
    var s := a + "-" + rest;
    assert s == a + ("-" + rest);
    HyphenIndexAt(a, "-" + rest);
    assert s[..|a|] == a && s[|a| + 1..] == rest;
  }

  /** Only the first hyphen splits, so a second hyphen stays inside the
      second part and makes it fail to parse; after a number, the error names
      that second part. */
  lemma SecondHyphenFails(a: string, b: string, c: string)
    requires '-' !in a
    ensures ParseIdList(a + "-" + b + "-" + c).Err?
    ensures IsDigits(a) ==> ParseIdList(a + "-" + b + "-" + c) == Err(InvalidInteger(b + "-" + c))
  {
    var second := b + "-" + c;
    assert a + "-" + b + "-" + c == a + "-" + second;
    SplitAfter(a, second);
    assert second[|b|] == '-' && !IsDigits(second);
    assert [a, second][1..] == [second];
  }
}
