/** `Vulnerability.__str__` and `__format__` (lines 105-114) over the field
    values of a Vulnerability. */
module Display {
  import opened Wrappers
  import opened Text
  import opened Resolution

  const Separator := " // "

  /** `f"{cve} // KB{kb} // {title} // {severity} // {impact}"`: the CVE comes
      first, then the KB behind its prefix, and the line is as long as the five
      fields and the four separators. */
  function Summary(f: Fields): (r: string)
    ensures StartsWith(r, f.cve + Separator + "KB" + f.kb + Separator)
    ensures |r| == |f.cve| + |f.kb| + |f.title| + |f.severity| + |f.impact| + 4 * |Separator| + 2
  {
    var r := f.cve + Separator + "KB" + f.kb + Separator + f.title + Separator + f.severity + Separator + f.impact;
    assert r[..|f.cve + Separator + "KB" + f.kb + Separator|] == f.cve + Separator + "KB" + f.kb + Separator;
    r
  }

  /** `format(v, spec)` as written (lines 108-114). `"s"` formats the summary
      line with the string type `s`, which leaves it unchanged. `"c"` formats
      the CVE string with `c`, a presentation type Python strings do not
      have, so it raises ValueError. Any other specification gives `""`. */
  function Format(f: Fields, spec: string): (r: Result<string>)
    ensures r.Err? <==> spec == "c"
    ensures r.Err? ==> r.error == InvalidFormat("c")
    ensures spec == "s" ==> r == Ok(Summary(f))
    ensures spec != "s" && spec != "c" ==> r == Ok("")
  {
    match spec
    case "s" => Ok(Summary(f))
    case "c" => Err(InvalidFormat("c"))
    case _ => Ok("")
  }

  /** `format(v, spec)` as evidently intended: `"c"` gives the CVE itself;
      every other specification gives what the code as written gives. */
  function FormatIntended(f: Fields, spec: string): (r: string)
    ensures spec == "c" ==> r == f.cve
    ensures spec != "c" ==> Format(f, spec) == Ok(r)
  {
    if spec == "c" then f.cve else if spec == "s" then Summary(f) else ""
  }

  /** The intended CVE form is the head of the summary form; the code as
      written raises for it instead. */
  lemma FormatCveHeadsSummary(f: Fields)
    ensures FormatIntended(f, "s")[..|FormatIntended(f, "c")|] == FormatIntended(f, "c")
    ensures Format(f, "c") == Err(InvalidFormat("c"))
  {
    var r := Summary(f);
    assert StartsWith(r, f.cve + Separator + "KB" + f.kb + Separator);
    assert r[..|f.cve|] == (f.cve + Separator + "KB" + f.kb + Separator)[..|f.cve|];
  }

  predicate SlashFree(s: string) {
    '/' !in s
  }

  /** The displayed fields of `f` contain no '/'. */
  predicate Displayable(f: Fields) {
    SlashFree(f.cve) && SlashFree(f.kb) && SlashFree(f.title) && SlashFree(f.severity)
  }

  /** A separator after a slash-free head is found where the head ends. */
  lemma {:induction false} SeparatorSplit(a: string, b: string, c: string, d: string)
    requires SlashFree(a) && SlashFree(c)
    requires a + Separator + b == c + Separator + d
    ensures a == c && b == d
  {
    var s := a + Separator + b;
    var t := c + Separator + d;
    assert s[|a| + 1] == '/' && t[|c| + 1] == '/';
    assert |a| == |c|;
    assert a == s[..|a|];
    assert c == t[..|c|];
    assert b == s[|a| + 4..];
    assert d == t[|c| + 4..];
  }

  /** When no displayed field other than the last contains '/', the summary
      line determines all five displayed fields. */
  lemma SummaryInjective(f: Fields, g: Fields)
    requires Displayable(f) && Displayable(g)
    requires Summary(f) == Summary(g)
    ensures f.cve == g.cve && f.kb == g.kb && f.title == g.title && f.severity == g.severity && f.impact == g.impact
  {
    LineInjective(f, g);
  }

  /** The summary line's text, written out, determines the fields. */
  lemma LineInjective(f: Fields, g: Fields)
    requires Displayable(f) && Displayable(g)
    requires f.cve + Separator + "KB" + f.kb + Separator + f.title + Separator + f.severity + Separator + f.impact
      == g.cve + Separator + "KB" + g.kb + Separator + g.title + Separator + g.severity + Separator + g.impact
    ensures f.cve == g.cve && f.kb == g.kb && f.title == g.title && f.severity == g.severity && f.impact == g.impact
  {
    var r1f := "KB" + f.kb + Separator + f.title + Separator + f.severity + Separator + f.impact;
    var r1g := "KB" + g.kb + Separator + g.title + Separator + g.severity + Separator + g.impact;
    Regroup(f);
    Regroup(g);
    SeparatorSplit(f.cve, r1f, g.cve, r1g);
    KbTailInjective(f, g);
  }

  lemma Regroup(f: Fields)
    ensures f.cve + Separator + "KB" + f.kb + Separator + f.title + Separator + f.severity + Separator + f.impact
      == f.cve + Separator + ("KB" + f.kb + Separator + f.title + Separator + f.severity + Separator + f.impact)
  {
  }

  /** The part of the summary after the CVE determines the other four
      displayed fields. */
  lemma KbTailInjective(f: Fields, g: Fields)
    requires Displayable(f) && Displayable(g)
    requires "KB" + f.kb + Separator + f.title + Separator + f.severity + Separator + f.impact
      == "KB" + g.kb + Separator + g.title + Separator + g.severity + Separator + g.impact
    ensures f.kb == g.kb && f.title == g.title && f.severity == g.severity && f.impact == g.impact
  {
    var r3f, r3g := f.severity + Separator + f.impact, g.severity + Separator + g.impact;
    var r2f, r2g := f.title + Separator + r3f, g.title + Separator + r3g;
    assert "KB" + f.kb + Separator + f.title + Separator + f.severity + Separator + f.impact == ("KB" + f.kb) + Separator + r2f;
    assert "KB" + g.kb + Separator + g.title + Separator + g.severity + Separator + g.impact == ("KB" + g.kb) + Separator + r2g;
    assert SlashFree("KB" + f.kb) && SlashFree("KB" + g.kb);
    SeparatorSplit("KB" + f.kb, r2f, "KB" + g.kb, r2g);
    assert f.kb == ("KB" + f.kb)[2..] && g.kb == ("KB" + g.kb)[2..];
    SeparatorSplit(f.title, r3f, g.title, r3g);
    SeparatorSplit(f.severity, f.impact, g.severity, g.impact);
  }
}
