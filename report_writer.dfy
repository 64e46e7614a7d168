/**
 * The scraping self-check's report: an append-only text buffer (`OutputWriter`) that collects
 * sections, lines and serialised tables, and the two counters the check prints about the
 * scraped projects, per-field presence and the distribution of languages.
 */
module ReportWriter {
  import opened Wrappers
  import opened Text
  import opened Sequences
  import Validator

  /** Width of the horizontal rules drawn by sections and sub-sections. */
  const RuleWidth: nat := 60

  /** A line of text as the buffer stores it: the text followed by a newline. */
  function Line(t: string): string {
    t + "\n"
  }

  /** What `section(title)` appends: a rule of '=', the title, and another rule of '='. */
  function SectionText(title: string): string {
    Line(Repeat('=', RuleWidth)) + Line(title) + Line(Repeat('=', RuleWidth))
  }

  /** What `subSection(title)` appends: the title after a blank line, then a rule of '-'. */
  function SubSectionText(title: string): string {
    Line("\n" + title) + Line(Repeat('-', RuleWidth))
  }

  /** Splitting at the first separator peels off the text before it. */
  lemma {:induction false} SplitAtFirst(a: string, b: string, d: char)
    requires d !in a
    ensures Split(a + [d] + b, d) == [a] + Split(b, d)
  {
    if a == [] {
      assert a + [d] + b == [d] + b;
      assert ([d] + b)[1..] == b;
    } else {
      var s := a + [d] + b;
      assert s[0] == a[0] != d;
      assert s[1..] == a[1..] + [d] + b;
      SplitAtFirst(a[1..], b, d);
      var rest := Split(s[1..], d);
      assert rest[0] == a[1..] && rest[1..] == Split(b, d);
      assert [a[0]] + a[1..] == a;
    }
  }

  /** A rule contains no newline. */
  lemma RuleIsOneLine(c: char, n: nat)
    requires c != '\n'
    ensures '\n' !in Repeat(c, n)
  {
    var r := Repeat(c, n);
    assert forall i :: 0 <= i < |r| ==> r[i] != '\n';
  }

  /** A line in front of more text is the first piece of the split. */
  lemma LineThen(a: string, rest: string)
    requires '\n' !in a
    ensures Split(Line(a) + rest, '\n') == [a] + Split(rest, '\n')
  {
    SplitAtFirst(a, rest, '\n');
    assert Line(a) + rest == a + ['\n'] + rest;
  }

  /** The last line, followed by its newline, leaves an empty piece after it. */
  lemma LastLine(c: string)
    requires '\n' !in c
    ensures Split(Line(c), '\n') == [c, ""]
  {
    LineThen(c, []);
    assert Line(c) + [] == Line(c);
    assert Split([], '\n') == [[]];
  }

  /** Three lines of text, none holding a newline, read back as those three lines. */
  lemma ThreeLines(a: string, b: string, c: string)
    requires '\n' !in a && '\n' !in b && '\n' !in c
    ensures Split(Line(a) + (Line(b) + Line(c)), '\n') == [a, b, c, ""]
  {
    LineThen(b, Line(c));
    LineThen(a, Line(b) + Line(c));
    LastLine(c);
  }

  lemma Associate(x: string, y: string, z: string)
    ensures x + y + z == x + (y + z)
  {
  }

  /** A section of a one-line title reads back as exactly three lines: rule, title, rule. */
  lemma SectionLines(title: string)
    requires '\n' !in title
    ensures Split(SectionText(title), '\n') == [Repeat('=', RuleWidth), title, Repeat('=', RuleWidth), ""]
  {
    var rule := Repeat('=', RuleWidth);
    RuleIsOneLine('=', RuleWidth);
    ThreeLines(rule, title, rule);
    Associate(Line(rule), Line(title), Line(rule));
  }

  /** A sub-section of a one-line title reads back as a blank line, the title and a rule. */
  lemma SubSectionLines(title: string)
    requires '\n' !in title
    ensures Split(SubSectionText(title), '\n') == ["", title, Repeat('-', RuleWidth), ""]
  {
    var rule := Repeat('-', RuleWidth);
    RuleIsOneLine('-', RuleWidth);
    ThreeLines([], title, rule);
    assert Line("\n" + title) == Line([]) + Line(title);
    Associate(Line([]), Line(title), Line(rule));
  }

  /**
   * The report buffer. `output` only ever grows; `table` adds to it only when a file path
   * was given, since the console copy of a table is not kept.
   */
  class OutputWriter {
    const filePath: Value
    const writeToFile: bool := Truthy(filePath)
    var output: string

    constructor Init(filePath: Value)
      ensures this.filePath == filePath
      ensures writeToFile <==> Truthy(filePath)
      ensures output == ""
    {
      this.filePath := filePath;
      this.output := "";
    }

    /** `write(text)`: appends the text and a newline. */
    method Write(text: string)
      modifies this
      ensures output == old(output) + Line(text)
      ensures old(output) <= output
    {
      output := output + Line(text);
    }

    /** `section(title)`: three writes, the title between two rules of '='. */
    method Section(title: string)
      modifies this
      ensures output == old(output) + SectionText(title)
      ensures old(output) <= output
    {
      var rule := Repeat('=', RuleWidth);
      Write(rule);
      Write(title);
      Write(rule);
    }

    /** `subSection(title)`: the title after a blank line, then a rule of '-'. */
    method SubSection(title: string)
      modifies this
      ensures output == old(output) + SubSectionText(title)
      ensures old(output) <= output
    {
      Write("\n" + title);
      Write(Repeat('-', RuleWidth));
    }

    /** `table(data)`, given the serialised table: kept only when writing to a file. */
    method Table(json: string)
      modifies this
      ensures writeToFile ==> output == old(output) + Line(json)
      ensures !writeToFile ==> output == old(output)
    {
      if writeToFile {
        output := output + Line(json);
      }
    }

    /** `save()`: the path written to when there is one, nothing otherwise. */
    method Save() returns (saved: Option<string>)
      ensures saved.Some? <==> writeToFile
      ensures saved.Some? ==> Str(saved.value) == filePath
    {
      if writeToFile {
        saved := Some(filePath.s);
      } else {
        saved := None;
      }
    }
  }

  /** How many projects carry each field, as the self-check tallies them. */
  datatype FieldStats = FieldStats(
    name: nat, url: nat, description: nat, language: nat, stars: nat, todayStars: nat)

  /** `fieldStats`: description and language are counted only when they are not the placeholder. */
  function FieldStatsOf(ps: seq<Validator.Project>): (r: FieldStats)
    ensures r.name <= |ps| && r.url <= |ps| && r.description <= |ps|
    ensures r.language <= |ps| && r.stars <= |ps| && r.todayStars <= |ps|
  {
    FieldStats(
      CountWhere(ps, (p: Validator.Project) => p.name != ""),
      CountWhere(ps, (p: Validator.Project) => p.url != ""),
      CountWhere(ps, (p: Validator.Project) => p.description != "" && p.description != Validator.NoDescription),
      CountWhere(ps, (p: Validator.Project) => p.language != "" && p.language != Validator.Unspecified),
      CountWhere(ps, (p: Validator.Project) => p.stars != ""),
      CountWhere(ps, (p: Validator.Project) => p.todayStars != ""))
  }

  /** Sanitised projects always carry a name and both star counts. */
  lemma NormalFieldStats(ps: seq<Validator.Project>)
    requires forall k :: 0 <= k < |ps| ==> Validator.IsNormal(ps[k])
    ensures FieldStatsOf(ps).name == |ps|
    ensures FieldStatsOf(ps).stars == |ps|
    ensures FieldStatsOf(ps).todayStars == |ps|
  {
    CountWhereAll(ps, (p: Validator.Project) => p.name != "");
    CountWhereAll(ps, (p: Validator.Project) => p.stars != "");
    CountWhereAll(ps, (p: Validator.Project) => p.todayStars != "");
  }

  /** `p.language || '未指定'`: the key a project is counted under. */
  function LanguageKey(p: Validator.Project): (k: string)
    ensures k != ""
    ensures p.language != "" ==> k == p.language
  {
    if p.language == "" then Validator.Unspecified else p.language
  }

  /** `count[k] || 0` */
  function Lookup(m: map<string, nat>, k: string): nat {
    if k in m then m[k] else 0
  }

  /** The language distribution after counting `ps` in order. */
  function Histogram(ps: seq<Validator.Project>): map<string, nat> {
    if ps == [] then map[]
    else
      var h := Histogram(ps[..|ps| - 1]);
      var k := LanguageKey(ps[|ps| - 1]);
      h[k := Lookup(h, k) + 1]
  }

  /** The number of projects counted under `lang`. */
  function Tally(ps: seq<Validator.Project>, lang: string): nat {
    CountWhere(ps, (p: Validator.Project) => LanguageKey(p) == lang)
  }

  /** Each language maps to the number of projects under it, and only counted languages appear. */
  lemma {:induction false} HistogramCounts(ps: seq<Validator.Project>, lang: string)
    ensures Lookup(Histogram(ps), lang) == Tally(ps, lang)
    ensures lang in Histogram(ps) <==> Tally(ps, lang) > 0
  {
    if ps != [] {
      HistogramCounts(ps[..|ps| - 1], lang);
    }
  }

  /** The languages in the order they were first counted (the key order of the counts object). */
  function Languages(ps: seq<Validator.Project>): (ks: seq<string>)
    ensures forall i, j :: 0 <= i < j < |ks| ==> ks[i] != ks[j]
  {
    if ps == [] then []
    else
      var ks := Languages(ps[..|ps| - 1]);
      var k := LanguageKey(ps[|ps| - 1]);
      if k in ks then ks else ks + [k]
  }

  /** The counted languages are exactly the keys of the distribution. */
  lemma {:induction false} LanguagesAreKeys(ps: seq<Validator.Project>)
    ensures forall k :: k in Languages(ps) <==> k in Histogram(ps)
  {
    if ps != [] {
      LanguagesAreKeys(ps[..|ps| - 1]);
    }
  }

  /** The sum of the counts of the keys `ks`. */
  function SumOver(m: map<string, nat>, ks: seq<string>): nat {
    if ks == [] then 0 else SumOver(m, ks[..|ks| - 1]) + Lookup(m, ks[|ks| - 1])
  }

  /** Changing the count of a key outside `ks` leaves their sum alone. */
  lemma {:induction false} SumOverOther(m: map<string, nat>, ks: seq<string>, k: string, v: nat)
    requires k !in ks
    ensures SumOver(m[k := v], ks) == SumOver(m, ks)
  {
    if ks != [] {
      SumOverOther(m, ks[..|ks| - 1], k, v);
    }
  }

  /** Adding one to the count of a key that occurs once in `ks` adds one to their sum. */
  lemma {:induction false} SumOverBump(m: map<string, nat>, ks: seq<string>, k: string)
    requires k in ks
    requires forall i, j :: 0 <= i < j < |ks| ==> ks[i] != ks[j]
    ensures SumOver(m[k := Lookup(m, k) + 1], ks) == SumOver(m, ks) + 1
  {
    var init := ks[..|ks| - 1];
    if ks[|ks| - 1] == k {
      assert k !in init;
      SumOverOther(m, init, k, Lookup(m, k) + 1);
    } else {
      SumOverBump(m, init, k);
    }
  }

  /** The language counts add up to the number of projects. */
  lemma {:induction false} HistogramTotal(ps: seq<Validator.Project>)
    ensures SumOver(Histogram(ps), Languages(ps)) == |ps|
  {
    if ps != [] {
      var init := ps[..|ps| - 1];
      var h := Histogram(init);
      var ks := Languages(init);
      var k := LanguageKey(ps[|ps| - 1]);
      HistogramTotal(init);
      LanguagesAreKeys(init);
      if k in ks {
        SumOverBump(h, ks, k);
      } else {
        SumOverOther(h, ks, k, 1);
        assert Languages(ps) == ks + [k];
        assert (ks + [k])[..|ks|] == ks;
      }
    }
  }

  /** `languageCount`: counts every project under its language in one pass. */
  method LanguageCount(ps: seq<Validator.Project>) returns (counts: map<string, nat>)
    ensures counts == Histogram(ps)
    ensures SumOver(counts, Languages(ps)) == |ps|
    ensures forall lang :: lang in counts <==> lang in Languages(ps)
    ensures forall lang :: lang in counts ==> counts[lang] == Tally(ps, lang) > 0
  {
    counts := map[];
    for i := 0 to |ps|
      invariant counts == Histogram(ps[..i])
    {
      assert ps[..i + 1][..i] == ps[..i];
      var lang := LanguageKey(ps[i]);
      counts := counts[lang := Lookup(counts, lang) + 1];
    }
    assert ps[..|ps|] == ps;
    HistogramTotal(ps);
    LanguagesAreKeys(ps);
    forall lang | lang in counts
      ensures counts[lang] == Tally(ps, lang) > 0
    {
      HistogramCounts(ps, lang);
    }
  }
}
