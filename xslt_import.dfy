/**
 * The XSLT importer's support functions (VuFind\XSLT\Import\VuFind) that decide something:
 * the sort-title article stripper, the parsing and lookup of a translation map, the choice
 * of full-text parser and the Aperture and Tika command lines. The fulltext.ini settings are
 * passed in; None is a setting that `isset` does not see.
 */
module XsltImport {
  import opened Wrappers
  import opened PhpText

  // ---------------------------------------------------------------- stripArticles

  /** The leading articles, tried in this order. */
  const Articles: seq<string> := ["a", "an", "the"]

  /** Removes one leading "a ", "an " or "the ", tried in that order, from a string that is
      already trimmed and lower-cased; anything else is returned as it is. */
  function StripLeadingArticle(t: string): (r: string)
    ensures t == r || t == "a " + r || t == "an " + r || t == "the " + r
    ensures r == t[|t| - |r|..]
    ensures !HasPrefix(t, "a ") && !HasPrefix(t, "an ") && !HasPrefix(t, "the ") ==> r == t
    ensures HasPrefix(t, "a ") ==> r == t[2..]
    ensures HasPrefix(t, "an ") ==> r == t[3..]
    ensures HasPrefix(t, "the ") ==> r == t[4..]
  {
    if HasPrefix(t, "a ") then
      assert t[..2] == "a " && t[0] == 'a' && t[1] == ' ';
      assert t == "a " + t[2..];
      t[2..]
    else if HasPrefix(t, "an ") then
      assert t[..3] == "an " && t[0] == 'a';
      assert t == "an " + t[3..];
      t[3..]
    else if HasPrefix(t, "the ") then
      assert t == "the " + t[4..];
      t[4..]
    else t
  }

  /** The sort form of a title: trimmed, lower-cased, and with one leading "a ", "an " or
      "the " removed when there is one. */
  function SortTitle(title: string): (r: string)
    ensures var t := ToLower(Trim(title));
            t == r || t == "a " + r || t == "an " + r || t == "the " + r
    ensures var t := ToLower(Trim(title));
            !HasPrefix(t, "a ") && !HasPrefix(t, "an ") && !HasPrefix(t, "the ") ==> r == t
    ensures var t := ToLower(Trim(title));
            (HasPrefix(t, "a ") ==> r == t[2..]) &&
            (HasPrefix(t, "an ") ==> r == t[3..]) &&
            (HasPrefix(t, "the ") ==> r == t[4..])
  {
    StripLeadingArticle(ToLower(Trim(title)))
  }

  /** A sort title has no upper-case letter left. */
  lemma SortTitleLower(title: string)
    ensures forall i :: 0 <= i < |SortTitle(title)| ==> !IsUpper(SortTitle(title)[i])
  {
    var t := ToLower(Trim(title));
    var r := SortTitle(title);
    var k := |t| - |r|;
    forall i | 0 <= i < |r|
      ensures !IsUpper(r[i])
    {
      SuffixIndex(t, k, k + i);
    }
  }

  /** `stripArticles`: lower-cases the trimmed title, then removes the first article that
      leads it followed by a space. */
  method StripArticles(title: string) returns (text: string)
    ensures text == SortTitle(title)
  {
    text := StripFirstArticle(ToLower(Trim(title)));
  }

  /** The loop of `stripArticles`: tries each article followed by a space and removes the
      first one that matches, stopping there. */
  method StripFirstArticle(t: string) returns (text: string)
    ensures text == StripLeadingArticle(t)
  {
    text := t;
    var i := 0;
    while i < |Articles|
      invariant 0 <= i <= |Articles|
      invariant text == t
      invariant forall j :: 0 <= j < i ==> !HasPrefix(t, Articles[j] + " ")
    {
      var a := Articles[i];
      if HasPrefix(text, a + " ") {
        FirstArticleStripped(t, i);
        text := text[|a| + 1..];
        break;
      }
      i := i + 1;
    }
    if i == |Articles| {
      NoArticleKept(t);
    }
  }

  /** The first article, followed by a space, that leads `t` is the one StripLeadingArticle removes. */
  lemma FirstArticleStripped(t: string, i: nat)
    requires i < |Articles| && HasPrefix(t, Articles[i] + " ")
    requires forall j :: 0 <= j < i ==> !HasPrefix(t, Articles[j] + " ")
    ensures StripLeadingArticle(t) == t[|Articles[i]| + 1..]
  {
    assert Articles[0] + " " == "a " && Articles[1] + " " == "an " && Articles[2] + " " == "the ";
  }

  /** When no article followed by a space leads `t`, StripLeadingArticle keeps it. */
  lemma NoArticleKept(t: string)
    requires forall j :: 0 <= j < |Articles| ==> !HasPrefix(t, Articles[j] + " ")
    ensures StripLeadingArticle(t) == t
  {
    assert Articles[0] + " " == "a " && Articles[1] + " " == "an " && Articles[2] + " " == "the ";
  }

  /** Only one article is removed: "the a tale" keeps its second article. */
  lemma SortTitleStripsOnce(s: string)
    requires s == "the a tale"
    ensures SortTitle(s) == "a tale"
  {
    assert Trimmed(s);
    assert ToLower(s) == s;
    assert s[0] == 't' && s[..4] == "the ";
    assert s[4..] == "a tale";
  }

  /** An article is removed only when a space follows it: "the" and "Theory" are only
      lower-cased. */
  lemma SortTitleNeedsSpace(s: string, u: string)
    requires s == "the" && u == "Theory"
    ensures SortTitle(s) == "the" && SortTitle(u) == "theory"
  {
    assert Trimmed(s) && Trimmed(u);
    assert ToLower(s) == s && ToLower(u) == "theory";
    assert !HasPrefix(s, "a ") && !HasPrefix(s, "an ") && !HasPrefix(s, "the ");
    var v := "theory";
    assert v[1] != ' ' && v[3] != ' ';
    assert !HasPrefix(v, "a ") && !HasPrefix(v, "an ") && !HasPrefix(v, "the ");
  }

  /** The sort titles of three well-known titles. */
  lemma SortTitleExamples(g: string, c: string, m: string)
    requires g == "The Great Gatsby" && c == " A Tale of Two Cities " && m == "Moby Dick"
    ensures SortTitle(g) == "great gatsby"
    ensures SortTitle(c) == "tale of two cities"
    ensures SortTitle(m) == "moby dick"
  {
    SortTitleGatsby(g);
    SortTitleCities(c);
    SortTitleMoby(m);
  }

  lemma SortTitleGatsby(g: string)
    requires g == "The Great Gatsby"
    ensures SortTitle(g) == "great gatsby"
  {
    assert Trimmed(g);
    var t := LowerGatsby(g);
    assert t[0] == 't' && t[..4] == "the ";
    assert t[4..] == "great gatsby";
  }

  lemma LowerGatsby(g: string) returns (lower: string)
    requires g == "The Great Gatsby"
    ensures lower == "the " + "great gatsby" && ToLower(g) == lower
  {
    lower := "the " + "great gatsby";
    assert g[0] == 'T' && g[4] == 'G' && g[10] == 'G';
    forall i | 0 <= i < |g|
      ensures ToLower(g)[i] == lower[i]
    {
    }
  }

  lemma SortTitleCities(c: string)
    requires c == " A Tale of Two Cities "
    ensures SortTitle(c) == "tale of two cities"
  {
    var t := TrimCities(c);
    var lower := LowerCities(t);
    assert lower[..2] == "a ";
    assert lower[2..] == "tale of two cities";
  }

  lemma LowerCities(t: string) returns (lower: string)
    requires t == "A Tale of Two Cities"
    ensures lower == "a " + "tale of two cities" && ToLower(t) == lower
  {
    lower := "a " + "tale of two cities";
    assert t[0] == 'A' && t[2] == 'T' && t[10] == 'T' && t[14] == 'C';
    forall i | 0 <= i < |t|
      ensures ToLower(t)[i] == lower[i]
    {
    }
  }

  lemma TrimCities(c: string) returns (t: string)
    requires c == " A Tale of Two Cities "
    ensures t == "A Tale of Two Cities" && Trim(c) == t
  {
    var l := c[1..];
    assert IsTrimChar(c[0]) && !IsTrimChar(l[0]);
    assert TrimLeft(c) == TrimLeft(l) == l;
    t := l[..|l| - 1];
    assert t == "A Tale of Two Cities";
    assert IsTrimChar(l[|l| - 1]) && !IsTrimChar(t[|t| - 1]);
    assert TrimRight(l) == TrimRight(t) == t;
  }

  lemma SortTitleMoby(m: string)
    requires m == "Moby Dick"
    ensures SortTitle(m) == "moby dick"
  {
    assert Trimmed(m);
    var t := "moby dick";
    assert ToLower(m) == t;
    assert !HasPrefix(t, "a ") && !HasPrefix(t, "an ") && !HasPrefix(t, "the ");
  }

  // ---------------------------------------------------------------- mapString

  /** One translation-map line: split at the first '=' only, key and value trimmed;
      a line without '=' defines nothing. */
  function ParseLine(line: string): (r: Option<(string, string)>)
    ensures r.None? <==> '=' !in line
    ensures r.Some? ==> '=' !in r.value.0 && Trimmed(r.value.0) && Trimmed(r.value.1)
  {
    match SplitFirst(line, '=')
    case None => None
    case Some(parts) =>
      TrimKeepsOut(parts.0, '=');
      Some((Trim(parts.0), Trim(parts.1)))
  }

  /** A defining line is split at its first '=': the key is the trimmed text before it and
      the value the trimmed text after it. */
  lemma ParseLineSplitsAtFirst(line: string)
    requires ParseLine(line).Some?
    ensures exists a, b :: line == a + "=" + b && '=' !in a && ParseLine(line).value == (Trim(a), Trim(b))
  {
    var parts := SplitFirst(line, '=').value;
    assert line == parts.0 + "=" + parts.1;
  }

  /** ParseLine in terms of the split it makes, as the loop of `mapString` uses it. */
  lemma ParseLineSplit(line: string)
    ensures SplitFirst(line, '=').None? ==> ParseLine(line).None?
    ensures SplitFirst(line, '=').Some? ==>
              ParseLine(line) == Some((Trim(SplitFirst(line, '=').value.0), Trim(SplitFirst(line, '=').value.1)))
  {
  }

  /** Trimming does not introduce a character that was not there. */
  lemma {:induction false} TrimKeepsOut(s: string, c: char)
    requires c !in s
    ensures c !in Trim(s)
  {
    SubsequenceKeepsOut(s, c);
  }

  lemma SubsequenceKeepsOut(s: string, c: char)
    requires c !in s
    ensures c !in TrimLeft(s) && c !in TrimRight(TrimLeft(s))
  {
    var l := TrimLeft(s);
    assert forall i :: 0 <= i < |l| ==> l[i] == s[|s| - |l| + i];
    var r := TrimRight(l);
    assert forall i :: 0 <= i < |r| ==> r[i] == l[i];
  }

  /** A parsed line: the key and value it defines, or None. */
  type Entry = Option<(string, string)>

  /** The map after one more parsed line: a defining line sets its key, overriding any
      earlier value; any other line leaves the map as it was. */
  function Insert(m: map<string, string>, e: Entry): map<string, string> {
    match e
    case None => m
    case Some(kv) => m[kv.0 := kv.1]
  }

  /** The map built from parsed lines, first line first. */
  function BuildMap(entries: seq<Entry>): map<string, string>
  {
    if entries == [] then map[] else Insert(BuildMap(entries[..|entries| - 1]), entries[|entries| - 1])
  }

  /** Building the map one more entry further. */
  lemma BuildMapSnoc(entries: seq<Entry>, i: nat)
    requires i < |entries|
    ensures BuildMap(entries[..i + 1]) == Insert(BuildMap(entries[..i]), entries[i])
  {
    assert entries[..i + 1][..i] == entries[..i];
  }

  /** Every line of a map file, parsed. */
  function ParseLines(lines: seq<string>): (entries: seq<Entry>)
    ensures |entries| == |lines|
    ensures forall i :: 0 <= i < |lines| ==> entries[i] == ParseLine(lines[i])
  {
    seq(|lines|, i requires 0 <= i < |lines| => ParseLine(lines[i]))
  }

  /** The translation map a file with these lines defines. */
  function TranslationMap(lines: seq<string>): map<string, string> {
    BuildMap(ParseLines(lines))
  }

  /** Whether a parsed line defines key `k`. */
  predicate Defines(e: Entry, k: string) {
    e.Some? && e.value.0 == k
  }

  /** A key is in the map iff some line defines it. */
  lemma {:induction false} BuildMapKeys(entries: seq<Entry>, k: string)
    ensures k in BuildMap(entries) <==> exists i :: 0 <= i < |entries| && Defines(entries[i], k)
    decreases |entries|
  {
    if entries != [] {
      var n := |entries| - 1;
      var init := entries[..n];
      BuildMapKeys(init, k);
      if exists i :: 0 <= i < |entries| && Defines(entries[i], k) {
        var i :| 0 <= i < |entries| && Defines(entries[i], k);
        if i < n {
          assert Defines(init[i], k);
        }
      }
      if exists i :: 0 <= i < n && Defines(init[i], k) {
        var i :| 0 <= i < n && Defines(init[i], k);
        assert Defines(entries[i], k);
      }
    }
  }

  /** The value of a key is the one given by the last line that defines it. */
  lemma {:induction false} BuildMapLastWins(entries: seq<Entry>, k: string)
    requires k in BuildMap(entries)
    ensures exists i :: 0 <= i < |entries| && entries[i] == Some((k, BuildMap(entries)[k])) &&
                        forall j :: i < j < |entries| ==> !Defines(entries[j], k)
    decreases |entries|
  {
    var n := |entries| - 1;
    var init := entries[..n];
    if !Defines(entries[n], k) {
      BuildMapLastWins(init, k);
      var i :| 0 <= i < n && init[i] == Some((k, BuildMap(init)[k])) &&
               forall j :: i < j < n ==> !Defines(init[j], k);
      assert entries[i] == init[i];
      forall j | i < j < |entries|
        ensures !Defines(entries[j], k)
      {
        if j < n {
          assert entries[j] == init[j];
        }
      }
    }
  }

  /** Lookup in a translation map, stated over the file's lines: a key is present iff some
      line defines it, and then its value is the one on the last line that defines it. */
  lemma TranslationMapLookup(lines: seq<string>, k: string)
    ensures k in TranslationMap(lines) <==> exists i :: 0 <= i < |lines| && Defines(ParseLine(lines[i]), k)
    ensures k in TranslationMap(lines) ==>
              exists i :: 0 <= i < |lines| && ParseLine(lines[i]) == Some((k, TranslationMap(lines)[k])) &&
                          forall j :: i < j < |lines| ==> !Defines(ParseLine(lines[j]), k)
  {
    var entries := ParseLines(lines);
    BuildMapKeys(entries, k);
    if k in TranslationMap(lines) {
      BuildMapLastWins(entries, k);
    }
  }

  /** `mapString` over the lines of the map file: reads every line into the map, then returns
      the mapped value of `input`, or `input` itself when no line defines that key. */
  method MapString(input: string, lines: seq<string>) returns (out: string)
    ensures var m := TranslationMap(lines);
            out == if input in m then m[input] else input
  {
    var table: map<string, string> := map[];
    ghost var entries := ParseLines(lines);
    for i := 0 to |lines|
      invariant table == BuildMap(entries[..i])
    {
      var parts := SplitFirst(lines[i], '=');
      ParseLineSplit(lines[i]);
      BuildMapSnoc(entries, i);
      if parts.Some? {
        var key := Trim(parts.value.0);
        table := table[key := Trim(parts.value.1)];
      }
    }
    assert entries[..|lines|] == entries;
    out := if input in table then table[input] else input;
  }

  // ---------------------------------------------------------------- fulltext.ini

  /** The fulltext.ini settings read here: General.parser, Aperture.webcrawler, Tika.path. */
  datatype FulltextConfig = FulltextConfig(
    parser: Option<string>,
    webcrawler: Option<string>,
    tikaPath: Option<string>)

  /** `getParser`: an explicit General.parser wins, else Aperture when its webcrawler is set,
      else Tika when its path is set, else "None". */
  function GetParser(settings: FulltextConfig): (r: string)
    ensures settings.parser.Some? ==> r == settings.parser.value
    ensures settings.parser.None? && settings.webcrawler.Some? ==> r == "Aperture"
    ensures settings.parser.None? && settings.webcrawler.None? && settings.tikaPath.Some? ==> r == "Tika"
    ensures r == "None" <==>
              settings.parser == Some("None") ||
              (settings.parser.None? && settings.webcrawler.None? && settings.tikaPath.None?)
  {
    if settings.parser.Some? then settings.parser.value
    else if settings.webcrawler.Some? then "Aperture"
    else if settings.tikaPath.Some? then "Tika"
    else "None"
  }

  /** `getApertureCommand`: "" when the webcrawler is not configured; otherwise the configured
      command with "webcrawler" replaced by the method, then " -o <output> -x <input>". */
  function GetApertureCommand(input: string, output: string, crawlMethod: string, settings: FulltextConfig): (r: string)
    ensures settings.webcrawler.None? <==> r == ""
    ensures settings.webcrawler.Some? ==>
              r == StrReplace(settings.webcrawler.value, "webcrawler", crawlMethod) + " -o " + output + " -x " + input
  {
    if settings.webcrawler.None? then ""
    else
      var cmd := settings.webcrawler.value;
      var cmd' := if crawlMethod != "webcrawler" then StrReplace(cmd, "webcrawler", crawlMethod) else cmd;
      cmd' + " -o " + output + " -x " + input
  }

  /** The process `getTikaCommand` describes: the command line, and the file standard output
      is written to (standard input and standard error are pipes). */
  datatype TikaInvocation = TikaInvocation(command: string, stdoutFile: string)

  /** `getTikaCommand`: nothing (the source's '') when Tika.path is not set; otherwise
      "java -jar <path> <arg> -eUTF8 <input>" with standard output sent to `output`. */
  function GetTikaCommand(input: string, output: string, arg: string, settings: FulltextConfig): (r: Option<TikaInvocation>)
    ensures r.None? <==> settings.tikaPath.None?
    ensures r.Some? ==> r.value.stdoutFile == output
    ensures r.Some? ==>
              r.value.command == "java -jar " + settings.tikaPath.value + " " + arg + " -eUTF8 " + input
  {
    match settings.tikaPath
    case None => None
    case Some(tika) => Some(TikaInvocation("java -jar " + tika + " " + arg + " -eUTF8 " + input, output))
  }
}
