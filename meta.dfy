/**
 * Citation keys (`generateCiteKey`) and the file extension `exportMeta`
 * gives an exported bibliography.
 *
 * A rule such as "author_year_title" names the parts of the key and the
 * connector between them: " " means the parts are run together in
 * PascalCase, "_" that they are joined by underscores.
 */
module Meta {
  import opened Wrappers
  import opened Strings
  import opened Models

  // ------------------------------------------------------- rule parsing

  /** The three leading parts of a split rule are present and non-empty. */
  predicate RuleHasThreeParts(keys: seq<string>) {
    |keys| >= 3 && keys[0] != "" && keys[1] != "" && keys[2] != ""
  }

  /** The parsed rule: " " when splitting on spaces gives three non-empty
      leading parts, otherwise "_" when splitting on underscores does;
      failing both, the underscore split with no connector. */
  function ParseRule(rule: string): (r: (seq<string>, string))
    ensures r.1 == " " <==> RuleHasThreeParts(Split(rule, ' '))
    ensures r.1 == "_" <==> !RuleHasThreeParts(Split(rule, ' ')) && RuleHasThreeParts(Split(rule, '_'))
    ensures r.1 == "" ==> r.0 == Split(rule, '_')
    ensures Join(r.0, if r.1 == "" then "_" else r.1) == rule
  {
    JoinSplit(rule, ' ');
    JoinSplit(rule, '_');
    var bySpace := Split(rule, ' ');
    if RuleHasThreeParts(bySpace) then (bySpace, " ")
    else
      var byUnderscore := Split(rule, '_');
      if RuleHasThreeParts(byUnderscore) then (byUnderscore, "_")
      else (byUnderscore, "")
  }

  // -------------------------------------------------------- author part

  /** The family name one author contributes: the lowercased family name;
      else, from the trimmed literal, its second space-separated word, or
      failing that the text before its first comma, or failing that the
      whole literal, lowercased; nothing when both are missing or empty. */
  function AuthorFamily(a: Author): (r: Option<string>)
    ensures r.Some? <==> (a.family.Some? && a.family.value != "") || (a.literal.Some? && a.literal.value != "")
    ensures a.family.Some? && a.family.value != "" ==> r == Some(Lower(a.family.value))
  {
    if a.family.Some? && a.family.value != "" then Some(Lower(a.family.value))
    else if a.literal.Some? && a.literal.value != "" then
      var literal := Trim(a.literal.value);
      var bySpace := Split(literal, ' ');
      var byComma := Split(literal, ',');
      if |bySpace| > 1 then Some(Lower(Trim(bySpace[1])))
      else if |byComma| > 1 then Some(Lower(Trim(byComma[0])))
      else Some(Lower(literal))
    else None
  }

  /** The family names of all named authors, in order. */
  function AllFamilies(authors: seq<Author>): (r: seq<string>)
    ensures |r| <= |authors|
    decreases |authors|
  {
    if |authors| == 0 then []
    else
      var last := AuthorFamily(authors[|authors| - 1]);
      AllFamilies(authors[..|authors| - 1]) + (if last.Some? then [last.value] else [])
  }

  lemma {:induction false} AllFamiliesPrefix(authors: seq<Author>, i: nat, j: nat)
    requires i <= j <= |authors|
    ensures |AllFamilies(authors[..i])| <= |AllFamilies(authors[..j])|
    ensures AllFamilies(authors[..i]) <= AllFamilies(authors[..j])
    decreases j - i
  {
    if i < j {
      AllFamiliesPrefix(authors, i, j - 1);
      assert authors[..j][..j - 1] == authors[..j - 1];
    }
  }

  /** The smallest prefix length after which two family names have been
      collected, if there is one. */
  predicate CollectsTwoAt(authors: seq<Author>, k: nat)
    requires k <= |authors|
  {
    |AllFamilies(authors[..k])| == 2 && forall j :: 0 <= j < k ==> |AllFamilies(authors[..j])| < 2
  }

  /** The family names used in a key: all of them, unless an author
      follows the point where two were collected, in which case those two
      and "etal". */
  ghost predicate IsKeyFamilies(authors: seq<Author>, r: seq<string>) {
    (exists k :: 0 <= k < |authors| && CollectsTwoAt(authors, k) && r == AllFamilies(authors[..k]) + ["etal"])
    || ((forall k :: 0 <= k < |authors| ==> |AllFamilies(authors[..k])| < 2) && r == AllFamilies(authors))
  }

  /** The loop over the authors: at most two family names, then "etal" as
      soon as a further author comes up. */
  method KeyFamilies(authors: seq<Author>) returns (r: seq<string>)
    ensures IsKeyFamilies(authors, r)
    ensures |r| <= 3
    ensures |r| == 3 ==> r[2] == "etal"
  {
    var familyNames: seq<string> := [];
    var i := 0;
    while i < |authors|
      invariant 0 <= i <= |authors|
      invariant familyNames == AllFamilies(authors[..i])
      invariant forall j :: 0 <= j < i ==> |AllFamilies(authors[..j])| < 2
      invariant |familyNames| <= 2
    {
      if |familyNames| == 2 {
        assert CollectsTwoAt(authors, i);
        return familyNames + ["etal"];
      }
      assert authors[..i + 1][..i] == authors[..i];
      var family := AuthorFamily(authors[i]);
      if family.Some? {
        familyNames := familyNames + [family.value];
      }
      i := i + 1;
    }
    assert authors[..i] == authors;
    return familyNames;
  }

  /** There is only one such list: the loop's result is determined. */
  lemma KeyFamiliesUnique(authors: seq<Author>, r1: seq<string>, r2: seq<string>)
    requires IsKeyFamilies(authors, r1) && IsKeyFamilies(authors, r2)
    ensures r1 == r2
  {
    if k1 :| 0 <= k1 < |authors| && CollectsTwoAt(authors, k1) && r1 == AllFamilies(authors[..k1]) + ["etal"] {
      if k2 :| 0 <= k2 < |authors| && CollectsTwoAt(authors, k2) && r2 == AllFamilies(authors[..k2]) + ["etal"] {
        assert k1 == k2;
      }
    }
  }

  /** With at most two named authors among all but the last, every family
      name is used and there is no "etal". */
  lemma KeyFamiliesFewAuthors(authors: seq<Author>, r: seq<string>)
    requires |authors| > 0 && |AllFamilies(authors[..|authors| - 1])| < 2
    requires IsKeyFamilies(authors, r)
    ensures r == AllFamilies(authors)
  {
    forall k | 0 <= k < |authors| ensures |AllFamilies(authors[..k])| < 2 {
      AllFamiliesPrefix(authors, k, |authors| - 1);
    }
  }

  /** The author part: "unknown" without authors, otherwise the family
      names joined by the connector with every space removed. */
  function AuthorPart(families: seq<string>, hasAuthors: bool, connector: string): (r: string)
    ensures !hasAuthors ==> r == "unknown"
    ensures hasAuthors ==> ' ' !in r
  {
    if !hasAuthors then "unknown" else RemoveChar(Join(families, connector), ' ')
  }

  // ----------------------------------------------------- year and title

  /** The year part: the first date part of `issued`, or "unknown" without
      `issued`; reading a date part that is not there throws. */
  function YearPart(issued: Option<seq<seq<int>>>): (r: Result<string>)
    ensures issued.None? ==> r == Ok("unknown")
    ensures r.Err? <==> issued.Some? && (|issued.value| == 0 || |issued.value[0]| == 0)
    ensures r.Ok? && issued.Some? ==> r.value == IntToString(issued.value[0][0])
  {
    match issued
    case None => Ok("unknown")
    case Some(dateParts) =>
      if |dateParts| == 0 || |dateParts[0]| == 0 then Err("TypeError: date part is undefined")
      else Ok(IntToString(dateParts[0][0]))
  }

  /** The characters the title regex `[,.:'"/?!~`\\|]` matches. */
  predicate IsSpecial(c: char) {
    c == ',' || c == '.' || c == ':' || c == '\'' || c == '"' || c == '/' || c == '?'
    || c == '!' || c == '~' || c == '`' || c == '\\' || c == '|'
  }

  /** `replace` with that non-global regex: only the first special
      character is removed. */
  function RemoveFirstSpecial(s: string): (r: string)
    ensures (forall i :: 0 <= i < |s| ==> !IsSpecial(s[i])) ==> r == s
    ensures (exists i :: 0 <= i < |s| && IsSpecial(s[i])) ==> |r| == |s| - 1
    decreases |s|
  {
    if |s| == 0 then s
    else if IsSpecial(s[0]) then s[1..]
    else [s[0]] + RemoveFirstSpecial(s[1..])
  }

  const STOP_WORDS: seq<string> := ["a", "an", "the", "on"]

  function NonStopWords(words: seq<string>): (r: seq<string>)
    ensures forall i :: 0 <= i < |r| ==> Lower(r[i]) !in STOP_WORDS
    ensures forall w :: w in r ==> w in words
    decreases |words|
  {
    if |words| == 0 then []
    else (if Lower(words[0]) in STOP_WORDS then [] else [words[0]]) + NonStopWords(words[1..])
  }

  /** The title part: with `longTitle`, the lowercased title with its
      words joined by the connector; otherwise its first word that is not
      a, an, the or on (in any case), lowercased. Only the first special
      character is removed. A title of stop words only has no first word,
      and reading it throws. */
  function TitlePart(title: string, connector: string, longTitle: bool): (r: Result<string>)
    ensures longTitle ==> r == Ok(RemoveFirstSpecial(Join(Split(Lower(title), ' '), connector)))
    ensures !longTitle ==> (r.Err? <==> |NonStopWords(Split(title, ' '))| == 0)
    ensures !longTitle && r.Ok? ==>
      var w := NonStopWords(Split(title, ' '))[0];
      w in Split(title, ' ') && Lower(w) !in STOP_WORDS && r.value == Lower(RemoveFirstSpecial(w))
  {
    if longTitle then Ok(RemoveFirstSpecial(Join(Split(Lower(title), ' '), connector)))
    else
      var words := NonStopWords(Split(title, ' '));
      if |words| == 0 then Err("TypeError: first word is undefined")
      else Ok(Lower(RemoveFirstSpecial(words[0])))
  }

  // -------------------------------------------------------- the key

  /** `parts[key]`; a key that names no part reads `undefined`, which
      `join` renders as "". */
  function PartFor(key: string, author: string, year: string, title: string): string {
    if key == "author" then author
    else if key == "year" then year
    else if key == "title" then title
    else ""
  }

  /** The regex `\w`. */
  predicate IsWordChar(c: char) {
    ('a' <= c <= 'z') || ('A' <= c <= 'Z') || ('0' <= c <= '9') || c == '_'
  }

  /** `replace(/(\w)(\w*)/g, …)`: the first character of every run of word
      characters is uppercased. */
  function PascalWords(s: string): (r: string)
    ensures |r| == |s|
    ensures forall i :: 0 <= i < |s| ==>
      r[i] == if IsWordChar(s[i]) && (i == 0 || !IsWordChar(s[i - 1])) then UpperChar(s[i]) else s[i]
  {
    seq(|s|, i requires 0 <= i < |s| =>
      if IsWordChar(s[i]) && (i == 0 || !IsWordChar(s[i - 1])) then UpperChar(s[i]) else s[i])
  }

  /** The key the parts give under a rule: the parts in rule order joined
      by the connector; with " ", in PascalCase and without spaces. */
  function AssembleKey(keys: seq<string>, connector: string, author: string, year: string, title: string): (r: string)
    ensures connector == " " ==> ' ' !in r
    ensures connector == " " ==>
      r == RemoveChar(PascalWords(Join(seq(|keys|, i requires 0 <= i < |keys| => PartFor(keys[i], author, year, title)), " ")), ' ')
    ensures connector != " " ==> r == Join(seq(|keys|, i requires 0 <= i < |keys| => PartFor(keys[i], author, year, title)), connector)
  {
    var citeKey := Join(seq(|keys|, i requires 0 <= i < |keys| => PartFor(keys[i], author, year, title)), connector);
    if connector == " " then RemoveChar(PascalWords(citeKey), ' ') else citeKey
  }

  /** The citation key of `meta` under `rule`, or the error that computing
      one throws. */
  function CiteKey(meta: Project, rule: string, longTitle: bool): (r: Result<string>)
    ensures r.Err? <==> YearPart(meta.issued).Err? || TitlePart(meta.title, ParseRule(rule).1, longTitle).Err?
  {
    var (keys, connector) := ParseRule(rule);
    var year := YearPart(meta.issued);
    var title := TitlePart(meta.title, connector, longTitle);
    if year.Err? then Err(year.error)
    else if title.Err? then Err(title.error)
    else
      var families := if |meta.author| > 0 then FamiliesOf(meta.author) else [];
      Ok(AssembleKey(keys, connector, AuthorPart(families, |meta.author| > 0, connector), year.value, title.value))
  }

  /** The family names `generateCiteKey` uses, as a function. */
  function FamiliesOf(authors: seq<Author>): (r: seq<string>)
    ensures IsKeyFamilies(authors, r)
  {
    if k :| 0 <= k < |authors| && CollectsTwoAt(authors, k) then AllFamilies(authors[..k]) + ["etal"]
    else
      assert forall k :: 0 <= k < |authors| ==> |AllFamilies(authors[..k])| < 2 by {
        forall k | 0 <= k < |authors| ensures |AllFamilies(authors[..k])| < 2 {
          if |AllFamilies(authors[..k])| >= 2 {
            FirstTwo(authors, k);
          }
        }
      }
      AllFamilies(authors)
  }

  /** Names are collected one at a time, so a prefix with two or more of
      them has a shortest prefix with exactly two. */
  lemma {:induction false} FirstTwo(authors: seq<Author>, k: nat)
    requires k <= |authors| && |AllFamilies(authors[..k])| >= 2
    ensures exists k' :: 0 <= k' <= k && CollectsTwoAt(authors, k')
    decreases k
  {
    assert k > 0;
    assert authors[..k][..k - 1] == authors[..k - 1];
    if |AllFamilies(authors[..k - 1])| >= 2 {
      FirstTwo(authors, k - 1);
    } else {
      forall j | 0 <= j < k ensures |AllFamilies(authors[..j])| < 2 {
        AllFamiliesPrefix(authors, j, k - 1);
      }
      assert CollectsTwoAt(authors, k);
    }
  }

  /** `generateCiteKey`: parses the rule in a loop over the two candidate
      connectors, collects the family names in a loop, and assembles the
      key. */
  method GenerateCiteKey(meta: Project, rule: string, longTitle: bool) returns (r: Result<string>)
    ensures r == CiteKey(meta, rule, longTitle)
  {
    var connector := "";
    var keys := ["author", "title", "year"];
    var symbols := [' ', '_'];
    var s := 0;
    while s < |symbols|
      invariant 0 <= s <= |symbols|
      invariant s == 0 ==> connector == ""
      invariant s == 1 ==> keys == Split(rule, ' ') && !RuleHasThreeParts(keys) && connector == ""
      invariant s == 2 ==> (keys, connector) == ParseRule(rule)
    {
      keys := Split(rule, symbols[s]);
      if RuleHasThreeParts(keys) {
        connector := [symbols[s]];
        break;
      }
      s := s + 1;
    }
    assert (keys, connector) == ParseRule(rule);

    var lastNames := "unknown";
    if |meta.author| > 0 {
      var familyNames := KeyFamilies(meta.author);
      KeyFamiliesUnique(meta.author, familyNames, FamiliesOf(meta.author));
      lastNames := RemoveChar(Join(familyNames, connector), ' ');
    }
    var year := YearPart(meta.issued);
    if year.Err? {
      return Err(year.error);
    }
    var title := TitlePart(meta.title, connector, longTitle);
    if title.Err? {
      return Err(title.error);
    }
    var citeKey := Join(seq(|keys|, i requires 0 <= i < |keys| => PartFor(keys[i], lastNames, year.value, title.value)), connector);
    if connector == " " {
      citeKey := RemoveChar(PascalWords(citeKey), ' ');
    }
    return Ok(citeKey);
  }

  // ----------------------------------------------------------- examples


  lemma DefaultRuleParses(rule: string)
    requires rule == "author" + "_" + "year" + "_" + "title"
    ensures ParseRule(rule) == (["author", "year", "title"], "_")
  {
    SplitWithoutSeparator(rule, ' ');
    SplitThree("author", "year", "title", '_');
  }

  lemma SingleAuthorTitleWord(title: string)
    requires title == "test" + " " + "title"
    ensures TitlePart(title, "_", false) == Ok("test")
  {
    SplitTwo("test", "title", ' ');
    assert Lower("test") == "test";
    assert NonStopWords(["test", "title"])[0] == "test";
    assert RemoveFirstSpecial("test") == "test";
  }

  lemma SingleAuthorFamilies(authors: seq<Author>)
    requires authors == [Author(Some("Feng"), Some("Hunt"), None)]
    ensures FamiliesOf(authors) == ["feng"]
  {
    var l := Lower("Feng");
    assert l[0] == 'f' && l[1] == 'e' && l[2] == 'n' && l[3] == 'g';
    assert l == "feng";
    assert AuthorFamily(authors[0]) == Some("feng");
    assert authors[..0] == [];
    assert AllFamilies(authors) == ["feng"];
    KeyFamiliesFewAuthors(authors, FamiliesOf(authors));
  }

  lemma YearExample(issued: Option<seq<seq<int>>>)
    requires issued == Some([[2023]])
    ensures YearPart(issued) == Ok("2023")
  {
    assert NatToString(2) == "2";
    assert NatToString(20) == "20";
    assert NatToString(202) == "202";
    assert NatToString(2023) == "2023";
  }

  lemma AssembleExample(keys: seq<string>)
    requires keys == ["author", "year", "title"]
    ensures AssembleKey(keys, "_", "feng", "2023", "test") == "feng_2023_test"
  {
    var parts := seq(|keys|, i requires 0 <= i < |keys| => PartFor(keys[i], "feng", "2023", "test"));
    assert parts == ["feng", "2023", "test"];
    assert parts[1..] == ["2023", "test"];
    assert parts[1..][1..] == ["test"];
    assert Join(parts[1..][1..], "_") == "test";
    assert Join(parts[1..], "_") == "2023" + "_" + "test";
    assert Join(parts, "_") == "feng" + "_" + ("2023" + "_" + "test");
  }

  /** With the " " connector the parts "feng", "2023" and "test" become
      "Feng2023Test". */
  lemma AssemblePascalExample(keys: seq<string>)
    requires keys == ["author", "year", "title"]
    ensures AssembleKey(keys, " ", "feng", "2023", "test") == "Feng2023Test"
  {
    var parts := seq(|keys|, i requires 0 <= i < |keys| => PartFor(keys[i], "feng", "2023", "test"));
    assert parts == ["feng", "2023", "test"];
    JoinedBySpace(parts);
    PascalExample();
    RemoveSpacesExample();
  }

  lemma JoinedBySpace(parts: seq<string>)
    requires parts == ["feng", "2023", "test"]
    ensures Join(parts, " ") == "feng 2023 test"
  {
    assert parts[1..] == ["2023", "test"];
    assert parts[1..][1..] == ["test"];
    assert Join(parts[1..][1..], " ") == "test";
    assert Join(parts[1..], " ") == "2023" + " " + "test";
  }

  lemma PascalExample()
    ensures PascalWords("feng 2023 test") == "Feng 2023 Test"
  {
    var pascal := PascalWords("feng 2023 test");
    forall i | 0 <= i < 14 ensures pascal[i] == "Feng 2023 Test"[i] {
    }
  }

  lemma RemoveSpacesExample()
    ensures RemoveChar("Feng 2023 Test", ' ') == "Feng2023Test"
  {
    assert ' ' !in "Feng" && ' ' !in "2023" && ' ' !in "Test";
    RemoveSpacesBetween("Feng", "2023", "Test");
    assert "Feng" + " " + "2023" + " " + "Test" == "Feng 2023 Test";
    PascalKeyParts();
  }

  lemma PascalKeyParts()
    ensures "Feng" + "2023" + "Test" == "Feng2023Test"
  {
  }

  /** Three words joined by spaces lose exactly those spaces. */
  lemma RemoveSpacesBetween(a: string, b: string, c: string)
    requires ' ' !in a && ' ' !in b && ' ' !in c
    ensures RemoveChar(a + " " + b + " " + c, ' ') == a + b + c
  {
    assert RemoveChar(" ", ' ') == "";
    RemoveCharAppend(a + " " + b + " ", c, ' ');
    RemoveCharAppend(a + " " + b, " ", ' ');
    RemoveCharAppend(a + " ", b, ' ');
    RemoveCharAppend(a, " ", ' ');
  }

  /** The default rule gives "feng_2023_test" for a paper by Feng from 2023
      titled "test title". */
  lemma CiteKeyExample(meta: Project, rule: string)
    requires meta == Project("", "", "test" + " " + "title", NoOriginalTitle, "",
                             [Author(Some("Feng"), Some("Hunt"), None)], Some([[2023]]),
                             0, 0, None, [], [], false, [], "article-journal")
    requires rule == "author" + "_" + "year" + "_" + "title"
    ensures CiteKey(meta, rule, false) == Ok("feng_2023_test")
  {
    DefaultRuleParses(rule);
    SingleAuthorTitleWord(meta.title);
    SingleAuthorFamilies(meta.author);
    YearExample(meta.issued);
    var author := AuthorPart(FamiliesOf(meta.author), true, "_");
    assert author == "feng";
    AssembleExample(["author", "year", "title"]);
  }

  // ------------------------------------------------------ exportMeta

  /** The extension `exportMeta` gives a citation format. */
  function ExportExtension(format: string): (r: string)
    ensures format == "bibtex" || format == "biblatex" ==> r == "bib"
    ensures format == "bibliography" ==> r == "txt"
    ensures format == "json" ==> r == "json"
    ensures format == "ris" ==> r == "ris"
    ensures format !in {"bibtex", "biblatex", "bibliography", "json", "ris"} ==> r == ""
  {
    if format == "bibtex" || format == "biblatex" then "bib"
    else if format == "bibliography" then "txt"
    else if format == "json" then "json"
    else if format == "ris" then "ris"
    else ""
  }

  /** The last `n` characters, as `slice(-n)`. */
  function Tail(s: string, n: nat): string {
    if |s| <= n then s else s[|s| - n..]
  }

  /** The saved path: ".ext" is appended unless the path's tail (the last
      five characters for json, the last four otherwise) already holds it. */
  function ExportPath(path: string, format: string): (r: string)
    ensures var dotExt := "." + ExportExtension(format);
            var tail := Tail(path, if format == "json" then 5 else 4);
            (Contains(tail, dotExt) ==> r == path) && (!Contains(tail, dotExt) ==> r == path + dotExt)
  {
    var dotExt := "." + ExportExtension(format);
    if IndexOf(Tail(path, if format == "json" then 5 else 4), dotExt) == -1 then path + dotExt else path
  }

  /** Saving twice appends the extension at most once. */
  lemma ExportPathIdempotent(path: string, format: string)
    ensures ExportPath(ExportPath(path, format), format) == ExportPath(path, format)
  {
    var dotExt := "." + ExportExtension(format);
    var n: nat := if format == "json" then 5 else 4;
    var p := ExportPath(path, format);
    if p != path {
      assert |dotExt| <= n;
      var t := Tail(p, n);
      assert t[|t| - |dotExt|..] == dotExt;
      SuffixContained(t, dotExt);
    }
  }

  lemma {:induction false} SuffixContained(s: string, p: string)
    requires |p| <= |s| && s[|s| - |p|..] == p
    ensures Contains(s, p)
    decreases |s|
  {
    if |p| < |s| {
      assert s[1..][|s[1..]| - |p|..] == p;
      SuffixContained(s[1..], p);
    } else {
      assert s[..|p|] == p;
    }
  }
}
