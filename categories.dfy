/** Category selection of the package organiser (modules/core_organizer.py):
    a first-match lookup of a file name in the two ordered tables of the
    configuration document. */
module Categories {
  import opened Base
  import opened Names

  /** One entry of `config['categories']`. `color` and `icon` are kept as the
      JSON text of their values. */
  datatype Category = Category(name: string, extensions: seq<string>, color: string, icon: string)

  /** One entry of `config['executable_rules']`. */
  datatype ExecutableRule = ExecutableRule(name: string, patterns: seq<string>)

  datatype Config = Config(categories: seq<Category>, executableRules: seq<ExecutableRule>)

  /** JSON objects have unique keys: category names are distinct. */
  predicate UniqueNames(cats: seq<Category>)
  {
    forall i, j :: 0 <= i < j < |cats| ==> cats[i].name != cats[j].name
  }

  /** `_load_config`: `document` is what opening and parsing the file gave,
      the configuration or the exception raised on the way (FileNotFoundError,
      PermissionError, a JSON decoding error). Any such exception is replaced
      by a RuntimeError whose message carries the original one. */
  function LoadConfig(document: Result<Config>): (r: Result<Config>)
    ensures r.Ok? <==> document.Ok?
    ensures document.Ok? ==> r.value == document.value
    ensures document.Err? ==>
              r.failure == RuntimeError("Config load failed: " + Describe(document.failure))
  {
    match document
    case Err(f) => Err(RuntimeError("Config load failed: " + Describe(f)))
    case Ok(c) => Ok(c)
  }

  predicate HitsPattern(rule: ExecutableRule, stem: string)
  {
    exists p :: p in rule.patterns && Contains(stem, p)
  }

  /** Index of the first category whose extension list holds `ext`. */
  function FirstByExtension(cats: seq<Category>, ext: string): (r: Option<nat>)
    ensures r.Some? ==> r.value < |cats| && ext in cats[r.value].extensions
    ensures r.Some? ==> forall j :: 0 <= j < r.value ==> ext !in cats[j].extensions
    ensures r.None? <==> forall j :: 0 <= j < |cats| ==> ext !in cats[j].extensions
    decreases |cats|
  {
    if cats == [] then None
    else if ext in cats[0].extensions then Some(0)
    else match FirstByExtension(cats[1..], ext)
      case None => None
      case Some(i) => Some(i + 1)
  }

  /** Index of the first executable rule with a pattern inside `stem`. */
  function FirstByPattern(rules: seq<ExecutableRule>, stem: string): (r: Option<nat>)
    ensures r.Some? ==> r.value < |rules| && HitsPattern(rules[r.value], stem)
    ensures r.Some? ==> forall j :: 0 <= j < r.value ==> !HitsPattern(rules[j], stem)
    ensures r.None? <==> forall j :: 0 <= j < |rules| ==> !HitsPattern(rules[j], stem)
    decreases |rules|
  {
    if rules == [] then None
    else if HitsPattern(rules[0], stem) then Some(0)
    else match FirstByPattern(rules[1..], stem)
      case None => None
      case Some(i) => Some(i + 1)
  }

  /** `_categorize_executable`: the first executable rule, in table order,
      with a pattern occurring in the lower-cased stem; else "Executables". */
  function CategorizeExecutable(cfg: Config, name: string): string
  {
    match FirstByPattern(cfg.executableRules, Lower(Stem(name)))
    case Some(i) => cfg.executableRules[i].name
    case None => "Executables"
  }

  /** `_determine_category`: a `.exe` file (in any case) is classified by the
      executable rules alone; any other file by the first category, in table
      order, listing its lower-cased suffix; else "Uncategorized". */
  function DetermineCategory(cfg: Config, name: string): string
  {
    var ext := Lower(Suffix(name));
    if ext == ".exe" then CategorizeExecutable(cfg, name)
    else match FirstByExtension(cfg.categories, ext)
      case Some(i) => cfg.categories[i].name
      case None => "Uncategorized"
  }

  /** An executable goes to the first rule with a pattern in its lower-cased
      stem, or to "Executables" when no rule has one. */
  lemma CategorizeExecutableSpec(cfg: Config, name: string)
    ensures var r := CategorizeExecutable(cfg, name);
      (exists i :: 0 <= i < |cfg.executableRules| &&
         HitsPattern(cfg.executableRules[i], Lower(Stem(name))) &&
         (forall j :: 0 <= j < i ==> !HitsPattern(cfg.executableRules[j], Lower(Stem(name)))) &&
         r == cfg.executableRules[i].name)
      || ((forall j :: 0 <= j < |cfg.executableRules| ==>
             !HitsPattern(cfg.executableRules[j], Lower(Stem(name)))) &&
          r == "Executables")
  {
    match FirstByPattern(cfg.executableRules, Lower(Stem(name)))
    case None =>
    case Some(i) =>
      assert CategorizeExecutable(cfg, name) == cfg.executableRules[i].name;
  }

  /** Any other file goes to the first category listing its lower-cased
      suffix, or to "Uncategorized" when none lists it. */
  lemma DetermineCategorySpec(cfg: Config, name: string)
    ensures Lower(Suffix(name)) == ".exe" ==> DetermineCategory(cfg, name) == CategorizeExecutable(cfg, name)
    ensures Lower(Suffix(name)) != ".exe" ==>
      var ext := Lower(Suffix(name));
      var r := DetermineCategory(cfg, name);
      (exists i :: 0 <= i < |cfg.categories| && ext in cfg.categories[i].extensions &&
         (forall j :: 0 <= j < i ==> ext !in cfg.categories[j].extensions) &&
         r == cfg.categories[i].name)
      || ((forall j :: 0 <= j < |cfg.categories| ==> ext !in cfg.categories[j].extensions) &&
          r == "Uncategorized")
  {
    var ext := Lower(Suffix(name));
    if ext != ".exe" {
      match FirstByExtension(cfg.categories, ext)
      case None =>
      case Some(i) =>
        assert DetermineCategory(cfg, name) == cfg.categories[i].name;
    }
  }

  /** An executable's category does not depend on the extension table: two
      configurations with the same executable rules classify it alike. */
  lemma ExecutableIgnoresExtensionTable(cfg1: Config, cfg2: Config, name: string)
    requires cfg1.executableRules == cfg2.executableRules
    requires Lower(Suffix(name)) == ".exe"
    ensures DetermineCategory(cfg1, name) == DetermineCategory(cfg2, name)
    ensures DetermineCategory(cfg1, name) == "Executables" ||
            exists i :: 0 <= i < |cfg1.executableRules| &&
              DetermineCategory(cfg1, name) == cfg1.executableRules[i].name
  {
    CategorizeExecutableSpec(cfg1, name);
  }

  predicate HasUpper(s: string)
  {
    exists k :: 0 <= k < |s| && IsUpper(s[k])
  }

  /** Extension lists are not lower-cased: an entry with an upper-case letter
      never equals a lower-cased suffix. */
  lemma {:induction false} UpperCaseEntryNeverMatches(name: string, e: string)
    requires HasUpper(e)
    ensures Lower(Suffix(name)) != e
  {
    var ext := Lower(Suffix(name));
    var k :| 0 <= k < |e| && IsUpper(e[k]);
    assert k < |ext| ==> !IsUpper(ext[k]);
  }

  /** Two category tables that agree on their names and on whether each
      category lists `ext` select the same category for it. */
  lemma {:induction false} FirstByExtensionAgree(c1: seq<Category>, c2: seq<Category>, ext: string)
    requires |c1| == |c2|
    requires forall j :: 0 <= j < |c1| ==> (ext in c1[j].extensions <==> ext in c2[j].extensions)
    ensures FirstByExtension(c1, ext) == FirstByExtension(c2, ext)
    decreases |c1|
  {
    if c1 != [] {
      FirstByExtensionAgree(c1[1..], c2[1..], ext);
    }
  }

  /** An upper-case entry is dead: dropping it from its category's list
      changes the category of no file. */
  lemma UpperCaseEntryIsDead(cfg: Config, name: string, i: nat, pre: seq<string>, e: string, post: seq<string>)
    requires i < |cfg.categories| && cfg.categories[i].extensions == pre + [e] + post
    requires HasUpper(e)
    ensures var cats := cfg.categories[i := cfg.categories[i].(extensions := pre + post)];
      DetermineCategory(cfg, name) == DetermineCategory(cfg.(categories := cats), name)
  {
    var cats := cfg.categories[i := cfg.categories[i].(extensions := pre + post)];
    var ext := Lower(Suffix(name));
    UpperCaseEntryNeverMatches(name, e);
    assert ext in cfg.categories[i].extensions <==> ext in cats[i].extensions;
    FirstByExtensionAgree(cfg.categories, cats, ext);
  }

  /** Hence a category listing only entries with an upper-case letter is
      never the one the lookup selects. */
  lemma {:induction false} UpperCaseCategoryNeverChosen(cfg: Config, name: string, i: nat)
    requires i < |cfg.categories|
    requires forall e :: e in cfg.categories[i].extensions ==> HasUpper(e)
    ensures FirstByExtension(cfg.categories, Lower(Suffix(name))) != Some(i)
  {
    var ext := Lower(Suffix(name));
    if ext in cfg.categories[i].extensions {
      UpperCaseEntryNeverMatches(name, ext);
    }
  }

  /** An extension claimed by exactly one category selects that category,
      whatever the rest of the name. */
  lemma {:induction false} SoleOwnerSelected(cfg: Config, name: string, i: nat)
    requires i < |cfg.categories|
    requires Lower(Suffix(name)) != ".exe"
    requires Lower(Suffix(name)) in cfg.categories[i].extensions
    requires forall j :: 0 <= j < |cfg.categories| && j != i ==> Lower(Suffix(name)) !in cfg.categories[j].extensions
    ensures DetermineCategory(cfg, name) == cfg.categories[i].name
  {
  }
}
