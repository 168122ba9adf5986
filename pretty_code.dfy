/** The display names of code-block languages: a table from lower-case
    alias to pretty name, and a lookup that falls back to the language as
    given (src/util/prettyCodeLanguageNames.ts:1-44). The table is a finite
    map; keys the JavaScript object would inherit from its prototype are
    not modelled. */
module PrettyCode {
  import opened TextModel

  /** `PRETTY_BY_ALIAS`. */
  const PrettyByAlias: map<string, string> := map[
    "js" := "JavaScript", "javascript" := "JavaScript",
    "ts" := "TypeScript", "typescript" := "TypeScript",
    "python" := "Python", "py" := "Python",
    "go" := "Go", "rust" := "Rust", "func" := "FunC", "c" := "C",
    "c++" := "C++", "cpp" := "C++",
    "fortran" := "Fortran", "f90" := "Fortran", "f" := "Fortran",
    "java" := "Java", "sql" := "SQL", "swift" := "Swift",
    "objective-c" := "Objective-C", "kotlin" := "Kotlin",
    "ruby" := "Ruby", "rb" := "Ruby", "php" := "PHP", "perl" := "Perl",
    "bash" := "Bash", "sh" := "Shell", "markdown" := "Markdown",
    "c#" := "C#", "cs" := "C#", "json" := "JSON",
    "yaml" := "YAML", "yml" := "YAML",
    "solidity" := "Solidity", "sol" := "Solidity", "tl" := "TL"
  ]

  /** The keys of the object literal in the order `Object.keys` lists them. */
  const AliasOrder: seq<string> := [
    "js", "javascript", "ts", "typescript", "python", "py",
    "go", "rust", "func", "c", "c++", "cpp",
    "fortran", "f90", "f", "java", "sql", "swift",
    "objective-c", "kotlin", "ruby", "rb", "php", "perl",
    "bash", "sh", "markdown", "c#", "cs", "json",
    "yaml", "yml", "solidity", "sol", "tl"
  ]

  /** The elements of `xs`, each once, first occurrence first: spreading a
      `Set` built from `xs`. */
  function Distinct(xs: seq<string>): (r: seq<string>)
    ensures forall x :: x in r <==> x in xs
    ensures forall i, j :: 0 <= i < j < |r| ==> r[i] != r[j]
  {
    if xs == [] then []
    else
      var rest := Distinct(xs[..|xs| - 1]);
      if xs[|xs| - 1] in rest then rest else rest + [xs[|xs| - 1]]
  }

  /** A list without repeats is its own set, order and all. */
  lemma {:induction false} DistinctOfDistinct(xs: seq<string>)
    requires forall i, j :: 0 <= i < j < |xs| ==> xs[i] != xs[j]
    ensures Distinct(xs) == xs
  {
    if xs != [] {
      var init := xs[..|xs| - 1];
      DistinctOfDistinct(init);
      assert xs[|xs| - 1] !in init by {
        forall k | 0 <= k < |init| ensures init[k] != xs[|xs| - 1] {
          assert init[k] == xs[k];
        }
      }
      assert xs == init + [xs[|xs| - 1]];
    }
  }

  /** `ALL_SUPPORTED_LANGUAGES`: every alias of the table, each once. */
  function AllSupportedLanguages(): (r: seq<string>)
    ensures forall i, j :: 0 <= i < j < |r| ==> r[i] != r[j]
    ensures forall alias :: alias in r <==> alias in PrettyByAlias
  {
    var r := Distinct(AliasOrder);
    assert forall alias :: alias in r <==> alias in PrettyByAlias by {
      forall alias
        ensures alias in AliasOrder <==> alias in PrettyByAlias
      {
        AliasOrderListsTheKeys(alias);
      }
    }
    r
  }

  lemma AliasOrderListsTheKeys(alias: string)
    ensures alias in AliasOrder <==> alias in PrettyByAlias
  {
  }

  /** `getPrettyCodeLanguageName`: the pretty name of the lower-cased
      language when that is an alias, otherwise the language unchanged. */
  function GetPrettyCodeLanguageName(codeLanguage: string): (r: string)
    ensures ToLower(codeLanguage) in PrettyByAlias ==> r == PrettyByAlias[ToLower(codeLanguage)]
    ensures ToLower(codeLanguage) !in PrettyByAlias ==> r == codeLanguage
  {
    var alias := ToLower(codeLanguage);
    if alias in PrettyByAlias then PrettyByAlias[alias] else codeLanguage
  }

  /** A string whose characters lower-case one by one to those of `t`
      lower-cases to `t`. */
  lemma LowerCaseOf(s: string, t: string)
    requires |s| == |t| && forall i :: 0 <= i < |s| ==> LowerAscii(s[i]) == t[i]
    ensures ToLower(s) == t
  {
  }

  /** The lookup ignores case: `cpp` and `C++` are both C++, and `JS` is
      JavaScript. */
  lemma PrettyNameExamples()
    ensures GetPrettyCodeLanguageName("cpp") == "C++"
    ensures GetPrettyCodeLanguageName("C++") == "C++"
    ensures GetPrettyCodeLanguageName("JS") == "JavaScript"
  {
    LowerCaseOf("cpp", "cpp");
    LowerCaseOf("C++", "c++");
    LowerCaseOf("JS", "js");
  }

  /** A language that is no alias keeps its own casing. */
  lemma UnknownLanguageExample()
    ensures GetPrettyCodeLanguageName("Haskell") == "Haskell"
  {
    LowerCaseOf("Haskell", "haskell");
  }

  /** Every value of the table is one of these names. */
  lemma PrettyNames(alias: string)
    requires alias in PrettyByAlias
    ensures PrettyByAlias[alias] in {"JavaScript", "TypeScript", "Python", "Go", "Rust", "FunC", "C", "C++", "Fortran", "Java", "SQL", "Swift", "Objective-C", "Kotlin", "Ruby", "PHP", "Perl", "Bash", "Shell", "Markdown", "C#", "JSON", "YAML", "Solidity", "TL"}
  {
  }

  // PrettyNamesAreFixed0 to PrettyNamesAreFixed8 split one fact, that
  // every display name names itself, three names at a time, so that each
  // proof obligation about the alias table stays small;
  // PrettyNameIsIdempotent puts them together.

  /** JavaScript, Go, C each name themselves. */
  lemma PrettyNamesAreFixed0(v: string)
    requires v in {"JavaScript", "Go", "C"}
    ensures GetPrettyCodeLanguageName(v) == v
  {
    if v == "JavaScript" {
      LowerCaseOf(v, "javascript");
    }     else if v == "Go" {
      LowerCaseOf(v, "go");
    }     else if v == "C" {
      LowerCaseOf(v, "c");
    }
  }

  /** TypeScript, Rust, C++ each name themselves. */
  lemma PrettyNamesAreFixed1(v: string)
    requires v in {"TypeScript", "Rust", "C++"}
    ensures GetPrettyCodeLanguageName(v) == v
  {
    if v == "TypeScript" {
      LowerCaseOf(v, "typescript");
    }     else if v == "Rust" {
      LowerCaseOf(v, "rust");
    }     else if v == "C++" {
      LowerCaseOf(v, "c++");
    }
  }

  /** Objective-C, FunC, SQL each name themselves. */
  lemma PrettyNamesAreFixed2(v: string)
    requires v in {"Objective-C", "FunC", "SQL"}
    ensures GetPrettyCodeLanguageName(v) == v
  {
    if v == "Objective-C" {
      LowerCaseOf(v, "objective-c");
    }     else if v == "FunC" {
      LowerCaseOf(v, "func");
    }     else if v == "SQL" {
      LowerCaseOf(v, "sql");
    }
  }

  /** Python, Java, PHP each name themselves. */
  lemma PrettyNamesAreFixed3(v: string)
    requires v in {"Python", "Java", "PHP"}
    ensures GetPrettyCodeLanguageName(v) == v
  {
    if v == "Python" {
      LowerCaseOf(v, "python");
    }     else if v == "Java" {
      LowerCaseOf(v, "java");
    }     else if v == "PHP" {
      LowerCaseOf(v, "php");
    }
  }

  /** Fortran, Swift, Perl each name themselves. */
  lemma PrettyNamesAreFixed4(v: string)
    requires v in {"Fortran", "Swift", "Perl"}
    ensures GetPrettyCodeLanguageName(v) == v
  {
    if v == "Fortran" {
      LowerCaseOf(v, "fortran");
    }     else if v == "Swift" {
      LowerCaseOf(v, "swift");
    }     else if v == "Perl" {
      LowerCaseOf(v, "perl");
    }
  }

  /** Kotlin, Ruby, Bash each name themselves. */
  lemma PrettyNamesAreFixed5(v: string)
    requires v in {"Kotlin", "Ruby", "Bash"}
    ensures GetPrettyCodeLanguageName(v) == v
  {
    if v == "Kotlin" {
      LowerCaseOf(v, "kotlin");
    }     else if v == "Ruby" {
      LowerCaseOf(v, "ruby");
    }     else if v == "Bash" {
      LowerCaseOf(v, "bash");
    }
  }

  /** Shell, C#, TL each name themselves, or are no alias. */
  lemma PrettyNamesAreFixed6(v: string)
    requires v in {"Shell", "C#", "TL"}
    ensures GetPrettyCodeLanguageName(v) == v
  {
    if v == "Shell" {
      LowerCaseOf(v, "shell");
    }     else if v == "C#" {
      LowerCaseOf(v, "c#");
    }     else if v == "TL" {
      LowerCaseOf(v, "tl");
    }
  }

  /** Markdown, JSON each name themselves. */
  lemma PrettyNamesAreFixed7(v: string)
    requires v in {"Markdown", "JSON"}
    ensures GetPrettyCodeLanguageName(v) == v
  {
    if v == "Markdown" {
      LowerCaseOf(v, "markdown");
    }     else if v == "JSON" {
      LowerCaseOf(v, "json");
    }
  }

  /** Solidity, YAML each name themselves. */
  lemma PrettyNamesAreFixed8(v: string)
    requires v in {"Solidity", "YAML"}
    ensures GetPrettyCodeLanguageName(v) == v
  {
    if v == "Solidity" {
      LowerCaseOf(v, "solidity");
    }     else if v == "YAML" {
      LowerCaseOf(v, "yaml");
    }
  }

  /** Looking up a looked-up name changes nothing: every pretty name is
      its own pretty name or no alias at all. */
  lemma PrettyNameIsIdempotent(codeLanguage: string)
    ensures GetPrettyCodeLanguageName(GetPrettyCodeLanguageName(codeLanguage)) == GetPrettyCodeLanguageName(codeLanguage)
  {
    var alias := ToLower(codeLanguage);
    if alias in PrettyByAlias {
      var v := PrettyByAlias[alias];
      PrettyNames(alias);
      if v in {"JavaScript", "Go", "C"} {
        PrettyNamesAreFixed0(v);
      } else if v in {"TypeScript", "Rust", "C++"} {
        PrettyNamesAreFixed1(v);
      } else if v in {"Objective-C", "FunC", "SQL"} {
        PrettyNamesAreFixed2(v);
      } else if v in {"Python", "Java", "PHP"} {
        PrettyNamesAreFixed3(v);
      } else if v in {"Fortran", "Swift", "Perl"} {
        PrettyNamesAreFixed4(v);
      } else if v in {"Kotlin", "Ruby", "Bash"} {
        PrettyNamesAreFixed5(v);
      } else if v in {"Shell", "C#", "TL"} {
        PrettyNamesAreFixed6(v);
      } else if v in {"Markdown", "JSON"} {
        PrettyNamesAreFixed7(v);
      } else {
        PrettyNamesAreFixed8(v);
      }
    }
  }
}
