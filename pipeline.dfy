/**
  Language lookup tables of the CoreNLP client pipeline: normalisation of a
  language name or two-letter code to the full language name, the test for a
  supported language, and the default annotator list per language.
  Each lookup lower-cases its argument first; lower-casing is modelled on
  ASCII letters only.
 */
module Pipeline {

  // The `Lang` constants: six full names and their two-letter codes.
  const Arabic := "arabic"
  const Chinese := "chinese"
  const English := "english"
  const French := "french"
  const German := "german"
  const Spanish := "spanish"

  const ArabicShort := "ar"
  const ChineseShort := "zh"
  const EnglishShort := "en"
  const FrenchShort := "fr"
  const GermanShort := "de"
  const SpanishShort := "es"

  /** The full names, and at the same position the code of each. */
  const Languages: seq<string> := [Arabic, Chinese, English, French, German, Spanish]
  const ShortCodes: seq<string> := [ArabicShort, ChineseShort, EnglishShort, FrenchShort, GermanShort, SpanishShort]

  /** The default annotator lists, at the position of their language. */
  const DefaultAnnotators: seq<string> := [
    "tokenize,ssplit,pos,parse",
    "tokenize,ssplit,pos,lemma,ner,parse,coref",
    "tokenize,ssplit,pos,lemma,ner,depparse",
    "tokenize,ssplit,pos,depparse",
    "tokenize,ssplit,pos,ner,parse",
    "tokenize,ssplit,pos,lemma,ner,depparse,kbp"
  ]

  /** What every default annotator list starts with. */
  const CommonAnnotators := "tokenize,ssplit,pos"

  /** The twelve strings the lookups accept, once lower-cased. */
  predicate Supported(l: string) {
    || l == Arabic || l == ArabicShort
    || l == Chinese || l == ChineseShort
    || l == English || l == EnglishShort
    || l == French || l == FrenchShort
    || l == German || l == GermanShort
    || l == Spanish || l == SpanishShort
  }

  // ---------------------------------------------------------------------
  // Lower-casing

  predicate IsUpper(c: char) {
    'A' <= c <= 'Z'
  }

  /** `char.ToLower` restricted to ASCII: upper-case letters move down by 32. */
  function LowerChar(c: char): (d: char)
    ensures !IsUpper(d)
    ensures IsUpper(c) ==> d as int == c as int + 32
    ensures !IsUpper(c) ==> d == c
  {
    if IsUpper(c) then (c as int + 32) as char else c
  }

  /** `string.ToLower`: every character lower-cased, nothing else changed. */
  function ToLower(s: string): (r: string)
    ensures |r| == |s|
    ensures forall i :: 0 <= i < |s| ==> r[i] == LowerChar(s[i])
  {
    if s == [] then [] else [LowerChar(s[0])] + ToLower(s[1..])
  }

  predicate IsLowerCase(s: string) {
    forall i :: 0 <= i < |s| ==> !IsUpper(s[i])
  }

  /** Lower-casing a string that has no upper-case letter leaves it as it is. */
  lemma {:induction false} ToLowerOfLowerCase(s: string)
    requires IsLowerCase(s)
    ensures ToLower(s) == s
  {
    if s != [] {
      ToLowerOfLowerCase(s[1..]);
    }
  }

  /** Lower-casing twice is lower-casing once. */
  lemma ToLowerIdempotent(s: string)
    ensures ToLower(ToLower(s)) == ToLower(s)
  {
    ToLowerOfLowerCase(ToLower(s));
  }

  // ---------------------------------------------------------------------
  // The lookups. Each lower-cases its argument and switches over the twelve
  // constants; the switch itself is a function of the lower-cased string.

  /** The `switch` of GetLang. */
  function LangSwitch(l: string): string {
    if l == Arabic || l == ArabicShort then Arabic
    else if l == Chinese || l == ChineseShort then Chinese
    else if l == English || l == EnglishShort then English
    else if l == French || l == FrenchShort then French
    else if l == German || l == GermanShort then German
    else if l == Spanish || l == SpanishShort then Spanish
    else ""
  }

  /** The `switch` of IsLang. */
  function IsLangSwitch(l: string): bool {
    if l == Arabic || l == ArabicShort then true
    else if l == Chinese || l == ChineseShort then true
    else if l == English || l == EnglishShort then true
    else if l == French || l == FrenchShort then true
    else if l == German || l == GermanShort then true
    else if l == Spanish || l == SpanishShort then true
    else false
  }

  /** The `switch` of GetLangDefaultAnnotators. */
  function AnnotatorsSwitch(l: string): string {
    if l == Arabic || l == ArabicShort then "tokenize,ssplit,pos,parse"
    else if l == Chinese || l == ChineseShort then "tokenize,ssplit,pos,lemma,ner,parse,coref"
    else if l == English || l == EnglishShort then "tokenize,ssplit,pos,lemma,ner,depparse"
    else if l == French || l == FrenchShort then "tokenize,ssplit,pos,depparse"
    else if l == German || l == GermanShort then "tokenize,ssplit,pos,ner,parse"
    else if l == Spanish || l == SpanishShort then "tokenize,ssplit,pos,lemma,ner,depparse,kbp"
    else ""
  }

  /** `GetLang`: the full name a name or code stands for, or the empty string. */
  function GetLang(lang: string): (r: string)
    ensures r != "" <==> Supported(ToLower(lang))
    ensures r == "" || r in Languages
  {
    LangSwitch(ToLower(lang))
  }

  /** `IsLang`: whether the argument is one of the twelve, in any letter case. */
  function IsLang(lang: string): (b: bool)
    ensures b <==> Supported(ToLower(lang))
  {
    IsLangSwitch(ToLower(lang))
  }

  /** `GetLangDefaultAnnotators`: the annotator list sent for a language, or the empty string. */
  function GetLangDefaultAnnotators(lang: string): (r: string)
    ensures r != "" <==> Supported(ToLower(lang))
  {
    AnnotatorsSwitch(ToLower(lang))
  }

  // ---------------------------------------------------------------------
  // The table

  // Each of the six entries of the table, lower-cased by evaluation.
  lemma ArabicIsLowerCase() ensures ToLower(Arabic) == Arabic && ToLower(ArabicShort) == ArabicShort {}
  lemma ChineseIsLowerCase() ensures ToLower(Chinese) == Chinese && ToLower(ChineseShort) == ChineseShort {}
  lemma EnglishIsLowerCase() ensures ToLower(English) == English && ToLower(EnglishShort) == EnglishShort {}
  lemma FrenchIsLowerCase() ensures ToLower(French) == French && ToLower(FrenchShort) == FrenchShort {}
  lemma GermanIsLowerCase() ensures ToLower(German) == German && ToLower(GermanShort) == GermanShort {}
  lemma SpanishIsLowerCase() ensures ToLower(Spanish) == Spanish && ToLower(SpanishShort) == SpanishShort {}

  /** Entry i of the table, name and code, is written in lower case. */
  lemma TableEntryIsLowerCase(i: int)
    requires 0 <= i < |Languages|
    ensures ToLower(Languages[i]) == Languages[i]
    ensures ToLower(ShortCodes[i]) == ShortCodes[i]
  {
    if i == 0 { ArabicIsLowerCase(); }
    else if i == 1 { ChineseIsLowerCase(); }
    else if i == 2 { EnglishIsLowerCase(); }
    else if i == 3 { FrenchIsLowerCase(); }
    else if i == 4 { GermanIsLowerCase(); }
    else { SpanishIsLowerCase(); }
  }

  /** The three switches on entry i of the table, name and code alike. */
  lemma SwitchTable(l: string, i: int)
    requires 0 <= i < |Languages|
    requires l == Languages[i] || l == ShortCodes[i]
    ensures LangSwitch(l) == Languages[i]
    ensures IsLangSwitch(l)
    ensures AnnotatorsSwitch(l) == DefaultAnnotators[i]
  {
    if i == 0 {
      assert l == "arabic" || l == "ar";
    } else if i == 1 {
      assert l == "chinese" || l == "zh";
    } else if i == 2 {
      assert l == "english" || l == "en";
    } else if i == 3 {
      assert l == "french" || l == "fr";
    } else if i == 4 {
      assert l == "german" || l == "de";
    } else {
      assert l == "spanish" || l == "es";
    }
  }

  /** Every full name and every code, in any letter case, maps to its full name. */
  lemma GetLangTable(lang: string, i: int)
    requires 0 <= i < |Languages|
    requires ToLower(lang) == Languages[i] || ToLower(lang) == ShortCodes[i]
    ensures GetLang(lang) == Languages[i]
    ensures IsLang(lang)
  {
    SwitchTable(ToLower(lang), i);
  }

  /** The annotator list of entry i, for any letter case of its name or code. */
  lemma AnnotatorsTable(lang: string, i: int)
    requires 0 <= i < |Languages|
    requires ToLower(lang) == Languages[i] || ToLower(lang) == ShortCodes[i]
    ensures GetLangDefaultAnnotators(lang) == DefaultAnnotators[i]
  {
    SwitchTable(ToLower(lang), i);
  }

  /** Every annotator list of the table starts with tokenize, ssplit and pos. */
  lemma DefaultAnnotatorsStartWithCommon(i: int)
    requires 0 <= i < |DefaultAnnotators|
    ensures CommonAnnotators <= DefaultAnnotators[i]
  {
    if i == 0 {
      assert CommonAnnotators <= "tokenize,ssplit,pos,parse";
    } else if i == 1 {
      assert CommonAnnotators <= "tokenize,ssplit,pos,lemma,ner,parse,coref";
    } else if i == 2 {
      assert CommonAnnotators <= "tokenize,ssplit,pos,lemma,ner,depparse";
    } else if i == 3 {
      assert CommonAnnotators <= "tokenize,ssplit,pos,depparse";
    } else if i == 4 {
      assert CommonAnnotators <= "tokenize,ssplit,pos,ner,parse";
    } else {
      assert CommonAnnotators <= "tokenize,ssplit,pos,lemma,ner,depparse,kbp";
    }
  }

  /** Conversely, a name GetLang finds comes from one entry of the table. */
  lemma GetLangEntry(lang: string) returns (i: int)
    requires GetLang(lang) != ""
    ensures 0 <= i < |Languages|
    ensures ToLower(lang) == Languages[i] || ToLower(lang) == ShortCodes[i]
    ensures GetLang(lang) == Languages[i]
  {
    var l := ToLower(lang);
    if l == Arabic || l == ArabicShort { i := 0; }
    else if l == Chinese || l == ChineseShort { i := 1; }
    else if l == English || l == EnglishShort { i := 2; }
    else if l == French || l == FrenchShort { i := 3; }
    else if l == German || l == GermanShort { i := 4; }
    else { i := 5; }
  }

  /** In particular the twelve strings of the table themselves. */
  lemma GetLangOfTable()
    ensures forall i :: 0 <= i < |Languages| ==> GetLang(Languages[i]) == Languages[i]
    ensures forall i :: 0 <= i < |ShortCodes| ==> GetLang(ShortCodes[i]) == Languages[i]
  {
    forall i | 0 <= i < |Languages|
      ensures GetLang(Languages[i]) == Languages[i] && GetLang(ShortCodes[i]) == Languages[i]
    {
      TableEntryIsLowerCase(i);
      GetLangTable(Languages[i], i);
      GetLangTable(ShortCodes[i], i);
    }
  }

  /** An example of the case-insensitive match: "EN", "En" and "en" all name English. */
  lemma CaseInsensitiveExample()
    ensures GetLang("EN") == GetLang("En") == GetLang("en") == English
    ensures GetLangDefaultAnnotators("GERMAN") == "tokenize,ssplit,pos,ner,parse"
    ensures !IsLang("english ")
  {
    assert ToLower("EN") == "en";
    GetLangTable("EN", 2);
    assert ToLower("En") == "en";
    GetLangTable("En", 2);
    assert ToLower("en") == "en";
    GetLangTable("en", 2);
    assert ToLower("GERMAN") == "german";
    AnnotatorsTable("GERMAN", 4);
  }

  /** Each lookup sees only the lower-cased argument. */
  lemma LookupsIgnoreCase(lang: string)
    ensures GetLang(ToLower(lang)) == GetLang(lang)
    ensures IsLang(ToLower(lang)) == IsLang(lang)
    ensures GetLangDefaultAnnotators(ToLower(lang)) == GetLangDefaultAnnotators(lang)
  {
    ToLowerIdempotent(lang);
  }

  // ---------------------------------------------------------------------
  // Agreement of the three lookups

  /** IsLang holds exactly when GetLang finds a name. */
  lemma IsLangIffGetLang(lang: string)
    ensures IsLang(lang) <==> GetLang(lang) != ""
  {
  }

  /** GetLang is idempotent: a full name normalises to itself, and so does "". */
  lemma GetLangIdempotent(lang: string)
    ensures GetLang(GetLang(lang)) == GetLang(lang)
  {
    if GetLang(lang) != "" {
      var i := GetLangEntry(lang);
      TableEntryIsLowerCase(i);
      GetLangTable(Languages[i], i);
    } else {
      assert ToLower("") == "";
    }
  }

  /** A supported language has annotators, and an unsupported one has none. */
  lemma AnnotatorsIffIsLang(lang: string)
    ensures GetLangDefaultAnnotators(lang) != "" <==> IsLang(lang)
  {
  }

  /** Every non-empty annotator list starts with "tokenize,ssplit,pos". */
  lemma AnnotatorsStartWithCommon(lang: string)
    ensures GetLangDefaultAnnotators(lang) != "" ==> CommonAnnotators <= GetLangDefaultAnnotators(lang)
  {
    if GetLangDefaultAnnotators(lang) != "" {
      var i := GetLangEntry(lang);
      AnnotatorsTable(lang, i);
      DefaultAnnotatorsStartWithCommon(i);
    }
  }

  /** A code and its full name share the same annotators. */
  lemma AnnotatorsOfNormalisedName(lang: string)
    ensures GetLangDefaultAnnotators(GetLang(lang)) == GetLangDefaultAnnotators(lang)
  {
    if GetLang(lang) != "" {
      var i := GetLangEntry(lang);
      TableEntryIsLowerCase(i);
      AnnotatorsTable(Languages[i], i);
      AnnotatorsTable(lang, i);
    } else {
      assert ToLower("") == "";
    }
  }
}
