/** The table of plural rules by language code, with English as the fallback. */
module Plural {
  import PluralEn
  import PluralPl

  const PluralRules: map<string, int -> string> := map[
    "pl" := PluralPl.PluralForm,
    "en" := PluralEn.PluralForm
  ]

  /** The table registers exactly Polish and English, each with its own rule. */
  lemma PluralRulesTable()
    ensures PluralRules.Keys == {"pl", "en"}
    ensures forall n :: PluralRules["pl"](n) == PluralPl.PluralForm(n)
    ensures forall n :: PluralRules["en"](n) == PluralEn.PluralForm(n)
  {
  }

  /** The rule registered for `lang`, or the English rule when the table has none. */
  function GetPluralForm(lang: string, n: int): (form: string)
    ensures lang in PluralRules ==> form == PluralRules[lang](n)
    ensures lang !in PluralRules ==> form == PluralEn.PluralForm(n)
  {
    if lang in PluralRules then PluralRules[lang](n) else PluralRules["en"](n)
  }

  /** The Polish and English codes select their own rules; any other code falls back to English. */
  lemma RuleSelection(lang: string, n: int)
    ensures lang == "pl" ==> GetPluralForm(lang, n) == PluralPl.PluralForm(n)
    ensures lang != "pl" ==> GetPluralForm(lang, n) == PluralEn.PluralForm(n)
  {
  }

  /** Every language says "one" for exactly one, and only ever answers "one", "few" or "other". */
  lemma FormsOfEveryLanguage(lang: string, n: int)
    ensures n == 1 ==> GetPluralForm(lang, n) == "one"
    ensures n != 1 ==> GetPluralForm(lang, n) != "one"
    ensures GetPluralForm(lang, n) in {"one", "few", "other"}
  {
  }

  /** No plural form contains the dot that separates translation key segments. */
  lemma FormHasNoDot(lang: string, n: int)
    ensures '.' !in GetPluralForm(lang, n)
  {
  }
}
