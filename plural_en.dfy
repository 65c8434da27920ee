/** The English plural rule: "one" for exactly one, "other" for every other count. */
module PluralEn {
  function PluralForm(n: int): (form: string)
    ensures form == "one" || form == "other"
    ensures form == "one" <==> n == 1
  {
    if n == 1 then "one" else "other"
  }
}
