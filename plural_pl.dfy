/**
 * The Polish plural rule as the program defines it: "one" for exactly
 * one and "few" for every other count (there is no "many" form).
 */
module PluralPl {
  function PluralForm(n: int): (form: string)
    ensures form == "one" || form == "few"
    ensures form == "one" <==> n == 1
  {
    if n == 1 then
      "one"
    else
      "few"
  }
}
