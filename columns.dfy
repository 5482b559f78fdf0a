/** The fragment table's cell formatting: the day suffix of the date and the short id. */
module Columns {

  /** The quotient JavaScript's `%` is taken against: `a / b` truncated toward zero. */
  function JsQuotient(a: int, b: int): int
    requires b != 0
  {
    if a >= 0 then a / b else -((-a) / b)
  }

  /** JavaScript's `%`: `a - b * trunc(a / b)`, so the remainder takes the sign of the dividend. */
  function JsRemainder(a: int, b: int): (r: int)
    requires b != 0
    ensures a == b * JsQuotient(a, b) + r
    ensures a >= 0 ==> 0 <= r < (if b > 0 then b else -b)
    ensures a < 0 ==> -(if b > 0 then b else -b) < r <= 0
  {
    if a >= 0 then a % b else -((-a) % b)
  }

  /** `ordinalSuffix` */
  function OrdinalSuffix(day: int): (suffix: string)
    ensures suffix == "st" || suffix == "nd" || suffix == "rd" || suffix == "th"
  {
    if day > 3 && day < 21 then "th"
    else
      var last := JsRemainder(day, 10);
      if last == 1 then "st"
      else if last == 2 then "nd"
      else if last == 3 then "rd"
      else "th"
  }

  /** The English rule: 11th, 12th and 13th, otherwise 1st, 2nd, 3rd by the last digit, else th. */
  function EnglishOrdinalSuffix(n: nat): string {
    if 11 <= n % 100 <= 13 then "th"
    else if n % 10 == 1 then "st"
    else if n % 10 == 2 then "nd"
    else if n % 10 == 3 then "rd"
    else "th"
  }

  /** Four to twenty take "th", the teens included. */
  lemma TeensTakeTh(day: int)
    requires 4 <= day <= 20
    ensures OrdinalSuffix(day) == "th"
  {
  }

  /** Outside 4..20 a non-negative day follows its last digit. */
  lemma SuffixFollowsLastDigit(day: int)
    requires day >= 0 && !(4 <= day <= 20)
    ensures OrdinalSuffix(day) == (if day % 10 == 1 then "st" else if day % 10 == 2 then "nd"
                                   else if day % 10 == 3 then "rd" else "th")
  {
  }

  /** For every day of a month the suffix is the English one. */
  lemma OrdinalSuffixIsEnglishForDays(day: int)
    requires 1 <= day <= 31
    ensures OrdinalSuffix(day) == EnglishOrdinalSuffix(day)
  {
    if 4 <= day <= 20 {
      assert OrdinalSuffix(day) == "th";
    } else {
      assert day % 100 == day;
    }
  }

  /** Negative inputs, which `getDate` never yields, all take "th" under truncating `%`. */
  lemma NegativeDaysTakeTh(day: int)
    requires day < 0
    ensures OrdinalSuffix(day) == "th"
  {
  }

  /** The id cell on narrow screens: ids over 30 characters become their first 20 and "...". */
  function ShortId(id: string): (shown: string)
    ensures |shown| <= 30
    ensures |id| <= 30 ==> shown == id
    ensures |id| > 30 ==> |shown| == 23 && shown[..20] == id[..20] && shown[20..] == "..."
  {
    if |id| > 30 then id[..20] + "..." else id
  }

  /** Shortening an already shortened id changes nothing. */
  lemma ShortIdIdempotent(id: string)
    ensures ShortId(ShortId(id)) == ShortId(id)
  {
  }
}
