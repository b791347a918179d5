/** Decimal rendering of counts, as JavaScript's template literals render a
    non-negative integer, and the matching parser used to read a count back
    out of a message. */
module Text {
  import opened Wrappers

  predicate IsDigit(ch: char)
  {
    '0' <= ch <= '9'
  }

  predicate AllDigits(s: string)
  {
    forall i :: 0 <= i < |s| ==> IsDigit(s[i])
  }

  /** The decimal digits of `n`, most significant first, without leading zeros. */
  function Show(n: nat): (s: string)
    ensures |s| >= 1 && AllDigits(s)
    ensures |s| > 1 ==> s[0] != '0'
    decreases n
  {
    if n < 10 then [(48 + n) as char] else Show(n / 10) + [(48 + n % 10) as char]
  }

  /** The value of a string of decimal digits. */
  function Parse(s: string): nat
    requires AllDigits(s)
    decreases |s|
  {
    if s == [] then 0 else 10 * Parse(s[..|s| - 1]) + (s[|s| - 1] as int - 48)
  }

  /** Parsing undoes rendering. */
  lemma {:induction false} ParseShow(n: nat)
    ensures Parse(Show(n)) == n
    decreases n
  {
    if n >= 10 {
      var s := Show(n);
      assert s[..|s| - 1] == Show(n / 10);
      ParseShow(n / 10);
    }
  }

  /** The count written between `prefix` and `suffix` in `text`, if `text`
      has that shape. */
  function Between(text: string, prefix: string, suffix: string): Option<nat>
  {
    if |text| >= |prefix| + |suffix| && text[..|prefix|] == prefix && text[|text| - |suffix|..] == suffix
       && |text| > |prefix| + |suffix| && AllDigits(text[|prefix|..|text| - |suffix|])
    then Some(Parse(text[|prefix|..|text| - |suffix|]))
    else None
  }

  /** Reading a count back from a message built around it gives the count. */
  lemma BetweenShow(prefix: string, n: nat, suffix: string)
    ensures Between(prefix + Show(n) + suffix, prefix, suffix) == Some(n)
  {
    var t := prefix + Show(n) + suffix;
    assert t[..|prefix|] == prefix;
    assert t[|t| - |suffix|..] == suffix;
    assert t[|prefix|..|t| - |suffix|] == Show(n);
    ParseShow(n);
  }
}
