/** The string operations the game uses on colour names, restricted to ASCII letters. */
module Text {

  function Upper(ch: char): char {
    if 'a' <= ch <= 'z' then (ch as int - 'a' as int + 'A' as int) as char else ch
  }

  function Lower(ch: char): char {
    if 'A' <= ch <= 'Z' then (ch as int - 'A' as int + 'a' as int) as char else ch
  }

  function LowerAll(s: string): (t: string)
    ensures |t| == |s|
    ensures forall i :: 0 <= i < |s| ==> t[i] == Lower(s[i])
  {
    if s == [] then [] else [Lower(s[0])] + LowerAll(s[1..])
  }

  /** Python's `str.capitalize`: the first character upper-cased, every other one lower-cased. */
  function Capitalize(s: string): (t: string)
    ensures |t| == |s|
    ensures |s| > 0 ==> t[0] == Upper(s[0])
    ensures forall i :: 0 < i < |s| ==> t[i] == Lower(s[i])
  {
    if s == [] then [] else [Upper(s[0])] + LowerAll(s[1..])
  }

  /** Capitalizing is idempotent: a capitalized name is already in capitalized form. */
  lemma CapitalizeIdempotent(s: string)
    ensures Capitalize(Capitalize(s)) == Capitalize(s)
  {
    var t := Capitalize(s);
    var u := Capitalize(t);
    assert |u| == |t|;
    forall i | 0 <= i < |t|
      ensures u[i] == t[i]
    {
      if i == 0 {
        assert Upper(Upper(s[0])) == Upper(s[0]);
      } else {
        assert Lower(Lower(s[i])) == Lower(s[i]);
      }
    }
  }

  /** The string `s` ends with the string `suffix`. */
  predicate EndsWith(s: string, suffix: string) {
    |suffix| <= |s| && s[|s| - |suffix|..] == suffix
  }
}
