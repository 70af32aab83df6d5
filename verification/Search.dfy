/** Finding a character in a string. */
module Search {
  import opened Options

  function IndexOf(s: string, c: char): (n: nat)
    ensures n <= |s| && (forall i | 0 <= i < n :: s[i] != c) && (n < |s| ==> s[n] == c)
  {
    if s == [] || s[0] == c then 0 else 1 + IndexOf(s[1..], c)
  }

  function LastIndex(s: string, c: char): (r: Option<nat>)
    ensures r.None? ==> forall i | 0 <= i < |s| :: s[i] != c
    ensures r.Some? ==> r.value < |s| && s[r.value] == c && forall i | r.value < i < |s| :: s[i] != c
  {
    if s == [] then None
    else if s[|s| - 1] == c then Some(|s| - 1)
    else LastIndex(s[..|s| - 1], c)
  }

  predicate Has(s: string, c: char) {
    exists i | 0 <= i < |s| :: s[i] == c
  }
}
