/** What the modules share. */
module Base {
  datatype Option<T> = None | Some(value: T) {
    function GetOr(default: T): T {
      if Some? then value else default
    }
  }

  /** Pieces one behind the other. */
  function Concat<T>(pieces: seq<seq<T>>): seq<T> {
    if pieces == [] then [] else Concat(pieces[..|pieces| - 1]) + pieces[|pieces| - 1]
  }

  /** Concatenation is associative, in the forms that are in use. */
  lemma Regroup<T>(a: seq<T>, b: seq<T>, c: seq<T>, d: seq<T>)
    ensures a + b + (c + d) == a + (b + c) + d == (a + b) + c + d == a + (b + (c + d))
    ensures a + b + c == a + (b + c)
  {
  }

  /** Text pat stands at position i of s. */
  predicate Occurs(s: string, i: nat, pat: string) {
    i + |pat| <= |s| && s[i..i + |pat|] == pat
  }

  /** ASCII only. */
  function Lower(c: char): char {
    if 'A' <= c <= 'Z' then c - 'A' + 'a' else c
  }

  /** No more than n characters of s. */
  function Cut(s: string, n: nat): string {
    if |s| <= n then s else s[..n]
  }
}
