/** The few string operations the store code uses: ASCII lower case, and optional values. */
module Text {
  datatype Option<T> = None | Some(value: T)

  function LowerChar(c: char): char
  {
    if 'A' <= c <= 'Z' then c + ('a' - 'A') else c
  }

  /** `toLowerCase` on identifiers, addresses and hashes. */
  function Lower(s: string): (r: string)
    ensures |r| == |s|
  {
    seq(|s|, i requires 0 <= i < |s| => LowerChar(s[i]))
  }

  lemma LowerIdempotent(s: string)
    ensures Lower(Lower(s)) == Lower(s)
  {
  }
}
