/** Characters, and numbers in text. */
module Texts {
  /** The line separators of `str.splitlines`. */
  predicate Breaks(c: char) {
    '\n' <= c <= '\r' || '\U{001C}' <= c <= '\U{001E}' || c == '\U{0085}' || '\U{2028}' <= c <= '\U{2029}'
  }

  predicate IsDigit(c: char) {
    '0' <= c <= '9'
  }

  function Decimal(n: nat): (s: string)
    ensures s != "" && forall i :: 0 <= i < |s| ==> IsDigit(s[i])
  {
    var last := ['0' + (n % 10) as char];
    if n < 10 then last else Decimal(n / 10) + last
  }

  lemma {:induction false} Differs(prefix: string, line: string, i: nat)
    requires i < |prefix| && i < |line| && prefix[i] != line[i]
    ensures !(prefix <= line)
  {}
}
