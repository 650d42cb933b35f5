/** Slicing facts about concatenations. */
module Seqs {
  lemma {:induction false} DropAppend<T>(a: seq<T>, b: seq<T>)
    ensures (a + b)[..|a|] == a && (a + b)[|a|..] == b
  {}

  lemma {:induction false} SliceAppend<T>(a: seq<T>, b: seq<T>, i: nat, j: nat)
    requires i <= j <= |a|
    ensures (a + b)[i..j] == a[i..j]
  {}

  lemma {:induction false} DropPart<T>(a: seq<T>, b: seq<T>, i: nat)
    requires i <= |a|
    ensures (a + b)[i..] == a[i..] + b
  {}

  lemma {:induction false} DropDrop<T>(a: seq<T>, i: nat, j: nat)
    requires i + j <= |a|
    ensures a[i..][j..] == a[i + j..]
  {}

  lemma {:induction false} SliceOfDrop<T>(a: seq<T>, i: nat, j: nat)
    requires i + j <= |a|
    ensures a[i..][..j] == a[i..i + j]
  {}

  lemma {:induction false} Assoc<T>(a: seq<T>, b: seq<T>, c: seq<T>)
    ensures a + b + c == a + (b + c)
  {}

  lemma {:induction false} Snoc<T>(a: seq<T>, x: T)
    ensures (a + [x])[..|a|] == a && (a + [x])[|a|] == x
  {}

  lemma {:induction false} Uncons<T>(a: seq<T>)
    requires a != []
    ensures a == [a[0]] + a[1..]
  {}

  lemma {:induction false} SliceOfSlice<T>(a: seq<T>, d: nat, i: nat, j: nat)
    requires i <= j && d + j <= |a|
    ensures a[d..][i..j] == a[d + i..d + j]
  {}

  lemma {:induction false} FourParts<T>(a: seq<T>, b: seq<T>, c: seq<T>, d: seq<T>)
    ensures var s, i, j := a + b + c + d, |a| + |b|, |a| + |b| + |c|;
            s[..|a|] == a && s[|a|..i] == b && s[i..j] == c && s[j..] == d
  {
    DropAppend(a + b + c, d);
    SliceAppend(a + b + c, d, 0, |a|);
    SliceAppend(a + b + c, d, |a|, |a| + |b|);
    SliceAppend(a + b + c, d, |a| + |b|, |a| + |b| + |c|);
    DropAppend(a + b, c);
    SliceAppend(a + b, c, 0, |a|);
    SliceAppend(a + b, c, |a|, |a| + |b|);
    DropAppend(a, b);
  }
}
