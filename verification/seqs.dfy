/** Small facts about sequence concatenation, kept apart so that proofs with
    many quantified facts in scope can use them without re-deriving them. */
module Seqs {
  lemma SeqAssoc<T>(a: seq<T>, b: seq<T>, c: seq<T>)
    ensures (a + b) + c == a + (b + c)
  {
  }

  lemma EmptyPrefix<T>(s: seq<T>)
    ensures [] + s == s
  {
  }

  lemma HeadTail<T>(s: seq<T>)
    requires s != []
    ensures s == [s[0]] + s[1..]
  {
  }

  lemma ConsMiddle<T>(pre: seq<T>, x: T, post: seq<T>)
    requires pre != []
    ensures (pre + [x] + post)[0] == pre[0]
    ensures (pre + [x] + post)[1..] == pre[1..] + [x] + post
  {
  }

  lemma MoveHead<T>(acc: seq<T>, entries: seq<T>)
    requires entries != []
    ensures (acc + [entries[0]]) + entries[1..] == acc + entries
  {
    HeadTail(entries);
  }

  lemma ConsIndex<T>(x: T, s: seq<T>, k: int)
    requires 1 <= k <= |s|
    ensures ([x] + s)[k] == s[k - 1]
  {
  }

  lemma ConsTail<T>(x: T, s: seq<T>)
    ensures ([x] + s)[0] == x && ([x] + s)[1..] == s
  {
  }

  lemma EmptySuffix<T>(s: seq<T>)
    ensures s + [] == s
  {
  }

  lemma TripleCons<T>(a: T, b: T, c: T)
    ensures [a, b, c] == [a] + [b, c] && [b, c] == [b] + [c]
  {
  }
}
