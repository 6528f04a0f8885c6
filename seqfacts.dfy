/**
 * Small facts about sequences, stated once so that the methods that build sequences step by step
 * can use them without the verifier comparing element by element.
 */
module SeqFacts {

  lemma AppendToEmpty<T>(a: seq<T>, s: seq<T>)
    requires a == []
    ensures a + s == s
  {
  }

  lemma AppendNothing<T>(a: seq<T>, e: seq<T>)
    requires e == []
    ensures a + e == a
  {
  }

  /** Moving the first element of s to the end of a keeps a + s. */
  lemma ShiftFirst<T>(a: seq<T>, s: seq<T>)
    requires |s| >= 1
    ensures a + s == (a + [s[0]]) + s[1..]
  {
  }

  /** A prefix as long as the sequence is the whole sequence. */
  lemma WholePrefix<T>(s: seq<T>, i: int)
    requires i == |s|
    ensures s[..i] == s
  {
  }

  /** Appending the element at index j extends the slice s[i..j] by one. */
  lemma SliceExtend<T>(s: seq<T>, i: int, j: int)
    requires 0 <= i <= j < |s|
    ensures s[i..j] + [s[j]] == s[i..j + 1]
  {
  }

  /** A slice running to the end is the suffix. */
  lemma WholeSuffix<T>(s: seq<T>, i: int, j: int)
    requires 0 <= i <= j == |s|
    ensures s[i..j] == s[i..]
  {
  }
}
