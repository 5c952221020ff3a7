/**
 * Facts about sequences that grow at their end, such as histories.
 */
module Sequences {
  lemma Associative<T>(a: seq<T>, b: seq<T>, c: seq<T>)
    ensures a + b + c == a + (b + c)
  {
  }

  lemma AppendedSince<T>(before: seq<T>, added: seq<T>)
    ensures (before + added)[|before|..] == added
  {
  }

  lemma AppendedNone<T>(before: seq<T>)
    ensures before[|before|..] == []
  {
  }

  lemma SinceBoth<T>(before: seq<T>, between: seq<T>, now: seq<T>)
    requires before <= between <= now
    ensures now[|before|..] == between[|before|..] + now[|between|..]
  {
  }

  lemma AppendedOne<T>(before: seq<T>, now: seq<T>)
    requires before <= now && |now| == |before| + 1
    ensures now[|before|..] == [now[|before|]]
  {
  }

  /** Growing twice is growing by both. */
  lemma AppendedTwice<T>(before: seq<T>, added: seq<T>, between: seq<T>, now: seq<T>)
    requires between == before + added && between <= now
    ensures now == before + (added + now[|between|..])
    ensures now[|before|..] == added + now[|between|..]
  {
  }
}
