/** The unit of the driver's buffers. */
module Octets {
  type Byte = x: int | 0 <= x < 256
}

/** ASCII comparison that does not depend on the locale. */
module Ascii {

  function Lower(c: char): char {
    if 'A' <= c <= 'Z' then c - 'A' + 'a' else c
  }

  /** The twenty-six capital letters fold to the small ones, and every other character stays. */
  lemma LettersFold(k: nat, c: char)
    requires k < 26
    ensures Lower('A' + k as char) == Lower('a' + k as char) == 'a' + k as char
    ensures !(0 <= c as int - 'A' as int < 26) ==> Lower(c) == c
  {
  }

  predicate SameIgnoringCase(a: string, b: string) {
    |a| == |b| && forall k :: 0 <= k < |a| ==> Lower(a[k]) == Lower(b[k])
  }
}

/** A value that may be missing. */
module Options {
  datatype Option<+T> = None | Some(value: T)
}

/** Cutting a sequence into consecutive blocks, from the front and from the back. */
module Blocks {

  function FirstOf<T>(s: seq<T>, n: nat): seq<T> { if n < |s| then s[..n] else s }

  function LastOf<T>(s: seq<T>, n: nat): seq<T> { if n < |s| then s[|s| - n..] else s }

  function FromFront<T>(s: seq<T>, size: nat): seq<seq<T>>
    requires size > 0
  {
    if s == [] then []
    else if |s| <= size then [s]
    else [s[..size]] + FromFront(s[size..], size)
  }

  // The block at the end of `s` comes first; every block keeps the order of `s`.
  function FromBack<T>(s: seq<T>, size: nat): seq<seq<T>>
    requires size > 0
  {
    if s == [] then []
    else if |s| <= size then [s]
    else [s[|s| - size..]] + FromBack(s[..|s| - size], size)
  }

  lemma FrontStep<T>(s: seq<T>, size: nat)
    requires size > 0 && s != []
    ensures FromFront(s, size) == [FirstOf(s, size)] + FromFront(s[|FirstOf(s, size)|..], size)
  {
  }

  lemma BackStep<T>(s: seq<T>, size: nat)
    requires size > 0 && s != []
    ensures FromBack(s, size) == [LastOf(s, size)] + FromBack(s[..|s| - |LastOf(s, size)|], size)
  {
  }

  function Join<T>(blocks: seq<seq<T>>): seq<T> {
    if blocks == [] then [] else blocks[0] + Join(blocks[1..])
  }

  function JoinBackwards<T>(blocks: seq<seq<T>>): seq<T> {
    if blocks == [] then [] else JoinBackwards(blocks[1..]) + blocks[0]
  }

  ghost predicate AllFullButLast<T>(blocks: seq<seq<T>>, size: nat) {
    && (forall k :: 0 <= k < |blocks| ==> 0 < |blocks[k]| <= size)
    && (forall k :: 0 <= k < |blocks| - 1 ==> |blocks[k]| == size)
  }

  lemma {:induction false} FromFrontPartitions<T>(s: seq<T>, size: nat)
    requires size > 0
    ensures Join(FromFront(s, size)) == s && AllFullButLast(FromFront(s, size), size)
    decreases |s|
  {
    if |s| > size {
      FromFrontPartitions(s[size..], size);
    }
  }

  lemma {:induction false} FromBackPartitions<T>(s: seq<T>, size: nat)
    requires size > 0
    ensures JoinBackwards(FromBack(s, size)) == s && AllFullButLast(FromBack(s, size), size)
    decreases |s|
  {
    if |s| > size {
      FromBackPartitions(s[..|s| - size], size);
    }
  }
}
