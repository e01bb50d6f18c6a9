/** The bytes between two positions of a circular buffer. */
module CyclicBuffer {

  /** The position after p in a buffer of the given size. */
  function Next(p: nat, size: nat): nat {
    if p + 1 >= size then 0 else p + 1
  }

  /** The elements from position `from` up to, not including, position `to`, going round the end. */
  function Arc<T>(b: seq<T>, from: nat, to: nat): seq<T>
    requires from < |b| && to < |b|
  {
    if from <= to then b[from..to] else b[from..] + b[..to]
  }

  lemma NextIsModulo(p: nat, size: nat)
    requires p < size
    ensures Next(p, size) == (p + 1) % size && Next(p, size) < size
  {
  }

  /** Appending at `to`: one slot always stays free, so the arc cannot become the whole buffer. */
  lemma ArcPush<T>(b: seq<T>, from: nat, to: nat, x: T)
    requires from < |b| && to < |b|
    ensures |Arc(b, from, to)| <= |b| - 1
    ensures Next(to, |b|) == from <==> |Arc(b, from, to)| == |b| - 1
    ensures Next(to, |b|) != from ==> Arc(b[to := x], from, Next(to, |b|)) == Arc(b, from, to) + [x]
    ensures Arc(b[to := x], from, to) == Arc(b, from, to)
  {
  }

  /** Taking from the front. */
  lemma ArcPop<T>(b: seq<T>, from: nat, to: nat)
    requires from < |b| && to < |b|
    ensures from == to <==> Arc(b, from, to) == []
    ensures from != to ==> Arc(b, from, to)[0] == b[from] && Arc(b, Next(from, |b|), to) == Arc(b, from, to)[1..]
  {
  }

  /** An arc ending earlier is a prefix of the arc ending later. */
  lemma ArcPrefix<T>(b: seq<T>, from: nat, mid: nat, to: nat, k: nat)
    requires from < |b| && mid < |b| && to < |b|
    requires k == |Arc(b, from, mid)| <= |Arc(b, from, to)|
    ensures Arc(b, from, mid) == Arc(b, from, to)[..k]
  {
  }
}
