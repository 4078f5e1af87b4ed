/** A stable sort on sequences, for `Array.prototype.sort` with a comparator.
    Since ES2019 that sort is stable; insertion sort that places each element
    before the first element it does not follow is stable as well. The order
    is given as `leq(a, b)`, "a may come before b", which is
    `compare(a, b) <= 0` for the source's comparator. */
module Ordenacao {

  /** `leq` is total and transitive: a comparator that sorting can honour. */
  ghost predicate PreOrdemTotal<T(!new)>(leq: (T, T) -> bool) {
    && (forall a, b :: leq(a, b) || leq(b, a))
    && (forall a, b, c :: leq(a, b) && leq(b, c) ==> leq(a, c))
  }

  ghost predicate Ordenada<T>(s: seq<T>, leq: (T, T) -> bool) {
    forall i, j :: 0 <= i < j < |s| ==> leq(s[i], s[j])
  }

  /** Puts `x` into the sorted `s` in front of the first element it may precede. */
  function Inserir<T(!new)>(x: T, s: seq<T>, leq: (T, T) -> bool): (r: seq<T>)
    requires PreOrdemTotal(leq) && Ordenada(s, leq)
    ensures multiset(r) == multiset(s) + multiset{x}
    ensures |r| == |s| + 1
    ensures Ordenada(r, leq)
  {
    if |s| == 0 then [x]
    else if leq(x, s[0]) then
      assert forall j :: 0 <= j < |s| ==> leq(x, s[j]) by {
        forall j | 0 <= j < |s| ensures leq(x, s[j]) {
          if j > 0 { assert leq(s[0], s[j]); }
        }
      }
      Prefixar(x, s, leq);
      [x] + s
    else
      var t := Inserir(x, s[1..], leq);
      assert s == [s[0]] + s[1..];
      LimiteInferior(s[0], t, x, s[1..], leq);
      Prefixar(s[0], t, leq);
      [s[0]] + t
  }

  /** A lower bound of `x` and of every element of `s` bounds every element
      of a permutation of `s` plus `x`. */
  lemma LimiteInferior<T>(y: T, t: seq<T>, x: T, s: seq<T>, leq: (T, T) -> bool)
    requires multiset(t) == multiset(s) + multiset{x}
    requires leq(y, x) && forall j :: 0 <= j < |s| ==> leq(y, s[j])
    ensures forall k :: 0 <= k < |t| ==> leq(y, t[k])
  {
    forall k | 0 <= k < |t| ensures leq(y, t[k]) {
      assert t[k] in multiset(t);
      if t[k] != x {
        assert t[k] in multiset(s);
        var j :| 0 <= j < |s| && s[j] == t[k];
      }
    }
  }

  lemma Prefixar<T>(y: T, t: seq<T>, leq: (T, T) -> bool)
    requires Ordenada(t, leq) && forall k :: 0 <= k < |t| ==> leq(y, t[k])
    ensures Ordenada([y] + t, leq)
  {
    var r := [y] + t;
    forall i, j | 0 <= i < j < |r| ensures leq(r[i], r[j]) {
      if i > 0 {
        assert r[i] == t[i - 1] && r[j] == t[j - 1];
      } else {
        assert r[j] == t[j - 1];
      }
    }
  }

  /** The sorted permutation of `s`, equal elements in their input order. */
  function Ordenar<T(!new)>(s: seq<T>, leq: (T, T) -> bool): (r: seq<T>)
    requires PreOrdemTotal(leq)
    ensures multiset(r) == multiset(s)
    ensures |r| == |s|
    ensures Ordenada(r, leq)
  {
    if |s| == 0 then []
    else
      assert s == [s[0]] + s[1..];
      Inserir(s[0], Ordenar(s[1..], leq), leq)
  }
}
