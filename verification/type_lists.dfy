/** Model of the compile-time helpers at the top of include/one_of.hpp:
    `largest_of`, `type_index` and `for_`. A C++ type is a `TypeTag`; a
    template parameter pack is a `seq<TypeTag>`. */
module TypeLists {

  /** A C++ type as these helpers see it: its identity and its `sizeof`.
      Two tags are the same type (`std::is_same_v`) exactly when they are equal. */
  datatype TypeTag = TypeTag(name: string, size: nat)

  /** `size_t` on a 64-bit target has 2^64 values. */
  const SIZE_T_MODULUS: int := 0x1_0000_0000_0000_0000
  const SIZE_MAX: int := SIZE_T_MODULUS - 1

  /** The value an `int` (or an integral or enumeration discriminant) takes once
      converted to `size_t`, by `static_cast` or by the usual arithmetic
      conversions of `int == size_t`: reduction modulo 2^64. */
  function ToSizeT(x: int): (k: nat)
    ensures k < SIZE_T_MODULUS
    ensures 0 <= x < SIZE_T_MODULUS ==> k == x
    ensures x == -1 ==> k == SIZE_MAX
  {
    x % SIZE_T_MODULUS
  }

  /** `t` appears in `ps` at some position `from` or later. */
  predicate OccursFrom(t: TypeTag, ps: seq<TypeTag>, from: nat) {
    exists j :: from <= j < |ps| && ps[j] == t
  }

  /** `largest_of<Acc, rest...>::type`: the head of the pack is the type kept
      so far; each step keeps the head when `sizeof(T1) >= sizeof(T2)` and the
      next type otherwise, then continues with the rest. */
  function LargestFold(acc: TypeTag, rest: seq<TypeTag>): (r: TypeTag)
    ensures r == acc || r in rest
    ensures acc.size <= r.size
    ensures forall i :: 0 <= i < |rest| ==> rest[i].size <= r.size
    decreases |rest|
  {
    if |rest| == 0 then acc
    else
      var r := LargestFold(if acc.size >= rest[0].size then acc else rest[0], rest[1..]);
      assert forall i :: 1 <= i < |rest| ==> rest[i] == rest[1..][i - 1];
      r
  }

  /** `largest_of<params...>::type`. The list must not be empty (the primary
      template needs at least one type). */
  function LargestOf(ps: seq<TypeTag>): (r: TypeTag)
    requires |ps| > 0
    ensures r in ps
    ensures forall i :: 0 <= i < |ps| ==> ps[i].size <= r.size
  {
    assert forall i :: 1 <= i < |ps| ==> ps[i] == ps[1..][i - 1];
    LargestFold(ps[0], ps[1..])
  }

  /** Ties go to the kept type: the fold's answer is the accumulator (`k == 0`)
      or `rest[k - 1]`, and every type before that position is strictly
      smaller. */
  lemma {:induction false} LargestFoldFirstWins(acc: TypeTag, rest: seq<TypeTag>) returns (k: nat)
    ensures k <= |rest|
    ensures k == 0 ==> LargestFold(acc, rest) == acc
    ensures k > 0 ==> rest[k - 1] == LargestFold(acc, rest) && acc.size < LargestFold(acc, rest).size
    ensures forall j :: 0 <= j < k - 1 ==> rest[j].size < LargestFold(acc, rest).size
    decreases |rest|
  {
    if |rest| == 0 {
      k := 0;
    } else {
      var next := if acc.size >= rest[0].size then acc else rest[0];
      var r := LargestFold(next, rest[1..]);
      assert LargestFold(acc, rest) == r;
      var k' := LargestFoldFirstWins(next, rest[1..]);
      if k' == 0 {
        if next == acc {
          k := 0;
        } else {
          k := 1;
        }
      } else {
        k := k' + 1;
        TailPositions(rest, k', r.size);
      }
    }
  }

  /** Positions of `rest[1..]` are the positions of `rest` shifted by one. */
  lemma TailPositions(rest: seq<TypeTag>, k': nat, bound: nat)
    requires 0 < k' <= |rest| - 1
    requires rest[0].size < bound
    requires forall j :: 0 <= j < k' - 1 ==> rest[1..][j].size < bound
    ensures rest[k'] == rest[1..][k' - 1]
    ensures forall j :: 0 <= j < k' ==> rest[j].size < bound
  {
  }

  /** On ties the earlier type wins: `largest_of` answers the type at a
      position before which every type is strictly smaller. */
  lemma LargestOfFirstWins(ps: seq<TypeTag>) returns (k: nat)
    requires |ps| > 0
    ensures k < |ps| && ps[k] == LargestOf(ps)
    ensures forall j :: 0 <= j < k ==> ps[j].size < LargestOf(ps).size
  {
    k := LargestFoldFirstWins(ps[0], ps[1..]);
    forall j | 0 < j < k
      ensures ps[j].size < LargestOf(ps).size
    {
      assert ps[j] == ps[1..][j - 1];
    }
  }

  /** `type_index<T, off, params...>::value`, recursion as written: with
      `off == 0` it looks for `T` in the rest WITHOUT adding one; otherwise it
      drops one type, decrements `off` and adds one to a found answer. */
  function TypeIndex(t: TypeTag, off: nat, ps: seq<TypeTag>): (r: int)
    ensures r == -1 || (r == off && off < |ps|)
    decreases |ps|
  {
    if |ps| == 0 then -1
    else if off == 0 then (if t == ps[0] then 0 else TypeIndex(t, 0, ps[1..]))
    else
      var sub := TypeIndex(t, off - 1, ps[1..]);
      if sub == -1 then -1 else sub + 1
  }

  /** `type_index<T, off, params...>` is `off` when `T` occurs in
      `params[off..]` and -1 otherwise: it is not the position of `T`. */
  lemma {:induction false} TypeIndexMeaning(t: TypeTag, off: nat, ps: seq<TypeTag>)
    ensures TypeIndex(t, off, ps) == if OccursFrom(t, ps, off) then off else -1
    decreases |ps|
  {
    if |ps| == 0 {
    } else if off == 0 {
      if t != ps[0] {
        TypeIndexMeaning(t, 0, ps[1..]);
        if OccursFrom(t, ps, 0) {
          var j :| 0 <= j < |ps| && ps[j] == t;
          assert ps[1..][j - 1] == t;
        }
        if OccursFrom(t, ps[1..], 0) {
          var j :| 0 <= j < |ps| - 1 && ps[1..][j] == t;
          assert ps[j + 1] == t;
        }
      }
    } else {
      TypeIndexMeaning(t, off - 1, ps[1..]);
      if OccursFrom(t, ps, off) {
        var j :| off <= j < |ps| && ps[j] == t;
        assert ps[1..][j - 1] == t;
      }
      if OccursFrom(t, ps[1..], off - 1) {
        var j :| off - 1 <= j < |ps| - 1 && ps[1..][j] == t;
        assert ps[j + 1] == t;
      }
    }
  }

  /** `for_<N>(func)`: the pack expansion inside a braced initialiser calls
      `func(num<I>{})` once for each `I` of `0..N-1`, left to right. The model
      is the sequence of indices handed to `func`, in call order. */
  function ForIndices(n: nat): (order: seq<nat>)
    ensures |order| == n
    ensures forall k :: 0 <= k < n ==> order[k] == k
  {
    if n == 0 then [] else ForIndices(n - 1) + [n - 1]
  }
}
