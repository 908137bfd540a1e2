/** Model of `ezr::one_of<iden, params...>` (include/one_of.hpp): a positional
    tagged union. The discriminant `iden` is an integral or enumeration type,
    modelled by its integer value; the storage is modelled as the value last
    written together with the type it was written as. */
module EzrOneOf {
  import opened TypeLists

  /** A value together with the C++ type it has at the call site (the type
      the template argument `T` is deduced as). */
  datatype Typed<V> = Typed(ty: TypeTag, val: V)

  /** What `validate<T>(id)` answers, in closed form. `id` is converted to
      `size_t` and compared with every `type_index<T, i, params...>`, an `int`
      that the comparison also converts to `size_t`. An entry is `i` when `T`
      occurs in `params[i..]` and -1 otherwise, and -1 converts to `SIZE_MAX`. So
      the check passes for any in-range `id` at or before an occurrence of `T`,
      and also for a discriminant that converts to `SIZE_MAX` (such as -1) as
      soon as the last type of the list is not `T`. */
  predicate Accepts(ps: seq<TypeTag>, t: TypeTag, id: int) {
    var k := ToSizeT(id);
    (k < |ps| && OccursFrom(t, ps, k)) || (k == SIZE_MAX && |ps| > 0 && ps[|ps| - 1] != t)
  }

  /** Some entry of the `indices` table that `validate` builds equals the
      converted discriminant `k`. */
  ghost predicate SomeIndexMatches(ps: seq<TypeTag>, t: TypeTag, k: int) {
    exists j :: 0 <= j < |ps| && ToSizeT(TypeIndex(t, j, ps)) == k
  }

  /** The table scan and the closed form agree. */
  lemma AcceptsIffSomeIndexMatches(ps: seq<TypeTag>, t: TypeTag, id: int)
    requires |ps| < SIZE_T_MODULUS
    ensures SomeIndexMatches(ps, t, ToSizeT(id)) <==> Accepts(ps, t, id)
  {
    var k := ToSizeT(id);
    if SomeIndexMatches(ps, t, k) {
      var j :| 0 <= j < |ps| && ToSizeT(TypeIndex(t, j, ps)) == k;
      TypeIndexMeaning(t, j, ps);
      if !OccursFrom(t, ps, j) {
        assert ps[|ps| - 1] != t;
      }
    }
    if Accepts(ps, t, id) {
      if k < |ps| && OccursFrom(t, ps, k) {
        TypeIndexMeaning(t, k, ps);
        assert ToSizeT(TypeIndex(t, k, ps)) == k;
      } else {
        var last := |ps| - 1;
        TypeIndexMeaning(t, last, ps);
        assert !OccursFrom(t, ps, last);
        assert ToSizeT(TypeIndex(t, last, ps)) == k;
      }
    }
  }

  /** Soundness: the discriminant of the position that holds `T` is accepted. */
  lemma ValidateSound(ps: seq<TypeTag>, t: TypeTag, id: nat)
    requires id < |ps| && ps[id] == t
    ensures Accepts(ps, t, id)
  {
  }

  /** Looseness: any discriminant before a later position holding `T` is
      accepted as well, whatever type sits at that discriminant. */
  lemma ValidateLoose(ps: seq<TypeTag>, t: TypeTag, id: nat, later: nat)
    requires id <= later < |ps| && ps[later] == t
    ensures Accepts(ps, t, id)
  {
  }

  /** A type that occurs nowhere in the list is rejected for every
      discriminant that does not convert to `SIZE_MAX`. */
  lemma ValidateRejectsForeign(ps: seq<TypeTag>, t: TypeTag, id: int)
    requires t !in ps && ToSizeT(id) != SIZE_MAX
    ensures !Accepts(ps, t, id)
  {
  }

  /** The conversion quirk: the discriminant -1 is accepted as soon as the
      last type of the list is not `T`, even when `T` occurs nowhere. */
  lemma ValidateAcceptsMinusOne(ps: seq<TypeTag>, t: TypeTag)
    requires |ps| > 0 && ps[|ps| - 1] != t
    ensures Accepts(ps, t, -1)
  {
  }

  /** `sizeof(largest_of<params...>)`, the storage member AS DECLARED: the
      field's type is the trait struct itself, which has no data members, so
      it occupies one byte whatever the alternatives are. */
  function DeclaredStorageSize(ps: seq<TypeTag>): nat {
    1
  }

  /** The intended storage size, `sizeof(largest_of<params...>::type)`:
      every alternative fits. */
  function StorageSize(ps: seq<TypeTag>): (n: nat)
    requires |ps| > 0
    ensures forall t :: t in ps ==> t.size <= n
    ensures exists t :: t in ps && t.size == n
  {
    LargestOf(ps).size
  }

  /** The two types of the demonstration program's `Text` union and the type
      deduced for its string-literal argument. The sizes are the usual ones
      on a 64-bit target; only their order matters. */
  const U32: TypeTag := TypeTag("uint32_t", 4)
  const StdString: TypeTag := TypeTag("std::string", 32)
  const CharArrayRef5: TypeTag := TypeTag("const char(&)[5]", 5)
  const TextTypes: seq<TypeTag> := [U32, StdString]

  /** The declared one-byte storage cannot hold a `uint32_t`, let alone a
      `std::string`. */
  lemma DeclaredStorageTooSmall()
    ensures DeclaredStorageSize(TextTypes) < U32.size <= StorageSize(TextTypes)
    ensures DeclaredStorageSize(TextTypes) < StdString.size == StorageSize(TextTypes)
  {
  }

  /** The demonstration program constructs `Text` with `eText::U32` (0) and a
      string literal; the literal's deduced type is in neither position, so the
      assertion in the constructor fires. The union built with `(U32, 7u)`
      on the other hand passes. */
  lemma DemoConstructionRejected()
    ensures !Accepts(TextTypes, CharArrayRef5, 0)
    ensures Accepts(TextTypes, U32, 0)
  {
    ValidateRejectsForeign(TextTypes, CharArrayRef5, 0);
    ValidateSound(TextTypes, U32, 0);
  }

  class OneOf<V> {
    /** The template parameter pack `params...`. */
    const params: seq<TypeTag>
    /** Bytes available in `storage`, sized by the largest alternative. */
    const capacity: nat
    /** `iden idx`: the live discriminant. */
    var idx: int
    /** `storage`: the value last written, with the type it was written as. */
    var storage: Typed<V>

    /** The invariant the union keeps: the live discriminant and the type
        of the stored value passed `validate` together. */
    ghost predicate Valid()
      reads this
    {
      0 < |params| < SIZE_T_MODULUS && capacity == StorageSize(params) &&
      Accepts(params, storage.ty, idx)
    }

    /** `validate<T>(id)`: fills `indices` through `for_` with
        `type_index<T, i, params...>` and scans it for the converted
        discriminant, stopping at the first hit. It reads no state of the
        object, only the type list, so it takes the list as an argument and is
        static; that lets the constructor run it before the object exists, in
        the source's order. */
    static method Validate(params: seq<TypeTag>, t: TypeTag, id: int) returns (valid: bool)
      requires |params| < SIZE_T_MODULUS
      ensures valid == Accepts(params, t, id)
    {
      var n := |params|;
      var k := ToSizeT(id);
      var indices := new int[n];
      var order := ForIndices(n);
      var c := 0;
      while c < |order|
        invariant 0 <= c <= n
        invariant forall j :: 0 <= j < c ==> indices[j] == TypeIndex(t, j, params)
      {
        var i := order[c];
        indices[i] := TypeIndex(t, i, params);
        c := c + 1;
      }
      valid := false;
      var i := 0;
      while i < n
        invariant 0 <= i <= n
        invariant !valid
        invariant forall j :: 0 <= j < i ==> ToSizeT(indices[j]) != k
      {
        if ToSizeT(indices[i]) == k {
          valid := true;
          break;
        }
        i := i + 1;
      }
      AcceptsIffSomeIndexMatches(params, t, id);
      if valid {
        assert ToSizeT(TypeIndex(t, i, params)) == k;
      }
    }

    /** `one_of(id, value)`: asserts `validate<T>(id)`, records the
        discriminant and constructs the value in the storage. */
    constructor (ps: seq<TypeTag>, id: int, value: Typed<V>)
      requires 0 < |ps| < SIZE_T_MODULUS
      requires Accepts(ps, value.ty, id)
      ensures Valid() && params == ps
      ensures idx == id && storage == value
      ensures ToSizeT(id) < |ps| ==> value.ty.size <= capacity
    {
      var ok := Validate(ps, value.ty, id);
      assert ok;
      params := ps;
      capacity := StorageSize(ps);
      idx := id;
      storage := value;
    }

    /** `assign(id, value)`: the same check as the constructor, then the
        discriminant and the storage are overwritten in place; nothing
        destroys the previous alternative first. */
    method Assign(id: int, value: Typed<V>)
      requires Valid()
      requires Accepts(params, value.ty, id)
      modifies this
      ensures Valid()
      ensures idx == id && storage == value
      ensures ToSizeT(id) < |params| ==> value.ty.size <= capacity
    {
      var ok := Validate(params, value.ty, id);
      assert ok;
      idx := id;
      storage := value;
    }

    /** `get<i>()`: `i` must name a position of the list (a compile-time
        requirement of `std::tuple_element_t`) and must equal the live
        discriminant; the storage is then read as `params[i]`. Because
        `validate` is loose, the payload's type is only known to occur at
        position `i` or later, not to be `params[i]`. */
    function Get(i: int): (p: Typed<V>)
      reads this
      requires Valid()
      requires 0 <= i < |params|
      requires idx == i
      ensures p == storage
      ensures OccursFrom(p.ty, params, i)
    {
      storage
    }
  }

  /** Round trip: construct with `(k, v)` where `params[k]` is `v`'s type,
      then `get<k>()` gives `v` back. */
  method ConstructThenGet<V>(ps: seq<TypeTag>, k: nat, v: Typed<V>) returns (p: Typed<V>)
    requires k < |ps| < SIZE_T_MODULUS && ps[k] == v.ty
    ensures p == v && p.ty == ps[k]
  {
    ValidateSound(ps, v.ty, k);
    var u := new OneOf(ps, k, v);
    p := u.Get(k);
  }

  /** After `assign(k, v)` on a union built with any accepted `(j, w)`,
      `get<k>()` gives `v` and the earlier alternative is gone from view. */
  method AssignThenGet<V>(ps: seq<TypeTag>, j: int, w: Typed<V>, k: nat, v: Typed<V>)
    returns (p: Typed<V>)
    requires k < |ps| < SIZE_T_MODULUS && ps[k] == v.ty
    requires Accepts(ps, w.ty, j)
    ensures p == v
  {
    ValidateSound(ps, v.ty, k);
    var u := new OneOf(ps, j, w);
    u.Assign(k, v);
    p := u.Get(k);
  }

  /** The union `one_of<Tag, uint32_t, std::string>` built with `(U32, 7u)`:
      `get<U32>()` yields 7, and `get<String>()` is not permitted because the
      live discriminant is not 1. */
  method TextScenario() returns (p: Typed<nat>, stringGetAllowed: bool)
    ensures p == Typed(U32, 7)
    ensures !stringGetAllowed
  {
    ValidateSound(TextTypes, U32, 0);
    var u := new OneOf<nat>(TextTypes, 0, Typed(U32, 7));
    p := u.Get(0);
    stringGetAllowed := u.idx == 1;
  }

  /** Type confusion is reachable: `validate` accepts a `std::string` under
      the `uint32_t` discriminant 0 because `std::string` occurs later, so
      `get<U32>()` hands back a payload that is not a `uint32_t`. */
  method GetReadsOtherType() returns (p: Typed<nat>)
    ensures p == Typed(StdString, 3)
    ensures p.ty != TextTypes[0]
  {
    ValidateLoose(TextTypes, StdString, 0, 1);
    var u := new OneOf<nat>(TextTypes, 0, Typed(StdString, 3));
    p := u.Get(0);
  }
}
