/** The tagged-union helper of source/common/variant.hpp.

    A variant is declared over a list of alternatives (types); here the
    alternatives are values of a type `T` that names them, and a variant value
    records which alternative it holds (its tag) together with the payload. */
module Variant {

  /** `variant_index<T, U, Args...>(i)`: walks the alternative list `alts`
      (U first, then Args) counting from `i`, and answers the position of the
      first alternative equal to `t`, or -1 when there is none.  The template
      needs at least one alternative. */
  function VariantIndex<T(==)>(t: T, alts: seq<T>, i: nat): (r: int)
    requires |alts| > 0
    ensures t !in alts ==> r == -1
    ensures t in alts ==> i <= r < i + |alts| && alts[r - i] == t && t !in alts[..r - i]
    decreases |alts|
  {
    if alts[0] == t then i
    else if |alts| > 1 then VariantIndex(t, alts[1..], i + 1)
    else -1
  }

  /** `variant<Args...>::type_index<T>()`: the 0-based position of the first
      occurrence of `t` among the alternatives, or -1. */
  function TypeIndex<T(==)>(alts: seq<T>, t: T): (r: int)
    requires |alts| > 0
    ensures -1 <= r < |alts|
    ensures r == -1 <==> t !in alts
    ensures r >= 0 ==> alts[r] == t && forall j :: 0 <= j < r ==> alts[j] != t
  {
    var r := VariantIndex(t, alts, 0);
    assert r >= 0 ==> forall j :: 0 <= j < r ==> alts[..r][j] == alts[j];
    r
  }

  /** A value of a variant: the alternative it holds and that alternative's payload. */
  datatype Variant<T, P> = Variant(tag: T, payload: P)

  /** `is<T>()`: the variant holds alternative `t`. */
  predicate Is<T(==), P>(v: Variant<T, P>, t: T) {
    v.tag == t
  }

  /** `as<T>()`: the payload of the held alternative; only defined when `is<T>()` holds. */
  function As<T(==), P>(v: Variant<T, P>, t: T): (p: P)
    requires Is(v, t)
    ensures v == Variant(t, p)
  {
    v.payload
  }

  /** `index()`: the position of the held alternative in the list. */
  function Index<T(==), P>(alts: seq<T>, v: Variant<T, P>): (r: int)
    requires |alts| > 0
    ensures r == -1 <==> v.tag !in alts
    ensures r >= 0 ==> r < |alts| && alts[r] == v.tag
  {
    TypeIndex(alts, v.tag)
  }

  /** For a variant whose tag is one of the alternatives, `is<T>()` is the same
      question as "does the variant's index equal `type_index<T>()`". */
  lemma IsIffSameIndex<T, P>(alts: seq<T>, v: Variant<T, P>, t: T)
    requires |alts| > 0 && v.tag in alts && t in alts
    ensures Is(v, t) <==> Index(alts, v) == TypeIndex(alts, t)
  {
  }

  /** A repeated alternative is found at its first position (concrete witness). */
  lemma FirstOccurrenceWins()
    ensures TypeIndex([1, 2, 1], 1) == 0 && TypeIndex([1, 2, 1], 2) == 1 && TypeIndex([1, 2, 1], 3) == -1
  {
  }
}
