/**
 * Jdk7Methods: the comparison and null-check helpers the library uses in
 * place of the Java 7 methods of Long, Integer and Objects.
 */
module Jdk7 {
  import opened Common

  /** A Java `long`. */
  type Long = x: int | LONG_MIN <= x <= LONG_MAX

  /** A Java `int`. */
  type Int = x: int | INT_MIN <= x <= INT_MAX

  /**
   * A Java reference: null, or an object identified by its address. Reference
   * equality `==` is equality of these values; `equals` and comparators are
   * passed in as functions because they belong to the objects' classes.
   */
  datatype Ref = Null | Object(address: nat)

  /** Long_compare: the three-way comparison of two longs. */
  function LongCompare(x: Long, y: Long): (r: int)
    ensures r == -1 || r == 0 || r == 1
    ensures r < 0 <==> x < y
    ensures r == 0 <==> x == y
    ensures r > 0 <==> x > y
  {
    if x < y then -1 else if x == y then 0 else 1
  }

  /** Integer_compare: the three-way comparison of two ints, the same rule as for longs. */
  function IntegerCompare(x: Int, y: Int): (r: int)
    ensures r == -1 || r == 0 || r == 1
    ensures r < 0 <==> x < y
    ensures r == 0 <==> x == y
    ensures r > 0 <==> x > y
  {
    LongCompare(x, y)
  }

  /** Integer_compare is antisymmetric, and agrees with Long_compare on the values they share. */
  lemma IntegerCompareAntisymmetric(x: Int, y: Int)
    ensures IntegerCompare(x, y) == -IntegerCompare(y, x)
    ensures IntegerCompare(x, y) == LongCompare(x, y)
  {
  }

  /** Long_compare is antisymmetric and transitive: it is the comparator of a total order. */
  lemma LongCompareOrder(x: Long, y: Long, z: Long)
    ensures LongCompare(x, y) == -LongCompare(y, x)
    ensures LongCompare(x, y) <= 0 && LongCompare(y, z) <= 0 ==> LongCompare(x, z) <= 0
  {
  }

  /**
   * Objects_equals: `equals(a, b)` is the result of `a.equals(b)` for a
   * non-null receiver `a`.
   */
  function ObjectsEquals(a: Ref, b: Ref, equals: (nat, Ref) -> bool): (r: bool)
    ensures a == b ==> r
    ensures a.Null? && b != Null ==> !r
    ensures a.Object? && a != b ==> r == equals(a.address, b)
  {
    a == b || (a != Null && equals(a.address, b))
  }

  /** Objects_compare: identical references compare equal; otherwise the comparator decides. */
  function ObjectsCompare(a: Ref, b: Ref, compare: (Ref, Ref) -> int): (r: int)
    ensures a == b ==> r == 0
    ensures a != b ==> r == compare(a, b)
  {
    if a == b then 0 else compare(a, b)
  }

  /** Objects_compare does not consult the comparator on identical references. */
  lemma ObjectsCompareIgnoresComparator(a: Ref, c1: (Ref, Ref) -> int, c2: (Ref, Ref) -> int)
    ensures ObjectsCompare(a, a, c1) == ObjectsCompare(a, a, c2) == 0
  {
  }

  /**
   * Objects_requireNonNull, both forms (the message only changes the text of
   * the exception): the argument unchanged, or a NullPointerException.
   */
  function RequireNonNull(obj: Ref): (r: Result<Ref>)
    ensures obj == Null <==> r == Err(NullPointer)
    ensures obj != Null ==> r == Ok(obj)
  {
    if obj == Null then Err(NullPointer) else Ok(obj)
  }
}
