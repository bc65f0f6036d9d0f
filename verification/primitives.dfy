/** The `PRIMITIVE_TYPE` enumeration: its enumerators as declared, the values
    the C++ enumerator rules give them, and the aliases among them. */
module Primitives {
  /** The enumerator names of `PRIMITIVE_TYPE`. */
  datatype Name =
    | VOID | BOOL
    | INT8 | INT16 | INT32 | INT64
    | SCHAR | CHAR | WCHAR | UCHAR
    | BYTE | UINT8 | UINT16 | UINT32 | UINT64
    | FLOAT32 | FLOAT64

  /** The position of each enumerator in the declaration. */
  function Position(n: Name): nat
  {
    match n
    case VOID => 0
    case BOOL => 1
    case INT8 => 2
    case INT16 => 3
    case INT32 => 4
    case INT64 => 5
    case SCHAR => 6
    case CHAR => 7
    case WCHAR => 8
    case UCHAR => 9
    case BYTE => 10
    case UINT8 => 11
    case UINT16 => 12
    case UINT32 => 13
    case UINT64 => 14
    case FLOAT32 => 15
    case FLOAT64 => 16
  }

  /** The value of each enumerator by the C++ rules: one without
      initializer is one more than the enumerator declared just before it
      (the first is 0), and one with an initializer takes its value, which
      may only name enumerators declared earlier. */
  function Value(n: Name): int
    decreases Position(n)
  {
    match n
    case VOID => 0
    case BOOL => Value(VOID) + 1
    case INT8 => Value(BOOL) + 1
    case INT16 => Value(INT8) + 1
    case INT32 => Value(INT16) + 1
    case INT64 => Value(INT32) + 1
    case SCHAR => Value(INT8)
    case CHAR => Value(INT64) + 1
    case WCHAR => Value(CHAR) + 1
    case UCHAR => Value(WCHAR) + 1
    case BYTE => Value(CHAR)
    case UINT8 => Value(BYTE)
    case UINT16 => Value(WCHAR)
    case UINT32 => Value(UCHAR)
    case UINT64 => Value(UINT32) + 1
    case FLOAT32 => Value(UINT64) + 1
    case FLOAT64 => Value(FLOAT32) + 1
  }

  /** Some enumerator has the value `v`. */
  predicate Taken(v: int) { exists n :: Value(n) == v }

  predicate IsSigned(n: Name) { n in {INT8, INT16, INT32, INT64} }
  predicate IsUnsigned(n: Name) { n in {UINT8, UINT16, UINT32, UINT64} }
  predicate IsFloat(n: Name) { n in {FLOAT32, FLOAT64} }

  /** The specials are 0 and 1 and the signed integers 2 to 5 in order;
      SCHAR is INT8; the characters follow INT64 and double as the narrow
      unsigned integers; UINT64 and the floats follow. */
  lemma PrimitiveValues()
    ensures Value(VOID) == 0 && Value(BOOL) == 1
    ensures Value(INT8) == 2 && Value(INT16) == 3 && Value(INT32) == 4 && Value(INT64) == 5
    ensures Value(SCHAR) == Value(INT8)
    ensures Value(CHAR) == 6 && Value(WCHAR) == 7 && Value(UCHAR) == 8
    ensures Value(BYTE) == Value(CHAR) && Value(UINT8) == Value(CHAR)
    ensures Value(UINT16) == Value(WCHAR) && Value(UINT32) == Value(UCHAR)
    ensures Value(UINT64) == 9 && Value(FLOAT32) == 10 && Value(FLOAT64) == 11
  {
  }

  /** The enumeration takes exactly the twelve values 0 to 11, with the
      signed integers below the unsigned ones and those below the floats. */
  lemma PrimitiveLayout()
    ensures forall n :: 0 <= Value(n) < 12
    ensures forall v :: 0 <= v < 12 ==> Taken(v)
    ensures forall s, u :: IsSigned(s) && IsUnsigned(u) ==> Value(s) < Value(u)
    ensures forall u, f :: IsUnsigned(u) && IsFloat(f) ==> Value(u) < Value(f)
  {
    PrimitiveValues();
    var names := [VOID, BOOL, INT8, INT16, INT32, INT64, CHAR, WCHAR, UCHAR, UINT64, FLOAT32, FLOAT64];
    forall v | 0 <= v < 12
      ensures Taken(v)
    {
      assert Value(names[v]) == v;
    }
  }
}
