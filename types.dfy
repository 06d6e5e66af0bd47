/** The value type descriptor of trusimd.h (struct trusimd_type) and the
    small predicates trusimd.cpp defines on it. */
module TypeDesc {

  // Kinds (trusimd.h)
  const SIGNED: int := 0
  const UNSIGNED: int := 1
  const FLOAT: int := 2
  const BFLOAT: int := 3

  // Lane modes (trusimd.h)
  const SCALAR: int := 0
  const VECTOR: int := 1

  /** The four fields are plain C ints: nothing stops a caller from passing
      a kind or a lane mode outside the named constants, so none is excluded. */
  datatype Type = Type(scalarVector: int, kind: int, width: int, nbTimesPtr: int)

  /** trusimd_notype, the terminator of variadic argument-type lists. */
  const NoType: Type := Type(0, 0, 0, 0)

  /** The descriptors trusimd_create_kernel_ap allocates for its own use. */
  const Int8: Type := Type(SCALAR, SIGNED, 8, 0)
  const Int64: Type := Type(SCALAR, SIGNED, 64, 0)

  /** operator==: field-wise comparison, which is exactly structural equality. */
  function Equal(a: Type, b: Type): (r: bool)
    ensures r <==> a == b
  {
    a.scalarVector == b.scalarVector && a.width == b.width &&
    a.kind == b.kind && a.nbTimesPtr == b.nbTimesPtr
  }

  predicate IsInt(t: Type) {
    t.kind == SIGNED || t.kind == UNSIGNED
  }

  predicate IsSigned(t: Type) {
    t.kind == SIGNED
  }

  predicate IsBool(t: Type) {
    IsInt(t) && t.width == 1
  }

  predicate IsPointer(t: Type) {
    t.nbTimesPtr > 0
  }

  /** remove_pointer drops every level of indirection at once: the result is
      never a pointer, and it differs from its input in the depth alone. */
  function RemovePointer(t: Type): (r: Type)
    ensures !IsPointer(r) && r.nbTimesPtr == 0
    ensures r.scalarVector == t.scalarVector && r.kind == t.kind && r.width == t.width
  {
    t.(nbTimesPtr := 0)
  }

  /** The descriptor with its lane mode set to vector, as trusimd_load and
      trusimd_store build it when indexing by the global index. */
  function Vectorized(t: Type): (r: Type)
    ensures r.scalarVector == VECTOR
    ensures r.kind == t.kind && r.width == t.width && r.nbTimesPtr == t.nbTimesPtr
  {
    t.(scalarVector := VECTOR)
  }

  /** Two descriptors differing in any one field are different types. */
  lemma EqualIffFields(a: Type, b: Type)
    ensures a == b <==>
      (a.scalarVector == b.scalarVector && a.kind == b.kind &&
       a.width == b.width && a.nbTimesPtr == b.nbTimesPtr)
  {
  }

  /** A pointer to a pointer loses both levels: the depth is zeroed, not
      decremented, and removing again changes nothing. */
  lemma RemovePointerZeroes(t: Type)
    ensures RemovePointer(RemovePointer(t)) == RemovePointer(t)
    ensures t.nbTimesPtr == 2 ==> RemovePointer(t).nbTimesPtr != t.nbTimesPtr - 1
    ensures IsInt(RemovePointer(t)) == IsInt(t) && IsBool(RemovePointer(t)) == IsBool(t)
  {
  }

  /** The boolean descriptor is an integer one of width 1, whatever its sign. */
  lemma BoolIsIntOfWidthOne(t: Type)
    ensures IsBool(t) <==> (t.kind == SIGNED || t.kind == UNSIGNED) && t.width == 1
    ensures IsSigned(t) ==> IsInt(t)
  {
  }

  /** The terminator is a scalar signed integer of width 0: not a pointer,
      and different from every descriptor a kernel allocates for itself. */
  lemma NoTypeIsNotAllocated()
    ensures NoType != Int8 && NoType != Int64 && !IsPointer(NoType) && IsInt(NoType)
  {
  }
}
