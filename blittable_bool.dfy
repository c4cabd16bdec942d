/** BlittableBool: a bool stored in one byte so that it can live in
    unmanaged memory. */
module BlittableBools {
  newtype byte = x: int | 0 <= x < 256

  datatype BlittableBool = BlittableBool(value: byte)

  /** The boxed argument of Equals(object): null, a boxed BlittableBool,
      or a value of some other type. */
  datatype Object = Null | Boxed(b: BlittableBool) | OtherType(typeId: int)

  /** default(BlittableBool): the zero byte. */
  const Default := BlittableBool(0)

  /** The constructor and the conversion from bool: Convert.ToByte gives 1
      for true and 0 for false. */
  function FromBool(value: bool): (r: BlittableBool)
    ensures ToBool(r) == value
    ensures r.value <= 1
  {
    BlittableBool(if value then 1 else 0)
  }

  /** The conversion to bool: any non-zero byte reads as true. */
  function ToBool(b: BlittableBool): (r: bool)
    ensures !r <==> b == Default
  {
    b.value != 0
  }

  /** Equals(BlittableBool): the stored bytes are compared. */
  function Equals(a: BlittableBool, other: BlittableBool): (r: bool)
    ensures r <==> a == other
  {
    a.value == other.value
  }

  /** Equals(object): true only for a boxed BlittableBool equal to `a`. */
  function EqualsObject(a: BlittableBool, obj: Object): (r: bool)
    ensures r <==> obj == Boxed(a)
  {
    obj.Boxed? && Equals(a, obj.b)
  }

  /** GetHashCode: the stored byte. */
  function GetHashCode(a: BlittableBool): (r: int)
    ensures 0 <= r < 256
    ensures a == Default ==> r == 0
  {
    a.value as int
  }

  /** operator ==. */
  function Eq(left: BlittableBool, right: BlittableBool): (r: bool)
    ensures r <==> left == right
  {
    Equals(left, right)
  }

  /** operator !=. */
  function Neq(left: BlittableBool, right: BlittableBool): (r: bool)
    ensures r <==> left != right
  {
    !Equals(left, right)
  }

  /** A bool survives the trip through BlittableBool. */
  lemma RoundTrip(b: bool)
    ensures ToBool(FromBool(b)) == b
    ensures FromBool(ToBool(FromBool(b))) == FromBool(b)
  {
  }

  /** For values built from bools, Equals agrees with bool equality, and
      equal values hash equally. */
  lemma EqualsMatchesBool(x: bool, y: bool)
    ensures Equals(FromBool(x), FromBool(y)) <==> x == y
    ensures Equals(FromBool(x), FromBool(y)) ==> GetHashCode(FromBool(x)) == GetHashCode(FromBool(y))
  {
  }

  /** != is the negation of == on every pair, and Equals(object) on a
      boxed value agrees with Equals. */
  lemma OperatorsAgree(a: BlittableBool, b: BlittableBool)
    ensures Neq(a, b) == !Eq(a, b)
    ensures EqualsObject(a, Boxed(b)) == Equals(a, b)
    ensures !EqualsObject(a, Null)
  {
  }

  /** A byte other than 0 and 1 reads as true but is not Equal to true. */
  lemma NonCanonicalTrue()
    ensures ToBool(BlittableBool(2)) && ToBool(FromBool(true))
    ensures !Equals(BlittableBool(2), FromBool(true))
  {
  }
}
