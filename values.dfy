/** Values that the EXIF reader hands to the metadata extractor, and the
    Python truthiness tests the extractor applies to them. */
module Values {

  newtype byte = x: int | 0 <= x < 256

  datatype Option<+T> = None | Some(value: T)

  datatype Result<+T, +E> = Success(value: T) | Failure(error: E)

  /** A rational as a (numerator, denominator) pair: the extractor indexes
      it as r[0] / r[1], so the denominator may be zero. */
  datatype Rational = Rational(num: int, den: int)

  /** One tag value of the raw EXIF table, tagged by its shape. */
  datatype Value =
    | IntValue(i: int)
    | TextValue(text: string)
    | BytesValue(bytes: seq<byte>)
    | RationalValue(r: Rational)
    | TripleValue(deg: Rational, min: Rational, sec: Rational)
    | DirectoryValue(entries: map<int, Value>)

  /** A key of the normalized table: the tag's name when the tag dictionary
      knows its ID, the numeric ID itself otherwise. */
  datatype Key = Named(name: string) | Numbered(id: int)

  /** Python's truth value of a tag value: zero, empty text, empty bytes and
      an empty directory are false; a tuple of two or three rationals is
      never empty and so always true. */
  predicate Truthy(v: Value) {
    match v
    case IntValue(i) => i != 0
    case TextValue(t) => t != []
    case BytesValue(b) => b != []
    case RationalValue(_) => true
    case TripleValue(_, _, _) => true
    case DirectoryValue(e) => e != map[]
  }

  /** dict.get(k): the value under k, or None when k is absent. */
  function Get(m: map<Key, Value>, k: Key): (r: Option<Value>)
    ensures r.Some? <==> k in m
    ensures r.Some? ==> r.value == m[k]
  {
    if k in m then Some(m[k]) else None
  }
}
