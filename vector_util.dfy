/** VectorUtil: small helpers over std::vector. */
module VectorUtil {

  /** A resizable vector whose elements a caller may erase in place. */
  class Vector<T> {
    var elements: seq<T>

    constructor (elements: seq<T>)
      ensures this.elements == elements
    {
      this.elements := elements;
    }
  }

  /** The sequence without its element at `pos`. */
  function Erase<T>(s: seq<T>, pos: nat): (r: seq<T>)
    requires pos < |s|
  {
    s[..pos] + s[pos + 1..]
  }

  /** Erasing shrinks by exactly one and shifts the later elements down by
      one place, keeping every other element in its relative order. */
  lemma EraseShifts<T>(s: seq<T>, pos: nat)
    requires pos < |s|
    ensures |Erase(s, pos)| == |s| - 1
    ensures forall i :: 0 <= i < pos ==> Erase(s, pos)[i] == s[i]
    ensures forall i :: pos <= i < |s| - 1 ==> Erase(s, pos)[i] == s[i + 1]
    ensures multiset(Erase(s, pos)) + multiset{s[pos]} == multiset(s)
  {
    assert s == s[..pos] + [s[pos]] + s[pos + 1..];
  }

  /** MakeVector: the N array elements, in order. */
  method MakeVector<T>(data: array<T>) returns (v: seq<T>)
    ensures |v| == data.Length
    ensures forall i :: 0 <= i < data.Length ==> v[i] == data[i]
  {
    v := data[..];
  }

  /** Remove: erase the element at `pos` in place (pos < size is the
      caller's obligation; std::advance past the end is undefined). */
  method Remove<T>(vec: Vector<T>, pos: nat)
    requires pos < |vec.elements|
    modifies vec
    ensures vec.elements == Erase(old(vec.elements), pos)
  {
    vec.elements := vec.elements[..pos] + vec.elements[pos + 1..];
  }

  /** Contains: a linear search for `value`. */
  method Contains<T(==)>(vec: seq<T>, value: T) returns (found: bool)
    ensures found <==> value in vec
    ensures found ==> exists i :: 0 <= i < |vec| && vec[i] == value
  {
    var i := 0;
    while i < |vec|
      invariant 0 <= i <= |vec|
      invariant value !in vec[..i]
    {
      if vec[i] == value {
        return true;
      }
      i := i + 1;
    }
    assert vec[..i] == vec;
    return false;
  }
}
