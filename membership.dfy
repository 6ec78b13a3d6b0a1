/** isElementInArray: a linear scan with early return. */
module Membership {

  method IsElementInArray<T(==)>(element: T, elements: seq<T>) returns (found: bool)
    ensures found <==> element in elements
  {
    for i := 0 to |elements|
      invariant element !in elements[..i]
    {
      if elements[i] == element {
        return true;
      }
    }
    assert elements[..|elements|] == elements;
    return false;
  }
}
