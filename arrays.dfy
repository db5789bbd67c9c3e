// Arrays.indexOf: the first position of a byte in a byte array.

module Arrays {
  import opened JavaTypes

  /** The first index of x in s, or -1 when x does not occur. */
  function FirstIndex<T(==)>(s: seq<T>, x: T): (i: int)
    decreases |s|
    ensures -1 <= i < |s|
    ensures i == -1 <==> x !in s
    ensures 0 <= i ==> s[i] == x && x !in s[..i]
  {
    if |s| == 0 then -1
    else if s[0] == x then 0
    else
      var j := FirstIndex(s[1..], x);
      assert s[1..][..j + 1] == s[1..j + 2] by {
        if j >= 0 {
          assert s[1..][..j] == s[1..j + 1];
        }
      }
      if j == -1 then -1
      else
        assert s[..j + 1] == [s[0]] + s[1..][..j];
        j + 1
  }

  /** An index holding x with no x before it is the first index. */
  lemma {:induction false} FirstIndexIsUnique<T>(s: seq<T>, x: T, i: int)
    requires 0 <= i < |s| && s[i] == x && x !in s[..i]
    ensures FirstIndex(s, x) == i
  {
  }

  /** indexOf(arr, elem): scans from the front and returns at the first match. */
  method IndexOf(arr: array<int8>, elem: int8) returns (r: int)
    ensures r == FirstIndex(arr[..], elem)
    ensures -1 <= r < arr.Length
    ensures r == -1 <==> elem !in arr[..]
    ensures 0 <= r ==> arr[r] == elem && forall j :: 0 <= j < r ==> arr[j] != elem
  {
    for i := 0 to arr.Length
      invariant elem !in arr[..i]
    {
      if arr[i] == elem {
        FirstIndexIsUnique(arr[..], elem, i);
        return i;
      }
      assert arr[..i + 1] == arr[..i] + [arr[i]];
    }
    assert arr[..arr.Length] == arr[..];
    return -1;
  }
}
