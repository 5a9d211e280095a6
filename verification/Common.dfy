/** Types that several modules share. */
module Common {

  type uint32 = x: int | 0 <= x < 0x1_0000_0000

  datatype Option<T> = None | Some(value: T)

  /** A C string: the characters before its NUL. */
  type CString = s: string | '\0' !in s

  predicate Distinct<T(==)>(s: seq<T>) {
    forall i, j :: 0 <= i < j < |s| ==> s[i] != s[j]
  }

  lemma {:induction false} PushDistinct<T>(x: T, s: seq<T>)
    requires Distinct(s) && x !in s
    ensures Distinct([x] + s)
  {
    var more := [x] + s;
    assert forall i :: 1 <= i < |more| ==> more[i] == s[i - 1];
  }
}
