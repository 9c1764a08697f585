/** Small notions that several modules share. */
module Common {
  function Min(x: int, y: int): int { if y < x then y else x }

  function Max(x: int, y: int): int { if x < y then y else x }

  lemma {:induction false} SubsetSize<T>(a: set<T>, b: set<T>)
    requires a <= b
    ensures |a| <= |b|
  {
    if a == {} {
    } else {
      var x :| x in a;
      SubsetSize(a - {x}, b - {x});
    }
  }

  /** Rows and keys come in no particular order. */
  method Pick<T(==)>(s: set<T>) returns (x: T)
    requires s != {}
    ensures x in s
  {
    x :| x in s;
  }

  /** A rowid past those in use. */
  method FreshRowid(ids: set<int>) returns (id: int)
    ensures forall k :: k in ids ==> k < id
  {
    id := 1;
    var left := ids;
    while left != {}
      invariant left <= ids && forall k :: k in ids && k !in left ==> k < id
      decreases |left|
    {
      var k := Pick(left);
      if id <= k {
        id := k + 1;
      }
      left := left - {k};
    }
  }
}
