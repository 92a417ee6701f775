/** Values shared by every part of the model. */
module Values {

  datatype Option<+T> = None | Some(value: T)

  /** A JSON value: what encode-then-decode returns unchanged. Inputs, step outputs and workflow outputs are these. */
  datatype Json =
    | JNull
    | JBool(b: bool)
    | JNum(n: int)
    | JStr(s: string)
    | JArr(items: seq<Json>)
    | JObj(fields: map<string, Json>)

  function Min(x: int, y: int): int {
    if x <= y then x else y
  }

  function Max(x: int, y: int): int {
    if x <= y then y else x
  }

  function Pow2(n: nat): nat {
    if n == 0 then 1 else 2 * Pow2(n - 1)
  }

  /** A set of numbers strictly between 0 and n has fewer than n members. */
  lemma {:induction false} SmallSet(s: set<nat>, n: nat)
    requires n >= 1
    requires forall x :: x in s ==> 1 <= x < n
    ensures |s| <= n - 1
  {
    if n == 1 {
      assert s == {};
    } else {
      SmallSet(s - {n - 1}, n - 1);
      assert s <= (s - {n - 1}) + {n - 1};
      SubsetSize(s, (s - {n - 1}) + {n - 1});
    }
  }

  lemma {:induction false} SubsetSize<T>(a: set<T>, b: set<T>)
    requires a <= b
    ensures |a| <= |b|
  {
    if a != {} {
      var x :| x in a;
      SubsetSize(a - {x}, b - {x});
    }
  }
}
