/** Result and option types shared by every module, and small facts about sequences. */
module Basics {
  datatype Option<+T> = None | Some(value: T)
  {
    predicate IsFailure() {
      None?
    }

    function PropagateFailure<U>(): Option<U>
      requires None?
    {
      None
    }

    function Extract(): T
      requires Some?
    {
      value
    }
  }

  /** A fallible result. The wording of error messages is not modelled, only whether the call fails. */
  datatype Result<+T> = Success(value: T) | Failure
  {
    predicate IsFailure() {
      Failure?
    }

    function PropagateFailure<U>(): Result<U>
      requires Failure?
    {
      Failure
    }

    function Extract(): T
      requires Success?
    {
      value
    }
  }

  const U16_BOUND: int := 0x1_0000
  const U32_BOUND: int := 0x1_0000_0000
  const U64_BOUND: int := 0x1_0000_0000_0000_0000

  type u8 = n: int | 0 <= n < 0x100
  type u16 = n: int | 0 <= n < 0x1_0000
  type u32 = n: int | 0 <= n < 0x1_0000_0000
  type u64 = n: int | 0 <= n < 0x1_0000_0000_0000_0000

  function Least(a: nat, b: nat): nat {
    if a < b then a else b
  }

  ghost predicate Distinct<T>(s: seq<T>) {
    forall i, j :: 0 <= i < j < |s| ==> s[i] != s[j]
  }

  function Flatten<T(!new)>(parts: seq<seq<T>>): (r: seq<T>)
    ensures forall x :: x in r <==> exists i :: 0 <= i < |parts| && x in parts[i]
  {
    if parts == [] then []
    else
      var rest := Flatten(parts[1..]);
      assert forall x :: x in rest ==> exists i :: 1 <= i < |parts| && x in parts[i] by {
        forall x | x in rest
          ensures exists i :: 1 <= i < |parts| && x in parts[i]
        {
          var i :| 0 <= i < |parts[1..]| && x in parts[1..][i];
          assert x in parts[i + 1];
        }
      }
      assert forall x, i :: 1 <= i < |parts| && x in parts[i] ==> x in rest by {
        forall x, i | 1 <= i < |parts| && x in parts[i]
          ensures x in rest
        {
          assert parts[1..][i - 1] == parts[i];
        }
      }
      parts[0] + rest
  }
}
