/** Machine integer ranges and the result types shared by every component. */
module Base {
  const U32_LIMIT: int := 0x1_0000_0000
  const U64_LIMIT: int := 0x1_0000_0000_0000_0000

  type uint32 = x: int | 0 <= x < 0x1_0000_0000
  type uint64 = x: int | 0 <= x < 0x1_0000_0000_0000_0000

  /** The one 32-bit id after which the registry's id counter wraps to zero. */
  const LAST_ID: uint32 := 0xFFFF_FFFF

  datatype Option<+T> = None | Some(value: T)

  datatype Result<+T, +E> = Ok(value: T) | Err(error: E)

  /** What can be kept closed: the object invariants and the record of a run. */
  datatype Door = StateDoor | DetectorDoor | PairDoor | RunDoor | MeterDoor | SourceDoor | MaskDoor | TableDoor

  /** Always true: mentioning it lets a proof look behind a door. Without it the definition stays out of the way. */
  ghost predicate Key(door: Door, k: int) {
    true
  }

  /** Distinct numbers below a bound: there are at most that many of them. */
  lemma {:induction false} Pigeonhole(s: set<int>, bound: nat)
    requires forall x :: x in s ==> 0 <= x < bound
    ensures |s| <= bound
  {
    if x :| x in s {
      Pigeonhole(s - {bound - 1}, bound - 1);
    } else {
      assert forall x :: x !in s;
      assert |s| == 0;
    }
  }

  /** A set and its image under an injection have the same size. */
  lemma {:induction false} SizeThrough<A(!new), B>(s: set<A>, f: A -> B, image: set<B>)
    requires forall a, a' :: a in s && a' in s && f(a) == f(a') ==> a == a'
    requires forall a :: a in s ==> f(a) in image
    requires forall b :: b in image ==> exists a :: a in s && f(a) == b
    ensures |s| == |image|
  {
    if s == {} {
      assert image == {};
    } else {
      var a :| a in s;
      SizeThrough(s - {a}, f, image - {f(a)});
    }
  }
}
