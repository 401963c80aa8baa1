/** Types and sequence functions shared by the whole model. */
module Prelude {

  datatype Option<+T> = None | Some(value: T)

  /** How one repository or queue call ends: done and confirmed, refused without effect, or done with an
      error reported all the same. */
  datatype Outcome = Ok | Refused | Unconfirmed

  /** The calls logged since `before` were all confirmed. */
  ghost predicate Confirmed(before: seq<Outcome>, after: seq<Outcome>) {
    before <= after && forall i :: |before| <= i < |after| ==> after[i] == Ok
  }

  /** One more call was logged. */
  ghost predicate Logged(before: seq<Outcome>, after: seq<Outcome>) {
    |after| == |before| + 1 && before <= after
  }

  /** How a call ends: the environment decides. */
  method Fate() returns (o: Outcome)
  {
    o := *;
  }

  function Flatten<T>(ss: seq<seq<T>>): seq<T> {
    if ss == [] then [] else ss[0] + Flatten(ss[1..])
  }

  lemma {:induction false} FlattenAppend<T>(a: seq<seq<T>>, b: seq<seq<T>>)
    ensures Flatten(a + b) == Flatten(a) + Flatten(b)
  {
    if a == [] {
      assert a + b == b;
    } else {
      FlattenAppend(a[1..], b);
      assert (a + b)[1..] == a[1..] + b;
      assert Flatten(a + b) == a[0] + (Flatten(a[1..]) + Flatten(b));
    }
  }

  lemma {:induction false} FlattenSnoc<T>(ss: seq<seq<T>>, s: seq<T>)
    ensures Flatten(ss + [s]) == Flatten(ss) + s
  {
    FlattenAppend(ss, [s]);
    assert Flatten([s]) == s + Flatten<T>([]);
  }

  /** Some member of the set, no promise which. */
  method Any<T>(s: set<T>) returns (x: T)
    requires s != {}
    ensures x in s
  {
    x :| x in s;
  }
}
