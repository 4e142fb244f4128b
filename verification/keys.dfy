/** Key generation as the write handlers do it: `SELECT MAX(key)`, read back as text,
    `Integer.parseInt`, then `+ 1` in Java `int` arithmetic. */
module Keys {
  import opened Options
  import opened Numerals

  lemma NonEmptyHasKey(keys: set<int>)
    requires keys != {}
    ensures exists x :: x in keys
  {
    if forall y :: y !in keys {
      assert false;
    }
  }

  lemma {:induction false} MaxExists(keys: set<int>)
    requires keys != {}
    ensures exists m :: m in keys && forall k | k in keys :: k <= m
  {
    NonEmptyHasKey(keys);
    var x :| x in keys;
    if keys == {x} {
      assert forall k | k in keys :: k <= x;
    } else {
      var rest := keys - {x};
      MaxExists(rest);
      var m :| m in rest && forall k | k in rest :: k <= m;
      var top := if x <= m then m else x;
      forall k | k in keys
        ensures k <= top
      {
        if k != x {
          assert k in rest;
        }
      }
      assert top in keys;
    }
  }

  /** The value of `MAX(key)` over a non-empty table. */
  function Max(keys: set<int>): (m: int)
    requires keys != {}
    ensures m in keys && forall k | k in keys :: k <= m
  {
    MaxExists(keys);
    var m :| m in keys && forall k | k in keys :: k <= m;
    m
  }

  /** The key the next insert uses, or `None` when the handler throws before inserting:
      an empty table makes MAX yield NULL, and `parseInt` rejects NULL and any maximum
      outside the `int` range. Below `IntMax` the key is the maximum plus one and so
      exceeds every key present; at `IntMax` the addition wraps to `IntMin`. */
  function NextKey(keys: set<int>): (r: Option<int>)
    ensures r.None? <==> keys == {} || !InInt(Max(keys))
    ensures r.Some? ==> InInt(r.value)
    ensures r.Some? && Max(keys) < IntMax ==>
              r.value == Max(keys) + 1 && forall k | k in keys :: k < r.value
    ensures r.Some? && Max(keys) == IntMax ==> r.value == IntMin
  {
    if keys == {} then None
    else
      var top := Max(keys);
      ParseShowRoundTrip(top);
      assert Wrap(IntMax + 1) == IntMin;
      match ParseInt(ShowInt(top))
      case None => None
      case Some(m) => Some(Wrap(m + 1))
  }

  /** A table whose largest key is `IntMax` hands out `IntMin` next, a key below every
      other: the "greater than every key" promise of MAX + 1 fails at the top of the range. */
  lemma NextKeyWrapsAtIntMax(keys: set<int>)
    requires IntMax in keys
    requires forall k | k in keys :: InInt(k)
    ensures NextKey(keys) == Some(IntMin)
    ensures forall k | k in keys :: NextKey(keys).value <= k
  {
    assert Max(keys) == IntMax;
  }
}
