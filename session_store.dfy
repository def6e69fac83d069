/** The Token collection: stored refresh tokens with their owners.

    The collection has no unique index on `token`, so the same value may be
    stored more than once; `Token.deleteOne({token})` removes one match, taken
    here to be the first in insertion order. */
module SessionStore {
  import opened Types

  /** Number of records holding the token value `t`. */
  function Count(records: seq<Session>, t: Token): nat
  {
    if records == [] then 0
    else (if records[0].token == t then 1 else 0) + Count(records[1..], t)
  }

  /** `Token.exists({token: t})`. */
  predicate Stored(records: seq<Session>, t: Token) {
    exists i :: 0 <= i < |records| && records[i].token == t
  }

  /** The position of the first record holding `t`. */
  function FirstIndex(records: seq<Session>, t: Token): (i: nat)
    requires Stored(records, t)
    ensures i < |records| && records[i].token == t
    ensures forall j :: 0 <= j < i ==> records[j].token != t
  {
    if records[0].token == t then 0
    else
      assert Stored(records[1..], t) by {
        var k :| 0 <= k < |records| && records[k].token == t;
        assert records[1..][k - 1] == records[k];
      }
      var k := FirstIndex(records[1..], t);
      assert forall j :: 1 <= j < k + 1 ==> records[j] == records[1..][j - 1];
      k + 1
  }

  /** `Token.deleteOne({token: t})`: the first record holding `t` goes. */
  function RemoveFirst(records: seq<Session>, t: Token): seq<Session>
  {
    if records == [] then []
    else if records[0].token == t then records[1..]
    else [records[0]] + RemoveFirst(records[1..], t)
  }

  /** Without a match nothing changes. */
  lemma {:induction false} RemoveFirstUnstored(records: seq<Session>, t: Token)
    requires !Stored(records, t)
    ensures RemoveFirst(records, t) == records
  {
    if records != [] {
      assert records[0].token != t;
      assert !Stored(records[1..], t) by {
        forall i | 0 <= i < |records[1..]| ensures records[1..][i].token != t {
          assert records[1..][i] == records[i + 1];
        }
      }
      RemoveFirstUnstored(records[1..], t);
    }
  }

  /** The first match goes and every other record stays, in order. */
  lemma {:induction false} RemoveFirstStored(records: seq<Session>, t: Token)
    requires Stored(records, t)
    ensures RemoveFirst(records, t) == records[..FirstIndex(records, t)] + records[FirstIndex(records, t) + 1..]
  {
    if records[0].token != t {
      var k := FirstIndex(records[1..], t);
      RemoveFirstStored(records[1..], t);
      assert FirstIndex(records, t) == k + 1;
      assert [records[0]] + records[1..][..k] == records[..k + 1];
      assert records[1..][k + 1..] == records[k + 2..];
    }
  }

  lemma {:induction false} StoredIffCount(records: seq<Session>, t: Token)
    ensures Stored(records, t) <==> Count(records, t) > 0
  {
    if records != [] {
      StoredIffCount(records[1..], t);
      if Stored(records, t) && records[0].token != t {
        var i :| 0 <= i < |records| && records[i].token == t;
        assert records[1..][i - 1].token == t;
      }
      if Stored(records[1..], t) {
        var i :| 0 <= i < |records[1..]| && records[1..][i].token == t;
        assert records[i + 1].token == t;
      }
    }
  }

  lemma {:induction false} CountAppend(records: seq<Session>, s: Session, t: Token)
    ensures Count(records + [s], t) == Count(records, t) + (if s.token == t then 1 else 0)
  {
    if records == [] {
      assert [s][1..] == [];
    } else {
      assert (records + [s])[1..] == records[1..] + [s];
      CountAppend(records[1..], s, t);
    }
  }

  lemma {:induction false} CountConcat(a: seq<Session>, b: seq<Session>, t: Token)
    ensures Count(a + b, t) == Count(a, t) + Count(b, t)
  {
    if a == [] {
      assert a + b == b;
    } else {
      assert (a + b)[1..] == a[1..] + b;
      CountConcat(a[1..], b, t);
    }
  }

  /** Removing the first match takes exactly one record holding `t` away and
      leaves the count of every other token value as it was. */
  lemma {:induction false} CountRemoveFirst(records: seq<Session>, t: Token, u: Token)
    ensures Count(RemoveFirst(records, t), u) ==
              if u == t && Count(records, t) > 0 then Count(records, u) - 1 else Count(records, u)
  {
    if records != [] && records[0].token != t {
      var rest := RemoveFirst(records[1..], t);
      CountRemoveFirst(records[1..], t, u);
      assert RemoveFirst(records, t) == [records[0]] + rest;
      assert ([records[0]] + rest)[1..] == rest;
    }
  }

  /** A deletion only ever removes records. */
  lemma {:induction false} RemoveFirstSubset(records: seq<Session>, t: Token)
    ensures forall s :: s in RemoveFirst(records, t) ==> s in records
  {
    if records != [] && records[0].token != t {
      RemoveFirstSubset(records[1..], t);
      assert RemoveFirst(records, t) == [records[0]] + RemoveFirst(records[1..], t);
    }
  }

  /** A deletion removes at most one record. */
  lemma RemoveFirstLength(records: seq<Session>, t: Token)
    ensures |RemoveFirst(records, t)| == if Stored(records, t) then |records| - 1 else |records|
  {
    if Stored(records, t) {
      RemoveFirstStored(records, t);
    } else {
      RemoveFirstUnstored(records, t);
    }
  }

  // ---------------------------------------------------------------------------

  class TokenStore {
    /** The Token collection in insertion order. */
    var records: seq<Session>

    constructor ()
      ensures records == []
    {
      records := [];
    }

    /** `Token.create({token, userId})`. */
    method Create(token: Token, userId: UserId)
      modifies this
      ensures records == old(records) + [Session(token, userId)]
    {
      records := records + [Session(token, userId)];
    }

    /** `Token.exists({token})`. */
    method Exists(token: Token) returns (found: bool)
      ensures found == Stored(records, token)
    {
      StoredIffCount(records, token);
      found := Count(records, token) > 0;
    }

    /** `Token.deleteOne({token})`. */
    method DeleteOne(token: Token)
      modifies this
      ensures records == RemoveFirst(old(records), token)
    {
      records := RemoveFirst(records, token);
    }
  }
}
