/** The k newest elements of a finite set of (last seen, key) pairs. The pairs are compared as the
    history trim compares them: first by time, then by key, so the order is strict and total. */
module NewestStamps {
  import opened Basics
  import Text

  datatype Stamp = Stamp(lastSeen: int, key: string)

  predicate Older(a: Stamp, b: Stamp) {
    a.lastSeen < b.lastSeen || (a.lastSeen == b.lastSeen && Text.Less(a.key, b.key))
  }

  lemma OlderIsTotal(a: Stamp, b: Stamp)
    ensures a == b || Older(a, b) || Older(b, a)
    ensures !(Older(a, b) && Older(b, a))
    ensures a == b ==> !Older(a, b)
  {
    Text.LessIsTotal(a.key, b.key);
  }

  lemma OlderIsTransitive(a: Stamp, b: Stamp, c: Stamp)
    requires Older(a, b) && Older(b, c)
    ensures Older(a, c)
  {
    if a.lastSeen == b.lastSeen == c.lastSeen { Text.LessIsTransitive(a.key, b.key, c.key); }
  }

  ghost predicate IsOldest(s: set<Stamp>, o: Stamp) {
    o in s && forall x :: x in s ==> x == o || Older(o, x)
  }

  /** `t` holds min(k, |s|) elements of `s`, each newer than everything left out. */
  ghost predicate AreNewest(s: set<Stamp>, k: nat, t: set<Stamp>) {
    && t <= s
    && |t| == Min(k, |s|)
    && forall x, y :: x in t && y in s && y !in t ==> Older(y, x)
  }

  lemma {:induction false} OldestExists(s: set<Stamp>)
    requires s != {}
    ensures exists o :: IsOldest(s, o)
    decreases |s|
  {
    var x :| x in s;
    if s == {x} {
      assert IsOldest(s, x);
    } else {
      var rest := s - {x};
      assert s == rest + {x};
      OldestExists(rest);
      var o :| IsOldest(rest, o);
      OlderIsTotal(x, o);
      if Older(x, o) {
        forall y | y in s ensures y == x || Older(x, y) {
          if y != x && y != o { OlderIsTransitive(x, o, y); }
        }
        assert IsOldest(s, x);
      } else {
        assert IsOldest(s, o);
      }
    }
  }

  ghost function Newest(s: set<Stamp>, k: nat): (t: set<Stamp>)
    ensures AreNewest(s, k, t)
    decreases |s|
  {
    if |s| <= k then s
    else
      OldestExists(s);
      var o :| IsOldest(s, o);
      Newest(s - {o}, k)
  }

  lemma NewestIsUnique(s: set<Stamp>, k: nat, t: set<Stamp>, u: set<Stamp>)
    requires AreNewest(s, k, t) && AreNewest(s, k, u)
    ensures t == u
  {
    if t <= u {
      CardinalityIsMonotone(t, u);
    } else if u <= t {
      CardinalityIsMonotone(u, t);
    } else {
      var x :| x in t && x !in u;
      var y :| y in u && y !in t;
      OlderIsTotal(x, y);
    }
  }

  /** Dropping only elements outside the k newest leaves the k newest as they were. */
  lemma NewestOfSubset(s: set<Stamp>, e: set<Stamp>, k: nat)
    requires Newest(s, k) <= e <= s
    ensures Newest(e, k) == Newest(s, k)
    ensures Min(k, |e|) == Min(k, |s|)
  {
    CardinalityIsMonotone(Newest(s, k), e);
    CardinalityIsMonotone(e, s);
    NewestIsUnique(e, k, Newest(e, k), Newest(s, k));
  }

  /** A new element can only push old ones out of the newest, even when the bound shrinks. */
  lemma NewestAfterInsert(s: set<Stamp>, x: Stamp, k: nat, j: nat)
    requires x !in s && j <= k
    ensures Newest(s + {x}, j) <= Newest(s, k) + {x}
  {
    var t, u := Newest(s, k), Newest(s + {x}, j);
    if y :| y in u && y !in t + {x} {
      // y is in s but not among its k newest, so all k of those would have to be in u as well.
      forall z | z in t ensures z in u {
        if z !in u { OlderIsTotal(y, z); }
      }
      CardinalityIsMonotone(t + {y}, u);
    }
  }

  lemma NewestShrinks(s: set<Stamp>, k: nat, j: nat)
    requires j <= k
    ensures Newest(s, j) <= Newest(s, k)
  {
    var t, u := Newest(s, k), Newest(s, j);
    if y :| y in u && y !in t {
      forall z | z in t ensures z in u {
        if z !in u { OlderIsTotal(y, z); }
      }
      CardinalityIsMonotone(t + {y}, u);
    }
  }

  method Oldest(s: set<Stamp>) returns (o: Stamp)
    requires s != {}
    ensures IsOldest(s, o)
  {
    o :| o in s;
    var rest := s - {o};
    while rest != {}
      invariant rest <= s && o in s && o !in rest
      invariant forall x :: x in s - rest ==> x == o || Older(o, x)
      decreases |rest|
    {
      var x :| x in rest;
      OlderIsTotal(x, o);
      if Older(x, o) {
        forall y | y in s - rest && y != o ensures Older(x, y) { OlderIsTransitive(x, o, y); }
        o := x;
      }
      rest := rest - {x};
    }
    assert s - rest == s;
  }
}
