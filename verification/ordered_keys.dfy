/** Ordered collections of distinct strings, as `std::set` and `std::map` iterate them. */
module OrderedKeys {
  import Text

  predicate Ascending(s: seq<string>) {
    forall i, j :: 0 <= i < j < |s| ==> Text.Less(s[i], s[j])
  }

  ghost predicate Holds(s: seq<string>, keys: set<string>) {
    Ascending(s) && forall x :: x in s <==> x in keys
  }

  /** There is only one ascending list of a given set of keys. */
  lemma {:induction false} AscendingIsUnique(a: seq<string>, b: seq<string>, keys: set<string>)
    requires Holds(a, keys) && Holds(b, keys)
    ensures a == b
    decreases |a|
  {
    assert b != [] ==> b[0] in b;
    if a != [] {
      assert a[0] in keys;
      var i :| 0 <= i < |b| && b[i] == a[0];
      assert b[0] in b && b[0] in keys;
      var j :| 0 <= j < |a| && a[j] == b[0];
      Text.LessIsTotal(a[0], b[0]);
      assert i == 0 && j == 0;
      RestHolds(a, keys);
      RestHolds(b, keys);
      AscendingIsUnique(a[1..], b[1..], keys - {a[0]});
      assert a == [a[0]] + a[1..] && b == [b[0]] + b[1..];
    }
  }

  lemma RestHolds(a: seq<string>, keys: set<string>)
    requires Holds(a, keys) && a != []
    ensures Holds(a[1..], keys - {a[0]})
  {
    forall x ensures x in a[1..] <==> x in keys - {a[0]} {
      Text.LessIsTotal(a[0], a[0]);
      assert a == [a[0]] + a[1..];
      assert forall i :: 1 <= i < |a| ==> a[i] != a[0];
      assert x in a[1..] ==> exists i :: 1 <= i < |a| && a[i] == x;
    }
  }

  /** Inserting keeps the order and ignores a key that is already there. */
  method Insert(s: seq<string>, x: string) returns (r: seq<string>)
    requires Ascending(s)
    ensures Ascending(r)
    ensures forall y :: y in r <==> y in s || y == x
  {
    hide Text.Less;
    var i := 0;
    while i < |s| && Text.Less(s[i], x)
      invariant 0 <= i <= |s|
      invariant forall j :: 0 <= j < i ==> Text.Less(s[j], x)
    {
      i := i + 1;
    }
    if i < |s| && s[i] == x {
      return s;
    }
    Above(s, x, i);
    r := s[..i] + [x] + s[i..];
    assert forall y :: y in r <==> y in s || y == x by { assert s == s[..i] + s[i..]; }
  }

  lemma Above(s: seq<string>, x: string, i: nat)
    requires Ascending(s) && i <= |s| && (i < |s| ==> s[i] != x && !Text.Less(s[i], x))
    ensures forall j :: i <= j < |s| ==> Text.Less(x, s[j])
  {
    forall j | i <= j < |s| ensures Text.Less(x, s[j]) {
      Text.LessIsTotal(x, s[i]);
      if j != i { Text.LessIsTransitive(x, s[i], s[j]); }
    }
  }

  ghost predicate IsLeast(keys: set<string>, x: string) {
    x in keys && forall y :: y in keys && y != x ==> Text.Less(x, y)
  }

  /** The ascending list of a set of keys. */
  ghost function Sorted(keys: set<string>): (s: seq<string>)
    ensures Holds(s, keys)
    decreases |keys|
  {
    if keys == {} then []
    else
      LeastExists(keys);
      var x :| IsLeast(keys, x);
      PrependHolds(x, Sorted(keys - {x}), keys);
      [x] + Sorted(keys - {x})
  }

  lemma PrependHolds(x: string, rest: seq<string>, keys: set<string>)
    requires IsLeast(keys, x) && Holds(rest, keys - {x})
    ensures Holds([x] + rest, keys)
  {
    hide Text.Less;
    var s := [x] + rest;
    forall i, j | 0 <= i < j < |s| ensures Text.Less(s[i], s[j]) {
      assert s[j] == rest[j - 1] && rest[j - 1] in rest;
      assert i > 0 ==> s[i] == rest[i - 1];
    }
    assert forall y :: y in s <==> y == x || y in rest;
  }

  lemma {:induction false} LeastExists(keys: set<string>)
    requires keys != {}
    ensures exists x :: IsLeast(keys, x)
    decreases |keys|
  {
    hide Text.Less;
    var x :| x in keys;
    if keys == {x} {
      assert IsLeast(keys, x);
    } else {
      LeastExists(keys - {x});
      var m :| IsLeast(keys - {x}, m);
      Text.LessIsTotal(m, x);
      var least := if Text.Less(m, x) then m else x;
      forall y | y in keys && y != least ensures Text.Less(least, y) {
        assert y == x || y in keys - {x};
        if least == x && y != m { Text.LessIsTransitive(x, m, y); }
      }
      assert IsLeast(keys, least);
    }
  }
}
