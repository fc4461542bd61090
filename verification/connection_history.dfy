/** The bounded connection history: what one trim keeps, and why trimming in batches is harmless. */
module ConnectionHistory {
  import opened Basics
  import opened NewestStamps

  const MAXIMUM_ENTRIES: nat := 1500
  const RESERVED_CLOSED: nat := 300
  const BATCH_SLACK: nat := 64

  datatype Connection = Connection(
    protocol: string, state: string, source: string, destination: string, route: string,
    sourcePort: nat, destinationPort: nat, mark: bv32,
    firstSeen: int, lastSeen: int, active: bool, observed: bool)

  type History = map<string, Connection>

  function StampOf(e: History, k: string): Stamp
    requires k in e
  {
    Stamp(e[k].lastSeen, k)
  }

  function Active(e: History): set<Stamp> {
    set k | k in e && e[k].active :: Stamp(e[k].lastSeen, k)
  }

  function Closed(e: History): set<Stamp> {
    set k | k in e && !e[k].active :: Stamp(e[k].lastSeen, k)
  }

  /** Active rows may fill the table except for the reserve the closed rows can use. */
  function ActiveLimit(closed: nat): nat {
    MAXIMUM_ENTRIES - Min(RESERVED_CLOSED, closed)
  }

  function ClosedLimit(active: nat, closed: nat): nat {
    MAXIMUM_ENTRIES - Min(active, ActiveLimit(closed))
  }

  function Restrict(e: History, keep: set<Stamp>): History {
    map k | k in e && StampOf(e, k) in keep :: e[k]
  }

  ghost function KeptActive(e: History): set<Stamp> {
    Newest(Active(e), ActiveLimit(|Closed(e)|))
  }

  ghost function KeptClosed(e: History): set<Stamp> {
    Newest(Closed(e), ClosedLimit(|Active(e)|, |Closed(e)|))
  }

  /** What one trim leaves of a table of any size. */
  ghost function Trimmed(e: History): History {
    Restrict(e, KeptActive(e) + KeptClosed(e))
  }

  ghost predicate OmitsObserved(all: History, kept: History) {
    exists k :: k in all && all[k].observed && k !in kept
  }

  lemma RestrictedStamps(e: History, a: set<Stamp>, c: set<Stamp>)
    requires a <= Active(e) && c <= Closed(e)
    ensures Active(Restrict(e, a + c)) == a
    ensures Closed(Restrict(e, a + c)) == c
  {
    var r := Restrict(e, a + c);
    forall x | x in a ensures x in Active(r) { assert x.key in e && x.key in r; }
    forall x | x in c ensures x in Closed(r) { assert x.key in e && x.key in r; }
  }

  lemma StampsWithout(e: History, k: string)
    requires k in e
    ensures Active(e - {k}) == Active(e) - {StampOf(e, k)}
    ensures Closed(e - {k}) == Closed(e) - {StampOf(e, k)}
  {
    var rest := e - {k};
    forall x | x in Active(e) - {StampOf(e, k)} ensures x in Active(rest) { assert x.key in rest; }
    forall x | x in Closed(e) - {StampOf(e, k)} ensures x in Closed(rest) { assert x.key in rest; }
  }

  lemma {:induction false} EveryRowHasOneStamp(e: History)
    ensures |Active(e)| + |Closed(e)| == |e|
    decreases |e|
  {
    if e == map[] {
      assert Active(e) == {} && Closed(e) == {};
    } else {
      var k :| k in e;
      StampsWithout(e, k);
      assert e.Keys == (e - {k}).Keys + {k};
      EveryRowHasOneStamp(e - {k});
      assert StampOf(e, k) in (if e[k].active then Active(e) else Closed(e));
      assert StampOf(e, k) !in (if e[k].active then Closed(e) else Active(e));
    }
  }

  /** One trim leaves at most 1500 rows, and closed rows lose their 300 only when they have fewer. */
  lemma TrimmedIsBounded(e: History)
    ensures |Trimmed(e)| == Min(MAXIMUM_ENTRIES, |e|)
    ensures |Closed(Trimmed(e))| >= Min(RESERVED_CLOSED, |Closed(e)|)
    ensures |Active(Trimmed(e))| == Min(|Active(e)|, MAXIMUM_ENTRIES - Min(RESERVED_CLOSED, |Closed(e)|))
  {
    RestrictedStamps(e, KeptActive(e), KeptClosed(e));
    EveryRowHasOneStamp(e);
    EveryRowHasOneStamp(Trimmed(e));
  }

  /** A row that goes was last seen no later than any row of its class that stays. */
  lemma TrimKeepsTheLatest(e: History, stays: string, goes: string)
    requires stays in Trimmed(e) && goes in e && goes !in Trimmed(e) && e[stays].active == e[goes].active
    ensures e[goes].lastSeen <= e[stays].lastSeen
  {
    var a, c := Active(e), Closed(e);
    var x, y := StampOf(e, stays), StampOf(e, goes);
    assert KeptActive(e) <= a && KeptClosed(e) <= c;
    assert if e[goes].active then y in a && y !in KeptActive(e) else y in c && y !in KeptClosed(e);
    assert forall z :: z in a ==> e[z.key].active;
    assert forall z :: z in c ==> !e[z.key].active;
    assert Older(y, x);
  }

  /** Every row of `rows` is in the table under its own key. */
  ghost predicate InTable(e: History, rows: set<Stamp>) {
    forall x :: x in rows ==> x.key in e && x == StampOf(e, x.key)
  }

  /** Exactly the keys of `gone` are missing from `now`. */
  ghost predicate ErasedExactly(before: History, gone: set<Stamp>, now: History) {
    && (forall k :: k in before ==> (k in now <==> StampOf(before, k) !in gone))
    && (forall k :: k in now ==> k in before && now[k] == before[k])
  }

  ghost predicate AnyObserved(e: History, rows: set<Stamp>) {
    exists x :: x in rows && x.key in e && e[x.key].observed
  }

  lemma EraseOne(before: History, gone: set<Stamp>, x: Stamp, now: History)
    requires InTable(before, gone + {x}) && x !in gone && ErasedExactly(before, gone, now)
    ensures x.key in now
    ensures ErasedExactly(before, gone + {x}, now - {x.key})
    ensures AnyObserved(before, gone + {x}) <==> AnyObserved(before, gone) || now[x.key].observed
  {
    if AnyObserved(before, gone) {
      var y :| y in gone && y.key in before && before[y.key].observed;
      assert y in gone + {x};
    }
    assert x in gone + {x};
  }

  lemma ErasureIsTrim(all: History, between: History, now: History, ka: set<Stamp>, kc: set<Stamp>)
    requires ka == KeptActive(all) && kc == KeptClosed(all)
    requires ErasedExactly(all, Active(all) - ka, between)
    requires ErasedExactly(between, Closed(all) - kc, now)
    ensures now == Trimmed(all)
  {
    forall k | k in all ensures k in now <==> k in Trimmed(all) {
      assert StampOf(all, k) in (if all[k].active then Active(all) else Closed(all));
      assert StampOf(all, k) !in (if all[k].active then Closed(all) else Active(all));
    }
  }

  lemma SmallTableIsKept(e: History)
    requires |e| <= MAXIMUM_ENTRIES
    ensures Trimmed(e) == e
  {
    EveryRowHasOneStamp(e);
    CardinalityIsMonotone(KeptActive(e), Active(e));
    CardinalityIsMonotone(KeptClosed(e), Closed(e));
    forall k | k in e ensures k in Trimmed(e) {
      assert StampOf(e, k) in Active(e) + Closed(e);
    }
  }

  lemma SizeAfterActive(all: History, between: History)
    requires ErasedExactly(all, Active(all) - KeptActive(all), between)
    ensures InTable(between, Closed(all))
    ensures |between| == |KeptActive(all)| + |Closed(all)|
  {
    forall k | k in all ensures k in between <==> k in Restrict(all, KeptActive(all) + Closed(all)) {
      assert StampOf(all, k) in (if all[k].active then Active(all) else Closed(all));
      assert StampOf(all, k) !in (if all[k].active then Closed(all) else Active(all));
    }
    assert between == Restrict(all, KeptActive(all) + Closed(all));
    RestrictedStamps(all, KeptActive(all), Closed(all));
    EveryRowHasOneStamp(between);
  }

  lemma OmissionSplits(all: History, between: History, now: History, a: set<Stamp>, c: set<Stamp>)
    requires InTable(all, a) && ErasedExactly(all, a, between)
    requires InTable(between, c) && ErasedExactly(between, c, now)
    ensures OmitsObserved(all, now) <==> AnyObserved(all, a) || AnyObserved(between, c)
  {
    if AnyObserved(all, a) {
      var x :| x in a && x.key in all && all[x.key].observed;
      assert x.key !in now;
    }
    if AnyObserved(between, c) {
      var x :| x in c && x.key in between && between[x.key].observed;
      assert x.key in all && x.key !in now;
    }
  }

  // ---- Batched trimming ----

  /** A partial table still holds everything a trim of the full table would keep: of the full stamp
      sets `sa` (active) and `sc` (closed), `ea` and `ec` remain. The active limit can only shrink as
      closed rows arrive, and closed rows go only above their reserve. */
  ghost predicate SufficientStamps(sa: set<Stamp>, sc: set<Stamp>, ea: set<Stamp>, ec: set<Stamp>) {
    && Newest(sa, ActiveLimit(|sc|)) <= ea
    && (ec == sc || (|ec| >= RESERVED_CLOSED && Newest(sc, ClosedLimit(|sa|, |sc|)) <= ec))
  }

  ghost predicate Sufficient(s: History, e: History) {
    && (forall k :: k in e ==> k in s && e[k] == s[k])
    && SufficientStamps(Active(s), Closed(s), Active(e), Closed(e))
  }

  lemma SubtableStamps(s: History, e: History)
    requires forall k :: k in e ==> k in s && e[k] == s[k]
    ensures Active(e) <= Active(s) && Closed(e) <= Closed(s)
    ensures |Active(e)| <= |Active(s)| && |Closed(e)| <= |Closed(s)|
  {
    CardinalityIsMonotone(Active(e), Active(s));
    CardinalityIsMonotone(Closed(e), Closed(s));
  }

  /** Trimming a sufficient part gives exactly what trimming the whole gives. */
  lemma SufficientKeepsSame(s: History, e: History)
    requires Sufficient(s, e)
    ensures KeptActive(e) == KeptActive(s) && KeptClosed(e) == KeptClosed(s)
    ensures ActiveLimit(|Closed(e)|) == ActiveLimit(|Closed(s)|)
    ensures ClosedLimit(|Active(e)|, |Closed(e)|) == ClosedLimit(|Active(s)|, |Closed(s)|)
  {
    SubtableStamps(s, e);
    hide SufficientStamps, Active, Closed, ActiveLimit, ClosedLimit;
    SufficientStampsKeepSame(Active(s), Closed(s), Active(e), Closed(e));
  }

  lemma SufficientStampsKeepSame(sa: set<Stamp>, sc: set<Stamp>, ea: set<Stamp>, ec: set<Stamp>)
    requires ea <= sa && ec <= sc && |ea| <= |sa| && |ec| <= |sc| && SufficientStamps(sa, sc, ea, ec)
    ensures ActiveLimit(|ec|) == ActiveLimit(|sc|) && Newest(ea, ActiveLimit(|ec|)) == Newest(sa, ActiveLimit(|sc|))
    ensures ClosedLimit(|ea|, |ec|) == ClosedLimit(|sa|, |sc|)
    ensures Newest(ec, ClosedLimit(|ea|, |ec|)) == Newest(sc, ClosedLimit(|sa|, |sc|))
  {
    hide AreNewest;
    NewestOfSubset(sa, ea, ActiveLimit(|sc|));
    if ec != sc { NewestOfSubset(sc, ec, ClosedLimit(|sa|, |sc|)); }
  }

  lemma KeptRowIsThere(s: History, e: History, k: string)
    requires Sufficient(s, e) && k in s && StampOf(s, k) in KeptActive(s) + KeptClosed(s)
    ensures k in e
  {
    var x := StampOf(s, k);
    assert x in Active(e) || x in Closed(e);
    assert x.key in e;
  }

  lemma SufficientTrimsSame(s: History, e: History)
    requires Sufficient(s, e)
    ensures Trimmed(e) == Trimmed(s)
  {
    SufficientKeepsSame(s, e);
    var keep := KeptActive(s) + KeptClosed(s);
    hide KeptActive, KeptClosed, SufficientStamps, Active, Closed;
    forall k | k in Restrict(s, keep) ensures k in e { KeptRowIsThere(s, e, k); }
  }

  lemma SufficientAfterTrim(s: History, e: History)
    requires Sufficient(s, e)
    ensures Sufficient(s, Trimmed(e))
  {
    SufficientKeepsSame(s, e);
    RestrictedStamps(e, KeptActive(e), KeptClosed(e));
    var t := Trimmed(e);
    CardinalityIsMonotone(KeptClosed(e), Closed(e));
    if Closed(e) == Closed(s) && Closed(t) != Closed(s) {
      assert |Closed(t)| == ClosedLimit(|Active(e)|, |Closed(e)|) >= RESERVED_CLOSED;
    }
  }

  lemma StampsAfterInsert(e: History, k: string, c: Connection)
    requires k !in e
    ensures var x := Stamp(c.lastSeen, k);
      Active(e[k := c]) == (if c.active then Active(e) + {x} else Active(e)) &&
      Closed(e[k := c]) == (if c.active then Closed(e) else Closed(e) + {x}) &&
      x !in Active(e) && x !in Closed(e)
  {
    var f := e[k := c];
    forall y | y in Active(e) ensures y in Active(f) { assert y.key in f; }
    forall y | y in Closed(e) ensures y in Closed(f) { assert y.key in f; }
    assert k in f;
    assert Stamp(c.lastSeen, k) in (if c.active then Active(f) else Closed(f));
  }

  lemma ActiveRowArrives(sa: set<Stamp>, sc: set<Stamp>, ea: set<Stamp>, ec: set<Stamp>, x: Stamp)
    requires SufficientStamps(sa, sc, ea, ec) && x !in sa
    ensures SufficientStamps(sa + {x}, sc, ea + {x}, ec)
  {
    NewestAfterInsert(sa, x, ActiveLimit(|sc|), ActiveLimit(|sc|));
    NewestShrinks(sc, ClosedLimit(|sa|, |sc|), ClosedLimit(|sa + {x}|, |sc|));
  }

  lemma ClosedRowArrives(sa: set<Stamp>, sc: set<Stamp>, ea: set<Stamp>, ec: set<Stamp>, x: Stamp)
    requires SufficientStamps(sa, sc, ea, ec) && ec <= sc && x !in sc
    ensures SufficientStamps(sa, sc + {x}, ea, ec + {x})
  {
    NewestShrinks(sa, ActiveLimit(|sc|), ActiveLimit(|sc + {x}|));
    if ec != sc {
      CardinalityIsMonotone(ec, sc);
      NewestAfterInsert(sc, x, ClosedLimit(|sa|, |sc|), ClosedLimit(|sa|, |sc + {x}|));
    }
  }

  lemma SufficientAfterInsert(s: History, e: History, k: string, c: Connection)
    requires Sufficient(s, e) && k !in s
    ensures Sufficient(s[k := c], e[k := c])
  {
    var x := Stamp(c.lastSeen, k);
    var sa, sc, ea, ec := Active(s), Closed(s), Active(e), Closed(e);
    var s', e' := s[k := c], e[k := c];
    assert ec <= sc by { SubtableStamps(s, e); }
    assert x !in sa && x !in sc by { StampsAfterInsert(s, k, c); }
    assert SufficientStamps(Active(s'), Closed(s'), Active(e'), Closed(e')) by {
      StampsAfterInsert(s, k, c);
      StampsAfterInsert(e, k, c);
      if c.active {
        ActiveRowArrives(sa, sc, ea, ec, x);
      } else {
        ClosedRowArrives(sa, sc, ea, ec, x);
      }
    }
  }

  /** What a batched merge keeps true of the rows added so far and the rows still in the table. */
  ghost predicate Batched(all: History, kept: History, truncated: bool) {
    Sufficient(all, kept) && (truncated <==> OmitsObserved(all, kept))
  }

  lemma BatchedAfterInsert(all: History, kept: History, truncated: bool, k: string, c: Connection)
    requires Batched(all, kept, truncated) && k !in all
    ensures Batched(all[k := c], kept[k := c], truncated)
  {
    SufficientAfterInsert(all, kept, k, c);
    if truncated {
      var o :| o in all && all[o].observed && o !in kept;
      assert o in all[k := c] && all[k := c][o].observed && o !in kept[k := c];
    }
  }

  lemma BatchedAfterTrim(all: History, kept: History, truncated: bool, omitted: bool)
    requires Batched(all, kept, truncated)
    requires omitted <==> OmitsObserved(kept, Trimmed(kept))
    ensures Batched(all, Trimmed(kept), truncated || omitted)
    ensures Trimmed(kept) == Trimmed(all)
  {
    SufficientAfterTrim(all, kept);
    SufficientTrimsSame(all, kept);
    if omitted {
      var o :| o in kept && kept[o].observed && o !in Trimmed(kept);
      assert o in all && all[o].observed;
    }
    if truncated {
      var o :| o in all && all[o].observed && o !in kept;
      assert o !in Trimmed(kept);
    }
  }

  lemma SufficientReflexive(s: History)
    ensures Sufficient(s, s)
  {
  }

  lemma UnionByOne(m: History, x: History, k: string)
    requires k in x
    ensures (m + (x - {k}))[k := x[k]] == m + x
    ensures |x - {k}| < |x|
  {
    assert x.Keys == (x - {k}).Keys + {k};
  }

  lemma {:induction false} SufficientAfterUnion(s: History, e: History, x: History)
    requires Sufficient(s, e) && s.Keys !! x.Keys
    ensures Sufficient(s + x, e + x)
    decreases |x|
  {
    hide Sufficient;
    if x == map[] {
      assert s + x == s && e + x == e;
    } else {
      var k :| k in x;
      var rest := x - {k};
      UnionByOne(s, x, k);
      UnionByOne(e, x, k);
      SufficientAfterUnion(s, e, rest);
      SufficientAfterInsert(s + rest, e + rest, k, x[k]);
    }
  }

  /** Trimming early changes nothing: whatever rows arrive afterwards, one last trim gives the same
      table as if nothing had been trimmed before. */
  lemma TrimmingEarlyIsHarmless(s: History, x: History)
    requires s.Keys !! x.Keys
    ensures Trimmed(Trimmed(s) + x) == Trimmed(s + x)
  {
    SufficientReflexive(s);
    SufficientAfterTrim(s, s);
    SufficientAfterUnion(s, Trimmed(s), x);
    SufficientTrimsSame(s + x, Trimmed(s) + x);
  }
}
