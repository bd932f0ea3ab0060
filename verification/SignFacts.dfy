/** Facts that map keys to signs.  A fact has no entry for most keys, and a
    missing entry is not the same as a bottom entry: joins copy the entry that
    exists (eesi/src/return_range_pass.cc:29-39,
    eesi/include/return_constraints_pass.h:42-53). */
module SignFacts {
  import opened IR
  import opened Signs
  import opened Sweep

  type Fact<K> = map<K, Sign>

  function JoinAt<K>(x: Fact<K>, y: Fact<K>, k: K): Sign
    requires k in x || k in y
  {
    if k !in y then x[k] else if k !in x then y[k] else Signs.Join(x[k], y[k])
  }

  function Joined<K>(x: Fact<K>, y: Fact<K>): Fact<K> {
    map k | k in x.Keys + y.Keys :: JoinAt(x, y, k)
  }

  /** Every entry of x has a counterpart in y that describes at least as many
      integers. */
  ghost predicate BelowFact<K(!new)>(x: Fact<K>, y: Fact<K>) {
    forall k :: k in x ==> k in y && Below(x[k], y[k])
  }

  /** A fact as a set: the keys it has entries for, and their regions. */
  ghost function Atoms<K>(f: Fact<K>): set<(K, Option<Region>)> {
    (set k | k in f :: (k, None)) + (set k, r: Region | k in f && Has(f[k], r) :: (k, Some(r)))
  }

  ghost function Universe<K>(keys: set<K>): set<(K, Option<Region>)> {
    (set k | k in keys :: (k, None)) + (set k, r: Region | k in keys :: (k, Some(r)))
  }

  lemma AtomsJoin<K(!new)>(x: Fact<K>, y: Fact<K>)
    ensures Atoms(Joined(x, y)) == Atoms(x) + Atoms(y)
  {
    forall k, r: Region | k in x && k in y ensures Has(Joined(x, y)[k], r) <==> Has(x[k], r) || Has(y[k], r) {
      JoinHas(x[k], y[k], r);
    }
    forall p ensures p in Atoms(Joined(x, y)) <==> p in Atoms(x) + Atoms(y) {
      if p.0 in x || p.0 in y {
        assert p.0 in Joined(x, y);
      }
    }
  }

  lemma AtomsInjective<K(!new)>(x: Fact<K>, y: Fact<K>)
    requires Atoms(x) == Atoms(y)
    ensures x == y
  {
    forall k ensures k in x <==> k in y {
      assert (k, None) in Atoms(x) <==> (k, None) in Atoms(y);
    }
    forall k | k in x ensures x[k] == y[k] {
      forall r: Region ensures Has(x[k], r) <==> Has(y[k], r) {
        assert (k, Some(r)) in Atoms(x) <==> (k, Some(r)) in Atoms(y);
      }
      Extensional(x[k], y[k]);
    }
  }

  lemma AtomsBelow<K(!new)>(x: Fact<K>, y: Fact<K>)
    ensures Atoms(x) <= Atoms(y) <==> BelowFact(x, y)
  {
    if Atoms(x) <= Atoms(y) {
      forall k | k in x ensures k in y && Below(x[k], y[k]) {
        assert (k, None) in Atoms(x);
        forall r: Region | Has(x[k], r) ensures Has(y[k], r) {
          assert (k, Some(r)) in Atoms(x);
        }
      }
    }
  }

  lemma AtomsWithin<K(!new)>(f: Fact<K>, keys: set<K>)
    ensures Atoms(f) <= Universe(keys) <==> f.Keys <= keys
  {
    if Atoms(f) <= Universe(keys) {
      forall k | k in f ensures k in keys {
        assert (k, None) in Atoms(f);
      }
    }
  }

  /** Boundary facts after joining the given direct writes into them. */
  ghost function JoinAll<K>(entry: seq<Fact<K>>, ws: seq<(nat, Fact<K>)>): (r: seq<Fact<K>>)
    ensures |r| == |entry|
  {
    if ws == [] then entry
    else
      var rest, w := JoinAll(entry, ws[..|ws| - 1]), ws[|ws| - 1];
      if w.0 < |entry| then rest[w.0 := Joined(rest[w.0], w.1)] else rest
  }

  lemma {:induction false} JoinAllIsSpread<K(!new), A(!new)>(sys: System<Fact<K>, A>, entry: seq<Fact<K>>,
                                                             ws: seq<(nat, Fact<K>)>)
    requires forall x, y :: sys.join(x, y) == Joined(x, y)
    ensures JoinAll(entry, ws) == Spread(sys, entry, ws)
  {
    if ws != [] {
      JoinAllIsSpread(sys, entry, ws[..|ws| - 1]);
    }
  }

  lemma {:induction false} JoinAllAppend<K(!new)>(entry: seq<Fact<K>>, ws: seq<(nat, Fact<K>)>, vs: seq<(nat, Fact<K>)>)
    ensures JoinAll(entry, ws + vs) == JoinAll(JoinAll(entry, ws), vs)
  {
    if vs == [] {
      assert ws + vs == ws;
    } else {
      JoinAllAppend(entry, ws, vs[..|vs| - 1]);
      assert (ws + vs)[..|ws + vs| - 1] == ws + vs[..|vs| - 1];
    }
  }

  lemma JoinOne<K(!new)>(entry: seq<Fact<K>>, w: (nat, Fact<K>))
    requires w.0 < |entry|
    ensures JoinAll(entry, [w]) == entry[w.0 := Joined(entry[w.0], w.1)]
  {
    assert JoinAll(entry, []) == entry;
  }

  /** Joins `other` into `x`, entry by entry. */
  method Join<K(!new, ==)>(x: Fact<K>, other: Fact<K>) returns (r: Fact<K>)
    ensures r == Joined(x, other)
  {
    r := x;
    var keys := other.Keys;
    while keys != {}
      invariant keys <= other.Keys
      invariant r.Keys == x.Keys + (other.Keys - keys)
      invariant forall k :: k in r ==> r[k] == if k in keys then x[k] else JoinAt(x, other, k)
    {
      var k :| k in keys;
      r := r[k := if k in r then Signs.Join(r[k], other[k]) else other[k]];
      keys := keys - {k};
    }
  }
}
