/** Order-stable deduplication: every element once, where it occurs first. */
module FirstOccurrence {

  /** The elements of `s` that are not in `seen`, each at its first occurrence. */
  function Fresh<T(==)>(s: seq<T>, seen: set<T>): seq<T> {
    if s == [] then []
    else if s[0] in seen then Fresh(s[1..], seen)
    else [s[0]] + Fresh(s[1..], seen + {s[0]})
  }

  function Dedup<T(==)>(s: seq<T>): seq<T> {
    Fresh(s, {})
  }

  function Elements<T(==)>(s: seq<T>): set<T> {
    set x | x in s
  }

  ghost predicate NoDuplicates<T>(s: seq<T>) {
    forall i, j :: 0 <= i < j < |s| ==> s[i] != s[j]
  }

  /** Where `x` occurs first. */
  function FirstIndex<T(==)>(s: seq<T>, x: T): (k: nat)
    requires x in s
    ensures k < |s| && s[k] == x && forall i :: 0 <= i < k ==> s[i] != x
  {
    if s[0] == x then 0 else 1 + FirstIndex(s[1..], x)
  }

  /** The result keeps the order of first occurrences. */
  lemma {:induction false} FreshKeepsOrder<T>(s: seq<T>, seen: set<T>, i: nat, j: nat)
    requires i < j < |Fresh(s, seen)|
    ensures Fresh(s, seen)[i] in s && Fresh(s, seen)[j] in s
    ensures FirstIndex(s, Fresh(s, seen)[i]) < FirstIndex(s, Fresh(s, seen)[j])
  {
    var f := Fresh(s, seen);
    FreshHolds(s, seen, f[i]);
    FreshHolds(s, seen, f[j]);
    assert f[i] in f && f[j] in f;
    if s[0] in seen {
      FreshKeepsOrder(s[1..], seen, i, j);
    } else {
      var rest := Fresh(s[1..], seen + {s[0]});
      FreshHolds(s[1..], seen + {s[0]}, f[j]);
      assert f[j] == rest[j - 1] && f[j] in rest;
      if i > 0 {
        FreshKeepsOrder(s[1..], seen + {s[0]}, i - 1, j - 1);
        assert f[i] == rest[i - 1] && f[j] == rest[j - 1];
      }
    }
  }

  lemma {:induction false} FreshHolds<T>(s: seq<T>, seen: set<T>, x: T)
    ensures x in Fresh(s, seen) <==> x in s && x !in seen
  {
    if s != [] {
      assert x in s <==> x == s[0] || x in s[1..];
      if s[0] in seen {
        FreshHolds(s[1..], seen, x);
      } else {
        FreshHolds(s[1..], seen + {s[0]}, x);
        var rest := Fresh(s[1..], seen + {s[0]});
        assert x in [s[0]] + rest <==> x == s[0] || x in rest;
      }
    }
  }

  lemma {:induction false} FreshHasNoDuplicates<T>(s: seq<T>, seen: set<T>)
    ensures NoDuplicates(Fresh(s, seen))
  {
    if s != [] {
      if s[0] in seen {
        FreshHasNoDuplicates(s[1..], seen);
      } else {
        FreshHasNoDuplicates(s[1..], seen + {s[0]});
        FreshHolds(s[1..], seen + {s[0]}, s[0]);
      }
    }
  }

  /** Deduplicating a concatenation: the second part adds what the first did not hold. */
  lemma {:induction false} FreshConcat<T>(a: seq<T>, b: seq<T>, seen: set<T>)
    ensures Fresh(a + b, seen) == Fresh(a, seen) + Fresh(b, seen + Elements(a))
  {
    if a == [] {
      assert a + b == b;
      assert seen + Elements(a) == seen;
    } else {
      assert (a + b)[1..] == a[1..] + b;
      assert Elements(a) == {a[0]} + Elements(a[1..]);
      if a[0] in seen {
        FreshConcat(a[1..], b, seen);
        assert seen + Elements(a) == seen + Elements(a[1..]);
      } else {
        FreshConcat(a[1..], b, seen + {a[0]});
        assert seen + Elements(a) == seen + {a[0]} + Elements(a[1..]);
      }
    }
  }

  /** One more element at the end. */
  lemma DedupSnoc<T>(s: seq<T>, x: T)
    ensures Dedup(s + [x]) == Dedup(s) + if x in s then [] else [x]
    ensures Elements(s + [x]) == Elements(s) + {x}
  {
    FreshConcat(s, [x], {});
    var seen := {} + Elements(s);
    assert [x][1..] == [];
    assert Fresh([x], seen) == if x in seen then [] else [x];
  }

  /** An already duplicate-free sequence that avoids `seen` comes out unchanged. */
  lemma {:induction false} FreshOfFresh<T>(s: seq<T>, seen: set<T>)
    requires NoDuplicates(s) && (forall x :: x in s ==> x !in seen)
    ensures Fresh(s, seen) == s
  {
    if s != [] {
      assert s[0] !in seen;
      forall x | x in s[1..] ensures x !in seen + {s[0]} {}
      FreshOfFresh(s[1..], seen + {s[0]});
    }
  }

  /** Deduplicating a part first changes nothing. */
  lemma {:induction false} DedupFirst<T>(a: seq<T>, b: seq<T>, seen: set<T>)
    ensures Fresh(Fresh(a, seen) + b, seen) == Fresh(a + b, seen)
  {
    var f := Fresh(a, seen);
    forall x ensures x in f <==> x in a && x !in seen {
      FreshHolds(a, seen, x);
    }
    FreshHasNoDuplicates(a, seen);
    FreshOfFresh(f, seen);
    FreshConcat(f, b, seen);
    FreshConcat(a, b, seen);
    assert seen + Elements(f) == seen + Elements(a);
  }

  /** Deduplicating only a later part first changes nothing either. */
  lemma {:induction false} DedupLater<T>(a: seq<T>, b: seq<T>, seen: set<T>)
    ensures Fresh(a + Fresh(b, seen), seen) == Fresh(a + b, seen)
  {
    FreshConcat(a, Fresh(b, seen), seen);
    FreshConcat(a, b, seen);
    FreshTwice(b, seen, seen + Elements(a));
  }

  lemma {:induction false} FreshTwice<T>(s: seq<T>, seen: set<T>, more: set<T>)
    requires seen <= more
    ensures Fresh(Fresh(s, seen), more) == Fresh(s, more)
  {
    if s != [] {
      if s[0] in seen {
        FreshTwice(s[1..], seen, more);
      } else {
        var rest := Fresh(s[1..], seen + {s[0]});
        assert Fresh(s, seen)[1..] == rest;
        if s[0] in more {
          FreshTwice(s[1..], seen + {s[0]}, more);
        } else {
          FreshTwice(s[1..], seen + {s[0]}, more + {s[0]});
        }
      }
    }
  }
}
