/**
 * The slot pool: a process-wide list seeded with a fixed catalog of labels.
 * Booking removes the chosen label; nothing ever adds one back.
 */
module Pool {

  /** The labels the pool holds when the process starts, in menu order. */
  const Catalog: seq<string> := ["10:00 AM", "11:00 AM", "12:00 PM", "02:00 PM", "03:00 PM", "04:00 PM"]

  predicate NoDup(s: seq<string>) {
    forall i, j :: 0 <= i < j < |s| ==> s[i] != s[j]
  }

  /**
   * The labels of `c` that are not in `taken`, in the order of `c`: the pool
   * after the labels in `taken` have been booked.
   */
  function Without(c: seq<string>, taken: set<string>): seq<string> {
    if c == [] then []
    else (if c[0] in taken then [] else [c[0]]) + Without(c[1..], taken)
  }

  /** The pool holds exactly the catalog labels not yet booked. */
  lemma {:induction false} WithoutMembers(c: seq<string>, taken: set<string>)
    ensures |Without(c, taken)| <= |c|
    ensures forall l :: l in Without(c, taken) <==> l in c && l !in taken
  {
    if c != [] {
      WithoutMembers(c[1..], taken);
      assert c == [c[0]] + c[1..];
    }
  }

  /**
   * `s.remove(x)`: Python's list removal of the first occurrence of `x`.
   * The source only calls it on a label it has just found in the list.
   */
  function Remove(s: seq<string>, x: string): (r: seq<string>)
    requires x in s
    ensures |r| == |s| - 1
    ensures multiset(r) == multiset(s) - multiset{x}
  {
    assert s == [s[0]] + s[1..];
    if s[0] == x then s[1..] else [s[0]] + Remove(s[1..], x)
  }

  /** A first label other than `x` stays in front. */
  lemma RemoveCons(s: seq<string>, x: string)
    requires x in s && s[0] != x
    ensures x in s[1..] && Remove(s, x) == [s[0]] + Remove(s[1..], x)
  {
    assert s == [s[0]] + s[1..];
  }

  lemma ConsSlices<T>(s: seq<T>, i: nat)
    requires 0 < i < |s|
    ensures [s[0]] + (s[1..][..i - 1] + s[1..][i..]) == s[..i] + s[i + 1..]
  {
  }

  /**
   * `list.remove` takes out the first occurrence only: the labels before and
   * after it stay where they were.
   */
  lemma {:induction false} RemoveFirstAt(s: seq<string>, x: string, i: nat)
    requires i < |s| && s[i] == x && x !in s[..i]
    ensures Remove(s, x) == s[..i] + s[i + 1..]
  {
    if i == 0 {
      assert s[..0] + s[1..] == s[1..];
    } else {
      assert s[0] in s[..i];
      assert s[1..][..i - 1] == s[1..i];
      RemoveCons(s, x);
      RemoveFirstAt(s[1..], x, i - 1);
      ConsSlices(s, i);
    }
  }

  /** Before anything is booked the pool is the whole catalog. */
  lemma {:induction false} WithoutNothing(c: seq<string>)
    ensures Without(c, {}) == c
  {
    if c != [] {
      WithoutNothing(c[1..]);
    }
  }

  lemma CatalogNoDup()
    ensures NoDup(Catalog)
  {
  }

  /** Filtering a duplicate-free list keeps it duplicate-free. */
  lemma {:induction false} WithoutNoDup(c: seq<string>, taken: set<string>)
    requires NoDup(c)
    ensures NoDup(Without(c, taken))
  {
    if c != [] {
      assert NoDup(c[1..]);
      WithoutNoDup(c[1..], taken);
      WithoutMembers(c[1..], taken);
      assert c[0] !in c[1..];
    }
  }

  /** Marking a label that `c` does not hold as taken changes nothing. */
  lemma {:induction false} WithoutAbsent(c: seq<string>, taken: set<string>, x: string)
    requires x !in c
    ensures Without(c, taken + {x}) == Without(c, taken)
  {
    if c != [] {
      WithoutAbsent(c[1..], taken, x);
    }
  }

  /**
   * Booking an available label: removing it from the pool is the same as
   * adding it to the booked labels. The other labels keep their order.
   */
  lemma {:induction false} RemoveBooks(c: seq<string>, taken: set<string>, x: string)
    requires NoDup(c)
    requires x in Without(c, taken)
    ensures Remove(Without(c, taken), x) == Without(c, taken + {x})
  {
    assert NoDup(c[1..]);
    var w, rest := Without(c, taken), Without(c[1..], taken);
    var rest' := Without(c[1..], taken + {x});
    WithoutMembers(c, taken);
    if c[0] == x {
      assert x !in c[1..] && x !in taken;
      assert w == [x] + rest && Remove(w, x) == rest;
      assert Without(c, taken + {x}) == rest';
      WithoutAbsent(c[1..], taken, x);
    } else if c[0] in taken {
      assert w == rest && Without(c, taken + {x}) == rest';
      RemoveBooks(c[1..], taken, x);
    } else {
      assert w == [c[0]] + rest && w[1..] == rest;
      assert Remove(w, x) == [c[0]] + Remove(rest, x);
      assert Without(c, taken + {x}) == [c[0]] + rest';
      assert x in c[1..];
      WithoutMembers(c[1..], taken);
      RemoveBooks(c[1..], taken, x);
    }
  }
}
