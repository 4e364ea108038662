/** Searching an ordered map of dial prefixes: the scan does not start at the first key but
    at the lower bound of the first few characters of the dial string. */
module PrefixSearch {
  import opened Wrappers

  // ---------------------------------------------------------------------------
  // The order of the keys
  // ---------------------------------------------------------------------------

  /** Lexicographic order of strings. */
  predicate Le(a: string, b: string) {
    a == [] || (b != [] && (a[0] < b[0] || (a[0] == b[0] && Le(a[1..], b[1..]))))
  }

  lemma {:induction false} LeAntisymmetric(a: string, b: string)
    requires Le(a, b) && Le(b, a)
    ensures a == b
  {
    if a != [] {
      LeAntisymmetric(a[1..], b[1..]);
      assert a == [a[0]] + a[1..] && b == [b[0]] + b[1..];
    }
  }

  lemma {:induction false} LeTotal(a: string, b: string)
    ensures Le(a, b) || Le(b, a)
  {
    if a != [] && b != [] {
      LeTotal(a[1..], b[1..]);
    }
  }

  lemma {:induction false} LeTransitive(a: string, b: string, c: string)
    requires Le(a, b) && Le(b, c)
    ensures Le(a, c)
  {
    if a != [] && a[0] == b[0] == c[0] {
      LeTransitive(a[1..], b[1..], c[1..]);
    }
  }

  lemma {:induction false} PrefixIsLe(a: string, b: string)
    requires a <= b
    ensures Le(a, b)
  {
    if a != [] {
      PrefixIsLe(a[1..], b[1..]);
    }
  }

  /** Prefixes of one string are ordered by their length. */
  lemma PrefixesByLength(a: string, b: string, s: string)
    requires a <= s && b <= s
    ensures Le(a, b) <==> |a| <= |b|
  {
    if |a| <= |b| {
      assert a <= b;
      PrefixIsLe(a, b);
    } else {
      assert b <= a;
      PrefixIsLe(b, a);
      if Le(a, b) {
        LeAntisymmetric(a, b);
      }
    }
  }

  /** The keys of an ordered map in iteration order. */
  predicate Ordered(ks: seq<string>) {
    forall i, j :: 0 <= i < j < |ks| ==> Le(ks[i], ks[j]) && ks[i] != ks[j]
  }

  ghost predicate Lists(ks: seq<string>, keys: set<string>) {
    Ordered(ks) && (forall k :: k in ks <==> k in keys)
  }

  /** Index of the first key not less than `bound`. */
  method LowerBound(ks: seq<string>, bound: string) returns (n: nat)
    requires Ordered(ks)
    ensures n <= |ks|
    ensures forall i :: 0 <= i < n ==> !Le(bound, ks[i])
    ensures forall i :: n <= i < |ks| ==> Le(bound, ks[i])
  {
    n := 0;
    while n < |ks| && !Le(bound, ks[n])
      invariant n <= |ks|
      invariant forall i :: 0 <= i < n ==> !Le(bound, ks[i])
    {
      n := n + 1;
    }
    forall i | n <= i < |ks| ensures Le(bound, ks[i]) {
      if i > n {
        LeTransitive(bound, ks[n], ks[i]);
      }
    }
  }

  /** Adds a key at its place, as an ordered map does. */
  method Insert(ks: seq<string>, ghost keys: set<string>, k: string) returns (r: seq<string>)
    requires Lists(ks, keys)
    ensures Lists(r, keys + {k})
  {
    var n := LowerBound(ks, k);
    if n < |ks| && ks[n] == k {
      return ks;
    }
    r := ks[..n] + [k] + ks[n..];
    forall i | 0 <= i < n ensures Le(ks[i], k) && ks[i] != k {
      LeTotal(ks[i], k);
      PrefixIsLe(k, k);
    }
    forall i | n <= i < |ks| ensures Le(k, ks[i]) && ks[i] != k {
      if i > n && ks[i] == k {
        LeAntisymmetric(ks[n], k);
      }
    }
  }

  // ---------------------------------------------------------------------------
  // The search
  // ---------------------------------------------------------------------------

  /** The shortest key of at least `from` characters that begins the dial string. */
  function Shortest(keys: set<string>, dial: string, from: nat): (r: Option<string>)
    requires from <= |dial|
    ensures r.Some? ==> r.value in keys && r.value <= dial && from <= |r.value|
    ensures r.Some? ==> forall k :: k in keys && k <= dial && from <= |k| ==> |r.value| <= |k|
    ensures r.None? ==> forall k :: k in keys && k <= dial ==> |k| < from
    decreases |dial| - from
  {
    assert forall k: string :: k <= dial && |k| == from ==> k == dial[..from];
    if dial[..from] in keys then Some(dial[..from])
    else if from == |dial| then None
    else Shortest(keys, dial, from + 1)
  }

  function Min(a: nat, b: nat): nat { if a < b then a else b }

  /** What a lookup with shortest-prefix length `shortest` finds. */
  function Lookup(keys: set<string>, shortest: nat, dial: string): Option<string> {
    Shortest(keys, dial, Min(shortest, |dial|))
  }

  /** The loop over the map from the lower bound of the first `shortest` characters. */
  method Scan(ks: seq<string>, ghost keys: set<string>, shortest: nat, dial: string) returns (r: Option<string>)
    requires Lists(ks, keys)
    ensures r == Lookup(keys, shortest, dial)
  {
    var bound := dial[..Min(shortest, |dial|)];
    var start := LowerBound(ks, bound);
    var i := start;
    while i < |ks|
      invariant start <= i <= |ks|
      invariant forall j :: start <= j < i ==> !(ks[j] <= dial)
    {
      if ks[i] <= dial {
        FirstHit(ks, keys, bound, dial, start, i);
        return Some(ks[i]);
      }
      i := i + 1;
    }
    NoHit(ks, keys, bound, dial, start);
    return None;
  }

  lemma NoHit(ks: seq<string>, keys: set<string>, bound: string, dial: string, start: nat)
    requires Lists(ks, keys) && bound <= dial && start <= |ks|
    requires forall j :: 0 <= j < start ==> !Le(bound, ks[j])
    requires forall j :: start <= j < |ks| ==> !(ks[j] <= dial)
    ensures Shortest(keys, dial, |bound|) == None
  {
    var r := Shortest(keys, dial, |bound|);
    if r.Some? {
      var j :| 0 <= j < |ks| && ks[j] == r.value;
      PrefixesByLength(bound, r.value, dial);
      assert false;
    }
  }

  lemma FirstHit(ks: seq<string>, keys: set<string>, bound: string, dial: string, start: nat, i: nat)
    requires Lists(ks, keys) && bound <= dial && start <= i < |ks|
    requires forall j :: 0 <= j < start ==> !Le(bound, ks[j])
    requires forall j :: start <= j < |ks| ==> Le(bound, ks[j])
    requires forall j :: start <= j < i ==> !(ks[j] <= dial)
    requires ks[i] <= dial
    ensures Shortest(keys, dial, |bound|) == Some(ks[i])
  {
    PrefixesByLength(bound, ks[i], dial);
    assert ks[i] in keys;
    var r := Shortest(keys, dial, |bound|);
    var j :| 0 <= j < |ks| && ks[j] == r.value;
    PrefixesByLength(bound, ks[j], dial);
    assert start <= j;
    if j > i {
      PrefixesByLength(ks[i], ks[j], dial);
    }
  }

  // ---------------------------------------------------------------------------
  // When does starting late miss nothing?
  // ---------------------------------------------------------------------------

  /** Starting at the lower bound finds what a scan of the whole map finds, for every dial
      string, exactly when `shortest` is no longer than any key. */
  lemma LateStartIsSafe(keys: set<string>, shortest: nat)
    ensures (forall dial :: Lookup(keys, shortest, dial) == Shortest(keys, dial, 0))
       <==> (forall k :: k in keys ==> shortest <= |k|)
  {
    if forall k :: k in keys ==> shortest <= |k| {
      forall dial ensures Lookup(keys, shortest, dial) == Shortest(keys, dial, 0) {
        SameFrom(keys, dial, Min(shortest, |dial|));
      }
    } else {
      var k :| k in keys && |k| < shortest;
      MissedKey(keys, shortest, k);
    }
  }

  lemma {:induction false} SameFrom(keys: set<string>, dial: string, to: nat)
    requires to <= |dial|
    requires forall k :: k in keys && k <= dial ==> to <= |k|
    ensures Shortest(keys, dial, 0) == Shortest(keys, dial, to)
  {
    if to > 0 {
      SameFrom(keys, dial, to - 1);
      assert dial[..to - 1] <= dial;
    }
  }

  /** A key shorter than `shortest` is missed for any dial string one character longer. */
  lemma MissedKey(keys: set<string>, shortest: nat, k: string)
    requires k in keys && |k| < shortest
    ensures Lookup(keys, shortest, k + "0") != Shortest(keys, k + "0", 0)
  {
    var dial := k + "0";
    assert k <= dial;
    var all, late := Shortest(keys, dial, 0), Lookup(keys, shortest, dial);
    assert all.Some? && |all.value| <= |k|;
    if late.Some? {
      assert |late.value| >= |dial|;
    }
  }

  /** The update of the shortest-prefix length on registering a key; 0 means "unset". */
  function Shorten(shortest: nat, key: string): nat {
    if shortest == 0 || shortest > |key| then |key| else shortest
  }

  function ShortenAll(keys: seq<string>): nat {
    if keys == [] then 0 else Shorten(ShortenAll(keys[..|keys| - 1]), keys[|keys| - 1])
  }

  /** The length kept after registering `keys` in this order suits every one of them
      exactly when none is empty or the last one is: an empty key resets it. */
  lemma {:induction false} ShortestIsSafe(keys: seq<string>)
    ensures (forall k :: k in keys ==> ShortenAll(keys) <= |k|) <==> ("" !in keys || keys[|keys| - 1] == "")
    ensures "" !in keys && keys != [] ==> ShortenAll(keys) > 0
  {
    if keys != [] {
      var front, last := keys[..|keys| - 1], keys[|keys| - 1];
      assert keys == front + [last];
      ShortestIsSafe(front);
      if "" in keys && last != "" {
        assert ShortenAll(keys) > 0;
        assert "" in keys && |""| < ShortenAll(keys);
      }
    }
  }
}
