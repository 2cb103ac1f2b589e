/**
 * A JavaScript object used as a dictionary from numeric keys (`Record<number, V>`).
 *
 * Besides its entries, such an object remembers the order in which its keys were first
 * created: assigning to an existing key replaces the value but keeps the key's position.
 * `Object.values` enumerates the keys that are array indices (integers below 2^32 - 1) in
 * ascending numeric order, followed by all other keys in creation order
 * (OrdinaryOwnPropertyKeys, section 10.1.11.1 of ECMA-262).
 */
module NumericRecord {

  datatype Record<V> = Record(entries: map<nat, V>, keys: seq<nat>)

  predicate Distinct(s: seq<nat>) {
    forall i, j | 0 <= i < j < |s| :: s[i] != s[j]
  }

  /** The key sequence lists every key of the entries exactly once. */
  ghost predicate Valid<V>(r: Record<V>) {
    && Distinct(r.keys)
    && (forall k :: k in r.entries <==> k in r.keys)
  }

  /** `{}` */
  function Empty<V>(): (r: Record<V>)
    ensures Valid(r) && r.entries == map[]
  {
    Record(map[], [])
  }

  /** `r[k] = v`: a new key goes to the end of the creation order, an existing key keeps its place. */
  function Put<V>(r: Record<V>, k: nat, v: V): (r': Record<V>)
    requires Valid(r)
    ensures Valid(r')
    ensures r'.entries == r.entries[k := v]
    ensures k in r.entries ==> r'.keys == r.keys
    ensures k !in r.entries ==> r'.keys == r.keys + [k]
  {
    Record(r.entries[k := v], if k in r.entries then r.keys else r.keys + [k])
  }

  /** The elements of `s`, each once, in the order of their first occurrence. */
  function FirstOccurrences(s: seq<nat>): (r: seq<nat>)
    ensures Distinct(r)
    ensures forall x :: x in r <==> x in s
  {
    if s == [] then []
    else
      var init := s[..|s| - 1];
      assert s == init + [s[|s| - 1]];
      var d := FirstOccurrences(init);
      if s[|s| - 1] in d then d else d + [s[|s| - 1]]
  }

  /** Two elements appear in `FirstOccurrences(s)` in the order of their first occurrences in `s`. */
  lemma {:induction false} FirstOccurrencesOrder(s: seq<nat>, a: nat, b: nat)
    requires a in s && b in s
    ensures a in FirstOccurrences(s) && b in FirstOccurrences(s)
    ensures IndexOf(FirstOccurrences(s), a) < IndexOf(FirstOccurrences(s), b) <==> IndexOf(s, a) < IndexOf(s, b)
  {
    var init, x := s[..|s| - 1], s[|s| - 1];
    assert s == init + [x];
    var d := FirstOccurrences(init);
    if a in init && b in init {
      FirstOccurrencesOrder(init, a, b);
      IndexOfAppend(init, [x], a);
      IndexOfAppend(init, [x], b);
      if x !in d {
        IndexOfAppend(d, [x], a);
        IndexOfAppend(d, [x], b);
      }
    } else if a == b {
    } else {
      IndexOfAppend(init, [x], a);
      IndexOfAppend(init, [x], b);
      assert x !in d;
      IndexOfAppend(d, [x], a);
      IndexOfAppend(d, [x], b);
    }
  }

  /** The largest array index is 2^32 - 2. */
  const ARRAY_INDEX_LIMIT: nat := 0xFFFF_FFFF

  predicate IsArrayIndex(k: nat) {
    k < ARRAY_INDEX_LIMIT
  }

  /** The keys that are (`index`) or are not (`!index`) array indices, in their original order. */
  function KeysWhere(keys: seq<nat>, index: bool): (s: seq<nat>)
    ensures forall x :: x in s <==> x in keys && IsArrayIndex(x) == index
    ensures Distinct(keys) ==> Distinct(s)
  {
    if keys == [] then []
    else
      var rest := KeysWhere(keys[1..], index);
      assert forall x :: x in keys[1..] ==> x in keys;
      if IsArrayIndex(keys[0]) == index then
        assert Distinct(keys) ==> keys[0] !in keys[1..];
        [keys[0]] + rest
      else rest
  }

  predicate StrictlyIncreasing(s: seq<nat>) {
    forall i, j | 0 <= i < j < |s| :: s[i] < s[j]
  }

  function Insert(x: nat, s: seq<nat>): (r: seq<nat>)
    requires StrictlyIncreasing(s) && x !in s
    ensures StrictlyIncreasing(r)
    ensures forall y :: y in r <==> y == x || y in s
  {
    if s == [] || x < s[0] then [x] + s
    else
      var rest := Insert(x, s[1..]);
      assert forall y :: y in rest ==> s[0] < y;
      var r := [s[0]] + rest;
      assert forall i | 1 <= i < |r| :: r[i] == rest[i - 1] && r[i] in rest;
      r
  }

  /** Insertion sort of distinct keys into ascending order. */
  function SortAscending(s: seq<nat>): (r: seq<nat>)
    requires Distinct(s)
    ensures StrictlyIncreasing(r)
    ensures forall y :: y in r <==> y in s
  {
    if s == [] then []
    else
      assert s[0] !in s[1..];
      Insert(s[0], SortAscending(s[1..]))
  }

  /** The order in which `Object.keys`, `Object.values` and `for ... in` visit the keys. */
  function EnumerationOrder(keys: seq<nat>): (r: seq<nat>)
    requires Distinct(keys)
    ensures Distinct(r)
    ensures forall k :: k in r <==> k in keys
  {
    var indices := SortAscending(KeysWhere(keys, true));
    var others := KeysWhere(keys, false);
    assert forall i, j | 0 <= i < |indices| && 0 <= j < |others| :: indices[i] != others[j] by {
      forall i, j | 0 <= i < |indices| && 0 <= j < |others| ensures indices[i] != others[j] {
        assert indices[i] in indices && others[j] in others;
      }
    }
    indices + others
  }

  /** The position of the first occurrence of `x`. */
  function IndexOf(s: seq<nat>, x: nat): (i: nat)
    requires x in s
    ensures i < |s| && s[i] == x && x !in s[..i]
  {
    if s[0] == x then 0 else 1 + IndexOf(s[1..], x)
  }

  /** Whether key `a` is enumerated before key `b` of an object whose keys were created in the order `keys`. */
  predicate EnumeratedBefore(keys: seq<nat>, a: nat, b: nat)
    requires a in keys && b in keys
  {
    if IsArrayIndex(a) && IsArrayIndex(b) then a < b
    else if IsArrayIndex(a) || IsArrayIndex(b) then IsArrayIndex(a)
    else IndexOf(keys, a) < IndexOf(keys, b)
  }

  /** `Object.values(r)`: the value of every key, and nothing else. */
  function Values<V>(r: Record<V>): (vs: seq<V>)
    requires Valid(r)
    ensures forall k | k in r.entries :: r.entries[k] in vs
    ensures forall v | v in vs :: exists k :: k in r.entries && r.entries[k] == v
  {
    var ks := EnumerationOrder(r.keys);
    forall k | k in r.entries
      ensures r.entries[k] in ValuesAlong(r.entries, ks)
    {
      ValuesAlongHas(r.entries, ks, k);
    }
    forall v | v in ValuesAlong(r.entries, ks)
      ensures exists k :: k in r.entries && r.entries[k] == v
    {
      var k := ValuesAlongFrom(r.entries, ks, v);
    }
    ValuesAlong(r.entries, ks)
  }

  function ValuesAlong<V>(m: map<nat, V>, ks: seq<nat>): seq<V> {
    if ks == [] then []
    else (if ks[0] in m then [m[ks[0]]] else []) + ValuesAlong(m, ks[1..])
  }

  lemma {:induction false} ValuesAlongAppend<V>(m: map<nat, V>, a: seq<nat>, b: seq<nat>)
    ensures ValuesAlong(m, a + b) == ValuesAlong(m, a) + ValuesAlong(m, b)
  {
    if a != [] {
      assert (a + b)[0] == a[0] && (a + b)[1..] == a[1..] + b;
      ValuesAlongAppend(m, a[1..], b);
    } else {
      assert a + b == b;
    }
  }

  /** Every key along the way that has an entry contributes its value. */
  lemma {:induction false} ValuesAlongHas<V>(m: map<nat, V>, ks: seq<nat>, k: nat)
    requires k in ks && k in m
    ensures m[k] in ValuesAlong(m, ks)
  {
    if ks[0] != k {
      ValuesAlongHas(m, ks[1..], k);
    }
  }

  /** Every value listed is the entry of some key along the way. */
  lemma {:induction false} ValuesAlongFrom<V>(m: map<nat, V>, ks: seq<nat>, v: V) returns (k: nat)
    requires v in ValuesAlong(m, ks)
    ensures k in ks && k in m && m[k] == v
  {
    if ks[0] in m && m[ks[0]] == v {
      k := ks[0];
    } else {
      k := ValuesAlongFrom(m, ks[1..], v);
    }
  }

  lemma DistinctSlices(s: seq<nat>, j: nat)
    requires Distinct(s) && j <= |s|
    ensures Distinct(s[..j]) && Distinct(s[j..])
  {
    assert forall x | 0 <= x < |s[j..]| :: s[j..][x] == s[j + x];
  }

  lemma DistinctSuffix(s: seq<nat>, i: nat, j: nat)
    requires Distinct(s) && i < j <= |s|
    ensures s[i] !in s[j..]
  {
    assert forall x | 0 <= x < |s[j..]| :: s[j..][x] == s[j + x];
  }

  /** Cutting a list of distinct keys just before `g`, where `f` comes earlier, puts `f` and `g` on different sides. */
  lemma SplitBefore(s: seq<nat>, f: nat, g: nat)
    requires Distinct(s) && f in s && g in s && IndexOf(s, f) < IndexOf(s, g)
    ensures var j := IndexOf(s, g);
      && s == s[..j] + s[j..]
      && Distinct(s[..j]) && Distinct(s[j..])
      && f in s[..j] && g !in s[..j]
      && g in s[j..] && f !in s[j..]
      && (forall k | k in s[..j] || k in s[j..] :: k in s)
  {
    var i, j := IndexOf(s, f), IndexOf(s, g);
    DistinctSlices(s, j);
    DistinctSuffix(s, i, j);
    assert s[..j][i] == f && s[j..][0] == g;
  }

  lemma IndexOfCons(y: nat, s: seq<nat>, x: nat)
    requires x in s && x != y
    ensures IndexOf([y] + s, x) == 1 + IndexOf(s, x)
  {
    assert ([y] + s)[1..] == s;
  }

  lemma {:induction false} IndexOfAppend(a: seq<nat>, b: seq<nat>, x: nat)
    requires x in a + b
    ensures x in a ==> IndexOf(a + b, x) == IndexOf(a, x)
    ensures x !in a ==> IndexOf(a + b, x) == |a| + IndexOf(b, x)
  {
    if a != [] {
      assert (a + b)[0] == a[0];
      if a[0] != x {
        assert (a + b)[1..] == a[1..] + b;
        assert x in a[1..] + b;
        IndexOfAppend(a[1..], b, x);
      }
    } else {
      assert a + b == b;
    }
  }

  /** Filtering keeps the relative order of the keys it keeps. */
  lemma {:induction false} KeysWhereKeepsOrder(keys: seq<nat>, index: bool, a: nat, b: nat)
    requires a in keys && b in keys && a != b
    requires IsArrayIndex(a) == index && IsArrayIndex(b) == index
    ensures a in KeysWhere(keys, index) && b in KeysWhere(keys, index)
    ensures IndexOf(KeysWhere(keys, index), a) < IndexOf(KeysWhere(keys, index), b)
        <==> IndexOf(keys, a) < IndexOf(keys, b)
  {
    var s := KeysWhere(keys, index);
    var rest := KeysWhere(keys[1..], index);
    if keys[0] == a {
      assert s[0] == a;
    } else if keys[0] == b {
      assert s[0] == b;
    } else {
      assert a in keys[1..] && b in keys[1..];
      KeysWhereKeepsOrder(keys[1..], index, a, b);
      assert keys == [keys[0]] + keys[1..];
      IndexOfCons(keys[0], keys[1..], a);
      IndexOfCons(keys[0], keys[1..], b);
      if IsArrayIndex(keys[0]) == index {
        IndexOfCons(keys[0], rest, a);
        IndexOfCons(keys[0], rest, b);
      }
    }
  }

  /** In a strictly increasing sequence, position order is numeric order. */
  lemma IncreasingIndexOrder(s: seq<nat>, a: nat, b: nat)
    requires StrictlyIncreasing(s) && a in s && b in s
    ensures IndexOf(s, a) < IndexOf(s, b) <==> a < b
  {
  }

  /** `EnumerationOrder` puts two distinct keys in the order `EnumeratedBefore` says. */
  lemma EnumerationOrderRespects(keys: seq<nat>, a: nat, b: nat)
    requires Distinct(keys) && a in keys && b in keys && a != b
    ensures a in EnumerationOrder(keys) && b in EnumerationOrder(keys)
    ensures IndexOf(EnumerationOrder(keys), a) < IndexOf(EnumerationOrder(keys), b)
        <==> EnumeratedBefore(keys, a, b)
  {
    var indices := SortAscending(KeysWhere(keys, true));
    var others := KeysWhere(keys, false);
    assert EnumerationOrder(keys) == indices + others;
    IndexOfAppend(indices, others, a);
    IndexOfAppend(indices, others, b);
    if IsArrayIndex(a) && IsArrayIndex(b) {
      IncreasingIndexOrder(indices, a, b);
    } else if !IsArrayIndex(a) && !IsArrayIndex(b) {
      KeysWhereKeepsOrder(keys, false, a, b);
    }
  }
}
