/**
 Byte order on strings, lexicographic sort keys, and the stable sort the Rust
 standard library promises for `sort_by` and `sort_by_key`.

 A comparator chain such as path, then start byte, then fingerprint is written
 as one key: the sequence of the values it compares.
 */
module Ordering {

  datatype Atom = Num(n: int) | Text(s: string)

  type Key = seq<Atom>

  /** `a <= b` as Rust compares `str` values. */
  predicate StringLe(a: string, b: string) {
    a == "" || (b != "" && (a[0] < b[0] || (a[0] == b[0] && StringLe(a[1..], b[1..]))))
  }

  predicate StringLt(a: string, b: string) {
    a != b && StringLe(a, b)
  }

  predicate AtomLt(a: Atom, b: Atom) {
    match (a, b)
    case (Num(m), Num(n)) => m < n
    case (Num(_), Text(_)) => true
    case (Text(_), Num(_)) => false
    case (Text(s), Text(t)) => s != t && StringLe(s, t)
  }

  predicate KeyLe(a: Key, b: Key) {
    a == [] || (b != [] && (AtomLt(a[0], b[0]) || (a[0] == b[0] && KeyLe(a[1..], b[1..]))))
  }

  lemma {:induction false} StringLeTotal(a: string, b: string)
    ensures StringLe(a, b) || StringLe(b, a)
    ensures StringLe(a, b) && StringLe(b, a) ==> a == b
  {
    if a != "" && b != "" && a[0] == b[0] {
      StringLeTotal(a[1..], b[1..]);
      assert a == [a[0]] + a[1..] && b == [b[0]] + b[1..];
    }
  }

  lemma StringLeReflexive(a: string)
    ensures StringLe(a, a)
  {
    StringLeTotal(a, a);
  }

  lemma {:induction false} StringLeTransitive(a: string, b: string, c: string)
    requires StringLe(a, b) && StringLe(b, c)
    ensures StringLe(a, c)
  {
    if a != "" && a[0] == b[0] == c[0] {
      StringLeTransitive(a[1..], b[1..], c[1..]);
    }
  }

  // ---------------------------------------------------------------- the least of a set

  predicate IsLeast(least: string, keys: set<string>) {
    least in keys && forall k :: k in keys ==> StringLe(least, k)
  }

  lemma LeastOfTwo(some: string, rest: set<string>, other: string)
    requires IsLeast(other, rest)
    ensures IsLeast(if StringLe(some, other) then some else other, rest + {some})
  {
    StringLeReflexive(some);
    StringLeTotal(some, other);
    forall k | k in rest && StringLe(some, other) ensures StringLe(some, k) {
      StringLeTransitive(some, other, k);
    }
  }

  lemma {:induction false} LeastExists(keys: set<string>)
    requires keys != {}
    ensures exists least :: IsLeast(least, keys)
  {
    var some :| some in keys;
    var rest := keys - {some};
    if rest == {} {
      assert keys == {some};
      StringLeReflexive(some);
      assert IsLeast(some, keys);
    } else {
      LeastExists(rest);
      var other :| IsLeast(other, rest);
      LeastOfTwo(some, rest, other);
      assert keys == rest + {some};
    }
  }

  ghost function Least(keys: set<string>): (least: string)
    requires keys != {}
    ensures IsLeast(least, keys)
  {
    LeastExists(keys);
    var least :| IsLeast(least, keys);
    least
  }

  // ---------------------------------------------------------------- keys

  lemma AtomLtTotal(a: Atom, b: Atom)
    ensures AtomLt(a, b) || AtomLt(b, a) || a == b
    ensures !(AtomLt(a, b) && AtomLt(b, a))
    ensures !AtomLt(a, a)
  {
    if a.Text? && b.Text? {
      StringLeTotal(a.s, b.s);
    }
  }

  lemma AtomLtTransitive(a: Atom, b: Atom, c: Atom)
    requires AtomLt(a, b) && AtomLt(b, c)
    ensures AtomLt(a, c)
  {
    if a.Text? && b.Text? && c.Text? {
      StringLeTransitive(a.s, b.s, c.s);
      StringLeTotal(a.s, b.s);
    }
  }

  lemma {:induction false} KeyLeTotal(a: Key, b: Key)
    ensures KeyLe(a, b) || KeyLe(b, a)
    ensures KeyLe(a, b) && KeyLe(b, a) ==> a == b
  {
    if a != [] && b != [] {
      AtomLtTotal(a[0], b[0]);
      if a[0] == b[0] {
        KeyLeTotal(a[1..], b[1..]);
        assert a == [a[0]] + a[1..] && b == [b[0]] + b[1..];
      }
    }
  }

  lemma {:induction false} KeyLeTransitive(a: Key, b: Key, c: Key)
    requires KeyLe(a, b) && KeyLe(b, c)
    ensures KeyLe(a, c)
  {
    if a != [] {
      if a[0] == b[0] == c[0] {
        KeyLeTransitive(a[1..], b[1..], c[1..]);
      } else if AtomLt(a[0], b[0]) && AtomLt(b[0], c[0]) {
        AtomLtTransitive(a[0], b[0], c[0]);
      }
    }
  }

  ghost predicate Sorted<T>(s: seq<T>, key: T -> Key) {
    forall i, j :: 0 <= i < j < |s| ==> KeyLe(key(s[i]), key(s[j]))
  }

  /** Put `x` in front of the first element that is not smaller. */
  function Insert<T>(x: T, t: seq<T>, key: T -> Key): (r: seq<T>) {
    if t == [] || KeyLe(key(x), key(t[0])) then [x] + t else [t[0]] + Insert(x, t[1..], key)
  }

  function StableSort<T>(s: seq<T>, key: T -> Key): (r: seq<T>) {
    if s == [] then [] else Insert(s[0], StableSort(s[1..], key), key)
  }

  /** The elements of `s` with key `k`, in their order in `s`. */
  function Select<T>(s: seq<T>, key: T -> Key, k: Key): (r: seq<T>) {
    if s == [] then []
    else (if key(s[0]) == k then [s[0]] else []) + Select(s[1..], key, k)
  }

  lemma {:induction false} InsertKeepsRuns<T>(x: T, t: seq<T>, key: T -> Key, k: Key)
    requires Sorted(t, key)
    ensures Select(Insert(x, t, key), key, k) == Select([x] + t, key, k)
  {
    assert ([x] + t)[1..] == t;
    if t != [] && !KeyLe(key(x), key(t[0])) {
      KeyLeTotal(key(x), key(t[0]));
      var rest := Insert(x, t[1..], key);
      InsertKeepsRuns(x, t[1..], key, k);
      assert ([t[0]] + rest)[1..] == rest;
      assert ([x] + t[1..])[1..] == t[1..];
    }
  }

  lemma {:induction false} InsertMembers<T>(x: T, t: seq<T>, key: T -> Key)
    ensures multiset(Insert(x, t, key)) == multiset(t) + multiset{x}
    ensures |Insert(x, t, key)| == |t| + 1
    ensures forall y :: y in Insert(x, t, key) ==> y == x || y in t
  {
    if t != [] && !KeyLe(key(x), key(t[0])) {
      InsertMembers(x, t[1..], key);
      assert t == [t[0]] + t[1..];
    }
  }

  lemma {:induction false} InsertSorted<T>(x: T, t: seq<T>, key: T -> Key)
    requires Sorted(t, key)
    ensures Sorted(Insert(x, t, key), key)
  {
    KeyLeTotal(key(x), key(x));
    if t == [] {
    } else if KeyLe(key(x), key(t[0])) {
      forall j | 0 <= j < |t| ensures KeyLe(key(x), key(t[j])) {
        if j > 0 {
          KeyLeTransitive(key(x), key(t[0]), key(t[j]));
        }
      }
    } else {
      var rest := Insert(x, t[1..], key);
      InsertSorted(x, t[1..], key);
      InsertMembers(x, t[1..], key);
      KeyLeTotal(key(x), key(t[0]));
      forall j | 0 <= j < |rest| ensures KeyLe(key(t[0]), key(rest[j])) {
        assert rest[j] == x || rest[j] in t[1..];
      }
    }
  }

  /** What `sort_by` promises: ascending, the same elements, equal keys kept in order. */
  lemma {:induction false} StableSortFacts<T>(s: seq<T>, key: T -> Key)
    ensures Sorted(StableSort(s, key), key)
    ensures multiset(StableSort(s, key)) == multiset(s)
    ensures |StableSort(s, key)| == |s|
    ensures forall k :: Select(StableSort(s, key), key, k) == Select(s, key, k)
  {
    if s != [] {
      var rest := StableSort(s[1..], key);
      StableSortFacts(s[1..], key);
      InsertSorted(s[0], rest, key);
      InsertMembers(s[0], rest, key);
      assert s == [s[0]] + s[1..];
      forall k ensures Select(StableSort(s, key), key, k) == Select(s, key, k) {
        InsertKeepsRuns(s[0], rest, key, k);
        assert ([s[0]] + rest)[1..] == rest;
      }
    }
  }

  /** `t` is `s` rearranged: its element `i` is the one at `pick[i]`, and each position is picked once. */
  ghost predicate Arranges<T>(s: seq<T>, t: seq<T>, pick: seq<nat>) {
    |pick| == |s| == |t|
    && (forall i :: 0 <= i < |pick| ==> pick[i] < |s| && t[i] == s[pick[i]])
    && (forall i, j :: 0 <= i < j < |pick| ==> pick[i] != pick[j])
    && forall p :: 0 <= p < |s| ==> p in pick
  }

  ghost predicate TiesInOrder<T>(s: seq<T>, key: T -> Key, pick: seq<nat>)
    requires forall i :: 0 <= i < |pick| ==> pick[i] < |s|
  {
    forall i, j :: 0 <= i < j < |pick| && key(s[pick[i]]) == key(s[pick[j]]) ==> pick[i] < pick[j]
  }

  lemma {:induction false} InsertAt<T>(x: T, t: seq<T>, key: T -> Key) returns (p: nat)
    ensures p <= |t| && Insert(x, t, key) == t[..p] + [x] + t[p..]
    ensures forall i :: 0 <= i < p ==> key(t[i]) != key(x)
  {
    p := 0;
    if t != [] && !KeyLe(key(x), key(t[0])) {
      KeyLeTotal(key(x), key(x));
      p := InsertAt(x, t[1..], key);
      p := p + 1;
      assert t[..p] == [t[0]] + t[1..][..p - 1] && t[p..] == t[1..][p - 1..];
    } else {
      assert t[..0] + [x] + t[0..] == [x] + t;
    }
  }

  /** Where the positions go when `p` earlier elements are smaller than a new first one. */
  function Opened(pick: seq<nat>, p: nat): (r: seq<nat>)
    requires p <= |pick|
    ensures |r| == |pick| + 1
  {
    seq(|pick| + 1, i requires 0 <= i <= |pick| => if i < p then pick[i] + 1 else if i == p then 0 else pick[i - 1] + 1)
  }

  lemma OpenedArranges<T>(s: seq<T>, t: seq<T>, pick: seq<nat>, p: nat)
    requires s != [] && Arranges(s[1..], t, pick) && p <= |t|
    ensures Arranges(s, t[..p] + [s[0]] + t[p..], Opened(pick, p))
  {
    var all, after := Opened(pick, p), t[..p] + [s[0]] + t[p..];
    forall i | 0 <= i < |all| ensures all[i] < |s| && after[i] == s[all[i]] {
      if i != p {
        assert s[all[i]] == s[1..][all[i] - 1];
      }
    }
    forall q | 0 <= q < |s| ensures q in all {
      if q == 0 {
        assert all[p] == 0;
      } else {
        assert q - 1 in pick;
        var i :| 0 <= i < |pick| && pick[i] == q - 1;
        assert all[if i < p then i else i + 1] == q;
      }
    }
  }

  lemma OpenedTies<T>(s: seq<T>, t: seq<T>, key: T -> Key, pick: seq<nat>, p: nat)
    requires s != [] && Arranges(s[1..], t, pick) && TiesInOrder(s[1..], key, pick) && p <= |t|
    requires forall i :: 0 <= i < p ==> key(t[i]) != key(s[0])
    ensures forall i :: 0 <= i <= |pick| ==> Opened(pick, p)[i] < |s|
    ensures TiesInOrder(s, key, Opened(pick, p))
  {
    var all := Opened(pick, p);
    forall i | 0 <= i < p ensures key(s[all[i]]) != key(s[0]) {
      assert t[i] == s[1..][pick[i]] == s[all[i]];
    }
    forall i, j | 0 <= i < j < |all| && key(s[all[i]]) == key(s[all[j]]) ensures all[i] < all[j] {
      var a, b := if i < p then i else i - 1, if j < p then j else j - 1;
      if i != p && j != p {
        assert s[all[i]] == s[1..][pick[a]] && s[all[j]] == s[1..][pick[b]];
      }
    }
  }

  /** A stable sort rearranges, and keeps elements of equal key in their order. */
  lemma {:induction false} StableSortArranges<T>(s: seq<T>, key: T -> Key) returns (pick: seq<nat>)
    ensures Arranges(s, StableSort(s, key), pick) && TiesInOrder(s, key, pick)
  {
    pick := [];
    if s != [] {
      var rest := StableSortArranges(s[1..], key);
      var t := StableSort(s[1..], key);
      var p := InsertAt(s[0], t, key);
      OpenedArranges(s, t, rest, p);
      OpenedTies(s, t, key, rest, p);
      pick := Opened(rest, p);
    }
  }

  lemma SortKeepsMembers<T>(s: seq<T>, key: T -> Key)
    ensures forall x :: x in StableSort(s, key) <==> x in s
  {
    StableSortFacts(s, key);
    assert forall x :: x in StableSort(s, key) <==> x in multiset(StableSort(s, key));
    assert forall x :: x in s <==> x in multiset(s);
  }

  lemma {:induction false} SelectMembers<T>(s: seq<T>, key: T -> Key, k: Key)
    ensures forall x :: x in Select(s, key, k) ==> x in s && key(x) == k
    ensures forall i :: 0 <= i < |s| && key(s[i]) == k ==> Select(s, key, k) != []
  {
    if s != [] {
      SelectMembers(s[1..], key, k);
    }
  }

  lemma NoRunsNoElements<T>(s: seq<T>, t: seq<T>, key: T -> Key)
    requires forall k :: Select(s, key, k) == Select(t, key, k)
    ensures s == [] <==> t == []
  {
    if s != [] {
      SelectMembers(s, key, key(s[0]));
    } else if t != [] {
      SelectMembers(t, key, key(t[0]));
    }
  }

  /** A sorted sequence is determined by its runs of equal keys. */
  lemma {:induction false} SortedUnique<T>(s: seq<T>, t: seq<T>, key: T -> Key)
    requires Sorted(s, key) && Sorted(t, key)
    requires forall k :: Select(s, key, k) == Select(t, key, k)
    ensures s == t
  {
    NoRunsNoElements(s, t, key);
    if s != [] {
      SelectMembers(s, key, key(s[0]));
      assert Select(t, key, key(s[0])) != [];
      assert t != [];
      SelectMembers(t, key, key(t[0]));
      SameFirstKey(s, t, key);
      SameFirstKey(t, s, key);
      KeyLeTotal(key(s[0]), key(t[0]));
      var k0 := key(s[0]);
      assert Select(s, key, k0)[0] == s[0] && Select(t, key, k0)[0] == t[0];
      forall k ensures Select(s[1..], key, k) == Select(t[1..], key, k) {
        assert Select(s, key, k) == Select(t, key, k);
        assert Select(s[1..], key, k) == if k == k0 then Select(s, key, k)[1..] else Select(s, key, k);
        assert Select(t[1..], key, k) == if k == k0 then Select(t, key, k)[1..] else Select(t, key, k);
      }
      SortedUnique(s[1..], t[1..], key);
      assert s == [s[0]] + s[1..] && t == [t[0]] + t[1..];
    }
  }

  lemma SameFirstKey<T>(s: seq<T>, t: seq<T>, key: T -> Key)
    requires Sorted(t, key) && s != [] && t != []
    requires Select(s, key, key(s[0])) == Select(t, key, key(s[0]))
    ensures KeyLe(key(t[0]), key(s[0]))
  {
    SelectMembers(s, key, key(s[0]));
    SelectMembers(t, key, key(s[0]));
    var x := Select(t, key, key(s[0]))[0];
    assert x in t && key(x) == key(s[0]);
    KeyLeTotal(key(x), key(x));
  }

  /** Two inputs that agree on every run of equal keys sort to the same result. */
  lemma SameRunsSameSort<T>(s: seq<T>, t: seq<T>, key: T -> Key)
    requires forall k :: Select(s, key, k) == Select(t, key, k)
    ensures StableSort(s, key) == StableSort(t, key)
  {
    StableSortFacts(s, key);
    StableSortFacts(t, key);
    SortedUnique(StableSort(s, key), StableSort(t, key), key);
  }

  lemma SortedIsFixed<T>(s: seq<T>, key: T -> Key)
    requires Sorted(s, key)
    ensures StableSort(s, key) == s
  {
    StableSortFacts(s, key);
    SortedUnique(StableSort(s, key), s, key);
  }

  lemma {:induction false} SelectConcat<T>(s: seq<T>, t: seq<T>, key: T -> Key, k: Key)
    ensures Select(s + t, key, k) == Select(s, key, k) + Select(t, key, k)
  {
    if s == [] {
      assert s + t == t;
    } else {
      var head := if key(s[0]) == k then [s[0]] else [];
      SelectConcat(s[1..], t, key, k);
      assert (s + t)[0] == s[0] && (s + t)[1..] == s[1..] + t;
      assert Select(s + t, key, k) == head + Select(s[1..] + t, key, k);
      assert Select(s, key, k) == head + Select(s[1..], key, k);
    }
  }
}
