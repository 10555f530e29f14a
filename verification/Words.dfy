/**
  Byte strings, their lexicographic order, and sorting.

  Both tree builders order 32-byte words: Python compares `bytes`, JavaScript
  compares strings by UTF-16 code unit. Both are the lexicographic order on a
  sequence of numbers, so one definition serves the two.
 */
module Words {

  datatype Option<+T> = None | Some(value: T)
  datatype Result<+T, +E> = Ok(value: T) | Err(error: E)

  type byte = x: int | 0 <= x < 256
  type Bytes = seq<byte>

  /** A keccak256 output. */
  type Digest = d: Bytes | |d| == 32 witness seq(32, _ => 0)

  /** Hashing is uninterpreted: every theorem holds for every such function. */
  type Keccak = Bytes -> Digest

  predicate LexLeq(a: seq<int>, b: seq<int>)
  {
    a == [] || (b != [] && (a[0] < b[0] || (a[0] == b[0] && LexLeq(a[1..], b[1..]))))
  }

  lemma {:induction false} LexTotal(a: seq<int>, b: seq<int>)
    ensures LexLeq(a, b) || LexLeq(b, a)
  {
    if a != [] && b != [] { LexTotal(a[1..], b[1..]); }
  }

  lemma {:induction false} LexAntisymmetric(a: seq<int>, b: seq<int>)
    requires LexLeq(a, b) && LexLeq(b, a)
    ensures a == b
  {
    if a != [] && b != [] {
      LexAntisymmetric(a[1..], b[1..]);
      assert a == [a[0]] + a[1..] && b == [b[0]] + b[1..];
    }
  }

  lemma {:induction false} LexTransitive(a: seq<int>, b: seq<int>, c: seq<int>)
    requires LexLeq(a, b) && LexLeq(b, c)
    ensures LexLeq(a, c)
  {
    if a != [] && a[0] == b[0] == c[0] { LexTransitive(a[1..], b[1..], c[1..]); }
  }

  /** The first position at which two sequences differ decides, and a prefix comes first. */
  ghost predicate NotAfter(a: seq<int>, b: seq<int>)
  {
    a <= b || exists k :: 0 <= k < |a| && k < |b| && a[..k] == b[..k] && a[k] < b[k]
  }

  lemma {:induction false} LexIsFirstDifference(a: seq<int>, b: seq<int>)
    ensures LexLeq(a, b) <==> NotAfter(a, b)
  {
    if a != [] && b != [] && a[0] == b[0] {
      var s, t := a[1..], b[1..];
      LexIsFirstDifference(s, t);
      assert a == [a[0]] + s && b == [b[0]] + t;
      if k :| 0 <= k < |s| && k < |t| && s[..k] == t[..k] && s[k] < t[k] {
        assert a[..k + 1] == [a[0]] + s[..k] && b[..k + 1] == [b[0]] + t[..k];
        assert a[k + 1] < b[k + 1];
      }
      if k :| 0 <= k < |a| && k < |b| && a[..k] == b[..k] && a[k] < b[k] {
        assert a[..k][1..] == s[..k - 1] && b[..k][1..] == t[..k - 1];
        assert s[k - 1] < t[k - 1];
      }
    } else if a != [] && b != [] {
      if a[0] < b[0] { assert a[..0] == b[..0]; }
      if k :| 0 <= k < |a| && k < |b| && a[..k] == b[..k] && a[k] < b[k] {
        if k > 0 { assert a[..k][0] == b[..k][0]; }
      }
    }
  }

  /** Sorting, for any element type laid over words by `key`. */
  function Insert<T>(key: T -> seq<int>, x: T, s: seq<T>): (r: seq<T>)
    ensures |r| == |s| + 1
    ensures multiset(r) == multiset(s) + multiset{x}
  {
    if s == [] then [x]
    else if LexLeq(key(x), key(s[0])) then [x] + s
    else
      assert s == [s[0]] + s[1..];
      [s[0]] + Insert(key, x, s[1..])
  }

  function Sort<T>(key: T -> seq<int>, s: seq<T>): (r: seq<T>)
    ensures |r| == |s|
    ensures multiset(r) == multiset(s)
  {
    if s == [] then [] else
    assert s == [s[0]] + s[1..];
    Insert(key, s[0], Sort(key, s[1..]))
  }

  predicate Sorted<T>(key: T -> seq<int>, s: seq<T>)
  {
    forall i, j :: 0 <= i < j < |s| ==> LexLeq(key(s[i]), key(s[j]))
  }

  lemma {:induction false} InsertSorted<T>(key: T -> seq<int>, x: T, s: seq<T>)
    requires Sorted(key, s)
    ensures Sorted(key, Insert(key, x, s))
  {
    if s == [] {
    } else if LexLeq(key(x), key(s[0])) {
      forall j | 0 <= j < |s| ensures LexLeq(key(x), key(s[j])) {
        if j > 0 { LexTransitive(key(x), key(s[0]), key(s[j])); }
      }
    } else {
      LexTotal(key(x), key(s[0]));
      InsertSorted(key, x, s[1..]);
      var rest := Insert(key, x, s[1..]);
      forall j | 0 <= j < |rest| ensures LexLeq(key(s[0]), key(rest[j])) {
        assert rest[j] in multiset(rest);
        assert rest[j] in multiset(s[1..]) || rest[j] == x;
        if rest[j] != x { assert rest[j] in s[1..]; }
      }
    }
  }

  lemma {:induction false} SortSorted<T>(key: T -> seq<int>, s: seq<T>)
    ensures Sorted(key, Sort(key, s))
  {
    if s != [] {
      SortSorted(key, s[1..]);
      InsertSorted(key, s[0], Sort(key, s[1..]));
    }
  }

  ghost predicate Injective<T(!new)>(key: T -> seq<int>)
  {
    forall x, y :: key(x) == key(y) ==> x == y
  }

  lemma SameHead<T(!new)>(key: T -> seq<int>, s: seq<T>, t: seq<T>)
    requires Injective(key) && s != [] && t != []
    requires Sorted(key, s) && Sorted(key, t) && s[0] in t && t[0] in s
    ensures s[0] == t[0]
  {
    var i :| 0 <= i < |t| && t[i] == s[0];
    var j :| 0 <= j < |s| && s[j] == t[0];
    if i > 0 && j > 0 { LexAntisymmetric(key(s[0]), key(t[0])); }
  }

  lemma TailMultiset<T>(s: seq<T>)
    requires s != []
    ensures multiset(s[1..]) == multiset(s) - multiset{s[0]}
  {
    assert s == [s[0]] + s[1..];
  }

  lemma SortedTail<T>(key: T -> seq<int>, s: seq<T>)
    requires s != [] && Sorted(key, s)
    ensures Sorted(key, s[1..])
  {
  }

  /** Any sorting routine gives the same result, so a library sort needs no code here. */
  lemma {:induction false} SortUnique<T(!new)>(key: T -> seq<int>, s: seq<T>, t: seq<T>)
    requires Injective(key)
    requires Sorted(key, s) && Sorted(key, t) && multiset(s) == multiset(t)
    ensures s == t
  {
    hide Sorted, Injective;
    assert |s| == |multiset(s)| == |multiset(t)| == |t|;
    if s != [] {
      assert s[0] in multiset(t) && t[0] in multiset(s);
      SameHead(key, s, t);
      TailMultiset(s);
      TailMultiset(t);
      SortedTail(key, s);
      SortedTail(key, t);
      SortUnique(key, s[1..], t[1..]);
      assert s == [s[0]] + s[1..] && t == [t[0]] + t[1..];
    }
  }

  function Map<A, B>(f: A -> B, s: seq<A>): (r: seq<B>)
    ensures |r| == |s|
    ensures forall i :: 0 <= i < |s| ==> r[i] == f(s[i])
  {
    seq(|s|, i requires 0 <= i < |s| => f(s[i]))
  }

  /** Sorting commutes with a renaming that preserves the order. */
  lemma {:induction false} SortMap<A(!new), B>(ka: A -> seq<int>, kb: B -> seq<int>, f: A -> B, s: seq<A>)
    requires forall x, y :: LexLeq(kb(f(x)), kb(f(y))) <==> LexLeq(ka(x), ka(y))
    ensures Sort(kb, Map(f, s)) == Map(f, Sort(ka, s))
  {
    if s != [] {
      assert Map(f, s)[1..] == Map(f, s[1..]);
      SortMap(ka, kb, f, s[1..]);
      InsertMap(ka, kb, f, s[0], Sort(ka, s[1..]));
    }
  }

  lemma {:induction false} InsertMap<A(!new), B>(ka: A -> seq<int>, kb: B -> seq<int>, f: A -> B, x: A, s: seq<A>)
    requires forall x, y :: LexLeq(kb(f(x)), kb(f(y))) <==> LexLeq(ka(x), ka(y))
    ensures Insert(kb, f(x), Map(f, s)) == Map(f, Insert(ka, x, s))
  {
    if s == [] {
    } else if LexLeq(ka(x), ka(s[0])) {
      assert [f(x)] + Map(f, s) == Map(f, [x] + s);
    } else {
      assert Map(f, s)[1..] == Map(f, s[1..]);
      InsertMap(ka, kb, f, x, s[1..]);
      assert [f(s[0])] + Map(f, Insert(ka, x, s[1..])) == Map(f, [s[0]] + Insert(ka, x, s[1..]));
    }
  }
}
