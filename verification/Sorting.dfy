/** Stable sorting, and when its result does not depend on the order it starts from. */
module Sorting {

  /** Lexicographic order of texts, as `str::cmp` on their bytes. */
  predicate TextLe(a: string, b: string)
    decreases |a|
  {
    a == "" || (b != "" && (a[0] < b[0] || (a[0] == b[0] && TextLe(a[1..], b[1..]))))
  }

  lemma {:induction false} TextLeRefl(a: string)
    ensures TextLe(a, a)
    decreases |a|
  {
    if a != "" {
      TextLeRefl(a[1..]);
    }
  }

  lemma {:induction false} TextLeTotal(a: string, b: string)
    ensures TextLe(a, b) || TextLe(b, a)
    decreases |a|
  {
    if a != "" && b != "" {
      TextLeTotal(a[1..], b[1..]);
    }
  }

  lemma {:induction false} TextLeTrans(a: string, b: string, c: string)
    requires TextLe(a, b) && TextLe(b, c)
    ensures TextLe(a, c)
    decreases |a|
  {
    if a != "" && a[0] == b[0] && b[0] == c[0] {
      TextLeTrans(a[1..], b[1..], c[1..]);
    }
  }

  lemma {:induction false} TextLeAntisym(a: string, b: string)
    requires TextLe(a, b) && TextLe(b, a)
    ensures a == b
    decreases |a|
  {
    if a != "" {
      TextLeAntisym(a[1..], b[1..]);
      assert a == [a[0]] + a[1..] && b == [b[0]] + b[1..];
    }
  }

  // ----- tuples of texts -----

  type Key = seq<string>

  /** Tuples compare by their first difference. */
  predicate KeyLe(a: Key, b: Key)
    decreases |a|
  {
    a == [] || (b != [] && if a[0] == b[0] then KeyLe(a[1..], b[1..]) else TextLe(a[0], b[0]))
  }

  lemma {:induction false} KeyLeRefl(a: Key)
    ensures KeyLe(a, a)
    decreases |a|
  {
    if a != [] {
      KeyLeRefl(a[1..]);
    }
  }

  lemma {:induction false} KeyLeTotal(a: Key, b: Key)
    ensures KeyLe(a, b) || KeyLe(b, a)
    decreases |a|
  {
    if a != [] && b != [] {
      TextLeTotal(a[0], b[0]);
      KeyLeTotal(a[1..], b[1..]);
    }
  }

  lemma {:induction false} KeyLeTrans(a: Key, b: Key, c: Key)
    requires KeyLe(a, b) && KeyLe(b, c)
    ensures KeyLe(a, c)
    decreases |a|
  {
    if a != [] {
      if a[0] == b[0] && b[0] == c[0] {
        KeyLeTrans(a[1..], b[1..], c[1..]);
      } else if a[0] != b[0] && b[0] != c[0] {
        TextLeTrans(a[0], b[0], c[0]);
        if a[0] == c[0] {
          TextLeAntisym(a[0], b[0]);
        }
      }
    }
  }

  lemma {:induction false} KeyLeAntisym(a: Key, b: Key)
    requires KeyLe(a, b) && KeyLe(b, a)
    ensures a == b
    decreases |a|
  {
    if a != [] {
      if a[0] == b[0] {
        KeyLeAntisym(a[1..], b[1..]);
        assert a == [a[0]] + a[1..] && b == [b[0]] + b[1..];
      } else {
        TextLeAntisym(a[0], b[0]);
      }
    }
  }

  // ----- sorting by a key -----

  predicate Sorted<T(!new)>(key: T -> Key, s: seq<T>) {
    forall i, j :: 0 <= i < j < |s| ==> KeyLe(key(s[i]), key(s[j]))
  }

  function Insert<T(!new)>(key: T -> Key, x: T, s: seq<T>): (r: seq<T>)
    ensures multiset(r) == multiset(s) + multiset{x} && |r| == |s| + 1
  {
    if s == [] then [x]
    else if KeyLe(key(x), key(s[0])) then [x] + s
    else
      assert s == [s[0]] + s[1..];
      [s[0]] + Insert(key, x, s[1..])
  }

  /** `sort_by` on a key: stable. */
  function Sort<T(!new)>(key: T -> Key, s: seq<T>): (r: seq<T>)
    ensures multiset(r) == multiset(s) && |r| == |s|
  {
    if s == [] then []
    else
      assert s == [s[0]] + s[1..];
      Insert(key, s[0], Sort(key, s[1..]))
  }

  lemma {:induction false} InsertSorted<T(!new)>(key: T -> Key, x: T, s: seq<T>)
    requires Sorted(key, s)
    ensures Sorted(key, Insert(key, x, s))
    decreases |s|
  {
    if s == [] {
    } else if KeyLe(key(x), key(s[0])) {
      forall j | 0 <= j < |s| ensures KeyLe(key(x), key(s[j])) {
        if j > 0 {
          KeyLeTrans(key(x), key(s[0]), key(s[j]));
        }
      }
    } else {
      KeyLeTotal(key(x), key(s[0]));
      var rest := Insert(key, x, s[1..]);
      InsertSorted(key, x, s[1..]);
      forall j | 0 <= j < |rest| ensures KeyLe(key(s[0]), key(rest[j])) {
        assert rest[j] in multiset(rest);
        if rest[j] != x {
          assert rest[j] in multiset(s[1..]);
          var i :| 0 <= i < |s[1..]| && s[1..][i] == rest[j];
          assert s[i + 1] == rest[j];
        }
      }
    }
  }

  lemma {:induction false} SortSorted<T(!new)>(key: T -> Key, s: seq<T>)
    ensures Sorted(key, Sort(key, s))
    decreases |s|
  {
    if s != [] {
      SortSorted(key, s[1..]);
      InsertSorted(key, s[0], Sort(key, s[1..]));
    }
  }

  /** The key tells the elements of `s` apart. */
  ghost predicate Tells<T(!new)>(key: T -> Key, s: seq<T>) {
    forall x, y :: x in s && y in s && key(x) == key(y) ==> x == y
  }

  lemma {:induction false} SortedUnique<T(!new)>(key: T -> Key, s: seq<T>, t: seq<T>)
    requires Sorted(key, s) && Sorted(key, t) && multiset(s) == multiset(t) && Tells(key, s)
    ensures s == t
    decreases |s|
  {
    SameLength(s, t);
    if s != [] {
      SameHead(key, s, t);
      TailsAgree(key, s, t);
      SortedUnique(key, s[1..], t[1..]);
      HeadAndTail(s, t);
    }
  }

  lemma SameLength<T>(s: seq<T>, t: seq<T>)
    requires multiset(s) == multiset(t)
    ensures |s| == |t|
  {
    assert |multiset(s)| == |s| && |multiset(t)| == |t|;
  }

  lemma HeadAndTail<T>(s: seq<T>, t: seq<T>)
    requires s != [] && t != [] && s[0] == t[0] && s[1..] == t[1..]
    ensures s == t
  {
    assert s == [s[0]] + s[1..] && t == [t[0]] + t[1..];
  }

  lemma TailsAgree<T(!new)>(key: T -> Key, s: seq<T>, t: seq<T>)
    requires Sorted(key, s) && Sorted(key, t) && multiset(s) == multiset(t) && Tells(key, s)
    requires s != [] && t != [] && s[0] == t[0]
    ensures Sorted(key, s[1..]) && Sorted(key, t[1..]) && multiset(s[1..]) == multiset(t[1..]) && Tells(key, s[1..])
  {
    TailMultiset(s);
    TailMultiset(t);
    assert forall x :: x in s[1..] ==> x in s;
  }

  lemma TailMultiset<T>(s: seq<T>)
    requires s != []
    ensures multiset(s[1..]) == multiset(s) - multiset{s[0]}
  {
    assert s == [s[0]] + s[1..];
  }

  lemma SameHead<T(!new)>(key: T -> Key, s: seq<T>, t: seq<T>)
    requires Sorted(key, s) && Sorted(key, t) && multiset(s) == multiset(t) && Tells(key, s) && s != [] && t != []
    ensures s[0] == t[0]
  {
    assert s[0] in multiset(t) && t[0] in multiset(s);
    SmallestFirst(key, s, t[0]);
    SmallestFirst(key, t, s[0]);
    KeyLeAntisym(key(s[0]), key(t[0]));
  }

  lemma SmallestFirst<T(!new)>(key: T -> Key, s: seq<T>, x: T)
    requires Sorted(key, s) && x in s
    ensures KeyLe(key(s[0]), key(x))
  {
    var i :| 0 <= i < |s| && s[i] == x;
    KeyLeRefl(key(x));
  }

  /** Where the key tells elements apart, sorting forgets the order it started from. */
  lemma SortForgetsOrder<T(!new)>(key: T -> Key, s: seq<T>, t: seq<T>)
    requires multiset(s) == multiset(t) && Tells(key, s)
    ensures Sort(key, s) == Sort(key, t)
  {
    SortSorted(key, s);
    SortSorted(key, t);
    var a, b := Sort(key, s), Sort(key, t);
    forall x | x in a ensures x in s {
      assert x in multiset(a);
    }
    SortedUnique(key, a, b);
  }

  /** Distinct elements, all found in an equally long list of distinct elements. */
  lemma SameElements<T(!new)>(s: seq<T>, t: seq<T>)
    requires forall i, j :: 0 <= i < j < |s| ==> s[i] != s[j]
    requires |s| == |t| && forall x :: x in s ==> x in t
    ensures multiset(s) == multiset(t)
  {
    forall x | x in multiset(s) ensures multiset(s)[x] <= multiset(t)[x] {
      OnceOnly(s, x);
      assert x in t;
    }
    assert multiset(s) <= multiset(t);
    assert |multiset(t) - multiset(s)| == 0;
  }

  lemma {:induction false} OnceOnly<T(!new)>(s: seq<T>, x: T)
    requires forall i, j :: 0 <= i < j < |s| ==> s[i] != s[j]
    ensures multiset(s)[x] <= 1
    decreases |s|
  {
    if s != [] {
      assert s == [s[0]] + s[1..];
      OnceOnly(s[1..], x);
      if s[0] == x {
        assert x !in s[1..];
      }
    }
  }

  lemma TwiceCounts<T(!new)>(s: seq<T>, i: nat, j: nat)
    requires i < j < |s| && s[i] == s[j]
    ensures multiset(s)[s[i]] >= 2
  {
    assert s == s[..j] + [s[j]] + s[j + 1..];
    assert s[i] in multiset(s[..j]) by {
      assert s[..j][i] == s[i];
    }
  }

  /** Reordering keeps keys distinct. */
  lemma PermutedKeys<T(!new)>(key: T -> Key, s: seq<T>, t: seq<T>)
    requires multiset(s) == multiset(t) && forall i, j :: 0 <= i < j < |s| ==> key(s[i]) != key(s[j])
    ensures forall i, j :: 0 <= i < j < |t| ==> key(t[i]) != key(t[j])
  {
    forall i, j | 0 <= i < j < |t| ensures key(t[i]) != key(t[j]) {
      assert t[i] in multiset(s) && t[j] in multiset(s);
      if t[i] == t[j] {
        TwiceCounts(t, i, j);
        OnceOnly(s, t[i]);
      }
    }
  }
}
