/** Vocabulary shared by every module: optional values, results, the
    lexicographic orders behind Python's `sorted`, and a stable sort. */
module Common {

  datatype Option<+T> = None | Some(value: T)

  datatype Result<+T, +E> = Ok(value: T) | Err(error: E) {
    predicate IsFailure() { Err? }

    function PropagateFailure<U>(): Result<U, E>
      requires Err?
    {
      Err(error)
    }

    function Extract(): T
      requires Ok?
    {
      value
    }
  }

  // ---------------------------------------------------------------- orders

  ghost predicate TotalOrder<T(!new)>(le: (T, T) -> bool) {
    && (forall a, b :: le(a, b) || le(b, a))
    && (forall a, b, c :: le(a, b) && le(b, c) ==> le(a, c))
  }

  ghost predicate Antisymmetric<T(!new)>(le: (T, T) -> bool) {
    forall a, b :: le(a, b) && le(b, a) ==> a == b
  }

  /** Python's comparison of strings: by code point, a prefix before its extensions. */
  predicate StringLe(a: string, b: string) {
    if a == [] then true
    else if b == [] then false
    else if a[0] != b[0] then a[0] < b[0]
    else StringLe(a[1..], b[1..])
  }

  lemma {:induction false} StringLeTotal(a: string, b: string)
    ensures StringLe(a, b) || StringLe(b, a)
    ensures StringLe(a, b) && StringLe(b, a) ==> a == b
  {
    if a != [] && b != [] && a[0] == b[0] {
      StringLeTotal(a[1..], b[1..]);
      assert a == [a[0]] + a[1..] && b == [b[0]] + b[1..];
    }
  }

  lemma {:induction false} StringLeTransitive(a: string, b: string, c: string)
    requires StringLe(a, b) && StringLe(b, c)
    ensures StringLe(a, c)
  {
    if a != [] && b != [] && c != [] && a[0] == b[0] == c[0] {
      StringLeTransitive(a[1..], b[1..], c[1..]);
    }
  }

  lemma StringOrder()
    ensures TotalOrder(StringLe) && Antisymmetric(StringLe)
  {
    forall a, b ensures StringLe(a, b) || StringLe(b, a)
      ensures StringLe(a, b) && StringLe(b, a) ==> a == b
    {
      StringLeTotal(a, b);
    }
    forall a, b, c | StringLe(a, b) && StringLe(b, c) ensures StringLe(a, c) {
      StringLeTransitive(a, b, c);
    }
  }

  /** Python's comparison of two lists (or tuples) of strings. */
  predicate StringsLe(a: seq<string>, b: seq<string>) {
    if a == [] then true
    else if b == [] then false
    else if a[0] != b[0] then StringLe(a[0], b[0])
    else StringsLe(a[1..], b[1..])
  }

  lemma {:induction false} StringsLeTotal(a: seq<string>, b: seq<string>)
    ensures StringsLe(a, b) || StringsLe(b, a)
    ensures StringsLe(a, b) && StringsLe(b, a) ==> a == b
  {
    if a != [] && b != [] {
      StringLeTotal(a[0], b[0]);
      if a[0] == b[0] {
        StringsLeTotal(a[1..], b[1..]);
        assert a == [a[0]] + a[1..] && b == [b[0]] + b[1..];
      }
    }
  }

  lemma {:induction false} StringsLeTransitive(a: seq<string>, b: seq<string>, c: seq<string>)
    requires StringsLe(a, b) && StringsLe(b, c)
    ensures StringsLe(a, c)
  {
    if a != [] && b != [] && c != [] {
      if a[0] == b[0] == c[0] {
        StringsLeTransitive(a[1..], b[1..], c[1..]);
      } else if a[0] != b[0] && b[0] != c[0] {
        StringLeTransitive(a[0], b[0], c[0]);
        StringLeTotal(a[0], b[0]);
      }
    }
  }

  // ----------------------------------------------------------- stable sort

  ghost predicate SortedBy<T>(le: (T, T) -> bool, s: seq<T>) {
    forall i, j :: 0 <= i < j < |s| ==> le(s[i], s[j])
  }

  predicate NoDup<T(==)>(s: seq<T>) {
    forall i, j :: 0 <= i < j < |s| ==> s[i] != s[j]
  }

  function Insert<T>(le: (T, T) -> bool, x: T, s: seq<T>): seq<T> {
    if s == [] then [x]
    else if le(x, s[0]) then [x] + s
    else [s[0]] + Insert(le, x, s[1..])
  }

  /** `sorted(s, key=...)` for the order `le` of the keys: stable, because an element
      is placed before the later elements it is level with. */
  function Sort<T>(le: (T, T) -> bool, s: seq<T>): seq<T> {
    if s == [] then [] else Insert(le, s[0], Sort(le, s[1..]))
  }

  lemma {:induction false} InsertKeeps<T>(le: (T, T) -> bool, x: T, s: seq<T>)
    ensures multiset(Insert(le, x, s)) == multiset(s) + multiset{x}
  {
    if s != [] && !le(x, s[0]) {
      InsertKeeps(le, x, s[1..]);
      assert s == [s[0]] + s[1..];
    }
  }

  lemma {:induction false} SortKeeps<T>(le: (T, T) -> bool, s: seq<T>)
    ensures multiset(Sort(le, s)) == multiset(s)
    ensures |Sort(le, s)| == |s|
    ensures forall x :: x in Sort(le, s) <==> x in s
  {
    if s != [] {
      SortKeeps(le, s[1..]);
      InsertKeeps(le, s[0], Sort(le, s[1..]));
      assert s == [s[0]] + s[1..];
    }
    SameElements(Sort(le, s), s);
  }

  lemma SameElements<T>(a: seq<T>, b: seq<T>)
    requires multiset(a) == multiset(b)
    ensures |a| == |b|
    ensures forall x :: x in a <==> x in b
  {
    assert |multiset(a)| == |a| && |multiset(b)| == |b|;
    forall x ensures x in a <==> x in b {
      assert x in a <==> x in multiset(a);
      assert x in b <==> x in multiset(b);
    }
  }

  lemma {:induction false} InsertSorted<T(!new)>(le: (T, T) -> bool, x: T, s: seq<T>)
    requires TotalOrder(le) && SortedBy(le, s)
    ensures SortedBy(le, Insert(le, x, s))
  {
    if s != [] && !le(x, s[0]) {
      InsertSorted(le, x, s[1..]);
      InsertKeeps(le, x, s[1..]);
      var r := Insert(le, x, s[1..]);
      SameElements(r, s[1..] + [x]);
      assert forall y :: y in r ==> le(s[0], y);
    }
  }

  lemma {:induction false} SortSorted<T(!new)>(le: (T, T) -> bool, s: seq<T>)
    requires TotalOrder(le)
    ensures SortedBy(le, Sort(le, s))
  {
    if s != [] {
      SortSorted(le, s[1..]);
      InsertSorted(le, s[0], Sort(le, s[1..]));
    }
  }

  lemma NoDupCounts<T>(a: seq<T>, x: T)
    requires NoDup(a)
    ensures multiset(a)[x] <= 1
  {
    if x in a {
      var k :| 0 <= k < |a| && a[k] == x;
      assert a == a[..k] + [x] + a[k+1..];
      assert x !in a[..k] && x !in a[k+1..];
    }
  }

  lemma TwiceCounts<T>(s: seq<T>, i: nat, j: nat)
    requires i < j < |s| && s[i] == s[j]
    ensures multiset(s)[s[i]] >= 2
  {
    assert s == s[..i] + [s[i]] + s[i+1..j] + [s[i]] + s[j+1..];
  }

  lemma NoDupMultiset<T>(a: seq<T>, b: seq<T>)
    requires multiset(a) == multiset(b) && NoDup(a)
    ensures NoDup(b)
  {
    forall i, j | 0 <= i < j < |b| ensures b[i] != b[j] {
      if b[i] == b[j] {
        TwiceCounts(b, i, j);
        NoDupCounts(a, b[i]);
      }
    }
  }

  // ------------------------------------------------------------- sequences

  lemma Regroup<T>(a: seq<T>, b: seq<T>, c: seq<T>)
    ensures a + (b + c) == a + b + c
  {
  }

  function Last<T>(s: seq<T>): T
    requires s != []
  {
    s[|s| - 1]
  }

  function Reverse<T>(s: seq<T>): (r: seq<T>)
    ensures |r| == |s|
    ensures forall i :: 0 <= i < |s| ==> r[i] == s[|s| - 1 - i]
  {
    if s == [] then [] else Reverse(s[1..]) + [s[0]]
  }

  function Elements<T>(s: seq<T>): set<T> {
    set x | x in s
  }

  // ----------------------------------------------------------------- dotted

  /** `f.split(".")` */
  function SplitDots(f: string): (parts: seq<string>)
    ensures parts != []
  {
    if f == [] then [""]
    else
      var rest := SplitDots(f[1..]);
      if f[0] == '.' then [""] + rest else [[f[0]] + rest[0]] + rest[1..]
  }

  function JoinDots(parts: seq<string>): string
    requires parts != []
  {
    if |parts| == 1 then parts[0] else parts[0] + "." + JoinDots(parts[1..])
  }

  lemma {:induction false} SplitJoins(f: string)
    ensures JoinDots(SplitDots(f)) == f
    ensures forall p :: p in SplitDots(f) ==> '.' !in p
  {
    if f != [] {
      SplitJoins(f[1..]);
      var rest := SplitDots(f[1..]);
      if f[0] != '.' {
        var parts := [[f[0]] + rest[0]] + rest[1..];
        assert SplitDots(f) == parts && parts[1..] == rest[1..];
      }
    }
  }
}
