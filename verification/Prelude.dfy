/** Shared vocabulary: optional values, identifier and reference syntax, and the
    lexicographic order Python uses to sort strings and tuples of strings. */
module Prelude {

  datatype Option<+T> = None | Some(value: T)

  newtype byte = x: int | 0 <= x < 256

  /** The identifier alphabet of the market core: letters, digits and `._:/-`. */
  predicate IdChar(c: char) {
    'A' <= c <= 'Z' || 'a' <= c <= 'z' || '0' <= c <= '9' || c in "._:/-"
  }

  predicate ValidId(s: string) {
    1 <= |s| <= 128 && forall i | 0 <= i < |s| :: IdChar(s[i])
  }

  predicate LowerHex(c: char) {
    '0' <= c <= '9' || 'a' <= c <= 'f'
  }

  /** `sha256:` followed by exactly 64 lower-case hexadecimal digits. */
  predicate ValidRefText(s: string) {
    |s| == 71 && s[..7] == "sha256:" && forall i | 7 <= i < |s| :: LowerHex(s[i])
  }

  /** That is, the text is "sha256:" followed by such digits and nothing else. */
  lemma RefTextExactly(s: string)
    ensures ValidRefText(s) <==>
      exists hex: string :: |hex| == 64 && (forall i | 0 <= i < 64 :: LowerHex(hex[i])) && s == "sha256:" + hex
  {
    assert |"sha256:"| == 7;
    if ValidRefText(s) {
      var hex := s[7..];
      assert s == s[..7] + hex;
      assert forall i | 0 <= i < 64 :: hex[i] == s[7 + i];
    }
    if hex: string :| |hex| == 64 && (forall i | 0 <= i < 64 :: LowerHex(hex[i])) && s == "sha256:" + hex {
      assert s[..7] == "sha256:";
      assert forall i | 7 <= i < |s| :: s[i] == hex[i - 7];
    }
  }

  /** A reference as the store's shells match it: one trailing newline passes. */
  predicate IsRefText(s: string) {
    ValidRefText(s) || (|s| == 72 && s[71] == '\n' && ValidRefText(s[..71]))
  }

  /** Lexicographic order on strings, as Python compares them. */
  predicate StringLe(a: string, b: string) {
    if a == [] then true
    else if b == [] then false
    else if a[0] != b[0] then a[0] < b[0]
    else StringLe(a[1..], b[1..])
  }

  /** That is, a is a prefix of b or smaller at the first place where they differ. */
  lemma {:induction false} StringLeExactly(a: string, b: string)
    ensures StringLe(a, b) <==> a <= b || exists n :: 0 <= n < |a| && n < |b| && a[..n] == b[..n] && a[n] < b[n]
  {
    if a != [] && b != [] {
      if a[0] == b[0] {
        StringLeExactly(a[1..], b[1..]);
        if n :| 0 <= n < |a[1..]| && n < |b[1..]| && a[1..][..n] == b[1..][..n] && a[1..][n] < b[1..][n] {
          assert a[..n + 1] == [a[0]] + a[1..][..n] && b[..n + 1] == [b[0]] + b[1..][..n];
          assert a[n + 1] < b[n + 1];
        }
        if n :| 0 <= n < |a| && n < |b| && a[..n] == b[..n] && a[n] < b[n] {
          assert a[1..][..n - 1] == a[..n][1..] && b[1..][..n - 1] == b[..n][1..];
          assert a[1..][n - 1] < b[1..][n - 1];
        }
        assert a <= b <==> a[1..] <= b[1..];
      } else {
        assert a[..0] == b[..0];
        assert forall n | 0 < n < |a| && n < |b| :: a[..n][0] == a[0] && b[..n][0] == b[0];
      }
    }
  }

  lemma {:induction false} StringLeTotal(a: string, b: string)
    ensures StringLe(a, b) || StringLe(b, a)
    ensures StringLe(a, b) && StringLe(b, a) ==> a == b
  {
    if a != [] && b != [] && a[0] == b[0] {
      StringLeTotal(a[1..], b[1..]);
      assert a == [a[0]] + a[1..] && b == [b[0]] + b[1..];
    }
  }

  lemma {:induction false} StringLeTransitive(a: string, b: string, c: string)
    requires StringLe(a, b) && StringLe(b, c)
    ensures StringLe(a, c)
  {
    if a != [] && b != [] && c != [] && a[0] == b[0] == c[0] {
      StringLeTransitive(a[1..], b[1..], c[1..]);
    }
  }

  /** Lexicographic order on tuples of strings. */
  predicate StringsLe(a: seq<string>, b: seq<string>) {
    if a == [] then true
    else if b == [] then false
    else if a[0] != b[0] then StringLe(a[0], b[0])
    else StringsLe(a[1..], b[1..])
  }

  lemma {:induction false} StringsLeTotal(a: seq<string>, b: seq<string>)
    ensures StringsLe(a, b) || StringsLe(b, a)
    ensures StringsLe(a, b) && StringsLe(b, a) ==> a == b
  {
    if a != [] && b != [] {
      StringLeTotal(a[0], b[0]);
      if a[0] == b[0] {
        StringsLeTotal(a[1..], b[1..]);
        assert a == [a[0]] + a[1..] && b == [b[0]] + b[1..];
      }
    }
  }

  lemma {:induction false} StringsLeTransitive(a: seq<string>, b: seq<string>, c: seq<string>)
    requires StringsLe(a, b) && StringsLe(b, c)
    ensures StringsLe(a, c)
  {
    if a != [] && b != [] && c != [] {
      if a[0] == b[0] == c[0] {
        StringsLeTransitive(a[1..], b[1..], c[1..]);
      } else if a[0] != b[0] && b[0] != c[0] {
        StringLeTransitive(a[0], b[0], c[0]);
        StringLeTotal(a[0], b[0]);
      }
    }
  }

  predicate Distinct<T(==)>(xs: seq<T>) {
    forall i, j | 0 <= i < j < |xs| :: xs[i] != xs[j]
  }

  lemma {:induction false} SubsetSize<T>(a: set<T>, b: set<T>)
    requires a <= b
    ensures |a| <= |b|
  {
    if a != {} {
      var x :| x in a;
      SubsetSize(a - {x}, b - {x});
    }
  }

  // ----- Names shared across the store ----------------------------------------------------------------

  const EDGE_SCHEMA := "popperpad/edge/v1"

  /** The tag of an equivalence, which may be crossed both ways. */
  const EQUIVALENCE := "\U{2245}"

  // ----- Stable sorting, as Python's `sorted` ------------------------------------------------------

  function InsertBy<T>(x: T, sorted: seq<T>, le: (T, T) -> bool): (out: seq<T>)
    ensures multiset(out) == multiset(sorted) + multiset{x}
    ensures |out| == |sorted| + 1
  {
    if sorted == [] || le(x, sorted[0]) then [x] + sorted
    else
      assert sorted == [sorted[0]] + sorted[1..];
      [sorted[0]] + InsertBy(x, sorted[1..], le)
  }

  lemma InsertCons<T>(x: T, first: T, tail: seq<T>, le: (T, T) -> bool)
    ensures InsertBy(x, [first] + tail, le) == if le(x, first) then [x] + ([first] + tail) else [first] + InsertBy(x, tail, le)
  {
    assert ([first] + tail)[1..] == tail;
  }

  function SortBy<T>(xs: seq<T>, le: (T, T) -> bool): (out: seq<T>)
    ensures multiset(out) == multiset(xs)
    ensures |out| == |xs|
  {
    if xs == [] then []
    else
      assert xs == [xs[0]] + xs[1..];
      InsertBy(xs[0], SortBy(xs[1..], le), le)
  }

  ghost predicate SortedBy<T(!new)>(xs: seq<T>, le: (T, T) -> bool) {
    forall i, j | 0 <= i < j < |xs| :: le(xs[i], xs[j])
  }

  ghost predicate LinearOrder<T(!new)>(le: (T, T) -> bool) {
    && (forall a, b :: le(a, b) || le(b, a))
    && (forall a, b, c :: le(a, b) && le(b, c) ==> le(a, c))
  }

  lemma {:induction false} InsertBySorted<T(!new)>(x: T, sorted: seq<T>, le: (T, T) -> bool)
    requires LinearOrder(le) && SortedBy(sorted, le)
    ensures SortedBy(InsertBy(x, sorted, le), le)
  {
    if sorted != [] && !le(x, sorted[0]) {
      var rest := InsertBy(x, sorted[1..], le);
      InsertBySorted(x, sorted[1..], le);
      forall j | 0 <= j < |rest| ensures le(sorted[0], rest[j]) {
        assert rest[j] in multiset(rest);
      }
    }
  }

  lemma {:induction false} SortBySorted<T(!new)>(xs: seq<T>, le: (T, T) -> bool)
    requires LinearOrder(le)
    ensures SortedBy(SortBy(xs, le), le)
  {
    if xs != [] {
      SortBySorted(xs[1..], le);
      InsertBySorted(xs[0], SortBy(xs[1..], le), le);
    }
  }

  /** Sorting keeps exactly the elements. */
  lemma SortByElements<T>(xs: seq<T>, le: (T, T) -> bool)
    ensures forall x :: x in SortBy(xs, le) <==> x in xs
  {
    forall x ensures x in SortBy(xs, le) <==> x in xs {
      assert x in multiset(SortBy(xs, le)) <==> x in multiset(xs);
    }
  }

  ghost predicate Pairwise<T(!new)>(xs: seq<T>, r: (T, T) -> bool) {
    forall i, j | 0 <= i < j < |xs| :: r(xs[i], xs[j])
  }

  lemma {:induction false} InsertByPairwise<T(!new)>(x: T, xs: seq<T>, le: (T, T) -> bool, r: (T, T) -> bool)
    requires Pairwise(xs, r) && forall y | y in xs :: r(x, y) && r(y, x)
    ensures Pairwise(InsertBy(x, xs, le), r)
  {
    if xs != [] && !le(x, xs[0]) {
      var rest := InsertBy(x, xs[1..], le);
      InsertByPairwise(x, xs[1..], le, r);
      forall j | 0 <= j < |rest| ensures r(xs[0], rest[j]) {
        assert rest[j] in multiset(rest);
      }
    }
  }

  /** A symmetric relation between all pairs survives sorting. */
  lemma {:induction false} SortByPairwise<T(!new)>(xs: seq<T>, le: (T, T) -> bool, r: (T, T) -> bool)
    requires Pairwise(xs, r) && forall a, b :: r(a, b) ==> r(b, a)
    ensures Pairwise(SortBy(xs, le), r)
  {
    if xs != [] {
      SortByPairwise(xs[1..], le, r);
      SortByElements(xs[1..], le);
      InsertByPairwise(xs[0], SortBy(xs[1..], le), le, r);
    }
  }

  /** A strictly sorted sequence is determined by its elements. */
  lemma {:induction false} SortedDetermined<T(!new)>(xs: seq<T>, ys: seq<T>, le: (T, T) -> bool)
    requires SortedBy(xs, le) && SortedBy(ys, le)
    requires forall a, b | le(a, b) && le(b, a) && (a in xs || a in ys) && (b in xs || b in ys) :: a == b
    requires Distinct(xs) && Distinct(ys)
    requires forall x :: x in xs <==> x in ys
    ensures xs == ys
  {
    if |xs + ys| > 0 {
      assert (xs + ys)[0] in xs + ys;
      assert xs[0] in xs && ys[0] in ys;
      assert xs[0] == ys[0];
      assert xs == [xs[0]] + xs[1..] && ys == [ys[0]] + ys[1..];
      forall x ensures x in xs[1..] <==> x in ys[1..] {
        if x in xs[1..] { assert x in xs && x != xs[0]; }
        if x in ys[1..] { assert x in ys && x != ys[0]; }
      }
      assert Distinct(xs[1..]) && Distinct(ys[1..]);
      SortedDetermined(xs[1..], ys[1..], le);
    }
  }
}
