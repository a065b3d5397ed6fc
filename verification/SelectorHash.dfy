/**
 The byte encoding that identifies a raw selector in the compiler's memo table. A Go
 string is modelled as the sequence of its bytes, one `char` each; SHA-256 is taken as
 injective, so the encoding itself stands for the digest.
 */
module SelectorHash {

  const NUL: char := '\0'
  const SOH: char := '\U{0001}'

  // ---------------------------------------------------------------- sorted copies

  /** The byte-wise order of strings. */
  predicate Leq(a: string, b: string) {
    |a| == 0 || (|b| > 0 && (a[0] < b[0] || (a[0] == b[0] && Leq(a[1..], b[1..]))))
  }

  lemma {:induction false} LeqTotal(a: string, b: string)
    ensures Leq(a, b) || Leq(b, a)
  {
    if |a| > 0 && |b| > 0 && a[0] == b[0] { LeqTotal(a[1..], b[1..]); }
  }

  lemma {:induction false} LeqAntisymmetric(a: string, b: string)
    requires Leq(a, b) && Leq(b, a)
    ensures a == b
  {
    if |a| > 0 && |b| > 0 && a[0] == b[0] {
      LeqAntisymmetric(a[1..], b[1..]);
      assert a == [a[0]] + a[1..] && b == [b[0]] + b[1..];
    }
  }

  lemma {:induction false} LeqTransitive(a: string, b: string, c: string)
    requires Leq(a, b) && Leq(b, c)
    ensures Leq(a, c)
  {
    if |a| > 0 && |b| > 0 && |c| > 0 && a[0] == b[0] == c[0] { LeqTransitive(a[1..], b[1..], c[1..]); }
  }

  predicate Sorted(s: seq<string>) {
    forall i, j | 0 <= i < j < |s| :: Leq(s[i], s[j])
  }

  function Insert(x: string, s: seq<string>): (r: seq<string>)
    ensures multiset(r) == multiset{x} + multiset(s)
  {
    if |s| == 0 || Leq(x, s[0]) then [x] + s
    else
      assert s == [s[0]] + s[1..];
      [s[0]] + Insert(x, s[1..])
  }

  function Sort(s: seq<string>): (r: seq<string>)
    ensures multiset(r) == multiset(s)
  {
    if |s| == 0 then []
    else
      assert s == [s[0]] + s[1..];
      Insert(s[0], Sort(s[1..]))
  }

  lemma {:induction false} InsertSorts(x: string, s: seq<string>)
    requires Sorted(s)
    ensures Sorted(Insert(x, s))
  {
    if |s| > 0 {
      if Leq(x, s[0]) {
        forall j | 0 <= j < |s| ensures Leq(x, s[j]) {
          if j > 0 { LeqTransitive(x, s[0], s[j]); }
        }
      } else {
        LeqTotal(x, s[0]);
        InsertSorts(x, s[1..]);
        var r := Insert(x, s[1..]);
        forall j | 0 <= j < |r| ensures Leq(s[0], r[j]) {
          assert r[j] in multiset(r);
          if r[j] != x {
            assert r[j] in multiset(s[1..]);
            var k :| 0 <= k < |s[1..]| && s[1..][k] == r[j];
            assert Leq(s[0], s[k + 1]);
          }
        }
      }
    }
  }

  lemma {:induction false} SortSorts(s: seq<string>)
    ensures Sorted(Sort(s))
  {
    if |s| > 0 {
      SortSorts(s[1..]);
      InsertSorts(s[0], Sort(s[1..]));
    }
  }

  /** A multiset of strings has one sorted arrangement. */
  lemma {:induction false} SortedIsCanonical(a: seq<string>, b: seq<string>)
    requires Sorted(a) && Sorted(b) && multiset(a) == multiset(b)
    ensures a == b
    decreases |a|
  {
    assert |a| == |multiset(a)| == |multiset(b)| == |b|;
    if |a| > 0 {
      SameHeads(a, b);
      TailMultiset(a);
      TailMultiset(b);
      SortedIsCanonical(a[1..], b[1..]);
      HeadAndTail(a, b);
    }
  }

  lemma SameHeads(a: seq<string>, b: seq<string>)
    requires Sorted(a) && Sorted(b) && multiset(a) == multiset(b) && |a| > 0 && |b| > 0
    ensures a[0] == b[0]
  {
    assert a[0] in b by { assert a[0] in multiset(a); }
    assert b[0] in a by { assert b[0] in multiset(b); }
    HeadIsLeast(a, b[0]);
    HeadIsLeast(b, a[0]);
    LeqAntisymmetric(a[0], b[0]);
  }

  lemma HeadAndTail(a: seq<string>, b: seq<string>)
    requires |a| > 0 && |b| > 0 && a[0] == b[0] && a[1..] == b[1..]
    ensures a == b
  {
    assert a == [a[0]] + a[1..] && b == [b[0]] + b[1..];
  }

  lemma TailMultiset(s: seq<string>)
    requires |s| > 0
    ensures multiset(s[1..]) == multiset(s) - multiset{s[0]}
  {
    assert s == [s[0]] + s[1..];
  }

  lemma HeadIsLeast(s: seq<string>, x: string)
    requires Sorted(s) && x in s
    ensures Leq(s[0], x)
  {
    var i :| 0 <= i < |s| && s[i] == x;
    if i == 0 { LeqTotal(x, x); }
  }

  // ---------------------------------------------------------------- the encoding

  function Items(s: seq<string>): string {
    if |s| == 0 then "" else s[0] + [NUL] + Items(s[1..])
  }

  function Section(tag: char, items: seq<string>): string {
    [tag, NUL] + Items(Sort(items)) + [SOH]
  }

  /** Byte `k` of a number, counted from the least significant. */
  function ByteOf(n: nat, k: nat): char
    decreases k
  {
    if k == 0 then (n % 256) as char else ByteOf(n / 256, k - 1)
  }

  /** Big-endian 64-bit length suffix. */
  function Uint64(n: nat): string {
    seq(8, i requires 0 <= i < 8 => ByteOf(n, 7 - i))
  }

  function Encode(areas: seq<string>, classes: seq<string>, entities: seq<string>): string {
    Joined(Section('a', areas), Section('c', classes), Section('e', entities), |areas| + |classes| + |entities|)
  }

  function Joined(a: string, c: string, e: string, n: nat): string { a + c + e + Uint64(n) }

  /** Writes one labelled list into the hasher's buffer. */
  method WriteSection(buffer: string, tag: char, items: seq<string>) returns (r: string)
    ensures r == buffer + Section(tag, items)
  {
    var sorted := Sort(items);
    r := buffer + [tag, NUL];
    var i := 0;
    while i < |sorted|
      invariant 0 <= i <= |sorted|
      invariant r + Items(sorted[i..]) == buffer + [tag, NUL] + Items(sorted)
    {
      WriteItem(r, sorted, i);
      r := r + sorted[i] + [NUL];
      i := i + 1;
    }
    assert r + [] == r;
    EndSection(buffer, [tag, NUL], Items(sorted));
    r := r + [SOH];
  }

  lemma WriteItem(r: string, sorted: seq<string>, i: nat)
    requires i < |sorted|
    ensures r + Items(sorted[i..]) == (r + sorted[i] + [NUL]) + Items(sorted[i + 1..])
  {
    assert sorted[i..][1..] == sorted[i + 1..];
    var rest := Items(sorted[i + 1..]);
    assert r + (sorted[i] + [NUL] + rest) == (r + sorted[i] + [NUL]) + rest;
  }

  lemma EndSection(buffer: string, head: string, items: string)
    ensures buffer + head + items + [SOH] == buffer + (head + items + [SOH])
  {
  }

  method HashSelector(areas: seq<string>, classes: seq<string>, entities: seq<string>) returns (hash: string)
    ensures hash == Encode(areas, classes, entities)
  {
    hash := WriteSection("", 'a', areas);
    assert hash == Section('a', areas);
    hash := WriteSection(hash, 'c', classes);
    hash := WriteSection(hash, 'e', entities);
    hash := hash + Uint64(|areas| + |classes| + |entities|);
  }

  // ---------------------------------------------------------------- injectivity

  /** No zero byte anywhere, and not beginning with the end-of-list byte. */
  predicate Clean(s: string) {
    NUL !in s && (|s| > 0 ==> s[0] != SOH)
  }

  predicate CleanAll(items: seq<string>) {
    forall s | s in items :: Clean(s)
  }

  lemma {:induction false} TerminatedSplit(x: string, y: string, u: string, v: string)
    requires NUL !in x && NUL !in y && x + [NUL] + u == y + [NUL] + v
    ensures x == y && u == v
    decreases |x|
  {
    var l, r := x + [NUL] + u, y + [NUL] + v;
    if |x| == 0 {
      assert l[0] == NUL;
      assert u == l[1..] && v == r[1..];
    } else {
      assert l[0] == x[0];
      assert l[1..] == x[1..] + [NUL] + u && r[1..] == y[1..] + [NUL] + v;
      TerminatedSplit(x[1..], y[1..], u, v);
      assert x == [x[0]] + x[1..] && y == [y[0]] + y[1..];
    }
  }

  /** A list of clean strings can be read back from its encoding, whatever follows it. */
  lemma {:induction false} ItemsSplit(a: seq<string>, b: seq<string>, u: string, v: string)
    requires CleanAll(a) && CleanAll(b)
    requires Items(a) + [SOH] + u == Items(b) + [SOH] + v
    ensures a == b && u == v
    decreases |a|
  {
    var l, r := Items(a) + [SOH] + u, Items(b) + [SOH] + v;
    FirstByte(a, u);
    FirstByte(b, v);
    if |a| == 0 {
      assert u == l[1..] && v == r[1..];
    } else {
      assert Clean(a[0]) && Clean(b[0]);
      assert l == a[0] + [NUL] + (Items(a[1..]) + [SOH] + u);
      assert r == b[0] + [NUL] + (Items(b[1..]) + [SOH] + v);
      TerminatedSplit(a[0], b[0], Items(a[1..]) + [SOH] + u, Items(b[1..]) + [SOH] + v);
      ItemsSplit(a[1..], b[1..], u, v);
      assert a == [a[0]] + a[1..] && b == [b[0]] + b[1..];
    }
  }

  /** The end-of-list byte comes first exactly when the list is empty. */
  lemma FirstByte(a: seq<string>, u: string)
    requires CleanAll(a)
    ensures var l := Items(a) + [SOH] + u; |l| > 0 && (l[0] == SOH <==> |a| == 0)
  {
    if |a| > 0 { assert Clean(a[0]); }
  }

  lemma SortKeepsClean(s: seq<string>)
    requires CleanAll(s)
    ensures CleanAll(Sort(s))
  {
    forall x | x in Sort(s) ensures x in s {
      assert x in multiset(Sort(s));
    }
  }

  lemma SectionBody(tag: char, a: seq<string>, u: string)
    ensures |Section(tag, a) + u| >= 2 && (Section(tag, a) + u)[2..] == Items(Sort(a)) + [SOH] + u
  {
  }

  lemma SectionSplit(tag: char, a: seq<string>, b: seq<string>, u: string, v: string)
    requires CleanAll(a) && CleanAll(b) && Section(tag, a) + u == Section(tag, b) + v
    ensures multiset(a) == multiset(b) && u == v
  {
    SortKeepsClean(a);
    SortKeepsClean(b);
    SectionBody(tag, a, u);
    SectionBody(tag, b, v);
    ItemsSplit(Sort(a), Sort(b), u, v);
  }

  lemma SortIgnoresOrder(a: seq<string>, b: seq<string>)
    requires multiset(a) == multiset(b)
    ensures Sort(a) == Sort(b) && |a| == |b|
  {
    SortSorts(a);
    SortSorts(b);
    SortedIsCanonical(Sort(a), Sort(b));
    assert |a| == |multiset(a)| == |multiset(b)| == |b|;
  }

  lemma Regroup(a: string, b: string, c: string, d: string)
    ensures a + b + c + d == a + (b + (c + d))
  {
  }

  lemma SameHashSameLists(
    a1: seq<string>, c1: seq<string>, e1: seq<string>, a2: seq<string>, c2: seq<string>, e2: seq<string>)
    requires CleanAll(a1) && CleanAll(c1) && CleanAll(e1) && CleanAll(a2) && CleanAll(c2) && CleanAll(e2)
    requires Encode(a1, c1, e1) == Encode(a2, c2, e2)
    ensures multiset(a1) == multiset(a2) && multiset(c1) == multiset(c2) && multiset(e1) == multiset(e2)
  {
    var n1, n2 := Uint64(|a1| + |c1| + |e1|), Uint64(|a2| + |c2| + |e2|);
    Regroup(Section('a', a1), Section('c', c1), Section('e', e1), n1);
    Regroup(Section('a', a2), Section('c', c2), Section('e', e2), n2);
    SectionSplit('a', a1, a2, Section('c', c1) + (Section('e', e1) + n1), Section('c', c2) + (Section('e', e2) + n2));
    SectionSplit('c', c1, c2, Section('e', e1) + n1, Section('e', e2) + n2);
    SectionSplit('e', e1, e2, n1, n2);
  }

  lemma SectionIgnoresOrder(tag: char, a: seq<string>, b: seq<string>)
    requires multiset(a) == multiset(b)
    ensures Section(tag, a) == Section(tag, b) && |a| == |b|
  {
    SortIgnoresOrder(a, b);
  }

  lemma EncodesTo(a: seq<string>, c: seq<string>, e: seq<string>, sa: string, sc: string, se: string, n: nat)
    requires sa == Section('a', a) && sc == Section('c', c) && se == Section('e', e) && n == |a| + |c| + |e|
    ensures Encode(a, c, e) == Joined(sa, sc, se, n)
  {
  }

  lemma SameListsSameHash(
    a1: seq<string>, c1: seq<string>, e1: seq<string>, a2: seq<string>, c2: seq<string>, e2: seq<string>)
    requires multiset(a1) == multiset(a2) && multiset(c1) == multiset(c2) && multiset(e1) == multiset(e2)
    ensures Encode(a1, c1, e1) == Encode(a2, c2, e2)
  {
    SectionIgnoresOrder('a', a1, a2);
    SectionIgnoresOrder('c', c1, c2);
    SectionIgnoresOrder('e', e1, e2);
    var sa, sc, se, n := Section('a', a1), Section('c', c1), Section('e', e1), |a1| + |c1| + |e1|;
    EncodesTo(a1, c1, e1, sa, sc, se, n);
    EncodesTo(a2, c2, e2, sa, sc, se, n);
  }

  /** On clean strings two selectors share a hash exactly when their lists agree up to order. */
  lemma EncodeIsInjective(
    a1: seq<string>, c1: seq<string>, e1: seq<string>, a2: seq<string>, c2: seq<string>, e2: seq<string>)
    requires CleanAll(a1) && CleanAll(c1) && CleanAll(e1) && CleanAll(a2) && CleanAll(c2) && CleanAll(e2)
    ensures Encode(a1, c1, e1) == Encode(a2, c2, e2) <==>
            multiset(a1) == multiset(a2) && multiset(c1) == multiset(c2) && multiset(e1) == multiset(e2)
  {
    if Encode(a1, c1, e1) == Encode(a2, c2, e2) {
      SameHashSameLists(a1, c1, e1, a2, c2, e2);
    }
    if multiset(a1) == multiset(a2) && multiset(c1) == multiset(c2) && multiset(e1) == multiset(e2) {
      SameListsSameHash(a1, c1, e1, a2, c2, e2);
    }
  }

  // ---------------------------------------------------------------- both conditions are needed

  lemma PairSorts(x: string, y: string)
    requires Leq(x, y)
    ensures Sort([x, y]) == [x, y] && Items([x, y]) == x + [NUL] + (y + [NUL])
  {
    assert [x, y][1..] == [y] && [y][1..] == [];
    assert Sort([y]) == [y];
    assert Items([y]) == y + [NUL];
  }

  /** A zero byte inside an area name makes two different selectors collide. */
  lemma ZeroByteCollides()
    ensures var a, b := [['p', NUL, 'q'], "r"], ["p", ['q', NUL, 'r']];
            Encode(a, [], []) == Encode(b, [], []) && multiset(a) != multiset(b)
  {
    var x, y := ['p', NUL, 'q'], ['q', NUL, 'r'];
    var a, b := [x, "r"], ["p", y];
    PairSorts(x, "r");
    PairSorts("p", y);
    assert Items(a) == ['p', NUL, 'q', NUL, 'r', NUL] == Items(b);
    assert "r" in multiset(a) && "r" !in multiset(b) by { assert |y| != |"r"| && "p"[0] != "r"[0]; }
  }

  /** A name beginning with the end-of-list byte can move from the areas to the classes. */
  lemma EndByteCollides()
    ensures var x := [[SOH, 'c']]; Encode(x, [], []) == Encode([], x, [])
  {
    var s := [SOH, 'c'];
    assert [s][1..] == [];
    assert Sort([s]) == [s] && Items([s]) == s + [NUL];
    assert Sort([]) == [] && Items([]) == "";
    assert Section('a', [s]) + Section('c', []) == ['a', NUL, SOH, 'c', NUL, SOH, 'c', NUL, SOH];
    assert Section('a', []) + Section('c', [s]) == ['a', NUL, SOH, 'c', NUL, SOH, 'c', NUL, SOH];
  }
}
