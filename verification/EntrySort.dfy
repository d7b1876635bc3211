/** The exchange sort of the allocation entries, largest first. */
module EntrySort {
  datatype AllocEntry = AllocEntry(size: nat, dups: nat, backtrace: seq<int>)

  /** Entries are ordered by size, then by stack trace; the number of duplicates plays no part. */
  function Key(e: AllocEntry): (k: seq<int>)
    ensures |k| == 1 + |e.backtrace|
  {
    [e.size] + e.backtrace
  }

  predicate LexLess(a: seq<int>, b: seq<int>)
    requires |a| == |b|
  {
    a != [] && (a[0] < b[0] || (a[0] == b[0] && LexLess(a[1..], b[1..])))
  }

  predicate Less(x: AllocEntry, y: AllocEntry)
    requires |x.backtrace| == |y.backtrace|
  {
    LexLess(Key(x), Key(y))
  }

  /** Every entry carries a stack trace of the same length. */
  predicate Uniform(s: seq<AllocEntry>, depth: nat) {
    forall e :: e in s ==> |e.backtrace| == depth
  }

  predicate Descending(s: seq<AllocEntry>, depth: nat)
    requires Uniform(s, depth)
  {
    forall i, j :: 0 <= i < j < |s| ==> !Less(s[i], s[j])
  }

  /** One sequence comes before another of its length exactly if it has the smaller number at the first
      place where they differ. */
  lemma {:induction false} LexLessAt(a: seq<int>, b: seq<int>)
    requires |a| == |b|
    ensures LexLess(a, b) <==> exists k :: 0 <= k < |a| && a[..k] == b[..k] && a[k] < b[k]
  {
    if a != [] {
      LexLessAt(a[1..], b[1..]);
      if a[0] < b[0] {
        assert a[..0] == b[..0];
      }
      if k :| 0 <= k < |a| && a[..k] == b[..k] && a[k] < b[k] {
        if k > 0 {
          assert a[0] == a[..k][0] && b[0] == b[..k][0];
          assert a[1..][..k - 1] == a[..k][1..] && b[1..][..k - 1] == b[..k][1..];
          assert a[1..][k - 1] < b[1..][k - 1];
        }
      }
      if k :| 0 <= k < |a[1..]| && a[1..][..k] == b[1..][..k] && a[1..][k] < b[1..][k] {
        if a[0] == b[0] {
          var k' := k + 1;
          assert a[..k'] == [a[0]] + a[1..][..k] && b[..k'] == [b[0]] + b[1..][..k];
          assert a[k'] < b[k'];
        }
      }
    }
  }

  /** In a descending list the sizes do not increase, and among entries of one size the stack traces do
      not. */
  lemma LargestFirst(s: seq<AllocEntry>, depth: nat)
    requires Uniform(s, depth) && Descending(s, depth)
    ensures forall i, j :: 0 <= i < j < |s| ==>
              && s[i].size >= s[j].size
              && (s[i].size == s[j].size ==> !LexLess(s[i].backtrace, s[j].backtrace))
  {
    forall i, j | 0 <= i < j < |s|
      ensures s[i].size >= s[j].size
      ensures s[i].size == s[j].size ==> !LexLess(s[i].backtrace, s[j].backtrace)
    {
      var x, y := s[i], s[j];
      assert !Less(x, y);
      assert Key(x)[0] == x.size && Key(y)[0] == y.size;
      assert Key(x)[1..] == x.backtrace && Key(y)[1..] == y.backtrace;
    }
  }

  // ---------------------------------------------------------------- the comparison is a strict weak order

  lemma {:induction false} LexTotal(a: seq<int>, b: seq<int>)
    requires |a| == |b|
    ensures a == b ==> !LexLess(a, b) && !LexLess(b, a)
    ensures a != b ==> LexLess(a, b) != LexLess(b, a)
  {
    if a != [] {
      LexTotal(a[1..], b[1..]);
      assert a == [a[0]] + a[1..] && b == [b[0]] + b[1..];
    }
  }

  lemma {:induction false} LexTransitive(a: seq<int>, b: seq<int>, c: seq<int>)
    requires |a| == |b| == |c|
    ensures LexLess(a, b) && LexLess(b, c) ==> LexLess(a, c)
  {
    if a != [] {
      LexTransitive(a[1..], b[1..], c[1..]);
    }
  }

  /** Less is a strict weak order: irreflexive, asymmetric and transitive, and two entries are
      incomparable exactly when their keys are the same. */
  lemma StrictWeakOrder(x: AllocEntry, y: AllocEntry, z: AllocEntry)
    requires |x.backtrace| == |y.backtrace| == |z.backtrace|
    ensures !Less(x, x) && !(Less(x, y) && Less(y, x))
    ensures Less(x, y) && Less(y, z) ==> Less(x, z)
    ensures (!Less(x, y) && !Less(y, x)) <==> Key(x) == Key(y)
    ensures !Less(x, y) && !Less(y, z) ==> !Less(x, z)
  {
    hide LexLess, Key;
    var (a, b, c) := (Key(x), Key(y), Key(z));
    LexTotal(a, a);
    LexTotal(a, b);
    LexTotal(b, c);
    LexTotal(a, c);
    LexTransitive(a, b, c);
    LexTransitive(c, b, a);
  }

  /** The comparison as the sort makes it: sizes first, then the first differing stack entry. */
  method NeedsSwap(e1: AllocEntry, e2: AllocEntry, backtraceSize: nat) returns (swap: bool)
    requires |e1.backtrace| == |e2.backtrace| == backtraceSize
    ensures swap <==> Less(e1, e2)
  {
    swap := e1.size < e2.size;
    if e1.size == e2.size {
      TailDecides(Key(e1), Key(e2), e1.backtrace, e2.backtrace, 0);
      for j := 0 to backtraceSize
        invariant !swap
        invariant Less(e1, e2) <==> LexLess(e1.backtrace[j..], e2.backtrace[j..])
      {
        if e1.backtrace[j] != e2.backtrace[j] {
          swap := e1.backtrace[j] < e2.backtrace[j];
          break;
        }
        assert e1.backtrace[j..][1..] == e1.backtrace[j + 1..];
        assert e2.backtrace[j..][1..] == e2.backtrace[j + 1..];
      }
    }
  }

  lemma TailDecides(a: seq<int>, b: seq<int>, s: seq<int>, t: seq<int>, j: nat)
    requires |s| == |t| && j <= |s| && |a| == |b| == |s| - j + 1
    requires a[1..] == s[j..] && b[1..] == t[j..] && a[0] == b[0]
    ensures LexLess(a, b) <==> LexLess(s[j..], t[j..])
  {}

  // ---------------------------------------------------------------- the measure

  /** How many entries of s belong before x. */
  function Behind(x: AllocEntry, s: seq<AllocEntry>, depth: nat): nat
    requires |x.backtrace| == depth && Uniform(s, depth)
  {
    if s == [] then 0
    else (if Less(x, s[0]) then 1 else 0) + Behind(x, s[1..], depth)
  }

  /** The pairs that stand the wrong way round. */
  function Inversions(s: seq<AllocEntry>, depth: nat): nat
    requires Uniform(s, depth)
  {
    if s == [] then 0 else Behind(s[0], s[1..], depth) + Inversions(s[1..], depth)
  }

  lemma {:induction false} BehindConcat(x: AllocEntry, s: seq<AllocEntry>, t: seq<AllocEntry>, depth: nat)
    requires |x.backtrace| == depth && Uniform(s, depth) && Uniform(t, depth)
    ensures Uniform(s + t, depth)
    ensures Behind(x, s + t, depth) == Behind(x, s, depth) + Behind(x, t, depth)
  {
    if s == [] {
      assert s + t == t;
    } else {
      BehindConcat(x, s[1..], t, depth);
      assert (s + t)[1..] == s[1..] + t && (s + t)[0] == s[0];
    }
  }

  /** Exchanging two neighbours that stand the wrong way round removes exactly one inversion. */
  lemma {:induction false} ExchangeRemovesOne(p: seq<AllocEntry>, x: AllocEntry, y: AllocEntry,
                                              q: seq<AllocEntry>, depth: nat)
    requires Uniform(p, depth) && Uniform(q, depth) && |x.backtrace| == |y.backtrace| == depth
    requires Less(x, y)
    ensures Uniform(p + ([x, y] + q), depth) && Uniform(p + ([y, x] + q), depth)
    ensures Inversions(p + ([x, y] + q), depth) == Inversions(p + ([y, x] + q), depth) + 1
    decreases |p|
  {
    var u, v := p + ([x, y] + q), p + ([y, x] + q);
    if p == [] {
      StrictWeakOrder(x, y, x);
      PairInversions(x, y, q, depth);
      PairInversions(y, x, q, depth);
      assert u == [x, y] + q && v == [y, x] + q;
    } else {
      ExchangeRemovesOne(p[1..], x, y, q, depth);
      assert u[1..] == p[1..] + ([x, y] + q) && v[1..] == p[1..] + ([y, x] + q);
      BehindExchanged(p[0], p[1..], x, y, q, depth);
    }
  }

  lemma PairInversions(x: AllocEntry, y: AllocEntry, q: seq<AllocEntry>, depth: nat)
    requires Uniform(q, depth) && |x.backtrace| == |y.backtrace| == depth
    ensures Uniform([x, y] + q, depth)
    ensures Inversions([x, y] + q, depth) ==
            (if Less(x, y) then 1 else 0) + Behind(x, q, depth) + Behind(y, q, depth) + Inversions(q, depth)
  {
    hide Less;
    var s := [x, y] + q;
    assert s[1..] == [y] + q && s[1..][1..] == q;
  }

  lemma BehindExchanged(z: AllocEntry, p: seq<AllocEntry>, x: AllocEntry, y: AllocEntry, q: seq<AllocEntry>,
                        depth: nat)
    requires Uniform(p, depth) && Uniform(q, depth)
    requires |x.backtrace| == |y.backtrace| == |z.backtrace| == depth
    ensures Uniform(p + ([x, y] + q), depth) && Uniform(p + ([y, x] + q), depth)
    ensures Behind(z, p + ([x, y] + q), depth) == Behind(z, p + ([y, x] + q), depth)
  {
    hide Less;
    BehindConcat(z, p, [x, y] + q, depth);
    BehindConcat(z, p, [y, x] + q, depth);
    BehindConcat(z, [x], [y] + q, depth);
    BehindConcat(z, [y], [x] + q, depth);
    BehindConcat(z, [x], q, depth);
    BehindConcat(z, [y], q, depth);
    assert [x, y] + q == [x] + ([y] + q) && [y, x] + q == [y] + ([x] + q);
  }

  // ---------------------------------------------------------------- entries of one key keep their order

  /** The entries with key k, in order. */
  function WithKey(s: seq<AllocEntry>, k: seq<int>): seq<AllocEntry> {
    if s == [] then []
    else (if Key(s[0]) == k then [s[0]] else []) + WithKey(s[1..], k)
  }

  ghost predicate SameEntries(s: seq<AllocEntry>, t: seq<AllocEntry>) {
    forall k :: WithKey(s, k) == WithKey(t, k)
  }

  lemma {:induction false} WithKeyConcat(s: seq<AllocEntry>, t: seq<AllocEntry>, k: seq<int>)
    ensures WithKey(s + t, k) == WithKey(s, k) + WithKey(t, k)
  {
    hide Key;
    if s == [] {
      assert s + t == t;
    } else {
      WithKeyConcat(s[1..], t, k);
      assert (s + t)[1..] == s[1..] + t && (s + t)[0] == s[0];
      Assoc([s[0]], WithKey(s[1..], k), WithKey(t, k));
    }
  }

  lemma Assoc<T>(a: seq<T>, b: seq<T>, c: seq<T>)
    ensures a + b + c == a + (b + c)
  {}

  lemma ExchangeKeepsEntries(p: seq<AllocEntry>, x: AllocEntry, y: AllocEntry, q: seq<AllocEntry>)
    requires Key(x) != Key(y)
    ensures SameEntries(p + ([x, y] + q), p + ([y, x] + q))
  {
    hide Key;
    forall k ensures WithKey(p + ([x, y] + q), k) == WithKey(p + ([y, x] + q), k) {
      WithKeyConcat(p, [x, y] + q, k);
      WithKeyConcat(p, [y, x] + q, k);
      WithKeyConcat([x, y], q, k);
      WithKeyConcat([y, x], q, k);
      assert [x, y][1..] == [y] && [y, x][1..] == [x];
    }
  }

  /** SameEntries determines the multiset of the entries, not only their keys. */
  lemma {:induction false} EntriesOf(s: seq<AllocEntry>, e: AllocEntry)
    ensures multiset(s)[e] == multiset(WithKey(s, Key(e)))[e]
  {
    if s != [] {
      EntriesOf(s[1..], e);
      assert s == [s[0]] + s[1..];
    }
  }

  lemma SameEntriesPermute(s: seq<AllocEntry>, t: seq<AllocEntry>)
    requires SameEntries(s, t)
    ensures multiset(s) == multiset(t)
  {
    forall e ensures multiset(s)[e] == multiset(t)[e] {
      EntriesOf(s, e);
      EntriesOf(t, e);
      assert WithKey(s, Key(e)) == WithKey(t, Key(e));
    }
  }

  lemma {:induction false} KeyPresent(s: seq<AllocEntry>, e: AllocEntry)
    requires e in s
    ensures WithKey(s, Key(e)) != []
  {
    if s[0] != e {
      KeyPresent(s[1..], e);
    }
  }

  lemma {:induction false} KeyFound(s: seq<AllocEntry>, k: seq<int>)
    requires WithKey(s, k) != []
    ensures exists e :: e in s && Key(e) == k
  {
    if Key(s[0]) != k {
      KeyFound(s[1..], k);
    }
  }

  /** The head of a descending list comes no later than any key of the list. */
  lemma HeadLeads(s: seq<AllocEntry>, t: seq<AllocEntry>, depth: nat)
    requires Uniform(s, depth) && Uniform(t, depth) && s != [] && t != []
    requires Descending(s, depth) && SameEntries(s, t)
    ensures !Less(s[0], t[0])
  {
    KeyPresent(t, t[0]);
    assert WithKey(s, Key(t[0])) == WithKey(t, Key(t[0]));
    KeyFound(s, Key(t[0]));
    var e :| e in s && Key(e) == Key(t[0]);
    var i :| 0 <= i < |s| && s[i] == e;
    LexTotal(Key(s[0]), Key(s[0]));
    assert !Less(s[0], e);
  }

  /** A descending order that keeps the entries of every key in their original order is unique. */
  lemma {:induction false} StableOrderIsUnique(s: seq<AllocEntry>, t: seq<AllocEntry>, depth: nat)
    requires Uniform(s, depth) && Uniform(t, depth)
    requires Descending(s, depth) && Descending(t, depth) && SameEntries(s, t)
    ensures s == t
    decreases |s|
  {
    hide Less, Key, WithKey;
    if s == [] {
      NothingWithKey(if t != [] then Key(t[0]) else []);
      if t != [] {
        KeyPresent(t, t[0]);
      }
    } else {
      KeyPresent(s, s[0]);
      assert WithKey(t, Key(s[0])) != [];
      NothingWithKey(Key(s[0]));
      assert t != [];
      HeadLeads(s, t, depth);
      HeadLeads(t, s, depth);
      StrictWeakOrder(s[0], t[0], s[0]);
      FirstWithKey(s);
      FirstWithKey(t);
      forall k ensures WithKey(s[1..], k) == WithKey(t[1..], k) {
        assert WithKey(s, k) == WithKey(t, k);
        DropHead(s, k);
        DropHead(t, k);
      }
      StableOrderIsUnique(s[1..], t[1..], depth);
      assert s == [s[0]] + s[1..] && t == [t[0]] + t[1..];
    }
  }

  lemma NothingWithKey(k: seq<int>)
    ensures WithKey([], k) == []
  {}

  lemma FirstWithKey(s: seq<AllocEntry>)
    requires s != []
    ensures var own := WithKey(s, Key(s[0])); own != [] && own[0] == s[0]
  {}

  lemma DropHead(s: seq<AllocEntry>, k: seq<int>)
    requires s != []
    ensures WithKey(s[1..], k) == if Key(s[0]) == k then WithKey(s, k)[1..] else WithKey(s, k)
  {}

  // ---------------------------------------------------------------- the sort

  /** One sweep over the neighbouring pairs. */
  method Sweep(entries: array<AllocEntry>, backtraceSize: nat) returns (moved: bool)
    requires entries.Length >= 1 && Uniform(entries[..], backtraceSize)
    modifies entries
    ensures Uniform(entries[..], backtraceSize)
    ensures SameEntries(entries[..], old(entries[..]))
    ensures moved ==> Inversions(entries[..], backtraceSize) < Inversions(old(entries[..]), backtraceSize)
    ensures !moved ==> entries[..] == old(entries[..])
    ensures !moved ==> forall i :: 0 <= i < entries.Length - 1 ==> !Less(entries[i], entries[i + 1])
  {
    hide Less, Key, Inversions, WithKey;
    moved := false;
    for i := 0 to entries.Length - 1
      invariant Uniform(entries[..], backtraceSize)
      invariant SameEntries(entries[..], old(entries[..]))
      invariant moved ==> Inversions(entries[..], backtraceSize) < Inversions(old(entries[..]), backtraceSize)
      invariant !moved ==> entries[..] == old(entries[..])
      invariant !moved ==> forall j :: 0 <= j < i ==> !Less(entries[j], entries[j + 1])
    {
      var swap := NeedsSwap(entries[i], entries[i + 1], backtraceSize);
      if swap {
        Exchange(entries, i, backtraceSize);
        moved := true;
      }
    }
  }

  method Exchange(entries: array<AllocEntry>, i: nat, backtraceSize: nat)
    requires i + 1 < entries.Length && Uniform(entries[..], backtraceSize)
    requires Less(entries[i], entries[i + 1])
    modifies entries
    ensures Uniform(entries[..], backtraceSize)
    ensures SameEntries(entries[..], old(entries[..]))
    ensures Inversions(entries[..], backtraceSize) + 1 == Inversions(old(entries[..]), backtraceSize)
  {
    hide Less, Key, Inversions, WithKey;
    ghost var was := entries[..];
    ghost var p, q, x, y := was[..i], was[i + 2..], was[i], was[i + 1];
    Around(was, i);
    StrictWeakOrder(x, y, x);
    ExchangeRemovesOne(p, x, y, q, backtraceSize);
    ExchangeKeepsEntries(p, x, y, q);
    var t := entries[i];
    entries[i] := entries[i + 1];
    entries[i + 1] := t;
    assert entries[..] == was[i := y][i + 1 := x];
    Swapped(was, i);
  }

  lemma Around<T>(s: seq<T>, i: nat)
    requires i + 1 < |s|
    ensures s == s[..i] + ([s[i], s[i + 1]] + s[i + 2..])
  {}

  lemma Swapped<T>(s: seq<T>, i: nat)
    requires i + 1 < |s|
    ensures s[i := s[i + 1]][i + 1 := s[i]] == s[..i] + ([s[i + 1], s[i]] + s[i + 2..])
  {}

  lemma {:induction false} NeighboursSuffice(s: seq<AllocEntry>, depth: nat, i: nat, j: nat)
    requires Uniform(s, depth) && i < j < |s|
    requires forall k :: 0 <= k < |s| - 1 ==> !Less(s[k], s[k + 1])
    ensures !Less(s[i], s[j])
    decreases j
  {
    hide Less;
    if i + 1 < j {
      NeighboursSuffice(s, depth, i, j - 1);
      assert !Less(s[j - 1], s[j - 1 + 1]);
      StrictWeakOrder(s[i], s[j - 1], s[j]);
    }
  }

  /** Sorts largest first, in place; entries of the same size and stack trace keep their order. */
  method SortEntries(entries: array<AllocEntry>, backtraceSize: nat)
    requires entries.Length >= 1 && Uniform(entries[..], backtraceSize)
    modifies entries
    ensures Uniform(entries[..], backtraceSize) && Descending(entries[..], backtraceSize)
    ensures forall i, j :: 0 <= i < j < entries.Length ==> entries[i].size >= entries[j].size
    ensures SameEntries(entries[..], old(entries[..]))
    ensures multiset(entries[..]) == multiset(old(entries[..]))
  {
    hide Less, Inversions, WithKey;
    var moved := Sweep(entries, backtraceSize);
    while moved
      invariant Uniform(entries[..], backtraceSize)
      invariant SameEntries(entries[..], old(entries[..]))
      invariant !moved ==> forall i :: 0 <= i < entries.Length - 1 ==> !Less(entries[i], entries[i + 1])
      decreases Inversions(entries[..], backtraceSize), moved
    {
      moved := Sweep(entries, backtraceSize);
    }
    forall i, j | 0 <= i < j < entries.Length ensures !Less(entries[..][i], entries[..][j]) {
      NeighboursSuffice(entries[..], backtraceSize, i, j);
    }
    SameEntriesPermute(entries[..], old(entries[..]));
    LargestFirst(entries[..], backtraceSize);
    forall i, j | 0 <= i < j < entries.Length ensures entries[i].size >= entries[j].size {
      assert entries[..][i].size >= entries[..][j].size;
    }
  }
}
