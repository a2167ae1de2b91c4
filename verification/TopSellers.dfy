/** The report's top-selling items: quantities are summed per item name
    over every line of every record (names in the order they first
    appear), the totals are sorted by descending count with a stable sort
    (so equal counts keep first-appearance order), and the first five are
    kept. */
module TopSellers {
  import opened Types

  datatype ItemCount = ItemCount(name: string, count: nat)

  /** How many entries the report shows. */
  const TopLimit: nat := 5

  // ---------------------------------------------------------------------
  // Reference quantities

  /** Every order line of every record, records in log order and lines in
      record order. */
  function AllLines(records: seq<CallRecord>): seq<OrderItem> {
    if records == [] then []
    else AllLines(records[..|records| - 1]) + records[|records| - 1].orderedItems
  }

  function LineNames(lines: seq<OrderItem>): (ns: seq<string>)
    ensures |ns| == |lines|
    ensures forall i | 0 <= i < |lines| :: ns[i] == lines[i].item.name
  {
    seq(|lines|, i requires 0 <= i < |lines| => lines[i].item.name)
  }

  lemma LineNamesSnoc(lines: seq<OrderItem>)
    requires lines != []
    ensures LineNames(lines) == LineNames(lines[..|lines| - 1]) + [lines[|lines| - 1].item.name]
  {
  }

  /** Total quantity of the lines named `name`. */
  function QtyOf(lines: seq<OrderItem>, name: string): nat {
    if lines == [] then 0
    else
      var last := lines[|lines| - 1];
      QtyOf(lines[..|lines| - 1], name) + (if last.item.name == name then last.quantity else 0)
  }

  /** Total quantity of `name` across all records: the per-record sums,
      summed. */
  function TotalQty(records: seq<CallRecord>, name: string): nat {
    if records == [] then 0
    else TotalQty(records[..|records| - 1], name) + QtyOf(records[|records| - 1].orderedItems, name)
  }

  lemma {:induction false} QtyOfConcat(a: seq<OrderItem>, b: seq<OrderItem>, name: string)
    ensures QtyOf(a + b, name) == QtyOf(a, name) + QtyOf(b, name)
    decreases |b|
  {
    if b == [] {
      assert a + b == a;
    } else {
      assert (a + b)[..|a + b| - 1] == a + b[..|b| - 1];
      QtyOfConcat(a, b[..|b| - 1], name);
    }
  }

  lemma {:induction false} TotalQtyIsQtyOfAllLines(records: seq<CallRecord>, name: string)
    ensures TotalQty(records, name) == QtyOf(AllLines(records), name)
    decreases |records|
  {
    if records != [] {
      var prefix := records[..|records| - 1];
      TotalQtyIsQtyOfAllLines(prefix, name);
      QtyOfConcat(AllLines(prefix), records[|records| - 1].orderedItems, name);
    }
  }

  lemma {:induction false} QtyOfAbsent(lines: seq<OrderItem>, name: string)
    requires name !in LineNames(lines)
    ensures QtyOf(lines, name) == 0
    decreases |lines|
  {
    if lines != [] {
      var prefix := lines[..|lines| - 1];
      assert LineNames(lines)[|lines| - 1] == lines[|lines| - 1].item.name;
      assert name !in LineNames(prefix) by {
        forall i | 0 <= i < |prefix|
          ensures LineNames(prefix)[i] != name
        {
          assert LineNames(lines)[i] == prefix[i].item.name;
        }
      }
      QtyOfAbsent(prefix, name);
    }
  }

  /** Position of the first occurrence of `x`. */
  function FirstIndex(s: seq<string>, x: string): (i: nat)
    requires x in s
    ensures i < |s| && s[i] == x && x !in s[..i]
  {
    if s[0] == x then 0
    else
      var i := FirstIndex(s[1..], x) + 1;
      assert s[..i] == [s[0]] + s[1..][..i - 1];
      i
  }

  /** Appending an element does not move the first occurrence of a value
      already present. */
  lemma FirstIndexAppend(s: seq<string>, y: string, x: string)
    requires x in s
    ensures FirstIndex(s + [y], x) == FirstIndex(s, x)
  {
    var i, j := FirstIndex(s, x), FirstIndex(s + [y], x);
    assert (s + [y])[i] == x;
    assert s[..i] == (s + [y])[..i];
  }

  // ---------------------------------------------------------------------
  // The per-name tally

  function Names(t: seq<ItemCount>): (ns: seq<string>)
    ensures |ns| == |t|
    ensures forall i | 0 <= i < |t| :: ns[i] == t[i].name
  {
    seq(|t|, i requires 0 <= i < |t| => t[i].name)
  }

  predicate DistinctNames(t: seq<ItemCount>) {
    forall i, j | 0 <= i < j < |t| :: t[i].name != t[j].name
  }

  /** `counts[name] = (counts[name] || 0) + q`: the entry for `name` grows
      by `q` in place, or a new entry goes at the end. */
  function Bump(t: seq<ItemCount>, name: string, q: nat): seq<ItemCount>
    decreases |t|
  {
    if t == [] then [ItemCount(name, q)]
    else if t[0].name == name then [t[0].(count := t[0].count + q)] + t[1..]
    else [t[0]] + Bump(t[1..], name, q)
  }

  /** Bumping a name already present keeps the names and their order;
      bumping a new name appends its entry. */
  lemma BumpNames(t: seq<ItemCount>, name: string, q: nat)
    ensures name in Names(t) ==> Names(Bump(t, name, q)) == Names(t)
    ensures name !in Names(t) ==> Bump(t, name, q) == t + [ItemCount(name, q)]
  {
    if name in Names(t) {
      BumpKeepsNames(t, name, q);
    } else {
      BumpAppends(t, name, q);
    }
  }

  lemma {:induction false} BumpKeepsNames(t: seq<ItemCount>, name: string, q: nat)
    requires name in Names(t)
    ensures Names(Bump(t, name, q)) == Names(t)
    decreases |t|
  {
    var r := Bump(t, name, q);
    if t[0].name == name {
      assert Names(r) == Names(t);
    } else {
      NamesCons(t);
      BumpKeepsNames(t[1..], name, q);
      NamesCons(r);
      assert r[1..] == Bump(t[1..], name, q);
    }
  }

  lemma {:induction false} BumpAppends(t: seq<ItemCount>, name: string, q: nat)
    requires name !in Names(t)
    ensures Bump(t, name, q) == t + [ItemCount(name, q)]
    decreases |t|
  {
    if t != [] {
      NamesCons(t);
      BumpAppends(t[1..], name, q);
      ConsSnoc(t, ItemCount(name, q));
    }
  }

  lemma NamesCons(t: seq<ItemCount>)
    requires t != []
    ensures Names(t) == [t[0].name] + Names(t[1..])
  {
  }

  lemma ConsSnoc(t: seq<ItemCount>, e: ItemCount)
    requires t != []
    ensures [t[0]] + (t[1..] + [e]) == t + [e]
  {
  }

  /** With distinct names, bumping `name` adds `q` to that entry's count
      and leaves every other count as it was. */
  lemma {:induction false} BumpCounts(t: seq<ItemCount>, name: string, q: nat)
    requires DistinctNames(t) && name in Names(t)
    ensures |Bump(t, name, q)| == |t|
    ensures forall i | 0 <= i < |t| ::
      Bump(t, name, q)[i].count == t[i].count + (if t[i].name == name then q else 0)
  {
    BumpCountAt(t, name, q, 0);
    forall i | 0 <= i < |t|
      ensures Bump(t, name, q)[i].count == t[i].count + (if t[i].name == name then q else 0)
    {
      BumpCountAt(t, name, q, i);
    }
  }

  lemma {:induction false} BumpCountAt(t: seq<ItemCount>, name: string, q: nat, i: nat)
    requires DistinctNames(t) && name in Names(t) && i < |t|
    ensures |Bump(t, name, q)| == |t|
    ensures Bump(t, name, q)[i].count == t[i].count + (if t[i].name == name then q else 0)
    decreases |t|, 1
  {
    if t[0].name == name {
      BumpHeadAt(t, name, q, i);
    } else {
      BumpTailAt(t, name, q, i);
    }
  }

  lemma BumpHeadAt(t: seq<ItemCount>, name: string, q: nat, i: nat)
    requires DistinctNames(t) && i < |t| && t[0].name == name
    ensures |Bump(t, name, q)| == |t|
    ensures Bump(t, name, q)[i].count == t[i].count + (if t[i].name == name then q else 0)
  {
    if i > 0 {
      assert t[0].name != t[i].name;
    }
  }

  lemma {:induction false} BumpTailAt(t: seq<ItemCount>, name: string, q: nat, i: nat)
    requires DistinctNames(t) && name in Names(t) && i < |t| && t[0].name != name
    ensures |Bump(t, name, q)| == |t|
    ensures Bump(t, name, q)[i].count == t[i].count + (if t[i].name == name then q else 0)
    decreases |t|, 0
  {
    NamesCons(t);
    DistinctNamesTail(t);
    var j := if i == 0 then 0 else i - 1;
    BumpCountAt(t[1..], name, q, j);
    BumpCons(t, name, q);
    if i > 0 {
      assert t[1..][j] == t[i];
    }
  }

  /** Bumping past a first entry of another name keeps that entry first. */
  lemma BumpCons(t: seq<ItemCount>, name: string, q: nat)
    requires t != [] && t[0].name != name
    ensures |Bump(t, name, q)| == 1 + |Bump(t[1..], name, q)|
    ensures Bump(t, name, q)[0] == t[0]
    ensures forall i | 0 < i < |Bump(t, name, q)| :: Bump(t, name, q)[i] == Bump(t[1..], name, q)[i - 1]
  {
  }

  lemma DistinctNamesTail(t: seq<ItemCount>)
    requires DistinctNames(t) && t != []
    ensures DistinctNames(t[1..])
  {
    forall i, j | 0 <= i < j < |t[1..]|
      ensures t[1..][i].name != t[1..][j].name
    {
      assert t[1..][i] == t[i + 1] && t[1..][j] == t[j + 1];
    }
  }

  /** The tally of the lines, built line by line. */
  function Tally(lines: seq<OrderItem>): seq<ItemCount> {
    if lines == [] then []
    else
      var last := lines[|lines| - 1];
      Bump(Tally(lines[..|lines| - 1]), last.item.name, last.quantity)
  }

  /** The tally has one entry per distinct name among the lines. */
  lemma {:induction false} TallyNames(lines: seq<OrderItem>)
    ensures DistinctNames(Tally(lines))
    ensures forall n :: n in Names(Tally(lines)) <==> n in LineNames(lines)
    decreases |lines|
  {
    if lines != [] {
      var prefix := lines[..|lines| - 1];
      var name := lines[|lines| - 1].item.name;
      TallyNames(prefix);
      var t0, t := Tally(prefix), Tally(lines);
      BumpNames(t0, lines[|lines| - 1].item.name, lines[|lines| - 1].quantity);
      LineNamesSnoc(lines);
      if name in Names(t0) {
        assert forall i | 0 <= i < |t| :: t[i].name == Names(t)[i] == Names(t0)[i] == t0[i].name;
      } else {
        assert Names(t) == Names(t0) + [name];
        forall i | 0 <= i < |t0|
          ensures t0[i].name != name
        {
          assert Names(t0)[i] == t0[i].name;
        }
      }
    }
  }

  /** Each tally entry holds its name's total quantity over the lines. */
  lemma {:induction false} TallyCounts(lines: seq<OrderItem>)
    ensures forall i | 0 <= i < |Tally(lines)| ::
      Tally(lines)[i].count == QtyOf(lines, Tally(lines)[i].name)
    decreases |lines|
  {
    if lines != [] {
      var prefix := lines[..|lines| - 1];
      var last := lines[|lines| - 1];
      var name := last.item.name;
      TallyCounts(prefix);
      TallyNames(prefix);
      var t0, t := Tally(prefix), Tally(lines);
      BumpNames(t0, lines[|lines| - 1].item.name, lines[|lines| - 1].quantity);
      if name in Names(t0) {
        BumpCounts(t0, name, last.quantity);
        assert forall i | 0 <= i < |t| :: t[i].name == Names(t)[i] == Names(t0)[i] == t0[i].name;
      } else {
        assert name !in LineNames(prefix);
        QtyOfAbsent(prefix, name);
      }
    }
  }

  /** Every entry's name occurs in `L`, and the entries are in the order
      of their names' first occurrences in `L`. */
  predicate FirstAppearanceOrder(t: seq<ItemCount>, L: seq<string>) {
    && (forall i | 0 <= i < |t| :: t[i].name in L)
    && (forall i, j | 0 <= i < j < |t| :: FirstIndex(L, t[i].name) < FirstIndex(L, t[j].name))
  }

  /** The tally entries are in the order in which their names first
      appear among the lines. */
  lemma {:induction false} TallyOrder(lines: seq<OrderItem>)
    ensures FirstAppearanceOrder(Tally(lines), LineNames(lines))
    decreases |lines|
  {
    if lines != [] {
      var prefix := lines[..|lines| - 1];
      var last := lines[|lines| - 1];
      var name := last.item.name;
      TallyOrder(prefix);
      var t0, t := Tally(prefix), Tally(lines);
      BumpNames(t0, name, last.quantity);
      var L0, L := LineNames(prefix), LineNames(lines);
      LineNamesSnoc(lines);
      OrderKeptByAppend(t0, L0, name);
      if name in Names(t0) {
        OrderSameNames(t0, t, L);
      } else {
        assert name !in L0 by {
          TallyNames(prefix);
        }
        OrderSnocNew(t0, L0, name, last.quantity);
      }
    }
  }

  /** Appending to the reference sequence keeps the order of entries whose
      names already occur in it. */
  lemma OrderKeptByAppend(t: seq<ItemCount>, L: seq<string>, y: string)
    requires FirstAppearanceOrder(t, L)
    ensures FirstAppearanceOrder(t, L + [y])
  {
    forall i | 0 <= i < |t|
      ensures FirstIndex(L + [y], t[i].name) == FirstIndex(L, t[i].name)
    {
      FirstIndexAppend(L, y, t[i].name);
    }
  }

  lemma OrderSameNames(t0: seq<ItemCount>, t: seq<ItemCount>, L: seq<string>)
    requires FirstAppearanceOrder(t0, L) && Names(t) == Names(t0)
    ensures FirstAppearanceOrder(t, L)
  {
    assert forall i | 0 <= i < |t| :: t[i].name == Names(t)[i] == Names(t0)[i] == t0[i].name;
  }

  /** A name first occurring at the end of the reference sequence may be
      appended as the last entry. */
  lemma OrderSnocNew(t: seq<ItemCount>, L: seq<string>, name: string, q: nat)
    requires FirstAppearanceOrder(t, L + [name]) && name !in L
    requires forall i | 0 <= i < |t| :: t[i].name in L
    ensures FirstAppearanceOrder(t + [ItemCount(name, q)], L + [name])
  {
    var L', t' := L + [name], t + [ItemCount(name, q)];
    FirstIndexNew(L, name);
    forall i | 0 <= i < |t|
      ensures FirstIndex(L', t[i].name) < |L|
    {
      FirstIndexAppend(L, name, t[i].name);
    }
    assert forall i | 0 <= i < |t| :: t'[i] == t[i];
  }

  /** A value absent from `s` first occurs in `s + [x]` at the end. */
  lemma FirstIndexNew(s: seq<string>, x: string)
    requires x !in s
    ensures FirstIndex(s + [x], x) == |s|
  {
    assert (s + [x])[|s|] == x;
  }

  // ---------------------------------------------------------------------
  // Stable sort by descending count

  predicate Descending(s: seq<ItemCount>) {
    forall i, j | 0 <= i < j < |s| :: s[i].count >= s[j].count
  }

  /** Places `e` after every entry whose count is at least `e`'s. */
  function Insert(xs: seq<ItemCount>, e: ItemCount): (r: seq<ItemCount>)
    ensures |r| == |xs| + 1
    ensures multiset(r) == multiset(xs) + multiset{e}
    decreases |xs|
  {
    if xs == [] then [e]
    else if xs[0].count >= e.count then
      assert xs == [xs[0]] + xs[1..];
      [xs[0]] + Insert(xs[1..], e)
    else [e] + xs
  }

  /** Insertion sort, taking the entries in order; this is the order
      `Array.prototype.sort` with comparator `b - a` produces, that sort
      being stable. */
  function SortDesc(s: seq<ItemCount>): (r: seq<ItemCount>)
    ensures |r| == |s|
    ensures multiset(r) == multiset(s)
  {
    if s == [] then []
    else
      assert s == s[..|s| - 1] + [s[|s| - 1]];
      Insert(SortDesc(s[..|s| - 1]), s[|s| - 1])
  }

  lemma {:induction false} InsertDescending(xs: seq<ItemCount>, e: ItemCount)
    requires Descending(xs)
    ensures Descending(Insert(xs, e))
    decreases |xs|
  {
    if xs == [] {
    } else if xs[0].count >= e.count {
      var rest := Insert(xs[1..], e);
      assert Descending(xs[1..]);
      InsertDescending(xs[1..], e);
      InsertBounded(xs[1..], e, xs[0].count);
      DescendingCons(xs[0], rest);
    } else {
      DescendingCons(e, xs);
    }
  }

  /** Inserting keeps every count at most `c` when all were. */
  lemma {:induction false} InsertBounded(xs: seq<ItemCount>, e: ItemCount, c: nat)
    requires forall i | 0 <= i < |xs| :: xs[i].count <= c
    requires e.count <= c
    ensures forall i | 0 <= i < |Insert(xs, e)| :: Insert(xs, e)[i].count <= c
    decreases |xs|
  {
    if xs != [] && xs[0].count >= e.count {
      InsertBounded(xs[1..], e, c);
      ConsBounded(xs[0], Insert(xs[1..], e), c);
    }
  }

  lemma ConsBounded(x: ItemCount, s: seq<ItemCount>, c: nat)
    requires x.count <= c
    requires forall i | 0 <= i < |s| :: s[i].count <= c
    ensures forall i | 0 <= i < |[x] + s| :: ([x] + s)[i].count <= c
  {
    forall i | 0 < i < |[x] + s|
      ensures ([x] + s)[i].count <= c
    {
      assert ([x] + s)[i] == s[i - 1];
    }
  }

  /** An entry that counts at least as much as every entry of a descending
      sequence may go in front of it. */
  lemma DescendingCons(x: ItemCount, s: seq<ItemCount>)
    requires Descending(s)
    requires forall i | 0 <= i < |s| :: s[i].count <= x.count
    ensures Descending([x] + s)
  {
    var r := [x] + s;
    forall i, j | 0 <= i < j < |r|
      ensures r[i].count >= r[j].count
    {
      assert r[j] == s[j - 1];
      if i > 0 {
        assert r[i] == s[i - 1];
      }
    }
  }

  lemma {:induction false} SortDescending(s: seq<ItemCount>)
    ensures Descending(SortDesc(s))
    decreases |s|
  {
    if s != [] {
      SortDescending(s[..|s| - 1]);
      InsertDescending(SortDesc(s[..|s| - 1]), s[|s| - 1]);
    }
  }

  /** The entries whose count is `k`, in order. */
  function WithCount(s: seq<ItemCount>, k: nat): seq<ItemCount> {
    if s == [] then []
    else (if s[0].count == k then [s[0]] else []) + WithCount(s[1..], k)
  }

  lemma {:induction false} WithCountConcat(a: seq<ItemCount>, b: seq<ItemCount>, k: nat)
    ensures WithCount(a + b, k) == WithCount(a, k) + WithCount(b, k)
    decreases |a|
  {
    if a == [] {
      assert a + b == b;
    } else {
      var h := if a[0].count == k then [a[0]] else [];
      ConsConcat(a, b);
      WithCountCons(a[0], a[1..] + b, k);
      WithCountConcat(a[1..], b, k);
      assert WithCount(a, k) == h + WithCount(a[1..], k);
      ConcatAssoc(h, WithCount(a[1..], k), WithCount(b, k));
    }
  }

  lemma {:induction false} WithCountNone(s: seq<ItemCount>, k: nat)
    requires forall i | 0 <= i < |s| :: s[i].count != k
    ensures WithCount(s, k) == []
    decreases |s|
  {
    if s != [] {
      WithCountNone(s[1..], k);
    }
  }

  /** Inserting into a descending sequence puts `e` after every entry of
      the same count. */
  lemma {:induction false} InsertWithCount(xs: seq<ItemCount>, e: ItemCount, k: nat)
    requires Descending(xs)
    ensures WithCount(Insert(xs, e), k) == WithCount(xs, k) + (if e.count == k then [e] else [])
    decreases |xs|
  {
    if xs == [] {
      WithCountCons(e, [], k);
    } else if xs[0].count >= e.count {
      assert Descending(xs[1..]);
      InsertWithCount(xs[1..], e, k);
      InsertWithCountStep(xs, e, k);
    } else {
      WithCountCons(e, xs, k);
      if e.count == k {
        WithCountNone(xs, k);
      }
    }
  }

  /** The inductive step of `InsertWithCount` when `e` goes after the
      first entry. */
  lemma InsertWithCountStep(xs: seq<ItemCount>, e: ItemCount, k: nat)
    requires xs != [] && xs[0].count >= e.count
    requires WithCount(Insert(xs[1..], e), k) == WithCount(xs[1..], k) + (if e.count == k then [e] else [])
    ensures WithCount(Insert(xs, e), k) == WithCount(xs, k) + (if e.count == k then [e] else [])
  {
    var head := if xs[0].count == k then [xs[0]] else [];
    var tail := if e.count == k then [e] else [];
    assert Insert(xs, e) == [xs[0]] + Insert(xs[1..], e);
    WithCountCons(xs[0], Insert(xs[1..], e), k);
    assert WithCount(xs, k) == head + WithCount(xs[1..], k);
    ConcatAssoc(head, WithCount(xs[1..], k), tail);
  }

  lemma ConsConcat(a: seq<ItemCount>, b: seq<ItemCount>)
    requires a != []
    ensures a + b == [a[0]] + (a[1..] + b)
  {
  }

  lemma ConcatAssoc(a: seq<ItemCount>, b: seq<ItemCount>, c: seq<ItemCount>)
    ensures a + (b + c) == (a + b) + c
  {
  }

  lemma WithCountCons(x: ItemCount, s: seq<ItemCount>, k: nat)
    ensures WithCount([x] + s, k) == (if x.count == k then [x] else []) + WithCount(s, k)
  {
    assert ([x] + s)[1..] == s;
  }

  /** The sort is stable: for every count, the entries with that count come
      out in the order they went in. */
  lemma {:induction false} SortStable(s: seq<ItemCount>, k: nat)
    ensures WithCount(SortDesc(s), k) == WithCount(s, k)
    decreases |s|
  {
    if s != [] {
      var prefix, last := s[..|s| - 1], s[|s| - 1];
      SortStable(prefix, k);
      SortDescending(prefix);
      InsertWithCount(SortDesc(prefix), last, k);
      WithCountLast(s, k);
    }
  }

  lemma WithCountLast(s: seq<ItemCount>, k: nat)
    requires s != []
    ensures WithCount(s, k) == WithCount(s[..|s| - 1], k) + (if s[|s| - 1].count == k then [s[|s| - 1]] else [])
  {
    assert s == s[..|s| - 1] + [s[|s| - 1]];
    WithCountSnoc(s[..|s| - 1], s[|s| - 1], k);
  }

  lemma WithCountSnoc(s: seq<ItemCount>, e: ItemCount, k: nat)
    ensures WithCount(s + [e], k) == WithCount(s, k) + (if e.count == k then [e] else [])
  {
    WithCountConcat(s, [e], k);
    assert WithCount([e], k) == (if e.count == k then [e] else []) + WithCount([], k);
  }

  /** Where entry `i` lands in `WithCount(s, s[i].count)`: after the
      entries of that count that precede it. */
  lemma WithCountPosition(s: seq<ItemCount>, i: nat)
    requires i < |s|
    ensures var k := s[i].count; var w := WithCount(s, k);
      |WithCount(s[..i], k)| < |w| && w[|WithCount(s[..i], k)|] == s[i]
  {
    var k := s[i].count;
    assert s == s[..i] + ([s[i]] + s[i + 1..]);
    WithCountConcat(s[..i], [s[i]] + s[i + 1..], k);
    assert ([s[i]] + s[i + 1..])[1..] == s[i + 1..];
  }

  /** Earlier entries of count `k` get earlier positions among the entries
      of count `k`. */
  lemma WithCountMonotone(s: seq<ItemCount>, i: nat, j: nat)
    requires i < j <= |s|
    ensures |WithCount(s[..i], s[i].count)| < |WithCount(s[..j], s[i].count)|
  {
    var k := s[i].count;
    assert s[..j] == s[..i] + ([s[i]] + s[i + 1..j]);
    WithCountConcat(s[..i], [s[i]] + s[i + 1..j], k);
    assert ([s[i]] + s[i + 1..j])[1..] == s[i + 1..j];
  }

  /** Two positions of `WithCount(s, k)` come from two positions of `s` in
      the same order. */
  lemma {:induction false} WithCountOrigins(s: seq<ItemCount>, k: nat, a: nat, b: nat) returns (p: nat, q: nat)
    requires a < b < |WithCount(s, k)|
    ensures p < q < |s| && s[p] == WithCount(s, k)[a] && s[q] == WithCount(s, k)[b]
    decreases |s|
  {
    var w' := WithCount(s[1..], k);
    var h := if s[0].count == k then [s[0]] else [];
    assert WithCount(s, k) == h + w';
    if h != [] && a == 0 {
      var q' := WithCountElement(s[1..], k, b - 1);
      p, q := 0, q' + 1;
      assert s[q] == s[1..][q'];
    } else {
      var p', q' := WithCountOrigins(s[1..], k, a - |h|, b - |h|);
      p, q := p' + 1, q' + 1;
      assert s[p] == s[1..][p'] && s[q] == s[1..][q'];
    }
  }

  /** Every position of `WithCount(s, k)` comes from a position of `s`. */
  lemma {:induction false} WithCountElement(s: seq<ItemCount>, k: nat, a: nat) returns (p: nat)
    requires a < |WithCount(s, k)|
    ensures p < |s| && s[p] == WithCount(s, k)[a]
    decreases |s|
  {
    var w, w' := WithCount(s, k), WithCount(s[1..], k);
    if s[0].count == k && a == 0 {
      p := 0;
    } else {
      var a' := if s[0].count == k then a - 1 else a;
      assert w[a] == w'[a'];
      var p' := WithCountElement(s[1..], k, a');
      p := p' + 1;
    }
  }

  // ---------------------------------------------------------------------
  // Permutations of a tally

  lemma {:induction false} DistinctMultiplicity(s: seq<ItemCount>, x: ItemCount)
    requires DistinctNames(s)
    ensures multiset(s)[x] <= 1
    decreases |s|
  {
    if s != [] {
      var prefix := s[..|s| - 1];
      assert s == prefix + [s[|s| - 1]];
      DistinctMultiplicity(prefix, x);
    }
  }

  /** A reordering of entries with distinct names has distinct names. */
  lemma PermutationDistinct(s: seq<ItemCount>, u: seq<ItemCount>)
    requires DistinctNames(s) && multiset(s) == multiset(u)
    ensures DistinctNames(u)
  {
    forall i, j | 0 <= i < j < |u|
      ensures u[i].name != u[j].name
    {
      if u[i].name == u[j].name {
        assert u[i] in multiset(s) && u[j] in multiset(s);
        var p :| 0 <= p < |s| && s[p] == u[i];
        var q :| 0 <= q < |s| && s[q] == u[j];
        assert p == q;
        assert u == u[..j] + [u[j]] + u[j + 1..];
        assert u[i] in u[..j];
        assert multiset(u)[u[j]] >= 2;
        DistinctMultiplicity(s, u[j]);
      }
    }
  }

  // ---------------------------------------------------------------------
  // The report list

  function Take(s: seq<ItemCount>, n: nat): (r: seq<ItemCount>)
    ensures |r| <= n && |r| <= |s| && r == s[..|r|]
    ensures |s| >= n ==> |r| == n
    ensures |s| < n ==> r == s
  {
    if |s| <= n then s else s[..n]
  }

  /** The top-selling items of a log. */
  function TopItems(records: seq<CallRecord>): (top: seq<ItemCount>)
    ensures |top| <= TopLimit
  {
    Take(SortDesc(Tally(AllLines(records))), TopLimit)
  }

  /** The top list holds at most five entries with distinct names, in
      non-increasing count order; each entry's count is that name's total
      quantity across all records; any name that was ordered but is not
      listed sells no more than the fifth entry, which then exists. */
  lemma TopItemsSpec(records: seq<CallRecord>)
    ensures var top := TopItems(records);
      && |top| <= TopLimit
      && Descending(top)
      && DistinctNames(top)
      && (forall i | 0 <= i < |top| ::
            top[i].name in LineNames(AllLines(records)) &&
            top[i].count == TotalQty(records, top[i].name))
      && (forall n | n in LineNames(AllLines(records)) && n !in Names(top) ::
            |top| == TopLimit && TotalQty(records, n) <= top[TopLimit - 1].count)
  {
    var t := Tally(AllLines(records));
    var sorted := SortDesc(t);
    var top := TopItems(records);
    TallyNames(AllLines(records));
    SortDescending(t);
    PermutationDistinct(t, sorted);
    assert forall i | 0 <= i < |top| :: top[i] == sorted[i];
    forall i | 0 <= i < |top|
      ensures top[i].name in LineNames(AllLines(records)) && top[i].count == TotalQty(records, top[i].name)
    {
      TopEntry(records, i);
    }
    forall n | n in LineNames(AllLines(records)) && n !in Names(top)
      ensures |top| == TopLimit && TotalQty(records, n) <= top[TopLimit - 1].count
    {
      TopComplete(records, n);
    }
  }

  /** Each sorted entry is an entry of the input. */
  lemma SortedFrom(t: seq<ItemCount>, i: nat) returns (p: nat)
    requires i < |SortDesc(t)|
    ensures p < |t| && t[p] == SortDesc(t)[i]
  {
    assert SortDesc(t)[i] in multiset(t);
    p :| 0 <= p < |t| && t[p] == SortDesc(t)[i];
  }

  /** Each input entry is an entry of the sorted sequence. */
  lemma SortedTo(t: seq<ItemCount>, p: nat) returns (q: nat)
    requires p < |t|
    ensures q < |SortDesc(t)| && SortDesc(t)[q] == t[p]
  {
    assert t[p] in multiset(SortDesc(t));
    q :| 0 <= q < |SortDesc(t)| && SortDesc(t)[q] == t[p];
  }

  /** A listed entry names an ordered item and holds its total quantity. */
  lemma TopEntry(records: seq<CallRecord>, i: nat)
    requires i < |TopItems(records)|
    ensures var e := TopItems(records)[i];
      e.name in LineNames(AllLines(records)) && e.count == TotalQty(records, e.name)
  {
    var lines := AllLines(records);
    var t := Tally(lines);
    var e := TopItems(records)[i];
    assert e == SortDesc(t)[i];
    var p := SortedFrom(t, i);
    TallyNames(lines);
    TallyCounts(lines);
    assert Names(t)[p] == e.name;
    TotalQtyIsQtyOfAllLines(records, e.name);
  }

  /** An ordered name missing from the list sells no more than the fifth
      entry, and the list is full. */
  lemma TopComplete(records: seq<CallRecord>, n: string)
    requires n in LineNames(AllLines(records)) && n !in Names(TopItems(records))
    ensures |TopItems(records)| == TopLimit && TotalQty(records, n) <= TopItems(records)[TopLimit - 1].count
  {
    var lines := AllLines(records);
    var t := Tally(lines);
    var sorted := SortDesc(t);
    var top := TopItems(records);
    var p := TallyEntryOf(lines, n);
    var q := SortedTo(t, p);
    BeyondPrefix(sorted, |top|, q, n);
    SortDescending(t);
    assert sorted[TopLimit - 1].count >= sorted[q].count;
    TotalQtyIsQtyOfAllLines(records, n);
  }

  /** The tally entry of an ordered name holds its total quantity. */
  lemma TallyEntryOf(lines: seq<OrderItem>, n: string) returns (p: nat)
    requires n in LineNames(lines)
    ensures p < |Tally(lines)| && Tally(lines)[p].name == n && Tally(lines)[p].count == QtyOf(lines, n)
  {
    TallyNames(lines);
    TallyCounts(lines);
    p :| 0 <= p < |Tally(lines)| && Names(Tally(lines))[p] == n;
  }

  /** An entry whose name is missing from a prefix lies beyond it. */
  lemma BeyondPrefix(s: seq<ItemCount>, k: nat, q: nat, n: string)
    requires k <= |s| && q < |s| && s[q].name == n && n !in Names(s[..k])
    ensures q >= k
  {
    assert forall m | 0 <= m < k :: Names(s[..k])[m] == s[m].name;
  }

  /** Ties are broken by first appearance: entries of the top list with
      equal counts appear in the order in which their names were first
      ordered, and an ordered name left off the list that sells as much as
      a listed entry was first ordered after that entry's name. */
  lemma TopItemsTieOrder(records: seq<CallRecord>)
    ensures var top := TopItems(records); var L := LineNames(AllLines(records));
      forall i, j | 0 <= i < j < |top| && top[i].count == top[j].count ::
        top[i].name in L && top[j].name in L &&
        FirstIndex(L, top[i].name) < FirstIndex(L, top[j].name)
    ensures var top := TopItems(records); var L := LineNames(AllLines(records));
      forall n, i | n in L && n !in Names(top) && 0 <= i < |top| && TotalQty(records, n) == top[i].count ::
        top[i].name in L && FirstIndex(L, top[i].name) < FirstIndex(L, n)
  {
    var L := LineNames(AllLines(records));
    var top := TopItems(records);
    forall n, i | n in L && n !in Names(top) && 0 <= i < |top| && TotalQty(records, n) == top[i].count
      ensures top[i].name in L && FirstIndex(L, top[i].name) < FirstIndex(L, n)
    {
      TopCutTie(records, n, i);
    }
    TopListTies(records);
  }

  lemma TopListTies(records: seq<CallRecord>)
    ensures var top := TopItems(records); var L := LineNames(AllLines(records));
      forall i, j | 0 <= i < j < |top| && top[i].count == top[j].count ::
        top[i].name in L && top[j].name in L &&
        FirstIndex(L, top[i].name) < FirstIndex(L, top[j].name)
  {
    var lines := AllLines(records);
    var L := LineNames(lines);
    var t := Tally(lines);
    var sorted := SortDesc(t);
    var top := TopItems(records);
    TallyOrder(lines);
    assert top == sorted[..|top|];
    forall i, j | 0 <= i < j < |top| && top[i].count == top[j].count
      ensures top[i].name in L && top[j].name in L &&
        FirstIndex(L, top[i].name) < FirstIndex(L, top[j].name)
    {
      assert top[i] == sorted[i] && top[j] == sorted[j];
      var p, q := SortKeepsTieOrder(t, i, j);
      assert Names(t)[p] == top[i].name && Names(t)[q] == top[j].name;
    }
  }

  /** An ordered name that missed the cut, tied with listed entry `i`, was
      first ordered after that entry's name. */
  lemma TopCutTie(records: seq<CallRecord>, n: string, i: nat)
    requires n in LineNames(AllLines(records)) && n !in Names(TopItems(records))
    requires i < |TopItems(records)| && TotalQty(records, n) == TopItems(records)[i].count
    ensures var L, e := LineNames(AllLines(records)), TopItems(records)[i];
      e.name in L && FirstIndex(L, e.name) < FirstIndex(L, n)
  {
    var lines := AllLines(records);
    var t := Tally(lines);
    var sorted := SortDesc(t);
    var top := TopItems(records);
    var p := TallyEntryOf(lines, n);
    var q := SortedTo(t, p);
    BeyondPrefix(sorted, |top|, q, n);
    TotalQtyIsQtyOfAllLines(records, n);
    assert top[i] == sorted[i];
    var p1, q1 := SortKeepsTieOrder(t, i, q);
    TallyOrder(lines);
    assert t[q1].name == n;
  }

  /** Two entries of equal count at positions `i < j` of the sorted
      sequence come from positions `p < q` of the input. */
  lemma SortKeepsTieOrder(t: seq<ItemCount>, i: nat, j: nat) returns (p: nat, q: nat)
    requires i < j < |SortDesc(t)| && SortDesc(t)[i].count == SortDesc(t)[j].count
    ensures p < q < |t| && t[p] == SortDesc(t)[i] && t[q] == SortDesc(t)[j]
  {
    var sorted := SortDesc(t);
    var k := sorted[i].count;
    var w := WithCount(sorted, k);
    var a, b := |WithCount(sorted[..i], k)|, |WithCount(sorted[..j], k)|;
    WithCountPosition(sorted, i);
    WithCountPosition(sorted, j);
    WithCountMonotone(sorted, i, j);
    assert a < b < |w| && w[a] == sorted[i] && w[b] == sorted[j];
    SortStable(t, k);
    p, q := WithCountOrigins(t, k, a, b);
  }
}
