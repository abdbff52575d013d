/**
 * The client row model: rows are filtered, then stably sorted by a list of
 * sort specifications, then indexed by id; accessors map a virtual index to
 * its row and id, and an id back to its virtual index.
 */
module ClientRowModel {
  import opened Wrappers

  /** A cell value as the comparator sees it: `null`/`undefined`, a number, a string or a boolean. */
  datatype Value = Null | Num(n: real) | Str(s: string) | Bool(b: bool)

  /** `RowId`: a string or a number. */
  datatype RowId = IdNum(n: real) | IdStr(s: string)

  /** How strings are ordered and numbers are printed; `localeCompare` and `String(n)` are platform calls. */
  datatype Collation = Collation(localeCompare: (string, string) -> int, numberText: real -> string)

  datatype Direction = Asc | Desc

  /** A sort specification: the column's value of a row, a direction and an optional comparator. */
  datatype SortSpec<!R> = SortSpec(key: R -> Value, direction: Direction, compare: Option<(Value, Value) -> real>)

  /** A row that passed the filter, with its index in the caller's array. */
  datatype Indexed<R> = Indexed(originalIndex: int, row: R)

  datatype RowModelError = RangeError(virtualIndex: int)

  // ----- comparison -----

  /** `String(v)` for a value that is not null. */
  function Text(coll: Collation, v: Value): string
  {
    match v
    case Null => ""
    case Num(n) => coll.numberText(n)
    case Str(s) => s
    case Bool(b) => if b then "true" else "false"
  }

  /**
   * `defaultCompare`: equal values tie, null sorts first, numbers compare by
   * subtraction, and anything else by the collation of its text.
   */
  function DefaultCompare(coll: Collation, a: Value, b: Value): real
  {
    if a == b then 0.0
    else if a.Null? then -1.0
    else if b.Null? then 1.0
    else if a.Num? && b.Num? then a.n - b.n
    else coll.localeCompare(Text(coll, a), Text(coll, b)) as real
  }

  function Sign(x: real): int
  {
    if x < 0.0 then -1 else if x > 0.0 then 1 else 0
  }

  /** On nulls and numbers the default comparator is a total preorder: antisymmetric and transitive. */
  lemma DefaultCompareOrdersNumbers(coll: Collation, a: Value, b: Value, d: Value)
    requires (a.Null? || a.Num?) && (b.Null? || b.Num?) && (d.Null? || d.Num?)
    ensures Sign(DefaultCompare(coll, a, b)) == -Sign(DefaultCompare(coll, b, a))
    ensures DefaultCompare(coll, a, b) <= 0.0 && DefaultCompare(coll, b, d) <= 0.0 ==> DefaultCompare(coll, a, d) <= 0.0
    ensures DefaultCompare(coll, a, b) == 0.0 <==> a == b
  {
  }

  /** One specification's comparison of two rows, negated for a descending sort. */
  function Directed<R>(s: SortSpec<R>, coll: Collation, a: R, b: R): real
  {
    var c := if s.compare.Some? then s.compare.value(s.key(a), s.key(b)) else DefaultCompare(coll, s.key(a), s.key(b));
    if s.direction == Asc then c else -c
  }

  /** The sort's comparator: the first specification that tells the rows apart decides. */
  function CompareBy<R>(specs: seq<SortSpec<R>>, coll: Collation, a: R, b: R): real
    decreases |specs|
  {
    if |specs| == 0 then 0.0
    else
      var c := Directed(specs[0], coll, a, b);
      if c != 0.0 then c else CompareBy(specs[1..], coll, a, b)
  }

  /**
   * The comparison is decided by the first specification that does not tie,
   * and the rows tie exactly when every specification ties.
   */
  lemma {:induction false} CompareByDecides<R>(specs: seq<SortSpec<R>>, coll: Collation, a: R, b: R)
    ensures var c := CompareBy(specs, coll, a, b);
      (c != 0.0 ==>
         exists k :: 0 <= k < |specs| && c == Directed(specs[k], coll, a, b) &&
           (forall j :: 0 <= j < k ==> Directed(specs[j], coll, a, b) == 0.0)) &&
      (c == 0.0 <==> forall k :: 0 <= k < |specs| ==> Directed(specs[k], coll, a, b) == 0.0)
    decreases |specs|
  {
    if |specs| > 0 {
      CompareByDecides(specs[1..], coll, a, b);
      assert forall k :: 1 <= k < |specs| ==> specs[k] == specs[1..][k - 1];
      var c := CompareBy(specs, coll, a, b);
      if c != 0.0 && Directed(specs[0], coll, a, b) == 0.0 {
        var k :| 0 <= k < |specs[1..]| && c == Directed(specs[1..][k], coll, a, b) &&
                 forall j :: 0 <= j < k ==> Directed(specs[1..][j], coll, a, b) == 0.0;
        assert c == Directed(specs[k + 1], coll, a, b);
      }
    }
  }

  /** The comparator loop: specifications in order, returning at the first non-zero comparison. */
  method CompareRows<R>(specs: seq<SortSpec<R>>, coll: Collation, a: R, b: R) returns (c: real)
    ensures c == CompareBy(specs, coll, a, b)
  {
    var k := 0;
    while k < |specs|
      invariant 0 <= k <= |specs|
      invariant CompareBy(specs[k..], coll, a, b) == CompareBy(specs, coll, a, b)
    {
      var d := Directed(specs[k], coll, a, b);
      if d != 0.0 {
        return d;
      }
      assert specs[k..][1..] == specs[k + 1..];
      k := k + 1;
    }
    return 0.0;
  }

  /** Over the rows `rs`, the comparator's sign flips when its arguments swap. */
  predicate Antisymmetric<R>(specs: seq<SortSpec<R>>, coll: Collation, rs: set<R>)
  {
    forall a, b | a in rs && b in rs :: Sign(CompareBy(specs, coll, a, b)) == -Sign(CompareBy(specs, coll, b, a))
  }

  /** Over the rows `rs`, "not after" is transitive. */
  predicate Transitive<R>(specs: seq<SortSpec<R>>, coll: Collation, rs: set<R>)
  {
    forall a, b, d | a in rs && b in rs && d in rs ::
      CompareBy(specs, coll, a, b) <= 0.0 && CompareBy(specs, coll, b, d) <= 0.0 ==> CompareBy(specs, coll, a, d) <= 0.0
  }

  /** The comparator is a total preorder on `rs`. */
  predicate Consistent<R>(specs: seq<SortSpec<R>>, coll: Collation, rs: set<R>)
  {
    Antisymmetric(specs, coll, rs) && Transitive(specs, coll, rs)
  }

  /** A strict step in a consistent comparator followed by a non-strict one is strict. */
  lemma StrictThenWeak<R>(specs: seq<SortSpec<R>>, coll: Collation, rs: set<R>, a: R, b: R, d: R)
    requires Consistent(specs, coll, rs) && a in rs && b in rs && d in rs
    ensures CompareBy(specs, coll, a, b) < 0.0 && CompareBy(specs, coll, b, d) <= 0.0 ==> CompareBy(specs, coll, a, d) < 0.0
    ensures CompareBy(specs, coll, a, b) <= 0.0 && CompareBy(specs, coll, b, d) < 0.0 ==> CompareBy(specs, coll, a, d) < 0.0
  {
    if CompareBy(specs, coll, a, b) <= 0.0 && CompareBy(specs, coll, b, d) <= 0.0 && CompareBy(specs, coll, a, d) == 0.0 {
      assert Sign(CompareBy(specs, coll, d, a)) == 0;
      assert CompareBy(specs, coll, b, a) <= 0.0;
      assert CompareBy(specs, coll, d, b) <= 0.0;
    }
  }

  /**
   * Specifications that are each a total preorder combine into one: the
   * multi-key comparator is consistent whenever every key comparator is.
   */
  lemma {:induction false} CompareByConsistent<R>(specs: seq<SortSpec<R>>, coll: Collation, rs: set<R>)
    requires forall k :: 0 <= k < |specs| ==> Consistent([specs[k]], coll, rs)
    ensures Consistent(specs, coll, rs)
    decreases |specs|
  {
    if |specs| == 0 {
      return;
    }
    var head := [specs[0]];
    var tail := specs[1..];
    assert forall k :: 0 <= k < |tail| ==> tail[k] == specs[k + 1];
    CompareByConsistent(tail, coll, rs);
    assert Consistent(head, coll, rs);
    assert head[1..] == [];
    forall a, b | a in rs && b in rs
      ensures Sign(CompareBy(specs, coll, a, b)) == -Sign(CompareBy(specs, coll, b, a))
    {
      assert CompareBy(head, coll, a, b) == Directed(specs[0], coll, a, b);
      assert CompareBy(head, coll, b, a) == Directed(specs[0], coll, b, a);
    }
    forall a, b, d | a in rs && b in rs && d in rs &&
        CompareBy(specs, coll, a, b) <= 0.0 && CompareBy(specs, coll, b, d) <= 0.0
      ensures CompareBy(specs, coll, a, d) <= 0.0
    {
      var hab, hbd, had := Directed(specs[0], coll, a, b), Directed(specs[0], coll, b, d), Directed(specs[0], coll, a, d);
      assert CompareBy(head, coll, a, b) == hab && CompareBy(head, coll, b, d) == hbd && CompareBy(head, coll, a, d) == had;
      assert hab <= 0.0 && hbd <= 0.0;
      StrictThenWeak(head, coll, rs, a, b, d);
      if had == 0.0 {
        assert hab == 0.0 && hbd == 0.0;
        assert CompareBy(tail, coll, a, b) <= 0.0 && CompareBy(tail, coll, b, d) <= 0.0;
      }
    }
  }

  // ----- filter -----

  /** Whether the filter keeps row `r` at original index `i`; every row is kept without a filter. */
  predicate Keeps<R>(filter: Option<(R, int) -> bool>, r: R, i: int)
  {
    filter.None? || filter.value(r, i)
  }

  /** The rows among the first `n` that the filter keeps, each with its original index, in order. */
  function Kept<R>(rows: seq<R>, filter: Option<(R, int) -> bool>, n: nat): seq<Indexed<R>>
    requires n <= |rows|
  {
    if n == 0 then []
    else Kept(rows, filter, n - 1) + (if Keeps(filter, rows[n - 1], n - 1) then [Indexed(n - 1, rows[n - 1])] else [])
  }

  /** Original indices strictly increase along the sequence. */
  predicate IncreasingOrigin<R>(p: seq<Indexed<R>>)
  {
    forall i, j :: 0 <= i < j < |p| ==> p[i].originalIndex < p[j].originalIndex
  }

  /** Each entry of the filter stage is a row the filter accepts, at its original index. */
  lemma {:induction false} KeptEntries<R>(rows: seq<R>, filter: Option<(R, int) -> bool>, n: nat)
    requires n <= |rows|
    ensures forall k :: 0 <= k < |Kept(rows, filter, n)| ==>
      var e := Kept(rows, filter, n)[k];
      0 <= e.originalIndex < n && e.row == rows[e.originalIndex] && Keeps(filter, rows[e.originalIndex], e.originalIndex)
  {
    if n > 0 {
      KeptEntries(rows, filter, n - 1);
    }
  }

  /** The filter stage keeps the caller's order. */
  lemma {:induction false} KeptIncreasing<R>(rows: seq<R>, filter: Option<(R, int) -> bool>, n: nat)
    requires n <= |rows|
    ensures IncreasingOrigin(Kept(rows, filter, n))
  {
    if n > 0 {
      KeptIncreasing(rows, filter, n - 1);
      KeptEntries(rows, filter, n - 1);
    }
  }

  /** Every row the filter accepts appears in the filter stage. */
  lemma {:induction false} KeptComplete<R>(rows: seq<R>, filter: Option<(R, int) -> bool>, n: nat, i: int)
    requires n <= |rows| && 0 <= i < n && Keeps(filter, rows[i], i)
    ensures exists k :: 0 <= k < |Kept(rows, filter, n)| && Kept(rows, filter, n)[k].originalIndex == i
  {
    var p := Kept(rows, filter, n);
    var q := Kept(rows, filter, n - 1);
    if i < n - 1 {
      KeptComplete(rows, filter, n - 1, i);
      var k :| 0 <= k < |q| && q[k].originalIndex == i;
      assert p[k] == q[k];
    } else {
      assert p[|p| - 1].originalIndex == i;
    }
  }

  /** Without a filter every row is kept, in the caller's order. */
  lemma {:induction false} KeptAll<R>(rows: seq<R>, n: nat)
    requires n <= |rows|
    ensures Kept(rows, None, n) == seq(n, i requires 0 <= i < n => Indexed(i, rows[i]))
  {
    if n > 0 {
      KeptAll(rows, n - 1);
    }
  }

  /** The filter loop. */
  method FilterRows<R>(rows: seq<R>, filter: Option<(R, int) -> bool>) returns (p: seq<Indexed<R>>)
    ensures p == Kept(rows, filter, |rows|)
  {
    if filter.Some? {
      p := [];
      var i := 0;
      while i < |rows|
        invariant 0 <= i <= |rows|
        invariant p == Kept(rows, filter, i)
      {
        if filter.value(rows[i], i) {
          p := p + [Indexed(i, rows[i])];
        }
        i := i + 1;
      }
    } else {
      p := seq(|rows|, i requires 0 <= i < |rows| => Indexed(i, rows[i]));
      KeptAll(rows, |rows|);
    }
  }

  // ----- sort -----

  /** The rows of a pipeline. */
  function RowsOf<R>(p: seq<Indexed<R>>): set<R>
  {
    set k | 0 <= k < |p| :: p[k].row
  }

  /** `a` comes before `b`: it compares lower, or ties and came first in the caller's array. */
  predicate Before<R>(specs: seq<SortSpec<R>>, coll: Collation, a: Indexed<R>, b: Indexed<R>)
  {
    var c := CompareBy(specs, coll, a.row, b.row);
    c < 0.0 || (c == 0.0 && a.originalIndex < b.originalIndex)
  }

  /** Sorted by the comparator, ties in their original order: what a stable sort produces. */
  predicate SortedStable<R>(specs: seq<SortSpec<R>>, coll: Collation, q: seq<Indexed<R>>)
  {
    forall i, j :: 0 <= i < j < |q| ==> Before(specs, coll, q[i], q[j])
  }

  /**
   * For a consistent comparator, an entry that does not compare below the
   * last of a sorted prefix, and came later than all of it, belongs after
   * every entry of that prefix.
   */
  lemma InsertAfterPrefix<R>(specs: seq<SortSpec<R>>, coll: Collation, rs: set<R>,
                             q: seq<Indexed<R>>, x: Indexed<R>, k: int)
    requires Consistent(specs, coll, rs) && SortedStable(specs, coll, q) && 0 <= k <= |q|
    requires x.row in rs && forall j :: 0 <= j < |q| ==> q[j].row in rs && q[j].originalIndex < x.originalIndex
    requires k > 0 ==> CompareBy(specs, coll, x.row, q[k - 1].row) >= 0.0
    ensures forall i :: 0 <= i < k ==> Before(specs, coll, q[i], x)
  {
    if k > 0 {
      var last := q[k - 1];
      assert Sign(CompareBy(specs, coll, last.row, x.row)) == -Sign(CompareBy(specs, coll, x.row, last.row));
      forall i | 0 <= i < k - 1
        ensures Before(specs, coll, q[i], x)
      {
        assert Before(specs, coll, q[i], last);
      }
    }
  }

  /** Inserting `x` after every entry it belongs after, and before every entry that compares above it, keeps a stable order. */
  lemma InsertKeepsSorted<R>(specs: seq<SortSpec<R>>, coll: Collation, q: seq<Indexed<R>>, x: Indexed<R>, k: int)
    requires SortedStable(specs, coll, q) && 0 <= k <= |q|
    requires forall i :: 0 <= i < k ==> Before(specs, coll, q[i], x)
    requires forall j :: k <= j < |q| ==> CompareBy(specs, coll, x.row, q[j].row) < 0.0
    ensures SortedStable(specs, coll, q[..k] + [x] + q[k..])
  {
    var r := q[..k] + [x] + q[k..];
    forall i, j | 0 <= i < j < |r| ensures Before(specs, coll, r[i], r[j]) {
      if j < k {
        assert r[i] == q[i] && r[j] == q[j];
      } else if j == k {
        assert r[i] == q[i] && r[j] == x;
      } else if i == k {
        assert r[i] == x && r[j] == q[j - 1];
      } else if i < k {
        assert r[i] == q[i] && r[j] == q[j - 1];
      } else {
        assert r[i] == q[i - 1] && r[j] == q[j - 1];
      }
    }
  }

  /** The place for `x` in a sorted `q`: after every entry it does not compare below. */
  method InsertionPoint<R>(q: seq<Indexed<R>>, x: Indexed<R>, specs: seq<SortSpec<R>>, coll: Collation) returns (k: int)
    ensures 0 <= k <= |q|
    ensures forall j :: k <= j < |q| ==> CompareBy(specs, coll, x.row, q[j].row) < 0.0
    ensures k > 0 ==> CompareBy(specs, coll, x.row, q[k - 1].row) >= 0.0
  {
    k := |q|;
    while k > 0
      invariant 0 <= k <= |q|
      invariant forall j :: k <= j < |q| ==> CompareBy(specs, coll, x.row, q[j].row) < 0.0
    {
      var c := CompareRows(specs, coll, x.row, q[k - 1].row);
      if c >= 0.0 {
        return;
      }
      k := k - 1;
    }
  }

  /** Entries from `p` before index `i` stay from `p` and precede `p[i..]` when inserted. */
  predicate Placed<R>(p: seq<Indexed<R>>, i: int, q: seq<Indexed<R>>, rs: set<R>, good: bool)
    requires 0 <= i <= |p|
  {
    (forall j :: 0 <= j < |q| ==> q[j].row in rs) &&
    (good ==> forall j, t :: 0 <= j < |q| && i <= t < |p| ==> q[j].originalIndex < p[t].originalIndex)
  }

  /** Inserting the next entry of `p` keeps the entries placed. */
  lemma InsertPlaced<R>(p: seq<Indexed<R>>, i: int, q: seq<Indexed<R>>, rs: set<R>, good: bool, k: int)
    requires 0 <= i < |p| && 0 <= k <= |q| && Placed(p, i, q, rs, good)
    requires p[i].row in rs && (good ==> IncreasingOrigin(p))
    ensures Placed(p, i + 1, q[..k] + [p[i]] + q[k..], rs, good)
  {
    var r := q[..k] + [p[i]] + q[k..];
    forall j | 0 <= j < |r| ensures r[j] == p[i] || exists m :: 0 <= m < |q| && r[j] == q[m] {
      if j < k {
        assert r[j] == q[j];
      } else if k < j {
        assert r[j] == q[j - 1];
      }
    }
  }

  /** Inserting an entry anywhere adds exactly that entry. */
  lemma InsertAddsOne<T>(q: seq<T>, x: T, k: int)
    requires 0 <= k <= |q|
    ensures multiset(q[..k] + [x] + q[k..]) == multiset(q) + multiset{x}
  {
    assert q == q[..k] + q[k..];
  }

  /** What the sort loop keeps after `i` entries of `p`: the entries so far, placed and, for a consistent comparator, sorted. */
  ghost predicate SortedPrefix<R>(p: seq<Indexed<R>>, i: int, q: seq<Indexed<R>>, specs: seq<SortSpec<R>>, coll: Collation)
    requires 0 <= i <= |p|
  {
    var good := IncreasingOrigin(p) && Consistent(specs, coll, RowsOf(p));
    multiset(q) == multiset(p[..i]) && Placed(p, i, q, RowsOf(p), good) && (good ==> SortedStable(specs, coll, q))
  }

  /** Inserting `p[i]` at its insertion point extends the sorted prefix by one entry. */
  lemma SortStep<R>(p: seq<Indexed<R>>, i: int, q: seq<Indexed<R>>, specs: seq<SortSpec<R>>, coll: Collation, k: int)
    requires 0 <= i < |p| && SortedPrefix(p, i, q, specs, coll) && 0 <= k <= |q|
    requires forall j :: k <= j < |q| ==> CompareBy(specs, coll, p[i].row, q[j].row) < 0.0
    requires k > 0 ==> CompareBy(specs, coll, p[i].row, q[k - 1].row) >= 0.0
    ensures SortedPrefix(p, i + 1, q[..k] + [p[i]] + q[k..], specs, coll)
  {
    var rs := RowsOf(p);
    var good := IncreasingOrigin(p) && Consistent(specs, coll, rs);
    var x := p[i];
    assert x.row in rs;
    if good {
      InsertAfterPrefix(specs, coll, rs, q, x, k);
      InsertKeepsSorted(specs, coll, q, x, k);
    }
    InsertPlaced(p, i, q, rs, good, k);
    InsertAddsOne(q, x, k);
    assert p[..i + 1] == p[..i] + [x];
  }

  /** The stable sort (`Array.prototype.sort` on a copy), as insertion into a sorted prefix. */
  method SortRows<R(==)>(p: seq<Indexed<R>>, specs: seq<SortSpec<R>>, coll: Collation) returns (q: seq<Indexed<R>>)
    ensures multiset(q) == multiset(p)
    ensures IncreasingOrigin(p) && Consistent(specs, coll, RowsOf(p)) ==> SortedStable(specs, coll, q)
  {
    q := [];
    var i := 0;
    while i < |p|
      invariant 0 <= i <= |p|
      invariant SortedPrefix(p, i, q, specs, coll)
    {
      var k := InsertionPoint(q, p[i], specs, coll);
      SortStep(p, i, q, specs, coll, k);
      q := q[..k] + [p[i]] + q[k..];
      i := i + 1;
    }
    assert p[..i] == p;
  }

  // ----- id index -----

  /** The id of a pipeline entry: `getId(row, originalIndex)`, or the original index. */
  function IdOf<R>(getId: Option<(R, int) -> RowId>, e: Indexed<R>): RowId
  {
    if getId.Some? then getId.value(e.row, e.originalIndex) else IdNum(e.originalIndex as real)
  }

  /** The map the id loop builds: each id to the last virtual index that carries it. */
  function IndexMap(ids: seq<RowId>): map<RowId, int>
  {
    if |ids| == 0 then map[] else IndexMap(ids[..|ids| - 1])[ids[|ids| - 1] := |ids| - 1]
  }

  /** An id is indexed exactly when it occurs, and then at its last occurrence. */
  lemma {:induction false} IndexMapLast(ids: seq<RowId>, id: RowId)
    ensures id in IndexMap(ids) <==> id in ids
    ensures id in IndexMap(ids) ==>
      var v := IndexMap(ids)[id];
      0 <= v < |ids| && ids[v] == id && forall k :: v < k < |ids| ==> ids[k] != id
  {
    if |ids| > 0 {
      var init := ids[..|ids| - 1];
      IndexMapLast(init, id);
      assert ids == init + [ids[|ids| - 1]];
    }
  }

  /** With unique ids, looking up the id at virtual index `v` gives `v` back. */
  lemma UniqueIdsRoundTrip(ids: seq<RowId>, v: int)
    requires forall i, j :: 0 <= i < j < |ids| ==> ids[i] != ids[j]
    requires 0 <= v < |ids|
    ensures ids[v] in IndexMap(ids) && IndexMap(ids)[ids[v]] == v
  {
    IndexMapLast(ids, ids[v]);
  }

  /** The id loop: one id per pipeline entry, and the reverse map. */
  method BuildIndex<R>(p: seq<Indexed<R>>, getId: Option<(R, int) -> RowId>)
    returns (ids: seq<RowId>, index: map<RowId, int>)
    ensures |ids| == |p| && forall k :: 0 <= k < |p| ==> ids[k] == IdOf(getId, p[k])
    ensures index == IndexMap(ids)
  {
    ids := [];
    index := map[];
    var vi := 0;
    while vi < |p|
      invariant 0 <= vi <= |p| && |ids| == vi
      invariant forall k :: 0 <= k < vi ==> ids[k] == IdOf(getId, p[k])
      invariant index == IndexMap(ids)
    {
      var id := IdOf(getId, p[vi]);
      ghost var before := ids;
      ids := ids + [id];
      assert ids[..|ids| - 1] == before;
      index := index[id := vi];
      vi := vi + 1;
    }
  }

  // ----- the model -----

  /** `createClientRowModel`: the pipeline, its ids and the reverse index, fixed at creation. */
  class RowModel<R(==)> {
    const rows: seq<R>
    const pipeline: seq<Indexed<R>>
    const rowIds: seq<RowId>
    const idToVirtual: map<RowId, int>
    const rowCount: int

    /** Filter, then sort when there are specifications, then index. */
    constructor (rows: seq<R>, getId: Option<(R, int) -> RowId>, sort: seq<SortSpec<R>>, coll: Collation,
                 filter: Option<(R, int) -> bool>)
      ensures this.rows == rows && rowCount == |pipeline| == |rowIds|
      ensures |sort| == 0 ==> pipeline == Kept(rows, filter, |rows|)
      ensures multiset(pipeline) == multiset(Kept(rows, filter, |rows|))
      ensures Consistent(sort, coll, RowsOf(Kept(rows, filter, |rows|))) ==> SortedStable(sort, coll, pipeline)
      ensures forall k :: 0 <= k < |pipeline| ==>
        var e := pipeline[k];
        0 <= e.originalIndex < |rows| && e.row == rows[e.originalIndex] && Keeps(filter, e.row, e.originalIndex)
      ensures forall k :: 0 <= k < |pipeline| ==> rowIds[k] == IdOf(getId, pipeline[k])
      ensures idToVirtual == IndexMap(rowIds)
    {
      var p := FilterRows(rows, filter);
      KeptIncreasing(rows, filter, |rows|);
      if |sort| > 0 {
        p := SortRows(p, sort, coll);
      } else {
        assert SortedStable(sort, coll, p);
      }
      KeptEntries(rows, filter, |rows|);
      ghost var kept := Kept(rows, filter, |rows|);
      forall k | 0 <= k < |p|
        ensures 0 <= p[k].originalIndex < |rows| && p[k].row == rows[p[k].originalIndex]
        ensures Keeps(filter, p[k].row, p[k].originalIndex)
      {
        assert p[k] in multiset(kept);
        var t :| 0 <= t < |kept| && kept[t] == p[k];
      }
      var ids, index := BuildIndex(p, getId);
      this.rows := rows;
      pipeline := p;
      rowIds := ids;
      idToVirtual := index;
      rowCount := |p|;
    }

    /** `getRow`: the row at a virtual index, a range error outside `[0, rowCount)`. */
    function GetRow(virtualIndex: int): (r: Result<R, RowModelError>)
      requires rowCount == |pipeline|
      ensures r.Ok? <==> 0 <= virtualIndex < rowCount
      ensures r.Ok? ==> r.value == pipeline[virtualIndex].row
      ensures r.Err? ==> r.error == RangeError(virtualIndex)
    {
      if virtualIndex < 0 || virtualIndex >= rowCount then Err(RangeError(virtualIndex))
      else Ok(pipeline[virtualIndex].row)
    }

    /** `getRowId`: the id at a virtual index, a range error outside `[0, rowCount)`. */
    function GetRowId(virtualIndex: int): (r: Result<RowId, RowModelError>)
      requires rowCount == |rowIds|
      ensures r.Ok? <==> 0 <= virtualIndex < rowCount
      ensures r.Ok? ==> r.value == rowIds[virtualIndex]
      ensures r.Err? ==> r.error == RangeError(virtualIndex)
    {
      if virtualIndex < 0 || virtualIndex >= rowCount then Err(RangeError(virtualIndex))
      else Ok(rowIds[virtualIndex])
    }

    /** `findVirtualIndex`: absent for an id no visible row has, else the last virtual index with it. */
    function FindVirtualIndex(id: RowId): (r: Option<int>)
      requires idToVirtual == IndexMap(rowIds)
      ensures r.Some? <==> id in rowIds
      ensures r.Some? ==> 0 <= r.value < |rowIds| && rowIds[r.value] == id &&
                          forall k :: r.value < k < |rowIds| ==> rowIds[k] != id
    {
      IndexMapLast(rowIds, id);
      if id in idToVirtual then Some(idToVirtual[id]) else None
    }
  }
}
