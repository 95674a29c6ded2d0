/**
 * The generic data table: the search filter over every field of a row, the
 * column sort with its comparator, the sort-toggle state, and the text of
 * a cell without a custom renderer.
 *
 * JavaScript's `<` on arbitrary cell values is the parameter `lt`, and how
 * a number prints is the parameter `show`.
 */
module DataTable {
  import opened Common
  import opened Text
  import opened Values

  /** A row: its fields by name. */
  type Row = map<string, JsValue>

  /** `row[key]`: a missing field reads as `undefined`. */
  function Cell(row: Row, key: string): JsValue {
    if key in row then row[key] else Undefined
  }

  /** Some field's lower-cased string form contains the lower-cased term. */
  predicate Matches(row: Row, term: string, show: real -> string) {
    exists k :: k in row && Contains(Lower(ToStr(row[k], show)), Lower(term))
  }

  /** `data.filter(item => ... some(...))`. */
  function Keep(data: seq<Row>, term: string, show: real -> string): (r: seq<Row>)
    ensures |r| <= |data|
    ensures forall row :: row in r <==> row in data && Matches(row, term, show)
  {
    if data == [] then []
    else
      var rest := Keep(data[1..], term, show);
      assert forall row :: row in data <==> row == data[0] || row in data[1..];
      if Matches(data[0], term, show) then [data[0]] + rest else rest
  }

  /** `filteredData`: an empty term shows everything. */
  function FilterRows(data: seq<Row>, term: string, show: real -> string): (r: seq<Row>)
    ensures term == [] ==> r == data
    ensures term != [] ==> forall row :: row in r <==> row in data && Matches(row, term, show)
  {
    if term == [] then data else Keep(data, term, show)
  }

  /**
   * The filter keeps each matching row as often as it occurs and drops every
   * other row.
   */
  lemma {:induction false} KeepCounts(data: seq<Row>, term: string, show: real -> string, x: Row)
    ensures multiset(Keep(data, term, show))[x] == if Matches(x, term, show) then multiset(data)[x] else 0
  {
    if data != [] {
      var rest := Keep(data[1..], term, show);
      KeepCounts(data[1..], term, show, x);
      assert data == [data[0]] + data[1..];
      assert multiset(data) == multiset{data[0]} + multiset(data[1..]);
      if Matches(data[0], term, show) {
        assert Keep(data, term, show) == [data[0]] + rest;
        assert multiset(Keep(data, term, show)) == multiset{data[0]} + multiset(rest);
      } else {
        assert Keep(data, term, show) == rest;
      }
    }
  }

  /** `a` occurs in `b` in order, possibly with gaps. */
  predicate IsSubsequence<T(==)>(a: seq<T>, b: seq<T>)
    decreases |b|
  {
    a == [] || (b != [] && if a[0] == b[0] then IsSubsequence(a[1..], b[1..]) else IsSubsequence(a, b[1..]))
  }

  lemma {:induction false} SubsequenceOfItself<T>(b: seq<T>)
    ensures IsSubsequence(b, b)
    decreases |b|
  {
    if b != [] {
      SubsequenceOfItself(b[1..]);
    }
  }

  /** The kept rows keep their relative order. */
  lemma {:induction false} KeepInOrder(data: seq<Row>, term: string, show: real -> string)
    ensures IsSubsequence(Keep(data, term, show), data)
  {
    if data != [] {
      KeepInOrder(data[1..], term, show);
    }
  }

  /** Filtering with any term returns rows of the data in their original order. */
  lemma FilterInOrder(data: seq<Row>, term: string, show: real -> string)
    ensures IsSubsequence(FilterRows(data, term, show), data)
  {
    if term == [] {
      SubsequenceOfItself(data);
    } else {
      KeepInOrder(data, term, show);
    }
  }

  datatype Direction = Asc | Desc

  /** The sort state; a key of `null` (or the empty key, which is falsy) means unsorted. */
  datatype SortConfig = SortConfig(key: Option<string>, direction: Direction)

  const InitialSort: SortConfig := SortConfig(None, Asc)

  /** The comparator passed to `Array.prototype.sort`. */
  function Compare(a: JsValue, b: JsValue, dir: Direction, lt: (JsValue, JsValue) -> bool): (c: int)
    ensures c in {-1, 0, 1}
    ensures lt(a, b) ==> (c == -1 <==> dir == Asc)
    ensures !lt(a, b) && lt(b, a) ==> (c == 1 <==> dir == Asc) && c != 0
    ensures !lt(a, b) && !lt(b, a) ==> c == 0
  {
    if lt(a, b) then (if dir == Asc then -1 else 1)
    else if lt(b, a) then (if dir == Asc then 1 else -1)
    else 0
  }

  /** Row `x` must come before row `y`: the comparator returns a negative number. */
  predicate Precedes(x: Row, y: Row, key: string, dir: Direction, lt: (JsValue, JsValue) -> bool) {
    Compare(Cell(x, key), Cell(y, key), dir, lt) < 0
  }

  /** `lt` is irreflexive and transitive, so the comparator is consistent. */
  ghost predicate StrictOrder(lt: (JsValue, JsValue) -> bool) {
    && (forall a :: !lt(a, a))
    && (forall a, b, c :: lt(a, b) && lt(b, c) ==> lt(a, c))
  }

  /** No row is preceded by a row after it. */
  predicate SortedBy(s: seq<Row>, key: string, dir: Direction, lt: (JsValue, JsValue) -> bool) {
    forall i, j :: 0 <= i < j < |s| ==> !Precedes(s[j], s[i], key, dir, lt)
  }

  /** Insert `x` after every row it does not precede. */
  function Insert(x: Row, s: seq<Row>, key: string, dir: Direction, lt: (JsValue, JsValue) -> bool): (r: seq<Row>)
    ensures multiset(r) == multiset(s) + multiset{x}
    ensures |r| == |s| + 1
  {
    if s == [] || Precedes(x, s[0], key, dir, lt) then [x] + s
    else
      assert s == [s[0]] + s[1..];
      [s[0]] + Insert(x, s[1..], key, dir, lt)
  }

  /** Stable insertion sort: each row is inserted into the sorted rows before it. */
  function SortRows(s: seq<Row>, key: string, dir: Direction, lt: (JsValue, JsValue) -> bool): (r: seq<Row>)
    ensures multiset(r) == multiset(s)
    ensures |r| == |s|
  {
    if s == [] then []
    else
      assert s == s[..|s| - 1] + [s[|s| - 1]];
      Insert(s[|s| - 1], SortRows(s[..|s| - 1], key, dir, lt), key, dir, lt)
  }

  /** Under a strict order the comparator's "comes first" relation is a strict order too. */
  lemma PrecedesIsStrict(key: string, dir: Direction, lt: (JsValue, JsValue) -> bool, x: Row, y: Row, z: Row)
    requires StrictOrder(lt)
    ensures !Precedes(x, x, key, dir, lt)
    ensures Precedes(x, y, key, dir, lt) && Precedes(y, z, key, dir, lt) ==> Precedes(x, z, key, dir, lt)
  {
    var a, b, c := Cell(x, key), Cell(y, key), Cell(z, key);
    assert !lt(a, a);
    if Precedes(x, y, key, dir, lt) && Precedes(y, z, key, dir, lt) {
      if dir == Asc {
        assert lt(a, b) && lt(b, c);
      } else {
        assert lt(b, a) && lt(c, b);
        assert lt(c, a);
        assert lt(a, c) ==> lt(a, a);
      }
    }
  }

  /** A row that precedes the head of a sorted sequence may go in front of it. */
  lemma PrependSorted(x: Row, s: seq<Row>, key: string, dir: Direction, lt: (JsValue, JsValue) -> bool)
    requires StrictOrder(lt) && SortedBy(s, key, dir, lt)
    requires s == [] || Precedes(x, s[0], key, dir, lt)
    ensures SortedBy([x] + s, key, dir, lt)
  {
    var r := [x] + s;
    forall j | 0 < j < |r|
      ensures !Precedes(r[j], x, key, dir, lt)
    {
      PrecedesIsStrict(key, dir, lt, s[j - 1], x, s[0]);
      PrecedesIsStrict(key, dir, lt, s[0], s[0], s[0]);
    }
  }

  /** A head that no row of the sorted tail precedes may stay in front of it. */
  lemma ConsSorted(y: Row, u: seq<Row>, key: string, dir: Direction, lt: (JsValue, JsValue) -> bool)
    requires SortedBy(u, key, dir, lt)
    requires forall z :: z in u ==> !Precedes(z, y, key, dir, lt)
    ensures SortedBy([y] + u, key, dir, lt)
  {
    var r := [y] + u;
    forall i, j | 0 <= i < j < |r|
      ensures !Precedes(r[j], r[i], key, dir, lt)
    {
      assert r[j] == u[j - 1];
      if i > 0 {
        assert r[i] == u[i - 1];
      }
    }
  }

  lemma {:induction false} InsertSorted(x: Row, s: seq<Row>, key: string, dir: Direction, lt: (JsValue, JsValue) -> bool)
    requires StrictOrder(lt) && SortedBy(s, key, dir, lt)
    ensures SortedBy(Insert(x, s, key, dir, lt), key, dir, lt)
  {
    if s == [] || Precedes(x, s[0], key, dir, lt) {
      PrependSorted(x, s, key, dir, lt);
    } else {
      var t := s[1..];
      assert SortedBy(t, key, dir, lt);
      InsertSorted(x, t, key, dir, lt);
      var u := Insert(x, t, key, dir, lt);
      forall z | z in u
        ensures !Precedes(z, s[0], key, dir, lt)
      {
        assert z in multiset(u);
        if z != x {
          assert z in multiset(t);
          var k :| 0 <= k < |t| && t[k] == z;
          assert s[k + 1] == z;
        }
      }
      ConsSorted(s[0], u, key, dir, lt);
    }
  }

  /** The sorted rows are in comparator order. */
  lemma {:induction false} SortSorted(s: seq<Row>, key: string, dir: Direction, lt: (JsValue, JsValue) -> bool)
    requires StrictOrder(lt)
    ensures SortedBy(SortRows(s, key, dir, lt), key, dir, lt)
  {
    if s != [] {
      SortSorted(s[..|s| - 1], key, dir, lt);
      InsertSorted(s[|s| - 1], SortRows(s[..|s| - 1], key, dir, lt), key, dir, lt);
    }
  }

  /** `sortedData`: the filtered rows as they are without a key, else a sorted copy. */
  function SortedData(filtered: seq<Row>, config: SortConfig, lt: (JsValue, JsValue) -> bool): (r: seq<Row>)
    ensures config.key.None? || config.key == Some("") ==> r == filtered
    ensures multiset(r) == multiset(filtered)
  {
    match config.key
    case None => filtered
    case Some(key) => if key == "" then filtered else SortRows(filtered, key, config.direction, lt)
  }

  /**
   * With a key and a consistent `<`, ascending order never puts a smaller
   * value after a larger one, and descending order never puts a larger one
   * after a smaller one.
   */
  lemma SortedDataOrdered(filtered: seq<Row>, config: SortConfig, lt: (JsValue, JsValue) -> bool)
    requires StrictOrder(lt) && config.key.Some? && config.key.value != ""
    ensures var r, key := SortedData(filtered, config, lt), config.key.value;
      forall i, j :: 0 <= i < j < |r| ==>
        if config.direction == Asc then !lt(Cell(r[j], key), Cell(r[i], key))
        else !lt(Cell(r[i], key), Cell(r[j], key))
  {
    var r, key := SortedData(filtered, config, lt), config.key.value;
    SortSorted(filtered, key, config.direction, lt);
    forall i, j | 0 <= i < j < |r|
      ensures if config.direction == Asc then !lt(Cell(r[j], key), Cell(r[i], key))
        else !lt(Cell(r[i], key), Cell(r[j], key))
    {
      assert !Precedes(r[j], r[i], key, config.direction, lt);
    }
  }

  /** `handleSort(key)`: the clicked column becomes the key; a second click on it flips asc to desc. */
  function HandleSort(config: SortConfig, key: string): (r: SortConfig)
    ensures r.key == Some(key)
    ensures r.direction == Desc <==> config.key == Some(key) && config.direction == Asc
  {
    SortConfig(Some(key), if config.key == Some(key) && config.direction == Asc then Desc else Asc)
  }

  /** Two clicks on the sorted column bring the sort back to where it was. */
  lemma HandleSortTwice(config: SortConfig, key: string)
    requires config.key == Some(key)
    ensures HandleSort(HandleSort(config, key), key) == config
  {
  }

  /** `String(row[key] || '-')`: a falsy value, 0 and `''` included, shows as a dash. */
  function CellText(row: Row, key: string, show: real -> string): (r: string)
    ensures Truthy(Cell(row, key)) ==> r == ToStr(Cell(row, key), show)
    ensures !Truthy(Cell(row, key)) ==> r == "-"
  {
    ToStr(Or(Cell(row, key), Str("-")), show)
  }

  /**
   * The search looks at the same text a plain cell shows: a row whose
   * truthy cell displays the term, in any letter case, survives the filter.
   */
  lemma CellTextFound(data: seq<Row>, term: string, show: real -> string, row: Row, key: string)
    requires row in data && key in row && term != []
    requires Truthy(Cell(row, key))
    requires Contains(Lower(CellText(row, key, show)), Lower(term))
    ensures row in FilterRows(data, term, show)
  {
    assert Contains(Lower(ToStr(row[key], show)), Lower(term));
    assert Matches(row, term, show);
  }
}
