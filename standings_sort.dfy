/**
 * The points-table ordering of the match centre: the column comparator of
 * `getSortedStandings` and the stable sort it is handed to.
 *
 * The built-in `Array.prototype.sort` is stable, so its result is fixed by
 * three facts: it is a permutation of the input, it is ordered by the
 * comparator, and rows the comparator ties keep their relative order. The
 * sort is modelled as a stable insertion sort and those three facts are
 * proved about it.
 */
module StandingsSort {
  import opened Wrappers
  import opened Types

  /** The columns of the points table, one per property of a row. */
  datatype SortKey = Rank | Team | Played | Won | Lost | Points | Nrr

  datatype Direction = Asc | Desc

  /** The `sortConfig` state: the column and the direction. */
  datatype SortConfig = SortConfig(key: SortKey, direction: Direction)

  /** The value a row holds in a column: a JSON number or a string. */
  datatype KeyValue = Num(n: int) | Text(s: string)

  /** `row[key]`. */
  function Field(key: SortKey, row: TeamStanding): KeyValue {
    match key
    case Rank => Num(row.rank)
    case Team => Text(row.team)
    case Played => Num(row.played)
    case Won => Num(row.won)
    case Lost => Num(row.lost)
    case Points => Num(row.points)
    case Nrr => Text(row.nrr)
  }

  /** Every value of one column is of the same kind. */
  predicate SameKind(x: KeyValue, y: KeyValue) {
    x.Num? == y.Num?
  }

  lemma FieldsSameKind(key: SortKey, a: TeamStanding, b: TeamStanding)
    ensures SameKind(Field(key, a), Field(key, b))
  {
  }

  // ---------------------------------------------------------------------
  // The relational operator `<`
  // ---------------------------------------------------------------------

  /**
   * `a < b` on two strings: the first differing character decides, and a
   * proper prefix comes first. Characters compare by their code.
   */
  predicate StrLess(a: string, b: string)
    ensures StrLess(a, b) ==> a != b
    ensures |a| < |b| && a == b[..|a|] ==> StrLess(a, b)
    decreases |a|
  {
    if a == [] then b != []
    else if b == [] then false
    else if a[0] != b[0] then a[0] < b[0]
    else StrLess(a[1..], b[1..])
  }

  lemma {:induction false} StrLessIrreflexive(a: string)
    ensures !StrLess(a, a)
    decreases |a|
  {
    if a != [] {
      StrLessIrreflexive(a[1..]);
    }
  }

  lemma {:induction false} StrLessTransitive(a: string, b: string, c: string)
    requires StrLess(a, b) && StrLess(b, c)
    ensures StrLess(a, c)
    decreases |a|
  {
    if a != [] && a[0] == b[0] && b[0] == c[0] {
      StrLessTransitive(a[1..], b[1..], c[1..]);
    }
  }

  lemma {:induction false} StrLessTotal(a: string, b: string)
    ensures a == b || StrLess(a, b) || StrLess(b, a)
    decreases |a|
  {
    if a != [] && b != [] && a[0] == b[0] {
      StrLessTotal(a[1..], b[1..]);
      if a[1..] == b[1..] {
        assert a == [a[0]] + a[1..] && b == [b[0]] + b[1..];
      }
    }
  }

  lemma StrLessAsymmetric(a: string, b: string)
    requires StrLess(a, b)
    ensures !StrLess(b, a)
  {
    if StrLess(b, a) {
      StrLessTransitive(a, b, a);
      StrLessIrreflexive(a);
    }
  }

  /** `x < y` on two values of one column. */
  predicate KeyLess(x: KeyValue, y: KeyValue) {
    match (x, y)
    case (Num(m), Num(n)) => m < n
    case (Text(s), Text(t)) => StrLess(s, t)
    case _ => false
  }

  /** On one column `<` is a strict total order. */
  lemma KeyLessStrictTotal(x: KeyValue, y: KeyValue, z: KeyValue)
    requires SameKind(x, y) && SameKind(y, z)
    ensures !KeyLess(x, x)
    ensures KeyLess(x, y) && KeyLess(y, z) ==> KeyLess(x, z)
    ensures x == y || KeyLess(x, y) || KeyLess(y, x)
  {
    if x.Text? {
      StrLessIrreflexive(x.s);
      StrLessTotal(x.s, y.s);
      if KeyLess(x, y) && KeyLess(y, z) {
        StrLessTransitive(x.s, y.s, z.s);
      }
    }
  }

  /** `<` on one column is asymmetric. */
  lemma KeyLessAsymmetric(x: KeyValue, y: KeyValue)
    requires KeyLess(x, y)
    ensures !KeyLess(y, x)
  {
    if x.Text? && y.Text? {
      StrLessAsymmetric(x.s, y.s);
    }
  }

  /** The net run rate column compares as text: "+10.5" sorts before "+9.0". */
  lemma NrrComparesAsText()
    ensures KeyLess(Text("+10.5"), Text("+9.0"))
    ensures KeyLess(Num(9), Num(10))
  {
  }

  // ---------------------------------------------------------------------
  // The comparator
  // ---------------------------------------------------------------------

  /** The comparator passed to `sort`. */
  function Compare(c: SortConfig, a: TeamStanding, b: TeamStanding): (r: int)
    ensures -1 <= r <= 1
    ensures r < 0 <==> if c.direction == Asc then KeyLess(Field(c.key, a), Field(c.key, b))
                       else KeyLess(Field(c.key, b), Field(c.key, a))
    ensures r > 0 <==> if c.direction == Asc then KeyLess(Field(c.key, b), Field(c.key, a))
                       else KeyLess(Field(c.key, a), Field(c.key, b))
  {
    var x, y := Field(c.key, a), Field(c.key, b);
    if KeyLess(x, y) then
      KeyLessAsymmetric(x, y);
      (if c.direction == Asc then -1 else 1)
    else if KeyLess(y, x) then (if c.direction == Asc then 1 else -1)
    else 0
  }

  /** The comparator ties exactly the rows that are equal in the column. */
  lemma CompareTies(c: SortConfig, a: TeamStanding, b: TeamStanding)
    ensures Compare(c, a, b) == 0 <==> Field(c.key, a) == Field(c.key, b)
  {
    var x, y := Field(c.key, a), Field(c.key, b);
    FieldsSameKind(c.key, a, b);
    KeyLessStrictTotal(x, y, x);
  }

  /** Swapping the arguments negates the comparator. */
  lemma CompareAntisymmetric(c: SortConfig, a: TeamStanding, b: TeamStanding)
    ensures Compare(c, a, b) == -Compare(c, b, a)
  {
    var x, y := Field(c.key, a), Field(c.key, b);
    FieldsSameKind(c.key, a, b);
    KeyLessStrictTotal(x, y, x);
  }

  /** "Not after" is transitive. */
  lemma CompareTransitive(c: SortConfig, a: TeamStanding, b: TeamStanding, d: TeamStanding)
    requires Compare(c, a, b) <= 0 && Compare(c, b, d) <= 0
    ensures Compare(c, a, d) <= 0
  {
    var x, y, z := Field(c.key, a), Field(c.key, b), Field(c.key, d);
    FieldsSameKind(c.key, a, b);
    FieldsSameKind(c.key, b, d);
    if c.direction == Asc {
      // x <= y <= z
      KeyLessStrictTotal(x, y, z);
      KeyLessStrictTotal(y, z, x);
      KeyLessStrictTotal(z, x, y);
    } else {
      // z <= y <= x
      KeyLessStrictTotal(z, y, x);
      KeyLessStrictTotal(y, x, z);
      KeyLessStrictTotal(x, z, y);
    }
  }

  /** Under `asc` a row not after another holds no greater value. */
  lemma AscendingNotAfter(c: SortConfig, a: TeamStanding, b: TeamStanding)
    requires c.direction == Asc && Compare(c, a, b) <= 0
    ensures !KeyLess(Field(c.key, b), Field(c.key, a))
  {
    FieldsSameKind(c.key, a, b);
    KeyLessStrictTotal(Field(c.key, a), Field(c.key, b), Field(c.key, a));
  }

  /** Under `desc` a row not after another holds no smaller value. */
  lemma DescendingNotAfter(c: SortConfig, a: TeamStanding, b: TeamStanding)
    requires c.direction == Desc && Compare(c, a, b) <= 0
    ensures !KeyLess(Field(c.key, a), Field(c.key, b))
  {
    FieldsSameKind(c.key, a, b);
    KeyLessStrictTotal(Field(c.key, a), Field(c.key, b), Field(c.key, a));
  }

  // ---------------------------------------------------------------------
  // The stable sort
  // ---------------------------------------------------------------------

  predicate Sorted(c: SortConfig, s: seq<TeamStanding>) {
    forall i, j :: 0 <= i < j < |s| ==> Compare(c, s[i], s[j]) <= 0
  }

  /** Inserts `x` before the first row of `t` that it does not come after. */
  function Insert(c: SortConfig, x: TeamStanding, t: seq<TeamStanding>): (r: seq<TeamStanding>)
    ensures |r| == |t| + 1
  {
    if t == [] then [x]
    else if Compare(c, x, t[0]) <= 0 then [x] + t
    else [t[0]] + Insert(c, x, t[1..])
  }

  /** Insertion adds `x` and nothing else. */
  lemma {:induction false} InsertPermutes(c: SortConfig, x: TeamStanding, t: seq<TeamStanding>)
    ensures multiset(Insert(c, x, t)) == multiset(t) + multiset{x}
    decreases |t|
  {
    if t != [] && Compare(c, x, t[0]) > 0 {
      InsertPermutes(c, x, t[1..]);
      assert t == [t[0]] + t[1..];
    }
  }

  /** A row not after any row of a sorted sequence can head it. */
  lemma SortedCons(c: SortConfig, h: TeamStanding, s: seq<TeamStanding>)
    requires Sorted(c, s)
    requires forall j :: 0 <= j < |s| ==> Compare(c, h, s[j]) <= 0
    ensures Sorted(c, [h] + s)
  {
    var r := [h] + s;
    forall i, j | 0 <= i < j < |r|
      ensures Compare(c, r[i], r[j]) <= 0
    {
      assert r[j] == s[j - 1];
      if i > 0 {
        assert r[i] == s[i - 1];
      }
    }
  }

  /** A row not after `x` and not after any row of `t` is not after any row of `Insert(c, x, t)`. */
  lemma {:induction false} InsertBounded(c: SortConfig, b: TeamStanding, x: TeamStanding, t: seq<TeamStanding>)
    requires Compare(c, b, x) <= 0
    requires forall k :: 0 <= k < |t| ==> Compare(c, b, t[k]) <= 0
    ensures forall j :: 0 <= j < |Insert(c, x, t)| ==> Compare(c, b, Insert(c, x, t)[j]) <= 0
    decreases |t|
  {
    if t != [] && Compare(c, x, t[0]) > 0 {
      var u := t[1..];
      forall k | 0 <= k < |u|
        ensures Compare(c, b, u[k]) <= 0
      {
        assert u[k] == t[k + 1];
      }
      InsertBounded(c, b, x, u);
      var r := Insert(c, x, t);
      assert r == [t[0]] + Insert(c, x, u);
      forall j | 0 < j < |r|
        ensures Compare(c, b, r[j]) <= 0
      {
        assert r[j] == Insert(c, x, u)[j - 1];
      }
    }
  }

  lemma {:induction false} InsertSorted(c: SortConfig, x: TeamStanding, t: seq<TeamStanding>)
    requires Sorted(c, t)
    ensures Sorted(c, Insert(c, x, t))
    decreases |t|
  {
    if t == [] {
    } else if Compare(c, x, t[0]) <= 0 {
      forall j | 0 <= j < |t|
        ensures Compare(c, x, t[j]) <= 0
      {
        if j > 0 {
          CompareTransitive(c, x, t[0], t[j]);
        }
      }
      SortedCons(c, x, t);
    } else {
      var u := t[1..];
      assert Sorted(c, u) by {
        forall i, j | 0 <= i < j < |u|
          ensures Compare(c, u[i], u[j]) <= 0
        {
          assert u[i] == t[i + 1] && u[j] == t[j + 1];
        }
      }
      InsertSorted(c, x, u);
      CompareAntisymmetric(c, x, t[0]);
      forall k | 0 <= k < |u|
        ensures Compare(c, t[0], u[k]) <= 0
      {
        assert u[k] == t[k + 1];
      }
      InsertBounded(c, t[0], x, u);
      SortedCons(c, t[0], Insert(c, x, u));
    }
  }

  /** `[...standings].sort(comparator)` for a stable sort. */
  function SortStandings(c: SortConfig, s: seq<TeamStanding>): (r: seq<TeamStanding>)
    ensures multiset(r) == multiset(s)
    ensures Sorted(c, r)
  {
    if s == [] then []
    else
      var rest := SortStandings(c, s[1..]);
      InsertSorted(c, s[0], rest);
      InsertPermutes(c, s[0], rest);
      assert s == [s[0]] + s[1..];
      Insert(c, s[0], rest)
  }

  /** The rows of `s` holding `v` in column `key`, in their order in `s`. */
  function Ties(key: SortKey, s: seq<TeamStanding>, v: KeyValue): (r: seq<TeamStanding>)
  {
    if s == [] then []
    else (if Field(key, s[0]) == v then [s[0]] else []) + Ties(key, s[1..], v)
  }

  lemma TiesCons(key: SortKey, x: TeamStanding, s: seq<TeamStanding>, v: KeyValue)
    ensures Ties(key, [x] + s, v) == (if Field(key, x) == v then [x] else []) + Ties(key, s, v)
  {
    assert ([x] + s)[1..] == s;
  }

  /** Inserting a row keeps the order of the rows of each column value as if it were put first. */
  lemma {:induction false} InsertTies(c: SortConfig, x: TeamStanding, t: seq<TeamStanding>, v: KeyValue)
    ensures Ties(c.key, Insert(c, x, t), v) == Ties(c.key, [x] + t, v)
    decreases |t|
  {
    if t != [] && Compare(c, x, t[0]) > 0 {
      var u := t[1..];
      var k := c.key;
      InsertTies(c, x, u, v);
      CompareTies(c, x, t[0]);
      var tx := if Field(k, x) == v then [x] else [];
      var th := if Field(k, t[0]) == v then [t[0]] else [];
      assert tx == [] || th == [];
      assert t == [t[0]] + u;
      calc {
        Ties(k, Insert(c, x, t), v);
        { assert Insert(c, x, t) == [t[0]] + Insert(c, x, u); TiesCons(k, t[0], Insert(c, x, u), v); }
        th + Ties(k, Insert(c, x, u), v);
        th + Ties(k, [x] + u, v);
        { TiesCons(k, x, u, v); }
        th + (tx + Ties(k, u, v));
        tx + (th + Ties(k, u, v));
        { TiesCons(k, t[0], u, v); }
        tx + Ties(k, t, v);
        { TiesCons(k, x, t, v); }
        Ties(k, [x] + t, v);
      }
    }
  }

  /**
   * Stability: for every value of the sort column, the rows holding it come
   * out in the order they went in.
   */
  lemma {:induction false} SortStable(c: SortConfig, s: seq<TeamStanding>, v: KeyValue)
    ensures Ties(c.key, SortStandings(c, s), v) == Ties(c.key, s, v)
    decreases |s|
  {
    if s != [] {
      var rest := SortStandings(c, s[1..]);
      SortStable(c, s[1..], v);
      InsertTies(c, s[0], rest, v);
      assert ([s[0]] + rest)[1..] == rest;
    }
  }

  /** Ascending: no row is followed by a row with a smaller value in the column. */
  lemma SortedAscending(c: SortConfig, s: seq<TeamStanding>, i: int, j: int)
    requires c.direction == Asc && 0 <= i < j < |SortStandings(c, s)|
    ensures var r := SortStandings(c, s); !KeyLess(Field(c.key, r[j]), Field(c.key, r[i]))
  {
    var r := SortStandings(c, s);
    SortedPair(c, r, i, j);
    AscendingNotAfter(c, r[i], r[j]);
  }

  /** Descending: no row is followed by a row with a greater value in the column. */
  lemma SortedDescending(c: SortConfig, s: seq<TeamStanding>, i: int, j: int)
    requires c.direction == Desc && 0 <= i < j < |SortStandings(c, s)|
    ensures var r := SortStandings(c, s); !KeyLess(Field(c.key, r[i]), Field(c.key, r[j]))
  {
    var r := SortStandings(c, s);
    SortedPair(c, r, i, j);
    DescendingNotAfter(c, r[i], r[j]);
  }

  lemma SortedPair(c: SortConfig, r: seq<TeamStanding>, i: int, j: int)
    requires Sorted(c, r) && 0 <= i < j < |r|
    ensures Compare(c, r[i], r[j]) <= 0
  {
  }

  /** `getSortedStandings`: without a configuration the rows as they are, otherwise sorted. */
  function SortedStandings(config: Option<SortConfig>, standings: seq<TeamStanding>): (r: seq<TeamStanding>)
    ensures multiset(r) == multiset(standings)
    ensures config.None? ==> r == standings
    ensures config.Some? ==> Sorted(config.value, r)
  {
    match config
    case None => standings
    case Some(c) => SortStandings(c, standings)
  }
}
