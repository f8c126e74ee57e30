/**
 * What the database does with a finished query, done here on an in-memory table:
 * keep the rows a predicate admits, order them by name, cut a page.
 */
module Rows {
  import opened Organization

  /** The rows of `table` that `p` admits, in table order. */
  function Filter<T(!new)>(table: seq<T>, p: T -> bool): (r: seq<T>)
    ensures |r| <= |table|
    ensures forall x :: x in r <==> x in table && p(x)
    ensures multiset(r) <= multiset(table)
  {
    if table == [] then []
    else
      var rest := Filter(table[1..], p);
      assert table == [table[0]] + table[1..];
      if p(table[0]) then [table[0]] + rest else rest
  }

  /** Filtering keeps every copy of an admitted row and no copy of any other. */
  lemma {:induction false} FilterCount<T(!new)>(table: seq<T>, p: T -> bool, x: T)
    ensures multiset(Filter(table, p))[x] == if p(x) then multiset(table)[x] else 0
  {
    if table != [] {
      assert table == [table[0]] + table[1..];
      FilterCount(table[1..], p, x);
    }
  }

  /** Filtering keeps table order: it distributes over concatenation, and a single row is
      kept or dropped according to `p`. */
  lemma {:induction false} FilterConcat<T(!new)>(a: seq<T>, b: seq<T>, p: T -> bool)
    ensures Filter(a + b, p) == Filter(a, p) + Filter(b, p)
  {
    if a == [] {
      assert a + b == b;
    } else {
      var ab := a + b;
      assert ab[0] == a[0];
      assert ab[1..] == a[1..] + b;
      FilterConcat(a[1..], b, p);
    }
  }

  /** Filtering with two predicates that agree on every row gives the same rows. */
  lemma {:induction false} FilterAgrees<T(!new)>(table: seq<T>, p: T -> bool, q: T -> bool)
    requires forall x :: p(x) == q(x)
    ensures Filter(table, p) == Filter(table, q)
  {
    if table != [] {
      FilterAgrees(table[1..], p, q);
    }
  }

  /** `ORDER BY name ASC`, with names compared character by character. */
  predicate NameLe(a: string, b: string) {
    if a == [] then true
    else if b == [] then false
    else if a[0] != b[0] then a[0] < b[0]
    else NameLe(a[1..], b[1..])
  }

  lemma {:induction false} NameLeTotal(a: string, b: string)
    ensures NameLe(a, b) || NameLe(b, a)
  {
    if a != [] && b != [] && a[0] == b[0] {
      NameLeTotal(a[1..], b[1..]);
    }
  }

  lemma {:induction false} NameLeTransitive(a: string, b: string, c: string)
    requires NameLe(a, b) && NameLe(b, c)
    ensures NameLe(a, c)
  {
    if a != [] && b != [] && c != [] && a[0] == b[0] && b[0] == c[0] {
      NameLeTransitive(a[1..], b[1..], c[1..]);
    }
  }

  predicate SortedByName(s: seq<Employee>) {
    forall i, j :: 0 <= i < j < |s| ==> NameLe(s[i].name, s[j].name)
  }

  /** A name no greater than every name of a sorted list can go in front of it. */
  lemma SortedCons(e: Employee, s: seq<Employee>)
    requires SortedByName(s)
    requires forall j :: 0 <= j < |s| ==> NameLe(e.name, s[j].name)
    ensures SortedByName([e] + s)
  {
    var r := [e] + s;
    forall i, j | 0 <= i < j < |r| ensures NameLe(r[i].name, r[j].name) {
      if i > 0 {
        assert r[i] == s[i - 1] && r[j] == s[j - 1];
      } else {
        assert r[j] == s[j - 1];
      }
    }
  }

  /** A lower bound of every name in `s` and of `e` bounds every name of a rearrangement of them. */
  lemma LowerBoundCarries(bound: string, e: Employee, s: seq<Employee>, r: seq<Employee>)
    requires NameLe(bound, e.name)
    requires forall j :: 0 <= j < |s| ==> NameLe(bound, s[j].name)
    requires multiset(r) == multiset(s) + multiset{e}
    ensures forall j :: 0 <= j < |r| ==> NameLe(bound, r[j].name)
  {
    forall j | 0 <= j < |r| ensures NameLe(bound, r[j].name) {
      assert r[j] in multiset(r);
      if r[j] != e {
        assert r[j] in multiset(s);
        var k :| 0 <= k < |s| && s[k] == r[j];
      }
    }
  }

  /** Places `e` before the first row whose name is not below it. */
  function InsertByName(e: Employee, s: seq<Employee>): (r: seq<Employee>)
    requires SortedByName(s)
    ensures SortedByName(r)
    ensures multiset(r) == multiset(s) + multiset{e}
  {
    if s == [] then [e]
    else if NameLe(e.name, s[0].name) then
      forall j | 0 <= j < |s| ensures NameLe(e.name, s[j].name) {
        if j > 0 { NameLeTransitive(e.name, s[0].name, s[j].name); }
      }
      SortedCons(e, s);
      [e] + s
    else
      NameLeTotal(e.name, s[0].name);
      var rest := InsertByName(e, s[1..]);
      assert s == [s[0]] + s[1..];
      forall j | 0 <= j < |s[1..]| ensures NameLe(s[0].name, s[1..][j].name) {
        assert s[1..][j] == s[j + 1];
      }
      LowerBoundCarries(s[0].name, e, s[1..], rest);
      SortedCons(s[0], rest);
      [s[0]] + rest
  }

  /** The rows of `s` ordered by name; rows with equal names keep table order, which the ensures do not state. */
  function SortByName(s: seq<Employee>): (r: seq<Employee>)
    ensures SortedByName(r)
    ensures multiset(r) == multiset(s)
  {
    if s == [] then []
    else
      assert s == [s[0]] + s[1..];
      InsertByName(s[0], SortByName(s[1..]))
  }

  /** `->skip(skip)->take(take)` on an ordered result. */
  function Page(s: seq<Employee>, skip: nat, take: nat): (r: seq<Employee>)
    ensures |r| <= take
    ensures skip >= |s| ==> r == []
    ensures skip + take <= |s| ==> |r| == take
    ensures |r| == if skip >= |s| then 0 else if take < |s| - skip then take else |s| - skip
    ensures forall i :: 0 <= i < |r| ==> skip + i < |s| && r[i] == s[skip + i]
  {
    var from := if skip < |s| then skip else |s|;
    var to := if skip + take < |s| then skip + take else |s|;
    s[from..to]
  }

  /** A page of a name-ordered result is itself name-ordered and holds only rows of the result. */
  lemma PageOfSorted(s: seq<Employee>, skip: nat, take: nat)
    requires SortedByName(s)
    ensures SortedByName(Page(s, skip, take))
    ensures forall e :: e in Page(s, skip, take) ==> e in s
  {
    var r := Page(s, skip, take);
    forall i, j | 0 <= i < j < |r| ensures NameLe(r[i].name, r[j].name) {
      assert r[i] == s[skip + i] && r[j] == s[skip + j];
    }
    forall e | e in r ensures e in s {
      var i :| 0 <= i < |r| && r[i] == e;
      assert s[skip + i] == e;
    }
  }

  /** The page of the name-ordered rows is name-ordered and holds only rows taken from `s`. */
  lemma OrderedPage(s: seq<Employee>, skip: nat, take: nat)
    ensures SortedByName(Page(SortByName(s), skip, take))
    ensures forall e :: e in Page(SortByName(s), skip, take) ==> e in s
  {
    var ordered := SortByName(s);
    PageOfSorted(ordered, skip, take);
    forall e | e in Page(ordered, skip, take) ensures e in s {
      assert e in multiset(ordered);
    }
  }

  /** Ordering the selected rows neither adds nor drops any. */
  lemma OrderedSelection(table: seq<Employee>, p: Employee -> bool)
    ensures forall e :: e in SortByName(Filter(table, p)) <==> e in table && p(e)
  {
    var selected := Filter(table, p);
    forall e ensures e in SortByName(selected) <==> e in selected {
      assert e in SortByName(selected) <==> e in multiset(SortByName(selected));
      assert e in selected <==> e in multiset(selected);
    }
  }
}
