/**
 * The order in which a day's tasks are listed and exported: Array `sort`
 * with the comparator `(a, b) => timeB - timeA`. The ECMAScript sort is
 * stable, so this is the stable sort by descending normalized time.
 */
module Display {
  import opened Ledger

  /** The comparator's key: the normalized time of an entry. */
  function Time(x: (string, Raw)): int { Normalize(x.1).time }

  /** Each entry takes at least as long as the next one. */
  predicate SortedDesc(s: Ledger)
  {
    |s| <= 1 || (Time(s[0]) >= Time(s[1]) && SortedDesc(s[1..]))
  }

  /** Descending from one entry to the next is descending between any two. */
  lemma {:induction false} SortedDescPairwise(s: Ledger)
    ensures SortedDesc(s) <==> forall i, j :: 0 <= i < j < |s| ==> Time(s[i]) >= Time(s[j])
  {
    if |s| > 1 {
      var t := s[1..];
      SortedDescPairwise(t);
      if SortedDesc(s) {
        forall i, j | 0 <= i < j < |s| ensures Time(s[i]) >= Time(s[j]) {
          assert s[j] == t[j - 1];
          if i > 0 {
            assert s[i] == t[i - 1];
          } else if j > 1 {
            assert Time(t[0]) >= Time(t[j - 1]);
          }
        }
      }
      if forall i, j :: 0 <= i < j < |s| ==> Time(s[i]) >= Time(s[j]) {
        forall i, j | 0 <= i < j < |t| ensures Time(t[i]) >= Time(t[j]) {
          assert t[i] == s[i + 1] && t[j] == s[j + 1];
        }
      }
    }
  }

  /** The entries with time `t`, in their order. */
  function WithTime(s: Ledger, t: int): Ledger
  {
    if s == [] then [] else (if Time(s[0]) == t then [s[0]] else []) + WithTime(s[1..], t)
  }

  /** Puts `x` in front of the first entry that does not take longer. */
  function Insert(x: (string, Raw), s: Ledger): (r: Ledger)
    requires SortedDesc(s)
    ensures SortedDesc(r)
    ensures multiset(r) == multiset(s) + multiset{x}
    ensures |r| == |s| + 1 && (r[0] == x || (s != [] && r[0] == s[0]))
  {
    if s == [] then [x]
    else if Time(s[0]) <= Time(x) then
      assert ([x] + s)[1..] == s;
      [x] + s
    else
      var rest := Insert(x, s[1..]);
      var r := [s[0]] + rest;
      assert r[1..] == rest;
      ConsMultiset(s);
      r
  }

  /** The list order: stable by descending time. */
  function SortByTime(l: Ledger): (r: Ledger)
    ensures SortedDesc(r)
    ensures multiset(r) == multiset(l) && |r| == |l|
  {
    if l == [] then []
    else
      var sorted := SortByTime(l[1..]);
      ConsMultiset(l);
      Insert(l[0], sorted)
  }

  lemma ConsMultiset(l: Ledger)
    requires l != []
    ensures multiset(l) == multiset(l[1..]) + multiset{l[0]}
  {
    assert l == [l[0]] + l[1..];
  }

  lemma WithTimeCons(x: (string, Raw), s: Ledger, t: int)
    ensures WithTime([x] + s, t) == (if Time(x) == t then [x] else []) + WithTime(s, t)
  {
    assert ([x] + s)[1..] == s;
  }

  /** Inserting `x` leaves the order among the entries of any one time as it was, `x` first among its own. */
  lemma {:induction false} InsertWithTime(x: (string, Raw), s: Ledger, t: int)
    requires SortedDesc(s)
    ensures WithTime(Insert(x, s), t) == (if Time(x) == t then [x] else []) + WithTime(s, t)
  {
    if s == [] {
      WithTimeCons(x, [], t);
    } else if Time(s[0]) <= Time(x) {
      WithTimeCons(x, s, t);
    } else {
      var rest := Insert(x, s[1..]);
      assert Insert(x, s) == [s[0]] + rest;
      InsertWithTime(x, s[1..], t);
      PassedWithTime(x, s, rest, t);
    }
  }

  /** Passing over a longer head: its entry stays in front of `x`'s, which can only be of another time. */
  lemma PassedWithTime(x: (string, Raw), s: Ledger, rest: Ledger, t: int)
    requires s != [] && Time(s[0]) > Time(x)
    requires WithTime(rest, t) == (if Time(x) == t then [x] else []) + WithTime(s[1..], t)
    ensures WithTime([s[0]] + rest, t) == (if Time(x) == t then [x] else []) + WithTime(s, t)
  {
    WithTimeCons(s[0], rest, t);
    WithTimeCons(s[0], s[1..], t);
    assert s == [s[0]] + s[1..];
  }

  /** Stability: tasks with equal times keep their ledger order. */
  lemma {:induction false} SortStable(l: Ledger, t: int)
    ensures WithTime(SortByTime(l), t) == WithTime(l, t)
  {
    if l != [] {
      SortStable(l[1..], t);
      InsertWithTime(l[0], SortByTime(l[1..]), t);
    }
  }

  /** A ledger already in descending order is listed as it is. */
  lemma {:induction false} SortSorted(l: Ledger)
    requires SortedDesc(l)
    ensures SortByTime(l) == l
  {
    if l != [] {
      SortSorted(l[1..]);
      assert SortByTime(l) == Insert(l[0], l[1..]);
      if |l| > 1 {
        assert Time(l[1..][0]) <= Time(l[0]);
        assert Insert(l[0], l[1..]) == [l[0]] + l[1..];
      }
      assert l == [l[0]] + l[1..];
    }
  }

  /** Only the times decide the order, so every task of the ledger is listed. */
  lemma SortKeepsTasks(l: Ledger, x: (string, Raw))
    ensures x in SortByTime(l) <==> x in l
  {
    assert x in SortByTime(l) <==> x in multiset(SortByTime(l));
    assert x in l <==> x in multiset(l);
  }

  /** Three tasks, the two longest of equal length: those two keep their order, ahead of the shorter. */
  lemma SortExample(a: string, b: string, c: string)
    ensures
      var x, y, z := (a, Legacy(500)), (b, Obj(Entry(1500, []))), (c, Legacy(1500));
      SortByTime([x, y, z]) == [y, z, x]
  {
    var x, y, z := (a, Legacy(500)), (b, Obj(Entry(1500, []))), (c, Legacy(1500));
    assert [x, y, z][1..] == [y, z];
    assert [y, z][1..] == [z];
    assert SortByTime([z]) == [z];
    assert SortByTime([y, z]) == [y, z];
  }
}
