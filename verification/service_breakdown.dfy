/** The service breakdown of the statistics panel: an insertion-ordered
    occurrence table (the `serviceCounts` record, read back with
    `Object.entries`) and its stable sort by descending count. */
module ServiceBreakdown {

  import opened Seqs

  datatype ServiceCount = ServiceCount(name: string, count: nat)

  function Keys(table: seq<ServiceCount>): (keys: seq<string>)
    ensures |keys| == |table|
    ensures forall i :: 0 <= i < |table| ==> keys[i] == table[i].name
  {
    seq(|table|, i requires 0 <= i < |table| => table[i].name)
  }

  function SumCounts(table: seq<ServiceCount>): nat
  {
    if table == [] then 0 else table[0].count + SumCounts(table[1..])
  }

  /** Index of the first occurrence of `x` in `s`, or `|s|` when absent. */
  function FirstIndex(s: seq<string>, x: string): (k: nat)
    ensures k <= |s|
    ensures k < |s| <==> x in s
  {
    if s == [] then 0 else if s[0] == x then 0 else 1 + FirstIndex(s[1..], x)
  }

  function KeyIndex(table: seq<ServiceCount>, name: string): (k: nat)
    requires name in Keys(table)
    ensures k < |table| && table[k].name == name
  {
    if table[0].name == name then 0
    else
      assert Keys(table[1..]) == Keys(table)[1..];
      1 + KeyIndex(table[1..], name)
  }

  /** `serviceCounts[name] = (serviceCounts[name] || 0) + 1`: an existing
      entry is incremented in place, a new name is appended with count 1. */
  function Bump(table: seq<ServiceCount>, name: string): (r: seq<ServiceCount>)
    ensures |r| == if name in Keys(table) then |table| else |table| + 1
    ensures forall i :: 0 <= i < |table| ==> r[i].name == table[i].name
    ensures name in Keys(r)
    ensures SumCounts(r) == SumCounts(table) + 1
  {
    if name in Keys(table) then
      var k := KeyIndex(table, name);
      SumCountsUpdate(table, k, ServiceCount(name, table[k].count + 1));
      table[k := ServiceCount(name, table[k].count + 1)]
    else
      SumCountsAppend(table, [ServiceCount(name, 1)]);
      assert SumCounts([ServiceCount(name, 1)]) == 1 by {
        assert [ServiceCount(name, 1)][1..] == [];
      }
      assert Keys(table + [ServiceCount(name, 1)])[|table|] == name;
      table + [ServiceCount(name, 1)]
  }

  /** Each entry's count is the number of occurrences of its name. */
  ghost predicate CountsMatch(table: seq<ServiceCount>, names: seq<string>)
  {
    forall i :: 0 <= i < |table| ==> table[i].count == Occurrences(names, table[i].name)
  }

  /** Entries appear in the order their names first occur. */
  ghost predicate InFirstOccurrenceOrder(table: seq<ServiceCount>, names: seq<string>)
  {
    forall i, j :: 0 <= i < j < |table| ==>
      FirstIndex(names, table[i].name) < FirstIndex(names, table[j].name)
  }

  /** `table` is the occurrence table of `names`: its keys are the distinct
      names in order of first occurrence, each with its number of
      occurrences, and the counts add up to the number of names. */
  ghost predicate IsTallyOf(table: seq<ServiceCount>, names: seq<string>)
  {
    && NoDuplicates(Keys(table))
    && (forall n :: n in Keys(table) <==> n in names)
    && CountsMatch(table, names)
    && InFirstOccurrenceOrder(table, names)
    && SumCounts(table) == |names|
  }

  /** The table built by visiting `names` left to right. */
  function Tally(names: seq<string>): (table: seq<ServiceCount>)
    ensures IsTallyOf(table, names)
  {
    if names == [] then []
    else
      var prefix := names[..|names| - 1];
      var t := Tally(prefix);
      assert names == prefix + [names[|names| - 1]];
      BumpStep(t, prefix, names[|names| - 1]);
      Bump(t, names[|names| - 1])
  }

  lemma {:induction false} SumCountsAppend(a: seq<ServiceCount>, b: seq<ServiceCount>)
    ensures SumCounts(a + b) == SumCounts(a) + SumCounts(b)
    decreases |a|
  {
    if a == [] {
      assert a + b == b;
    } else {
      assert (a + b)[1..] == a[1..] + b;
      SumCountsAppend(a[1..], b);
    }
  }

  lemma {:induction false} SumCountsUpdate(table: seq<ServiceCount>, k: nat, v: ServiceCount)
    requires k < |table|
    ensures SumCounts(table[k := v]) == SumCounts(table) - table[k].count + v.count
  {
    if k == 0 {
      assert table[k := v][1..] == table[1..];
    } else {
      assert table[k := v][1..] == table[1..][k - 1 := v];
      SumCountsUpdate(table[1..], k - 1, v);
    }
  }

  lemma {:induction false} FirstIndexAppend(s: seq<string>, x: string, y: string)
    ensures y in s ==> FirstIndex(s + [x], y) == FirstIndex(s, y)
    ensures y !in s && y == x ==> FirstIndex(s + [x], y) == |s|
  {
    if s != [] {
      assert (s + [x])[1..] == s[1..] + [x];
      FirstIndexAppend(s[1..], x, y);
    } else {
      assert s + [x] == [x];
    }
  }

  lemma OccurrencesSnoc(s: seq<string>, x: string, y: string)
    ensures Occurrences(s + [x], y) == Occurrences(s, y) + (if x == y then 1 else 0)
  {
    OccurrencesAppend(s, [x], y);
  }

  /** Counting one more name keeps the table an occurrence table. */
  lemma BumpStep(table: seq<ServiceCount>, names: seq<string>, x: string)
    requires IsTallyOf(table, names)
    ensures IsTallyOf(Bump(table, x), names + [x])
  {
    if x in Keys(table) {
      BumpPresent(table, names, x);
    } else {
      BumpAbsent(table, names, x);
    }
  }

  lemma BumpUnfold(table: seq<ServiceCount>, x: string)
    ensures x in Keys(table) ==>
      Bump(table, x) == table[KeyIndex(table, x) := ServiceCount(x, table[KeyIndex(table, x)].count + 1)]
    ensures x !in Keys(table) ==> Bump(table, x) == table + [ServiceCount(x, 1)]
  {
    if x in Keys(table) {
      var k := KeyIndex(table, x);
      assert Bump(table, x) == table[k := ServiceCount(x, table[k].count + 1)];
    } else {
      assert Bump(table, x) == table + [ServiceCount(x, 1)];
    }
  }

  /** A name already in the table: its count goes up by one in place. */
  lemma BumpPresent(table: seq<ServiceCount>, names: seq<string>, x: string)
    requires IsTallyOf(table, names)
    requires x in Keys(table)
    ensures IsTallyOf(Bump(table, x), names + [x])
  {
    var k := KeyIndex(table, x);
    var t := table[k := ServiceCount(x, table[k].count + 1)];
    var names' := names + [x];
    assert NoDuplicates(Keys(t)) by {
      assert Keys(t) == Keys(table);
    }
    assert forall n :: n in Keys(t) <==> n in names' by {
      assert Keys(t) == Keys(table);
      assert x in names;
    }
    assert CountsMatch(t, names') by {
      PresentCounts(table, names, x, k);
    }
    assert InFirstOccurrenceOrder(t, names') by {
      forall i | 0 <= i < |table|
        ensures table[i].name in names
      {
        assert Keys(table)[i] == table[i].name;
      }
      PresentOrder(table, names, x, k);
    }
    assert SumCounts(t) == |names'| by {
      SumCountsUpdate(table, k, ServiceCount(x, table[k].count + 1));
    }
    BumpUnfold(table, x);
  }

  lemma PresentCounts(table: seq<ServiceCount>, names: seq<string>, x: string, k: nat)
    requires CountsMatch(table, names) && NoDuplicates(Keys(table))
    requires k < |table| && table[k].name == x
    ensures CountsMatch(table[k := ServiceCount(x, table[k].count + 1)], names + [x])
  {
    var t := table[k := ServiceCount(x, table[k].count + 1)];
    forall i | 0 <= i < |t|
      ensures t[i].count == Occurrences(names + [x], t[i].name)
    {
      OccurrencesSnoc(names, x, t[i].name);
      if i != k {
        assert Keys(table)[i] != Keys(table)[k];
      }
    }
  }

  lemma PresentOrder(table: seq<ServiceCount>, names: seq<string>, x: string, k: nat)
    requires InFirstOccurrenceOrder(table, names)
    requires forall i :: 0 <= i < |table| ==> table[i].name in names
    requires k < |table| && table[k].name == x
    ensures InFirstOccurrenceOrder(table[k := ServiceCount(x, table[k].count + 1)], names + [x])
  {
    var t := table[k := ServiceCount(x, table[k].count + 1)];
    forall i | 0 <= i < |t|
      ensures FirstIndex(names + [x], t[i].name) == FirstIndex(names, table[i].name)
    {
      FirstIndexAppend(names, x, t[i].name);
    }
  }

  /** A new name: appended with count one, after every earlier name. */
  lemma BumpAbsent(table: seq<ServiceCount>, names: seq<string>, x: string)
    requires IsTallyOf(table, names)
    requires x !in Keys(table)
    ensures IsTallyOf(Bump(table, x), names + [x])
  {
    var t := table + [ServiceCount(x, 1)];
    var names' := names + [x];
    assert x !in names;
    assert Keys(t) == Keys(table) + [x];
    forall i | 0 <= i < |table|
      ensures table[i].name in names
    {
      assert Keys(table)[i] == table[i].name;
    }
    assert CountsMatch(t, names') by {
      AbsentCounts(table, names, x);
    }
    assert InFirstOccurrenceOrder(t, names') by {
      AbsentOrder(table, names, x);
    }
    assert SumCounts(t) == |names'| by {
      SumCountsAppend(table, [ServiceCount(x, 1)]);
    }
    BumpUnfold(table, x);
  }

  lemma AbsentCounts(table: seq<ServiceCount>, names: seq<string>, x: string)
    requires CountsMatch(table, names)
    requires x !in names
    requires forall i :: 0 <= i < |table| ==> table[i].name in names
    ensures CountsMatch(table + [ServiceCount(x, 1)], names + [x])
  {
    var t := table + [ServiceCount(x, 1)];
    forall i | 0 <= i < |t|
      ensures t[i].count == Occurrences(names + [x], t[i].name)
    {
      OccurrencesSnoc(names, x, t[i].name);
      if i == |table| {
        OccurrencesPositive(names, x);
      }
    }
  }

  lemma AbsentOrder(table: seq<ServiceCount>, names: seq<string>, x: string)
    requires InFirstOccurrenceOrder(table, names)
    requires x !in names
    requires forall i :: 0 <= i < |table| ==> table[i].name in names
    ensures InFirstOccurrenceOrder(table + [ServiceCount(x, 1)], names + [x])
  {
    var t := table + [ServiceCount(x, 1)];
    forall i | 0 <= i < |t|
      ensures FirstIndex(names + [x], t[i].name) == (if i < |table| then FirstIndex(names, t[i].name) else |names|)
      ensures i < |table| ==> FirstIndex(names, t[i].name) < |names|
    {
      FirstIndexAppend(names, x, t[i].name);
    }
  }

  /** Sorted by non-increasing count. */
  predicate SortedByCountDesc(s: seq<ServiceCount>)
  {
    forall i, j :: 0 <= i < j < |s| ==> s[i].count >= s[j].count
  }

  /** The entries of `s` with count `c`, in order. */
  function WithCount(s: seq<ServiceCount>, c: nat): seq<ServiceCount>
  {
    Filter(s, (e: ServiceCount) => e.count == c)
  }

  /** Insert `x` before the first entry whose count does not exceed its
      own. */
  function InsertByCount(x: ServiceCount, sorted: seq<ServiceCount>): seq<ServiceCount>
  {
    if sorted == [] || x.count >= sorted[0].count then [x] + sorted
    else [sorted[0]] + InsertByCount(x, sorted[1..])
  }

  /** `.sort((a, b) => b[1] - a[1])`: JavaScript's stable sort by descending
      count, as an insertion sort. */
  function SortByCountDesc(table: seq<ServiceCount>): (r: seq<ServiceCount>)
    ensures SortedByCountDesc(r)
    ensures multiset(r) == multiset(table)
    ensures forall c :: WithCount(r, c) == WithCount(table, c)
  {
    if table == [] then []
    else
      var rest := SortByCountDesc(table[1..]);
      SortStep(table, rest);
      InsertByCount(table[0], rest)
  }

  /** Inserting the head into the sorted tail sorts the whole table. */
  lemma SortStep(table: seq<ServiceCount>, rest: seq<ServiceCount>)
    requires table != []
    requires SortedByCountDesc(rest)
    requires multiset(rest) == multiset(table[1..])
    requires forall c :: WithCount(rest, c) == WithCount(table[1..], c)
    ensures SortedByCountDesc(InsertByCount(table[0], rest))
    ensures multiset(InsertByCount(table[0], rest)) == multiset(table)
    ensures forall c :: WithCount(InsertByCount(table[0], rest), c) == WithCount(table, c)
  {
    InsertSorted(table[0], rest);
    assert multiset(InsertByCount(table[0], rest)) == multiset(table) by {
      InsertPermutes(table[0], rest);
      assert table == [table[0]] + table[1..];
    }
    forall c
      ensures WithCount(InsertByCount(table[0], rest), c) == WithCount(table, c)
    {
      InsertStable(table[0], rest, c);
    }
  }

  lemma {:induction false} InsertPermutes(x: ServiceCount, s: seq<ServiceCount>)
    ensures multiset(InsertByCount(x, s)) == multiset(s) + multiset{x}
  {
    if s != [] && x.count < s[0].count {
      InsertPermutes(x, s[1..]);
      assert s == [s[0]] + s[1..];
    }
  }

  lemma {:induction false} InsertSorted(x: ServiceCount, s: seq<ServiceCount>)
    requires SortedByCountDesc(s)
    ensures SortedByCountDesc(InsertByCount(x, s))
  {
    if s != [] && x.count < s[0].count {
      InsertSorted(x, s[1..]);
      InsertPermutes(x, s[1..]);
      var r := InsertByCount(x, s[1..]);
      forall i | 0 <= i < |r|
        ensures r[i].count <= s[0].count
      {
        assert r[i] in multiset(r);
        assert r[i] == x || r[i] in multiset(s[1..]);
        if r[i] != x {
          var j :| 0 <= j < |s[1..]| && s[1..][j] == r[i];
          assert s[j + 1] == r[i];
        }
      }
    }
  }

  /** Inserting `x` into a sorted sequence puts it before every entry of the
      same count, so among equal counts the order of arrival is kept. */
  lemma {:induction false} InsertStable(x: ServiceCount, s: seq<ServiceCount>, c: nat)
    requires SortedByCountDesc(s)
    ensures WithCount(InsertByCount(x, s), c) == (if x.count == c then [x] else []) + WithCount(s, c)
  {
    if s != [] && x.count < s[0].count {
      InsertStable(x, s[1..], c);
    }
  }

  /** Among entries of equal count, the name that occurs first in `names`
      comes first. */
  ghost predicate TiesInFirstOccurrenceOrder(s: seq<ServiceCount>, names: seq<string>)
  {
    forall i, j :: 0 <= i < j < |s| && s[i].count == s[j].count ==>
      FirstIndex(names, s[i].name) < FirstIndex(names, s[j].name)
  }

  /** Putting `h` in front keeps ties in order when `h`'s name occurs before
      every name of equal count in `r`. */
  lemma ConsKeepsTieOrder(h: ServiceCount, r: seq<ServiceCount>, names: seq<string>)
    requires TiesInFirstOccurrenceOrder(r, names)
    requires forall k :: 0 <= k < |r| && r[k].count == h.count ==>
      FirstIndex(names, h.name) < FirstIndex(names, r[k].name)
    ensures TiesInFirstOccurrenceOrder([h] + r, names)
  {
    var t := [h] + r;
    forall i, j | 0 <= i < j < |t| && t[i].count == t[j].count
      ensures FirstIndex(names, t[i].name) < FirstIndex(names, t[j].name)
    {
      assert t[j] == r[j - 1];
      if i > 0 {
        assert t[i] == r[i - 1];
      }
    }
  }

  /** Every entry of `InsertByCount(x, s)` is `x` or an entry of `s`. */
  lemma InsertMember(x: ServiceCount, s: seq<ServiceCount>, e: ServiceCount)
    requires e in InsertByCount(x, s)
    ensures e == x || exists k :: 0 <= k < |s| && s[k] == e
  {
    InsertPermutes(x, s);
    assert e in multiset(InsertByCount(x, s));
    if e != x {
      assert e in multiset(s);
    }
  }

  /** Inserting an entry whose name occurs before every name of `s` keeps
      ties in first-occurrence order. */
  lemma {:induction false} InsertKeepsTieOrder(x: ServiceCount, s: seq<ServiceCount>, names: seq<string>)
    requires TiesInFirstOccurrenceOrder(s, names)
    requires forall k :: 0 <= k < |s| ==> FirstIndex(names, x.name) < FirstIndex(names, s[k].name)
    ensures TiesInFirstOccurrenceOrder(InsertByCount(x, s), names)
  {
    if s == [] || x.count >= s[0].count {
      ConsKeepsTieOrder(x, s, names);
    } else {
      var tail := s[1..];
      assert TiesInFirstOccurrenceOrder(tail, names) by {
        forall i, j | 0 <= i < j < |tail| && tail[i].count == tail[j].count
          ensures FirstIndex(names, tail[i].name) < FirstIndex(names, tail[j].name)
        {
          assert tail[i] == s[i + 1] && tail[j] == s[j + 1];
        }
      }
      InsertKeepsTieOrder(x, tail, names);
      var r := InsertByCount(x, tail);
      forall j | 0 <= j < |r| && r[j].count == s[0].count
        ensures FirstIndex(names, s[0].name) < FirstIndex(names, r[j].name)
      {
        InsertMember(x, tail, r[j]);
        var k :| 0 <= k < |tail| && tail[k] == r[j];
        assert s[k + 1] == r[j];
      }
      ConsKeepsTieOrder(s[0], r, names);
    }
  }

  /** The stable sort of a table in first-occurrence order lists entries of
      equal count in first-occurrence order. */
  lemma {:induction false} SortKeepsTieOrder(table: seq<ServiceCount>, names: seq<string>)
    requires InFirstOccurrenceOrder(table, names)
    ensures TiesInFirstOccurrenceOrder(SortByCountDesc(table), names)
  {
    if table != [] {
      assert InFirstOccurrenceOrder(table[1..], names) by {
        forall i, j | 0 <= i < j < |table[1..]|
          ensures FirstIndex(names, table[1..][i].name) < FirstIndex(names, table[1..][j].name)
        {
          assert table[1..][i] == table[i + 1] && table[1..][j] == table[j + 1];
        }
      }
      SortKeepsTieOrder(table[1..], names);
      var rest := SortByCountDesc(table[1..]);
      forall k | 0 <= k < |rest|
        ensures FirstIndex(names, table[0].name) < FirstIndex(names, rest[k].name)
      {
        assert rest[k] in multiset(rest);
        var m :| 0 <= m < |table[1..]| && table[1..][m] == rest[k];
        assert table[m + 1] == rest[k];
      }
      InsertKeepsTieOrder(table[0], rest, names);
    }
  }
}
