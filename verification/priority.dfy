/** Priority order of the required doses: descending restricted time, with
    doses of equal restricted time kept in their input order (a stable sort,
    as Python's `sorted(..., reverse=True)` is). */
module Priority {
  import opened Doses

  /** Every dose in `s` names a drug with a profile. */
  predicate Profiled(s: seq<RequiredDose>, hours: map<DrugId, int>)
  {
    forall i :: 0 <= i < |s| ==> s[i].drug in hours
  }

  /** Restricted times never increase along `s`. */
  predicate NonIncreasing(s: seq<RequiredDose>, hours: map<DrugId, int>)
    requires Profiled(s, hours)
  {
    forall i, j :: 0 <= i < j < |s| ==> hours[s[i].drug] >= hours[s[j].drug]
  }

  /** The doses of `s` whose restricted time is `key`, in their order in `s`. */
  function WithKey(s: seq<RequiredDose>, hours: map<DrugId, int>, key: int): (r: seq<RequiredDose>)
    requires Profiled(s, hours)
    ensures forall i :: 0 <= i < |r| ==> r[i] in s && hours[r[i].drug] == key
    ensures forall i :: 0 <= i < |s| && hours[s[i].drug] == key ==> s[i] in r
  {
    if s == [] then []
    else (if hours[s[0].drug] == key then [s[0]] else []) + WithKey(s[1..], hours, key)
  }

  /** Places `x` in front of the first dose of `t` whose restricted time is not
      longer than its own. */
  function Insert(x: RequiredDose, t: seq<RequiredDose>, hours: map<DrugId, int>): (r: seq<RequiredDose>)
    requires x.drug in hours && Profiled(t, hours)
    ensures multiset(r) == multiset(t) + multiset{x}
    ensures Profiled(r, hours)
  {
    if t == [] then [x]
    else if hours[t[0].drug] <= hours[x.drug] then [x] + t
    else
      assert t == [t[0]] + t[1..];
      [t[0]] + Insert(x, t[1..], hours)
  }

  /** No dose in `s` has a restricted time above `bound`. */
  predicate AllAtMost(s: seq<RequiredDose>, hours: map<DrugId, int>, bound: int)
    requires Profiled(s, hours)
  {
    forall i :: 0 <= i < |s| ==> hours[s[i].drug] <= bound
  }

  lemma {:induction false} InsertKeepsBound(x: RequiredDose, t: seq<RequiredDose>, hours: map<DrugId, int>, bound: int)
    requires x.drug in hours && Profiled(t, hours)
    requires hours[x.drug] <= bound && AllAtMost(t, hours, bound)
    ensures AllAtMost(Insert(x, t, hours), hours, bound)
  {
    if t != [] && hours[t[0].drug] > hours[x.drug] {
      InsertKeepsBound(x, t[1..], hours, bound);
      var rest := Insert(x, t[1..], hours);
      var r := [t[0]] + rest;
      assert Insert(x, t, hours) == r;
      forall i | 0 <= i < |r|
        ensures hours[r[i].drug] <= bound
      {
        if i > 0 {
          assert r[i] == rest[i - 1];
        }
      }
    }
  }

  lemma ConsNonIncreasing(h: RequiredDose, rest: seq<RequiredDose>, hours: map<DrugId, int>)
    requires h.drug in hours && Profiled(rest, hours)
    requires NonIncreasing(rest, hours) && AllAtMost(rest, hours, hours[h.drug])
    ensures Profiled([h] + rest, hours) && NonIncreasing([h] + rest, hours)
  {
    var r := [h] + rest;
    assert forall i :: 1 <= i < |r| ==> r[i] == rest[i - 1];
  }

  lemma {:induction false} InsertKeepsOrder(x: RequiredDose, t: seq<RequiredDose>, hours: map<DrugId, int>)
    requires x.drug in hours && Profiled(t, hours) && NonIncreasing(t, hours)
    ensures NonIncreasing(Insert(x, t, hours), hours)
  {
    if t == [] {
    } else if hours[t[0].drug] <= hours[x.drug] {
      ConsNonIncreasing(x, t, hours);
    } else {
      var tail := t[1..];
      assert NonIncreasing(tail, hours) && AllAtMost(tail, hours, hours[t[0].drug]) by {
        assert forall i :: 0 <= i < |tail| ==> tail[i] == t[i + 1];
      }
      InsertKeepsOrder(x, tail, hours);
      InsertKeepsBound(x, tail, hours, hours[t[0].drug]);
      ConsNonIncreasing(t[0], Insert(x, tail, hours), hours);
    }
  }

  /** The priority order of `required_doses`. */
  function SortByPriority(s: seq<RequiredDose>, hours: map<DrugId, int>): (r: seq<RequiredDose>)
    requires Profiled(s, hours)
    ensures multiset(r) == multiset(s)
    ensures Profiled(r, hours)
    ensures NonIncreasing(r, hours)
  {
    if s == [] then []
    else
      assert s == [s[0]] + s[1..];
      var rest := SortByPriority(s[1..], hours);
      InsertKeepsOrder(s[0], rest, hours);
      Insert(s[0], rest, hours)
  }

  lemma WithKeyCons(h: RequiredDose, t: seq<RequiredDose>, hours: map<DrugId, int>, key: int)
    requires h.drug in hours && Profiled(t, hours)
    ensures Profiled([h] + t, hours)
    ensures WithKey([h] + t, hours, key) == (if hours[h.drug] == key then [h] else []) + WithKey(t, hours, key)
  {
    assert ([h] + t)[1..] == t;
  }

  lemma {:induction false} InsertKeepsKeyOrder(x: RequiredDose, t: seq<RequiredDose>, hours: map<DrugId, int>, key: int)
    requires x.drug in hours && Profiled(t, hours)
    ensures WithKey(Insert(x, t, hours), hours, key) ==
            (if hours[x.drug] == key then [x] else []) + WithKey(t, hours, key)
  {
    if t == [] {
    } else if hours[t[0].drug] <= hours[x.drug] {
      WithKeyCons(x, t, hours, key);
    } else {
      var tail, rest := t[1..], Insert(x, t[1..], hours);
      assert Insert(x, t, hours) == [t[0]] + rest;
      assert [t[0]] + tail == t;
      InsertKeepsKeyOrder(x, tail, hours, key);
      WithKeyCons(t[0], rest, hours, key);
      WithKeyCons(t[0], tail, hours, key);
      var h, xs := if hours[t[0].drug] == key then [t[0]] else [], if hours[x.drug] == key then [x] else [];
      SwapDisjointHeads(h, xs, WithKey(tail, hours, key));
    }
  }

  /** Two prefixes, one of them empty, can be put in either order. */
  lemma SwapDisjointHeads(a: seq<RequiredDose>, b: seq<RequiredDose>, w: seq<RequiredDose>)
    requires a == [] || b == []
    ensures a + (b + w) == b + (a + w)
  {
    if a == [] {
      assert a + (b + w) == b + w == b + (a + w);
    } else {
      assert a + (b + w) == a + w == b + (a + w);
    }
  }

  /** Stability: for every restricted time, the doses with that time appear
      in the priority order exactly as they appear in the input. */
  lemma {:induction false} SortIsStable(s: seq<RequiredDose>, hours: map<DrugId, int>, key: int)
    requires Profiled(s, hours)
    ensures WithKey(SortByPriority(s, hours), hours, key) == WithKey(s, hours, key)
  {
    if s != [] {
      SortIsStable(s[1..], hours, key);
      InsertKeepsKeyOrder(s[0], SortByPriority(s[1..], hours), hours, key);
    }
  }

  lemma HeadStartsKeyClass(s: seq<RequiredDose>, hours: map<DrugId, int>)
    requires Profiled(s, hours) && s != []
    ensures WithKey(s, hours, hours[s[0].drug]) != []
  {
    assert WithKey(s, hours, hours[s[0].drug])[0] == s[0];
  }

  lemma DropSameHead(a: seq<RequiredDose>, b: seq<RequiredDose>, hours: map<DrugId, int>, key: int)
    requires Profiled(a, hours) && Profiled(b, hours)
    requires a != [] && b != [] && a[0] == b[0]
    requires WithKey(a, hours, key) == WithKey(b, hours, key)
    ensures WithKey(a[1..], hours, key) == WithKey(b[1..], hours, key)
  {
    var head := if hours[a[0].drug] == key then [a[0]] else [];
    var ta, tb := WithKey(a[1..], hours, key), WithKey(b[1..], hours, key);
    assert WithKey(a, hours, key) == head + ta;
    assert WithKey(b, hours, key) == head + tb;
    assert ta == (head + ta)[|head|..];
    assert tb == (head + tb)[|head|..];
  }

  /** Two non-empty non-increasing orders that agree on every key class start
      with the same dose. */
  lemma SameHead(a: seq<RequiredDose>, b: seq<RequiredDose>, hours: map<DrugId, int>)
    requires Profiled(a, hours) && Profiled(b, hours) && a != [] && b != []
    requires NonIncreasing(a, hours) && NonIncreasing(b, hours)
    requires forall key :: WithKey(a, hours, key) == WithKey(b, hours, key)
    ensures a[0] == b[0]
  {
    var ka, kb := hours[a[0].drug], hours[b[0].drug];
    var wa, wb := WithKey(a, hours, ka), WithKey(b, hours, kb);
    assert wa == [a[0]] + WithKey(a[1..], hours, ka);
    assert wb == [b[0]] + WithKey(b[1..], hours, kb);
    assert WithKey(b, hours, ka) == wa;
    assert WithKey(a, hours, kb) == wb;
    assert wa[0] in b && hours[wa[0].drug] == ka;
    assert wb[0] in a && hours[wb[0].drug] == kb;
    assert ka <= kb && kb <= ka;
  }

  lemma TailNonIncreasing(s: seq<RequiredDose>, hours: map<DrugId, int>)
    requires Profiled(s, hours) && NonIncreasing(s, hours) && s != []
    ensures Profiled(s[1..], hours) && NonIncreasing(s[1..], hours)
  {
    assert forall i :: 0 <= i < |s| - 1 ==> s[1..][i] == s[i + 1];
  }

  /** Two orders that are both non-increasing and agree on the order of the
      doses of every restricted time are the same order. */
  lemma {:induction false} KeyClassesDetermineOrder(a: seq<RequiredDose>, b: seq<RequiredDose>, hours: map<DrugId, int>)
    requires Profiled(a, hours) && Profiled(b, hours)
    requires NonIncreasing(a, hours) && NonIncreasing(b, hours)
    requires forall key :: WithKey(a, hours, key) == WithKey(b, hours, key)
    ensures a == b
  {
    if a == [] && b != [] {
      HeadStartsKeyClass(b, hours);
      assert false;
    } else if a != [] && b == [] {
      HeadStartsKeyClass(a, hours);
      assert false;
    } else if a != [] && b != [] {
      assert a[0] == b[0] by {
        SameHead(a, b, hours);
      }
      assert a[1..] == b[1..] by {
        forall key
          ensures WithKey(a[1..], hours, key) == WithKey(b[1..], hours, key)
        {
          DropSameHead(a, b, hours, key);
        }
        TailNonIncreasing(a, hours);
        TailNonIncreasing(b, hours);
        KeyClassesDetermineOrder(a[1..], b[1..], hours);
      }
      assert a == [a[0]] + a[1..] && b == [b[0]] + b[1..];
    }
  }

  /** The priority order is the only non-increasing order that keeps doses of
      equal restricted time in input order, so any stable sort (Python's
      `sorted` among them) yields it. */
  lemma StableSortIsUnique(s: seq<RequiredDose>, r: seq<RequiredDose>, hours: map<DrugId, int>)
    requires Profiled(s, hours) && Profiled(r, hours)
    requires NonIncreasing(r, hours)
    requires forall key :: WithKey(r, hours, key) == WithKey(s, hours, key)
    ensures r == SortByPriority(s, hours)
  {
    var sorted := SortByPriority(s, hours);
    forall key
      ensures WithKey(r, hours, key) == WithKey(sorted, hours, key)
    {
      SortIsStable(s, hours, key);
    }
    KeyClassesDetermineOrder(r, sorted, hours);
  }

  /** Total occurrences per day asked for by `s`. */
  function PerDayTotal(s: seq<RequiredDose>): (r: nat)
  {
    if s == [] then 0 else PerDayTotal(s[..|s| - 1]) + Occurrences(s[|s| - 1])
  }

  lemma {:induction false} PerDayTotalAppend(a: seq<RequiredDose>, b: seq<RequiredDose>)
    ensures PerDayTotal(a + b) == PerDayTotal(a) + PerDayTotal(b)
  {
    if b != [] {
      assert (a + b)[..|a + b| - 1] == a + b[..|b| - 1];
      PerDayTotalAppend(a, b[..|b| - 1]);
    } else {
      assert a + b == a;
    }
  }

  lemma PerDayTotalCons(x: RequiredDose, t: seq<RequiredDose>)
    ensures PerDayTotal([x] + t) == Occurrences(x) + PerDayTotal(t)
  {
    PerDayTotalAppend([x], t);
    assert [x][..0] == [];
  }

  lemma {:induction false} InsertKeepsPerDayTotal(x: RequiredDose, t: seq<RequiredDose>, hours: map<DrugId, int>)
    requires x.drug in hours && Profiled(t, hours)
    ensures PerDayTotal(Insert(x, t, hours)) == Occurrences(x) + PerDayTotal(t)
  {
    if t == [] || hours[t[0].drug] <= hours[x.drug] {
      PerDayTotalCons(x, t);
    } else {
      var tail, rest := t[1..], Insert(x, t[1..], hours);
      assert Insert(x, t, hours) == [t[0]] + rest;
      assert [t[0]] + tail == t;
      InsertKeepsPerDayTotal(x, tail, hours);
      PerDayTotalCons(t[0], rest);
      PerDayTotalCons(t[0], tail);
    }
  }

  lemma SortStepTotal(s: seq<RequiredDose>, hours: map<DrugId, int>)
    requires Profiled(s, hours) && s != []
    ensures Profiled(s[1..], hours)
    ensures PerDayTotal(SortByPriority(s, hours)) == Occurrences(s[0]) + PerDayTotal(SortByPriority(s[1..], hours))
  {
    var rest := SortByPriority(s[1..], hours);
    assert SortByPriority(s, hours) == Insert(s[0], rest, hours);
    InsertKeepsPerDayTotal(s[0], rest, hours);
  }

  /** Reordering the doses changes nothing about how many are asked for per day. */
  lemma {:induction false} SortKeepsPerDayTotal(s: seq<RequiredDose>, hours: map<DrugId, int>)
    requires Profiled(s, hours)
    ensures PerDayTotal(SortByPriority(s, hours)) == PerDayTotal(s)
  {
    if s != [] {
      SortStepTotal(s, hours);
      SortKeepsPerDayTotal(s[1..], hours);
      assert [s[0]] + s[1..] == s;
      PerDayTotalCons(s[0], s[1..]);
    }
  }
}
