/**
 * `sorted(tasks, key=lambda x: x.get('dueTime', ''))`: a stable sort on the raw
 * due-time string, ascending in Python's string order.
 */
module DueSort {
  import opened Json
  import opened StringOrder
  import opened TaskRows
  import opened IsoTime

  /** The sort key as a string; a missing key is `''`. Non-string keys never reach a comparison. */
  function Key(t: Task): string
  {
    if DueValue(t).JStr? then DueValue(t).s else ""
  }

  /** Each task's key is at most the next one's. */
  predicate Sorted(s: seq<Task>)
  {
    forall i :: 0 < i < |s| ==> LexLe(Key(s[i - 1]), Key(s[i]))
  }

  /** Every task's key is at most every later task's. */
  predicate Ascending(s: seq<Task>)
  {
    forall i, j :: 0 <= i < j < |s| ==> LexLe(Key(s[i]), Key(s[j]))
  }

  /** The tasks of `s` whose key is `k`, in their order in `s`. */
  function WithKey(s: seq<Task>, k: string): seq<Task>
  {
    if s == [] then [] else (if Key(s[0]) == k then [s[0]] else []) + WithKey(s[1..], k)
  }

  /** `out` is what a stable sort of `ts` returns: ordered, and equal keys keep their order. */
  ghost predicate IsStableSortOf(out: seq<Task>, ts: seq<Task>)
  {
    Sorted(out) && forall k :: WithKey(out, k) == WithKey(ts, k)
  }

  /** Where `Insert` puts `x`: after every task with a strictly smaller key. */
  function Pos(x: Task, s: seq<Task>): (p: nat)
    ensures p <= |s|
  {
    if s == [] || LexLe(Key(x), Key(s[0])) then 0 else 1 + Pos(x, s[1..])
  }

  /** `x` placed in front of the first task whose key is not smaller than its own. */
  function Insert(x: Task, s: seq<Task>): seq<Task>
  {
    if s == [] || LexLe(Key(x), Key(s[0])) then [x] + s else [s[0]] + Insert(x, s[1..])
  }

  function SortByDue(ts: seq<Task>): seq<Task>
  {
    if ts == [] then [] else Insert(ts[0], SortByDue(ts[1..]))
  }

  lemma {:induction false} InsertSplices(x: Task, s: seq<Task>)
    ensures Insert(x, s) == s[..Pos(x, s)] + [x] + s[Pos(x, s)..]
  {
    if s != [] && !LexLe(Key(x), Key(s[0])) {
      InsertSplices(x, s[1..]);
      var p := Pos(x, s[1..]);
      assert [s[0]] + s[1..][..p] == s[..p + 1];
      assert s[1..][p..] == s[p + 1..];
    }
  }

  lemma {:induction false} InsertSorted(x: Task, s: seq<Task>)
    requires Sorted(s)
    ensures Sorted(Insert(x, s))
  {
    if s != [] && !LexLe(Key(x), Key(s[0])) {
      var rest := s[1..];
      assert Sorted(rest) by {
        forall i | 0 < i < |rest| ensures LexLe(Key(rest[i - 1]), Key(rest[i])) {
          assert rest[i - 1] == s[i] && rest[i] == s[i + 1];
        }
      }
      InsertSorted(x, rest);
      LexLeTotal(Key(x), Key(s[0]));
      var tail := Insert(x, rest);
      assert tail[0] == x || tail[0] == s[1];
      assert Insert(x, s) == [s[0]] + tail;
    }
  }

  lemma {:induction false} InsertWithKey(x: Task, s: seq<Task>, k: string)
    ensures WithKey(Insert(x, s), k) == (if Key(x) == k then [x] else []) + WithKey(s, k)
  {
    var ox := if Key(x) == k then [x] else [];
    if s == [] || LexLe(Key(x), Key(s[0])) {
      assert ([x] + s)[0] == x && ([x] + s)[1..] == s;
    } else {
      var tail := Insert(x, s[1..]);
      var o0 := if Key(s[0]) == k then [s[0]] else [];
      assert ([s[0]] + tail)[0] == s[0] && ([s[0]] + tail)[1..] == tail;
      assert WithKey(Insert(x, s), k) == o0 + WithKey(tail, k);
      InsertWithKey(x, s[1..], k);
      assert WithKey(tail, k) == ox + WithKey(s[1..], k);
      if Key(x) == k && Key(s[0]) == k {
        LexLeReflexive(k);
        assert false;
      }
      assert o0 + ox == ox + o0;
      assert WithKey(s, k) == o0 + WithKey(s[1..], k);
    }
  }

  /** The sort returns its input in order. */
  lemma {:induction false} SortByDueSorted(ts: seq<Task>)
    ensures Sorted(SortByDue(ts))
  {
    if ts != [] {
      SortByDueSorted(ts[1..]);
      InsertSorted(ts[0], SortByDue(ts[1..]));
    }
  }

  /** Tasks with the same key keep the order they had in the payload. */
  lemma {:induction false} SortByDueStable(ts: seq<Task>, k: string)
    ensures WithKey(SortByDue(ts), k) == WithKey(ts, k)
  {
    if ts != [] {
      SortByDueStable(ts[1..], k);
      InsertWithKey(ts[0], SortByDue(ts[1..]), k);
    }
  }

  lemma InsertPermutes(x: Task, s: seq<Task>)
    ensures |Insert(x, s)| == |s| + 1
    ensures multiset(Insert(x, s)) == multiset(s) + multiset{x}
  {
    InsertSplices(x, s);
    var p := Pos(x, s);
    var front, back := s[..p], s[p..];
    assert s == front + back;
    assert multiset(front + [x] + back) == multiset(front) + multiset{x} + multiset(back);
  }

  /** The sort drops and duplicates nothing. */
  lemma {:induction false} SortByDuePermutes(ts: seq<Task>)
    ensures |SortByDue(ts)| == |ts|
    ensures multiset(SortByDue(ts)) == multiset(ts)
  {
    if ts != [] {
      SortByDuePermutes(ts[1..]);
      InsertPermutes(ts[0], SortByDue(ts[1..]));
      assert ts == [ts[0]] + ts[1..];
    }
  }

  lemma SortByDueIsStableSort(ts: seq<Task>)
    ensures IsStableSortOf(SortByDue(ts), ts)
  {
    SortByDueSorted(ts);
    forall k ensures WithKey(SortByDue(ts), k) == WithKey(ts, k) {
      SortByDueStable(ts, k);
    }
  }

  /** A list of at most one task is left as it is, whatever its key. */
  lemma SortByDueShort(ts: seq<Task>)
    requires |ts| <= 1
    ensures SortByDue(ts) == ts
  {
    if ts != [] {
      assert ts[1..] == [];
    }
  }

  /** Adjacent order is order between any two positions. */
  lemma {:induction false} SortedAscending(s: seq<Task>)
    requires Sorted(s)
    ensures Ascending(s)
  {
    if s != [] {
      var rest := s[1..];
      assert Sorted(rest) by {
        forall i | 0 < i < |rest| ensures LexLe(Key(rest[i - 1]), Key(rest[i])) {
          assert rest[i - 1] == s[i] && rest[i] == s[i + 1];
        }
      }
      SortedAscending(rest);
      forall i, j | 0 <= i < j < |s| ensures LexLe(Key(s[i]), Key(s[j])) {
        if i > 0 {
          assert s[i] == rest[i - 1] && s[j] == rest[j - 1];
        } else if j > 1 {
          assert s[1] == rest[0] && s[j] == rest[j - 1];
          LexLeTransitive(Key(s[0]), Key(s[1]), Key(s[j]));
        }
      }
    }
  }

  lemma HeadKeyKept(s: seq<Task>)
    ensures s != [] ==> WithKey(s, Key(s[0])) != []
  {
  }

  lemma {:induction false} WithKeyWitness(s: seq<Task>, k: string) returns (i: nat)
    requires WithKey(s, k) != []
    ensures i < |s| && Key(s[i]) == k
  {
    if Key(s[0]) == k {
      i := 0;
    } else {
      var j := WithKeyWitness(s[1..], k);
      i := j + 1;
    }
  }

  /**
   * A stable sort has one possible result: two ordered lists with the same tasks of
   * each key in the same order are equal. So `SortByDue` returns exactly what
   * Python's `sorted` does.
   */
  lemma {:induction false} StableSortUnique(a: seq<Task>, b: seq<Task>)
    requires Sorted(a) && Sorted(b)
    requires forall k :: WithKey(a, k) == WithKey(b, k)
    ensures a == b
    decreases |a|
  {
    if a == [] || b == [] {
      // an empty list and a non-empty one differ on the key of the latter's first task
      if a != [] {
        HeadKeyKept(a);
        assert false;
      } else if b != [] {
        HeadKeyKept(b);
        assert false;
      }
    } else {
      SortedAscending(a);
      SortedAscending(b);
      var ka, kb := Key(a[0]), Key(b[0]);
      assert WithKey(b, kb) != [];
      var i := WithKeyWitness(a, kb);
      if i > 0 { assert LexLe(ka, Key(a[i])); } else { LexLeReflexive(ka); }
      assert WithKey(a, ka) != [];
      var j := WithKeyWitness(b, ka);
      if j > 0 { assert LexLe(kb, Key(b[j])); } else { LexLeReflexive(kb); }
      LexLeAntisymmetric(ka, kb);
      assert WithKey(a, ka)[0] == a[0] && WithKey(b, ka)[0] == b[0];
      forall k ensures WithKey(a[1..], k) == WithKey(b[1..], k) {
        var o := if ka == k then [a[0]] else [];
        assert WithKey(a, k) == o + WithKey(a[1..], k);
        assert WithKey(b, k) == o + WithKey(b[1..], k);
        assert WithKey(a[1..], k) == WithKey(a, k)[|o|..];
        assert WithKey(b[1..], k) == WithKey(b, k)[|o|..];
      }
      var ra, rb := a[1..], b[1..];
      assert Sorted(ra) by {
        forall i | 0 < i < |ra| ensures LexLe(Key(ra[i - 1]), Key(ra[i])) {
          assert ra[i - 1] == a[i] && ra[i] == a[i + 1];
        }
      }
      assert Sorted(rb) by {
        forall i | 0 < i < |rb| ensures LexLe(Key(rb[i - 1]), Key(rb[i])) {
          assert rb[i - 1] == b[i] && rb[i] == b[i + 1];
        }
      }
      StableSortUnique(ra, rb);
      assert a == [a[0]] + ra && b == [b[0]] + rb;
    }
  }

  lemma TallyInsert(x: Task, s: seq<Task>, st: Status, now: int, parse: Parser)
    ensures Tally(Insert(x, s), st, now, parse)
         == Tally([x], st, now, parse) + Tally(s, st, now, parse)
  {
    InsertSplices(x, s);
    var p := Pos(x, s);
    var front, back := s[..p], s[p..];
    assert s == front + back;
    TallyConcat(front + [x], back, st, now, parse);
    TallyConcat(front, [x], st, now, parse);
    TallyConcat(front, back, st, now, parse);
  }

  /** Sorting does not change how many tasks of each status there are. */
  lemma {:induction false} SortByDueKeepsTally(ts: seq<Task>, st: Status, now: int, parse: Parser)
    ensures Tally(SortByDue(ts), st, now, parse) == Tally(ts, st, now, parse)
  {
    if ts != [] {
      SortByDueKeepsTally(ts[1..], st, now, parse);
      TallyInsert(ts[0], SortByDue(ts[1..]), st, now, parse);
      assert ts == [ts[0]] + ts[1..];
      TallyConcat([ts[0]], ts[1..], st, now, parse);
    }
  }
}
