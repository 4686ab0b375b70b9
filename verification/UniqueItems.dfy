/** `filter` and first-of-each-key, as stores/spaceStore.ts and hooks/useMessageSearch.ts use them. */
module UniqueItems {
  import opened JsStrings

  function Filter<T>(items: seq<T>, keep: T -> bool): seq<T> {
    if items == [] then []
    else (if keep(items[0]) then [items[0]] else []) + Filter(items[1..], keep)
  }

  /** The first item of each key not in `seen`. */
  function UniqueBeyond<T>(items: seq<T>, key: T -> JsString, seen: set<JsString>): seq<T> {
    if items == [] then []
    else if key(items[0]) in seen then UniqueBeyond(items[1..], key, seen)
    else [items[0]] + UniqueBeyond(items[1..], key, seen + {key(items[0])})
  }

  function Unique<T>(items: seq<T>, key: T -> JsString): seq<T> {
    UniqueBeyond(items, key, {})
  }

  /** `uniqueBy`. */
  method UniqueBy<T>(items: seq<T>, key: T -> JsString) returns (kept: seq<T>)
    ensures kept == Unique(items, key)
  {
    var seen: set<JsString> := {};
    kept := [];
    ghost var rest := items;
    for i := 0 to |items|
      invariant rest == items[i..]
      invariant Unique(items, key) == kept + UniqueBeyond(rest, key, seen)
    {
      var identity := key(items[i]);
      assert rest[0] == items[i];
      if identity !in seen {
        seen := seen + {identity};
        kept := kept + [items[i]];
      }
      rest := rest[1..];
    }
  }

  function Keys<T>(items: seq<T>, key: T -> JsString): set<JsString> {
    set i | 0 <= i < |items| :: key(items[i])
  }

  predicate HasDistinctKeys<T>(items: seq<T>, key: T -> JsString) {
    forall i, j :: 0 <= i < j < |items| ==> key(items[i]) != key(items[j])
  }

  lemma {:induction false} UniqueIsDistinct<T>(items: seq<T>, key: T -> JsString, seen: set<JsString>)
    ensures HasDistinctKeys(UniqueBeyond(items, key, seen), key)
    ensures forall u :: u in UniqueBeyond(items, key, seen) ==> u in items && key(u) !in seen
    ensures forall u :: u in items ==>
      key(u) in seen || exists v :: v in UniqueBeyond(items, key, seen) && key(v) == key(u)
  {
    if items != [] {
      if key(items[0]) in seen {
        UniqueIsDistinct(items[1..], key, seen);
      } else {
        UniqueIsDistinct(items[1..], key, seen + {key(items[0])});
        var kept := UniqueBeyond(items, key, seen);
        assert kept[0] == items[0] && kept[1..] == UniqueBeyond(items[1..], key, seen + {key(items[0])});
        forall u | u in items
          ensures key(u) in seen || exists v :: v in kept && key(v) == key(u)
        {
          if key(u) == key(items[0]) {
            assert kept[0] in kept;
          } else if key(u) !in seen {
            var v :| v in kept[1..] && key(v) == key(u);
            assert v in kept;
          }
        }
      }
    }
  }

  lemma {:induction false} FilterMembers<T>(items: seq<T>, keep: T -> bool)
    ensures forall u :: u in Filter(items, keep) <==> u in items && keep(u)
  {
    if items != [] {
      FilterMembers(items[1..], keep);
    }
  }

  lemma {:induction false} FilterOfKept<T>(items: seq<T>, keep: T -> bool)
    requires forall u :: u in items ==> keep(u)
    ensures Filter(items, keep) == items
  {
    if items != [] {
      FilterOfKept(items[1..], keep);
    }
  }

  lemma {:induction false} UniqueOfDistinct<T>(items: seq<T>, key: T -> JsString, seen: set<JsString>)
    requires HasDistinctKeys(items, key) && forall u :: u in items ==> key(u) !in seen
    ensures UniqueBeyond(items, key, seen) == items
  {
    if items != [] {
      UniqueOfDistinct(items[1..], key, seen + {key(items[0])});
    }
  }

  lemma {:induction false} UniqueSplits<T>(a: seq<T>, b: seq<T>, key: T -> JsString, seen: set<JsString>)
    ensures UniqueBeyond(a + b, key, seen) == UniqueBeyond(a, key, seen) + UniqueBeyond(b, key, seen + Keys(a, key))
  {
    if a == [] {
      assert a + b == b && seen + Keys(a, key) == seen;
    } else {
      var next := seen + {key(a[0])};
      assert (a + b)[1..] == a[1..] + b;
      UniqueSplits(a[1..], b, key, next);
      KeysOfTail(a, key);
      assert next + Keys(a[1..], key) == seen + Keys(a, key);
      if key(a[0]) in seen {
        assert next == seen;
      }
    }
  }

  lemma KeysOfTail<T>(a: seq<T>, key: T -> JsString)
    requires a != []
    ensures Keys(a, key) == {key(a[0])} + Keys(a[1..], key)
  {
    var tail := a[1..];
    forall i | 0 <= i < |a|
      ensures key(a[i]) in {key(a[0])} + Keys(tail, key)
    {
      if i > 0 {
        assert tail[i - 1] == a[i];
      }
    }
    forall i | 0 <= i < |tail|
      ensures key(tail[i]) in Keys(a, key)
    {
      assert a[i + 1] == tail[i];
    }
  }

  lemma UniqueKeepsKeys<T>(items: seq<T>, key: T -> JsString)
    ensures Keys(Unique(items, key), key) == Keys(items, key)
  {
    UniqueIsDistinct(items, key, {});
    var kept := Unique(items, key);
    forall i | 0 <= i < |items|
      ensures key(items[i]) in Keys(kept, key)
    {
      var v :| v in kept && key(v) == key(items[i]);
    }
    forall i | 0 <= i < |kept|
      ensures key(kept[i]) in Keys(items, key)
    {
      assert kept[i] in items;
    }
  }

  /** `kept` is what is left of `items` when some are left out: the positions kept, in order. */
  ghost predicate AreKept<T(!new)>(items: seq<T>, kept: seq<T>, at: seq<int>) {
    |at| == |kept| &&
    (forall i, j :: 0 <= i < j < |at| ==> at[i] < at[j]) &&
    (forall i :: 0 <= i < |at| ==> 0 <= at[i] < |items| && kept[i] == items[at[i]])
  }

  /** The item at `n` is the first of its key, and its key was not seen before. */
  ghost predicate IsFirst<T>(items: seq<T>, key: T -> JsString, seen: set<JsString>, n: nat)
    requires n < |items|
  {
    key(items[n]) !in seen && forall m :: 0 <= m < n ==> key(items[m]) != key(items[n])
  }

  lemma FirstInTail<T>(items: seq<T>, key: T -> JsString, seen: set<JsString>, n: nat)
    requires 0 < n < |items|
    ensures IsFirst(items, key, seen, n) <==> IsFirst(items[1..], key, seen + {key(items[0])}, n - 1)
    ensures key(items[0]) in seen ==>
      (IsFirst(items, key, seen, n) <==> IsFirst(items[1..], key, seen, n - 1))
  {
    assert forall m :: 0 <= m < n - 1 ==> items[1..][m] == items[m + 1];
    if IsFirst(items[1..], key, seen + {key(items[0])}, n - 1) {
      forall m | 0 <= m < n ensures key(items[m]) != key(items[n]) {
        if m > 0 {
          assert items[m] == items[1..][m - 1];
        }
      }
    }
    if key(items[0]) in seen {
      assert seen + {key(items[0])} == seen;
    }
  }

  function Shifted(at: seq<int>): (r: seq<int>)
    ensures |r| == |at| && forall i :: 0 <= i < |r| ==> r[i] == at[i] + 1
  {
    seq(|at|, i requires 0 <= i < |at| => at[i] + 1)
  }

  lemma InShifted(at: seq<int>, n: int)
    ensures n in Shifted(at) <==> n - 1 in at
  {
    var moved := Shifted(at);
    if n in moved {
      var i :| 0 <= i < |moved| && moved[i] == n;
      assert at[i] == n - 1;
    }
    if n - 1 in at {
      var i :| 0 <= i < |at| && at[i] == n - 1;
      assert moved[i] == n;
    }
  }

  lemma KeptBelow<T(!new)>(head: T, tail: seq<T>, kept: seq<T>, at: seq<int>)
    requires AreKept(tail, kept, at)
    ensures AreKept([head] + tail, kept, Shifted(at))
    ensures AreKept([head] + tail, [head] + kept, [0] + Shifted(at))
  {
    var items, moved := [head] + tail, Shifted(at);
    assert forall i :: 0 <= i < |at| ==> items[moved[i]] == tail[at[i]];
  }

  /** The items kept are exactly the first of their keys, in the order of the list. */
  lemma {:induction false} UniqueKeepsFirsts<T(!new)>(items: seq<T>, key: T -> JsString, seen: set<JsString>)
    returns (at: seq<int>)
    ensures AreKept(items, UniqueBeyond(items, key, seen), at)
    ensures forall n :: 0 <= n < |items| ==> (n in at <==> IsFirst(items, key, seen, n))
  {
    if items == [] {
      at := [];
    } else {
      var head, tail := items[0], items[1..];
      var isNew := key(head) !in seen;
      var next := if isNew then seen + {key(head)} else seen;
      var below := UniqueKeepsFirsts(tail, key, next);
      KeptBelow(head, tail, UniqueBeyond(tail, key, next), below);
      assert items == [head] + tail;
      at := if isNew then [0] + Shifted(below) else Shifted(below);
      forall n | 0 <= n < |items| ensures n in at <==> IsFirst(items, key, seen, n) {
        InShifted(below, n);
        if n > 0 {
          FirstInTail(items, key, seen, n);
        } else {
          assert -1 !in below;
        }
      }
    }
  }
}
