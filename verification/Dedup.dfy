/** Stable deduplication: of the elements sharing a key the first one stays. */
module Dedup {
  import opened Common

  predicate HasKey<T, K(==)>(key: T -> K, s: seq<T>, k: K) {
    exists i :: 0 <= i < |s| && key(s[i]) == k
  }

  predicate DistinctKeys<T, K(==)>(key: T -> K, s: seq<T>) {
    forall i, j :: 0 <= i < j < |s| ==> key(s[i]) != key(s[j])
  }

  /** The elements whose key occurs nowhere before them. */
  ghost function FirstWins<T, K>(key: T -> K, s: seq<T>): (r: seq<T>)
    ensures |r| <= |s|
  {
    if s == [] then []
    else
      var n := |s| - 1;
      FirstWins(key, s[..n]) + if HasKey(key, s[..n], key(s[n])) then [] else [s[n]]
  }

  lemma {:induction false} FirstWinsAppend<T, K>(key: T -> K, s: seq<T>, x: T)
    ensures FirstWins(key, s + [x]) ==
            if HasKey(key, s, key(x)) then FirstWins(key, s) else FirstWins(key, s) + [x]
  {
    assert (s + [x])[..|s|] == s;
  }

  lemma HasKeyConcat<T, K>(key: T -> K, a: seq<T>, b: seq<T>, k: K)
    ensures HasKey(key, a + b, k) <==> HasKey(key, a, k) || HasKey(key, b, k)
  {
    if i :| 0 <= i < |a| && key(a[i]) == k {
      assert key((a + b)[i]) == k;
    }
    if i :| 0 <= i < |b| && key(b[i]) == k {
      assert key((a + b)[|a| + i]) == k;
    }
  }

  /** No key is lost. */
  lemma {:induction false} FirstWinsKeepsKeys<T, K>(key: T -> K, s: seq<T>, k: K)
    ensures HasKey(key, FirstWins(key, s), k) <==> HasKey(key, s, k)
  {
    if s != [] {
      var n := |s| - 1;
      FirstWinsKeepsKeys(key, s[..n], k);
      assert s == s[..n] + [s[n]];
      HasKeyConcat(key, s[..n], [s[n]], k);
      HasKeyConcat(key, FirstWins(key, s[..n]), if HasKey(key, s[..n], key(s[n])) then [] else [s[n]], k);
      assert key([s[n]][0]) == key(s[n]);
    }
  }

  /** No key is left twice. */
  lemma {:induction false} FirstWinsDistinct<T, K>(key: T -> K, s: seq<T>)
    ensures DistinctKeys(key, FirstWins(key, s))
  {
    if s != [] {
      var n := |s| - 1;
      FirstWinsDistinct(key, s[..n]);
      FirstWinsKeepsKeys(key, s[..n], key(s[n]));
    }
  }

  /** What is left came from `s`. */
  lemma {:induction false} FirstWinsSelects<T, K>(key: T -> K, s: seq<T>)
    ensures forall x :: x in FirstWins(key, s) ==> x in s
  {
    if s != [] {
      FirstWinsSelects(key, s[..|s| - 1]);
    }
  }

  /** `at` are increasing positions of first occurrences, and `r` is what is there. */
  ghost predicate Selects<T, K>(key: T -> K, s: seq<T>, at: seq<nat>, r: seq<T>) {
    && |at| == |r|
    && (forall i, j :: 0 <= i < j < |at| ==> at[i] < at[j])
    && (forall i :: 0 <= i < |at| ==> at[i] < |s| && s[at[i]] == r[i] && !HasKey(key, s[..at[i]], key(r[i])))
  }

  lemma SelectsAppend<T, K>(key: T -> K, s: seq<T>, at: seq<nat>, r: seq<T>, x: T)
    requires Selects(key, s, at, r)
    ensures Selects(key, s + [x], at, r)
    ensures !HasKey(key, s, key(x)) ==> Selects(key, s + [x], at + [|s|], r + [x])
  {
    assert (s + [x])[..|s|] == s;
    forall i | 0 <= i < |at| ensures (s + [x])[..at[i]] == s[..at[i]] {
    }
  }

  /** What is left is a stable selection of first occurrences. */
  lemma {:induction false} FirstWinsPositions<T, K>(key: T -> K, s: seq<T>) returns (at: seq<nat>)
    ensures Selects(key, s, at, FirstWins(key, s))
  {
    at := [];
    if s != [] {
      var n := |s| - 1;
      at := FirstWinsPositions(key, s[..n]);
      assert s == s[..n] + [s[n]];
      SelectsAppend(key, s[..n], at, FirstWins(key, s[..n]), s[n]);
      if !HasKey(key, s[..n], key(s[n])) {
        at := at + [n];
      }
    }
  }

  /** What comes first stays in front. */
  lemma {:induction false} FirstWinsPrefix<T, K>(key: T -> K, a: seq<T>, b: seq<T>)
    ensures FirstWins(key, a) <= FirstWins(key, a + b)
  {
    if b == [] {
      assert a + b == a;
    } else {
      var front, x := b[..|b| - 1], b[|b| - 1];
      FirstWinsPrefix(key, a, front);
      assert a + b == (a + front) + [x];
      FirstWinsAppend(key, a + front, x);
    }
  }

  lemma {:induction false} DistinctIsFixed<T, K>(key: T -> K, s: seq<T>)
    requires DistinctKeys(key, s)
    ensures FirstWins(key, s) == s
  {
    if s != [] {
      var n := |s| - 1;
      DistinctIsFixed(key, s[..n]);
      assert s == s[..n] + [s[n]];
    }
  }

  /** Deduplicating a front part first changes nothing. */
  lemma {:induction false} FirstWinsFront<T, K>(key: T -> K, a: seq<T>, b: seq<T>)
    ensures FirstWins(key, FirstWins(key, a) + b) == FirstWins(key, a + b)
  {
    var f := FirstWins(key, a);
    if b == [] {
      assert f + b == f && a + b == a;
      FirstWinsDistinct(key, a);
      DistinctIsFixed(key, f);
    } else {
      var front, x := b[..|b| - 1], b[|b| - 1];
      FirstWinsFront(key, a, front);
      assert f + b == (f + front) + [x] && a + b == (a + front) + [x];
      FirstWinsAppend(key, f + front, x);
      FirstWinsAppend(key, a + front, x);
      HasKeyConcat(key, f, front, key(x));
      HasKeyConcat(key, a, front, key(x));
      FirstWinsKeepsKeys(key, a, key(x));
    }
  }

  /** Nor does deduplicating a back part first. */
  lemma {:induction false} FirstWinsBack<T, K>(key: T -> K, a: seq<T>, b: seq<T>)
    ensures FirstWins(key, a + FirstWins(key, b)) == FirstWins(key, a + b)
  {
    if b == [] {
      assert FirstWins(key, b) == b;
    } else {
      var front, x := b[..|b| - 1], b[|b| - 1];
      var f := FirstWins(key, front);
      FirstWinsBack(key, a, front);
      assert a + b == (a + front) + [x];
      FirstWinsAppend(key, a + front, x);
      HasKeyConcat(key, a, front, key(x));
      if HasKey(key, front, key(x)) {
        assert FirstWins(key, b) == f;
      } else {
        assert FirstWins(key, b) == f + [x];
        assert a + (f + [x]) == (a + f) + [x];
        FirstWinsAppend(key, a + f, x);
        HasKeyConcat(key, a, f, key(x));
        FirstWinsKeepsKeys(key, front, key(x));
      }
    }
  }

  /** Hence merging is associative, whatever the lists. */
  lemma {:induction false} FirstWinsAssociative<T, K>(key: T -> K, a: seq<T>, b: seq<T>, c: seq<T>)
    ensures FirstWins(key, FirstWins(key, a + b) + c) == FirstWins(key, a + FirstWins(key, b + c))
  {
    calc {
      FirstWins(key, FirstWins(key, a + b) + c);
      { FirstWinsFront(key, a + b, c); }
      FirstWins(key, (a + b) + c);
      { assert (a + b) + c == a + (b + c); }
      FirstWins(key, a + (b + c));
      { FirstWinsBack(key, a, b + c); }
      FirstWins(key, a + FirstWins(key, b + c));
    }
  }

  lemma {:induction false} FirstWinsThree<T, K>(key: T -> K, a: seq<T>, b: seq<T>, c: seq<T>)
    ensures FirstWins(key, a + FirstWins(key, b + c)) == FirstWins(key, a + b + c)
  {
    FirstWinsBack(key, a, b + c);
    assert a + (b + c) == a + b + c;
  }

  /** What one turn of a deduplicating loop does to the keys seen so far. */
  lemma HasKeyAppend<T, K>(key: T -> K, s: seq<T>, x: T)
    ensures forall k :: HasKey(key, s + [x], k) <==> HasKey(key, s, k) || k == key(x)
  {
    forall k ensures HasKey(key, s + [x], k) <==> HasKey(key, s, k) || k == key(x) {
      HasKeyConcat(key, s, [x], k);
      assert key([x][0]) == key(x);
    }
  }

  // ---- Lists with nil entries ---------------------------------------------------

  function NonNil<T>(s: seq<Option<T>>): seq<T> {
    if s == [] then []
    else
      var last := s[|s| - 1];
      NonNil(s[..|s| - 1]) + if last.Some? then [last.value] else []
  }

  lemma {:induction false} NonNilAppend<T>(s: seq<Option<T>>, x: Option<T>)
    ensures NonNil(s + [x]) == if x.Some? then NonNil(s) + [x.value] else NonNil(s)
  {
    assert (s + [x])[..|s|] == s;
  }

  lemma {:induction false} NonNilEmptyIff<T>(s: seq<Option<T>>)
    ensures NonNil(s) == [] <==> forall i :: 0 <= i < |s| ==> s[i].None?
  {
    if s != [] {
      NonNilEmptyIff(s[..|s| - 1]);
    }
  }

  lemma {:induction false} NonNilElements<T>(s: seq<Option<T>>, x: T)
    ensures x in NonNil(s) <==> Some(x) in s
  {
    if s != [] {
      NonNilElements(s[..|s| - 1], x);
      assert s == s[..|s| - 1] + [s[|s| - 1]];
    }
  }

  /** `at` are increasing positions, and `r` are the values there. */
  ghost predicate PicksValues<T>(s: seq<Option<T>>, at: seq<nat>, r: seq<T>) {
    && |at| == |r|
    && (forall i, j :: 0 <= i < j < |at| ==> at[i] < at[j])
    && (forall i :: 0 <= i < |at| ==> at[i] < |s| && s[at[i]] == Some(r[i]))
  }

  /** No position beside `at` holds a value. */
  ghost predicate NoOthers<T>(s: seq<Option<T>>, at: seq<nat>) {
    forall n: nat :: n < |s| && n !in at ==> s[n].None?
  }

  lemma {:induction false} PicksAppend<T>(s: seq<Option<T>>, at: seq<nat>, r: seq<T>, x: Option<T>)
    requires PicksValues(s, at, r)
    ensures PicksValues(s + [x], at, r)
    ensures x.Some? ==> PicksValues(s + [x], at + [|s|], r + [x.value])
  {
  }

  lemma {:induction false} NoOthersAppend<T>(s: seq<Option<T>>, at: seq<nat>, x: Option<T>)
    requires NoOthers(s, at)
    ensures NoOthers(s + [x], if x.Some? then at + [|s|] else at)
  {
    var more := if x.Some? then at + [|s|] else at;
    forall n: nat | n < |s| + 1 && n !in more ensures (s + [x])[n].None? {
      assert n in at ==> n in at + [|s|];
      assert (at + [|s|])[|at|] == |s|;
    }
  }

  /** What is not nil, all of it, in its order. */
  lemma {:induction false} NonNilPositions<T>(s: seq<Option<T>>) returns (at: seq<nat>)
    ensures PicksValues(s, at, NonNil(s)) && NoOthers(s, at)
  {
    at := [];
    if s != [] {
      var front, x := s[..|s| - 1], s[|s| - 1];
      at := NonNilPositions(front);
      PicksAppend(front, at, NonNil(front), x);
      NoOthersAppend(front, at, x);
      assert front + [x] == s;
      at := if x.Some? then at + [|front|] else at;
    }
  }

  /** The collecting loop of the merge and of the chain builder: skip nil, keep
      what has an unseen key, remember the key. */
  method CollectFirst<T, K(==)>(key: T -> K, s: seq<Option<T>>, ghost earlier: seq<T>, seen: set<K>, all: seq<T>)
    returns (nowSeen: set<K>, collected: seq<T>)
    requires all == FirstWins(key, earlier)
    requires forall k :: k in seen <==> HasKey(key, earlier, k)
    ensures collected == FirstWins(key, earlier + NonNil(s))
    ensures forall k :: k in nowSeen <==> HasKey(key, earlier + NonNil(s), k)
  {
    nowSeen, collected := seen, all;
    ghost var sofar := earlier;
    for i := 0 to |s|
      invariant sofar == earlier + NonNil(s[..i])
      invariant collected == FirstWins(key, sofar)
      invariant forall k :: k in nowSeen <==> HasKey(key, sofar, k)
    {
      assert s[..i + 1] == s[..i] + [s[i]];
      NonNilAppend(s[..i], s[i]);
      if s[i].Some? {
        var x := s[i].value;
        assert key(x) in nowSeen <==> HasKey(key, sofar, key(x));
        FirstWinsAppend(key, sofar, x);
        HasKeyAppend(key, sofar, x);
        if key(x) !in nowSeen {
          nowSeen := nowSeen + {key(x)};
          collected := collected + [x];
          assert collected == FirstWins(key, sofar + [x]);
        } else {
          assert collected == FirstWins(key, sofar + [x]);
        }
        sofar := sofar + [x];
      }
    }
    assert s[..|s|] == s;
  }
}
