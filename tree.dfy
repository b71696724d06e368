/**
 * A sled tree: records kept in ascending key order, one per key.
 * `Values` is `get_all` (records in key order), `Insert` is `insert`
 * (a new key or an overwrite), `Remove` is `remove` and `InsertAll` is
 * `save_all` (a batch whose later items win).
 */
module Tree {
  import opened Wrappers
  import opened Lex

  predicate Ordered<T(!new)>(r: seq<(string, T)>) {
    forall i, j :: 0 <= i < j < |r| ==> Less(r[i].0, r[j].0)
  }

  lemma OrderedTail<T(!new)>(r: seq<(string, T)>)
    requires Ordered(r) && |r| > 0
    ensures Ordered(r[1..])
  {
    forall i, j | 0 <= i < j < |r[1..]| ensures Less(r[1..][i].0, r[1..][j].0) {
      assert r[1..][i] == r[i + 1] && r[1..][j] == r[j + 1];
    }
  }

  function Get<T(!new)>(r: seq<(string, T)>, k: string): (v: Option<T>)
    ensures v.Some? <==> exists i :: 0 <= i < |r| && r[i].0 == k
    ensures v.Some? ==> exists i :: 0 <= i < |r| && r[i] == (k, v.value)
  {
    if |r| == 0 then None
    else if r[0].0 == k then Some(r[0].1)
    else
      var v := Get(r[1..], k);
      assert forall i :: 0 < i < |r| ==> r[i] == r[1..][i - 1];
      v
  }

  /** The value at a key of an ordered tree is the one stored with it. */
  lemma GetAt<T(!new)>(r: seq<(string, T)>, i: int)
    requires Ordered(r) && 0 <= i < |r|
    ensures Get(r, r[i].0) == Some(r[i].1)
  {
    if i > 0 {
      assert Less(r[0].0, r[i].0);
      LessAsymmetric(r[0].0, r[i].0);
      OrderedTail(r);
      GetAt(r[1..], i - 1);
    }
  }

  predicate HasKey<T(!new)>(r: seq<(string, T)>, k: string) {
    Get(r, k).Some?
  }

  function Keys<T(!new)>(r: seq<(string, T)>): (ks: seq<string>)
    ensures |ks| == |r| && forall i :: 0 <= i < |r| ==> ks[i] == r[i].0
  {
    seq(|r|, i requires 0 <= i < |r| => r[i].0)
  }

  /** `get_all`: every record, in key order. */
  function Values<T(!new)>(r: seq<(string, T)>): (vs: seq<T>)
    ensures |vs| == |r| && forall i :: 0 <= i < |r| ==> vs[i] == r[i].1
  {
    seq(|r|, i requires 0 <= i < |r| => r[i].1)
  }

  /**
   * `get_all` and `get` agree: each record `get_all` lists is what `get`
   * returns for its key, and whatever `get` finds is among them.
   */
  lemma ValuesAgreeWithGet<T(!new)>(r: seq<(string, T)>, k: string)
    requires Ordered(r)
    ensures forall i :: 0 <= i < |r| ==> Get(r, r[i].0) == Some(Values(r)[i])
    ensures Get(r, k).Some? ==> Get(r, k).value in Values(r)
  {
    forall i | 0 <= i < |r| ensures Get(r, r[i].0) == Some(Values(r)[i]) {
      GetAt(r, i);
    }
    if Get(r, k).Some? {
      var i :| 0 <= i < |r| && r[i] == (k, Get(r, k).value);
      assert Values(r)[i] == Get(r, k).value;
    }
  }

  function Insert<T(!new)>(r: seq<(string, T)>, k: string, v: T): (r': seq<(string, T)>)
    requires Ordered(r)
    ensures Ordered(r')
    ensures forall i :: 0 <= i < |r'| ==> r'[i] == (k, v) || r'[i] in r
    ensures forall x :: x in r && x.0 != k ==> x in r'
    ensures (k, v) in r'
  {
    if |r| == 0 then [(k, v)]
    else if r[0].0 == k then
      OrderedTail(r);
      assert forall j :: 0 < j < |r| ==> Less(k, r[j].0);
      [(k, v)] + r[1..]
    else if Less(k, r[0].0) then
      assert forall j :: 0 < j < |r| ==> Less(k, r[j].0) by {
        forall j | 0 < j < |r| ensures Less(k, r[j].0) {
          LessTransitive(k, r[0].0, r[j].0);
        }
      }
      [(k, v)] + r
    else
      LessTotal(k, r[0].0);
      OrderedTail(r);
      var rest := Insert(r[1..], k, v);
      assert forall j :: 0 <= j < |rest| ==> Less(r[0].0, rest[j].0) by {
        forall j | 0 <= j < |rest| ensures Less(r[0].0, rest[j].0) {
          if rest[j] != (k, v) {
            var m :| 0 <= m < |r[1..]| && r[1..][m] == rest[j];
            assert Less(r[0].0, r[m + 1].0);
          }
        }
      }
      assert r == [r[0]] + r[1..];
      [r[0]] + rest
  }

  function Remove<T(!new)>(r: seq<(string, T)>, k: string): (r': seq<(string, T)>)
    requires Ordered(r)
    ensures Ordered(r')
    ensures forall x :: x in r' <==> x in r && x.0 != k
  {
    if |r| == 0 then []
    else
      OrderedTail(r);
      HeadSplit(r);
      if r[0].0 == k then
        HeadKeyNotInTail(r);
        r[1..]
      else
        var rest := Remove(r[1..], k);
        HeadBelowSubset(r, rest);
        [r[0]] + rest
  }

  lemma HeadSplit<T>(r: seq<(string, T)>)
    requires |r| > 0
    ensures r == [r[0]] + r[1..]
    ensures forall x :: x in r <==> x == r[0] || x in r[1..]
  {
  }

  /** The head's key is not found again further on. */
  lemma HeadKeyNotInTail<T(!new)>(r: seq<(string, T)>)
    requires Ordered(r) && |r| > 0
    ensures forall x :: x in r[1..] ==> x.0 != r[0].0
  {
    forall x | x in r[1..] ensures x.0 != r[0].0 {
      var m :| 0 <= m < |r[1..]| && r[1..][m] == x;
      assert Less(r[0].0, r[m + 1].0);
      LessAsymmetric(r[0].0, r[m + 1].0);
    }
  }

  /** What is drawn from the tail has keys above the head's, so the head can go in front. */
  lemma HeadBelowSubset<T(!new)>(r: seq<(string, T)>, rest: seq<(string, T)>)
    requires Ordered(r) && |r| > 0 && Ordered(rest)
    requires forall x :: x in rest ==> x in r[1..]
    ensures Ordered([r[0]] + rest)
  {
    forall j | 0 <= j < |rest| ensures Less(r[0].0, rest[j].0) {
      assert rest[j] in rest;
      var m :| 0 <= m < |r[1..]| && r[1..][m] == rest[j];
      assert Less(r[0].0, r[m + 1].0);
    }
    var s := [r[0]] + rest;
    forall i, j | 0 <= i < j < |s| ensures Less(s[i].0, s[j].0) {
      if i > 0 {
        assert s[i] == rest[i - 1] && s[j] == rest[j - 1];
      } else {
        assert s[j] == rest[j - 1];
      }
    }
  }


  /** `save_all`: insert every item in turn, so a later item overwrites an earlier one. */
  function InsertAll<T(!new)>(r: seq<(string, T)>, items: seq<(string, T)>): (r': seq<(string, T)>)
    requires Ordered(r)
    ensures Ordered(r')
    decreases |items|
  {
    if |items| == 0 then r else InsertAll(Insert(r, items[0].0, items[0].1), items[1..])
  }

  /** The value the last item with key `k` carries, if any. */
  function LastWith<T(!new)>(items: seq<(string, T)>, k: string): (v: Option<T>)
    ensures v.None? <==> forall i :: 0 <= i < |items| ==> items[i].0 != k
    ensures v.Some? ==> exists i :: 0 <= i < |items| && items[i] == (k, v.value)
  {
    if |items| == 0 then None
    else if items[|items| - 1].0 == k then Some(items[|items| - 1].1)
    else
      var v := LastWith(items[..|items| - 1], k);
      assert forall i :: 0 <= i < |items| - 1 ==> items[..|items| - 1][i] == items[i];
      v
  }

  /** After `save_all` a key holds its last item's value, or what it held before. */
  lemma {:induction false} GetInsertAll<T(!new)>(r: seq<(string, T)>, items: seq<(string, T)>, k: string)
    requires Ordered(r)
    ensures Get(InsertAll(r, items), k) == if LastWith(items, k).Some? then LastWith(items, k) else Get(r, k)
    decreases |items|
  {
    if |items| > 0 {
      var r1 := Insert(r, items[0].0, items[0].1);
      GetInsertAll(r1, items[1..], k);
      GetInsert(r, items[0].0, items[0].1, k);
      LastWithFront(items, k);
    }
  }

  lemma {:induction false} LastWithFront<T(!new)>(items: seq<(string, T)>, k: string)
    requires |items| > 0
    ensures LastWith(items, k) == if LastWith(items[1..], k).Some? then LastWith(items[1..], k)
                                  else if items[0].0 == k then Some(items[0].1) else None
    decreases |items|
  {
    if |items| > 1 {
      var n := |items|;
      if items[n - 1].0 != k {
        assert items[..n - 1][1..] == items[1..][..n - 2];
        LastWithFront(items[..n - 1], k);
        assert items[..n - 1][0] == items[0];
      } else {
        assert items[1..][n - 2] == items[n - 1];
      }
    }
  }

  /** The record found at `k` after a lookup, in terms of the tree's contents. */
  lemma GetOrdered<T(!new)>(r: seq<(string, T)>, k: string)
    requires Ordered(r)
    ensures forall v :: Get(r, k) == Some(v) <==> (k, v) in r
  {
    forall v ensures Get(r, k) == Some(v) <==> (k, v) in r {
      if (k, v) in r {
        var i :| 0 <= i < |r| && r[i] == (k, v);
        GetAt(r, i);
      }
    }
  }

  lemma GetInsert<T(!new)>(r: seq<(string, T)>, k: string, v: T, k': string)
    requires Ordered(r)
    ensures Get(Insert(r, k, v), k') == if k' == k then Some(v) else Get(r, k')
  {
    var r' := Insert(r, k, v);
    GetOrdered(r, k');
    GetOrdered(r', k');
    if k' == k {
    } else if Get(r, k').Some? {
      assert (k', Get(r, k').value) in r';
    }
  }

  lemma GetRemove<T(!new)>(r: seq<(string, T)>, k: string, k': string)
    requires Ordered(r)
    ensures Get(Remove(r, k), k') == if k' == k then None else Get(r, k')
  {
    var r' := Remove(r, k);
    GetOrdered(r, k');
    GetOrdered(r', k');
    if k' != k {
      if Get(r, k').Some? {
        assert (k', Get(r, k').value) in r';
      }
    }
  }

  /** Removing a key the tree does not hold leaves it as it is. */
  lemma RemoveAbsent<T(!new)>(r: seq<(string, T)>, k: string)
    requires Ordered(r) && Get(r, k).None?
    ensures Remove(r, k) == r
  {
    forall k' ensures Get(Remove(r, k), k') == Get(r, k') {
      GetRemove(r, k, k');
    }
    Extensionality(Remove(r, k), r);
  }

  /** An ordered tree is determined by what its keys hold. */
  lemma {:induction false} Extensionality<T(!new)>(a: seq<(string, T)>, b: seq<(string, T)>)
    requires Ordered(a) && Ordered(b)
    requires forall k :: Get(a, k) == Get(b, k)
    ensures a == b
  {
    forall x ensures x in a <==> x in b {
      GetOrdered(a, x.0);
      GetOrdered(b, x.0);
    }
    SameElementsOrdered(a, b);
  }

  lemma {:induction false} SameElementsOrdered<T(!new)>(a: seq<(string, T)>, b: seq<(string, T)>)
    requires Ordered(a) && Ordered(b)
    requires forall x :: x in a <==> x in b
    ensures a == b
    decreases |a|
  {
    if |a| == 0 {
      if |b| > 0 {
        Present(b, 0);
      }
    } else {
      Present(a, 0);
      assert |b| > 0;
      Present(b, 0);
      Head(a, b[0]);
      Head(b, a[0]);
      if Less(a[0].0, b[0].0) {
        LessAsymmetric(a[0].0, b[0].0);
      }
      assert a[0] == b[0];
      OrderedTail(a);
      OrderedTail(b);
      forall x ensures x in a[1..] <==> x in b[1..] {
        if x in a[1..] {
          var i :| 0 <= i < |a[1..]| && a[1..][i] == x;
          assert Less(a[0].0, a[i + 1].0);
          LessAsymmetric(a[0].0, x.0);
          assert x in b;
        }
        if x in b[1..] {
          var j :| 0 <= j < |b[1..]| && b[1..][j] == x;
          assert Less(b[0].0, b[j + 1].0);
          LessAsymmetric(b[0].0, x.0);
          assert x in a;
        }
      }
      SameElementsOrdered(a[1..], b[1..]);
      assert a == [a[0]] + a[1..] && b == [b[0]] + b[1..];
    }
  }

  lemma Present<T(!new)>(r: seq<(string, T)>, i: int)
    requires 0 <= i < |r|
    ensures r[i] in r
  {
  }

  lemma Head<T(!new)>(r: seq<(string, T)>, x: (string, T))
    requires Ordered(r) && x in r
    ensures x == r[0] || x.0 == r[0].0 || Less(r[0].0, x.0)
  {
    var i :| 0 <= i < |r| && r[i] == x;
    if i > 0 {
      assert Less(r[0].0, r[i].0);
    }
  }

  /** An ordered tree holds one record per key. */
  lemma Distinct<T(!new)>(r: seq<(string, T)>, x: (string, T), y: (string, T))
    requires Ordered(r) && x in r && y in r && x.0 == y.0
    ensures x == y
  {
    var i :| 0 <= i < |r| && r[i] == x;
    var j :| 0 <= j < |r| && r[j] == y;
    if i < j {
      assert Less(r[i].0, r[j].0);
      LessIrreflexive(x.0);
    } else if j < i {
      assert Less(r[j].0, r[i].0);
      LessIrreflexive(x.0);
    }
  }
}
