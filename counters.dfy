/** `collections.Counter` as the miner uses it: an insertion-ordered table of
    distinct keys with counts. `c[k] += n` updates an existing entry in place
    or appends a new one at the end, and `c.update(d)` does that for every
    entry of `d` in `d`'s order. */
module Counters {

  datatype Entry = Entry(key: string, count: nat)

  type Counter = seq<Entry>

  /** No key occurs twice (as in any Python dict). */
  predicate Distinct(c: Counter) {
    forall i, j :: 0 <= i < j < |c| ==> c[i].key != c[j].key
  }

  function Keys(c: Counter): set<string> {
    set i | 0 <= i < |c| :: c[i].key
  }

  /** `c[k]`: the count stored for `k`, and 0 for a missing key. */
  function Get(c: Counter, k: string): nat {
    if |c| == 0 then 0
    else (if c[0].key == k then c[0].count else 0) + Get(c[1..], k)
  }

  /** `c[k] += n` */
  function Add(c: Counter, k: string, n: nat): (r: Counter)
    ensures |r| == |c| || |r| == |c| + 1
  {
    if |c| == 0 then [Entry(k, n)]
    else if c[0].key == k then [Entry(k, c[0].count + n)] + c[1..]
    else [c[0]] + Add(c[1..], k, n)
  }

  /** `c.update(d)` */
  function Update(c: Counter, d: Counter): Counter
    decreases |d|
  {
    if |d| == 0 then c else Update(Add(c, d[0].key, d[0].count), d[1..])
  }

  lemma {:induction false} GetMissing(c: Counter, k: string)
    requires k !in Keys(c)
    ensures Get(c, k) == 0
  {
    if |c| > 0 {
      assert Keys(c[1..]) <= Keys(c) by {
        forall x | x in Keys(c[1..]) ensures x in Keys(c) {
          var i :| 0 <= i < |c[1..]| && c[1..][i].key == x;
          assert c[i + 1].key == x;
        }
      }
      GetMissing(c[1..], k);
    }
  }

  /** Adding `n` to one key changes that key's count by `n` and no other count. */
  lemma {:induction false} GetAdd(c: Counter, k: string, n: nat, j: string)
    ensures Get(Add(c, k, n), j) == Get(c, j) + (if j == k then n else 0)
  {
    if |c| > 0 && c[0].key != k {
      GetAdd(c[1..], k, n, j);
      assert Add(c, k, n)[1..] == Add(c[1..], k, n);
    } else if |c| > 0 {
      assert Add(c, k, n)[1..] == c[1..];
    }
  }

  lemma {:induction false} KeysAdd(c: Counter, k: string, n: nat)
    ensures Keys(Add(c, k, n)) == Keys(c) + {k}
  {
    var r := Add(c, k, n);
    if |c| > 0 && c[0].key != k {
      KeysAdd(c[1..], k, n);
      assert r == [c[0]] + Add(c[1..], k, n);
      KeysCons(c[0], Add(c[1..], k, n));
      KeysCons(c[0], c[1..]);
      assert [c[0]] + c[1..] == c;
    } else if |c| > 0 {
      assert r == [Entry(k, c[0].count + n)] + c[1..];
      KeysCons(Entry(k, c[0].count + n), c[1..]);
      assert [c[0]] + c[1..] == c;
      KeysCons(c[0], c[1..]);
      assert Keys(c) == {k} + Keys(c[1..]);
    } else {
      assert r[0].key == k;
    }
  }

  lemma KeysCons(e: Entry, c: Counter)
    ensures Keys([e] + c) == {e.key} + Keys(c)
  {
    var s := [e] + c;
    forall x | x in Keys(s) ensures x in {e.key} + Keys(c) {
      var i :| 0 <= i < |s| && s[i].key == x;
      if i > 0 {
        assert c[i - 1].key == x;
      }
    }
    forall x | x in Keys(c) ensures x in Keys(s) {
      var i :| 0 <= i < |c| && c[i].key == x;
      assert s[i + 1].key == x;
    }
    assert s[0].key == e.key;
  }

  lemma {:induction false} DistinctAdd(c: Counter, k: string, n: nat)
    requires Distinct(c)
    ensures Distinct(Add(c, k, n))
  {
    var r := Add(c, k, n);
    if |c| > 0 && c[0].key != k {
      DistinctAdd(c[1..], k, n);
      KeysAdd(c[1..], k, n);
      forall j | 0 <= j < |c[1..]| ensures c[1..][j].key != c[0].key {
        assert c[j + 1].key == c[1..][j].key;
      }
      forall j | 0 < j < |r| ensures r[j].key != r[0].key {
        var t := Add(c[1..], k, n);
        assert r[j] == t[j - 1];
        assert t[j - 1].key in Keys(t);
        if t[j - 1].key in Keys(c[1..]) {
          var m :| 0 <= m < |c[1..]| && c[1..][m].key == t[j - 1].key;
        }
      }
    }
  }

  /** `c[k] += n` on a distinct counter, all effects at once. */
  lemma AddEffect(c: Counter, k: string, n: nat)
    requires Distinct(c)
    ensures Distinct(Add(c, k, n)) && Keys(Add(c, k, n)) == Keys(c) + {k}
    ensures forall j :: Get(Add(c, k, n), j) == Get(c, j) + (if j == k then n else 0)
  {
    DistinctAdd(c, k, n);
    KeysAdd(c, k, n);
    forall j ensures Get(Add(c, k, n), j) == Get(c, j) + (if j == k then n else 0) {
      GetAdd(c, k, n, j);
    }
  }

  /** `update` merges by key-wise sum. */
  lemma {:induction false} GetUpdate(c: Counter, d: Counter, j: string)
    ensures Get(Update(c, d), j) == Get(c, j) + Get(d, j)
    decreases |d|
  {
    if |d| > 0 {
      GetUpdate(Add(c, d[0].key, d[0].count), d[1..], j);
      GetAdd(c, d[0].key, d[0].count, j);
    }
  }

  lemma {:induction false} KeysUpdate(c: Counter, d: Counter)
    ensures Keys(Update(c, d)) == Keys(c) + Keys(d)
    decreases |d|
  {
    if |d| > 0 {
      KeysAdd(c, d[0].key, d[0].count);
      KeysUpdate(Add(c, d[0].key, d[0].count), d[1..]);
      assert [d[0]] + d[1..] == d;
      KeysCons(d[0], d[1..]);
    }
  }

  lemma {:induction false} DistinctUpdate(c: Counter, d: Counter)
    requires Distinct(c)
    ensures Distinct(Update(c, d))
    decreases |d|
  {
    if |d| > 0 {
      DistinctAdd(c, d[0].key, d[0].count);
      DistinctUpdate(Add(c, d[0].key, d[0].count), d[1..]);
    }
  }

  /** A distinct counter holds exactly one entry per key, whose count `Get` returns. */
  lemma {:induction false} GetEntry(c: Counter, i: nat)
    requires Distinct(c) && i < |c|
    ensures Get(c, c[i].key) == c[i].count
  {
    if i == 0 {
      forall m | 0 <= m < |c[1..]| ensures c[1..][m].key != c[0].key {
        assert c[1..][m] == c[m + 1];
      }
      assert c[0].key !in Keys(c[1..]);
      GetMissing(c[1..], c[0].key);
    } else {
      assert c[1..][i - 1] == c[i];
      GetEntry(c[1..], i - 1);
    }
  }
}
