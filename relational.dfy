/**
 * The pandas operations the feature builder relies on, over tables modelled
 * as sequences of rows whose join column is picked out by a key function:
 * the distinct keys of a column, a group count, a group sum and an inner
 * merge.
 */
module Relational {

  ghost predicate Distinct<K>(s: seq<K>) {
    forall i, j :: 0 <= i < j < |s| ==> s[i] != s[j]
  }

  /** The distinct values of s, each at the place of its first occurrence. */
  function Dedup<K(==,!new)>(s: seq<K>): (r: seq<K>)
    ensures Distinct(r)
    ensures forall x :: x in r <==> x in s
  {
    if |s| == 0 then []
    else
      var d := Dedup(s[..|s| - 1]);
      assert forall x :: x in s <==> x in s[..|s| - 1] || x == s[|s| - 1];
      if s[|s| - 1] in d then d else d + [s[|s| - 1]]
  }

  function Ident(x: string): string { x }

  /** The set of keys a table carries. */
  ghost function Keys<A>(rows: seq<A>, key: A -> string): set<string> {
    set i | 0 <= i < |rows| :: key(rows[i])
  }

  /** The number of rows whose key is x. */
  function CountKey<A>(rows: seq<A>, key: A -> string, x: string): (n: nat)
    ensures n <= |rows|
  {
    if |rows| == 0 then 0
    else (if key(rows[0]) == x then 1 else 0) + CountKey(rows[1..], key, x)
  }

  /** A key has a positive count exactly when some row carries it. */
  lemma {:induction false} CountKeyPositive<A>(rows: seq<A>, key: A -> string, x: string)
    ensures CountKey(rows, key, x) > 0 <==> exists i :: 0 <= i < |rows| && key(rows[i]) == x
  {
    if |rows| > 0 {
      CountKeyPositive(rows[1..], key, x);
      assert forall i :: 0 < i < |rows| ==> rows[1..][i - 1] == rows[i];
      if key(rows[0]) != x && CountKey(rows, key, x) > 0 {
        var i :| 0 <= i < |rows[1..]| && key(rows[1..][i]) == x;
        assert key(rows[i + 1]) == x;
      }
    }
  }

  /** The sum of w over the rows whose key is x (a group sum; NaN-free columns). */
  function SumKey<A>(rows: seq<A>, key: A -> string, w: A -> real, x: string): real {
    if |rows| == 0 then 0.0
    else (if key(rows[0]) == x then w(rows[0]) else 0.0) + SumKey(rows[1..], key, w, x)
  }

  /** The column total of w. */
  function Total<A>(rows: seq<A>, w: A -> real): real {
    if |rows| == 0 then 0.0 else w(rows[0]) + Total(rows[1..], w)
  }

  /** The group counts of the keys ks, added up. */
  function CountsOver<A>(ks: seq<string>, rows: seq<A>, key: A -> string): nat {
    if |ks| == 0 then 0 else CountKey(rows, key, ks[0]) + CountsOver(ks[1..], rows, key)
  }

  /** The group sums of the keys ks, added up. */
  function SumsOver<A>(ks: seq<string>, rows: seq<A>, key: A -> string, w: A -> real): real {
    if |ks| == 0 then 0.0 else SumKey(rows, key, w, ks[0]) + SumsOver(ks[1..], rows, key, w)
  }

  // ---------------------------------------------------------------------
  // Distinct keys

  /** Appending a key to two columns with the same distinct keys keeps them equal. */
  lemma DedupSnoc<K(!new)>(s: seq<K>, t: seq<K>, x: K)
    requires Dedup(s) == Dedup(t)
    ensures Dedup(s + [x]) == Dedup(t + [x])
  {
    assert (s + [x])[..|s|] == s && (t + [x])[..|t|] == t;
  }

  /** Repeating the last key any number of times does not change the distinct keys. */
  lemma {:induction false} DedupRepeat<K(!new)>(s: seq<K>, b: seq<K>, x: K)
    requires |b| > 0 && forall i :: 0 <= i < |b| ==> b[i] == x
    ensures Dedup(s + b) == Dedup(s + [x])
    decreases |b|
  {
    if |b| > 1 {
      var b' := b[..|b| - 1];
      DedupRepeat(s, b', x);
      assert (s + b)[..|s + b| - 1] == s + b';
      assert (s + b)[|s + b| - 1] == x;
      assert x in Dedup(s + [x]);
    } else {
      assert b == [x];
    }
  }

  lemma {:induction false} DistinctCount(ks: seq<string>, x: string)
    requires Distinct(ks)
    ensures CountKey(ks, Ident, x) == if x in ks then 1 else 0
  {
    if |ks| > 0 {
      assert Distinct(ks[1..]) by {
        forall i, j | 0 <= i < j < |ks[1..]| ensures ks[1..][i] != ks[1..][j] {
          assert ks[1..][i] == ks[i + 1] && ks[1..][j] == ks[j + 1];
        }
      }
      DistinctCount(ks[1..], x);
      assert x in ks <==> x == ks[0] || x in ks[1..];
      if ks[0] == x {
        assert x !in ks[1..] by {
          forall j | 0 <= j < |ks[1..]| ensures ks[1..][j] != x {
            assert ks[1..][j] == ks[j + 1];
          }
        }
      }
    }
  }

  // ---------------------------------------------------------------------
  // Counting rows

  lemma {:induction false} CountKeyConcat<A>(a: seq<A>, b: seq<A>, key: A -> string, x: string)
    ensures CountKey(a + b, key, x) == CountKey(a, key, x) + CountKey(b, key, x)
  {
    if |a| == 0 {
      assert a + b == b;
    } else {
      assert (a + b)[0] == a[0] && (a + b)[1..] == a[1..] + b;
      CountKeyConcat(a[1..], b, key, x);
    }
  }

  /** Two tables whose rows carry the same keys, row for row, have the same group counts. */
  lemma {:induction false} CountKeyPointwise<A, B>(s: seq<A>, t: seq<B>, ks: A -> string, kt: B -> string, x: string)
    requires |s| == |t| && forall i :: 0 <= i < |s| ==> ks(s[i]) == kt(t[i])
    ensures CountKey(s, ks, x) == CountKey(t, kt, x)
  {
    if |s| > 0 {
      assert forall i :: 0 <= i < |s| - 1 ==> s[1..][i] == s[i + 1] && t[1..][i] == t[i + 1];
      CountKeyPointwise(s[1..], t[1..], ks, kt, x);
    }
  }

  lemma {:induction false} CountsOverCons<A>(ks: seq<string>, r: A, rows: seq<A>, key: A -> string)
    ensures CountsOver(ks, [r] + rows, key) == CountKey(ks, Ident, key(r)) + CountsOver(ks, rows, key)
  {
    if |ks| > 0 {
      CountsOverCons(ks[1..], r, rows, key);
      assert ([r] + rows)[0] == r && ([r] + rows)[1..] == rows;
    }
  }

  /** Over distinct keys that cover the key column, the group counts add up to the number of rows. */
  lemma {:induction false} CountsOverAll<A>(ks: seq<string>, rows: seq<A>, key: A -> string)
    requires Distinct(ks)
    requires forall i :: 0 <= i < |rows| ==> key(rows[i]) in ks
    ensures CountsOver(ks, rows, key) == |rows|
  {
    if |rows| == 0 {
      CountsOverEmpty(ks, rows, key);
    } else {
      assert rows == [rows[0]] + rows[1..];
      CountsOverCons(ks, rows[0], rows[1..], key);
      DistinctCount(ks, key(rows[0]));
      assert forall i :: 0 <= i < |rows| - 1 ==> rows[1..][i] == rows[i + 1];
      CountsOverAll(ks, rows[1..], key);
    }
  }

  lemma {:induction false} CountsOverEmpty<A>(ks: seq<string>, rows: seq<A>, key: A -> string)
    requires |rows| == 0
    ensures CountsOver(ks, rows, key) == 0
  {
    if |ks| > 0 {
      CountsOverEmpty(ks[1..], rows, key);
    }
  }

  // ---------------------------------------------------------------------
  // Summing a column per group

  /** v added to itself n times. */
  function Repeat(n: nat, v: real): real {
    if n == 0 then 0.0 else v + Repeat(n - 1, v)
  }

  lemma {:induction false} SumsOverCons<A>(ks: seq<string>, r: A, rows: seq<A>, key: A -> string, w: A -> real)
    ensures SumsOver(ks, [r] + rows, key, w) == Repeat(CountKey(ks, Ident, key(r)), w(r)) + SumsOver(ks, rows, key, w)
  {
    if |ks| > 0 {
      SumsOverCons(ks[1..], r, rows, key, w);
      assert ([r] + rows)[0] == r && ([r] + rows)[1..] == rows;
      var c := CountKey(ks[1..], Ident, key(r));
      if ks[0] == key(r) {
        assert CountKey(ks, Ident, key(r)) == 1 + c;
        assert Repeat(1 + c, w(r)) == w(r) + Repeat(c, w(r));
      } else {
        assert CountKey(ks, Ident, key(r)) == c;
      }
    }
  }

  lemma {:induction false} SumsOverEmpty<A>(ks: seq<string>, rows: seq<A>, key: A -> string, w: A -> real)
    requires |rows| == 0
    ensures SumsOver(ks, rows, key, w) == 0.0
  {
    if |ks| > 0 {
      SumsOverEmpty(ks[1..], rows, key, w);
    }
  }

  /** Over distinct keys that cover the key column, the group sums add up to the column total. */
  lemma {:induction false} SumsOverAll<A>(ks: seq<string>, rows: seq<A>, key: A -> string, w: A -> real)
    requires Distinct(ks)
    requires forall i :: 0 <= i < |rows| ==> key(rows[i]) in ks
    ensures SumsOver(ks, rows, key, w) == Total(rows, w)
  {
    if |rows| == 0 {
      SumsOverEmpty(ks, rows, key, w);
    } else {
      assert rows == [rows[0]] + rows[1..];
      SumsOverCons(ks, rows[0], rows[1..], key, w);
      DistinctCount(ks, key(rows[0]));
      assert forall i :: 0 <= i < |rows| - 1 ==> rows[1..][i] == rows[i + 1];
      SumsOverAll(ks, rows[1..], key, w);
    }
  }

  // ---------------------------------------------------------------------
  // Inner merge

  /** The rows of rs whose key is x, each paired with l, in the order of rs. */
  function Matches<L(!new), R(!new)>(l: L, rs: seq<R>, x: string, rk: R -> string): (r: seq<(L, R)>)
    ensures |r| == CountKey(rs, rk, x)
    ensures forall p :: p in r <==> p.0 == l && p.1 in rs && rk(p.1) == x
  {
    if |rs| == 0 then []
    else
      assert forall y :: y in rs <==> y == rs[0] || y in rs[1..];
      (if rk(rs[0]) == x then [(l, rs[0])] else []) + Matches(l, rs[1..], x, rk)
  }

  /**
   * `ls.merge(rs, on=key)` with the default inner join: every left row is
   * paired with every right row of the same key; left order first, then
   * right order.
   */
  function InnerJoin<L(!new), R(!new)>(ls: seq<L>, rs: seq<R>, lk: L -> string, rk: R -> string): (r: seq<(L, R)>)
    ensures forall p :: p in r <==> p.0 in ls && p.1 in rs && lk(p.0) == rk(p.1)
  {
    if |ls| == 0 then []
    else
      assert forall y :: y in ls <==> y == ls[0] || y in ls[1..];
      Matches(ls[0], rs, lk(ls[0]), rk) + InnerJoin(ls[1..], rs, lk, rk)
  }

  lemma {:induction false} MatchesCount<L(!new), R(!new)>(l: L, rs: seq<R>, y: string, rk: R -> string, pk: ((L, R)) -> string, x: string)
    requires forall p: (L, R) :: p.0 == l ==> pk(p) == y
    ensures CountKey(Matches(l, rs, y, rk), pk, x) == if y == x then CountKey(rs, rk, y) else 0
  {
    if |rs| > 0 {
      var head := if rk(rs[0]) == y then [(l, rs[0])] else [];
      CountKeyConcat(head, Matches(l, rs[1..], y, rk), pk, x);
      MatchesCount(l, rs[1..], y, rk, pk, x);
      if rk(rs[0]) == y {
        assert head[1..] == [];
      }
    }
  }

  lemma MulStep(b: bool, c: int, n: int)
    ensures (if b then 1 + c else c) * n == (if b then n else 0) + c * n
  {
  }

  /** Unfolding the inner merge once: the first left row's matches, then the rest. */
  lemma InnerJoinStep<L(!new), R(!new)>(ls: seq<L>, rs: seq<R>, lk: L -> string, rk: R -> string, pk: ((L, R)) -> string, x: string)
    requires |ls| > 0
    requires forall p: (L, R) :: pk(p) == lk(p.0)
    ensures CountKey(InnerJoin(ls, rs, lk, rk), pk, x)
      == (if lk(ls[0]) == x then CountKey(rs, rk, x) else 0) + CountKey(InnerJoin(ls[1..], rs, lk, rk), pk, x)
  {
    var m := Matches(ls[0], rs, lk(ls[0]), rk);
    CountKeyConcat(m, InnerJoin(ls[1..], rs, lk, rk), pk, x);
    MatchesCount(ls[0], rs, lk(ls[0]), rk, pk, x);
  }

  /** A key with m left rows and n right rows occurs m * n times in the inner merge. */
  lemma {:induction false} InnerJoinCount<L(!new), R(!new)>(ls: seq<L>, rs: seq<R>, lk: L -> string, rk: R -> string, pk: ((L, R)) -> string, x: string)
    requires forall p: (L, R) :: pk(p) == lk(p.0)
    ensures CountKey(InnerJoin(ls, rs, lk, rk), pk, x) == CountKey(ls, lk, x) * CountKey(rs, rk, x)
  {
    if |ls| > 0 {
      InnerJoinStep(ls, rs, lk, rk, pk, x);
      InnerJoinCount(ls[1..], rs, lk, rk, pk, x);
      MulStep(lk(ls[0]) == x, CountKey(ls[1..], lk, x), CountKey(rs, rk, x));
    } else {
      assert CountKey(ls, lk, x) * CountKey(rs, rk, x) == 0;
    }
  }
}
