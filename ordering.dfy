/**
 * The ORDER BY clauses of the list queries. A listing is a sequence of row
 * ids that names every selected row exactly once and respects a total
 * preorder on a sort key; rows with equal keys may come in either order,
 * as the database leaves them.
 */
module Ordering {

  /** Sort-key order by code point, character by character (Python's str comparison). */
  predicate LexLeq(a: string, b: string) {
    a == [] || (b != [] && (a[0] < b[0] || (a[0] == b[0] && LexLeq(a[1..], b[1..]))))
  }

  /** ORDER BY created_at DESC: the later timestamp comes first. */
  predicate NewestFirst(a: int, b: int) {
    a >= b
  }

  ghost predicate TotalPreorder<K(!new)>(leq: (K, K) -> bool) {
    && (forall a, b :: leq(a, b) || leq(b, a))
    && (forall a, b, c :: leq(a, b) && leq(b, c) ==> leq(a, c))
  }

  lemma {:induction false} LexLeqTotal(a: string, b: string)
    ensures LexLeq(a, b) || LexLeq(b, a)
  {
    if a != [] && b != [] && a[0] == b[0] {
      LexLeqTotal(a[1..], b[1..]);
    }
  }

  lemma {:induction false} LexLeqTransitive(a: string, b: string, c: string)
    requires LexLeq(a, b) && LexLeq(b, c)
    ensures LexLeq(a, c)
  {
    if a != [] && a[0] == b[0] && b[0] == c[0] {
      LexLeqTransitive(a[1..], b[1..], c[1..]);
    }
  }

  /** Two names that sort each before the other are the same name. */
  lemma {:induction false} LexLeqAntisymmetric(a: string, b: string)
    requires LexLeq(a, b) && LexLeq(b, a)
    ensures a == b
  {
    if a != [] {
      LexLeqAntisymmetric(a[1..], b[1..]);
      assert a == [a[0]] + a[1..] && b == [b[0]] + b[1..];
    }
  }

  lemma ByNameIsTotalPreorder()
    ensures TotalPreorder(LexLeq)
  {
    forall a, b ensures LexLeq(a, b) || LexLeq(b, a) {
      LexLeqTotal(a, b);
    }
    forall a, b, c | LexLeq(a, b) && LexLeq(b, c) ensures LexLeq(a, c) {
      LexLeqTransitive(a, b, c);
    }
  }

  lemma NewestFirstIsTotalPreorder()
    ensures TotalPreorder(NewestFirst)
  {
  }

  /** The sort-key column of a table: each row's key, under the row's id. */
  function Column<R, K>(rows: map<nat, R>, key: R -> K): (column: map<nat, K>)
    ensures column.Keys == rows.Keys
    ensures forall id :: id in rows ==> column[id] == key(rows[id])
  {
    map id | id in rows :: key(rows[id])
  }

  /** `ids` lists each member of `keys` exactly once and nothing else. */
  ghost predicate Enumerates(ids: seq<nat>, keys: set<nat>) {
    && (forall i :: 0 <= i < |ids| ==> ids[i] in keys)
    && (forall k :: k in keys ==> k in ids)
    && (forall i, j :: 0 <= i < j < |ids| ==> ids[i] != ids[j])
  }

  /** Every earlier id's key is at most every later id's key. */
  ghost predicate SortedBy<K>(ids: seq<nat>, key: map<nat, K>, leq: (K, K) -> bool) {
    forall i, j :: 0 <= i < j < |ids| && ids[i] in key && ids[j] in key ==> leq(key[ids[i]], key[ids[j]])
  }

  /** Where `k` goes in a sorted listing: after every id whose key is at most its own. */
  method FindSlot<K>(ids: seq<nat>, k: nat, key: map<nat, K>, leq: (K, K) -> bool) returns (p: nat)
    requires k in key
    requires forall i :: 0 <= i < |ids| ==> ids[i] in key
    ensures p <= |ids|
    ensures forall i :: 0 <= i < p ==> leq(key[ids[i]], key[k])
    ensures p < |ids| ==> !leq(key[ids[p]], key[k])
  {
    p := 0;
    while p < |ids| && leq(key[ids[p]], key[k])
      invariant p <= |ids|
      invariant forall i :: 0 <= i < p ==> leq(key[ids[i]], key[k])
    {
      p := p + 1;
    }
  }

  lemma InsertKeepsSorted<K(!new)>(ids: seq<nat>, k: nat, p: nat, key: map<nat, K>, leq: (K, K) -> bool)
    requires TotalPreorder(leq)
    requires p <= |ids| && k in key
    requires forall i :: 0 <= i < |ids| ==> ids[i] in key
    requires SortedBy(ids, key, leq)
    requires forall i :: 0 <= i < p ==> leq(key[ids[i]], key[k])
    requires p < |ids| ==> !leq(key[ids[p]], key[k])
    ensures SortedBy(ids[..p] + [k] + ids[p..], key, leq)
  {
    var placed := ids[..p] + [k] + ids[p..];
    forall i, j | 0 <= i < j < |placed| && placed[i] in key && placed[j] in key
      ensures leq(key[placed[i]], key[placed[j]])
    {
      if j < p {
        assert placed[i] == ids[i] && placed[j] == ids[j];
      } else if j == p {
        assert placed[i] == ids[i] && placed[j] == k;
      } else if i == p {
        assert placed[i] == k && placed[j] == ids[j - 1];
        assert leq(key[k], key[ids[p]]);
        if j - 1 > p {
          assert leq(key[ids[p]], key[ids[j - 1]]);
        }
      } else if i < p {
        assert placed[i] == ids[i] && placed[j] == ids[j - 1];
      } else {
        assert placed[i] == ids[i - 1] && placed[j] == ids[j - 1];
      }
    }
  }

  lemma InsertKeepsEnumerates(ids: seq<nat>, k: nat, p: nat, keys: set<nat>)
    requires p <= |ids| && k !in keys
    requires Enumerates(ids, keys)
    ensures Enumerates(ids[..p] + [k] + ids[p..], keys + {k})
  {
    var placed := ids[..p] + [k] + ids[p..];
    forall i | 0 <= i < |placed|
      ensures placed[i] == if i < p then ids[i] else if i == p then k else ids[i - 1]
    {
    }
    forall i, j | 0 <= i < j < |placed| ensures placed[i] != placed[j] {
      if i != p && j != p {
        assert ids[if i < p then i else i - 1] != ids[if j < p then j else j - 1];
      }
    }
    forall x | x in keys + {k} ensures x in placed {
      if x == k {
        assert placed[p] == k;
      } else {
        var i :| 0 <= i < |ids| && ids[i] == x;
        assert placed[if i < p then i else i + 1] == x;
      }
    }
  }

  /**
   * The rows of `key`, in the order the database returns them for
   * ORDER BY `leq`: each row placed after every row whose key precedes or
   * equals its own.
   */
  method OrderBy<K(!new)>(key: map<nat, K>, leq: (K, K) -> bool) returns (ids: seq<nat>)
    requires TotalPreorder(leq)
    ensures Enumerates(ids, key.Keys)
    ensures SortedBy(ids, key, leq)
  {
    ids := [];
    var rest := key.Keys;
    while rest != {}
      invariant rest <= key.Keys
      invariant Enumerates(ids, key.Keys - rest)
      invariant SortedBy(ids, key, leq)
      decreases rest
    {
      var k :| k in rest;
      var p := FindSlot(ids, k, key, leq);
      InsertKeepsSorted(ids, k, p, key, leq);
      InsertKeepsEnumerates(ids, k, p, key.Keys - rest);
      assert key.Keys - rest + {k} == key.Keys - (rest - {k});
      ids := ids[..p] + [k] + ids[p..];
      rest := rest - {k};
    }
  }
}
