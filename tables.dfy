/** Shared vocabulary of the in-memory tables that stand in for the MySQL store.
    Every table is keyed by an AUTO_INCREMENT surrogate key. The SQL's
    `SELECT *` promises no order; the model fixes primary-key order. */
module Tables {

  /** Surrogate primary key generated by AUTO_INCREMENT. */
  type Id = int

  /** The value of the database clock `NOW()` at the moment of a write; the
      clock itself is outside the model and is passed in by the caller. */
  type Timestamp = int

  /** `null` (or `undefined`) versus a present value. */
  datatype Option<+T> = None | Some(value: T)

  /** AUTO_INCREMENT bookkeeping: every key in use is positive and lies below
      the next key the table will issue. */
  ghost predicate KeysBelow<R>(rows: map<Id, R>, nextId: Id)
  {
    1 <= nextId && forall k :: k in rows ==> 1 <= k < nextId
  }

  /** The keys of `rows` that lie in `[lo, hi)`, in ascending order. */
  function Keys<R>(rows: map<Id, R>, lo: Id, hi: Id): (ks: seq<Id>)
    decreases hi - lo
    ensures forall k :: k in ks <==> lo <= k < hi && k in rows
  {
    if lo >= hi then []
    else if lo in rows then [lo] + Keys(rows, lo + 1, hi)
    else Keys(rows, lo + 1, hi)
  }

  /** Each entry of `ks` is smaller than every later one. */
  predicate Ascending(ks: seq<Id>)
  {
    forall i, j :: 0 <= i < j < |ks| ==> ks[i] < ks[j]
  }

  /** `Keys` lists the keys in strictly ascending order. */
  lemma {:induction false} KeysSorted<R>(rows: map<Id, R>, lo: Id, hi: Id)
    decreases hi - lo
    ensures Ascending(Keys(rows, lo, hi))
  {
    if lo < hi {
      KeysSorted(rows, lo + 1, hi);
      var rest := Keys(rows, lo + 1, hi);
      if lo in rows {
        var ks := [lo] + rest;
        forall i, j | 0 <= i < j < |ks| ensures ks[i] < ks[j] {
          assert ks[j] == rest[j - 1] && rest[j - 1] in rest;
          if i > 0 {
            assert ks[i] == rest[i - 1];
          }
        }
        assert Keys(rows, lo, hi) == ks;
      }
    }
  }

  /** The keys of `rows` that lie in `[lo, hi)`, as a set. */
  ghost function Between<R>(rows: map<Id, R>, lo: Id, hi: Id): set<Id>
  {
    set k | k in rows && lo <= k < hi
  }

  /** `Keys` lists each key of the range exactly once. */
  lemma {:induction false} KeysCountBetween<R>(rows: map<Id, R>, lo: Id, hi: Id)
    decreases hi - lo
    ensures |Keys(rows, lo, hi)| == |Between(rows, lo, hi)|
  {
    if lo >= hi {
      assert Between(rows, lo, hi) == {};
    } else {
      KeysCountBetween(rows, lo + 1, hi);
      if lo in rows {
        assert Between(rows, lo, hi) == {lo} + Between(rows, lo + 1, hi);
      } else {
        assert Between(rows, lo, hi) == Between(rows, lo + 1, hi);
      }
    }
  }

  /** A scan of a whole table lists as many keys as the table has rows. */
  lemma KeysCount<R>(rows: map<Id, R>, nextId: Id)
    requires KeysBelow(rows, nextId)
    ensures |Keys(rows, 1, nextId)| == |rows|
  {
    KeysCountBetween(rows, 1, nextId);
    assert Between(rows, 1, nextId) == rows.Keys;
  }

  /** The rows stored under `ks`, in the order of `ks`. */
  function Fetch<R>(rows: map<Id, R>, ks: seq<Id>): (r: seq<R>)
    requires forall i :: 0 <= i < |ks| ==> ks[i] in rows
    ensures |r| == |ks|
    ensures forall i :: 0 <= i < |ks| ==> r[i] == rows[ks[i]]
  {
    seq(|ks|, i requires 0 <= i < |ks| => rows[ks[i]])
  }

  /** `SELECT *`: every row of the table, in the model's fixed ascending key order. */
  function Scan<R>(rows: map<Id, R>, nextId: Id): (r: seq<R>)
    requires KeysBelow(rows, nextId)
    ensures r == Fetch(rows, Keys(rows, 1, nextId))
    ensures |r| == |rows|
  {
    KeysCount(rows, nextId);
    Fetch(rows, Keys(rows, 1, nextId))
  }

  /** A scan lists every stored row and nothing else. */
  lemma ScanMembers<R>(rows: map<Id, R>, nextId: Id)
    requires KeysBelow(rows, nextId)
    ensures forall k :: k in rows ==> rows[k] in Scan(rows, nextId)
    ensures forall x :: x in Scan(rows, nextId) ==> exists k :: k in rows && rows[k] == x
  {
    var ks := Keys(rows, 1, nextId);
    var r := Scan(rows, nextId);
    forall k | k in rows ensures rows[k] in r {
      var i :| 0 <= i < |ks| && ks[i] == k;
      assert r[i] == rows[k];
    }
    forall x | x in r ensures exists k :: k in rows && rows[k] == x {
      var i :| 0 <= i < |r| && r[i] == x;
      assert rows[ks[i]] == x;
    }
  }

  /** Inserting under the next key appends that key to the key order. */
  lemma {:induction false} KeysAppend<R>(rows: map<Id, R>, lo: Id, n: Id, r: R)
    requires lo <= n && n !in rows
    decreases n - lo
    ensures Keys(rows[n := r], lo, n + 1) == Keys(rows, lo, n) + [n]
  {
    if lo == n {
      assert Keys(rows[n := r], n + 1, n + 1) == [];
    } else {
      KeysAppend(rows, lo + 1, n, r);
    }
  }

  /** A row inserted under the next AUTO_INCREMENT key is listed last. */
  lemma ScanAppend<R>(rows: map<Id, R>, nextId: Id, r: R)
    requires KeysBelow(rows, nextId)
    ensures KeysBelow(rows[nextId := r], nextId + 1)
    ensures Scan(rows[nextId := r], nextId + 1) == Scan(rows, nextId) + [r]
  {
    KeysAppend(rows, 1, nextId, r);
    var ks := Keys(rows, 1, nextId);
    var after := Fetch(rows[nextId := r], ks + [nextId]);
    assert after == Fetch(rows, ks) + [r] by {
      forall i | 0 <= i < |ks| ensures after[i] == Fetch(rows, ks)[i] {
        assert ks[i] in ks;
      }
    }
  }

  /** The key order depends only on which keys are present. */
  lemma {:induction false} KeysSameDomain<R>(a: map<Id, R>, b: map<Id, R>, lo: Id, hi: Id)
    requires a.Keys == b.Keys
    decreases hi - lo
    ensures Keys(a, lo, hi) == Keys(b, lo, hi)
  {
    if lo < hi {
      assert lo in a <==> lo in b;
      KeysSameDomain(a, b, lo + 1, hi);
    }
  }

  /** Overwriting a stored row keeps the scan's length and order and changes
      only the entry at that row's position. */
  lemma ScanOverwrite<R>(rows: map<Id, R>, nextId: Id, id: Id, r: R)
    requires KeysBelow(rows, nextId) && id in rows
    ensures KeysBelow(rows[id := r], nextId)
    ensures |Scan(rows[id := r], nextId)| == |Scan(rows, nextId)|
    ensures forall i :: 0 <= i < |Scan(rows, nextId)| ==>
      Scan(rows[id := r], nextId)[i] ==
        if Keys(rows, 1, nextId)[i] == id then r else Scan(rows, nextId)[i]
  {
    var after := rows[id := r];
    assert after.Keys == rows.Keys;
    assert KeysBelow(after, nextId);
    KeysSameDomain(after, rows, 1, nextId);
    var ks := Keys(rows, 1, nextId);
    var a, b := Fetch(after, ks), Fetch(rows, ks);
    assert Scan(after, nextId) == a;
    assert Scan(rows, nextId) == b;
    assert forall i :: 0 <= i < |b| ==> a[i] == if ks[i] == id then r else b[i];
  }

  /** `ScanOverwrite` for tables whose rows carry their own key (`key`): the
      entry that changes is the one whose row has key `id`. */
  lemma ScanOverwriteKeyed<R>(rows: map<Id, R>, nextId: Id, id: Id, r: R, key: R -> Id)
    requires KeysBelow(rows, nextId) && id in rows
    requires forall k :: k in rows ==> key(rows[k]) == k
    ensures KeysBelow(rows[id := r], nextId)
    ensures |Scan(rows[id := r], nextId)| == |Scan(rows, nextId)|
    ensures forall i :: 0 <= i < |Scan(rows, nextId)| ==>
      Scan(rows[id := r], nextId)[i] ==
        if key(Scan(rows, nextId)[i]) == id then r else Scan(rows, nextId)[i]
  {
    ScanOverwrite(rows, nextId, id, r);
    var ks := Keys(rows, 1, nextId);
    forall i | 0 <= i < |ks| ensures key(Scan(rows, nextId)[i]) == ks[i] {
      assert ks[i] in ks;
    }
  }

  /** A scan of a table whose rows carry their own key lists them in strictly
      ascending key order. */
  lemma ScanSortedKeyed<R>(rows: map<Id, R>, nextId: Id, key: R -> Id)
    requires KeysBelow(rows, nextId)
    requires forall k :: k in rows ==> key(rows[k]) == k
    ensures forall i, j :: 0 <= i < j < |Scan(rows, nextId)| ==>
      key(Scan(rows, nextId)[i]) < key(Scan(rows, nextId)[j])
  {
    var ks := Keys(rows, 1, nextId);
    KeysSorted(rows, 1, nextId);
    forall i | 0 <= i < |ks| ensures key(Scan(rows, nextId)[i]) == ks[i] {
      assert ks[i] in ks;
    }
  }

  /** Deleting a key removes exactly the row with that key from the scan of a
      table whose rows carry their own key. */
  lemma ScanRemoveKeyed<R>(rows: map<Id, R>, nextId: Id, id: Id, key: R -> Id)
    requires KeysBelow(rows, nextId)
    requires forall k :: k in rows ==> key(rows[k]) == k
    ensures KeysBelow(rows - {id}, nextId)
    ensures |Scan(rows - {id}, nextId)| == if id in rows then |Scan(rows, nextId)| - 1 else |Scan(rows, nextId)|
    ensures forall x :: x in Scan(rows - {id}, nextId) <==> x in Scan(rows, nextId) && key(x) != id
  {
    var after := rows - {id};
    assert KeysBelow(after, nextId);
    if id in rows {
      assert |after.Keys| == |rows.Keys| - 1 by {
        assert after.Keys == rows.Keys - {id};
      }
    } else {
      assert after == rows;
    }
    var before, now := Scan(rows, nextId), Scan(after, nextId);
    ScanMembers(rows, nextId);
    ScanMembers(after, nextId);
    forall x ensures x in now <==> x in before && key(x) != id {
      if x in now {
        var k :| k in after && after[k] == x;
        assert rows[k] == x;
      }
      if x in before && key(x) != id {
        var k :| k in rows && rows[k] == x;
        assert after[k] == x;
      }
    }
  }
}
