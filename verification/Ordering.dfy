/** Go's order on strings, and lists of keys sorted by it. */
module Ordering {

  /** `a` comes strictly before `b`. */
  predicate Below(a: string, b: string) {
    b != "" && (a == "" || a[0] < b[0] || (a[0] == b[0] && Below(a[1..], b[1..])))
  }

  lemma {:induction false} BelowTotal(a: string, b: string)
    ensures a == b || Below(a, b) || Below(b, a)
  {
    if a != "" && b != "" && a[0] == b[0] {
      BelowTotal(a[1..], b[1..]);
      assert a == [a[0]] + a[1..] && b == [b[0]] + b[1..];
    }
  }

  lemma {:induction false} BelowTransitive(a: string, b: string, c: string)
    requires Below(a, b) && Below(b, c)
    ensures Below(a, c)
  {
    if a != "" && a[0] == b[0] == c[0] {
      BelowTransitive(a[1..], b[1..], c[1..]);
    }
  }

  lemma {:induction false} BelowStrict(a: string, b: string)
    requires Below(a, b)
    ensures a != b && !Below(b, a)
  {
    if a != "" && a[0] == b[0] {
      BelowStrict(a[1..], b[1..]);
    }
  }

  /** Strictly increasing: sorted and free of repetitions. */
  predicate Sorted(keys: seq<string>) {
    forall i, j | 0 <= i < j < |keys| :: Below(keys[i], keys[j])
  }

  lemma NoRepeat(keys: seq<string>)
    requires Sorted(keys) && keys != []
    ensures keys[0] !in keys[1..]
  {
    forall i | 0 <= i < |keys[1..]| ensures keys[1..][i] != keys[0] {
      BelowStrict(keys[0], keys[i + 1]);
    }
  }

  lemma HasFirst(keys: seq<string>)
    ensures keys == [] || exists k :: k in keys
  {
    if keys != [] {
      assert keys[0] in keys;
    }
  }

  /** There is only one sorted list of a set of keys. */
  lemma {:induction false} SortedUnique(a: seq<string>, b: seq<string>)
    requires Sorted(a) && Sorted(b)
    requires forall k :: k in a <==> k in b
    ensures a == b
    decreases |a|
  {
    if a == [] {
      HasFirst(b);
    } else {
      assert a[0] in b && b[0] in a;
      if a[0] != b[0] {
        var i :| 0 <= i < |b| && b[i] == a[0];
        var j :| 0 <= j < |a| && a[j] == b[0];
        BelowStrict(b[0], a[0]);
        assert false;
      }
      NoRepeat(a);
      NoRepeat(b);
      forall k ensures k in a[1..] <==> k in b[1..] {
        assert k in a <==> k == a[0] || k in a[1..] by { assert a == [a[0]] + a[1..]; }
        assert k in b <==> k == b[0] || k in b[1..] by { assert b == [b[0]] + b[1..]; }
      }
      SortedUnique(a[1..], b[1..]);
      assert a == [a[0]] + a[1..] && b == [b[0]] + b[1..];
    }
  }

  /** Puts a key where it belongs in a sorted list. */
  function Insert(k: string, keys: seq<string>): seq<string> {
    if keys == [] || Below(k, keys[0]) then [k] + keys else [keys[0]] + Insert(k, keys[1..])
  }

  lemma {:induction false} InsertSorts(k: string, keys: seq<string>)
    requires Sorted(keys) && k !in keys
    ensures Sorted(Insert(k, keys)) && forall x :: x in Insert(k, keys) <==> x == k || x in keys
  {
    if keys == [] {
    } else if Below(k, keys[0]) {
      forall j | 0 <= j < |keys| ensures Below(k, keys[j]) {
        if j > 0 {
          BelowTransitive(k, keys[0], keys[j]);
        }
      }
    } else {
      InsertSorts(k, keys[1..]);
      BelowTotal(k, keys[0]);
      var rest := Insert(k, keys[1..]);
      assert keys == [keys[0]] + keys[1..];
      forall j | 0 <= j < |rest| ensures Below(keys[0], rest[j]) {
        assert rest[j] in rest;
        if rest[j] != k {
          var i :| 0 <= i < |keys[1..]| && keys[1..][i] == rest[j];
          assert Below(keys[0], keys[i + 1]);
        }
      }
    }
  }

  /** The keys in order, whatever order the map is ranged over. */
  method SortKeys(keys: set<string>) returns (r: seq<string>)
    ensures Sorted(r) && forall k :: k in r <==> k in keys
  {
    r := [];
    var left := keys;
    while left != {}
      invariant left <= keys
      invariant Sorted(r) && forall k :: k in r <==> k in keys && k !in left
      decreases left
    {
      var k :| k in left;
      InsertSorts(k, r);
      r := Insert(k, r);
      left := left - {k};
    }
  }
}
