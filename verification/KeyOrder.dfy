/** Ascending key sequences: a finite key set has exactly one. */
module KeyOrder {
  import opened Bytes

  ghost predicate Ascending(s: seq<Key>) { forall i, j | 0 <= i < j < |s| :: Less(s[i], s[j]) }

  predicate Least(k: Key, keys: set<Key>) { k in keys && forall j | j in keys :: !Less(j, k) }

  lemma {:induction false} HasLeast(keys: set<Key>)
    requires keys != {}
    ensures exists k :: Least(k, keys)
  {
    var x :| x in keys;
    var rest := keys - {x};
    LessOrder();
    if rest == {} {
      assert keys == {x};
      assert Least(x, keys);
    } else {
      HasLeast(rest);
      var m :| Least(m, rest);
      assert Least(if Less(x, m) then x else m, keys);
    }
  }

  /** The one ascending sequence of a set's keys. */
  ghost function InOrder(keys: set<Key>): (s: seq<Key>)
    ensures forall k :: k in s <==> k in keys
    ensures Ascending(s)
  {
    if keys == {} then []
    else
      HasLeast(keys);
      var k :| Least(k, keys);
      LessOrder();
      [k] + InOrder(keys - {k})
  }

  function Only(s: seq<Key>, keep: set<Key>): seq<Key> {
    if s == [] then [] else (if s[0] in keep then [s[0]] else []) + Only(s[1..], keep)
  }

  lemma {:induction false} OnlyAbove(s: seq<Key>, keep: set<Key>, k: Key)
    requires forall i | 0 <= i < |s| :: Less(k, s[i])
    ensures forall i | 0 <= i < |Only(s, keep)| :: Less(k, Only(s, keep)[i])
  {
    if s != [] { OnlyAbove(s[1..], keep, k); }
  }

  lemma {:induction false} OnlyAscending(s: seq<Key>, keep: set<Key>)
    requires Ascending(s)
    ensures Ascending(Only(s, keep))
    ensures forall k :: k in Only(s, keep) <==> k in s && k in keep
  {
    if s != [] {
      assert s == [s[0]] + s[1..];
      OnlyAscending(s[1..], keep);
      OnlyAbove(s[1..], keep, s[0]);
    }
  }

  /** Two ascending sequences of the same keys are the same. */
  lemma {:induction false} AscendingUnique(a: seq<Key>, b: seq<Key>)
    requires Ascending(a) && Ascending(b) && forall k :: k in a <==> k in b
    ensures a == b
  {
    if a == [] || b == [] {
      NoMembers(a);
      NoMembers(b);
    } else {
      assert a[0] in b && b[0] in a;
      SameHead(a, b);
      forall k ensures k in a[1..] <==> k in b[1..] {
        TailMembers(a, k);
        TailMembers(b, k);
      }
      AscendingUnique(a[1..], b[1..]);
      assert a == [a[0]] + a[1..] && b == [b[0]] + b[1..];
    }
  }

  lemma NoMembers(s: seq<Key>)
    ensures s == [] <==> forall k :: k !in s
  {
    if s != [] { assert s[0] in s; }
  }

  lemma SameHead(a: seq<Key>, b: seq<Key>)
    requires Ascending(a) && Ascending(b) && a != [] && b != [] && a[0] in b && b[0] in a
    ensures a[0] == b[0]
  {
    LessTotal(a[0], b[0]);
  }

  lemma TailMembers(s: seq<Key>, k: Key)
    requires Ascending(s) && s != []
    ensures k in s[1..] <==> k in s && k != s[0]
  {
    LessTotal(s[0], s[0]);
    if k in s && k != s[0] {
      var i :| 0 <= i < |s| && s[i] == k;
      assert s[1..][i - 1] == k;
    }
  }
}
