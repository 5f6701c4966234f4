/** The one ascending listing of a table of records. */
module Listings {
  import opened Bytes
  import opened Records
  import opened SortedEntries
  import opened KeyOrder

  type Table = map<Key, Record>

  /** The one listing of a table. */
  ghost function Listing(m: Table): seq<Entry> {
    var keys := InOrder(m.Keys);
    seq(|keys|, i requires 0 <= i < |keys| && keys[i] in m => Entry(keys[i], m[keys[i]]))
  }

  lemma ListingIs(s: seq<Entry>)
    requires Sorted(s)
    ensures Listing(ToMap(s)) == s
  {
    var m := ToMap(s);
    MapListed(s);
    var keys := seq(|s|, i requires 0 <= i < |s| => s[i].key);
    forall k ensures k in keys <==> k in InOrder(m.Keys) {
      if k in keys {
        var i :| 0 <= i < |keys| && keys[i] == k;
        assert s[i].key in m;
      }
      if k in m {
        var i :| 0 <= i < |s| && s[i].key == k;
        assert keys[i] == k;
      }
    }
    AscendingUnique(keys, InOrder(m.Keys));
  }

  lemma ListingOf(m: Table)
    ensures Sorted(Listing(m)) && (forall i | 0 <= i < |Listing(m)| ::
                                     Listing(m)[i].key in m && m[Listing(m)[i].key] == Listing(m)[i].rec)
    ensures forall k :: k in m <==> Named(Listing(m), k)
  {
    var keys := InOrder(m.Keys);
    assert forall i | 0 <= i < |keys| :: keys[i] in keys;
    forall k | k in m ensures Named(Listing(m), k) {
      assert k in keys;
      var i :| 0 <= i < |keys| && keys[i] == k;
      assert Listing(m)[i].key == k;
    }
  }

  lemma ListingLists(m: Table)
    ensures Lists(Listing(m), m) && forall k | k in m :: Named(Listing(m), k)
  {
    ListingOf(m);
    SortedApart(Listing(m));
  }
}
