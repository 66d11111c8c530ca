/** The answer of ListUpstreamKeys: it exists, it is unique, and how each edit of the table changes it. */
module Listings {
  import opened Store

  lemma {:induction false} ListingUnique(a: seq<Key>, b: seq<Key>, keys: Keys)
    requires IsListing(a, keys) && IsListing(b, keys)
    ensures a == b
    decreases |a|
  {
    if a == [] || b == [] {
      ListingLength(a, keys);
      ListingLength(b, keys);
    } else {
      assert a[0] in a && keys[a[0].id] in b;
      var j :| 0 <= j < |b| && b[j] == a[0];
      assert b[0] in b && keys[b[0].id] in a;
      var i :| 0 <= i < |a| && a[i] == b[0];
      Precedes(b, 0, j);
      Precedes(a, 0, i);
      HeadRemoved(a, keys);
      HeadRemoved(b, keys);
      ListingUnique(a[1..], b[1..], keys - {a[0].id});
    }
  }

  lemma HeadRemoved(ks: seq<Key>, keys: Keys)
    requires IsListing(ks, keys) && ks != []
    ensures IsListing(ks[1..], keys - {ks[0].id})
  {
    assert ks[0] in ks;
    ListingRemove(ks, keys, 0);
    assert Without(ks, 0) == ks[1..];
  }

  lemma Precedes(ks: seq<Key>, i: nat, j: nat)
    requires Sorted(ks) && i < |ks| && j < |ks|
    ensures i < j ==> Before(ks[i], ks[j])
  {
  }

  /** Different positions hold different ids. */
  lemma IdsDiffer(ks: seq<Key>, keys: Keys, i: nat, j: nat)
    requires IsListing(ks, keys) && i < |ks| && j < |ks|
    ensures ks[i].id == ks[j].id ==> i == j
  {
    assert ks[i] in ks && ks[j] in ks;
    Precedes(ks, i, j);
    Precedes(ks, j, i);
  }

  /** Where position i of the listing without position at comes from. */
  function Skip(at: nat, i: nat): nat {
    if i < at then i else i + 1
  }

  function Without(ks: seq<Key>, at: nat): (rest: seq<Key>)
    requires at < |ks|
    ensures |rest| == |ks| - 1 && forall i :: 0 <= i < |rest| ==> rest[i] == ks[Skip(at, i)]
  {
    ks[..at] + ks[at + 1..]
  }

  lemma ListingRemove(ks: seq<Key>, keys: Keys, at: nat)
    requires IsListing(ks, keys) && at < |ks|
    ensures IsListing(Without(ks, at), keys - {ks[at].id})
  {
    var id := ks[at].id;
    var rest := Without(ks, at);
    SortedWithout(ks, at);
    forall k | k in rest ensures k.id in keys - {id} && (keys - {id})[k.id] == k {
      var i :| 0 <= i < |rest| && rest[i] == k;
      Kept(ks, keys, at, i);
    }
    forall other | other in keys - {id} ensures (keys - {id})[other] in rest {
      StillThere(ks, keys, at, other);
    }
  }

  lemma SortedWithout(ks: seq<Key>, at: nat)
    requires Sorted(ks) && at < |ks|
    ensures Sorted(Without(ks, at))
  {
    forall i, j | 0 <= i < j < |ks| - 1 ensures Before(Without(ks, at)[i], Without(ks, at)[j]) {
      Precedes(ks, Skip(at, i), Skip(at, j));
    }
  }

  lemma StillThere(ks: seq<Key>, keys: Keys, at: nat, id: nat)
    requires IsListing(ks, keys) && at < |ks| && id in keys && id != ks[at].id
    ensures keys[id] in Without(ks, at)
  {
    assert keys[id] in ks;
    var j :| 0 <= j < |ks| && ks[j] == keys[id];
    assert Without(ks, at)[if j < at then j else j - 1] == ks[j];
  }

  lemma Kept(ks: seq<Key>, keys: Keys, at: nat, i: nat)
    requires IsListing(ks, keys) && at < |ks| && i < |ks| - 1
    ensures ks[Skip(at, i)].id in keys && keys[ks[Skip(at, i)].id] == ks[Skip(at, i)] && ks[Skip(at, i)].id != ks[at].id
  {
    assert ks[Skip(at, i)] in ks;
    IdsDiffer(ks, keys, Skip(at, i), at);
  }

  lemma ListingAppend(ks: seq<Key>, keys: Keys, key: Key)
    requires IsListing(ks, keys) && key.id !in keys
    requires forall k :: k in ks ==> Before(k, key)
    ensures IsListing(ks + [key], keys[key.id := key])
  {
    var more := ks + [key];
    assert forall i :: 0 <= i < |ks| ==> more[i] == ks[i] && ks[i] in ks;
    assert more[|ks|] == key;
  }

  /** Writing columns other than id and priority keeps the position. */
  lemma ListingUpdate(ks: seq<Key>, keys: Keys, at: nat, key: Key)
    requires IsListing(ks, keys) && at < |ks|
    requires key.id == ks[at].id && key.priority == ks[at].priority
    ensures IsListing(ks[at := key], keys[key.id := key])
  {
    var after := ks[at := key];
    var table := keys[key.id := key];
    forall k | k in after ensures k.id in table && table[k.id] == k {
      var i :| 0 <= i < |after| && after[i] == k;
      assert ks[i] in ks;
      IdsDiffer(ks, keys, i, at);
    }
    forall id | id in table ensures table[id] in after {
      if id == key.id { assert after[at] == key; }
      else {
        assert keys[id] in ks;
        var j :| 0 <= j < |ks| && ks[j] == keys[id];
        assert ks[at] in ks;
        assert after[j] == ks[j];
      }
    }
  }

  ghost predicate IsLeast(id: nat, ids: set<nat>, keys: Keys) {
    id in ids && forall j :: j in ids && j != id ==> j in keys && id in keys && Before(keys[id], keys[j])
  }

  lemma {:induction false} Least(keys: Keys, ids: set<nat>) returns (least: nat)
    requires Wf(keys) && ids != {} && ids <= keys.Keys
    ensures IsLeast(least, ids, keys)
    decreases |ids|
  {
    least :| least in ids;
    if ids != {least} {
      var best := Least(keys, ids - {least});
      if Before(keys[best], keys[least]) { least := best; }
    }
  }

  lemma {:induction false} ListingExists(keys: Keys, ids: set<nat>) returns (ks: seq<Key>)
    requires Wf(keys) && ids <= keys.Keys
    ensures IsListing(ks, Only(keys, ids))
    decreases |ids|
  {
    if ids == {} { return []; }
    var least := Least(keys, ids);
    var rest := ListingExists(keys, ids - {least});
    ks := [keys[least]] + rest;
    Prepend(keys, ids, least, rest);
  }

  ghost function Only(keys: Keys, ids: set<nat>): Keys {
    map id | id in keys && id in ids :: keys[id]
  }

  lemma Prepend(keys: Keys, ids: set<nat>, least: nat, rest: seq<Key>)
    requires Wf(keys) && ids <= keys.Keys && IsLeast(least, ids, keys)
    requires IsListing(rest, Only(keys, ids - {least}))
    ensures IsListing([keys[least]] + rest, Only(keys, ids))
  {
    var ks := [keys[least]] + rest;
    forall i, j | 0 <= i < j < |ks| ensures Before(ks[i], ks[j]) {
      assert ks[j] == rest[j - 1] && rest[j - 1] in rest;
      if i > 0 { assert ks[i] == rest[i - 1]; }
    }
    forall id | id in Only(keys, ids) ensures Only(keys, ids)[id] in ks {
      if id == least { assert ks[0] == keys[least]; }
      else { assert Only(keys, ids - {least})[id] in rest; }
    }
  }

  ghost function Listing(keys: Keys): (ks: seq<Key>)
    requires Wf(keys)
    ensures IsListing(ks, keys)
  {
    assert exists ks :: IsListing(ks, keys) by {
      var ks := ListingExists(keys, keys.Keys);
      assert Only(keys, keys.Keys) == keys;
    }
    var ks :| IsListing(ks, keys);
    ks
  }

  lemma {:induction false} ListingLength(ks: seq<Key>, keys: Keys)
    requires IsListing(ks, keys)
    ensures |ks| == |keys|
    decreases |ks|
  {
    if ks == [] {
      assert forall id :: id in keys ==> keys[id] in ks;
    } else {
      assert ks[0] in ks;
      HeadRemoved(ks, keys);
      ListingLength(ks[1..], keys - {ks[0].id});
      assert keys.Keys == (keys - {ks[0].id}).Keys + {ks[0].id};
      assert |keys.Keys| == |keys| && |(keys - {ks[0].id}).Keys| == |keys - {ks[0].id}|;
    }
  }

  /** The listed ids are every id of the table, each once. */
  lemma ListingIds(ks: seq<Key>, keys: Keys)
    requires IsListing(ks, keys)
    ensures IsOrder(keys, Ids(ks))
  {
    var ids := Ids(ks);
    forall i, j | 0 <= i < j < |ids| ensures ids[i] != ids[j] {
      IdsDiffer(ks, keys, i, j);
    }
    forall id ensures id in ids <==> id in keys {
      if id in keys {
        assert keys[id] in ks;
        var i :| 0 <= i < |ks| && ks[i] == keys[id];
        assert ids[i] == id;
      }
      if id in ids {
        var i :| 0 <= i < |ids| && ids[i] == id;
        assert ks[i] in ks;
      }
    }
  }
}
