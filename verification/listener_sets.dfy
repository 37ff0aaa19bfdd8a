/**
 * One event's listener set: an insertion-ordered map from listener key to the
 * stored listener, as a PHP array keyed by `getListenerIndex` behaves.  The
 * stored value is either the listener itself or the one-shot wrapper that
 * `once` builds around it; the wrapper is filed under the ORIGINAL listener's
 * key.
 */
module ListenerSets {
  import opened Callables

  /** What is stored: the listener, or the one-shot wrapper around it. */
  datatype Entry = Persistent(listener: Listener) | OneShot(listener: Listener)

  /** One array element: key and stored value. */
  datatype Slot = Slot(key: Key, entry: Entry)

  /** Every slot is filed under the key of the listener it wraps. */
  predicate KeyedByOriginal(s: seq<Slot>)
  {
    forall i :: 0 <= i < |s| ==> s[i].key == ListenerKey(s[i].entry.listener)
  }

  /** Array keys are unique. */
  predicate UniqueKeys(s: seq<Slot>)
  {
    forall i, j :: 0 <= i < j < |s| ==> s[i].key != s[j].key
  }

  predicate WellFormed(s: seq<Slot>)
  {
    KeyedByOriginal(s) && UniqueKeys(s)
  }

  /** `isset($set[$k])` */
  predicate HasKey(s: seq<Slot>, k: Key)
  {
    exists i :: 0 <= i < |s| && s[i].key == k
  }

  /**
   * The set with every slot whose key is in `ks` unset; the others keep their
   * relative order.
   */
  function Without(s: seq<Slot>, ks: set<Key>): (r: seq<Slot>)
    ensures |r| <= |s|
    ensures forall i :: 0 <= i < |r| ==> r[i].key !in ks
  {
    if s == [] then []
    else if s[0].key in ks then Without(s[1..], ks)
    else [s[0]] + Without(s[1..], ks)
  }

  /** The slots that are not one-shot wrappers, in order. */
  function PersistentOnly(s: seq<Slot>): (r: seq<Slot>)
    ensures |r| <= |s|
    ensures forall i :: 0 <= i < |r| ==> r[i].entry.Persistent?
  {
    if s == [] then []
    else if s[0].entry.OneShot? then PersistentOnly(s[1..])
    else [s[0]] + PersistentOnly(s[1..])
  }

  /**
   * The keys an entry unsets when it is called: a one-shot wrapper removes
   * the key of the listener it captured, a plain listener removes nothing.
   */
  function RemovedBy(e: Entry): set<Key>
  {
    if e.OneShot? then {ListenerKey(e.listener)} else {}
  }

  /** The keys the entries of `s` unset when each is called once. */
  function OneShotKeys(s: seq<Slot>): (ks: set<Key>)
    ensures forall i :: 0 <= i < |s| && s[i].entry.OneShot? ==> ListenerKey(s[i].entry.listener) in ks
  {
    if s == [] then {}
    else RemovedBy(s[0].entry) + OneShotKeys(s[1..])
  }

  /** Unsetting keeps exactly the slots whose key is not unset. */
  lemma {:induction false} WithoutMembers(s: seq<Slot>, ks: set<Key>)
    ensures forall x :: x in Without(s, ks) <==> x in s && x.key !in ks
  {
    if s != [] {
      WithoutMembers(s[1..], ks);
      assert forall x :: x in s <==> x == s[0] || x in s[1..];
    }
  }

  /** Unsetting keys keeps a set well formed. */
  lemma {:induction false} WithoutWellFormed(s: seq<Slot>, ks: set<Key>)
    ensures KeyedByOriginal(s) ==> KeyedByOriginal(Without(s, ks))
    ensures UniqueKeys(s) ==> UniqueKeys(Without(s, ks))
  {
    if s != [] {
      var t := s[1..];
      WithoutWellFormed(t, ks);
      WithoutMembers(t, ks);
      var rest := Without(t, ks);
      if s[0].key !in ks {
        assert Without(s, ks) == [s[0]] + rest;
        assert forall i :: 0 <= i < |rest| ==> rest[i] in t;
        if UniqueKeys(s) {
          forall i | 0 <= i < |rest|
            ensures rest[i].key != s[0].key
          {
            var j :| 0 <= j < |t| && t[j] == rest[i];
            assert s[j + 1] == t[j];
          }
        }
      }
    }
  }

  /** A set without one-shot wrappers is its own persistent part. */
  lemma {:induction false} PersistentOnlyOfPersistent(s: seq<Slot>)
    requires forall i :: 0 <= i < |s| ==> s[i].entry.Persistent?
    ensures PersistentOnly(s) == s
  {
    if s != [] {
      PersistentOnlyOfPersistent(s[1..]);
    }
  }

  /** Keeping the persistent entries keeps exactly the persistent slots. */
  lemma {:induction false} PersistentOnlyMembers(s: seq<Slot>)
    ensures forall x :: x in PersistentOnly(s) <==> x in s && x.entry.Persistent?
  {
    if s != [] {
      PersistentOnlyMembers(s[1..]);
      assert forall x :: x in s <==> x == s[0] || x in s[1..];
    }
  }

  /** In a set keyed by original listener, each key a one-shot entry unsets is held by that entry's slot. */
  lemma {:induction false} OneShotKeysAreHeld(s: seq<Slot>)
    requires KeyedByOriginal(s)
    ensures forall k :: k in OneShotKeys(s) ==> exists i :: 0 <= i < |s| && s[i].entry.OneShot? && s[i].key == k
  {
    if s != [] {
      var t := s[1..];
      OneShotKeysAreHeld(t);
      forall k | k in OneShotKeys(t)
        ensures exists i :: 0 <= i < |s| && s[i].entry.OneShot? && s[i].key == k
      {
        var j :| 0 <= j < |t| && t[j].entry.OneShot? && t[j].key == k;
        assert s[j + 1] == t[j];
      }
    }
  }

  /** Unsetting keys the set does not hold leaves it as it was. */
  lemma {:induction false} WithoutAbsent(s: seq<Slot>, ks: set<Key>)
    requires forall i :: 0 <= i < |s| ==> s[i].key !in ks
    ensures Without(s, ks) == s
  {
    if s != [] {
      WithoutAbsent(s[1..], ks);
    }
  }

  /** Unsetting is a filter: it distributes over concatenation. */
  lemma {:induction false} WithoutAppend(a: seq<Slot>, b: seq<Slot>, ks: set<Key>)
    ensures Without(a + b, ks) == Without(a, ks) + Without(b, ks)
  {
    if a == [] {
      assert a + b == b;
    } else {
      assert (a + b)[1..] == a[1..] + b;
      WithoutAppend(a[1..], b, ks);
    }
  }

  /** Unsetting two batches of keys one after the other unsets their union. */
  lemma {:induction false} WithoutTwice(s: seq<Slot>, a: set<Key>, b: set<Key>)
    ensures Without(Without(s, a), b) == Without(s, a + b)
  {
    if s != [] {
      WithoutTwice(s[1..], a, b);
      if s[0].key !in a {
        assert Without(s, a) == [s[0]] + Without(s[1..], a);
        assert Without(s, a)[1..] == Without(s[1..], a);
      }
    }
  }

  /** A key the set does not hold may be added to or left out of the batch. */
  lemma {:induction false} WithoutIgnoresAbsentKey(s: seq<Slot>, ks: set<Key>, k: Key)
    requires !HasKey(s, k)
    ensures Without(s, ks + {k}) == Without(s, ks)
  {
    if s != [] {
      assert !HasKey(s[1..], k) by {
        forall i | 0 <= i < |s[1..]|
          ensures s[1..][i].key != k
        {
          assert s[1..][i] == s[i + 1];
        }
      }
      WithoutIgnoresAbsentKey(s[1..], ks, k);
    }
  }

  /**
   * Reference definition of removing one key: when slot `i` alone holds its
   * key, unsetting that key is cutting slot `i` out.
   */
  lemma {:induction false} WithoutOneIsCut(s: seq<Slot>, i: nat)
    requires i < |s|
    requires forall j :: 0 <= j < |s| && j != i ==> s[j].key != s[i].key
    ensures Without(s, {s[i].key}) == s[..i] + s[i + 1..]
  {
    var k := s[i].key;
    if i == 0 {
      assert forall j :: 0 <= j < |s[1..]| ==> s[1..][j] == s[j + 1];
      WithoutAbsent(s[1..], {k});
    } else {
      assert s[1..][i - 1] == s[i];
      assert forall j :: 0 <= j < |s[1..]| && j != i - 1 ==> s[1..][j] == s[j + 1];
      WithoutOneIsCut(s[1..], i - 1);
      assert s[1..][..i - 1] + s[1..][i..] == s[1..i] + s[i + 1..];
      assert s[..i] == [s[0]] + s[1..i];
    }
  }

  /** Unsetting one key: nothing changes if it is absent, and its slot is cut out if unique. */
  lemma WithoutOneKey(s: seq<Slot>, k: Key)
    ensures !HasKey(s, k) ==> Without(s, {k}) == s
    ensures UniqueKeys(s) ==>
      forall i :: 0 <= i < |s| && s[i].key == k ==> Without(s, {k}) == s[..i] + s[i + 1..]
  {
    if !HasKey(s, k) {
      WithoutAbsent(s, {k});
    }
    if UniqueKeys(s) {
      forall i | 0 <= i < |s| && s[i].key == k
        ensures Without(s, {k}) == s[..i] + s[i + 1..]
      {
        WithoutOneIsCut(s, i);
      }
    }
  }

  /**
   * Running every one-shot wrapper of a well-formed set against that same set
   * leaves exactly its persistent listeners, in their order.
   */
  lemma {:induction false} OneShotsLeavePersistent(s: seq<Slot>)
    requires WellFormed(s)
    ensures Without(s, OneShotKeys(s)) == PersistentOnly(s)
  {
    if s != [] {
      var t := s[1..];
      assert WellFormed(t);
      OneShotsLeavePersistent(t);
      assert !HasKey(t, s[0].key) by {
        forall i | 0 <= i < |t|
          ensures t[i].key != s[0].key
        {
          assert t[i] == s[i + 1];
        }
      }
      if s[0].entry.OneShot? {
        assert OneShotKeys(s) == OneShotKeys(t) + {s[0].key};
        WithoutIgnoresAbsentKey(t, OneShotKeys(t), s[0].key);
      } else {
        OneShotKeysAreHeld(t);
        assert s[0].key !in OneShotKeys(t);
        assert OneShotKeys(s) == OneShotKeys(t);
        assert Without(s, OneShotKeys(s)) == [s[0]] + Without(t, OneShotKeys(t));
      }
    }
  }
}
