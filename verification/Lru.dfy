/**
  A bounded least-recently-used dictionary, as provided by `lru.LRU` and by
  `functools.lru_cache`.  Entries are listed from the most to the least recently
  used.  Looking a key up moves it to the front, testing for a key does not, and
  storing into a full dictionary drops the last entry.
 */
module Lru {

  datatype Entry<+K, +V> = Entry(key: K, value: V)

  predicate Has<K(==), V>(es: seq<Entry<K, V>>, k: K) {
    exists i :: 0 <= i < |es| && es[i].key == k
  }

  function Value<K(==), V>(es: seq<Entry<K, V>>, k: K): V
    requires Has(es, k)
  {
    if es[0].key == k then es[0].value else Value(es[1..], k)
  }

  function Without<K(==), V>(es: seq<Entry<K, V>>, k: K): seq<Entry<K, V>> {
    if es == [] then []
    else if es[0].key == k then Without(es[1..], k)
    else [es[0]] + Without(es[1..], k)
  }

  function Touch<K(==), V>(es: seq<Entry<K, V>>, k: K): seq<Entry<K, V>>
    requires Has(es, k)
  {
    [Entry(k, Value(es, k))] + Without(es, k)
  }

  function Put<K(==), V>(es: seq<Entry<K, V>>, capacity: nat, k: K, v: V): seq<Entry<K, V>> {
    var all := [Entry(k, v)] + Without(es, k);
    if |all| > capacity then all[..capacity] else all
  }

  ghost predicate Valid<K, V>(es: seq<Entry<K, V>>, capacity: nat) {
    && 0 < capacity
    && |es| <= capacity
    && forall i, j :: 0 <= i < j < |es| ==> es[i].key != es[j].key
  }

  /** The key that storing `k` pushes out of a full dictionary, if any. */
  ghost predicate Evicts<K, V>(es: seq<Entry<K, V>>, capacity: nat, k: K, victim: K) {
    && 0 < |es| == capacity
    && !Has(es, k)
    && victim == es[|es| - 1].key
  }

  /* ---- What the operations do to membership and values ---- */

  lemma HasTail<K, V>(es: seq<Entry<K, V>>, k: K)
    requires es != []
    ensures Has(es, k) <==> es[0].key == k || Has(es[1..], k)
  {
    if Has(es, k) {
      var i :| 0 <= i < |es| && es[i].key == k;
      if i > 0 {
        assert es[1..][i - 1].key == k;
      }
    }
    if Has(es[1..], k) {
      var i :| 0 <= i < |es[1..]| && es[1..][i].key == k;
      assert es[i + 1].key == k;
    }
  }

  lemma {:induction false} WithoutHas<K, V>(es: seq<Entry<K, V>>, k: K, x: K)
    ensures Has(Without(es, k), x) <==> x != k && Has(es, x)
    ensures x != k && Has(es, x) ==> Value(Without(es, k), x) == Value(es, x)
    ensures |Without(es, k)| <= |es|
    ensures !Has(es, k) ==> Without(es, k) == es
  {
    if es != [] {
      WithoutHas(es[1..], k, x);
      HasTail(es, x);
      HasTail(es, k);
      if es[0].key == k {
      } else {
        var w := Without(es, k);
        assert w[1..] == Without(es[1..], k);
        HasTail(w, x);
        if !Has(es, k) {
          assert es == [es[0]] + es[1..];
        }
      }
    }
  }

  lemma {:induction false} WithoutEntry<K, V>(es: seq<Entry<K, V>>, k: K, i: nat)
    requires i < |Without(es, k)|
    ensures Without(es, k)[i] in es && Without(es, k)[i].key != k
  {
    if es[0].key == k {
      WithoutEntry(es[1..], k, i);
    } else if i > 0 {
      WithoutEntry(es[1..], k, i - 1);
    }
  }

  lemma {:induction false} WithoutValid<K, V>(es: seq<Entry<K, V>>, k: K, capacity: nat)
    requires Valid(es, capacity)
    ensures Valid(Without(es, k), capacity)
    ensures Has(es, k) ==> |Without(es, k)| == |es| - 1
  {
    if es != [] {
      var t := es[1..];
      WithoutValid(t, k, capacity);
      WithoutHas(t, k, k);
      HasTail(es, k);
      if es[0].key == k {
        assert !Has(t, k) by {
          assert forall i :: 0 <= i < |t| ==> t[i] == es[i + 1];
        }
      } else {
        forall j | 0 <= j < |Without(t, k)|
          ensures Without(t, k)[j].key != es[0].key
        {
          WithoutEntry(t, k, j);
        }
      }
    }
  }

  lemma ValueAt<K, V>(es: seq<Entry<K, V>>, capacity: nat, i: nat)
    requires Valid(es, capacity) && i < |es|
    ensures Has(es, es[i].key) && Value(es, es[i].key) == es[i].value
    decreases |es|
  {
    if i > 0 {
      assert es[0].key != es[i].key;
      ValueAt(es[1..], capacity, i - 1);
    }
  }

  lemma TouchKeeps<K, V>(es: seq<Entry<K, V>>, capacity: nat, k: K, x: K)
    requires Valid(es, capacity) && Has(es, k)
    ensures Valid(Touch(es, k), capacity)
    ensures Has(Touch(es, k), x) <==> Has(es, x)
    ensures Has(es, x) ==> Value(Touch(es, k), x) == Value(es, x)
  {
    WithoutValid(es, k, capacity);
    WithoutHas(es, k, x);
    var t := Touch(es, k);
    assert t[1..] == Without(es, k);
    HasTail(t, x);
    forall j | 0 <= j < |Without(es, k)| ensures Without(es, k)[j].key != k {
      WithoutEntry(es, k, j);
    }
  }

  lemma TakeHas<K, V>(es: seq<Entry<K, V>>, capacity: nat, x: K)
    requires 0 < capacity && |es| == capacity + 1
    requires forall i, j :: 0 <= i < j < |es| ==> es[i].key != es[j].key
    ensures Has(es[..capacity], x) <==> Has(es, x) && x != es[capacity].key
    ensures Has(es[..capacity], x) ==> Has(es, x) && Value(es[..capacity], x) == Value(es, x)
  {
    var t := es[..capacity];
    if Has(t, x) {
      var i :| 0 <= i < |t| && t[i].key == x;
      assert es[i].key == x;
      ValueAt(t, capacity, i);
      ValueAt(es, capacity + 1, i);
    }
    if Has(es, x) && x != es[capacity].key {
      var i :| 0 <= i < |es| && es[i].key == x;
      assert t[i].key == x;
    }
  }

  /** Before anything is dropped, the new key stands in front of the others. */
  lemma FrontKeeps<K, V>(es: seq<Entry<K, V>>, capacity: nat, k: K, v: V, x: K)
    requires Valid(es, capacity)
    ensures var all := [Entry(k, v)] + Without(es, k);
            && (forall i, j :: 0 <= i < j < |all| ==> all[i].key != all[j].key)
            && (Has(all, x) <==> x == k || Has(es, x))
            && (Has(all, x) ==> Value(all, x) == if x == k then v else Value(es, x))
            && |all| == (if Has(es, k) then |es| else |es| + 1)
            && (!Has(es, k) ==> Without(es, k) == es)
  {
    WithoutValid(es, k, capacity);
    WithoutHas(es, k, x);
    WithoutHas(es, k, k);
    var all := [Entry(k, v)] + Without(es, k);
    assert all[1..] == Without(es, k);
    HasTail(all, x);
    forall j | 0 <= j < |Without(es, k)| ensures Without(es, k)[j].key != k {
      WithoutEntry(es, k, j);
    }
    hide Without, Has;
  }

  /** After storing, exactly the new key and all old keys but the victim are there. */
  lemma PutKeeps<K, V>(es: seq<Entry<K, V>>, capacity: nat, k: K, v: V, x: K)
    requires Valid(es, capacity)
    ensures Valid(Put(es, capacity, k, v), capacity)
    ensures Has(Put(es, capacity, k, v), x) <==> x == k || (Has(es, x) && !Evicts(es, capacity, k, x))
    ensures Has(Put(es, capacity, k, v), x) ==>
              Value(Put(es, capacity, k, v), x) == if x == k then v else Value(es, x)
  {
    FrontKeeps(es, capacity, k, v, x);
    var all := [Entry(k, v)] + Without(es, k);
    hide Without, Has, Value;
    if |all| > capacity {
      TakeHas(all, capacity, x);
      assert all[capacity] == es[|es| - 1];
    }
  }

  /* ---- What is dropped is what was used longest ago ---- */

  datatype Use<K, V> = Look(key: K) | Store(key: K, value: V)

  /** The dictionary after these uses; looking up a key that is not there changes nothing. */
  function Used<K(==), V>(capacity: nat, uses: seq<Use<K, V>>): seq<Entry<K, V>> {
    if uses == [] then []
    else
      var es, u := Used(capacity, uses[..|uses| - 1]), uses[|uses| - 1];
      match u
      case Look(k) => if Has(es, k) then Touch(es, k) else es
      case Store(k, v) => Put(es, capacity, k, v)
  }

  /** When the key was last stored or found; -1 if never. */
  ghost function LastUse<K, V>(capacity: nat, uses: seq<Use<K, V>>, k: K): (t: int)
    ensures -1 <= t < |uses|
  {
    if uses == [] then -1
    else
      var front, u := uses[..|uses| - 1], uses[|uses| - 1];
      if u.key == k && (u.Store? || Has(Used(capacity, front), k)) then |front| else LastUse(capacity, front, k)
  }

  /** The entries stand in the order of these times, the latest first. */
  ghost predicate Ordered<K, V>(es: seq<Entry<K, V>>, time: K -> int) {
    forall i, j :: 0 <= i < j < |es| ==> time(es[i].key) > time(es[j].key)
  }

  lemma {:induction false} WithoutOrdered<K, V>(es: seq<Entry<K, V>>, k: K, time: K -> int)
    requires Ordered(es, time)
    ensures Ordered(Without(es, k), time)
  {
    if es != [] {
      WithoutOrdered(es[1..], k, time);
      if es[0].key != k {
        forall j | 0 <= j < |Without(es[1..], k)| ensures time(es[0].key) > time(Without(es[1..], k)[j].key) {
          WithoutEntry(es[1..], k, j);
        }
      }
    }
  }

  /** Using a key last puts it in front of the others, in order. */
  lemma FrontOrdered<K, V>(es: seq<Entry<K, V>>, k: K, v: V, before: K -> int, after: K -> int)
    requires Ordered(es, before)
    requires forall i :: 0 <= i < |es| ==> before(es[i].key) < after(k)
    requires forall x :: x != k ==> after(x) == before(x)
    ensures Ordered([Entry(k, v)] + Without(es, k), after)
  {
    WithoutOrdered(es, k, before);
    var w := Without(es, k);
    forall j | 0 <= j < |w| ensures after(w[j].key) == before(w[j].key) < after(k) {
      WithoutEntry(es, k, j);
      var i :| 0 <= i < |es| && es[i] == w[j];
    }
    hide Without;
  }

  /**
    Whatever the uses were, the entries stand in the order of their last uses, so the one that a
    full dictionary drops is the one used longest ago.
   */
  lemma {:induction false} RecencyOrder<K, V>(capacity: nat, uses: seq<Use<K, V>>)
    requires 0 < capacity
    ensures Valid(Used(capacity, uses), capacity)
    ensures Ordered(Used(capacity, uses), k => LastUse(capacity, uses, k))
    decreases |uses|
  {
    if uses != [] {
      var front, u := uses[..|uses| - 1], uses[|uses| - 1];
      var es := Used(capacity, front);
      RecencyOrder(capacity, front);
      if u.Store? || Has(es, u.key) {
        var v := if u.Store? then u.value else Value(es, u.key);
        FrontOrdered(es, u.key, v, k => LastUse(capacity, front, k), k => LastUse(capacity, uses, k));
        if u.Store? {
          PutKeeps(es, capacity, u.key, v, u.key);
        } else {
          TouchKeeps(es, capacity, u.key, u.key);
        }
      }
    }
  }
}
