/**
 * Plain JavaScript objects with string keys, as the scripts build them with
 * `Object.fromEntries` or `obj[key] = value`: an ordered list of entries in
 * which assigning an existing key replaces its value in place and a new key
 * is appended.
 */
module Records {
  import opened Wrappers

  type Entries<V> = seq<(string, V)>

  predicate DistinctKeys<V>(o: Entries<V>) {
    forall i, j :: 0 <= i < j < |o| ==> o[i].0 != o[j].0
  }

  function Keys<V>(o: Entries<V>): (ks: seq<string>)
    ensures |ks| == |o|
    ensures forall i :: 0 <= i < |o| ==> ks[i] == o[i].0
  {
    seq(|o|, i requires 0 <= i < |o| => o[i].0)
  }

  /** `o[k]`: the value stored under `k`, `None` for `undefined`. */
  function Get<V>(o: Entries<V>, k: string): Option<V> {
    if o == [] then None
    else if o[0].0 == k then Some(o[0].1)
    else Get(o[1..], k)
  }

  /** `o[k] = v`: an existing key keeps its position, a new key goes last. */
  function Put<V>(o: Entries<V>, k: string, v: V): (r: Entries<V>)
    ensures |r| == |o| || (|r| == |o| + 1 && r[|o|] == (k, v))
    ensures forall i :: 0 <= i < |o| ==> r[i].0 == o[i].0
  {
    if o == [] then [(k, v)]
    else if o[0].0 == k then [(k, v)] + o[1..]
    else [o[0]] + Put(o[1..], k, v)
  }

  /** Reading after `o[k] = v` sees `v` under `k` and the old value under every other key. */
  lemma {:induction false} PutGet<V>(o: Entries<V>, k: string, v: V, k': string)
    ensures Get(Put(o, k, v), k') == if k' == k then Some(v) else Get(o, k')
  {
    if o != [] && o[0].0 != k {
      PutGet(o[1..], k, v, k');
      assert Put(o, k, v)[1..] == Put(o[1..], k, v);
    }
  }

  /** A new key is appended; an existing key keeps the length. */
  lemma {:induction false} PutLength<V>(o: Entries<V>, k: string, v: V)
    ensures |Put(o, k, v)| == if Get(o, k).None? then |o| + 1 else |o|
  {
    if o != [] && o[0].0 != k {
      PutLength(o[1..], k, v);
    }
  }

  /** Assignment keeps the keys distinct. */
  lemma {:induction false} PutDistinct<V>(o: Entries<V>, k: string, v: V)
    requires DistinctKeys(o)
    ensures DistinctKeys(Put(o, k, v))
  {
    var r := Put(o, k, v);
    PutLength(o, k, v);
    if Get(o, k).None? && |r| == |o| + 1 {
      GetPresent(o, k);
    }
  }

  /** A key stored at some position can be read. */
  lemma {:induction false} GetPresent<V>(o: Entries<V>, k: string)
    requires Get(o, k).None?
    ensures forall i :: 0 <= i < |o| ==> o[i].0 != k
  {
    if o != [] {
      GetPresent(o[1..], k);
      assert forall i :: 1 <= i < |o| ==> o[i] == o[1..][i - 1];
    }
  }

  /** `Object.fromEntries(es)`: the entries assigned one after the other. */
  function FromEntries<V>(es: Entries<V>): (r: Entries<V>)
    ensures DistinctKeys(r)
  {
    if es == [] then []
    else
      var init := FromEntries(es[..|es| - 1]);
      PutDistinct(init, es[|es| - 1].0, es[|es| - 1].1);
      Put(init, es[|es| - 1].0, es[|es| - 1].1)
  }

  /** The value of the last entry with key `k`: the one a later assignment leaves behind. */
  function LastValue<V>(es: Entries<V>, k: string): Option<V> {
    if es == [] then None
    else if es[|es| - 1].0 == k then Some(es[|es| - 1].1)
    else LastValue(es[..|es| - 1], k)
  }

  /** A repeated key keeps the later value. */
  lemma {:induction false} FromEntriesGet<V>(es: Entries<V>, k: string)
    ensures Get(FromEntries(es), k) == LastValue(es, k)
  {
    if es != [] {
      FromEntriesGet(es[..|es| - 1], k);
      PutGet(FromEntries(es[..|es| - 1]), es[|es| - 1].0, es[|es| - 1].1, k);
    }
  }

  lemma {:induction false} GetDistinct<V>(o: Entries<V>, i: nat)
    requires DistinctKeys(o) && i < |o|
    ensures Get(o, o[i].0) == Some(o[i].1)
  {
    if i > 0 {
      GetDistinct(o[1..], i - 1);
    }
  }

  /** With distinct keys, `Object.fromEntries` keeps every entry, in order. */
  lemma {:induction false} FromEntriesDistinct<V>(es: Entries<V>)
    requires DistinctKeys(es)
    ensures FromEntries(es) == es
  {
    if es != [] {
      var init := es[..|es| - 1];
      var (k, v) := es[|es| - 1];
      FromEntriesDistinct(init);
      assert Get(init, k) == None by {
        GetAbsent(init, k);
      }
      assert Put(init, k, v) == init + [(k, v)] by {
        PutAbsent(init, k, v);
      }
      assert init + [(k, v)] == es;
    }
  }

  lemma {:induction false} GetAbsent<V>(o: Entries<V>, k: string)
    requires forall i :: 0 <= i < |o| ==> o[i].0 != k
    ensures Get(o, k) == None
  {
    if o != [] {
      GetAbsent(o[1..], k);
    }
  }

  lemma {:induction false} PutAbsent<V>(o: Entries<V>, k: string, v: V)
    requires Get(o, k) == None
    ensures Put(o, k, v) == o + [(k, v)]
  {
    if o != [] {
      PutAbsent(o[1..], k, v);
    }
  }
}
