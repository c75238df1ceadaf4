/** Python's insertion-ordered `dict`, as a sequence of key/value pairs with distinct keys.
    Assigning to a present key replaces its value in place; a new key goes to the end. */
module Dict {
  import opened Wrappers

  type Dict<K, V> = seq<(K, V)>

  ghost predicate KeysUnique<K, V>(d: Dict<K, V>) {
    forall i, j | 0 <= i < j < |d| :: d[i].0 != d[j].0
  }

  function Keys<K, V>(d: Dict<K, V>): (ks: seq<K>)
    ensures |ks| == |d|
    ensures forall i | 0 <= i < |d| :: ks[i] == d[i].0
  {
    seq(|d|, i requires 0 <= i < |d| => d[i].0)
  }

  predicate HasKey<K(==), V>(d: Dict<K, V>, k: K) {
    exists i | 0 <= i < |d| :: d[i].0 == k
  }

  /** The position of the first entry whose key is `k`. */
  function Find<K(==), V>(d: Dict<K, V>, k: K): (r: Option<nat>)
    ensures r.None? ==> forall j | 0 <= j < |d| :: d[j].0 != k
    ensures r.Some? ==> r.value < |d| && d[r.value].0 == k
    ensures r.Some? ==> forall j | 0 <= j < r.value :: d[j].0 != k
  {
    if |d| == 0 then None
    else if d[0].0 == k then Some(0)
    else
      var r := Find(d[1..], k);
      assert forall j | 0 <= j < |d| - 1 :: d[1..][j] == d[j + 1];
      if r.None? then None else Some(r.value + 1)
  }

  /** `d.get(k)`. */
  function Get<K(==), V>(d: Dict<K, V>, k: K): (r: Option<V>)
    ensures r.None? <==> !HasKey(d, k)
    ensures r.Some? ==> exists i | 0 <= i < |d| :: d[i] == (k, r.value)
  {
    match Find(d, k)
    case None => None
    case Some(i) => Some(d[i].1)
  }

  /** In a dict with distinct keys, the entry at position `i` is what `Get` finds. */
  lemma GetAt<K, V>(d: Dict<K, V>, i: nat)
    requires KeysUnique(d) && i < |d|
    ensures Get(d, d[i].0) == Some(d[i].1)
  {
    var f := Find(d, d[i].0);
  }

  /** Two dicts whose keys agree wherever either has `k` find `k` at the same position. */
  lemma FindSame<K, V>(d: Dict<K, V>, e: Dict<K, V>, k: K)
    requires |d| == |e|
    requires forall j | 0 <= j < |d| :: (d[j].0 == k <==> e[j].0 == k)
    ensures Find(d, k) == Find(e, k)
  {
    var a, b := Find(d, k), Find(e, k);
  }

  /** `d[k] = v`. */
  function Put<K(==), V>(d: Dict<K, V>, k: K, v: V): (r: Dict<K, V>)
    ensures Get(r, k) == Some(v)
    ensures HasKey(d, k) ==> |r| == |d| && Keys(r) == Keys(d)
    ensures !HasKey(d, k) ==> r == d + [(k, v)]
    ensures KeysUnique(d) ==> KeysUnique(r)
  {
    match Find(d, k)
    case None =>
      var r := d + [(k, v)];
      FindAppended(d, k, v);
      r
    case Some(i) =>
      var r := d[i := (k, v)];
      assert forall j | 0 <= j < |d| :: (d[j].0 == k <==> r[j].0 == k);
      FindSame(d, r, k);
      r
  }

  lemma FindAppended<K, V>(d: Dict<K, V>, k: K, v: V)
    requires Find(d, k).None?
    ensures Find(d + [(k, v)], k) == Some(|d|)
  {
    var e := d + [(k, v)];
    assert e[|d|].0 == k;
    assert forall j | 0 <= j < |d| :: e[j] == d[j];
    var r := Find(e, k);
  }

  /** Assigning one key leaves every other key's value unchanged. */
  lemma PutOther<K, V>(d: Dict<K, V>, k: K, v: V, k': K)
    requires k' != k
    ensures Get(Put(d, k, v), k') == Get(d, k')
  {
    var r := Put(d, k, v);
    if HasKey(d, k) {
      FindSame(d, r, k');
    } else {
      assert forall j | 0 <= j < |d| :: r[j] == d[j];
      assert r[|d|].0 != k';
      var f := Find(d, k');
      var g := Find(r, k');
    }
  }

  /** `{k: f(k) for k in keys}` added to `acc`, each key assigned in turn. */
  function PutMapped<K(==,!new), V>(acc: Dict<K, V>, keys: seq<K>, f: K -> V): (r: Dict<K, V>)
    ensures KeysUnique(acc) ==> KeysUnique(r)
    ensures forall k :: HasKey(r, k) <==> (k in keys || HasKey(acc, k))
    ensures forall i | 0 <= i < |keys| :: Get(r, keys[i]) == Some(f(keys[i]))
    ensures forall k | k !in keys :: Get(r, k) == Get(acc, k)
    decreases |keys|
  {
    if |keys| == 0 then acc
    else
      var acc' := Put(acc, keys[0], f(keys[0]));
      assert forall k | k != keys[0] :: Get(acc', k) == Get(acc, k) by {
        forall k | k != keys[0] ensures Get(acc', k) == Get(acc, k) {
          PutOther(acc, keys[0], f(keys[0]), k);
        }
      }
      var r := PutMapped(acc', keys[1..], f);
      assert forall k :: k in keys <==> (k == keys[0] || k in keys[1..]);
      r
  }

  /** Looking a key up in a dict that starts with `x`. */
  lemma GetCons<K, V>(x: (K, V), rest: Dict<K, V>, k: K)
    ensures Get([x] + rest, k) == if x.0 == k then Some(x.1) else Get(rest, k)
  {
    assert ([x] + rest)[1..] == rest;
    var f := Find([x] + rest, k);
  }

  /** The values, in order (`list(d.values())`). */
  function Values<K, V>(d: Dict<K, V>): (vs: seq<V>)
    ensures |vs| == |d|
    ensures forall i | 0 <= i < |d| :: vs[i] == d[i].1
  {
    seq(|d|, i requires 0 <= i < |d| => d[i].1)
  }

  /** The entries whose key satisfies `keep`, in their order. */
  function Select<K(==,!new), V>(d: Dict<K, V>, keep: K -> bool): (r: Dict<K, V>)
    ensures |r| <= |d|
    ensures forall i | 0 <= i < |r| :: keep(r[i].0) && r[i] in d
    ensures (forall i | 0 <= i < |d| :: keep(d[i].0)) ==> r == d
    decreases |d|
  {
    if |d| == 0 then []
    else
      var rest := Select(d[1..], keep);
      assert forall i | 0 <= i < |rest| :: rest[i] in d by {
        assert forall x | x in d[1..] :: x in d;
      }
      if keep(d[0].0) then [d[0]] + rest else rest
  }

  /** Selecting keeps exactly the values of the kept keys. */
  lemma {:induction false} SelectGet<K(!new), V>(d: Dict<K, V>, keep: K -> bool, k: K)
    ensures Get(Select(d, keep), k) == if keep(k) then Get(d, k) else None
    decreases |d|
  {
    if |d| > 0 {
      var rest := Select(d[1..], keep);
      SelectGet(d[1..], keep, k);
      assert d == [d[0]] + d[1..];
      GetCons(d[0], d[1..], k);
      if keep(d[0].0) { GetCons(d[0], rest, k); }
    }
  }

  /** Selecting from a dict with distinct keys gives one with distinct keys. */
  lemma {:induction false} SelectUnique<K(!new), V>(d: Dict<K, V>, keep: K -> bool)
    requires KeysUnique(d)
    ensures KeysUnique(Select(d, keep))
    decreases |d|
  {
    if |d| > 0 {
      var rest := Select(d[1..], keep);
      assert KeysUnique(d[1..]) by {
        assert forall i | 0 <= i < |d| - 1 :: d[1..][i] == d[i + 1];
      }
      SelectUnique(d[1..], keep);
      if keep(d[0].0) {
        assert forall j | 0 <= j < |rest| :: rest[j].0 != d[0].0 by {
          forall j | 0 <= j < |rest| ensures rest[j].0 != d[0].0 {
            var m :| 0 <= m < |d[1..]| && d[1..][m] == rest[j];
            assert d[1..][m] == d[m + 1];
          }
        }
      }
    }
  }

  /** `d.pop(k, None)`: the dict without key `k`. */
  function Remove<K(==,!new), V>(d: Dict<K, V>, k: K): (r: Dict<K, V>)
    ensures !HasKey(r, k)
    ensures forall k' | k' != k :: Get(r, k') == Get(d, k')
    ensures KeysUnique(d) ==> KeysUnique(r)
    ensures !HasKey(d, k) ==> r == d
  {
    var keep := k' => k' != k;
    var r := Select(d, keep);
    SelectGet(d, keep, k);
    assert forall k' | k' != k :: Get(r, k') == Get(d, k') by {
      forall k' | k' != k ensures Get(r, k') == Get(d, k') { SelectGet(d, keep, k'); }
    }
    assert KeysUnique(d) ==> KeysUnique(r) by { if KeysUnique(d) { SelectUnique(d, keep); } }
    r
  }

  /** Looking a key up in a concatenation: the first part wins. */
  lemma {:induction false} GetAppend<K, V>(d: Dict<K, V>, e: Dict<K, V>, k: K)
    ensures Get(d + e, k) == if HasKey(d, k) then Get(d, k) else Get(e, k)
    decreases |d|
  {
    if |d| > 0 {
      assert d + e == [d[0]] + (d[1..] + e);
      assert d == [d[0]] + d[1..];
      GetCons(d[0], d[1..] + e, k);
      GetCons(d[0], d[1..], k);
      GetAppend(d[1..], e, k);
    } else {
      assert d + e == e;
    }
  }

  /** A loop that runs `d[k] = v` for each present entry in turn, starting from `{}`. */
  function Assign<K(==), V>(es: seq<Option<(K, V)>>): (d: Dict<K, V>)
    ensures KeysUnique(d)
    ensures |d| <= |es|
    decreases |es|
  {
    if |es| == 0 then []
    else
      var d := Assign(es[..|es| - 1]);
      match es[|es| - 1]
      case None => d
      case Some(kv) => Put(d, kv.0, kv.1)
  }

  /** The position of the last present entry with key `k`. */
  function LastFor<K(==), V>(es: seq<Option<(K, V)>>, k: K): (r: Option<nat>)
    ensures r.Some? ==> r.value < |es| && es[r.value].Some? && es[r.value].value.0 == k
    ensures r.Some? ==> forall j | r.value < j < |es| :: !(es[j].Some? && es[j].value.0 == k)
    ensures r.None? ==> forall j | 0 <= j < |es| :: !(es[j].Some? && es[j].value.0 == k)
    decreases |es|
  {
    if |es| == 0 then None
    else if es[|es| - 1].Some? && es[|es| - 1].value.0 == k then Some(|es| - 1)
    else LastFor(es[..|es| - 1], k)
  }

  /** An index that holds key `k` with no later entry holding it is the last for `k`. */
  lemma LastForAt<K, V>(es: seq<Option<(K, V)>>, k: K, i: nat)
    requires i < |es| && es[i].Some? && es[i].value.0 == k
    requires forall j | i < j < |es| :: !(es[j].Some? && es[j].value.0 == k)
    ensures LastFor(es, k) == Some(i)
  {
  }

  /** After the loop, a key holds the value of its last assignment, and is absent when it was
      never assigned. */
  lemma {:induction false} AssignGet<K, V>(es: seq<Option<(K, V)>>, k: K)
    ensures Get(Assign(es), k) == if LastFor(es, k).None? then None else Some(es[LastFor(es, k).value].value.1)
    decreases |es|
  {
    if |es| > 0 {
      var prefix := es[..|es| - 1];
      AssignGet(prefix, k);
      match es[|es| - 1]
      case None =>
      case Some(kv) =>
        if kv.0 != k {
          PutOther(Assign(prefix), kv.0, kv.1, k);
        }
    }
  }

  /** The position of the first present entry with key `k`. */
  function FirstFor<K(==), V>(es: seq<Option<(K, V)>>, k: K): (r: Option<nat>)
    ensures r.Some? ==> r.value < |es| && es[r.value].Some? && es[r.value].value.0 == k
    ensures r.Some? ==> forall j | 0 <= j < r.value :: !(es[j].Some? && es[j].value.0 == k)
    ensures r.None? ==> forall j | 0 <= j < |es| :: !(es[j].Some? && es[j].value.0 == k)
    decreases |es|
  {
    if |es| == 0 then None
    else
      var prefix := es[..|es| - 1];
      var r := FirstFor(prefix, k);
      assert forall j | 0 <= j < |prefix| :: prefix[j] == es[j];
      if r.Some? then r
      else if es[|es| - 1].Some? && es[|es| - 1].value.0 == k then Some(|es| - 1)
      else None
  }

  /** After the loop the keys are the assigned ones, each where it was first assigned:
      assigning a key again changes its value, not its place. */
  lemma {:induction false} AssignOrder<K, V>(es: seq<Option<(K, V)>>)
    ensures forall k :: HasKey(Assign(es), k) <==> FirstFor(es, k).Some?
    ensures var d := Assign(es); forall i | 0 <= i < |d| :: FirstFor(es, d[i].0).Some?
    ensures var d := Assign(es);
            forall i, j | 0 <= i < j < |d| :: FirstFor(es, d[i].0).value < FirstFor(es, d[j].0).value
    decreases |es|
  {
    if |es| > 0 {
      var prefix := es[..|es| - 1];
      AssignOrder(prefix);
      match es[|es| - 1]
      case None =>
        assert Assign(es) == Assign(prefix);
        forall k ensures FirstFor(es, k) == FirstFor(prefix, k) { FirstForLast(es, k); }
      case Some(kv) =>
        AssignOrderPut(es, kv);
    }
  }

  /** One step of the first-assignment search, from the back. */
  lemma FirstForLast<K, V>(es: seq<Option<(K, V)>>, k: K)
    requires |es| > 0
    ensures var prefix := es[..|es| - 1];
            FirstFor(es, k) == if FirstFor(prefix, k).Some? then FirstFor(prefix, k)
                               else if es[|es| - 1].Some? && es[|es| - 1].value.0 == k then Some(|es| - 1)
                               else None
  {
  }

  /** The step of `AssignOrder` for a present last entry. */
  lemma AssignOrderPut<K, V>(es: seq<Option<(K, V)>>, kv: (K, V))
    requires |es| > 0 && es[|es| - 1] == Some(kv)
    requires var prefix := es[..|es| - 1];
             var d' := Assign(prefix);
             (forall k :: HasKey(d', k) <==> FirstFor(prefix, k).Some?) &&
             (forall i | 0 <= i < |d'| :: FirstFor(prefix, d'[i].0).Some?) &&
             (forall i, j | 0 <= i < j < |d'| :: FirstFor(prefix, d'[i].0).value < FirstFor(prefix, d'[j].0).value)
    ensures forall k :: HasKey(Assign(es), k) <==> FirstFor(es, k).Some?
    ensures var d := Assign(es); forall i | 0 <= i < |d| :: FirstFor(es, d[i].0).Some?
    ensures var d := Assign(es);
            forall i, j | 0 <= i < j < |d| :: FirstFor(es, d[i].0).value < FirstFor(es, d[j].0).value
  {
    var prefix := es[..|es| - 1];
    var d' := Assign(prefix);
    assert Assign(es) == Put(d', kv.0, kv.1);
    forall k ensures FirstFor(es, k) == if HasKey(d', k) then FirstFor(prefix, k) else if k == kv.0 then Some(|es| - 1) else None {
      FirstForLast(es, k);
    }
    PutOrder(d', kv.0, kv.1, k => FirstFor(prefix, k), k => FirstFor(es, k), |es| - 1);
  }

  /** `Put` keeps every key where it was and adds a new one last, so keys ordered by a
      position stay ordered when the new key's position comes after all others. */
  lemma PutOrder<K, V>(d: Dict<K, V>, k0: K, v: V, pos: K -> Option<nat>, pos': K -> Option<nat>, last: nat)
    requires forall k :: HasKey(d, k) <==> pos(k).Some?
    requires forall i | 0 <= i < |d| :: pos(d[i].0).Some? && pos(d[i].0).value < last
    requires forall i, j | 0 <= i < j < |d| :: pos(d[i].0).value < pos(d[j].0).value
    requires forall k :: pos'(k) == if HasKey(d, k) then pos(k) else if k == k0 then Some(last) else None
    ensures var r := Put(d, k0, v); forall k :: HasKey(r, k) <==> pos'(k).Some?
    ensures var r := Put(d, k0, v); forall i | 0 <= i < |r| :: pos'(r[i].0).Some?
    ensures var r := Put(d, k0, v);
            forall i, j | 0 <= i < j < |r| :: pos'(r[i].0).value < pos'(r[j].0).value
  {
    var r := Put(d, k0, v);
    forall k ensures HasKey(r, k) <==> HasKey(d, k) || k == k0 {
      if k != k0 { PutOther(d, k0, v, k); }
    }
    if HasKey(d, k0) {
      forall i | 0 <= i < |r| ensures r[i].0 == d[i].0 {
        assert r[i].0 == Keys(r)[i] && d[i].0 == Keys(d)[i];
      }
    } else {
      assert r == d + [(k0, v)];
      assert forall i | 0 <= i < |d| :: r[i] == d[i];
    }
  }

  /** The loop leaves the dict empty exactly when no entry is present. */
  lemma AssignEmpty<K, V>(es: seq<Option<(K, V)>>)
    ensures Assign(es) == [] <==> forall i | 0 <= i < |es| :: es[i].None?
  {
    if exists i | 0 <= i < |es| :: es[i].Some? {
      var i :| 0 <= i < |es| && es[i].Some?;
      AssignGet(es, es[i].value.0);
    } else {
      AssignNone(es);
    }
  }

  lemma {:induction false} AssignNone<K, V>(es: seq<Option<(K, V)>>)
    requires forall i | 0 <= i < |es| :: es[i].None?
    ensures Assign(es) == []
    decreases |es|
  {
    if |es| > 0 {
      AssignNone(es[..|es| - 1]);
    }
  }
}
