/** JSON values as the parsers on both sides of the worker boundary produce
    them, and the ordered property lists that JavaScript objects and Python
    dicts both are: keys in insertion order, assignment to an existing key
    keeps its position, assignment to a new key appends it. */
module Json {
  import opened Base

  datatype Json =
    | Null
    | Bool(b: bool)
    | Num(n: int)
    | Str(s: string)
    | Arr(items: seq<Json>)
    | Obj(props: seq<(string, Json)>)

  type Props = seq<(string, Json)>

  function Keys(ps: Props): (ks: seq<string>)
    ensures |ks| == |ps|
    ensures forall i :: 0 <= i < |ps| ==> ks[i] == ps[i].0
  {
    seq(|ps|, i requires 0 <= i < |ps| => ps[i].0)
  }

  /** A JSON list of strings, one per element: the stored paths as the
      server passes them, or the keys of an object as labels. */
  function Strs(ss: seq<string>): (items: seq<Json>)
    ensures |items| == |ss|
    ensures forall i :: 0 <= i < |ss| ==> items[i] == Str(ss[i])
  {
    seq(|ss|, i requires 0 <= i < |ss| => Str(ss[i]))
  }

  /** A property list without a repeated key, as every parsed object is. */
  predicate DistinctKeys(ps: Props) {
    NoDuplicates(Keys(ps))
  }

  /** The value a reader sees under key `k`: the last assignment wins. */
  function Lookup(ps: Props, k: string): (r: Option<Json>)
    ensures r.Some? <==> k in Keys(ps)
  {
    if ps == [] then None
    else
      var rest := Lookup(ps[1..], k);
      assert Keys(ps) == [ps[0].0] + Keys(ps[1..]);
      if rest.Some? then rest
      else if ps[0].0 == k then Some(ps[0].1)
      else None
  }

  /** In a property list without repeated keys, each entry is what its key
      looks up. */
  lemma {:induction false} LookupAt(ps: Props, i: nat)
    requires DistinctKeys(ps) && i < |ps|
    ensures Lookup(ps, ps[i].0) == Some(ps[i].1)
  {
    var rest := ps[1..];
    assert Keys(rest) == Keys(ps)[1..];
    if i == 0 {
      assert ps[0].0 !in Keys(rest) by {
        forall j | 0 <= j < |rest| ensures Keys(rest)[j] != ps[0].0 {
          assert Keys(ps)[j + 1] != Keys(ps)[0];
        }
      }
    } else {
      assert DistinctKeys(rest);
      assert rest[i - 1] == ps[i];
      LookupAt(rest, i - 1);
    }
  }

  /** Assignment `ps[k] = v` on an ordered property list. */
  function Put(ps: Props, k: string, v: Json): (r: Props)
    ensures k in Keys(ps) ==> Keys(r) == Keys(ps)
    ensures k !in Keys(ps) ==> r == ps + [(k, v)]
  {
    if k in Keys(ps) then ps[FirstIndex(Keys(ps), k) := (k, v)] else ps + [(k, v)]
  }

  /** Assign every property of `qs` to `ps`, in the order of `qs`. */
  function CopyAll(ps: Props, qs: Props): Props
    decreases |qs|
  {
    if qs == [] then ps else CopyAll(Put(ps, qs[0].0, qs[0].1), qs[1..])
  }

  lemma {:induction false} PutPreserves(ps: Props, k: string, v: Json)
    requires DistinctKeys(ps)
    ensures DistinctKeys(Put(ps, k, v))
    ensures forall k' :: Lookup(Put(ps, k, v), k') == if k' == k then Some(v) else Lookup(ps, k')
  {
    var r := Put(ps, k, v);
    if k !in Keys(ps) {
      assert Keys(r) == Keys(ps) + [k];
    }
    assert DistinctKeys(r);
    forall k' ensures Lookup(r, k') == if k' == k then Some(v) else Lookup(ps, k') {
      if k' in Keys(r) {
        var i := FirstIndex(Keys(r), k');
        LookupAt(r, i);
        if k' in Keys(ps) {
          LookupAt(ps, FirstIndex(Keys(ps), k'));
        }
      }
    }
  }

  /** What `CopyAll` leaves: keys of `qs` look up their last value in `qs`,
      every other key keeps its old value, and no key is repeated. */
  lemma {:induction false} CopyAllLookup(ps: Props, qs: Props)
    requires DistinctKeys(ps)
    ensures DistinctKeys(CopyAll(ps, qs))
    ensures forall k :: Lookup(CopyAll(ps, qs), k) == if k in Keys(qs) then Lookup(qs, k) else Lookup(ps, k)
    decreases |qs|
  {
    if qs != [] {
      var ps' := Put(ps, qs[0].0, qs[0].1);
      PutPreserves(ps, qs[0].0, qs[0].1);
      CopyAllLookup(ps', qs[1..]);
      assert Keys(qs) == [qs[0].0] + Keys(qs[1..]);
    }
  }

  /** The keys already present keep their order at the front. */
  lemma {:induction false} CopyAllPrefix(ps: Props, qs: Props)
    ensures |ps| <= |CopyAll(ps, qs)|
    ensures Keys(CopyAll(ps, qs))[..|ps|] == Keys(ps)
    decreases |qs|
  {
    if qs != [] {
      var ps' := Put(ps, qs[0].0, qs[0].1);
      CopyAllPrefix(ps', qs[1..]);
      var r := CopyAll(ps', qs[1..]);
      assert r == CopyAll(ps, qs);
      assert |ps| <= |ps'|;
      assert Keys(ps')[..|ps|] == Keys(ps);
      assert Keys(r)[..|ps|] == Keys(r)[..|ps'|][..|ps|];
    }
  }

  /** The result holds exactly the keys of both lists. */
  lemma {:induction false} CopyAllKeySet(ps: Props, qs: Props, k: string)
    ensures k in Keys(CopyAll(ps, qs)) <==> k in Keys(ps) || k in Keys(qs)
    decreases |qs|
  {
    if qs != [] {
      var ps' := Put(ps, qs[0].0, qs[0].1);
      CopyAllKeySet(ps', qs[1..], k);
      assert Keys(qs) == [qs[0].0] + Keys(qs[1..]);
      if qs[0].0 !in Keys(ps) {
        assert Keys(ps') == Keys(ps) + [qs[0].0];
      }
    }
  }

  /** When every copied key is already present, the keys do not move. */
  lemma {:induction false} CopyAllKeysStable(ps: Props, qs: Props)
    requires forall k :: k in Keys(qs) ==> k in Keys(ps)
    ensures Keys(CopyAll(ps, qs)) == Keys(ps)
    decreases |qs|
  {
    if qs != [] {
      assert Keys(qs) == [qs[0].0] + Keys(qs[1..]);
      assert qs[0].0 in Keys(ps);
      var ps' := Put(ps, qs[0].0, qs[0].1);
      assert Keys(ps') == Keys(ps);
      CopyAllKeysStable(ps', qs[1..]);
    }
  }

  /** Two duplicate-free property lists with the same keys in the same order
      and the same lookups are the same list. */
  lemma PropsExtensional(a: Props, b: Props)
    requires DistinctKeys(a) && Keys(a) == Keys(b)
    requires forall k :: Lookup(a, k) == Lookup(b, k)
    ensures a == b
  {
    assert DistinctKeys(b);
    forall i | 0 <= i < |a| ensures a[i] == b[i] {
      LookupAt(a, i);
      LookupAt(b, i);
      assert Lookup(a, a[i].0) == Lookup(b, b[i].0);
    }
  }

  /** Copying the same properties a second time changes nothing. */
  lemma CopyAllIdempotent(ps: Props, qs: Props)
    requires DistinctKeys(ps)
    ensures CopyAll(CopyAll(ps, qs), qs) == CopyAll(ps, qs)
  {
    var once := CopyAll(ps, qs);
    var twice := CopyAll(once, qs);
    CopyAllLookup(ps, qs);
    CopyAllLookup(once, qs);
    forall k | k in Keys(qs) ensures k in Keys(once) {
      CopyAllKeySet(ps, qs, k);
    }
    CopyAllKeysStable(once, qs);
    PropsExtensional(twice, once);
  }

  /** Copying properties whose keys are all new, and distinct, appends
      them. */
  lemma {:induction false} CopyAllFresh(ps: Props, qs: Props)
    requires DistinctKeys(ps + qs)
    ensures CopyAll(ps, qs) == ps + qs
    decreases |qs|
  {
    if qs == [] {
      assert ps + qs == ps;
    } else {
      var ps' := ps + [qs[0]];
      var rest := qs[1..];
      assert ps' + rest == ps + qs by {
        assert qs == [qs[0]] + rest;
      }
      assert Put(ps, qs[0].0, qs[0].1) == ps' by {
        var all := Keys(ps + qs);
        assert all[|ps|] == qs[0].0;
        forall j | 0 <= j < |ps| ensures Keys(ps)[j] != qs[0].0 {
          assert all[j] == Keys(ps)[j];
        }
      }
      CopyAllFresh(ps', rest);
    }
  }
}
