/** Small vocabulary shared by every other module: optional values, results,
    duplicate-freedom, flattening of nested sequences and decimal rendering. */
module Base {

  datatype Option<+T> = None | Some(value: T)

  datatype Result<+T, +E> = Ok(value: T) | Err(error: E)

  /** No two positions of `s` hold equal elements. */
  predicate NoDuplicates<T(==)>(s: seq<T>) {
    forall i, j :: 0 <= i < j < |s| ==> s[i] != s[j]
  }

  /** Index of the first occurrence of `x` in `s`. */
  function FirstIndex<T(==)>(s: seq<T>, x: T): (i: nat)
    requires x in s
    ensures i < |s| && s[i] == x
    ensures forall j :: 0 <= j < i ==> s[j] != x
  {
    if s[0] == x then 0 else 1 + FirstIndex(s[1..], x)
  }

  /** Concatenation of a sequence of sequences, outer order first. */
  function Flatten<T>(xss: seq<seq<T>>): seq<T> {
    if xss == [] then [] else xss[0] + Flatten(xss[1..])
  }

  /** Total length of the inner sequences. */
  function TotalLength<T>(xss: seq<seq<T>>): nat {
    if xss == [] then 0 else |xss[0]| + TotalLength(xss[1..])
  }

  /** Total length of the inner sequences before position `k`. */
  function LengthBefore<T>(xss: seq<seq<T>>, k: nat): nat
    requires k <= |xss|
  {
    if k == 0 then 0 else |xss[0]| + LengthBefore(xss[1..], k - 1)
  }

  lemma {:induction false} FlattenLength<T>(xss: seq<seq<T>>)
    ensures |Flatten(xss)| == TotalLength(xss)
  {
    if xss != [] {
      FlattenLength(xss[1..]);
    }
  }

  /** Element `i` of inner sequence `k` sits in the flattening right after
      everything that comes from the inner sequences before `k`. */
  lemma {:induction false} FlattenAt<T>(xss: seq<seq<T>>, k: nat, i: nat)
    requires k < |xss| && i < |xss[k]|
    ensures LengthBefore(xss, k) + i < |Flatten(xss)|
    ensures Flatten(xss)[LengthBefore(xss, k) + i] == xss[k][i]
  {
    FlattenLength(xss);
    if k == 0 {
    } else {
      FlattenAt(xss[1..], k - 1, i);
    }
  }

  lemma {:induction false} LengthBeforeBound<T>(xss: seq<seq<T>>, k: nat)
    requires k < |xss|
    ensures LengthBefore(xss, k) + |xss[k]| <= TotalLength(xss)
  {
    if k > 0 {
      LengthBeforeBound(xss[1..], k - 1);
    }
  }

  /** Every element of the flattening comes from some inner sequence. */
  lemma {:induction false} FlattenMembers<T>(xss: seq<seq<T>>, x: T)
    ensures x in Flatten(xss) <==> exists k :: 0 <= k < |xss| && x in xss[k]
  {
    if xss != [] {
      FlattenMembers(xss[1..], x);
      if x in Flatten(xss[1..]) {
        var k :| 0 <= k < |xss[1..]| && x in xss[1..][k];
        assert x in xss[k + 1];
      }
      if exists k :: 0 <= k < |xss| && x in xss[k] {
        var k :| 0 <= k < |xss| && x in xss[k];
        if k > 0 {
          assert x in xss[1..][k - 1];
        }
      }
    }
  }

  function DigitChar(d: nat): char
    requires d < 10
  {
    "0123456789"[d]
  }

  /** Decimal rendering of a natural number, as JavaScript and Python print
      array indices and integers. */
  function NatToString(n: nat): (s: string)
    ensures |s| >= 1
    ensures n >= 10 ==> |s| >= 2
  {
    if n < 10 then [DigitChar(n)] else NatToString(n / 10) + [DigitChar(n % 10)]
  }

  /** Different numbers have different renderings. */
  lemma {:induction false} NatToStringInjective(a: nat, b: nat)
    requires NatToString(a) == NatToString(b)
    ensures a == b
  {
    var sa, sb := NatToString(a), NatToString(b);
    if a < 10 || b < 10 {
      assert |sa| == 1 && |sb| == 1;
      assert a < 10 && b < 10;
      assert "0123456789"[a] == sa[0] == sb[0] == "0123456789"[b];
    } else {
      var pa, pb := NatToString(a / 10), NatToString(b / 10);
      assert sa == pa + [DigitChar(a % 10)];
      assert sb == pb + [DigitChar(b % 10)];
      assert |pa| == |pb|;
      assert pa == sa[..|pa|] == sb[..|pb|] == pb;
      NatToStringInjective(a / 10, b / 10);
      assert sa[|pa|] == sb[|pb|];
      assert "0123456789"[a % 10] == "0123456789"[b % 10];
    }
  }

  /** All the values of a list of results, or the first error among them. */
  function Sequence<T(==), E(==)>(rs: seq<Result<T, E>>): (r: Result<seq<T>, E>)
    ensures r.Ok? <==> forall i :: 0 <= i < |rs| ==> rs[i].Ok?
    ensures r.Ok? ==> |r.value| == |rs| && forall i :: 0 <= i < |rs| ==> rs[i] == Ok(r.value[i])
    ensures r.Err? ==>
      exists i :: 0 <= i < |rs| && rs[i] == Err(r.error) && (forall j :: 0 <= j < i ==> rs[j].Ok?)
  {
    if rs == [] then Ok([])
    else
      var init := rs[..|rs| - 1];
      assert forall i :: 0 <= i < |init| ==> init[i] == rs[i];
      match Sequence(init)
      case Err(e) => Err(e)
      case Ok(vs) =>
        match rs[|rs| - 1]
        case Err(e) => Err(e)
        case Ok(v) => Ok(vs + [v])
  }

  /** Once a prefix holds an error, the whole list yields that error. */
  lemma {:induction false} SequenceFailureStops<T, E>(rs: seq<Result<T, E>>, n: nat)
    requires n <= |rs| && Sequence(rs[..n]).Err?
    ensures Sequence(rs) == Sequence(rs[..n])
    decreases |rs| - n
  {
    if n < |rs| {
      assert rs[..n + 1][..n] == rs[..n];
      SequenceFailureStops(rs, n + 1);
    } else {
      assert rs[..n] == rs;
    }
  }

  /** Extending a list of results by one more value. */
  lemma SequenceStep<T, E>(rs: seq<Result<T, E>>, i: nat, vs: seq<T>)
    requires i < |rs| && Sequence(rs[..i]) == Ok(vs) && rs[i].Ok?
    ensures Sequence(rs[..i + 1]) == Ok(vs + [rs[i].value])
  {
    assert rs[..i + 1][..i] == rs[..i];
  }

  /** Extending a list of results by an error. */
  lemma SequenceStepErr<T, E>(rs: seq<Result<T, E>>, i: nat, vs: seq<T>)
    requires i < |rs| && Sequence(rs[..i]) == Ok(vs) && rs[i].Err?
    ensures Sequence(rs) == Err(rs[i].error)
  {
    assert rs[..i + 1][..i] == rs[..i];
    SequenceFailureStops(rs, i + 1);
  }

  /** The position of the error a list of results yields. */
  lemma FirstError<T, E>(rs: seq<Result<T, E>>) returns (i: nat)
    requires Sequence(rs).Err?
    ensures i < |rs| && rs[i] == Err(Sequence(rs).error)
    ensures forall j :: 0 <= j < i ==> rs[j].Ok?
  {
    i :| 0 <= i < |rs| && rs[i] == Err(Sequence(rs).error) && (forall j :: 0 <= j < i ==> rs[j].Ok?);
  }

  /** Keep the first occurrence of every element, in order: element `i` is
      kept exactly when no earlier element equals it. */
  function KeepFirst<T(==)>(s: seq<T>): seq<T> {
    if s == [] then []
    else KeepFirst(s[..|s| - 1]) + (if s[|s| - 1] in s[..|s| - 1] then [] else [s[|s| - 1]])
  }

  lemma {:induction false} KeepFirstMembers<T>(s: seq<T>, x: T)
    ensures x in KeepFirst(s) <==> x in s
  {
    if s != [] {
      var init := s[..|s| - 1];
      KeepFirstMembers(init, x);
      assert s == init + [s[|s| - 1]];
    }
  }

  lemma {:induction false} KeepFirstNoDuplicates<T>(s: seq<T>)
    ensures NoDuplicates(KeepFirst(s))
  {
    if s != [] {
      var init := s[..|s| - 1];
      KeepFirstNoDuplicates(init);
      KeepFirstMembers(init, s[|s| - 1]);
    }
  }

  /** Kept elements appear in the order of their first occurrence. */
  lemma {:induction false} KeepFirstOrder<T>(s: seq<T>)
    ensures forall x :: x in KeepFirst(s) ==> x in s
    ensures forall i, j :: 0 <= i < j < |KeepFirst(s)| ==>
      FirstIndex(s, KeepFirst(s)[i]) < FirstIndex(s, KeepFirst(s)[j])
  {
    forall x | x in KeepFirst(s) ensures x in s {
      KeepFirstMembers(s, x);
    }
    if s != [] {
      var init := s[..|s| - 1];
      var last := s[|s| - 1];
      var r := KeepFirst(s);
      var r0 := KeepFirst(init);
      KeepFirstOrder(init);
      assert forall x :: x in init ==> FirstIndex(s, x) == FirstIndex(init, x) by {
        forall x | x in init ensures FirstIndex(s, x) == FirstIndex(init, x) {
          FirstIndexPrefix(init, s, x);
        }
      }
      if last !in init {
        assert r == r0 + [last];
        assert FirstIndex(s, last) == |s| - 1;
        forall i, j | 0 <= i < j < |r| ensures FirstIndex(s, r[i]) < FirstIndex(s, r[j]) {
          assert r[i] in r0;
          if j < |r0| {
          } else {
            assert r[i] in init;
          }
        }
      } else {
        assert r == r0;
      }
    }
  }

  lemma {:induction false} FirstIndexPrefix<T>(a: seq<T>, s: seq<T>, x: T)
    requires |a| <= |s| && a == s[..|a|] && x in a
    ensures x in s && FirstIndex(s, x) == FirstIndex(a, x)
  {
    var i := FirstIndex(a, x);
    assert s[i] == x;
  }

  /** Nothing is removed from a sequence without repeats. */
  lemma {:induction false} KeepFirstOfDistinct<T>(s: seq<T>)
    requires NoDuplicates(s)
    ensures KeepFirst(s) == s
  {
    if s != [] {
      var init := s[..|s| - 1];
      KeepFirstOfDistinct(init);
      assert s == init + [s[|s| - 1]];
    }
  }

  /** Something is removed from a sequence with a repeat. */
  lemma {:induction false} KeepFirstShrinks<T>(s: seq<T>)
    ensures |KeepFirst(s)| <= |s|
    ensures !NoDuplicates(s) ==> |KeepFirst(s)| < |s|
  {
    if s != [] {
      var init := s[..|s| - 1];
      var last := s[|s| - 1];
      KeepFirstShrinks(init);
      if !NoDuplicates(s) && NoDuplicates(init) {
        var i, j :| 0 <= i < j < |s| && s[i] == s[j];
        assert j == |s| - 1;
        assert last in init;
      }
    }
  }

  /** Appending elements that already occurred removes all of them. */
  lemma {:induction false} KeepFirstAbsorbs<T>(a: seq<T>, b: seq<T>)
    requires forall x :: x in b ==> x in a
    ensures KeepFirst(a + b) == KeepFirst(a)
  {
    if b == [] {
      assert a + b == a;
    } else {
      var b0 := b[..|b| - 1];
      KeepFirstAbsorbs(a, b0);
      assert (a + b)[..|a + b| - 1] == a + b0;
      assert b[|b| - 1] in a;
    }
  }
}
