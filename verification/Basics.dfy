/** Small shared vocabulary: optional values, positions, Python's insertion-ordered dictionary. */
module Basics {

  datatype Option<+T> = None | Some(value: T)

  datatype Position = Position(lat: real, lon: real)

  /** The bounds that the position schema enforces. */
  predicate OnGlobe(p: Position) {
    -90.0 <= p.lat <= 90.0 && -180.0 <= p.lon <= 180.0
  }

  /** Distance in metres, left abstract. */
  type Metric = (Position, Position) -> real

  function MaxReal(a: real, b: real): real { if a >= b then a else b }

  function MinReal(a: real, b: real): real { if a <= b then a else b }

  function AbsReal(x: real): real { if x < 0.0 then -x else x }

  /** Cut off to [0, 1]. */
  function Clamp(x: real): real {
    MaxReal(0.0, MinReal(1.0, x))
  }

  /** A product that is a fraction of `x` when the factor lies in [0, 1]. */
  function Weakened(x: real, factor: real): (r: real)
    ensures 0.0 <= x && 0.0 <= factor <= 1.0 ==> 0.0 <= r <= x
  {
    x * factor
  }

  ghost predicate Distinct<T>(s: seq<T>) {
    forall i, j :: 0 <= i < j < |s| ==> s[i] != s[j]
  }

  lemma ConcatAssociates<T>(a: seq<T>, b: seq<T>, c: seq<T>)
    ensures (a + b) + c == a + (b + c)
  {
  }

  /** The elements other than `x`, in order. */
  function Without<T(==)>(s: seq<T>, x: T): seq<T> {
    if s == [] then []
    else if s[0] == x then Without(s[1..], x)
    else [s[0]] + Without(s[1..], x)
  }

  /** The elements of `keep`, in order. */
  function Only<T(==)>(s: seq<T>, keep: set<T>): seq<T> {
    if s == [] then []
    else if s[0] in keep then [s[0]] + Only(s[1..], keep)
    else Only(s[1..], keep)
  }

  lemma {:induction false} WithoutMembers<T>(s: seq<T>, x: T)
    ensures forall y :: y in Without(s, x) <==> y in s && y != x
    ensures Distinct(s) ==> Distinct(Without(s, x))
  {
    if s != [] {
      WithoutMembers(s[1..], x);
      assert s == [s[0]] + s[1..];
      assert Distinct(s) ==> Distinct(s[1..]) && s[0] !in Without(s[1..], x);
    }
  }

  lemma {:induction false} OnlyMembers<T>(s: seq<T>, keep: set<T>)
    ensures forall y :: y in Only(s, keep) <==> y in s && y in keep
    ensures Distinct(s) ==> Distinct(Only(s, keep))
  {
    if s != [] {
      OnlyMembers(s[1..], keep);
      assert s == [s[0]] + s[1..];
      assert Distinct(s) ==> Distinct(s[1..]) && s[0] !in Only(s[1..], keep);
    }
  }

  lemma {:induction false} OnlySnoc<T>(s: seq<T>, keep: set<T>, k: nat)
    requires k < |s|
    ensures Only(s[..k + 1], keep) == Only(s[..k], keep) + (if s[k] in keep then [s[k]] else [])
  {
    if k == 0 {
      assert s[..0] == [] && s[..1][1..] == [];
    } else {
      OnlySnoc(s[1..], keep, k - 1);
      assert s[..k + 1][1..] == s[1..][..k] && s[..k][1..] == s[1..][..k - 1];
    }
  }

  /** A dictionary that remembers insertion order. */
  datatype Dict<K(==,!new), V> = Dict(keys: seq<K>, at: map<K, V>) {

    ghost predicate Ok() {
      Distinct(keys) && forall k :: k in keys <==> k in at
    }

    /** Assigning an existing key keeps its place. */
    function Put(k: K, v: V): Dict<K, V> {
      Dict(if k in at then keys else keys + [k], at[k := v])
    }

    function Drop(k: K): Dict<K, V> {
      Dict(Without(keys, k), at - {k})
    }

    function Keep(s: set<K>): Dict<K, V> {
      Dict(Only(keys, s), map k | k in at && k in s :: at[k])
    }

    lemma PutOk(k: K, v: V)
      requires Ok()
      ensures Put(k, v).Ok()
    {
    }

    lemma DropOk(k: K)
      requires Ok()
      ensures Drop(k).Ok()
    {
      WithoutMembers(keys, k);
    }

    lemma KeepOk(s: set<K>)
      requires Ok()
      ensures Keep(s).Ok()
    {
      OnlyMembers(keys, s);
    }

    function Values(): seq<V> {
      ValuesOf(keys)
    }

    function ValuesOf(ks: seq<K>): seq<V> {
      if ks == [] then []
      else if ks[0] in at then [at[ks[0]]] + ValuesOf(ks[1..])
      else ValuesOf(ks[1..])
    }
  }

  function EmptyDict<K(!new), V>(): Dict<K, V> {
    Dict([], map[])
  }
}
