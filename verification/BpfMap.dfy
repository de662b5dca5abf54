/** The kernel services the probes rely on: 64-bit time stamps that wrap, and
    hash maps of bounded size whose update obeys an overwrite flag. */
module BpfMap {

  const TWO64: int := 0x1_0000_0000_0000_0000

  type u64 = x: int | 0 <= x < 0x1_0000_0000_0000_0000

  type u32 = x: int | 0 <= x < 0x1_0000_0000

  /** Unsigned subtraction of two 64-bit registers. */
  function Sub64(a: u64, b: u64): (r: u64)
    ensures b <= a ==> r == a - b
    ensures a < b ==> r == a - b + TWO64
  {
    if b <= a then a - b else a - b + TWO64
  }

  datatype Flag = Any | NoExist

  /** An update succeeds when the key is there and may be replaced, or when the
      key is new and the table still has room. */
  predicate Admits<K(==), V>(m: map<K, V>, cap: nat, flag: Flag, k: K) {
    if k in m then flag == Any else |m| < cap
  }

  function Update<K(==), V>(m: map<K, V>, cap: nat, flag: Flag, k: K, v: V): (r: map<K, V>)
    ensures |m| <= cap ==> |r| <= cap
    ensures |r| == |m| + (if k !in m && |m| < cap then 1 else 0)
  {
    if Admits(m, cap, flag, k) then
      assert m[k := v].Keys == m.Keys + {k};
      m[k := v]
    else
      m
  }

  function Delete<K(==), V>(m: map<K, V>, k: K): (r: map<K, V>)
    ensures k !in r && forall x :: x in m && x != k ==> x in r && r[x] == m[x]
    ensures forall x :: x in r ==> x in m
    ensures |r| == |m| - (if k in m then 1 else 0)
  {
    var r := m - {k};
    assert r.Keys == m.Keys - {k};
    r
  }

  lemma DeleteIs<K, V>(m: map<K, V>, k: K)
    ensures Delete(m, k) == m - {k}
  {}
}
