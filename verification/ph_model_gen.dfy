/** The lookup the polyhedral-model generator uses to turn an array variable into the
    position of its dimension in an isl space. */
module PhModelGen {

  /** `space_map::index_of`: the position of the first occurrence of `v` among the
      space's variables, or -1 when it does not occur. Variables are compared by
      identity, which is equality here. */
  method IndexOf<T(==)>(vars: seq<T>, v: T) returns (i: int)
    ensures -1 <= i < |vars|
    ensures i == -1 <==> v !in vars
    ensures 0 <= i ==> vars[i] == v && v !in vars[..i]
  {
    var k := 0;
    while k < |vars|
      invariant 0 <= k <= |vars|
      invariant v !in vars[..k]
    {
      if vars[k] == v {
        return k;
      }
      assert vars[..k + 1] == vars[..k] + [vars[k]];
      k := k + 1;
    }
    assert vars[..k] == vars;
    return -1;
  }
}
