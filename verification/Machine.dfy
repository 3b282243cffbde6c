/** Addresses of the structures that the kernel links together. */
module Machine {

  /** A pointer; 0 is NULL. */
  type Ptr = nat

  type Addr = p: Ptr | p != 0 witness 4

  /** There is always an unused address. */
  lemma {:induction false} Unused(used: set<Addr>) returns (p: Addr)
    ensures forall x :: x in used ==> x < p
    decreases |used|
  {
    p := 1;
    if used != {} {
      var y :| y in used;
      var rest := used - {y};
      p := Unused(rest);
      if y >= p { p := y + 1; }
      forall x | x in used ensures x < p { assert x == y || x in rest; }
    }
  }
}
