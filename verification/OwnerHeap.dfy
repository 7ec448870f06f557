/**
 The registry as its clients see it: the set of live block addresses.  The allocator's choice of
 address is left open (any address that is not live), its choice to fail is the argument `ok`.
 */
module OwnerHeap {
  import opened Addresses

  lemma {:induction false} FreshAddress(live: set<Addr>, b: Addr, above: set<Addr>) returns (a: Addr)
    requires above == set x | x in live && x >= b
    ensures a >= b && a !in live
    decreases above
  {
    if b !in live { return b; }
    a := FreshAddress(live, b + 1, above - {b});
  }

  class Heap {
    var live: set<Addr>
    ghost var freed: seq<Addr>

    constructor ()
      ensures live == {} && freed == []
    {
      live, freed := {}, [];
    }

    method Malloc(ok: bool) returns (b: Addr)
      modifies this
      ensures b != NULL <==> ok
      ensures ok ==> b !in old(live) && live == old(live) + {b}
      ensures !ok ==> live == old(live)
      ensures freed == old(freed)
    {
      if !ok { return NULL; }
      ghost var a := FreshAddress(live, 1, set x | x in live && x >= 1);
      b :| b != NULL && b !in live;
      live := live + {b};
    }

    method Free(b: Addr)
      requires b in live
      modifies this
      ensures live == old(live) - {b} && freed == old(freed) + [b]
    {
      live := live - {b};
      freed := freed + [b];
    }

    /** A successful resize may keep the address or move to another one that is not live. */
    method Realloc(b: Addr, ok: bool) returns (b': Addr)
      requires b == NULL || b in live
      modifies this
      ensures b' != NULL <==> ok
      ensures ok ==> b' !in old(live) - {b} && live == old(live) - {b} + {b'}
      ensures !ok ==> live == old(live)
      ensures freed == old(freed)
    {
      if !ok { return NULL; }
      live := live - {b};
      b' := Malloc(true);
    }
  }
}
