/** The ownership state of one block and what each operation makes of it, under its shard lock. */
module Ownership {
  type Tid = int

  datatype OwnState = Owned | Borrowed | Shared | Freed

  /** `id` numbers the allocations; a block that is resized keeps its number. */
  datatype Meta = Meta(id: int, size: nat, state: OwnState, borrows: nat, owner: Tid)

  datatype Violation = DoubleFree | FreeingBorrowed | ForeignThread | UseAfterFree | ReleaseWithoutBorrow

  /** A fatal report ends the program. */
  datatype Verdict = Ok(meta: Meta) | Fatal(why: Violation)

  predicate Foreign(m: Meta, t: Tid) {
    m.state != Shared && m.owner != t
  }

  function Fresh(id: int, size: nat, t: Tid): Meta {
    Meta(id, size, Owned, 0, t)
  }

  function Free(m: Meta, t: Tid): Verdict {
    if m.state == Freed then Fatal(DoubleFree)
    else if m.borrows > 0 then Fatal(FreeingBorrowed)
    else if Foreign(m, t) then Fatal(ForeignThread)
    else Ok(m.(state := Freed))
  }

  /** Claiming does not look at the state: it is for live blocks only. */
  function Claim(m: Meta, t: Tid): Meta {
    m.(owner := t, state := Owned)
  }

  function Borrow(m: Meta, t: Tid): Verdict {
    if m.state == Freed then Fatal(UseAfterFree)
    else if Foreign(m, t) then Fatal(ForeignThread)
    else Ok(m.(borrows := m.borrows + 1, state := if m.state != Shared then Borrowed else Shared))
  }

  function Release(m: Meta): Verdict {
    if m.borrows > 0 then
      Ok(m.(borrows := m.borrows - 1, state := if m.borrows == 1 && m.state == Borrowed then Owned else m.state))
    else Fatal(ReleaseWithoutBorrow)
  }

  /** Sharing does not look at the state either, only at the owner. */
  function Share(m: Meta, t: Tid): Verdict {
    if m.owner != t then Fatal(ForeignThread) else Ok(m.(state := Shared))
  }

  function Realloc(m: Meta, t: Tid): Verdict {
    if m.state == Freed then Fatal(UseAfterFree)
    else if Foreign(m, t) then Fatal(ForeignThread)
    else Ok(m)
  }

  // ----- What holds of a block's state at all times -----

  /** Freed blocks have no borrows, borrowed ones at least one. */
  predicate Coherent(m: Meta) {
    (m.state == Freed ==> m.borrows == 0) && (m.state == Borrowed ==> m.borrows > 0)
  }

  /** A live block is BORROWED exactly when it has a borrow and is not SHARED. */
  predicate Faithful(m: Meta) {
    m.state != Freed ==> (m.state == Borrowed <==> m.state != Shared && m.borrows > 0)
  }

  /** No operation on a live block breaks coherence. */
  lemma KeepsCoherent(m: Meta, t: Tid)
    requires Coherent(m) && m.state != Freed
    ensures Free(m, t).Ok? ==> Coherent(Free(m, t).meta)
    ensures Coherent(Claim(m, t))
    ensures Borrow(m, t).Ok? ==> Coherent(Borrow(m, t).meta)
    ensures Release(m).Ok? ==> Coherent(Release(m).meta)
    ensures Share(m, t).Ok? ==> Coherent(Share(m, t).meta)
  {
  }

  /** The state tells the borrows through every operation; through a claim exactly without borrows. */
  lemma KeepsFaithful(m: Meta, t: Tid)
    requires Coherent(m) && Faithful(m) && m.state != Freed
    ensures Faithful(Claim(m, t)) <==> m.borrows == 0
    ensures Borrow(m, t).Ok? ==> Faithful(Borrow(m, t).meta)
    ensures Release(m).Ok? ==> Faithful(Release(m).meta)
    ensures Share(m, t).Ok? ==> Faithful(Share(m, t).meta)
  {
  }

  /** Whatever a client tries on a freed block, other than claiming or sharing it, is fatal. */
  lemma FreedIsFatal(m: Meta, t: Tid)
    requires Coherent(m) && m.state == Freed
    ensures Free(m, t) == Fatal(DoubleFree)
    ensures Borrow(m, t) == Fatal(UseAfterFree) && Realloc(m, t) == Fatal(UseAfterFree)
    ensures Release(m) == Fatal(ReleaseWithoutBorrow)
  {
  }
}
