/** The browser's object-URL registry (`URL.createObjectURL` and
    `URL.revokeObjectURL`), reduced to the handles it has issued and the set of
    handles that are still live. */
module ObjectUrls {
  import opened Records

  class Registry {
    /** The next handle to issue; every handle issued so far is smaller. */
    var next: nat
    /** The handles issued and not yet revoked. */
    ghost var live: set<Handle>

    ghost predicate Valid()
      reads this
    {
      forall h :: h in live ==> h < next
    }

    constructor ()
      ensures Valid() && live == {} && next == 0
    {
      next := 0;
      live := {};
    }

    /** `createObjectURL`: a handle never issued before, now live. */
    method Create() returns (h: Handle)
      requires Valid()
      modifies this
      ensures Valid()
      ensures h == old(next) && next == old(next) + 1
      ensures h !in old(live) && live == old(live) + {h}
    {
      h := next;
      next := next + 1;
      live := live + {h};
    }

    /** `revokeObjectURL`: the handle is no longer live; revoking a handle that
        is not live changes nothing. */
    method Revoke(h: Handle)
      requires Valid()
      modifies this
      ensures Valid()
      ensures next == old(next) && live == old(live) - {h}
    {
      live := live - {h};
    }
  }
}
