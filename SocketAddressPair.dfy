// ov::SocketAddressPair: a local and a remote socket address, compared
// remote address first. The pair serves as a std::map key, so its `<` must be
// a strict weak order. How SocketAddress itself compares is not part of this
// model: the address type is a parameter, and its `==`, `<` and `>` are
// passed in as relations.

module SocketAddressPair {

  datatype Pair<A> = Pair(local: A, remote: A)

  /** `SetLocalAddress`: only the local address changes. */
  function SetLocal<A>(p: Pair<A>, address: A): (r: Pair<A>)
    ensures r.local == address && r.remote == p.remote
  {
    p.(local := address)
  }

  /** `SetRemoteAddress`: only the remote address changes. */
  function SetRemote<A>(p: Pair<A>, address: A): (r: Pair<A>)
    ensures r.remote == address && r.local == p.local
  {
    p.(remote := address)
  }

  /** `operator==`: both the remote and the local addresses are equal. */
  predicate Equal<A>(p: Pair<A>, q: Pair<A>, eq: (A, A) -> bool)
  {
    eq(p.remote, q.remote) && eq(p.local, q.local)
  }

  /** `operator!=`: the negation of `operator==`. */
  predicate NotEqual<A>(p: Pair<A>, q: Pair<A>, eq: (A, A) -> bool)
  {
    Equal(p, q, eq) == false
  }

  /** `operator<`: remote addresses first, local addresses only on a remote tie. */
  predicate Less<A>(p: Pair<A>, q: Pair<A>, eq: (A, A) -> bool, lt: (A, A) -> bool)
  {
    if lt(p.remote, q.remote) then true
    else if eq(p.remote, q.remote) then lt(p.local, q.local)
    else false
  }

  /** `operator>`: the same scheme with the address `>`. */
  predicate Greater<A>(p: Pair<A>, q: Pair<A>, eq: (A, A) -> bool, gt: (A, A) -> bool)
  {
    if gt(p.remote, q.remote) then true
    else if eq(p.remote, q.remote) then gt(p.local, q.local)
    else false
  }

  /**
   * What the pair's ordering needs of SocketAddress: `==` an equivalence,
   * exactly one of `<`, `==`, `>` between any two addresses, `a > b` iff
   * `b < a`, and `<` transitive.
   */
  ghost predicate StrictTotalOrder<A(!new)>(eq: (A, A) -> bool, lt: (A, A) -> bool, gt: (A, A) -> bool)
  {
    (forall a :: eq(a, a)) &&
    (forall a, b :: eq(a, b) ==> eq(b, a)) &&
    (forall a, b, c :: eq(a, b) && eq(b, c) ==> eq(a, c)) &&
    (forall a, b :: lt(a, b) ==> !eq(a, b) && !gt(a, b)) &&
    (forall a, b :: eq(a, b) ==> !gt(a, b)) &&
    (forall a, b :: lt(a, b) || eq(a, b) || gt(a, b)) &&
    (forall a, b :: gt(a, b) <==> lt(b, a)) &&
    (forall a, b, c :: lt(a, b) && lt(b, c) ==> lt(a, c)) &&
    (forall a, b, c :: lt(a, b) && eq(b, c) ==> lt(a, c)) &&
    (forall a, b, c :: eq(a, b) && lt(b, c) ==> lt(a, c))
  }

  /** Over such an address order, exactly one of `<`, `==`, `>` holds between two pairs. */
  lemma Trichotomy<A(!new)>(p: Pair<A>, q: Pair<A>, eq: (A, A) -> bool, lt: (A, A) -> bool, gt: (A, A) -> bool)
    requires StrictTotalOrder(eq, lt, gt)
    ensures Less(p, q, eq, lt) || Equal(p, q, eq) || Greater(p, q, eq, gt)
    ensures !(Less(p, q, eq, lt) && Equal(p, q, eq))
    ensures !(Less(p, q, eq, lt) && Greater(p, q, eq, gt))
    ensures !(Equal(p, q, eq) && Greater(p, q, eq, gt))
  {
    assert lt(p.remote, q.remote) || eq(p.remote, q.remote) || gt(p.remote, q.remote);
    assert lt(p.local, q.local) || eq(p.local, q.local) || gt(p.local, q.local);
  }

  /** `p < q` iff `q > p`. */
  lemma LessIsConverseGreater<A(!new)>(p: Pair<A>, q: Pair<A>, eq: (A, A) -> bool, lt: (A, A) -> bool, gt: (A, A) -> bool)
    requires StrictTotalOrder(eq, lt, gt)
    ensures Less(p, q, eq, lt) <==> Greater(q, p, eq, gt)
  {
    assert gt(q.remote, p.remote) <==> lt(p.remote, q.remote);
    assert gt(q.local, p.local) <==> lt(p.local, q.local);
    assert eq(q.remote, p.remote) <==> eq(p.remote, q.remote);
  }

  /** `<` on pairs is transitive, as a std::map key order must be. */
  lemma LessTransitive<A(!new)>(p: Pair<A>, q: Pair<A>, s: Pair<A>, eq: (A, A) -> bool, lt: (A, A) -> bool, gt: (A, A) -> bool)
    requires StrictTotalOrder(eq, lt, gt)
    requires Less(p, q, eq, lt) && Less(q, s, eq, lt)
    ensures Less(p, s, eq, lt)
  {
    if lt(p.remote, q.remote) {
      if lt(q.remote, s.remote) {
        assert lt(p.remote, s.remote);
      } else {
        assert eq(q.remote, s.remote);
        assert lt(p.remote, s.remote);
      }
    } else {
      assert eq(p.remote, q.remote) && lt(p.local, q.local);
      if lt(q.remote, s.remote) {
        assert lt(p.remote, s.remote);
      } else {
        assert eq(q.remote, s.remote) && lt(q.local, s.local);
        assert eq(p.remote, s.remote) && lt(p.local, s.local);
      }
    }
  }

  /** `<` on pairs is irreflexive. */
  lemma LessIrreflexive<A(!new)>(p: Pair<A>, eq: (A, A) -> bool, lt: (A, A) -> bool, gt: (A, A) -> bool)
    requires StrictTotalOrder(eq, lt, gt)
    ensures !Less(p, p, eq, lt)
  {
    assert eq(p.remote, p.remote) && eq(p.local, p.local);
  }

  /** With the identity as the address `==`, pair `==` is structural equality. */
  lemma EqualIsIdentity<A>(p: Pair<A>, q: Pair<A>, eq: (A, A) -> bool)
    requires forall a, b :: eq(a, b) <==> a == b
    ensures Equal(p, q, eq) <==> p == q
    ensures NotEqual(p, q, eq) <==> p != q
  {
  }

  /** A setter changes what the pair compares equal to only through its own address. */
  lemma SetLocalEqual<A>(p: Pair<A>, q: Pair<A>, address: A, eq: (A, A) -> bool)
    ensures Equal(SetLocal(p, address), q, eq) <==> eq(p.remote, q.remote) && eq(address, q.local)
  {
  }
}
