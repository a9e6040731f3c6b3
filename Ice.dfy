// The ICE session of the WebRTC stack: candidate pairs keyed by their socket
// address pair, each tracking which STUN binding messages it has seen, and a
// session-wide connection state that the controlling peer's USE-CANDIDATE
// (section 7.1.2 of RFC 8445) moves to Connected. Locks are left out: every
// method runs to completion on its own. Clocks are passed in as milliseconds.

module Ice {
  import opened SocketAddressPair

  /** `IceConnectionState`. */
  datatype State = New | Checking | Connected | Completed | Failed | Disconnecting | Disconnected | Closed | Max

  /** `IceConnectionStateToString`. */
  function StateName(s: State): string
  {
    match s
    case New => "New"
    case Checking => "Checking"
    case Connected => "Connected"
    case Completed => "Completed"
    case Failed => "Failed"
    case Disconnecting => "Disconnecting"
    case Disconnected => "Disconnected"
    case Closed => "Closed"
    case Max => "Unknown"
  }

  /** Every real state has its own name, and none is called "Unknown". */
  lemma StateNamesDistinct(s: State, t: State)
    requires s != Max && t != Max
    ensures StateName(s) != "Unknown"
    ensures StateName(s) == StateName(t) ==> s == t
  {
  }

  /** What a candidate pair records: its state and the binding messages it has seen. */
  datatype PairStatus = PairStatus(state: State, bindingRequest: bool, bindingResponse: bool)

  /** A pair as the constructor leaves it. */
  const FreshStatus := PairStatus(New, false, false)

  /**
   * A binding request (or response) reaching a pair: the matching flag is
   * set, and a pair still in New moves to Checking.
   */
  function Bind(ps: PairStatus, isRequest: bool): (r: PairStatus)
    ensures isRequest ==> r.bindingRequest && r.bindingResponse == ps.bindingResponse
    ensures !isRequest ==> r.bindingResponse && r.bindingRequest == ps.bindingRequest
    ensures r.state == if ps.state == New then Checking else ps.state
  {
    var flagged := if isRequest then ps.(bindingRequest := true) else ps.(bindingResponse := true);
    if ps.state == New then flagged.(state := Checking) else flagged
  }

  /** `IsConnectable()`: both a binding request and a binding response arrived. */
  predicate Connectable(ps: PairStatus)
  {
    ps.bindingRequest && ps.bindingResponse
  }

  /** Binding flags only go from false to true, so a connectable pair stays connectable. */
  lemma BindMonotone(ps: PairStatus, isRequest: bool)
    ensures ps.bindingRequest ==> Bind(ps, isRequest).bindingRequest
    ensures ps.bindingResponse ==> Bind(ps, isRequest).bindingResponse
    ensures Connectable(ps) ==> Connectable(Bind(ps, isRequest))
  {
  }

  /** A fresh pair becomes connectable after a request and a response, in either order. */
  lemma {:induction false} ConnectableAfterBoth(msgs: seq<bool>)
    requires true in msgs && false in msgs
    ensures Connectable(BindAll(FreshStatus, msgs))
  {
    BindAllFlags(FreshStatus, msgs);
  }

  /** A pair after a series of binding messages (true for a request, false for a response). */
  function BindAll(ps: PairStatus, msgs: seq<bool>): PairStatus
    decreases |msgs|
  {
    if msgs == [] then ps else BindAll(Bind(ps, msgs[0]), msgs[1..])
  }

  lemma {:induction false} BindAllFlags(ps: PairStatus, msgs: seq<bool>)
    ensures BindAll(ps, msgs).bindingRequest <==> ps.bindingRequest || true in msgs
    ensures BindAll(ps, msgs).bindingResponse <==> ps.bindingResponse || false in msgs
    ensures BindAll(ps, msgs).state == if ps.state == New && msgs != [] then Checking else ps.state
    decreases |msgs|
  {
    if msgs != [] {
      BindAllFlags(Bind(ps, msgs[0]), msgs[1..]);
      assert msgs == [msgs[0]] + msgs[1..];
    }
  }

  /** The session state after a binding message reaches a pair that was in `pairBefore`. */
  function SessionAfterBind(session: State, pairBefore: State): (r: State)
    ensures r == Checking || r == session
    ensures r != session <==> pairBefore == New && session == New
  {
    if pairBefore == New && session == New then Checking else session
  }

  /** `IceCandidatePair`: the socket and address pair are fixed when it is created. */
  class CandidatePair<A> {
    const addressPair: Pair<A>
    const socket: nat
    var state: State
    var bindingRequest: bool
    var bindingResponse: bool

    function Status(): PairStatus
      reads this
    {
      PairStatus(state, bindingRequest, bindingResponse)
    }

    constructor(addressPair: Pair<A>, socket: nat)
      ensures this.addressPair == addressPair && this.socket == socket
      ensures Status() == FreshStatus
    {
      this.addressPair := addressPair;
      this.socket := socket;
      state := New;
      bindingRequest := false;
      bindingResponse := false;
    }

    /** `SetState`: only the state changes. */
    method SetState(s: State)
      modifies this
      ensures Status() == old(Status()).(state := s)
    {
      state := s;
    }

    method OnReceivedBindingRequest()
      modifies this
      ensures Status() == old(Status()).(bindingRequest := true)
    {
      bindingRequest := true;
    }

    method OnReceivedBindingResponse()
      modifies this
      ensures Status() == old(Status()).(bindingResponse := true)
    {
      bindingResponse := true;
    }

    predicate IsConnectable()
      reads this
    {
      Connectable(Status())
    }
  }

  /** `IceSession`. The connected pair is null until USE-CANDIDATE succeeds. */
  class Session<A(==)> {
    var state: State
    var candidatePairs: map<Pair<A>, CandidatePair<A>>
    var connectedPair: CandidatePair?<A>
    const expireAfterMs: int
    const lifetimeEpochMs: nat
    var expireTime: int

    /** Each pair is filed under its own address pair, so there is at most one pair per address pair. */
    predicate Valid()
      reads this
    {
      forall k :: k in candidatePairs ==> candidatePairs[k].addressPair == k
    }

    constructor(expireAfterMs: int, lifetimeEpochMs: nat, now: int)
      ensures Valid()
      ensures state == New && candidatePairs == map[] && connectedPair == null
      ensures this.expireAfterMs == expireAfterMs && this.lifetimeEpochMs == lifetimeEpochMs
      ensures expireTime == now + expireAfterMs
    {
      this.expireAfterMs := expireAfterMs;
      this.lifetimeEpochMs := lifetimeEpochMs;
      state := New;
      candidatePairs := map[];
      connectedPair := null;
      expireTime := now + expireAfterMs;
    }

    /** `Refresh()`: the session now expires expireAfterMs after now. */
    method Refresh(now: int)
      modifies this
      ensures expireTime == now + expireAfterMs
      ensures state == old(state) && candidatePairs == old(candidatePairs) && connectedPair == old(connectedPair)
    {
      expireTime := now + expireAfterMs;
    }

    /** `IsExpired()`: past a non-zero lifetime epoch, or past the last refresh plus expireAfterMs. */
    predicate IsExpired(now: int)
      reads this
    {
      Expired(lifetimeEpochMs, expireTime, now)
    }

    method SetState(s: State)
      modifies this
      ensures state == s
      ensures candidatePairs == old(candidatePairs) && connectedPair == old(connectedPair) && expireTime == old(expireTime)
    {
      state := s;
    }

    /** `FindCandidatePair`: the pair filed under the address pair, or null. */
    function FindCandidatePair(ap: Pair<A>): (r: CandidatePair?<A>)
      reads this
      ensures r == null <==> ap !in candidatePairs
      ensures r != null ==> r == candidatePairs[ap]
    {
      if ap in candidatePairs then candidatePairs[ap] else null
    }

    /** The pair filed under ap; a new pair in New is created and filed when there is none. */
    method FindOrCreate(ap: Pair<A>, socket: nat) returns (pair: CandidatePair<A>)
      requires Valid()
      modifies this
      ensures Valid()
      ensures candidatePairs == old(candidatePairs)[ap := pair]
      ensures ap in old(candidatePairs) ==> pair == old(candidatePairs[ap])
      ensures ap !in old(candidatePairs) ==> fresh(pair) && pair.Status() == FreshStatus
      ensures state == old(state) && connectedPair == old(connectedPair) && expireTime == old(expireTime)
    {
      var found := FindCandidatePair(ap);
      if found == null {
        pair := new CandidatePair(ap, socket);
        candidatePairs := candidatePairs[ap := pair];
      } else {
        pair := found;
      }
    }

    /** The shared body of the binding request and response handlers. */
    method OnBinding(ap: Pair<A>, socket: nat, isRequest: bool)
      requires Valid()
      modifies this, candidatePairs.Values
      ensures Valid()
      ensures candidatePairs.Keys == old(candidatePairs.Keys) + {ap}
      ensures forall k :: k in old(candidatePairs) ==> candidatePairs[k] == old(candidatePairs[k])
      ensures forall k :: k in old(candidatePairs) && k != ap ==> candidatePairs[k].Status() == old(candidatePairs[k].Status())
      ensures candidatePairs[ap].Status() == Bind(if ap in old(candidatePairs) then old(candidatePairs[ap].Status()) else FreshStatus, isRequest)
      ensures state == SessionAfterBind(old(state), if ap in old(candidatePairs) then old(candidatePairs[ap].state) else New)
      ensures connectedPair == old(connectedPair) && expireTime == old(expireTime)
    {
      var pair := FindOrCreate(ap, socket);
      if isRequest {
        pair.OnReceivedBindingRequest();
      } else {
        pair.OnReceivedBindingResponse();
      }
      if pair.state == New {
        pair.SetState(Checking);
        if state == New {
          state := Checking;
        }
      }
    }

    /** `OnReceivedStunBindingRequest`. */
    method OnReceivedStunBindingRequest(ap: Pair<A>, socket: nat)
      requires Valid()
      modifies this, candidatePairs.Values
      ensures Valid()
      ensures candidatePairs.Keys == old(candidatePairs.Keys) + {ap}
      ensures forall k :: k in old(candidatePairs) ==> candidatePairs[k] == old(candidatePairs[k])
      ensures forall k :: k in old(candidatePairs) && k != ap ==> candidatePairs[k].Status() == old(candidatePairs[k].Status())
      ensures candidatePairs[ap].Status() == Bind(if ap in old(candidatePairs) then old(candidatePairs[ap].Status()) else FreshStatus, true)
      ensures state == SessionAfterBind(old(state), if ap in old(candidatePairs) then old(candidatePairs[ap].state) else New)
      ensures connectedPair == old(connectedPair) && expireTime == old(expireTime)
    {
      OnBinding(ap, socket, true);
    }

    /** `OnReceivedStunBindingResponse`. */
    method OnReceivedStunBindingResponse(ap: Pair<A>, socket: nat)
      requires Valid()
      modifies this, candidatePairs.Values
      ensures Valid()
      ensures candidatePairs.Keys == old(candidatePairs.Keys) + {ap}
      ensures forall k :: k in old(candidatePairs) ==> candidatePairs[k] == old(candidatePairs[k])
      ensures forall k :: k in old(candidatePairs) && k != ap ==> candidatePairs[k].Status() == old(candidatePairs[k].Status())
      ensures candidatePairs[ap].Status() == Bind(if ap in old(candidatePairs) then old(candidatePairs[ap].Status()) else FreshStatus, false)
      ensures state == SessionAfterBind(old(state), if ap in old(candidatePairs) then old(candidatePairs[ap].state) else New)
      ensures connectedPair == old(connectedPair) && expireTime == old(expireTime)
    {
      OnBinding(ap, socket, false);
    }

    /** `OnReceivedStunBindingErrorResponse`: a known pair fails; an unknown one is ignored. */
    method OnReceivedStunBindingErrorResponse(ap: Pair<A>)
      requires Valid()
      modifies candidatePairs.Values
      ensures Valid()
      ensures forall k :: k in candidatePairs && k != ap ==> candidatePairs[k].Status() == old(candidatePairs[k].Status())
      ensures ap in candidatePairs ==> candidatePairs[ap].Status() == old(candidatePairs[ap].Status()).(state := Failed)
    {
      var pair := FindCandidatePair(ap);
      if pair == null {
        return;
      }
      pair.SetState(Failed);
    }

    /** `IsConnectable(address_pair)`: false for an unknown pair. */
    predicate IsConnectable(ap: Pair<A>)
      reads this, candidatePairs.Values
    {
      ap in candidatePairs && candidatePairs[ap].IsConnectable()
    }

    /** `IsConnected(address_pair)`: the connected pair has exactly this address pair. */
    predicate IsConnected(ap: Pair<A>)
      reads this
    {
      connectedPair != null && connectedPair.addressPair == ap
    }

    /** `UseCandidate`: only a session in Checking with a known pair can nominate it. */
    method UseCandidate(ap: Pair<A>) returns (ok: bool)
      requires Valid()
      modifies this, candidatePairs.Values
      ensures Valid()
      ensures ok <==> old(state) == Checking && ap in old(candidatePairs)
      ensures candidatePairs == old(candidatePairs) && expireTime == old(expireTime)
      ensures !ok ==> state == old(state) && connectedPair == old(connectedPair)
      ensures forall k :: k in candidatePairs && (k != ap || !ok) ==> candidatePairs[k].Status() == old(candidatePairs[k].Status())
      ensures ok ==> state == Connected && connectedPair == candidatePairs[ap] && IsConnected(ap)
      ensures ok ==> candidatePairs[ap].Status() == old(candidatePairs[ap].Status()).(state := Connected)
    {
      if state != Checking {
        return false;
      }
      var pair := FindCandidatePair(ap);
      if pair == null {
        return false;
      }
      pair.SetState(Connected);
      connectedPair := pair;
      state := Connected;
      return true;
    }
  }

  /** A session refreshed at `now` with a non-negative timeout and no lifetime cap passed is not expired at now. */
  lemma RefreshedNotExpired(lifetimeEpochMs: nat, expireAfterMs: int, now: int)
    requires expireAfterMs >= 0 && (lifetimeEpochMs == 0 || now <= lifetimeEpochMs)
    ensures !Expired(lifetimeEpochMs, now + expireAfterMs, now)
  {
  }

  /** `IsExpired` on the session's constants and expiry time. */
  predicate Expired(lifetimeEpochMs: nat, expireTime: int, now: int)
  {
    (lifetimeEpochMs != 0 && lifetimeEpochMs < now) || now > expireTime
  }

  /** Once expired, a session stays expired as time goes on (without a refresh). */
  lemma ExpiredStaysExpired(lifetimeEpochMs: nat, expireTime: int, now: int, later: int)
    requires now <= later && Expired(lifetimeEpochMs, expireTime, now)
    ensures Expired(lifetimeEpochMs, expireTime, later)
  {
  }
}
