/** The role commands of TIP-121c, and the access control they drive. */
module MinterBurn {
  import opened Wrappers

  type Address = nat

  /** Role identifiers; they are hashes, taken to be distinct. An unset admin is the default role. */
  datatype Role = Default | Govern | Guardian | Minter | Burner | PcvController | Temporary | Other(id: nat)

  datatype Roles = Roles(members: map<Role, set<Address>>, admins: map<Role, Role>)

  function MembersOf(s: Roles, role: Role): set<Address> {
    if role in s.members then s.members[role] else {}
  }

  predicate Has(s: Roles, role: Role, who: Address) {
    who in MembersOf(s, role)
  }

  function AdminOf(s: Roles, role: Role): Role {
    if role in s.admins then s.admins[role] else Default
  }

  function Added(s: Roles, role: Role, who: Address): Roles {
    s.(members := s.members[role := MembersOf(s, role) + {who}])
  }

  function Removed(s: Roles, role: Role, who: Address): Roles {
    s.(members := s.members[role := MembersOf(s, role) - {who}])
  }

  // ----- the calls -----

  /** Calls that can change roles. The named grants and revokes exist for five roles. */
  datatype Call =
    | CreateRole(role: Role, admin: Role)
    | GrantRole(role: Role, who: Address)
    | RevokeRole(role: Role, who: Address)
    | RenounceRole(role: Role, who: Address)
    | GrantNamed(role: Role, who: Address)
    | RevokeNamed(role: Role, who: Address)
    | RevokeOverride(role: Role, who: Address)

  predicate Named(role: Role) {
    role in {Govern, Guardian, Minter, Burner, PcvController}
  }

  /** Who may make a call; `core` is the contract itself, which calls itself to revoke by override. */
  predicate Allowed(s: Roles, core: Address, caller: Address, call: Call) {
    match call
    case CreateRole(_, _) => Has(s, Govern, caller)
    case GrantRole(role, _) => Has(s, AdminOf(s, role), caller)
    case RevokeRole(role, _) => Has(s, AdminOf(s, role), caller)
    case RenounceRole(_, who) => who == caller
    case GrantNamed(role, _) => Named(role) && Has(s, Govern, caller) && Has(s, AdminOf(s, role), caller)
    case RevokeNamed(role, _) => Named(role) && Has(s, Govern, caller) && Has(s, AdminOf(s, role), caller)
    case RevokeOverride(role, _) => Has(s, Guardian, caller) && role != Govern && Has(s, AdminOf(s, role), core)
  }

  function Effect(s: Roles, call: Call): Roles {
    match call
    case CreateRole(role, admin) => s.(admins := s.admins[role := admin])
    case GrantRole(role, who) => Added(s, role, who)
    case GrantNamed(role, who) => Added(s, role, who)
    case RevokeRole(role, who) => Removed(s, role, who)
    case RenounceRole(role, who) => Removed(s, role, who)
    case RevokeNamed(role, who) => Removed(s, role, who)
    case RevokeOverride(role, who) => Removed(s, role, who)
  }

  /** A call that is not allowed reverts. */
  function Called(s: Roles, core: Address, caller: Address, call: Call): Option<Roles> {
    if Allowed(s, core, caller, call) then Some(Effect(s, call)) else None
  }

  /** A proposal: its calls in order, all of them or none. */
  function Executed(s: Roles, core: Address, caller: Address, calls: seq<Call>): Option<Roles>
    decreases calls
  {
    if calls == [] then Some(s)
    else match Called(s, core, caller, calls[0])
      case None => None
      case Some(next) => Executed(next, core, caller, calls[1..])
  }

  // ----- who can do what -----

  ghost predicate Achieves(s: Roles, core: Address, caller: Address, call: Call, role: Role, who: Address) {
    Called(s, core, caller, call).Some? && Has(Called(s, core, caller, call).value, role, who)
  }

  ghost predicate Undoes(s: Roles, core: Address, caller: Address, call: Call, role: Role, who: Address) {
    Called(s, core, caller, call).Some? && !Has(Called(s, core, caller, call).value, role, who)
  }

  ghost predicate Reassigns(s: Roles, core: Address, caller: Address, call: Call, role: Role, admin: Role) {
    Called(s, core, caller, call).Some? && AdminOf(Called(s, core, caller, call).value, role) == admin
  }

  /** Some call makes an address a member of a role if and only if the caller administers the role. */
  lemma WhoCanAddIff(s: Roles, core: Address, caller: Address, role: Role, who: Address)
    requires !Has(s, role, who)
    ensures (exists call :: Achieves(s, core, caller, call, role, who)) <==> Has(s, AdminOf(s, role), caller)
  {
    if Has(s, AdminOf(s, role), caller) {
      assert Achieves(s, core, caller, GrantRole(role, who), role, who);
    }
  }

  /** Some call removes a member if and only if the caller administers the role, is that member, or is a
      guardian and the role, which is not the governors', is administered by the contract itself. */
  lemma WhoCanRemoveIff(s: Roles, core: Address, caller: Address, role: Role, who: Address)
    requires Has(s, role, who)
    ensures (exists call :: Undoes(s, core, caller, call, role, who)) <==>
              || Has(s, AdminOf(s, role), caller) || who == caller
              || (Has(s, Guardian, caller) && role != Govern && Has(s, AdminOf(s, role), core))
  {
    if Has(s, AdminOf(s, role), caller) {
      assert Undoes(s, core, caller, RevokeRole(role, who), role, who);
    }
    if who == caller {
      assert Undoes(s, core, caller, RenounceRole(role, who), role, who);
    }
    if Has(s, Guardian, caller) && role != Govern && Has(s, AdminOf(s, role), core) {
      assert Undoes(s, core, caller, RevokeOverride(role, who), role, who);
    }
  }

  /** Some call gives a role another admin if and only if the caller is a governor. */
  lemma WhoCanReassignIff(s: Roles, core: Address, caller: Address, role: Role, admin: Role)
    requires AdminOf(s, role) != admin
    ensures (exists call :: Reassigns(s, core, caller, call, role, admin)) <==> Has(s, Govern, caller)
  {
    if Has(s, Govern, caller) {
      assert Reassigns(s, core, caller, CreateRole(role, admin), role, admin);
    }
  }

  /** The grants and revokes by name do what the general ones do, for five roles and governors only. */
  lemma NamedCallsAreGovernors(s: Roles, core: Address, caller: Address, role: Role, who: Address)
    ensures var five := {Govern, Guardian, Minter, Burner, PcvController};
            && Called(s, core, caller, GrantNamed(role, who))
               == (if role in five && Has(s, Govern, caller) then Called(s, core, caller, GrantRole(role, who))
                   else None)
            && Called(s, core, caller, RevokeNamed(role, who))
               == (if role in five && Has(s, Govern, caller) then Called(s, core, caller, RevokeRole(role, who))
                   else None)
  {
  }

  /** No call touches more than one membership or one admin. */
  lemma CallsChangeOneThing(s: Roles, call: Call)
    ensures var r := Effect(s, call);
            && (forall role | role != call.role ::
                  MembersOf(r, role) == MembersOf(s, role) && AdminOf(r, role) == AdminOf(s, role))
            && (if call.CreateRole? then MembersOf(r, call.role) == MembersOf(s, call.role)
                else AdminOf(r, call.role) == AdminOf(s, call.role)
                     && forall who | who != call.who :: Has(r, call.role, who) <==> Has(s, call.role, who))
  {
  }

  // ----- the contract -----

  class Core {
    const self: Address
    var members: map<Role, set<Address>>
    var admins: map<Role, Role>

    function Now(): Roles
      reads this
    {
      Roles(members, admins)
    }

    predicate HasRole(role: Role, who: Address)
      reads this
    {
      Has(Now(), role, who)
    }

    method Insert(role: Role, who: Address)
      modifies `members
      ensures MembersOf(Now(), role) == old(MembersOf(Now(), role)) + {who}
      ensures forall r | r != role :: MembersOf(Now(), r) == old(MembersOf(Now(), r))
    {
      if !HasRole(role, who) {
        members := Added(Now(), role, who).members;
      }
    }

    method Erase(role: Role, who: Address)
      modifies `members
      ensures MembersOf(Now(), role) == old(MembersOf(Now(), role)) - {who}
      ensures forall r | r != role :: MembersOf(Now(), r) == old(MembersOf(Now(), r))
    {
      if HasRole(role, who) {
        members := Removed(Now(), role, who).members;
      }
    }

    /** One external call. */
    method Handle(caller: Address, call: Call) returns (ok: bool)
      modifies this
      ensures ok == Called(old(Now()), self, caller, call).Some?
      ensures SameRoles(Now(), if ok then Effect(old(Now()), call) else old(Now()))
    {
      ok := Allowed(Now(), self, caller, call);
      if ok {
        match call {
          case CreateRole(role, admin) => admins := admins[role := admin];
          case GrantRole(role, who) => Insert(role, who);
          case GrantNamed(role, who) => Insert(role, who);
          case RevokeRole(role, who) => Erase(role, who);
          case RenounceRole(role, who) => Erase(role, who);
          case RevokeNamed(role, who) => Erase(role, who);
          case RevokeOverride(role, who) => Erase(role, who);
        }
      }
    }
  }

  /** The same members and admins for every role, however the tables store them. */
  ghost predicate SameRoles(a: Roles, b: Roles) {
    forall r :: MembersOf(a, r) == MembersOf(b, r) && AdminOf(a, r) == AdminOf(b, r)
  }

  // ----- the proposal -----

  /** The addresses the role commands name. */
  datatype Book = Book(timelock: Address, oldPsm: Address, skimmer: Address, dripController: Address,
                       newPsm: Address, buyback: Address)

  /** Sections 1 and 2a: retire the old minters and controllers, appoint the new one. */
  function Handover(b: Book): seq<Call> {
    [RevokeNamed(Minter, b.oldPsm),
     RevokeNamed(PcvController, b.skimmer),
     RevokeNamed(PcvController, b.dripController),
     GrantNamed(Minter, b.newPsm),
     RevokeNamed(Minter, b.timelock),
     RevokeNamed(Minter, b.buyback)]
  }

  /** Section 2b: put the minter role under a role that nobody holds. */
  function Burn(b: Book): seq<Call> {
    [CreateRole(Temporary, Govern),
     GrantRole(Temporary, b.timelock),
     CreateRole(Temporary, Temporary),
     CreateRole(Minter, Temporary),
     RenounceRole(Temporary, b.timelock)]
  }

  lemma {:induction false} ExecutedInTwo(s: Roles, core: Address, caller: Address, a: seq<Call>, b: seq<Call>)
    ensures Executed(s, core, caller, a + b)
         == match Executed(s, core, caller, a) case None => None case Some(mid) => Executed(mid, core, caller, b)
    decreases a
  {
    if a == [] {
      assert a + b == b;
    } else {
      assert (a + b)[1..] == a[1..] + b;
      match Called(s, core, caller, a[0]) {
        case None =>
        case Some(next) => ExecutedInTwo(next, core, caller, a[1..], b);
      }
    }
  }

  lemma CallAt(s: Roles, core: Address, caller: Address, calls: seq<Call>, k: nat)
    requires k < |calls|
    ensures Executed(s, core, caller, calls[k..])
         == if Allowed(s, core, caller, calls[k]) then Executed(Effect(s, calls[k]), core, caller, calls[k + 1..])
             else None
  {
    assert calls[k..][1..] == calls[k + 1..];
  }

  lemma AtTheEnds(s: Roles, core: Address, caller: Address, calls: seq<Call>)
    ensures calls[0..] == calls && Executed(s, core, caller, calls[|calls|..]) == Some(s)
  {
  }

  /** The state the proposal starts from: governors administer the minter and controller roles. */
  predicate Governed(s: Roles) {
    AdminOf(s, Minter) == Govern && AdminOf(s, PcvController) == Govern && AdminOf(s, Govern) == Govern
  }

  /** The minter role is under a role without members that administers itself. */
  predicate Burned(s: Roles) {
    MembersOf(s, Temporary) == {} && AdminOf(s, Temporary) == Temporary && AdminOf(s, Minter) == Temporary
  }

  lemma HandoverRuns(s: Roles, core: Address, caller: Address, b: Book)
    requires Governed(s)
    ensures var r := Executed(s, core, caller, Handover(b));
            && (r.Some? <==> Has(s, Govern, caller))
            && (r.Some? ==>
                  && MembersOf(r.value, Minter)
                      == MembersOf(s, Minter) - {b.oldPsm} + {b.newPsm} - {b.timelock} - {b.buyback}
                  && MembersOf(r.value, PcvController) == MembersOf(s, PcvController) - {b.skimmer} - {b.dripController}
                  && r.value.admins == s.admins
                  && forall role | role != Minter && role != PcvController ::
                       MembersOf(r.value, role) == MembersOf(s, role))
  {
    var calls := Handover(b);
    if Has(s, Govern, caller) {
      var r := SixNamedCalls(s, core, caller, calls);
    } else {
      AtTheEnds(s, core, caller, calls);
      CallAt(s, core, caller, calls, 0);
    }
  }

  /** What a named grant or revoke by a governor does to the members of its role. */
  function Changed(members: set<Address>, call: Call): set<Address> {
    match call
    case GrantNamed(_, who) => members + {who}
    case RevokeNamed(_, who) => members - {who}
    case _ => members
  }

  lemma NamedCall(s: Roles, core: Address, caller: Address, calls: seq<Call>, k: nat) returns (next: Roles)
    requires Governed(s) && Has(s, Govern, caller) && k < |calls| && (calls[k].GrantNamed? || calls[k].RevokeNamed?)
    requires calls[k].role == Minter || calls[k].role == PcvController
    ensures Executed(s, core, caller, calls[k..]) == Executed(next, core, caller, calls[k + 1..])
    ensures Governed(next) && Has(next, Govern, caller) && next.admins == s.admins
    ensures MembersOf(next, calls[k].role) == Changed(MembersOf(s, calls[k].role), calls[k])
    ensures forall role | role != calls[k].role :: MembersOf(next, role) == MembersOf(s, role)
  {
    next := Effect(s, calls[k]);
    CallAt(s, core, caller, calls, k);
  }

  lemma SixNamedCalls(s: Roles, core: Address, caller: Address, calls: seq<Call>) returns (r: Roles)
    requires Governed(s) && Has(s, Govern, caller) && |calls| == 6
    requires calls[0].RevokeNamed? && calls[1].RevokeNamed? && calls[2].RevokeNamed?
    requires calls[3].GrantNamed? && calls[4].RevokeNamed? && calls[5].RevokeNamed?
    requires calls[0].role == calls[3].role == calls[4].role == calls[5].role == Minter
    requires calls[1].role == calls[2].role == PcvController
    ensures Executed(s, core, caller, calls) == Some(r) && r.admins == s.admins
    ensures MembersOf(r, Minter)
            == MembersOf(s, Minter) - {calls[0].who} + {calls[3].who} - {calls[4].who} - {calls[5].who}
    ensures MembersOf(r, PcvController) == MembersOf(s, PcvController) - {calls[1].who} - {calls[2].who}
    ensures forall role | role != Minter && role != PcvController :: MembersOf(r, role) == MembersOf(s, role)
  {
    hide Executed, Allowed, Effect, MembersOf, AdminOf, Governed, Has;
    AtTheEnds(s, core, caller, calls);
    r := NamedCall(s, core, caller, calls, 0);
    r := NamedCall(r, core, caller, calls, 1);
    r := NamedCall(r, core, caller, calls, 2);
    r := NamedCall(r, core, caller, calls, 3);
    r := NamedCall(r, core, caller, calls, 4);
    r := NamedCall(r, core, caller, calls, 5);
    AtTheEnds(r, core, caller, calls);
  }

  lemma BurnRuns(s: Roles, core: Address, caller: Address, b: Book)
    requires Has(s, Govern, caller)
    ensures var r := Executed(s, core, caller, Burn(b));
            && (r.Some? <==> caller == b.timelock)
            && (r.Some? ==>
                  && MembersOf(r.value, Temporary) == MembersOf(s, Temporary) - {b.timelock}
                  && AdminOf(r.value, Temporary) == Temporary && AdminOf(r.value, Minter) == Temporary
                  && forall role | role != Temporary ::
                       MembersOf(r.value, role) == MembersOf(s, role)
                           && (role != Minter ==> AdminOf(r.value, role) == AdminOf(s, role)))
  {
    var calls := Burn(b);
    hide Executed;
    AtTheEnds(s, core, caller, calls);
    CallAt(s, core, caller, calls, 0);
    var s1 := Effect(s, calls[0]);
    CallAt(s1, core, caller, calls, 1);
    var s2 := Effect(s1, calls[1]);
    CallAt(s2, core, caller, calls, 2);
    var s3 := Effect(s2, calls[2]);
    CallAt(s3, core, caller, calls, 3);
    var s4 := Effect(s3, calls[3]);
    CallAt(s4, core, caller, calls, 4);
    AtTheEnds(Effect(s4, calls[4]), core, caller, calls);
  }

  /** Every role command of the proposal is authorised at the moment it runs exactly when it is
      the timelock, a governor, that runs it; and then the minter role is burned. */
  lemma ProposalRuns(s: Roles, core: Address, caller: Address, b: Book)
    requires Governed(s) && MembersOf(s, Temporary) == {}
    ensures var r := Executed(s, core, caller, Handover(b) + Burn(b));
            && (r.Some? <==> Has(s, Govern, caller) && caller == b.timelock)
            && (r.Some? ==>
                  && Burned(r.value)
                  && MembersOf(r.value, Minter)
                      == MembersOf(s, Minter) - {b.oldPsm} + {b.newPsm} - {b.timelock} - {b.buyback}
                  && MembersOf(r.value, Govern) == MembersOf(s, Govern) && AdminOf(r.value, Govern) == Govern)
  {
    hide Executed;
    ExecutedInTwo(s, core, caller, Handover(b), Burn(b));
    HandoverRuns(s, core, caller, b);
    var mid := Executed(s, core, caller, Handover(b));
    if mid.Some? {
      BurnRuns(mid.value, core, caller, b);
    }
  }

  /** Making the temporary role its own admin before granting it would lock the proposal out. */
  lemma GrantBeforeSelfAdmin(s: Roles, core: Address, caller: Address, b: Book)
    requires MembersOf(s, Temporary) == {}
    ensures var burn := Burn(b);
            Executed(s, core, caller, [burn[0], burn[2], burn[1], burn[3], burn[4]]) == None
  {
    var burn := Burn(b);
    var calls := [burn[0], burn[2], burn[1], burn[3], burn[4]];
    hide Executed;
    AtTheEnds(s, core, caller, calls);
    CallAt(s, core, caller, calls, 0);
    var s1 := Effect(s, calls[0]);
    CallAt(s1, core, caller, calls, 1);
    CallAt(Effect(s1, calls[1]), core, caller, calls, 2);
  }

  // ----- afterwards -----

  /** A later transaction: who calls, and what; a reverted call changes nothing. */
  datatype Tx = Tx(caller: Address, call: Call)

  function After(s: Roles, core: Address, txs: seq<Tx>): Roles
    decreases txs
  {
    if txs == [] then s
    else
      var last := txs[|txs| - 1];
      var before := After(s, core, txs[..|txs| - 1]);
      match Called(before, core, last.caller, last.call) case None => before case Some(next) => next
  }

  predicate Reconfigures(call: Call) {
    call.CreateRole? && (call.role == Temporary || call.role == Minter)
  }

  /** As long as nobody re-creates one of the two roles, the minter role stays burned: no minter is
      ever added, and one leaves only by renouncing. */
  lemma {:induction false} BurnLasts(s: Roles, core: Address, txs: seq<Tx>)
    requires Burned(s) && forall k | 0 <= k < |txs| :: !Reconfigures(txs[k].call)
    ensures var r := After(s, core, txs);
            && Burned(r) && MembersOf(r, Minter) <= MembersOf(s, Minter)
            && forall who | who in MembersOf(s, Minter) && who !in MembersOf(r, Minter) ::
                 exists k :: 0 <= k < |txs| && txs[k] == Tx(who, RenounceRole(Minter, who))
  {
    if txs != [] {
      var n := |txs| - 1;
      BurnLasts(s, core, txs[..n]);
      var before, r := After(s, core, txs[..n]), After(s, core, txs);
      forall who | who in MembersOf(s, Minter) && who !in MembersOf(r, Minter)
        ensures exists k :: 0 <= k < |txs| && txs[k] == Tx(who, RenounceRole(Minter, who))
      {
        if who in MembersOf(before, Minter) {
          assert txs[n] == Tx(who, RenounceRole(Minter, who));
        } else {
          var k :| 0 <= k < n && txs[..n][k] == Tx(who, RenounceRole(Minter, who));
          assert txs[k] == txs[..n][k];
        }
      }
    }
  }

  /** Later callers are accounts and other contracts: the one call that the contract makes to
      itself is part of the override. */
  ghost predicate Outside(core: Address, txs: seq<Tx>) {
    forall k | 0 <= k < |txs| :: txs[k].caller != core
  }

  /** When only the contract itself is a governor, nobody can re-create a role or become a governor. */
  lemma {:induction false} NoOtherGovernorEver(s: Roles, core: Address, txs: seq<Tx>)
    requires Burned(s) && MembersOf(s, Govern) <= {core} && AdminOf(s, Govern) == Govern && Outside(core, txs)
    ensures var r := After(s, core, txs);
            && r.admins == s.admins && MembersOf(r, Govern) <= {core} && MembersOf(r, Temporary) == {}
            && MembersOf(r, Minter) <= MembersOf(s, Minter)
  {
    if txs != [] {
      NoOtherGovernorEver(s, core, txs[..|txs| - 1]);
    }
  }

  lemma {:induction false} Outsider(s: set<Address>) returns (n: Address)
    ensures forall x <- s :: x < n
    decreases s
  {
    if s == {} {
      n := 0;
    } else {
      var x :| x in s;
      var m := Outsider(s - {x});
      n := if m <= x then x + 1 else m;
      assert forall y <- s :: y == x || y in s - {x};
    }
  }

  lemma GovernorRestores(s: Roles, core: Address, g: Address, who: Address) returns (txs: seq<Tx>)
    requires Has(s, Govern, g) && g != core
    ensures Outside(core, txs) && who in MembersOf(After(s, core, txs), Minter)
  {
    var first, second := Tx(g, CreateRole(Minter, Govern)), Tx(g, GrantNamed(Minter, who));
    txs := [first, second];
    assert txs[..1] == [first] && [first][..0] == [];
    assert After(s, core, [first]) == Effect(s, first.call);
  }

  /** The burn is final, whatever anybody calls later, exactly when no governor is left but the
      contract itself, which its constructor made one. */
  lemma BurnIsFinalIff(s: Roles, core: Address)
    requires Burned(s) && AdminOf(s, Govern) == Govern
    ensures (forall txs | Outside(core, txs) :: MembersOf(After(s, core, txs), Minter) <= MembersOf(s, Minter))
       <==> MembersOf(s, Govern) <= {core}
  {
    if MembersOf(s, Govern) <= {core} {
      forall txs | Outside(core, txs) ensures MembersOf(After(s, core, txs), Minter) <= MembersOf(s, Minter) {
        NoOtherGovernorEver(s, core, txs);
      }
    } else {
      var g :| g in MembersOf(s, Govern) && g != core;
      var who := Outsider(MembersOf(s, Minter));
      var txs := GovernorRestores(s, core, g, who);
      assert who in MembersOf(After(s, core, txs), Minter) && who !in MembersOf(s, Minter);
    }
  }
}
