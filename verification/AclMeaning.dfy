/**
 What the interpreters of access control lists compute, told without adding up: for whom each
 entry of any list is, which rights a class of users is granted and denied, and so which of the
 twelve bits the mode has.
 */
module AclMeaning {
  import opened Sids
  import opened ModeAcl

  // ----- for whom an entry is

  datatype Class = Owner | Group | World

  datatype Role = For(who: Class) | Holder | Nobody

  function And(x: Rights, y: Rights): Rights {
    x & y
  }

  predicate Has(mask: Rights, b: Rights) {
    And(mask, b) != 0
  }

  predicate IsOwner(a: Ace, usid: Sid) {
    a.sid == usid || a.sid == CREATOR_OWNER
  }

  /** The entry applies to the object itself. */
  predicate Applies(a: Ace) {
    !OnlyInherited(a.flags)
  }

  /** With an administrator as owner or group, no entry before applies and has the marks of an ordinary one. */
  ghost predicate FirstPlain(aces: seq<Ace>, i: nat) {
    i <= |aces| && forall j | 0 <= j < i :: !Applies(aces[j]) || Marked(aces[j].mask)
  }

  /** Different owner and group, neither the administrator: by SID, the owner before the group before the world. */
  function StdRole(a: Ace, usid: Sid, gsid: Sid, posix: bool): Role {
    if IsOwner(a, usid) then For(Owner)
    else if a.sid == gsid && !Has(a.mask, WRITE_OWNER) then For(Group)
    else if IsWorld(a.sid, posix) then For(World)
    else if a.sid == NOBODY then Holder
    else Role.Nobody
  }

  /** The same owner and group: entries with the right to take ownership are for the owner. */
  function OwnGrpRole(a: Ace, usid: Sid, posix: bool): Role {
    if IsOwner(a, usid) && Has(a.mask, WRITE_OWNER) then For(Owner)
    else if a.sid == usid && !Has(a.mask, WRITE_OWNER) then For(Group)
    else if IsWorld(a.sid, posix) then For(World)
    else if a.sid == NOBODY then Holder
    else Role.Nobody
  }

  /** The administrator as owner or group: only the first plain entry can be for the owner. */
  function AdminRole(a: Ace, first: bool, usid: Sid, gsid: Sid, posix: bool): Role {
    if Marked(a.mask) then (if a.sid == NOBODY then Holder else Role.Nobody)
    else if IsOwner(a, usid) && Has(a.mask, WRITE_OWNER) && first then For(Owner)
    else if a.sid == gsid && !Has(a.mask, WRITE_OWNER) then For(Group)
    else if IsWorld(a.sid, posix) then For(World)
    else Role.Nobody
  }

  /** For whom an entry is, in each of the three cases; `first` says that it is the first plain one. */
  function RoleOf(a: Ace, first: bool, usid: Sid, gsid: Sid, posix: bool): Role {
    if !Applies(a) then Role.Nobody
    else if AdminOwns(usid, gsid) then AdminRole(a, first, usid, gsid, posix)
    else if usid == gsid then OwnGrpRole(a, usid, posix)
    else StdRole(a, usid, gsid, posix)
  }

  ghost function RoleAt(aces: seq<Ace>, i: nat, usid: Sid, gsid: Sid, posix: bool): Role
    requires i < |aces|
  {
    RoleOf(aces[i], FirstPlain(aces, i), usid, gsid, posix)
  }

  /** An entry of that kind for the role has the right. */
  ghost predicate Says(aces: seq<Ace>, n: nat, role: Role, kind: nat, b: Rights, usid: Sid, gsid: Sid, posix: bool)
    requires n <= |aces|
  {
    exists i: nat | i < n :: RoleAt(aces, i, usid, gsid, posix) == role && aces[i].kind == kind && Has(aces[i].mask, b)
  }

  /** There is an entry for the role, of that kind if one is given. */
  ghost predicate Present(aces: seq<Ace>, n: nat, role: Role, allowedOnly: bool, usid: Sid, gsid: Sid, posix: bool)
    requires n <= |aces|
  {
    exists i: nat | i < n :: RoleAt(aces, i, usid, gsid, posix) == role && (allowedOnly ==> aces[i].kind == ALLOWED)
  }

  // ----- the tally says no more

  lemma AndOverOr(x: Rights, y: Rights, b: Rights)
    ensures And(Join(x, y), b) == Join(And(x, b), And(y, b))
  {
  }

  lemma JoinNothing(x: Rights, y: Rights)
    ensures Join(x, y) == 0 <==> x == 0 && y == 0
  {
  }

  lemma HasJoin(x: Rights, y: Rights, b: Rights)
    ensures Has(Join(x, y), b) <==> Has(x, b) || Has(y, b)
  {
    hide And, Join;
    AndOverOr(x, y, b);
    JoinNothing(And(x, b), And(y, b));
  }

  lemma HasNothing(b: Rights)
    ensures !Has(0, b)
  {
  }

  lemma OwningIs(mask: Rights)
    ensures Owning(mask) <==> Has(mask, WRITE_OWNER)
  {
  }

  lemma NotHolder(t: Tally, a: Ace)
    ensures a.sid != NOBODY ==> Special(t, a) == t
  {
    hide Join;
  }

  lemma StdIs(t: Tally, a: Ace, usid: Sid, gsid: Sid, posix: bool)
    requires Applies(a)
    ensures StdStep(t, a, usid, gsid, posix) ==
              match StdRole(a, usid, gsid, posix)
              case For(Owner) => OwnerCounted(t, a)
              case For(Group) => GroupUncounted(t, a)
              case For(World) => ForAll(t, a)
              case Holder => Special(t, a)
              case Nobody => t
  {
    hide Has, Owning, OnlyInherited, IsWorld, CREATOR_OWNER, NOBODY, WRITE_OWNER, OwnerCounted, GroupUncounted, ForAll, Special;
    OwningIs(a.mask);
    NotHolder(t, a);
  }

  lemma OwnGrpIs(t: Tally, a: Ace, usid: Sid, posix: bool)
    requires Applies(a)
    ensures OwnGrpStep(t, a, usid, posix) ==
              match OwnGrpRole(a, usid, posix)
              case For(Owner) => OwnerGrant(t, a)
              case For(Group) => GrantToGroup(t, a)
              case For(World) => ForAll(t, a)
              case Holder => Special(t, a)
              case Nobody => t
  {
    hide Has, Owning, OnlyInherited, IsWorld, CREATOR_OWNER, NOBODY, WRITE_OWNER, OwnerGrant, GrantToGroup, ForAll, Special;
    OwningIs(a.mask);
    NotHolder(t, a);
  }

  lemma PlainIs(t: Tally, a: Ace, usid: Sid, gsid: Sid, posix: bool)
    requires !Marked(a.mask)
    ensures PlainStep(t, a, usid, gsid, posix) ==
              match AdminRole(a, t.first, usid, gsid, posix)
              case For(Owner) => ForOwner(t, a)
              case For(Group) => ForGroup(t, a)
              case For(World) => ForAll(t, a)
              case Holder => t
              case Nobody => t
  {
    hide Has, Owning, IsWorld, Marked, CREATOR_OWNER, NOBODY, WRITE_OWNER, ForOwner, ForGroup, ForAll;
    OwningIs(a.mask);
  }

  // ----- one sum at a time

  /** What has been added up for a role from entries of a kind. */
  function Sum(t: Tally, role: Role, kind: nat): Rights {
    match role
    case For(Owner) => if kind == ALLOWED then t.allowOwn else if kind == DENIED then t.denyOwn else 0
    case For(Group) => if kind == ALLOWED then t.allowGrp else if kind == DENIED then t.denyGrp else 0
    case For(World) => if kind == ALLOWED then t.allowAll else if kind == DENIED then t.denyAll else 0
    case Holder => if kind == ALLOWED then t.special else 0
    case Nobody => 0
  }

  /** Denials to owner and group are not kept where they are the same; nothing but grants for the special bits. */
  predicate Kept(role: Role, kind: nat, same: bool) {
    match role
    case For(who) => kind == ALLOWED || (kind == DENIED && (who == World || !same))
    case Holder => kind == ALLOWED
    case Nobody => false
  }

  predicate Same(usid: Sid, gsid: Sid) {
    !AdminOwns(usid, gsid) && usid == gsid
  }

  function More(sum: Rights, adds: bool, mask: Rights): Rights {
    if adds then Join(sum, mask) else sum
  }

  lemma SumsOf(t: Tally)
    ensures Sum(t, For(Owner), ALLOWED) == t.allowOwn && Sum(t, For(Owner), DENIED) == t.denyOwn
    ensures Sum(t, For(Group), ALLOWED) == t.allowGrp && Sum(t, For(Group), DENIED) == t.denyGrp
    ensures Sum(t, For(World), ALLOWED) == t.allowAll && Sum(t, For(World), DENIED) == t.denyAll
    ensures Sum(t, Holder, ALLOWED) == t.special
  {
  }

  lemma GrantOwner(t: Tally, x: Rights, role: Role, kind: nat)
    ensures Sum(t.(allowOwn := x, own := true), role, kind) == if role == For(Owner) && kind == ALLOWED then x else Sum(t, role, kind)
  {
  }

  lemma DenyOwner(t: Tally, x: Rights, role: Role, kind: nat)
    ensures Sum(t.(denyOwn := x), role, kind) == if role == For(Owner) && kind == DENIED then x else Sum(t, role, kind)
  {
  }

  lemma SumOwner(t: Tally, a: Ace, role: Role, kind: nat)
    ensures Sum(ForOwner(t, a), role, kind) == More(Sum(t, role, kind), role == For(Owner) && kind == a.kind && Kept(role, kind, false), a.mask)
  {
    hide Join, Sum;
    SumsOf(t);
    GrantOwner(t, Join(t.allowOwn, a.mask), role, kind);
    DenyOwner(t, Join(t.denyOwn, a.mask), role, kind);
  }

  lemma GrantGroup(t: Tally, x: Rights, role: Role, kind: nat)
    ensures Sum(t.(allowGrp := x, grp := true), role, kind) == if role == For(Group) && kind == ALLOWED then x else Sum(t, role, kind)
  {
  }

  lemma DenyGroup(t: Tally, x: Rights, role: Role, kind: nat)
    ensures Sum(t.(denyGrp := x), role, kind) == if role == For(Group) && kind == DENIED then x else Sum(t, role, kind)
  {
  }

  lemma SumGroup(t: Tally, a: Ace, role: Role, kind: nat)
    ensures Sum(ForGroup(t, a), role, kind) == More(Sum(t, role, kind), role == For(Group) && kind == a.kind && Kept(role, kind, false), a.mask)
  {
    hide Join, Sum;
    SumsOf(t);
    GrantGroup(t, Join(t.allowGrp, a.mask), role, kind);
    DenyGroup(t, Join(t.denyGrp, a.mask), role, kind);
  }

  lemma GrantWorld(t: Tally, x: Rights, role: Role, kind: nat)
    ensures Sum(t.(allowAll := x), role, kind) == if role == For(World) && kind == ALLOWED then x else Sum(t, role, kind)
  {
  }

  lemma DenyWorld(t: Tally, x: Rights, role: Role, kind: nat)
    ensures Sum(t.(denyAll := x), role, kind) == if role == For(World) && kind == DENIED then x else Sum(t, role, kind)
  {
  }

  lemma SumWorld(t: Tally, a: Ace, role: Role, kind: nat)
    ensures Sum(ForAll(t, a), role, kind) == More(Sum(t, role, kind), role == For(World) && kind == a.kind && Kept(role, kind, false), a.mask)
  {
    hide Join, Sum;
    SumsOf(t);
    GrantWorld(t, Join(t.allowAll, a.mask), role, kind);
    DenyWorld(t, Join(t.denyAll, a.mask), role, kind);
  }

  lemma SumSpecial(t: Tally, a: Ace, role: Role, kind: nat)
    ensures Sum(Special(t, a), role, kind)
            == More(Sum(t, role, kind), a.sid == NOBODY && role == Holder && kind == a.kind && Kept(role, kind, false), a.mask)
  {
    hide Join, NOBODY;
  }

  lemma SumOwn(t: Tally, c: bool, role: Role, kind: nat)
    ensures Sum(t.(own := c), role, kind) == Sum(t, role, kind)
  {
  }

  lemma SumGrp(t: Tally, c: bool, role: Role, kind: nat)
    ensures Sum(t.(grp := c), role, kind) == Sum(t, role, kind)
  {
  }

  lemma SumPast(t: Tally, role: Role, kind: nat)
    ensures Sum(Past(t), role, kind) == Sum(t, role, kind)
  {
  }

  lemma StdSum(t: Tally, a: Ace, usid: Sid, gsid: Sid, posix: bool, role: Role, kind: nat)
    requires Applies(a)
    ensures Sum(StdStep(t, a, usid, gsid, posix), role, kind)
            == More(Sum(t, role, kind), role == StdRole(a, usid, gsid, posix) && kind == a.kind && Kept(role, kind, false), a.mask)
  {
    hide Sum, Join, StdStep, StdRole, ForOwner, ForGroup, ForAll, Special, OnlyInherited, NOBODY;
    StdIs(t, a, usid, gsid, posix);
    SumOwner(t, a, role, kind);
    SumOwn(ForOwner(t, a), true, role, kind);
    SumGroup(t, a, role, kind);
    SumGrp(ForGroup(t, a), t.grp, role, kind);
    SumWorld(t, a, role, kind);
    SumSpecial(t, a, role, kind);
    ToHolder(a, usid, gsid, posix);
  }

  lemma ToHolder(a: Ace, usid: Sid, gsid: Sid, posix: bool)
    ensures StdRole(a, usid, gsid, posix) == Holder ==> a.sid == NOBODY
    ensures OwnGrpRole(a, usid, posix) == Holder ==> a.sid == NOBODY
  {
    hide Has, IsWorld, NOBODY;
  }

  lemma SumGrants(t: Tally, a: Ace, role: Role, kind: nat)
    ensures Sum(OwnerGrant(t, a), role, kind) == More(Sum(t, role, kind), role == For(Owner) && kind == a.kind && Kept(role, kind, true), a.mask)
    ensures Sum(GrantToGroup(t, a), role, kind) == More(Sum(t, role, kind), role == For(Group) && kind == a.kind && Kept(role, kind, true), a.mask)
  {
    hide Sum, ForOwner, ForGroup, Join;
    SumOwner(t, a, role, kind);
    SumGroup(t, a, role, kind);
  }

  lemma OwnGrpSum(t: Tally, a: Ace, usid: Sid, posix: bool, role: Role, kind: nat)
    requires Applies(a)
    ensures Sum(OwnGrpStep(t, a, usid, posix), role, kind)
            == More(Sum(t, role, kind), role == OwnGrpRole(a, usid, posix) && kind == a.kind && Kept(role, kind, true), a.mask)
  {
    hide Sum, Join, OwnGrpStep, OwnGrpRole, OwnerGrant, GrantToGroup, ForAll, Special, OnlyInherited, NOBODY;
    OwnGrpIs(t, a, usid, posix);
    SumGrants(t, a, role, kind);
    SumWorld(t, a, role, kind);
    SumSpecial(t, a, role, kind);
    ToHolder(a, usid, usid, posix);
  }

  lemma PlainSum(t: Tally, a: Ace, usid: Sid, gsid: Sid, posix: bool, role: Role, kind: nat)
    requires !Marked(a.mask)
    ensures Sum(PlainStep(t, a, usid, gsid, posix), role, kind)
            == More(Sum(t, role, kind), role == AdminRole(a, t.first, usid, gsid, posix) && kind == a.kind && Kept(role, kind, false), a.mask)
  {
    hide Sum, Join, PlainStep, AdminRole, ForOwner, ForGroup, ForAll, Marked;
    PlainIs(t, a, usid, gsid, posix);
    SumOwner(t, a, role, kind);
    SumGroup(t, a, role, kind);
    SumWorld(t, a, role, kind);
    PlainNotHolder(a, t.first, usid, gsid, posix);
  }

  lemma PlainNotHolder(a: Ace, first: bool, usid: Sid, gsid: Sid, posix: bool)
    ensures !Marked(a.mask) ==> AdminRole(a, first, usid, gsid, posix) != Holder
    ensures Marked(a.mask) ==> AdminRole(a, first, usid, gsid, posix) == if a.sid == NOBODY then Holder else Role.Nobody
  {
    hide Has, IsOwner, IsWorld, Marked, NOBODY;
  }

  lemma AdminSum(t: Tally, a: Ace, usid: Sid, gsid: Sid, posix: bool, role: Role, kind: nat)
    requires Applies(a)
    ensures Sum(OwnAdminStep(t, a, usid, gsid, posix), role, kind)
            == More(Sum(t, role, kind), role == AdminRole(a, t.first, usid, gsid, posix) && kind == a.kind && Kept(role, kind, false), a.mask)
  {
    hide Sum, Join, PlainStep, Special, Past, AdminRole, OnlyInherited, NOBODY, Marked;
    PlainNotHolder(a, t.first, usid, gsid, posix);
    if Marked(a.mask) {
      SumSpecial(t, a, role, kind);
    } else {
      PlainSum(t, a, usid, gsid, posix, role, kind);
      SumPast(PlainStep(t, a, usid, gsid, posix), role, kind);
    }
  }

  /** An entry adds its rights to what is kept for its role and kind, and to nothing else. */
  lemma StepSum(t: Tally, a: Ace, usid: Sid, gsid: Sid, posix: bool, role: Role, kind: nat)
    ensures Sum(Step(t, a, usid, gsid, posix), role, kind)
            == More(Sum(t, role, kind),
                    role == RoleOf(a, t.first, usid, gsid, posix) && kind == a.kind && Kept(role, kind, Same(usid, gsid)), a.mask)
  {
    hide Sum, StdRole, OwnGrpRole, AdminRole, OnlyInherited, StdStep, OwnGrpStep, OwnAdminStep, AdminOwns, Join;
    if Applies(a) {
      StdSum(t, a, usid, gsid, posix, role, kind);
      OwnGrpSum(t, a, usid, posix, role, kind);
      AdminSum(t, a, usid, gsid, posix, role, kind);
    } else {
      NotApplied(t, a, usid, gsid, posix);
    }
  }

  lemma NotApplied(t: Tally, a: Ace, usid: Sid, gsid: Sid, posix: bool)
    requires !Applies(a)
    ensures StdStep(t, a, usid, gsid, posix) == OwnGrpStep(t, a, usid, posix) == OwnAdminStep(t, a, usid, gsid, posix) == t
  {
    hide OnlyInherited, PlainStep, OwnerCounted, GroupUncounted, OwnerGrant, GrantToGroup, ForAll, Special;
  }

  // ----- the flags of the tally

  /** Only grants count as entries there are, unless owner and group differ and neither is the administrator. */
  predicate GrantsCount(usid: Sid, gsid: Sid) {
    AdminOwns(usid, gsid) || usid == gsid
  }

  lemma StepFlags(t: Tally, a: Ace, usid: Sid, gsid: Sid, posix: bool)
    ensures var u := Step(t, a, usid, gsid, posix);
            var role := RoleOf(a, t.first, usid, gsid, posix);
            && (u.own <==> t.own || (role == For(Owner) && (GrantsCount(usid, gsid) ==> a.kind == ALLOWED)))
            && (GrantsCount(usid, gsid) ==> (u.grp <==> t.grp || (role == For(Group) && a.kind == ALLOWED)))
            && (AdminOwns(usid, gsid) ==> (u.first <==> t.first && (!Applies(a) || Marked(a.mask))))
  {
    hide Join, StdRole, OwnGrpRole, AdminRole, OnlyInherited, StdStep, OwnGrpStep, OwnAdminStep, AdminOwns, Marked;
    if Applies(a) {
      StdFlags(t, a, usid, gsid, posix);
      OwnGrpFlags(t, a, usid, posix);
      AdminFlags(t, a, usid, gsid, posix);
    } else {
      NotApplied(t, a, usid, gsid, posix);
    }
  }

  lemma OwnerFlags(t: Tally, a: Ace)
    ensures ForOwner(t, a).own <==> t.own || a.kind == ALLOWED
    ensures ForOwner(t, a).grp <==> t.grp
  {
    hide Join;
  }

  lemma GroupFlags(t: Tally, a: Ace)
    ensures ForGroup(t, a).own <==> t.own
    ensures ForGroup(t, a).grp <==> t.grp || a.kind == ALLOWED
  {
    hide Join;
  }

  lemma WorldFlags(t: Tally, a: Ace)
    ensures ForAll(t, a).own <==> t.own
    ensures ForAll(t, a).grp <==> t.grp
  {
    hide Join;
  }

  lemma SpecialFlags(t: Tally, a: Ace)
    ensures Special(t, a).own <==> t.own
    ensures Special(t, a).grp <==> t.grp
    ensures Special(t, a).first <==> t.first
  {
    hide Join, NOBODY;
  }

  lemma HelperFlags(t: Tally, a: Ace)
    ensures OwnerCounted(t, a).own && (GroupUncounted(t, a).own <==> t.own) && (ForAll(t, a).own <==> t.own) && (Special(t, a).own <==> t.own)
    ensures OwnerGrant(t, a).own <==> t.own || a.kind == ALLOWED
    ensures (OwnerGrant(t, a).grp <==> t.grp) && (GrantToGroup(t, a).own <==> t.own)
    ensures GrantToGroup(t, a).grp <==> t.grp || a.kind == ALLOWED
    ensures (ForAll(t, a).grp <==> t.grp) && (Special(t, a).grp <==> t.grp) && (Special(t, a).first <==> t.first)
  {
    hide ForOwner, ForGroup, ForAll, Special;
    PlainHelpers(t, a);
    SpecialFlags(t, a);
  }

  lemma PlainHelpers(t: Tally, a: Ace)
    ensures ForOwner(t, a).own <==> t.own || a.kind == ALLOWED
    ensures (ForOwner(t, a).grp <==> t.grp) && (ForGroup(t, a).own <==> t.own)
    ensures ForGroup(t, a).grp <==> t.grp || a.kind == ALLOWED
    ensures (ForAll(t, a).own <==> t.own) && (ForAll(t, a).grp <==> t.grp)
  {
    hide ForOwner, ForGroup, ForAll;
    OwnerFlags(t, a);
    GroupFlags(t, a);
    WorldFlags(t, a);
  }

  lemma StdFlags(t: Tally, a: Ace, usid: Sid, gsid: Sid, posix: bool)
    requires Applies(a)
    ensures StdStep(t, a, usid, gsid, posix).own <==> t.own || StdRole(a, usid, gsid, posix) == For(Owner)
  {
    hide StdStep, StdRole, OwnerCounted, GroupUncounted, ForAll, Special, OnlyInherited, OwnerGrant, GrantToGroup;
    StdIs(t, a, usid, gsid, posix);
    HelperFlags(t, a);
  }

  lemma OwnGrpFlags(t: Tally, a: Ace, usid: Sid, posix: bool)
    requires Applies(a)
    ensures var u := OwnGrpStep(t, a, usid, posix);
            && (u.own <==> t.own || (OwnGrpRole(a, usid, posix) == For(Owner) && a.kind == ALLOWED))
            && (u.grp <==> t.grp || (OwnGrpRole(a, usid, posix) == For(Group) && a.kind == ALLOWED))
  {
    hide OwnGrpStep, OwnGrpRole, OwnerCounted, GroupUncounted, ForAll, Special, OnlyInherited, OwnerGrant, GrantToGroup;
    OwnGrpIs(t, a, usid, posix);
    HelperFlags(t, a);
  }

  lemma AdminFlags(t: Tally, a: Ace, usid: Sid, gsid: Sid, posix: bool)
    requires Applies(a)
    ensures var u := OwnAdminStep(t, a, usid, gsid, posix);
            var role := AdminRole(a, t.first, usid, gsid, posix);
            && (u.own <==> t.own || (role == For(Owner) && a.kind == ALLOWED))
            && (u.grp <==> t.grp || (role == For(Group) && a.kind == ALLOWED))
            && (u.first <==> t.first && Marked(a.mask))
  {
    hide AdminRole, PlainStep, ForOwner, ForGroup, ForAll, Special, OnlyInherited, Marked, NOBODY;
    SpecialFlags(t, a);
    PlainHelpers(t, a);
    PlainNotHolder(a, t.first, usid, gsid, posix);
    if !Marked(a.mask) { PlainIs(t, a, usid, gsid, posix); }
  }

  // ----- every list

  lemma {:induction false} FoldLast(t: Tally, aces: seq<Ace>, a: Ace, usid: Sid, gsid: Sid, posix: bool)
    ensures Fold(t, aces + [a], usid, gsid, posix) == Step(Fold(t, aces, usid, gsid, posix), a, usid, gsid, posix)
    decreases |aces|
  {
    hide Step;
    if aces == [] {
      assert aces + [a] == [a] && [a][1..] == [];
    } else {
      assert (aces + [a])[1..] == aces[1..] + [a];
      FoldLast(Step(t, aces[0], usid, gsid, posix), aces[1..], a, usid, gsid, posix);
    }
  }

  lemma HasMore(sum: Rights, adds: bool, mask: Rights, b: Rights)
    ensures Has(More(sum, adds, mask), b) <==> Has(sum, b) || (adds && Has(mask, b))
  {
    hide Has, Join;
    HasJoin(sum, mask, b);
  }

  lemma SaysMore(aces: seq<Ace>, n: nat, role: Role, kind: nat, b: Rights, usid: Sid, gsid: Sid, posix: bool)
    requires n < |aces|
    ensures Says(aces, n + 1, role, kind, b, usid, gsid, posix) <==>
            Says(aces, n, role, kind, b, usid, gsid, posix)
            || (RoleAt(aces, n, usid, gsid, posix) == role && aces[n].kind == kind && Has(aces[n].mask, b))
  {
    hide RoleAt, Has;
  }

  lemma PresentMore(aces: seq<Ace>, n: nat, role: Role, allowedOnly: bool, usid: Sid, gsid: Sid, posix: bool)
    requires n < |aces|
    ensures Present(aces, n + 1, role, allowedOnly, usid, gsid, posix) <==>
            Present(aces, n, role, allowedOnly, usid, gsid, posix)
            || (RoleAt(aces, n, usid, gsid, posix) == role && (allowedOnly ==> aces[n].kind == ALLOWED))
  {
    hide RoleAt;
  }

  lemma FirstMore(aces: seq<Ace>, n: nat)
    requires n < |aces|
    ensures FirstPlain(aces, n + 1) <==> FirstPlain(aces, n) && (!Applies(aces[n]) || Marked(aces[n].mask))
  {
    hide Applies, Marked;
  }

  /** The flags after the first entries say which of them are there. */
  ghost predicate FlagsTell(t: Tally, aces: seq<Ace>, n: nat, usid: Sid, gsid: Sid, posix: bool)
    requires n <= |aces|
  {
    && (t.own <==> Present(aces, n, For(Owner), GrantsCount(usid, gsid), usid, gsid, posix))
    && (GrantsCount(usid, gsid) ==> (t.grp <==> Present(aces, n, For(Group), true, usid, gsid, posix)))
    && (AdminOwns(usid, gsid) ==> (t.first <==> FirstPlain(aces, n)))
  }

  lemma SameRole(t: Tally, aces: seq<Ace>, n: nat, usid: Sid, gsid: Sid, posix: bool)
    requires n < |aces| && FlagsTell(t, aces, n, usid, gsid, posix)
    ensures RoleOf(aces[n], t.first, usid, gsid, posix) == RoleAt(aces, n, usid, gsid, posix)
  {
    hide StdRole, OwnGrpRole, AdminRole, Applies, AdminOwns, FirstPlain, Present, GrantsCount;
  }

  lemma FlagsStep(t: Tally, aces: seq<Ace>, n: nat, usid: Sid, gsid: Sid, posix: bool)
    requires n < |aces| && FlagsTell(t, aces, n, usid, gsid, posix)
    ensures FlagsTell(Step(t, aces[n], usid, gsid, posix), aces, n + 1, usid, gsid, posix)
  {
    hide Step, RoleOf, RoleAt, Applies, Marked, AdminOwns, FirstPlain, Present;
    StepFlags(t, aces[n], usid, gsid, posix);
    SameRole(t, aces, n, usid, gsid, posix);
    PresentMore(aces, n, For(Owner), GrantsCount(usid, gsid), usid, gsid, posix);
    PresentMore(aces, n, For(Group), true, usid, gsid, posix);
    FirstMore(aces, n);
  }

  lemma SumStep(t: Tally, aces: seq<Ace>, n: nat, role: Role, kind: nat, b: Rights, usid: Sid, gsid: Sid, posix: bool)
    requires n < |aces| && FlagsTell(t, aces, n, usid, gsid, posix)
    requires Has(Sum(t, role, kind), b) <==> Kept(role, kind, Same(usid, gsid)) && Says(aces, n, role, kind, b, usid, gsid, posix)
    ensures Has(Sum(Step(t, aces[n], usid, gsid, posix), role, kind), b) <==>
            Kept(role, kind, Same(usid, gsid)) && Says(aces, n + 1, role, kind, b, usid, gsid, posix)
  {
    hide Has, Sum, More, Step, RoleOf, RoleAt, Kept, Same, Says, FlagsTell;
    var adds := role == RoleOf(aces[n], t.first, usid, gsid, posix) && kind == aces[n].kind && Kept(role, kind, Same(usid, gsid));
    StepSum(t, aces[n], usid, gsid, posix, role, kind);
    HasMore(Sum(t, role, kind), adds, aces[n].mask, b);
    SameRole(t, aces, n, usid, gsid, posix);
    SaysMore(aces, n, role, kind, b, usid, gsid, posix);
  }

  lemma SumStart(role: Role, kind: nat, b: Rights)
    ensures !Has(Sum(START, role, kind), b)
  {
    hide Has;
    HasNothing(b);
  }

  /** A sum has a right exactly if an entry of that kind for the role has it. */
  lemma {:induction false} Told(aces: seq<Ace>, n: nat, role: Role, kind: nat, b: Rights, usid: Sid, gsid: Sid, posix: bool)
    requires n <= |aces|
    ensures var t := Fold(START, aces[..n], usid, gsid, posix);
            && FlagsTell(t, aces, n, usid, gsid, posix)
            && (Has(Sum(t, role, kind), b) <==> Kept(role, kind, Same(usid, gsid)) && Says(aces, n, role, kind, b, usid, gsid, posix))
  {
    hide Has, Sum, Step, RoleAt, Kept, Same;
    if n == 0 {
      assert aces[..0] == [];
      SumStart(role, kind, b);
    } else {
      Told(aces, n - 1, role, kind, b, usid, gsid, posix);
      var t := Fold(START, aces[..n - 1], usid, gsid, posix);
      FoldLast(START, aces[..n - 1], aces[n - 1], usid, gsid, posix);
      assert aces[..n] == aces[..n - 1] + [aces[n - 1]];
      FlagsStep(t, aces, n - 1, usid, gsid, posix);
      SumStep(t, aces, n - 1, role, kind, b, usid, gsid, posix);
    }
  }

  // ----- what the mode says

  /** A single one of the rights that make r, w or x. */
  predicate Single(b: Rights) {
    b in {FILE_READ_DATA, FILE_WRITE_DATA, FILE_APPEND_DATA, FILE_EXECUTE, GENERIC_READ, GENERIC_WRITE, GENERIC_EXECUTE}
  }

  datatype Permission = Read | Write | Execute

  /** The rights any of which makes the permission. */
  function RightsFor(p: Permission): set<Rights> {
    match p
    case Read => {FILE_READ_DATA, GENERIC_READ}
    case Write => {FILE_WRITE_DATA, FILE_APPEND_DATA, GENERIC_WRITE}
    case Execute => {FILE_EXECUTE, GENERIC_EXECUTE}
  }

  lemma AndOverLess(x: Rights, y: Rights, b: Rights)
    ensures And(Less(x, y), b) == Less(And(x, b), And(y, b))
  {
  }

  lemma OneRight(x: Rights, b: Rights)
    requires Single(b)
    ensures And(x, b) == 0 || And(x, b) == b
  {
  }

  lemma NothingLess(b: Rights)
    ensures Less(b, b) == 0 && Less(b, 0) == b && Less(0, b) == 0 && Less(0, 0) == 0
  {
  }

  lemma HasLess(x: Rights, y: Rights, b: Rights)
    requires Single(b)
    ensures Has(Less(x, y), b) <==> Has(x, b) && !Has(y, b)
  {
    hide And, Less;
    AndOverLess(x, y, b);
    OneRight(x, b);
    OneRight(y, b);
    NothingLess(b);
  }

  lemma RwxHas(rights: Rights)
    ensures Rwx(rights) & 4 != 0 <==> Has(rights, FILE_READ_DATA) || Has(rights, GENERIC_READ)
    ensures Rwx(rights) & 2 != 0 <==> Has(rights, FILE_WRITE_DATA) || Has(rights, FILE_APPEND_DATA) || Has(rights, GENERIC_WRITE)
    ensures Rwx(rights) & 1 != 0 <==> Has(rights, FILE_EXECUTE) || Has(rights, GENERIC_EXECUTE)
  {
  }

  /** The bit of the mode that stands for a permission of a class. */
  function ModeBit(who: Class, p: Permission): Mode {
    match who
    case Owner => (match p case Read => 0x100 case Write => 0x80 case Execute => 0x40)
    case Group => (match p case Read => 0x20 case Write => 0x10 case Execute => 0x8)
    case World => (match p case Read => 0x4 case Write => 0x2 case Execute => 0x1)
  }

  predicate On(mode: Mode, bit: Mode) {
    mode & bit != 0
  }

  function Beside(o: Mode, g: Mode, w: Mode, s: Mode): Mode {
    (o << 6) | (g << 3) | w | s
  }

  lemma OwnerBits(o: Mode, g: Mode, w: Mode, s: Mode, p: Permission)
    requires o < 8 && g < 8 && w < 8 && s & 0x1ff == 0
    ensures On(Beside(o, g, w, s), ModeBit(Owner, p)) <==> On(o, ModeBit(World, p))
  {
  }

  lemma GroupBits(o: Mode, g: Mode, w: Mode, s: Mode, p: Permission)
    requires o < 8 && g < 8 && w < 8 && s & 0x1ff == 0
    ensures On(Beside(o, g, w, s), ModeBit(Group, p)) <==> On(g, ModeBit(World, p))
  {
  }

  lemma WorldBits(o: Mode, g: Mode, w: Mode, s: Mode, p: Permission)
    requires o < 8 && g < 8 && w < 8 && s & 0x1ff == 0
    ensures On(Beside(o, g, w, s), ModeBit(World, p)) <==> On(w, ModeBit(World, p))
  {
  }

  lemma RwxFits(rights: Rights)
    ensures Rwx(rights) < 8
  {
    hide GREAD, GWRITE, GEXEC;
  }

  lemma SpecialsFit(rights: Rights)
    ensures SpecialBits(rights) & 0x1ff == 0 && SpecialBits(rights) < 0x1000
  {
    hide FILE_READ_DATA, FILE_WRITE_DATA, FILE_APPEND_DATA;
  }

  lemma BesideSpecials(o: Mode, g: Mode, w: Mode, s: Mode)
    requires o < 8 && g < 8 && w < 8 && s & 0x1ff == 0 && s < 0x1000
    ensures Beside(o, g, w, s) & 0xe00 == s && Beside(o, g, w, s) < 0x1000
  {
  }

  function RightsOf(t: Tally, who: Class): Rights {
    match who
    case Owner => OwnPart(t)
    case Group => GrpPart(t)
    case World => AllPart(t)
  }

  /** The mode has a bit exactly if the class has one of the rights. */
  lemma FinishedHas(t: Tally, who: Class, p: Permission)
    ensures On(Finished(t), ModeBit(who, p)) <==> exists b | b in RightsFor(p) :: Has(RightsOf(t, who), b)
  {
    hide On, Beside, ModeBit, Rwx, SpecialBits, OwnPart, GrpPart, AllPart, Has;
    var o, g, w, s := Rwx(OwnPart(t)), Rwx(GrpPart(t)), Rwx(AllPart(t)), SpecialBits(t.special);
    RwxFits(OwnPart(t));
    RwxFits(GrpPart(t));
    RwxFits(AllPart(t));
    SpecialsFit(t.special);
    MergedIs(OwnPart(t), GrpPart(t), AllPart(t), t.special);
    OwnerBits(o, g, w, s, p);
    GroupBits(o, g, w, s, p);
    WorldBits(o, g, w, s, p);
    RwxOn(RightsOf(t, who), p);
  }

  lemma MergedIs(owner: Rights, group: Rights, world: Rights, special: Rights)
    ensures Merged(owner, group, world, special) == Beside(Rwx(owner), Rwx(group), Rwx(world), SpecialBits(special))
  {
    hide Rwx, SpecialBits;
  }

  lemma RwxOn(rights: Rights, p: Permission)
    ensures On(Rwx(rights), ModeBit(World, p)) <==> exists b | b in RightsFor(p) :: Has(rights, b)
  {
    hide Rwx, Has;
    RwxHas(rights);
    match p
    case Read => assert FILE_READ_DATA in RightsFor(p) && GENERIC_READ in RightsFor(p);
    case Write => assert FILE_WRITE_DATA in RightsFor(p) && FILE_APPEND_DATA in RightsFor(p) && GENERIC_WRITE in RightsFor(p);
    case Execute => assert FILE_EXECUTE in RightsFor(p) && GENERIC_EXECUTE in RightsFor(p);
  }

  lemma FinishedSpecials(t: Tally)
    ensures Finished(t) & 0xe00 == SpecialBits(t.special) && Finished(t) < 0x1000
  {
    hide Beside, Rwx, SpecialBits, OwnPart, GrpPart, AllPart, Merged;
    RwxFits(OwnPart(t));
    RwxFits(GrpPart(t));
    RwxFits(AllPart(t));
    SpecialsFit(t.special);
    MergedIs(OwnPart(t), GrpPart(t), AllPart(t), t.special);
    BesideSpecials(Rwx(OwnPart(t)), Rwx(GrpPart(t)), Rwx(AllPart(t)), SpecialBits(t.special));
  }

  lemma SpecialsHave(rights: Rights, mode: Mode)
    requires mode & 0xe00 == SpecialBits(rights)
    ensures On(mode, 0x800) <==> Has(rights, FILE_APPEND_DATA)
    ensures On(mode, 0x400) <==> Has(rights, FILE_WRITE_DATA)
    ensures On(mode, 0x200) <==> Has(rights, FILE_READ_DATA)
  {
  }

  /** A class ends up with a right that it is allowed and that neither it nor everyone is denied. */
  lemma RightsHave(t: Tally, who: Class, b: Rights)
    requires Single(b)
    ensures Has(RightsOf(t, who), b) <==>
            && Has(Sum(t, For(who), ALLOWED), b) && !Has(Sum(t, For(World), DENIED), b)
            && !Has(Sum(t, For(who), DENIED), b)
  {
    hide Has, Join, Less, Sum, Single;
    SumsOf(t);
    HasLess(t.allowOwn, Join(t.denyOwn, t.denyAll), b);
    HasJoin(t.denyOwn, t.denyAll, b);
    HasLess(t.allowGrp, Join(t.denyGrp, t.denyAll), b);
    HasJoin(t.denyGrp, t.denyAll, b);
    HasLess(t.allowAll, t.denyAll, b);
  }

  // ----- what classes take over from each other

  lemma SumWidened(t: Tally, own: Rights, role: Role, kind: nat)
    ensures Sum(Widened(t, own), role, kind) ==
              if role == For(Owner) && kind == ALLOWED then Join(Join(own, t.allowGrp), t.allowAll)
              else if role == For(Group) && kind == ALLOWED then Join(t.allowGrp, t.allowAll)
              else Sum(t, role, kind)
  {
    hide Join;
  }

  lemma SumOwnGrpLast(t: Tally, role: Role, kind: nat)
    ensures Sum(OwnGrpLast(t), role, kind) ==
              if role == For(Owner) && kind == ALLOWED && !t.own then t.allowAll
              else if role == For(Group) && kind == ALLOWED && !t.grp then t.allowAll
              else Sum(t, role, kind)
  {
  }

  ghost predicate Grants(aces: seq<Ace>, who: Class, b: Rights, usid: Sid, gsid: Sid, posix: bool) {
    Says(aces, |aces|, For(who), ALLOWED, b, usid, gsid, posix)
  }

  ghost predicate Denies(aces: seq<Ace>, who: Class, b: Rights, usid: Sid, gsid: Sid, posix: bool) {
    Says(aces, |aces|, For(who), DENIED, b, usid, gsid, posix)
  }

  ghost predicate Someone(aces: seq<Ace>, who: Class, allowedOnly: bool, usid: Sid, gsid: Sid, posix: bool) {
    Present(aces, |aces|, For(who), allowedOnly, usid, gsid, posix)
  }

  /** The right is granted to the class or to a wider one. */
  ghost predicate GrantsWider(aces: seq<Ace>, who: Class, b: Rights, usid: Sid, gsid: Sid, posix: bool) {
    || Grants(aces, who, b, usid, gsid, posix)
    || (who == Owner && Grants(aces, Group, b, usid, gsid, posix))
    || Grants(aces, World, b, usid, gsid, posix)
  }

  predicate ByDefault(b: Rights) {
    b == FILE_READ_DATA || b == FILE_WRITE_DATA || b == FILE_EXECUTE
  }

  /** Who is granted a right, in each of the three cases. */
  ghost predicate GrantedTo(aces: seq<Ace>, who: Class, b: Rights, usid: Sid, gsid: Sid, posix: bool) {
    if AdminOwns(usid, gsid) then
      if Someone(aces, Owner, true, usid, gsid, posix) && Someone(aces, Group, true, usid, gsid, posix)
      then Grants(aces, who, b, usid, gsid, posix)
      else GrantsWider(aces, who, b, usid, gsid, posix)
    else if usid == gsid then
      Grants(aces, if who != World && Someone(aces, who, true, usid, gsid, posix) then who else World, b, usid, gsid, posix)
    else
      || GrantsWider(aces, who, b, usid, gsid, posix)
      || (who == Owner && !Someone(aces, Owner, false, usid, gsid, posix) && ByDefault(b))
  }

  /** Who is denied a right: what is denied to everyone, and to the class unless owner and group are the same user. */
  ghost predicate DeniedTo(aces: seq<Ace>, who: Class, b: Rights, usid: Sid, gsid: Sid, posix: bool) {
    || Denies(aces, World, b, usid, gsid, posix)
    || (!Same(usid, gsid) && Denies(aces, who, b, usid, gsid, posix))
  }

  ghost predicate May(aces: seq<Ace>, who: Class, p: Permission, usid: Sid, gsid: Sid, posix: bool) {
    exists b | b in RightsFor(p) :: GrantedTo(aces, who, b, usid, gsid, posix) && !DeniedTo(aces, who, b, usid, gsid, posix)
  }

  /** What a tally says of a class and a right before the classes take over from each other. */
  predicate Sums(t: Tally, who: Class, kind: nat, b: Rights) {
    Has(Sum(t, For(who), kind), b)
  }

  predicate SumsWider(t: Tally, who: Class, b: Rights) {
    Sums(t, who, ALLOWED, b) || (who == Owner && Sums(t, Group, ALLOWED, b)) || Sums(t, World, ALLOWED, b)
  }

  lemma HasWidened(t: Tally, own: Rights, who: Class, b: Rights)
    ensures Sums(Widened(t, own), who, ALLOWED, b) <==>
            if who == Owner then Has(own, b) || Sums(t, Group, ALLOWED, b) || Sums(t, World, ALLOWED, b) else SumsWider(t, who, b)
  {
    hide Has, Join, Sum, Widened;
    SumWidened(t, own, For(who), ALLOWED);
    SumsOf(t);
    HasJoin(Join(own, t.allowGrp), t.allowAll, b);
    HasJoin(own, t.allowGrp, b);
    HasJoin(t.allowGrp, t.allowAll, b);
  }

  lemma HasDefault(b: Rights)
    requires Single(b)
    ensures Has(DEFAULT_RIGHTS, b) <==> ByDefault(b)
  {
  }

  lemma StdLastHas(t: Tally, who: Class, b: Rights)
    requires Single(b)
    ensures Sums(StdLast(t), who, ALLOWED, b) <==>
            if who == Owner && !t.own then ByDefault(b) || Sums(t, Group, ALLOWED, b) || Sums(t, World, ALLOWED, b)
            else SumsWider(t, who, b)
  {
    hide Has, Sum, Widened, Single, ByDefault, DEFAULT_RIGHTS;
    HasWidened(t, if t.own then t.allowOwn else DEFAULT_RIGHTS, who, b);
    SumsOf(t);
    HasDefault(b);
  }

  lemma OwnGrpLastHas(t: Tally, who: Class, b: Rights)
    ensures Sums(OwnGrpLast(t), who, ALLOWED, b) <==>
            Sums(t, if (who == Owner && t.own) || (who == Group && t.grp) then who else World, ALLOWED, b)
  {
    hide Has, Sum, OwnGrpLast;
    SumOwnGrpLast(t, For(who), ALLOWED);
    SumsOf(t);
  }

  lemma AdminLastHas(t: Tally, who: Class, b: Rights)
    ensures Sums(OwnAdminLast(t), who, ALLOWED, b) <==>
            if t.own && t.grp then Sums(t, who, ALLOWED, b) else SumsWider(t, who, b)
  {
    hide Has, Sum, Widened;
    HasWidened(t, t.allowOwn, who, b);
    SumsOf(t);
  }

  lemma LastKeeps(t: Tally, who: Class, usid: Sid, gsid: Sid)
    ensures Sum(LastOf(t, usid, gsid), For(who), DENIED) == Sum(t, For(who), DENIED)
    ensures Sum(LastOf(t, usid, gsid), Holder, ALLOWED) == Sum(t, Holder, ALLOWED)
  {
    hide Sum, Widened, OwnGrpLast;
    SumWidened(t, t.allowOwn, For(who), DENIED);
    SumWidened(t, DEFAULT_RIGHTS, For(who), DENIED);
    SumWidened(t, t.allowOwn, Holder, ALLOWED);
    SumWidened(t, DEFAULT_RIGHTS, Holder, ALLOWED);
    SumOwnGrpLast(t, For(who), DENIED);
    SumOwnGrpLast(t, Holder, ALLOWED);
  }

  /** The whole list, in terms of its entries. */
  lemma Whole(aces: seq<Ace>, role: Role, kind: nat, b: Rights, usid: Sid, gsid: Sid, posix: bool)
    ensures var t := Fold(START, aces, usid, gsid, posix);
            && FlagsTell(t, aces, |aces|, usid, gsid, posix)
            && (Has(Sum(t, role, kind), b) <==>
                Kept(role, kind, Same(usid, gsid)) && Says(aces, |aces|, role, kind, b, usid, gsid, posix))
  {
    hide Has, Sum, Fold, FlagsTell, Kept, Same, Says;
    assert aces[..|aces|] == aces;
    Told(aces, |aces|, role, kind, b, usid, gsid, posix);
  }

  lemma WholeClass(aces: seq<Ace>, who: Class, b: Rights, usid: Sid, gsid: Sid, posix: bool)
    ensures var t := Fold(START, aces, usid, gsid, posix);
            && (Sums(t, who, ALLOWED, b) <==> Grants(aces, who, b, usid, gsid, posix))
            && (Sums(t, who, DENIED, b) <==> (who == World || !Same(usid, gsid)) && Denies(aces, who, b, usid, gsid, posix))
  {
    hide Has, Sum, Fold, FlagsTell, Same, Says;
    Whole(aces, For(who), ALLOWED, b, usid, gsid, posix);
    Whole(aces, For(who), DENIED, b, usid, gsid, posix);
  }

  lemma NotWithout(aces: seq<Ace>, who: Class, b: Rights, usid: Sid, gsid: Sid, posix: bool)
    requires !Someone(aces, who, false, usid, gsid, posix)
    ensures !Grants(aces, who, b, usid, gsid, posix)
  {
    hide RoleAt, Has;
  }

  /** What is allowed to a class in the end is what is granted to it. */
  lemma AllowedIs(aces: seq<Ace>, who: Class, b: Rights, usid: Sid, gsid: Sid, posix: bool)
    requires Single(b)
    ensures Sums(LastOf(Fold(START, aces, usid, gsid, posix), usid, gsid), who, ALLOWED, b) <==> GrantedTo(aces, who, b, usid, gsid, posix)
  {
    hide Sums, Grants, Fold, Same, Single, StdLast, OwnGrpLast, OwnAdminLast, AdminOwns, ByDefault, Present, FirstPlain, Denies;
    var t := Fold(START, aces, usid, gsid, posix);
    Whole(aces, For(who), ALLOWED, b, usid, gsid, posix);
    WholeClass(aces, who, b, usid, gsid, posix);
    WholeClass(aces, Group, b, usid, gsid, posix);
    WholeClass(aces, World, b, usid, gsid, posix);
    StdLastHas(t, who, b);
    OwnGrpLastHas(t, who, b);
    AdminLastHas(t, who, b);
    if !Someone(aces, Owner, false, usid, gsid, posix) { NotWithout(aces, Owner, b, usid, gsid, posix); }
  }

  lemma RightsAre(aces: seq<Ace>, who: Class, b: Rights, usid: Sid, gsid: Sid, posix: bool)
    requires Single(b)
    ensures Has(RightsOf(LastOf(Fold(START, aces, usid, gsid, posix), usid, gsid), who), b) <==>
            GrantedTo(aces, who, b, usid, gsid, posix) && !DeniedTo(aces, who, b, usid, gsid, posix)
  {
    hide Has, RightsOf, LastOf, Fold, Sum, Same, Single, GrantedTo, Denies, Grants;
    var t := Fold(START, aces, usid, gsid, posix);
    RightsHave(LastOf(t, usid, gsid), who, b);
    AllowedIs(aces, who, b, usid, gsid, posix);
    LastKeeps(t, who, usid, gsid);
    LastKeeps(t, World, usid, gsid);
    WholeClass(aces, who, b, usid, gsid, posix);
    WholeClass(aces, World, b, usid, gsid, posix);
  }

  /**
   Every list of entries, bit by bit: a class may read, write or execute exactly if one of the rights for that
   is granted to it and denied neither to it nor to everyone.
   */
  lemma PermissionsMean(aces: seq<Ace>, who: Class, p: Permission, usid: Sid, gsid: Sid, posix: bool)
    ensures On(Permissions(aces, usid, gsid, posix), ModeBit(who, p)) <==> May(aces, who, p, usid, gsid, posix)
  {
    hide On, ModeBit, Finished, LastOf, Fold, Has, RightsOf, GrantedTo, DeniedTo, Single;
    var t := LastOf(Fold(START, aces, usid, gsid, posix), usid, gsid);
    FinishedHas(t, who, p);
    forall b | b in RightsFor(p)
      ensures Has(RightsOf(t, who), b) <==> GrantedTo(aces, who, b, usid, gsid, posix) && !DeniedTo(aces, who, b, usid, gsid, posix)
    {
      AllSingle(p, b);
      RightsAre(aces, who, b, usid, gsid, posix);
    }
  }

  lemma AllSingle(p: Permission, b: Rights)
    requires b in RightsFor(p)
    ensures Single(b)
  {
  }

  /** The set-user-id, set-group-id and sticky bits are the rights granted to the nobody SID; there are no further bits. */
  lemma SpecialsMean(aces: seq<Ace>, usid: Sid, gsid: Sid, posix: bool)
    ensures var mode := Permissions(aces, usid, gsid, posix);
            && mode < 0x1000
            && (On(mode, 0x800) <==> Says(aces, |aces|, Holder, ALLOWED, FILE_APPEND_DATA, usid, gsid, posix))
            && (On(mode, 0x400) <==> Says(aces, |aces|, Holder, ALLOWED, FILE_WRITE_DATA, usid, gsid, posix))
            && (On(mode, 0x200) <==> Says(aces, |aces|, Holder, ALLOWED, FILE_READ_DATA, usid, gsid, posix))
  {
    hide On, Finished, LastOf, Fold, Has, Sum, SpecialBits, Says, Same, FlagsTell;
    var t := Fold(START, aces, usid, gsid, posix);
    var u := LastOf(t, usid, gsid);
    FinishedSpecials(u);
    SpecialsHave(u.special, Finished(u));
    LastKeeps(t, World, usid, gsid);
    SumsOf(t);
    SumsOf(u);
    Whole(aces, Holder, ALLOWED, FILE_APPEND_DATA, usid, gsid, posix);
    Whole(aces, Holder, ALLOWED, FILE_WRITE_DATA, usid, gsid, posix);
    Whole(aces, Holder, ALLOWED, FILE_READ_DATA, usid, gsid, posix);
  }
}
