/** What the entries that stand for a mode give to administrators and to the system, and pass on to what is created inside. */
module AclGrants {
  import opened Sids
  import opened ModeAcl

  // ----- every entry of a mode

  /** An entry that stands for a mode is one of these. */
  predicate Ordinarily(a: Ace, mode: Mode, isdir: bool, usid: Sid, gsid: Sid) {
    && a.flags == Inheritance(isdir)
    && (|| (a.kind == DENIED && (a.sid == usid || a.sid == gsid))
        || (a.kind == ALLOWED && a.sid == usid && a.mask == OwnerGrants(mode, isdir))
        || (a.kind == ALLOWED && a.sid == gsid && a.mask == GroupGrants(mode, isdir))
        || (a.kind == ALLOWED && a.sid == WORLD && a.mask == WorldGrants(mode, isdir))
        || (a.kind == ALLOWED && (a.sid == ADMIN || a.sid == SYSTEM) && a.mask == FULL_RIGHTS))
  }

  predicate Specially(a: Ace, mode: Mode) {
    a == Ace(ALLOWED, NO_PROPAGATE, Specials(mode), NOBODY)
  }

  predicate NoExec(a: Ace, isdir: bool) {
    isdir && a == Ace(DENIED, INHERIT_ONLY | OBJECT_INHERIT, FILE_EXEC, WORLD)
  }

  lemma Denials(mode: Mode, isdir: bool, usid: Sid, gsid: Sid, a: Ace)
    requires a in OwnerDenial(mode, isdir, usid, gsid) || a in GroupDenial(mode, isdir, usid, gsid) || a in NoExecForFiles(isdir)
    ensures Ordinarily(a, mode, isdir, usid, gsid) || NoExec(a, isdir)
  {
    hide Inheritance, OwnerGrants, GroupGrants, WorldGrants, OwnerDenials, GroupDenials, AdminOwns, GroupOwns, GroupDiffers,
         FULL_RIGHTS, WORLD, SYSTEM, ADMIN, FILE_EXEC, INHERIT_ONLY, OBJECT_INHERIT;
  }

  lemma Each(mode: Mode, isdir: bool, usid: Sid, gsid: Sid, a: Ace)
    requires a in Aces(mode, isdir, usid, gsid)
    ensures Ordinarily(a, mode, isdir, usid, gsid) || Specially(a, mode) || NoExec(a, isdir)
  {
    hide Inheritance, OwnerGrants, GroupGrants, WorldGrants, Specials, AdminOwns, GroupDiffers, GroupHasMore, OwnerDenial, GroupDenial,
         NoExecForFiles, NoExec, FULL_RIGHTS, WORLD, SYSTEM, ADMIN, NOBODY, NO_PROPAGATE;
    if a in OwnerDenial(mode, isdir, usid, gsid) || a in GroupDenial(mode, isdir, usid, gsid) || a in NoExecForFiles(isdir) {
      Denials(mode, isdir, usid, gsid, a);
    }
  }

  // ----- what administrators and the system may do

  predicate Within(mask: Rights, other: Rights) {
    Less(mask, other) == 0
  }

  /** An entry that applies to the object grants that SID all these rights. */
  ghost predicate Grants(aces: seq<Ace>, sid: Sid, mask: Rights) {
    exists i | 0 <= i < |aces| :: aces[i].kind == ALLOWED && aces[i].sid == sid && !OnlyInherited(aces[i].flags) && Within(mask, aces[i].mask)
  }

  predicate MayDeleteChildren(mask: Rights) {
    mask & FILE_DELETE_CHILD != 0
  }

  lemma OwnerWithin(mode: Mode, isdir: bool)
    ensures Within(OwnerGrants(mode, isdir), FULL_RIGHTS) <==> !MayDeleteChildren(OwnerGrants(mode, isdir))
  {
  }

  lemma GroupWithin(mode: Mode, isdir: bool)
    ensures Within(GroupGrants(mode, isdir), FULL_RIGHTS) <==> !MayDeleteChildren(GroupGrants(mode, isdir))
  {
  }

  lemma WorldWithin(mode: Mode, isdir: bool)
    ensures Within(WorldGrants(mode, isdir), FULL_RIGHTS) <==> !MayDeleteChildren(WorldGrants(mode, isdir))
  {
  }

  lemma RestWithin(mode: Mode)
    ensures Within(FULL_RIGHTS, FULL_RIGHTS) && !MayDeleteChildren(FULL_RIGHTS)
    ensures Within(Specials(mode), FULL_RIGHTS) && !MayDeleteChildren(Specials(mode))
  {
  }

  lemma AllWithin(mode: Mode, isdir: bool, usid: Sid, gsid: Sid, a: Ace)
    requires a in Aces(mode, isdir, usid, gsid) && a.kind == ALLOWED
    ensures Within(a.mask, FULL_RIGHTS) <==> !MayDeleteChildren(a.mask)
  {
    hide Within, MayDeleteChildren, Aces, Inheritance, OwnerGrants, GroupGrants, WorldGrants, Specials,
         FULL_RIGHTS, WORLD, SYSTEM, ADMIN, NOBODY, FILE_EXEC, NO_PROPAGATE, INHERIT_ONLY, OBJECT_INHERIT;
    Each(mode, isdir, usid, gsid, a);
    OwnerWithin(mode, isdir);
    GroupWithin(mode, isdir);
    WorldWithin(mode, isdir);
    RestWithin(mode);
  }

  lemma FullIn(mode: Mode, isdir: bool, usid: Sid, gsid: Sid)
    ensures Ace(ALLOWED, Inheritance(isdir), FULL_RIGHTS, ADMIN) in Aces(mode, isdir, usid, gsid)
    ensures Ace(ALLOWED, Inheritance(isdir), FULL_RIGHTS, SYSTEM) in Aces(mode, isdir, usid, gsid)
  {
    hide Inheritance, OwnerGrants, GroupGrants, WorldGrants, OwnerDenials, GroupDenials, Specials, AdminOwns, GroupOwns, GroupDiffers, GroupHasMore,
         FULL_RIGHTS, WORLD, SYSTEM, ADMIN, NOBODY, FILE_EXEC, NO_PROPAGATE, INHERIT_ONLY, OBJECT_INHERIT;
    var full := [Ace(ALLOWED, Inheritance(isdir), FULL_RIGHTS, ADMIN)] + ([Ace(ALLOWED, Inheritance(isdir), FULL_RIGHTS, SYSTEM)] + SpecialGrant(mode));
    assert full[0] in full && full[1] in full;
  }

  /** The system has one entry that is granted to it. */
  lemma OnlyFull(mode: Mode, isdir: bool, usid: Sid, gsid: Sid, a: Ace)
    requires Ordinary(usid) && Ordinary(gsid) && a in Aces(mode, isdir, usid, gsid) && a.kind == ALLOWED && a.sid == SYSTEM
    ensures a.mask == FULL_RIGHTS
  {
    hide Aces, Inheritance, OwnerGrants, GroupGrants, WorldGrants, Specials, Ordinary, FULL_RIGHTS, WORLD, SYSTEM, ADMIN, NOBODY;
    Each(mode, isdir, usid, gsid, a);
    NotSystem(usid);
    NotSystem(gsid);
    SidFacts(false);
  }

  lemma NotSystem(sid: Sid)
    requires Ordinary(sid)
    ensures sid != SYSTEM
  {
    assert ADMIN.subs != SYSTEM.subs;
  }

  /**
   Whatever an entry of a mode grants to anyone, administrators and the system are granted too, but for the right to
   delete what is in a directory; the system has a grant exactly if it is not that one.
   */
  lemma AdminsGetAll(mode: Mode, isdir: bool, usid: Sid, gsid: Sid, a: Ace)
    requires Ordinary(usid) && Ordinary(gsid) && a in Aces(mode, isdir, usid, gsid) && a.kind == ALLOWED
    ensures Grants(Aces(mode, isdir, usid, gsid), SYSTEM, a.mask) <==> !MayDeleteChildren(a.mask)
    ensures !MayDeleteChildren(a.mask) ==> Grants(Aces(mode, isdir, usid, gsid), ADMIN, a.mask)
  {
    hide Aces, Inheritance, Within, MayDeleteChildren, Ordinary, OnlyInherited, FULL_RIGHTS, SYSTEM, ADMIN;
    var aces := Aces(mode, isdir, usid, gsid);
    AllWithin(mode, isdir, usid, gsid, a);
    FullIn(mode, isdir, usid, gsid);
    FlagFacts(isdir);
    var i :| 0 <= i < |aces| && aces[i] == Ace(ALLOWED, Inheritance(isdir), FULL_RIGHTS, ADMIN);
    var j :| 0 <= j < |aces| && aces[j] == Ace(ALLOWED, Inheritance(isdir), FULL_RIGHTS, SYSTEM);
    forall k | 0 <= k < |aces| && aces[k].kind == ALLOWED && aces[k].sid == SYSTEM
      ensures aces[k].mask == FULL_RIGHTS
    {
      OnlyFull(mode, isdir, usid, gsid, aces[k]);
    }
  }

  /** That right is what the write permission of a class brings in a directory, and nothing brings it in a file. */
  lemma DeletersAre(mode: Mode, isdir: bool)
    ensures MayDeleteChildren(OwnerGrants(mode, isdir)) <==> isdir && mode & 0x80 != 0
    ensures MayDeleteChildren(GroupGrants(mode, isdir)) <==> isdir && mode & 0x10 != 0
    ensures MayDeleteChildren(WorldGrants(mode, isdir)) <==> isdir && mode & 0x2 != 0
  {
  }

  // ----- what is passed on

  predicate ToFiles(a: Ace) {
    a.flags & OBJECT_INHERIT != 0
  }

  predicate ToDirectories(a: Ace) {
    a.flags & CONTAINER_INHERIT != 0
  }

  /** The entry is not passed further than to what is created inside directly. */
  predicate Stops(a: Ace) {
    a.flags & NO_PROPAGATE != 0
  }

  /** How an entry of a mode is passed on. */
  predicate PassedOn(a: Ace, isdir: bool) {
    if !isdir || a.sid == NOBODY then !ToFiles(a) && !ToDirectories(a) && !OnlyInherited(a.flags) && Stops(a)
    else if OnlyInherited(a.flags) then ToFiles(a) && !ToDirectories(a) && a.kind == DENIED && a.sid == WORLD && a.mask == FILE_EXECUTE
    else ToFiles(a) && ToDirectories(a) && !Stops(a)
  }

  /**
   A file passes nothing on. A directory passes every entry on to files and directories, without end, but for the special
   bits, which stay; and it denies execution to everyone in the files created inside, and only there.
   */
  lemma Inherited(mode: Mode, isdir: bool, usid: Sid, gsid: Sid, a: Ace)
    requires Ordinary(usid) && Ordinary(gsid) && a in Aces(mode, isdir, usid, gsid)
    ensures PassedOn(a, isdir)
  {
    hide Aces, OwnerGrants, GroupGrants, WorldGrants, Specials, Ordinary, FULL_RIGHTS, WORLD, SYSTEM, ADMIN, NOBODY;
    Each(mode, isdir, usid, gsid, a);
    SidFacts(false);
    NotNobody(usid);
    NotNobody(gsid);
  }

  lemma NotNobody(sid: Sid)
    requires Ordinary(sid)
    ensures sid != NOBODY
  {
    assert ADMIN.authority != NOBODY.authority;
  }

  lemma NoExecIn(mode: Mode, usid: Sid, gsid: Sid)
    ensures Ace(DENIED, INHERIT_ONLY | OBJECT_INHERIT, FILE_EXEC, WORLD) in Aces(mode, true, usid, gsid)
  {
    hide Inheritance, OwnerGrants, GroupGrants, WorldGrants, OwnerDenials, GroupDenials, Specials, AdminOwns, GroupOwns, GroupDiffers, GroupHasMore,
         FULL_RIGHTS, WORLD, SYSTEM, ADMIN, NOBODY, FILE_EXEC, NO_PROPAGATE, INHERIT_ONLY, OBJECT_INHERIT, GroupDenial, GroupGrant, SpecialGrant;
  }

  /** The denial that only the files inside get is there exactly in a directory. */
  lemma NoExecInside(mode: Mode, isdir: bool, usid: Sid, gsid: Sid)
    requires Ordinary(usid) && Ordinary(gsid)
    ensures isdir <==> exists a | a in Aces(mode, isdir, usid, gsid) :: OnlyInherited(a.flags)
  {
    hide Aces, Ordinary, ToFiles, ToDirectories, Stops, OnlyInherited, FILE_EXEC, WORLD, NOBODY;
    if isdir {
      NoExecIn(mode, usid, gsid);
      FlagFacts(isdir);
    } else {
      forall a | a in Aces(mode, isdir, usid, gsid)
        ensures !OnlyInherited(a.flags)
      {
        Inherited(mode, isdir, usid, gsid, a);
      }
    }
  }
}
