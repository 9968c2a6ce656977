/**
 Unix modes as access control lists and back: which entries stand for a 12-bit mode, and
 what mode the three interpreters read from a list of entries.
 */
module ModeAcl {
  import opened Sequences
  import opened Sids

  type Rights = bv32
  type Mode = bv16

  /** An access control entry: its type, inheritance flags, rights, and whom it is for. */
  datatype Ace = Ace(kind: nat, flags: bv8, mask: Rights, sid: Sid)

  const ALLOWED: nat := 0
  const DENIED: nat := 1

  // ----- the constants of the access masks

  const FILE_READ_DATA: Rights := 0x1
  const FILE_WRITE_DATA: Rights := 0x2
  const FILE_APPEND_DATA: Rights := 0x4
  const FILE_READ_EA: Rights := 0x8
  const FILE_WRITE_EA: Rights := 0x10
  const FILE_EXECUTE: Rights := 0x20
  const FILE_DELETE_CHILD: Rights := 0x40
  const FILE_READ_ATTRIBUTES: Rights := 0x80
  const FILE_WRITE_ATTRIBUTES: Rights := 0x100
  const DELETE: Rights := 0x10000
  const READ_CONTROL: Rights := 0x20000
  const WRITE_DAC: Rights := 0x40000
  const WRITE_OWNER: Rights := 0x80000
  const SYNCHRONIZE: Rights := 0x100000
  const GENERIC_EXECUTE: Rights := 0x2000_0000
  const GENERIC_WRITE: Rights := 0x4000_0000
  const GENERIC_READ: Rights := 0x8000_0000

  const FILE_READ: Rights := FILE_READ_DATA
  const FILE_WRITE: Rights := FILE_WRITE_DATA | FILE_APPEND_DATA | READ_CONTROL | FILE_WRITE_ATTRIBUTES | FILE_WRITE_EA
  const FILE_EXEC: Rights := FILE_EXECUTE
  const DIR_READ: Rights := FILE_READ_DATA
  const DIR_WRITE: Rights :=
    FILE_WRITE_DATA | FILE_APPEND_DATA | FILE_DELETE_CHILD | READ_CONTROL | FILE_WRITE_ATTRIBUTES | FILE_WRITE_EA
  const DIR_EXEC: Rights := FILE_EXECUTE

  const GREAD: Rights := FILE_READ_DATA | GENERIC_READ
  const GWRITE: Rights := FILE_WRITE_DATA | FILE_APPEND_DATA | GENERIC_WRITE
  const GEXEC: Rights := FILE_EXECUTE | GENERIC_EXECUTE

  const OWNER_RIGHTS: Rights :=
    DELETE | READ_CONTROL | WRITE_DAC | WRITE_OWNER | SYNCHRONIZE
    | FILE_READ_ATTRIBUTES | FILE_WRITE_ATTRIBUTES | FILE_READ_EA | FILE_WRITE_EA
  const WORLD_RIGHTS: Rights := READ_CONTROL | FILE_READ_ATTRIBUTES | FILE_READ_EA | SYNCHRONIZE
  const FULL_RIGHTS: Rights := OWNER_RIGHTS | FILE_READ | FILE_WRITE | FILE_EXEC

  /** The rights that every ordinary entry grants, so that it is not taken for one granted to root. */
  const ROOT_UNMARK: Rights := SYNCHRONIZE | FILE_READ_EA

  const OBJECT_INHERIT: bv8 := 1
  const CONTAINER_INHERIT: bv8 := 2
  const NO_PROPAGATE: bv8 := 4
  const INHERIT_ONLY: bv8 := 8

  const WORLD: Sid := Sid(1, 1, [0])
  const SYSTEM: Sid := Sid(1, 5, [18])
  const CREATOR_OWNER: Sid := Sid(1, 3, [0])
  const NOBODY: Sid := Sid(1, 0, [0])

  /** is_world_sid; the last alternative is absent when POSIX ACLs are compiled in. */
  predicate IsWorld(sid: Sid, posix: bool) {
    || (sid.authority == 1 && sid.subs == [0])
    || (sid.authority == 5 && sid.subs == [32, 545])
    || (sid.authority == 5 && sid.subs == [11])
    || (!posix && sid.authority == 5 && sid.subs == [4])
  }

  // ----- from a mode to entries

  function Inheritance(isdir: bool): bv8 {
    if isdir then OBJECT_INHERIT | CONTAINER_INHERIT else NO_PROPAGATE
  }

  /** The rights for three permission bits in the low end of `bits`. */
  function Granted(bits: Mode, isdir: bool): Rights {
    (if bits & 1 != 0 then (if isdir then DIR_EXEC else FILE_EXEC) else 0)
    | (if bits & 2 != 0 then (if isdir then DIR_WRITE else FILE_WRITE) else 0)
    | (if bits & 4 != 0 then (if isdir then DIR_READ else FILE_READ) else 0)
  }

  function OwnerGrants(mode: Mode, isdir: bool): Rights {
    OWNER_RIGHTS | Granted(mode >> 6, isdir)
  }

  /** What the owner would get from group or world, and is to be denied. */
  function OwnerDenials(mode: Mode, isdir: bool, groupowns: bool): Rights {
    Granted(if groupowns then mode & !(mode >> 3) else mode | (mode >> 3), isdir) & !OwnerGrants(mode, isdir)
  }

  function GroupGrants(mode: Mode, isdir: bool): Rights {
    WORLD_RIGHTS | Granted(mode >> 3, isdir)
  }

  function GroupDenials(mode: Mode, isdir: bool): Rights {
    Granted(mode, isdir) & !(GroupGrants(mode, isdir) | OWNER_RIGHTS)
  }

  function WorldGrants(mode: Mode, isdir: bool): Rights {
    WORLD_RIGHTS | Granted(mode, isdir)
  }

  function Specials(mode: Mode): Rights {
    (if mode & 0x800 != 0 then FILE_APPEND_DATA else 0)
    | (if mode & 0x400 != 0 then FILE_WRITE_DATA else 0)
    | (if mode & 0x200 != 0 then FILE_READ_DATA else 0)
  }

  predicate AdminOwns(usid: Sid, gsid: Sid) {
    usid == ADMIN || gsid == ADMIN
  }

  predicate GroupOwns(usid: Sid, gsid: Sid) {
    !AdminOwns(usid, gsid) && usid == gsid
  }

  /** Group and world have not the same rights. */
  predicate GroupDiffers(mode: Mode) {
    ((mode >> 3) ^ mode) & 7 != 0
  }

  /** The group has a right that the world has not. */
  predicate GroupHasMore(mode: Mode) {
    (mode >> 3) & !mode & 7 != 0
  }

  function Opt<T>(c: bool, x: T): seq<T> {
    if c then [x] else []
  }

  function OwnerDenial(mode: Mode, isdir: bool, usid: Sid, gsid: Sid): seq<Ace> {
    var denials := OwnerDenials(mode, isdir, GroupOwns(usid, gsid));
    Opt(!AdminOwns(usid, gsid) && denials != 0, Ace(DENIED, Inheritance(isdir), denials, usid))
  }

  function NoExecForFiles(isdir: bool): seq<Ace> {
    Opt(isdir, Ace(DENIED, INHERIT_ONLY | OBJECT_INHERIT, FILE_EXEC, WORLD))
  }

  function GroupDenial(mode: Mode, isdir: bool, usid: Sid, gsid: Sid): seq<Ace> {
    Opt(GroupDiffers(mode) && !AdminOwns(usid, gsid) && usid != gsid && GroupDenials(mode, isdir) != 0,
        Ace(DENIED, Inheritance(isdir), GroupDenials(mode, isdir), gsid))
  }

  function GroupGrant(mode: Mode, isdir: bool, usid: Sid, gsid: Sid): seq<Ace> {
    Opt(AdminOwns(usid, gsid) || (GroupDiffers(mode) && (usid == gsid || GroupHasMore(mode))),
        Ace(ALLOWED, Inheritance(isdir), GroupGrants(mode, isdir), gsid))
  }

  function SpecialGrant(mode: Mode): seq<Ace> {
    Opt(mode & 0xe00 != 0, Ace(ALLOWED, NO_PROPAGATE, Specials(mode), NOBODY))
  }

  /** The entries that stand for a mode, in their order. */
  function Aces(mode: Mode, isdir: bool, usid: Sid, gsid: Sid): seq<Ace> {
    OwnerDenial(mode, isdir, usid, gsid)
    + (NoExecForFiles(isdir)
    + ([Ace(ALLOWED, Inheritance(isdir), OwnerGrants(mode, isdir), usid)]
    + (GroupDenial(mode, isdir, usid, gsid)
    + (GroupGrant(mode, isdir, usid, gsid)
    + ([Ace(ALLOWED, Inheritance(isdir), WorldGrants(mode, isdir), WORLD)]
    + ([Ace(ALLOWED, Inheritance(isdir), FULL_RIGHTS, ADMIN)]
    + ([Ace(ALLOWED, Inheritance(isdir), FULL_RIGHTS, SYSTEM)]
    + SpecialGrant(mode))))))))
  }

  // ----- from entries to a mode

  /** What the interpreters add up along the entries. */
  datatype Tally = Tally(allowOwn: Rights, allowGrp: Rights, allowAll: Rights,
                         denyOwn: Rights, denyGrp: Rights, denyAll: Rights, special: Rights,
                         own: bool, grp: bool, first: bool)

  predicate OnlyInherited(flags: bv8) {
    flags & INHERIT_ONLY != 0
  }

  /** Entries with the right to take ownership are for an owner, those without for a group. */
  predicate Owning(mask: Rights) {
    mask & WRITE_OWNER != 0
  }

  /** The mark of an entry for root in a POSIX ACL. */
  predicate Marked(mask: Rights) {
    !mask & ROOT_UNMARK != 0
  }

  function Join(x: Rights, y: Rights): Rights {
    x | y
  }

  function Less(x: Rights, y: Rights): Rights {
    x & !y
  }

  const START: Tally := Tally(0, 0, 0, 0, 0, 0, 0, false, false, true)

  function ForOwner(t: Tally, a: Ace): Tally {
    if a.kind == ALLOWED then t.(allowOwn := Join(t.allowOwn, a.mask), own := true)
    else if a.kind == DENIED then t.(denyOwn := Join(t.denyOwn, a.mask)) else t
  }

  function ForGroup(t: Tally, a: Ace): Tally {
    if a.kind == ALLOWED then t.(allowGrp := Join(t.allowGrp, a.mask), grp := true)
    else if a.kind == DENIED then t.(denyGrp := Join(t.denyGrp, a.mask)) else t
  }

  function ForAll(t: Tally, a: Ace): Tally {
    if a.kind == ALLOWED then t.(allowAll := Join(t.allowAll, a.mask))
    else if a.kind == DENIED then t.(denyAll := Join(t.denyAll, a.mask)) else t
  }

  function Special(t: Tally, a: Ace): Tally {
    if a.sid == NOBODY && a.kind == ALLOWED then t.(special := Join(t.special, a.mask)) else t
  }

  /** Any entry for the owner counts as one there is. */
  function OwnerCounted(t: Tally, a: Ace): Tally {
    ForOwner(t, a).(own := true)
  }

  function GroupUncounted(t: Tally, a: Ace): Tally {
    ForGroup(t, a).(grp := t.grp)
  }

  /** One entry for build_std_permissions. */
  function StdStep(t: Tally, a: Ace, usid: Sid, gsid: Sid, posix: bool): Tally {
    if OnlyInherited(a.flags) then t
    else if a.sid == usid || a.sid == CREATOR_OWNER then OwnerCounted(t, a)
    else if a.sid == gsid && !Owning(a.mask) then GroupUncounted(t, a)
    else if IsWorld(a.sid, posix) then ForAll(t, a)
    else Special(t, a)
  }

  function OwnerGrant(t: Tally, a: Ace): Tally {
    if a.kind == ALLOWED then ForOwner(t, a) else t
  }

  function GrantToGroup(t: Tally, a: Ace): Tally {
    if a.kind == ALLOWED then ForGroup(t, a) else t
  }

  /** One entry for build_owngrp_permissions. */
  function OwnGrpStep(t: Tally, a: Ace, usid: Sid, posix: bool): Tally {
    if OnlyInherited(a.flags) then t
    else if (a.sid == usid || a.sid == CREATOR_OWNER) && Owning(a.mask) then OwnerGrant(t, a)
    else if a.sid == usid && !Owning(a.mask) then GrantToGroup(t, a)
    else if IsWorld(a.sid, posix) then ForAll(t, a)
    else Special(t, a)
  }

  /** An entry without the mark of one for root. */
  function PlainStep(t: Tally, a: Ace, usid: Sid, gsid: Sid, posix: bool): Tally {
    if (a.sid == usid || a.sid == CREATOR_OWNER) && Owning(a.mask) && t.first then ForOwner(t, a)
    else if a.sid == gsid && !Owning(a.mask) then ForGroup(t, a)
    else if IsWorld(a.sid, posix) then ForAll(t, a)
    else t
  }

  function Past(t: Tally): Tally {
    t.(first := false)
  }

  /** One entry for build_ownadmin_permissions. */
  function OwnAdminStep(t: Tally, a: Ace, usid: Sid, gsid: Sid, posix: bool): Tally {
    if OnlyInherited(a.flags) then t
    else if Marked(a.mask) then Special(t, a)
    else Past(PlainStep(t, a, usid, gsid, posix))
  }

  /** The three permission bits that some rights amount to; the masks are the same for files and directories. */
  function Rwx(rights: Rights): Mode {
    (if rights & GEXEC != 0 then 1 else 0) | (if rights & GWRITE != 0 then 2 else 0) | (if rights & GREAD != 0 then 4 else 0)
  }

  function SpecialBits(rights: Rights): Mode {
    (if rights & FILE_APPEND_DATA != 0 then 0x800 else 0)
    | (if rights & FILE_WRITE_DATA != 0 then 0x400 else 0)
    | (if rights & FILE_READ_DATA != 0 then 0x200 else 0)
  }

  /** merge_permissions */
  function Merged(owner: Rights, group: Rights, world: Rights, special: Rights): Mode {
    (Rwx(owner) << 6) | (Rwx(group) << 3) | Rwx(world) | SpecialBits(special)
  }

  function OwnPart(t: Tally): Rights {
    Less(t.allowOwn, Join(t.denyOwn, t.denyAll))
  }

  function GrpPart(t: Tally): Rights {
    Less(t.allowGrp, Join(t.denyGrp, t.denyAll))
  }

  function AllPart(t: Tally): Rights {
    Less(t.allowAll, t.denyAll)
  }

  function Finished(t: Tally): Mode {
    Merged(OwnPart(t), GrpPart(t), AllPart(t), t.special)
  }

  /** What the owner may do when no entry is for them. */
  const DEFAULT_RIGHTS: Rights := FILE_READ_DATA | FILE_WRITE_DATA | FILE_EXECUTE

  function Widened(t: Tally, own: Rights): Tally {
    t.(allowOwn := Join(Join(own, t.allowGrp), t.allowAll), allowGrp := Join(t.allowGrp, t.allowAll))
  }

  /** The owner gets what group and world get, unless denied, and the group what the world gets. */
  function StdLast(t: Tally): Tally {
    Widened(t, if t.own then t.allowOwn else DEFAULT_RIGHTS)
  }

  function OwnGrpLast(t: Tally): Tally {
    t.(allowOwn := if t.own then t.allowOwn else t.allowAll, allowGrp := if t.grp then t.allowGrp else t.allowAll)
  }

  function OwnAdminLast(t: Tally): Tally {
    if t.own && t.grp then t else Widened(t, t.allowOwn)
  }

  function LastOf(t: Tally, usid: Sid, gsid: Sid): Tally {
    if AdminOwns(usid, gsid) then OwnAdminLast(t) else if usid == gsid then OwnGrpLast(t) else StdLast(t)
  }

  function Step(t: Tally, a: Ace, usid: Sid, gsid: Sid, posix: bool): Tally {
    if AdminOwns(usid, gsid) then OwnAdminStep(t, a, usid, gsid, posix)
    else if usid == gsid then OwnGrpStep(t, a, usid, posix)
    else StdStep(t, a, usid, gsid, posix)
  }

  function Fold(t: Tally, aces: seq<Ace>, usid: Sid, gsid: Sid, posix: bool): Tally
    decreases |aces|
  {
    if aces == [] then t else Fold(Step(t, aces[0], usid, gsid, posix), aces[1..], usid, gsid, posix)
  }

  /** ntfs_build_permissions on a list of entries. */
  function Permissions(aces: seq<Ace>, usid: Sid, gsid: Sid, posix: bool): Mode {
    var t := Fold(START, aces, usid, gsid, posix);
    Finished(LastOf(t, usid, gsid))
  }

  lemma FoldOpt(t: Tally, c: bool, a: Ace, rest: seq<Ace>, usid: Sid, gsid: Sid, posix: bool)
    ensures Fold(t, Opt(c, a) + rest, usid, gsid, posix)
            == Fold(if c then Step(t, a, usid, gsid, posix) else t, rest, usid, gsid, posix)
  {
    hide Step;
    if c {
      assert ([a] + rest)[1..] == rest;
    } else {
      assert Opt(c, a) + rest == rest;
    }
  }

  lemma FoldOne(t: Tally, a: Ace, rest: seq<Ace>, usid: Sid, gsid: Sid, posix: bool)
    ensures Fold(t, [a] + rest, usid, gsid, posix) == Fold(Step(t, a, usid, gsid, posix), rest, usid, gsid, posix)
  {
    hide Step;
    assert ([a] + rest)[1..] == rest;
  }

  // ----- the round trip

  /** An owner or group as the id mapping gives them. */
  predicate Ordinary(sid: Sid) {
    IsUserSid(sid) || sid == ADMIN
  }

  /** The part that only depends on the mode: what is granted and denied in the end. */
  function StdTally(mode: Mode, isdir: bool): Tally {
    Tally(OwnerGrants(mode, isdir), if GroupDiffers(mode) && GroupHasMore(mode) then GroupGrants(mode, isdir) else 0, WorldGrants(mode, isdir),
          OwnerDenials(mode, isdir, false), if GroupDiffers(mode) then GroupDenials(mode, isdir) else 0, 0,
          if mode & 0xe00 != 0 then Specials(mode) else 0, true, false, true)
  }

  function OwnGrpTally(mode: Mode, isdir: bool): Tally {
    Tally(OwnerGrants(mode, isdir), if GroupDiffers(mode) then GroupGrants(mode, isdir) else 0, WorldGrants(mode, isdir),
          0, 0, 0, if mode & 0xe00 != 0 then Specials(mode) else 0, true, GroupDiffers(mode), true)
  }

  function OwnAdminTally(mode: Mode, isdir: bool): Tally {
    Tally(OwnerGrants(mode, isdir), GroupGrants(mode, isdir), WorldGrants(mode, isdir),
          0, 0, 0, if mode & 0xe00 != 0 then Specials(mode) else 0, true, true, false)
  }

  /** The tally means this mode. */
  predicate Means(t: Tally, mode: Mode) {
    && Rwx(OwnPart(t)) == (mode >> 6) & 7 && Rwx(GrpPart(t)) == (mode >> 3) & 7 && Rwx(AllPart(t)) == mode & 7
    && SpecialBits(t.special) == mode & 0xe00
  }

  lemma FinishedMeans(t: Tally, mode: Mode)
    requires mode < 0x1000 && Means(t, mode)
    ensures Finished(t) == mode
  {
    hide Rwx, SpecialBits, OwnPart, GrpPart, AllPart;
  }

  lemma StdOwner(mode: Mode, isdir: bool)
    ensures Rwx(OwnPart(StdLast(StdTally(mode, isdir)))) == (mode >> 6) & 7
  {
  }

  lemma StdGroup(mode: Mode, isdir: bool)
    ensures Rwx(GrpPart(StdLast(StdTally(mode, isdir)))) == (mode >> 3) & 7
  {
  }

  lemma StdWorld(mode: Mode, isdir: bool)
    ensures Rwx(AllPart(StdLast(StdTally(mode, isdir)))) == mode & 7
    ensures StdLast(StdTally(mode, isdir)).special == if mode & 0xe00 != 0 then Specials(mode) else 0
  {
  }

  lemma SpecialsBack(mode: Mode)
    ensures SpecialBits(if mode & 0xe00 != 0 then Specials(mode) else 0) == mode & 0xe00
  {
  }

  lemma StdMeans(mode: Mode, isdir: bool)
    ensures Means(StdLast(StdTally(mode, isdir)), mode)
  {
    hide Rwx, SpecialBits, OwnPart, GrpPart, AllPart, StdLast, StdTally, Specials;
    StdOwner(mode, isdir);
    StdGroup(mode, isdir);
    StdWorld(mode, isdir);
    SpecialsBack(mode);
  }

  lemma OwnGrpOwner(mode: Mode, isdir: bool)
    ensures Rwx(OwnPart(OwnGrpLast(OwnGrpTally(mode, isdir)))) == (mode >> 6) & 7
  {
  }

  lemma OwnGrpGroup(mode: Mode, isdir: bool)
    ensures Rwx(GrpPart(OwnGrpLast(OwnGrpTally(mode, isdir)))) == (mode >> 3) & 7
  {
  }

  lemma OwnGrpWorld(mode: Mode, isdir: bool)
    ensures Rwx(AllPart(OwnGrpLast(OwnGrpTally(mode, isdir)))) == mode & 7
    ensures OwnGrpLast(OwnGrpTally(mode, isdir)).special == if mode & 0xe00 != 0 then Specials(mode) else 0
  {
  }

  lemma OwnGrpMeans(mode: Mode, isdir: bool)
    ensures Means(OwnGrpLast(OwnGrpTally(mode, isdir)), mode)
  {
    hide Rwx, SpecialBits, OwnPart, GrpPart, AllPart, OwnGrpLast, OwnGrpTally, Specials;
    OwnGrpOwner(mode, isdir);
    OwnGrpGroup(mode, isdir);
    OwnGrpWorld(mode, isdir);
    SpecialsBack(mode);
  }

  lemma OwnAdminOwner(mode: Mode, isdir: bool)
    ensures Rwx(OwnPart(OwnAdminLast(OwnAdminTally(mode, isdir)))) == (mode >> 6) & 7
  {
  }

  lemma OwnAdminGroup(mode: Mode, isdir: bool)
    ensures Rwx(GrpPart(OwnAdminLast(OwnAdminTally(mode, isdir)))) == (mode >> 3) & 7
  {
  }

  lemma OwnAdminWorld(mode: Mode, isdir: bool)
    ensures Rwx(AllPart(OwnAdminLast(OwnAdminTally(mode, isdir)))) == mode & 7
    ensures OwnAdminLast(OwnAdminTally(mode, isdir)).special == if mode & 0xe00 != 0 then Specials(mode) else 0
  {
  }

  lemma OwnAdminMeans(mode: Mode, isdir: bool)
    ensures Means(OwnAdminLast(OwnAdminTally(mode, isdir)), mode)
  {
    hide Rwx, SpecialBits, OwnPart, GrpPart, AllPart, OwnAdminLast, OwnAdminTally, Specials;
    OwnAdminOwner(mode, isdir);
    OwnAdminGroup(mode, isdir);
    OwnAdminWorld(mode, isdir);
    SpecialsBack(mode);
  }

  // ----- the interpreters on the entries of a mode

  lemma SidFacts(posix: bool)
    ensures WORLD != ADMIN && WORLD != SYSTEM && WORLD != NOBODY && WORLD != CREATOR_OWNER && ADMIN != SYSTEM && ADMIN != NOBODY
    ensures ADMIN != CREATOR_OWNER && SYSTEM != NOBODY && SYSTEM != CREATOR_OWNER && NOBODY != CREATOR_OWNER
    ensures IsWorld(WORLD, posix) && !IsWorld(ADMIN, posix) && !IsWorld(SYSTEM, posix) && !IsWorld(NOBODY, posix)
  {
    assert ADMIN.subs[1] == 544 && [32, 545][1] == 545;
    assert SYSTEM.subs[0] == 18 && [11][0] == 11 && [4][0] == 4 && [0][0] == 0;
  }

  lemma UserFacts(sid: Sid, posix: bool)
    requires IsUserSid(sid)
    ensures sid != WORLD && sid != SYSTEM && sid != NOBODY && sid != CREATOR_OWNER && sid != ADMIN && !IsWorld(sid, posix)
  {
  }

  lemma MaskFacts(mode: Mode, isdir: bool, groupowns: bool)
    ensures Owning(OwnerGrants(mode, isdir)) && !Marked(OwnerGrants(mode, isdir)) && !Owning(OwnerDenials(mode, isdir, groupowns))
    ensures !Owning(GroupGrants(mode, isdir)) && !Marked(GroupGrants(mode, isdir)) && !Owning(GroupDenials(mode, isdir))
    ensures !Owning(WorldGrants(mode, isdir)) && !Marked(WorldGrants(mode, isdir))
    ensures Owning(FULL_RIGHTS) && !Marked(FULL_RIGHTS) && Marked(Specials(mode))
  {
  }

  lemma FlagFacts(isdir: bool)
    ensures !OnlyInherited(Inheritance(isdir)) && !OnlyInherited(NO_PROPAGATE) && OnlyInherited(INHERIT_ONLY | OBJECT_INHERIT)
  {
  }

  lemma OrZero(x: Rights)
    ensures Join(0, x) == x
  {
  }

  // The tally after each entry of a mode, from the tally before it.

  function AfterOwnerDenial(mode: Mode, isdir: bool, usid: Sid, gsid: Sid, posix: bool): Tally {
    var denials := OwnerDenials(mode, isdir, GroupOwns(usid, gsid));
    if !AdminOwns(usid, gsid) && denials != 0 then Step(START, Ace(DENIED, Inheritance(isdir), denials, usid), usid, gsid, posix) else START
  }

  function AfterNoExec(t: Tally, isdir: bool, usid: Sid, gsid: Sid, posix: bool): Tally {
    if isdir then Step(t, Ace(DENIED, INHERIT_ONLY | OBJECT_INHERIT, FILE_EXEC, WORLD), usid, gsid, posix) else t
  }

  function AfterOwner(t: Tally, mode: Mode, isdir: bool, usid: Sid, gsid: Sid, posix: bool): Tally {
    Step(t, Ace(ALLOWED, Inheritance(isdir), OwnerGrants(mode, isdir), usid), usid, gsid, posix)
  }

  function AfterGroupDenial(t: Tally, mode: Mode, isdir: bool, usid: Sid, gsid: Sid, posix: bool): Tally {
    if GroupDiffers(mode) && !AdminOwns(usid, gsid) && usid != gsid && GroupDenials(mode, isdir) != 0
    then Step(t, Ace(DENIED, Inheritance(isdir), GroupDenials(mode, isdir), gsid), usid, gsid, posix) else t
  }

  function AfterGroup(t: Tally, mode: Mode, isdir: bool, usid: Sid, gsid: Sid, posix: bool): Tally {
    if AdminOwns(usid, gsid) || (GroupDiffers(mode) && (usid == gsid || GroupHasMore(mode)))
    then Step(t, Ace(ALLOWED, Inheritance(isdir), GroupGrants(mode, isdir), gsid), usid, gsid, posix) else t
  }

  function AfterWorld(t: Tally, mode: Mode, isdir: bool, usid: Sid, gsid: Sid, posix: bool): Tally {
    Step(t, Ace(ALLOWED, Inheritance(isdir), WorldGrants(mode, isdir), WORLD), usid, gsid, posix)
  }

  function AfterFull(t: Tally, isdir: bool, sid: Sid, usid: Sid, gsid: Sid, posix: bool): Tally {
    Step(t, Ace(ALLOWED, Inheritance(isdir), FULL_RIGHTS, sid), usid, gsid, posix)
  }

  function AfterSpecial(t: Tally, mode: Mode, usid: Sid, gsid: Sid, posix: bool): Tally {
    if mode & 0xe00 != 0 then Step(t, Ace(ALLOWED, NO_PROPAGATE, Specials(mode), NOBODY), usid, gsid, posix) else t
  }

  lemma FoldDenials(mode: Mode, isdir: bool, usid: Sid, gsid: Sid, posix: bool, t: Tally, rest: seq<Ace>)
    ensures Fold(START, OwnerDenial(mode, isdir, usid, gsid) + rest, usid, gsid, posix)
            == Fold(AfterOwnerDenial(mode, isdir, usid, gsid, posix), rest, usid, gsid, posix)
    ensures Fold(t, GroupDenial(mode, isdir, usid, gsid) + rest, usid, gsid, posix)
            == Fold(AfterGroupDenial(t, mode, isdir, usid, gsid, posix), rest, usid, gsid, posix)
    ensures Fold(t, NoExecForFiles(isdir) + rest, usid, gsid, posix) == Fold(AfterNoExec(t, isdir, usid, gsid, posix), rest, usid, gsid, posix)
  {
    hide Step, OwnerDenials, GroupDenials, GroupDiffers, Inheritance, AdminOwns, GroupOwns, Fold, Opt;
    var denials := OwnerDenials(mode, isdir, GroupOwns(usid, gsid));
    FoldOpt(START, !AdminOwns(usid, gsid) && denials != 0, Ace(DENIED, Inheritance(isdir), denials, usid), rest, usid, gsid, posix);
    FoldOpt(t, isdir, Ace(DENIED, INHERIT_ONLY | OBJECT_INHERIT, FILE_EXEC, WORLD), rest, usid, gsid, posix);
    FoldOpt(t, GroupDiffers(mode) && !AdminOwns(usid, gsid) && usid != gsid && GroupDenials(mode, isdir) != 0,
            Ace(DENIED, Inheritance(isdir), GroupDenials(mode, isdir), gsid), rest, usid, gsid, posix);
  }

  lemma FoldGrants(mode: Mode, isdir: bool, usid: Sid, gsid: Sid, posix: bool, t: Tally, rest: seq<Ace>)
    ensures Fold(t, [Ace(ALLOWED, Inheritance(isdir), OwnerGrants(mode, isdir), usid)] + rest, usid, gsid, posix)
            == Fold(AfterOwner(t, mode, isdir, usid, gsid, posix), rest, usid, gsid, posix)
    ensures Fold(t, GroupGrant(mode, isdir, usid, gsid) + rest, usid, gsid, posix)
            == Fold(AfterGroup(t, mode, isdir, usid, gsid, posix), rest, usid, gsid, posix)
    ensures Fold(t, [Ace(ALLOWED, Inheritance(isdir), WorldGrants(mode, isdir), WORLD)] + rest, usid, gsid, posix)
            == Fold(AfterWorld(t, mode, isdir, usid, gsid, posix), rest, usid, gsid, posix)
  {
    hide Step, OwnerGrants, GroupGrants, WorldGrants, GroupDiffers, GroupHasMore, Inheritance, AdminOwns, Fold, Opt;
    FoldOne(t, Ace(ALLOWED, Inheritance(isdir), OwnerGrants(mode, isdir), usid), rest, usid, gsid, posix);
    FoldOpt(t, AdminOwns(usid, gsid) || (GroupDiffers(mode) && (usid == gsid || GroupHasMore(mode))),
            Ace(ALLOWED, Inheritance(isdir), GroupGrants(mode, isdir), gsid), rest, usid, gsid, posix);
    FoldOne(t, Ace(ALLOWED, Inheritance(isdir), WorldGrants(mode, isdir), WORLD), rest, usid, gsid, posix);
  }

  lemma FoldLast(mode: Mode, isdir: bool, sid: Sid, usid: Sid, gsid: Sid, posix: bool, t: Tally, rest: seq<Ace>)
    ensures Fold(t, [Ace(ALLOWED, Inheritance(isdir), FULL_RIGHTS, sid)] + rest, usid, gsid, posix)
            == Fold(AfterFull(t, isdir, sid, usid, gsid, posix), rest, usid, gsid, posix)
    ensures Fold(t, SpecialGrant(mode), usid, gsid, posix) == AfterSpecial(t, mode, usid, gsid, posix)
  {
    hide Step, Specials, Inheritance, Fold, Opt;
    FoldOne(t, Ace(ALLOWED, Inheritance(isdir), FULL_RIGHTS, sid), rest, usid, gsid, posix);
    assert SpecialGrant(mode) == SpecialGrant(mode) + [];
    FoldOpt(t, mode & 0xe00 != 0, Ace(ALLOWED, NO_PROPAGATE, Specials(mode), NOBODY), [], usid, gsid, posix);
    FoldNone(AfterSpecial(t, mode, usid, gsid, posix), usid, gsid, posix);
  }

  /** The fold over the entries of a mode, entry by entry. */
  lemma FoldAces(mode: Mode, isdir: bool, usid: Sid, gsid: Sid, posix: bool, t1: Tally, t2: Tally, t3: Tally, t4: Tally, t5: Tally, t6: Tally, t7: Tally, t8: Tally)
    requires t1 == AfterOwnerDenial(mode, isdir, usid, gsid, posix) && t2 == AfterNoExec(t1, isdir, usid, gsid, posix)
    requires t3 == AfterOwner(t2, mode, isdir, usid, gsid, posix) && t4 == AfterGroupDenial(t3, mode, isdir, usid, gsid, posix)
    requires t5 == AfterGroup(t4, mode, isdir, usid, gsid, posix) && t6 == AfterWorld(t5, mode, isdir, usid, gsid, posix)
    requires t7 == AfterFull(t6, isdir, ADMIN, usid, gsid, posix) && t8 == AfterFull(t7, isdir, SYSTEM, usid, gsid, posix)
    ensures Fold(START, Aces(mode, isdir, usid, gsid), usid, gsid, posix) == AfterSpecial(t8, mode, usid, gsid, posix)
  {
    hide OwnerGrants, WorldGrants, Inheritance, Fold, AfterOwnerDenial, AfterNoExec, AfterOwner, AfterGroupDenial, AfterGroup, AfterWorld,
      AfterFull, AfterSpecial, OwnerDenial, NoExecForFiles, GroupDenial, GroupGrant, SpecialGrant;
    var f := Inheritance(isdir);
    var r8 := SpecialGrant(mode);
    var r7 := [Ace(ALLOWED, f, FULL_RIGHTS, SYSTEM)] + r8;
    var r6 := [Ace(ALLOWED, f, FULL_RIGHTS, ADMIN)] + r7;
    var r5 := [Ace(ALLOWED, f, WorldGrants(mode, isdir), WORLD)] + r6;
    var r4 := GroupGrant(mode, isdir, usid, gsid) + r5;
    var r3 := GroupDenial(mode, isdir, usid, gsid) + r4;
    var r2 := [Ace(ALLOWED, f, OwnerGrants(mode, isdir), usid)] + r3;
    var r1 := NoExecForFiles(isdir) + r2;
    FoldDenials(mode, isdir, usid, gsid, posix, START, r1);
    FoldDenials(mode, isdir, usid, gsid, posix, t1, r2);
    FoldGrants(mode, isdir, usid, gsid, posix, t2, r3);
    FoldDenials(mode, isdir, usid, gsid, posix, t3, r4);
    FoldGrants(mode, isdir, usid, gsid, posix, t4, r5);
    FoldGrants(mode, isdir, usid, gsid, posix, t5, r6);
    FoldLast(mode, isdir, ADMIN, usid, gsid, posix, t6, r7);
    FoldLast(mode, isdir, SYSTEM, usid, gsid, posix, t7, r8);
    FoldLast(mode, isdir, SYSTEM, usid, gsid, posix, t8, []);
  }

  lemma FoldNone(t: Tally, usid: Sid, gsid: Sid, posix: bool)
    ensures Fold(t, [], usid, gsid, posix) == t
  {
  }

  // What each entry of a mode does to the tally.

  lemma OrdinaryFacts(sid: Sid, posix: bool)
    requires Ordinary(sid)
    ensures sid != WORLD && sid != SYSTEM && sid != NOBODY && sid != CREATOR_OWNER && !IsWorld(sid, posix)
  {
    SidFacts(posix);
    if sid != ADMIN { UserFacts(sid, posix); }
  }

  lemma OnNoExec(t: Tally, isdir: bool, usid: Sid, gsid: Sid, posix: bool)
    ensures AfterNoExec(t, isdir, usid, gsid, posix) == t
  {
  }

  lemma OnOwnerDenial(mode: Mode, isdir: bool, usid: Sid, gsid: Sid, posix: bool)
    requires Ordinary(usid) && Ordinary(gsid)
    ensures var denials := OwnerDenials(mode, isdir, false);
            AfterOwnerDenial(mode, isdir, usid, gsid, posix)
            == if usid == gsid || AdminOwns(usid, gsid) then START else START.(denyOwn := denials, own := denials != 0)
  {
    hide Owning, Marked, OnlyInherited, Join, OwnerDenials, Inheritance;
    OrdinaryFacts(usid, posix);
    FlagFacts(isdir);
    MaskFacts(mode, isdir, true);
    OrZero(OwnerDenials(mode, isdir, false));
  }

  lemma OnOwner(t: Tally, mode: Mode, isdir: bool, usid: Sid, gsid: Sid, posix: bool)
    requires Ordinary(usid) && Ordinary(gsid) && t.allowOwn == 0 && t.first
    ensures AfterOwner(t, mode, isdir, usid, gsid, posix)
            == t.(allowOwn := OwnerGrants(mode, isdir), own := true, first := !AdminOwns(usid, gsid))
  {
    hide Owning, Marked, OnlyInherited, Join, OwnerGrants, Inheritance, IsWorld;
    FlagFacts(isdir);
    MaskFacts(mode, isdir, true);
    OrZero(OwnerGrants(mode, isdir));
  }

  function GroupDenied(t: Tally, mode: Mode, isdir: bool, usid: Sid, gsid: Sid): Tally {
    if usid == gsid || AdminOwns(usid, gsid) then t else t.(denyGrp := if GroupDiffers(mode) then GroupDenials(mode, isdir) else 0)
  }

  function GroupAllowed(t: Tally, mode: Mode, isdir: bool, usid: Sid, gsid: Sid): Tally {
    var given := AdminOwns(usid, gsid) || (GroupDiffers(mode) && (usid == gsid || GroupHasMore(mode)));
    t.(allowGrp := if given then GroupGrants(mode, isdir) else 0, grp := given && (AdminOwns(usid, gsid) || usid == gsid))
  }

  /** An ordinary entry for the group is counted as such. */
  lemma ToGroup(t: Tally, a: Ace, usid: Sid, gsid: Sid, posix: bool)
    requires a.sid == gsid && Ordinary(gsid) && !OnlyInherited(a.flags) && !Owning(a.mask)
    ensures !AdminOwns(usid, gsid) && usid != gsid ==> Step(t, a, usid, gsid, posix) == GroupUncounted(t, a)
    ensures !AdminOwns(usid, gsid) && usid == gsid ==> Step(t, a, usid, gsid, posix) == GrantToGroup(t, a)
    ensures AdminOwns(usid, gsid) && !Marked(a.mask) ==> Step(t, a, usid, gsid, posix) == Past(ForGroup(t, a))
  {
    hide Owning, Marked, OnlyInherited, IsWorld, Ordinary, CREATOR_OWNER,
         ForOwner, ForGroup, ForAll, Special, OwnerCounted, GroupUncounted, OwnerGrant, GrantToGroup, Past;
    OrdinaryFacts(gsid, posix);
  }

  lemma DenialTally(t: Tally, a: Ace)
    requires a.kind == DENIED && t.denyGrp == 0
    ensures GroupUncounted(t, a) == t.(denyGrp := a.mask)
  {
    hide Join;
    OrZero(a.mask);
  }

  lemma GrantTally(t: Tally, a: Ace)
    requires a.kind == ALLOWED && t.allowGrp == 0 && !t.grp
    ensures GroupUncounted(t, a) == t.(allowGrp := a.mask)
    ensures GrantToGroup(t, a) == t.(allowGrp := a.mask, grp := true)
    ensures !t.first ==> Past(ForGroup(t, a)) == t.(allowGrp := a.mask, grp := true)
  {
    hide Join;
    OrZero(a.mask);
  }

  lemma OnGroupDenial(t: Tally, mode: Mode, isdir: bool, usid: Sid, gsid: Sid, posix: bool)
    requires Ordinary(usid) && Ordinary(gsid) && t.denyGrp == 0
    ensures AfterGroupDenial(t, mode, isdir, usid, gsid, posix) == GroupDenied(t, mode, isdir, usid, gsid)
  {
    hide Owning, Marked, OnlyInherited, GroupDenials, GroupDiffers, Inheritance, AdminOwns, Step, Ordinary, GroupUncounted, GrantToGroup, ForGroup, Past;
    FlagFacts(isdir);
    MaskFacts(mode, isdir, true);
    var a := Ace(DENIED, Inheritance(isdir), GroupDenials(mode, isdir), gsid);
    ToGroup(t, a, usid, gsid, posix);
    DenialTally(t, a);
  }

  /** A grant to the group adds to what the group is allowed. */
  lemma OnGroup(t: Tally, mode: Mode, isdir: bool, usid: Sid, gsid: Sid, posix: bool)
    requires Ordinary(usid) && Ordinary(gsid) && t.allowGrp == 0 && !t.grp && (AdminOwns(usid, gsid) ==> !t.first)
    ensures AfterGroup(t, mode, isdir, usid, gsid, posix) == GroupAllowed(t, mode, isdir, usid, gsid)
  {
    hide Owning, Marked, OnlyInherited, GroupGrants, GroupDiffers, GroupHasMore, Inheritance, AdminOwns, Step, Ordinary, GroupUncounted, GrantToGroup, ForGroup, Past;
    FlagFacts(isdir);
    MaskFacts(mode, isdir, true);
    var a := Ace(ALLOWED, Inheritance(isdir), GroupGrants(mode, isdir), gsid);
    ToGroup(t, a, usid, gsid, posix);
    GrantTally(t, a);
  }

  lemma OnWorld(t: Tally, mode: Mode, isdir: bool, usid: Sid, gsid: Sid, posix: bool)
    requires Ordinary(usid) && Ordinary(gsid) && t.allowAll == 0 && (AdminOwns(usid, gsid) ==> !t.first)
    ensures AfterWorld(t, mode, isdir, usid, gsid, posix) == t.(allowAll := WorldGrants(mode, isdir))
  {
    hide Owning, Marked, OnlyInherited, Join, WorldGrants, Inheritance, IsWorld;
    SidFacts(posix);
    OrdinaryFacts(usid, posix);
    OrdinaryFacts(gsid, posix);
    FlagFacts(isdir);
    MaskFacts(mode, isdir, true);
    OrZero(WorldGrants(mode, isdir));
  }

  lemma OnFull(t: Tally, isdir: bool, sid: Sid, usid: Sid, gsid: Sid, posix: bool)
    requires Ordinary(usid) && Ordinary(gsid) && (AdminOwns(usid, gsid) ==> !t.first) && (sid == SYSTEM || sid == ADMIN)
    ensures AfterFull(t, isdir, sid, usid, gsid, posix) == t
  {
    hide Owning, Marked, OnlyInherited, Join, Inheritance, IsWorld;
    SidFacts(posix);
    OrdinaryFacts(usid, posix);
    OrdinaryFacts(gsid, posix);
    FlagFacts(isdir);
    MaskFacts(0, isdir, true);
  }

  lemma OnSpecial(t: Tally, mode: Mode, usid: Sid, gsid: Sid, posix: bool)
    requires Ordinary(usid) && Ordinary(gsid) && t.special == 0
    ensures AfterSpecial(t, mode, usid, gsid, posix) == t.(special := if mode & 0xe00 != 0 then Specials(mode) else 0)
  {
    hide Owning, Marked, OnlyInherited, Join, Specials, IsWorld;
    SidFacts(posix);
    OrdinaryFacts(usid, posix);
    OrdinaryFacts(gsid, posix);
    FlagFacts(true);
    MaskFacts(mode, true, true);
    OrZero(Specials(mode));
  }

  /** What all the entries of a mode add up to. */
  function TallyOf(mode: Mode, isdir: bool, usid: Sid, gsid: Sid): Tally {
    if AdminOwns(usid, gsid) then OwnAdminTally(mode, isdir) else if usid == gsid then OwnGrpTally(mode, isdir) else StdTally(mode, isdir)
  }

  function GeneralTally(mode: Mode, isdir: bool, usid: Sid, gsid: Sid): Tally {
    var admin, both := AdminOwns(usid, gsid), usid == gsid || AdminOwns(usid, gsid);
    var given := admin || (GroupDiffers(mode) && (usid == gsid || GroupHasMore(mode)));
    Tally(OwnerGrants(mode, isdir), if given then GroupGrants(mode, isdir) else 0, WorldGrants(mode, isdir),
          if both then 0 else OwnerDenials(mode, isdir, false), if both || !GroupDiffers(mode) then 0 else GroupDenials(mode, isdir), 0,
          if mode & 0xe00 != 0 then Specials(mode) else 0, true, given && both, !admin)
  }

  /** The tally once the owner has been dealt with. */
  function OwnerTally(mode: Mode, isdir: bool, usid: Sid, gsid: Sid): Tally {
    var both := usid == gsid || AdminOwns(usid, gsid);
    Tally(OwnerGrants(mode, isdir), 0, 0, if both then 0 else OwnerDenials(mode, isdir, false), 0, 0, 0, true, false, !AdminOwns(usid, gsid))
  }

  lemma OwnerSteps(mode: Mode, isdir: bool, usid: Sid, gsid: Sid, posix: bool)
    requires Ordinary(usid) && Ordinary(gsid)
    ensures var t1 := AfterOwnerDenial(mode, isdir, usid, gsid, posix);
            AfterNoExec(t1, isdir, usid, gsid, posix) == t1
            && AfterOwner(t1, mode, isdir, usid, gsid, posix) == OwnerTally(mode, isdir, usid, gsid)
  {
    hide AfterOwnerDenial, AfterNoExec, AfterOwner, OwnerGrants, OwnerDenials, Ordinary;
    var t1 := AfterOwnerDenial(mode, isdir, usid, gsid, posix);
    OnOwnerDenial(mode, isdir, usid, gsid, posix);
    OnNoExec(t1, isdir, usid, gsid, posix);
    OnOwner(t1, mode, isdir, usid, gsid, posix);
  }

  /** The tally once the group has been dealt with. */
  function GroupTally(mode: Mode, isdir: bool, usid: Sid, gsid: Sid): Tally {
    GroupAllowed(GroupDenied(OwnerTally(mode, isdir, usid, gsid), mode, isdir, usid, gsid), mode, isdir, usid, gsid)
  }

  lemma GroupSteps(t: Tally, mode: Mode, isdir: bool, usid: Sid, gsid: Sid, posix: bool, t4: Tally)
    requires Ordinary(usid) && Ordinary(gsid) && t == OwnerTally(mode, isdir, usid, gsid)
    requires t4 == AfterGroupDenial(t, mode, isdir, usid, gsid, posix)
    ensures AfterGroup(t4, mode, isdir, usid, gsid, posix) == GroupTally(mode, isdir, usid, gsid)
  {
    hide AfterGroupDenial, AfterGroup, OwnerTally, GroupDenied, GroupAllowed, Ordinary, AdminOwns;
    OwnerTallyFacts(mode, isdir, usid, gsid);
    OnGroupDenial(t, mode, isdir, usid, gsid, posix);
    OnGroup(t4, mode, isdir, usid, gsid, posix);
  }

  lemma OwnerTallyFacts(mode: Mode, isdir: bool, usid: Sid, gsid: Sid)
    ensures OwnerTally(mode, isdir, usid, gsid).denyGrp == 0
    ensures var t := GroupDenied(OwnerTally(mode, isdir, usid, gsid), mode, isdir, usid, gsid);
            t.allowGrp == 0 && !t.grp && (AdminOwns(usid, gsid) ==> !t.first)
  {
    hide OwnerGrants, OwnerDenials, GroupDenials, GroupDiffers;
  }

  lemma WorldSteps(t: Tally, mode: Mode, isdir: bool, usid: Sid, gsid: Sid, posix: bool, t6: Tally)
    requires Ordinary(usid) && Ordinary(gsid) && t.allowAll == 0 && t.special == 0 && (AdminOwns(usid, gsid) ==> !t.first)
    requires t6 == AfterWorld(t, mode, isdir, usid, gsid, posix)
    ensures t6 == AfterFull(t6, isdir, ADMIN, usid, gsid, posix) == AfterFull(t6, isdir, SYSTEM, usid, gsid, posix)
    ensures AfterSpecial(t6, mode, usid, gsid, posix)
            == t.(allowAll := WorldGrants(mode, isdir), special := if mode & 0xe00 != 0 then Specials(mode) else 0)
  {
    hide AfterWorld, AfterFull, AfterSpecial, WorldGrants, Specials, Ordinary;
    OnWorld(t, mode, isdir, usid, gsid, posix);
    OnFull(t6, isdir, ADMIN, usid, gsid, posix);
    OnFull(t6, isdir, SYSTEM, usid, gsid, posix);
    OnSpecial(t6, mode, usid, gsid, posix);
  }

  lemma FoldSteps(mode: Mode, isdir: bool, usid: Sid, gsid: Sid, posix: bool)
    requires Ordinary(usid) && Ordinary(gsid)
    ensures Fold(START, Aces(mode, isdir, usid, gsid), usid, gsid, posix) == GeneralTally(mode, isdir, usid, gsid)
  {
    hide Fold, Aces, AfterOwnerDenial, AfterNoExec, AfterOwner, AfterGroupDenial, AfterGroup, AfterWorld, AfterFull, AfterSpecial,
      OwnerTally, GroupTally, GeneralTally, Ordinary;
    var t1, t3 := AfterOwnerDenial(mode, isdir, usid, gsid, posix), OwnerTally(mode, isdir, usid, gsid);
    OwnerSteps(mode, isdir, usid, gsid, posix);
    var t4, t5 := AfterGroupDenial(t3, mode, isdir, usid, gsid, posix), GroupTally(mode, isdir, usid, gsid);
    GroupSteps(t3, mode, isdir, usid, gsid, posix, t4);
    GroupTallyFacts(mode, isdir, usid, gsid);
    var t6 := AfterWorld(t5, mode, isdir, usid, gsid, posix);
    WorldSteps(t5, mode, isdir, usid, gsid, posix, t6);
    FoldAces(mode, isdir, usid, gsid, posix, t1, t1, t3, t4, t5, t6, t6, t6);
  }

  lemma GroupTallyFacts(mode: Mode, isdir: bool, usid: Sid, gsid: Sid)
    ensures var t := GroupTally(mode, isdir, usid, gsid);
            && t.allowAll == 0 && t.special == 0 && (AdminOwns(usid, gsid) ==> !t.first)
            && t.(allowAll := WorldGrants(mode, isdir), special := if mode & 0xe00 != 0 then Specials(mode) else 0)
               == GeneralTally(mode, isdir, usid, gsid)
  {
    hide OwnerGrants, OwnerDenials, GroupGrants, GroupDenials, WorldGrants, Specials, GroupDiffers, GroupHasMore;
  }

  /** The general tally is that of the case at hand. */
  lemma FoldTally(mode: Mode, isdir: bool, usid: Sid, gsid: Sid, posix: bool)
    requires Ordinary(usid) && Ordinary(gsid)
    ensures Fold(START, Aces(mode, isdir, usid, gsid), usid, gsid, posix) == TallyOf(mode, isdir, usid, gsid)
  {
    hide Fold, Aces, OwnerGrants, OwnerDenials, GroupGrants, GroupDenials, WorldGrants, Specials, GroupDiffers, GroupHasMore, Ordinary;
    FoldSteps(mode, isdir, usid, gsid, posix);
  }

  /** Every 12-bit mode is read back from the entries that stand for it. */
  lemma ModeRoundTrip(mode: Mode, isdir: bool, usid: Sid, gsid: Sid, posix: bool)
    requires mode < 0x1000 && Ordinary(usid) && Ordinary(gsid)
    ensures Permissions(Aces(mode, isdir, usid, gsid), usid, gsid, posix) == mode
  {
    hide Fold, Aces, StdTally, OwnGrpTally, OwnAdminTally, StdLast, OwnGrpLast, OwnAdminLast, Finished, Means;
    FoldTally(mode, isdir, usid, gsid, posix);
    if AdminOwns(usid, gsid) {
      OwnAdminMeans(mode, isdir);
      FinishedMeans(OwnAdminLast(OwnAdminTally(mode, isdir)), mode);
    } else if usid == gsid {
      OwnGrpMeans(mode, isdir);
      FinishedMeans(OwnGrpLast(OwnGrpTally(mode, isdir)), mode);
    } else {
      StdMeans(mode, isdir);
      FinishedMeans(StdLast(StdTally(mode, isdir)), mode);
    }
  }
}
