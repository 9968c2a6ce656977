/** What the mode of an ordered list of POSIX ACL entries says of each class of users. */
module PosixClasses {
  import opened PosixList
  import opened PosixDesc

  const OWNER_PART: Mode := 0x1c0
  const GROUP_PART: Mode := 0x38
  const OTHER_PART: Mode := 0x7

  function Cut(m: Mode, part: Mode): Mode {
    m & part
  }

  function ForOwner(perms: bv16): Mode {
    perms << 6
  }

  function ForGroup(perms: bv16): Mode {
    perms << 3
  }

  // ----- one step of the mode

  lemma OwnerSet(m: Mode, p: bv16)
    requires p < 8
    ensures Cut(m, OWNER_PART) == 0 ==> Cut(SetOwner(m, p), OWNER_PART) == ForOwner(p)
    ensures Cut(SetOwner(m, p), GROUP_PART) == Cut(m, GROUP_PART)
    ensures Cut(SetOwner(m, p), OTHER_PART) == Cut(m, OTHER_PART)
  {
  }

  lemma GroupSet(m: Mode, p: bv16)
    requires p < 8
    ensures Cut(SetGroup(m, p), OWNER_PART) == Cut(m, OWNER_PART)
    ensures Cut(SetGroup(m, p), GROUP_PART) == ForGroup(p)
    ensures Cut(SetGroup(m, p), OTHER_PART) == Cut(m, OTHER_PART)
  {
  }

  lemma OtherSet(m: Mode, p: bv16)
    requires p < 8
    ensures Cut(SetOther(m, p), OWNER_PART) == Cut(m, OWNER_PART)
    ensures Cut(SetOther(m, p), GROUP_PART) == Cut(m, GROUP_PART)
    ensures Cut(m, OTHER_PART) == 0 ==> Cut(SetOther(m, p), OTHER_PART) == p
  {
  }

  lemma StepParts(m: Mode, a: PosixAce)
    requires Fine(a)
    ensures a.tag != USER_OBJ ==> Cut(ModeStep(m, a.tag, a.perms), OWNER_PART) == Cut(m, OWNER_PART)
    ensures a.tag == USER_OBJ && Cut(m, OWNER_PART) == 0 ==> Cut(ModeStep(m, a.tag, a.perms), OWNER_PART) == ForOwner(a.perms)
    ensures a.tag != OTHER ==> Cut(ModeStep(m, a.tag, a.perms), OTHER_PART) == Cut(m, OTHER_PART)
    ensures a.tag == OTHER && Cut(m, OTHER_PART) == 0 ==> Cut(ModeStep(m, a.tag, a.perms), OTHER_PART) == a.perms
    ensures Cut(ModeStep(m, a.tag, a.perms), GROUP_PART) == if a.tag == GROUP_OBJ || a.tag == MASK then ForGroup(a.perms) else Cut(m, GROUP_PART)
  {
    hide Cut, SetOwner, SetGroup, SetOther, ForOwner, ForGroup, OWNER_PART, GROUP_PART, OTHER_PART;
    OwnerSet(m, a.perms);
    GroupSet(m, a.perms);
    OtherSet(m, a.perms);
  }

  // ----- the mode of a list

  /** In an ordered list a standard tag stands once. */
  lemma Once(s: seq<PosixAce>, i: nat, j: nat)
    requires ListOk(s) && i < |s| && j < |s| && s[i].tag == s[j].tag && s[i].tag != USER && s[i].tag != GROUP
    ensures i == j
  {
    assert Fine(s[i]) && Fine(s[j]) && s[i].id == s[j].id;
    assert !Before(s[i], s[j]) && !Before(s[j], s[i]);
  }

  lemma ModeLast(s: seq<PosixAce>, n: nat)
    requires 0 < n <= |s| && ListOk(s)
    ensures ModeOf(s[..n]) == ModeStep(ModeOf(s[..n - 1]), s[n - 1].tag, s[n - 1].perms) && Fine(s[n - 1])
  {
    hide ModeStep, Fine;
    assert s[..n][..n - 1] == s[..n - 1];
  }

  lemma NoMode(s: seq<PosixAce>)
    ensures ModeOf(s[..0]) == 0 && Cut(0, OWNER_PART) == Cut(0, GROUP_PART) == Cut(0, OTHER_PART) == 0
  {
    assert s[..0] == [];
  }

  lemma {:induction false} OwnerReads(s: seq<PosixAce>, n: nat, i: nat)
    requires ListOk(s) && n <= |s| && i < |s| && s[i].tag == USER_OBJ
    ensures Cut(ModeOf(s[..n]), OWNER_PART) == if i < n then ForOwner(s[i].perms) else 0
  {
    hide ListOk, Cut, ForOwner, ModeOf, ModeStep, Fine, OWNER_PART, GROUP_PART, OTHER_PART;
    NoMode(s);
    if n > 0 {
      OwnerReads(s, n - 1, i);
      ModeLast(s, n);
      StepParts(ModeOf(s[..n - 1]), s[n - 1]);
      if s[n - 1].tag == USER_OBJ { Once(s, i, n - 1); }
    }
  }

  lemma {:induction false} OtherReads(s: seq<PosixAce>, n: nat, i: nat)
    requires ListOk(s) && n <= |s| && i < |s| && s[i].tag == OTHER
    ensures Cut(ModeOf(s[..n]), OTHER_PART) == if i < n then s[i].perms else 0
  {
    hide ListOk, Cut, ForOwner, ModeOf, ModeStep, Fine, OWNER_PART, GROUP_PART, OTHER_PART;
    NoMode(s);
    if n > 0 {
      OtherReads(s, n - 1, i);
      ModeLast(s, n);
      StepParts(ModeOf(s[..n - 1]), s[n - 1]);
      if s[n - 1].tag == OTHER { Once(s, i, n - 1); }
    }
  }

  /** The entry that the group bits are taken from: the mask, or the group's own entry if there is no mask. */
  ghost predicate Limits(s: seq<PosixAce>, a: PosixAce) {
    a.tag == MASK || (a.tag == GROUP_OBJ && !HasTag(s, MASK))
  }

  lemma LimitsLast(s: seq<PosixAce>, i: nat, j: nat)
    requires ListOk(s) && i < j < |s| && Limits(s, s[i])
    ensures s[j].tag != GROUP_OBJ && s[j].tag != MASK
  {
    assert Before(s[i], s[j]) && Fine(s[i]) && Fine(s[j]);
  }

  lemma {:induction false} GroupReads(s: seq<PosixAce>, n: nat, i: nat)
    requires ListOk(s) && i < n <= |s| && Limits(s, s[i])
    ensures Cut(ModeOf(s[..n]), GROUP_PART) == ForGroup(s[i].perms)
  {
    hide ListOk, Cut, ForGroup, ModeOf, ModeStep, Fine, HasTag, OWNER_PART, GROUP_PART, OTHER_PART;
    ModeLast(s, n);
    StepParts(ModeOf(s[..n - 1]), s[n - 1]);
    if i < n - 1 {
      GroupReads(s, n - 1, i);
      LimitsLast(s, i, n - 1);
    }
  }

  /** The mode of an ordered list has for each class the permissions of its entry, the mask standing for the group. */
  lemma ModeTells(s: seq<PosixAce>, a: PosixAce)
    requires ListOk(s) && a in s
    ensures a.tag == USER_OBJ ==> Cut(ModeOf(s), OWNER_PART) == ForOwner(a.perms)
    ensures Limits(s, a) ==> Cut(ModeOf(s), GROUP_PART) == ForGroup(a.perms)
    ensures a.tag == OTHER ==> Cut(ModeOf(s), OTHER_PART) == a.perms
  {
    hide ListOk, Cut, ForOwner, ForGroup, ModeOf, HasTag, OWNER_PART, GROUP_PART, OTHER_PART;
    var i :| 0 <= i < |s| && s[i] == a;
    assert s[..|s|] == s;
    if a.tag == USER_OBJ { OwnerReads(s, |s|, i); }
    if Limits(s, a) { GroupReads(s, |s|, i); }
    if a.tag == OTHER { OtherReads(s, |s|, i); }
  }
}
