/**
 The POSIX ACL that a new file or directory gets: the default entries of the parent cut down
 to the creation mode, standard entries that are missing taken from the mode and the umask.
 */
module PosixInherit {
  import opened Sequences
  import opened PosixList
  import opened PosixDesc
  import opened PosixClasses

  // ----- posix_header

  /** The set-id and sticky bits. */
  function Upper(mode: Mode): Mode {
    mode & 0xe00
  }

  function Join(a: Mode, b: Mode): Mode {
    a | b
  }

  predicate Small(m: Mode) {
    m < 0x200
  }

  function HeaderOf(s: seq<PosixAce>, base: Mode): Mode {
    if s == [] then Upper(base) else ModeStep(HeaderOf(s[..|s| - 1], base), s[|s| - 1].tag, s[|s| - 1].perms & 7)
  }

  lemma OwnerStep(b: Mode, m: Mode, p: bv16)
    requires p < 8 && Small(m)
    ensures SetOwner(Join(Upper(b), m), p & 7) == Join(Upper(b), SetOwner(m, p)) && Small(SetOwner(m, p))
  {
  }

  lemma GroupStep(b: Mode, m: Mode, p: bv16)
    requires p < 8 && Small(m)
    ensures SetGroup(Join(Upper(b), m), p & 7) == Join(Upper(b), SetGroup(m, p)) && Small(SetGroup(m, p))
  {
  }

  lemma OtherStep(b: Mode, m: Mode, p: bv16)
    requires p < 8 && Small(m)
    ensures SetOther(Join(Upper(b), m), p & 7) == Join(Upper(b), SetOther(m, p)) && Small(SetOther(m, p))
  {
  }

  lemma HeaderStep(b: Mode, m: Mode, tag: nat, p: bv16)
    requires p < 8 && Small(m)
    ensures Small(ModeStep(m, tag, p)) && ModeStep(Join(Upper(b), m), tag, p & 7) == Join(Upper(b), ModeStep(m, tag, p))
  {
    hide Join, Upper, Small, SetOwner, SetGroup, SetOther;
    if tag == USER_OBJ {
      OwnerStep(b, m, p);
    } else if tag == GROUP_OBJ || tag == MASK {
      GroupStep(b, m, p);
    } else if tag == OTHER {
      OtherStep(b, m, p);
    }
  }

  /** The special bits of the base mode, and the mode of the entries. */
  lemma {:induction false} HeaderIs(s: seq<PosixAce>, base: Mode)
    requires forall i | 0 <= i < |s| :: Fine(s[i])
    ensures Small(ModeOf(s)) && HeaderOf(s, base) == Join(Upper(base), ModeOf(s))
  {
    hide ModeStep, Join, Upper, Small;
    if s == [] {
      BaseBits(base);
    } else {
      HeaderIs(s[..|s| - 1], base);
      assert Fine(s[|s| - 1]);
      HeaderStep(base, ModeOf(s[..|s| - 1]), s[|s| - 1].tag, s[|s| - 1].perms);
    }
  }

  lemma BaseBits(base: Mode)
    ensures Small(0) && Join(Upper(base), 0) == Upper(base)
  {
  }

  lemma HeaderAgrees(mode: Mode, base: Mode, tags: bv16)
    requires Small(mode)
    ensures ModeAgrees(Join(Upper(base), mode), tags, mode)
  {
  }

  method PosixHeader(ace: seq<PosixAce>, base: Mode) returns (mode: Mode, tagsset: bv16)
    ensures mode == HeaderOf(ace, base) && tagsset == TagsOf(ace)
  {
    hide ModeStep, AddTag, Upper;
    mode, tagsset := Upper(base), 0;
    var i := 0;
    while i < |ace|
      invariant 0 <= i <= |ace| && mode == HeaderOf(ace[..i], base) && tagsset == TagsOf(ace[..i])
    {
      assert ace[..i + 1][..i] == ace[..i];
      tagsset := AddTag(tagsset, ace[i].tag);
      mode := ModeStep(mode, ace[i].tag, ace[i].perms & 7);
      i := i + 1;
    }
    assert ace[..|ace|] == ace;
  }

  // ----- entries cut down to a mode

  function Adapt(a: PosixAce, mode: Mode, masked: bool): PosixAce {
    if a.tag == USER_OBJ then a.(perms := a.perms & ((mode >> 6) & 7))
    else if a.tag == GROUP_OBJ then (if masked then a else a.(perms := a.perms & ((mode >> 3) & 7)))
    else if a.tag == OTHER then a.(perms := a.perms & (mode & 7))
    else if a.tag == MASK then a.(perms := a.perms & ((mode >> 3) & 7))
    else a
  }

  /** Every bit of `p` is a bit of `m`. */
  predicate Sub(p: bv16, m: bv16) {
    p & !m == 0
  }

  /** An entry that grants nothing that the mode does not; the group's own entry may if a mask limits it. */
  predicate Within(a: PosixAce, mode: Mode, masked: bool) {
    && (a.tag == USER_OBJ ==> Sub(a.perms, (mode >> 6) & 7))
    && (a.tag == OTHER ==> Sub(a.perms, mode & 7))
    && (a.tag == MASK || (a.tag == GROUP_OBJ && !masked) ==> Sub(a.perms, (mode >> 3) & 7))
  }

  lemma AdaptFacts(a: PosixAce, mode: Mode, masked: bool)
    requires Fine(a)
    ensures var b := Adapt(a, mode, masked); Fine(b) && b.tag == a.tag && b.id == a.id && Within(b, mode, masked)
  {
    AndBits(a.perms, (mode >> 6) & 7);
    AndBits(a.perms, (mode >> 3) & 7);
    AndBits(a.perms, mode & 7);
  }

  lemma AndBits(p: bv16, m: bv16)
    ensures Sub(p & m, m) && (p < 8 ==> p & m < 8)
  {
  }

  /** The standard entry for a tag. */
  function Standard(tag: nat, perms: bv16): PosixAce {
    PosixAce(tag, perms, NO_ID)
  }

  function OwnerPerms(mode: Mode, mask: Mode): bv16 {
    ((mode & !mask) >> 6) & 7
  }

  function GroupPerms(mode: Mode, mask: Mode): bv16 {
    ((mode & !mask) >> 3) & 7
  }

  function OtherPerms(mode: Mode, mask: Mode): bv16 {
    mode & !mask & 7
  }

  lemma StandardFacts(mode: Mode, mask: Mode)
    ensures Fine(Standard(USER_OBJ, OwnerPerms(mode, mask))) && Within(Standard(USER_OBJ, OwnerPerms(mode, mask)), mode, false)
    ensures Fine(Standard(GROUP_OBJ, GroupPerms(mode, mask))) && Within(Standard(GROUP_OBJ, GroupPerms(mode, mask)), mode, false)
    ensures Fine(Standard(OTHER, OtherPerms(mode, mask))) && Within(Standard(OTHER, OtherPerms(mode, mask)), mode, false)
  {
    hide OwnerPerms, GroupPerms, OtherPerms, Sub;
    StandardBits(mode, mask);
  }

  lemma StandardBits(mode: Mode, mask: Mode)
    ensures OwnerPerms(mode, mask) < 8 && GroupPerms(mode, mask) < 8 && OtherPerms(mode, mask) < 8
    ensures Sub(OwnerPerms(mode, mask), (mode >> 6) & 7) && Sub(GroupPerms(mode, mask), (mode >> 3) & 7) && Sub(OtherPerms(mode, mask), mode & 7)
  {
  }

  // ----- which standard tags a list has

  predicate TagBit(tags: bv16, tag: nat) {
    tags & Bits(tag) != 0
  }

  /** `tags` tells of the four tags that are looked for. */
  ghost predicate Knows(tags: bv16, s: seq<PosixAce>) {
    && (TagBit(tags, USER_OBJ) <==> HasTag(s, USER_OBJ)) && (TagBit(tags, GROUP_OBJ) <==> HasTag(s, GROUP_OBJ))
    && (TagBit(tags, MASK) <==> HasTag(s, MASK)) && (TagBit(tags, OTHER) <==> HasTag(s, OTHER))
  }

  ghost predicate KnownTag(tag: nat) {
    tag == USER_OBJ || tag == USER || tag == GROUP_OBJ || tag == GROUP || tag == MASK || tag == OTHER
  }

  lemma AddTagBit(tags: bv16, tag: nat, t: nat)
    requires KnownTag(tag) && (t == USER_OBJ || t == GROUP_OBJ || t == MASK || t == OTHER)
    ensures TagBit(AddTag(tags, tag), t) <==> TagBit(tags, t) || tag == t
  {
    KnownBits();
    OrBits(tags, Bits(tag), Bits(t));
  }

  lemma KnownBits()
    ensures Bits(USER_OBJ) == 1 && Bits(USER) == 2 && Bits(GROUP_OBJ) == 4 && Bits(GROUP) == 8 && Bits(MASK) == 16 && Bits(OTHER) == 32
  {
  }

  lemma OrBits(x: bv16, b: bv16, t: bv16)
    requires b == 1 || b == 2 || b == 4 || b == 8 || b == 16 || b == 32
    requires t == 1 || t == 4 || t == 16 || t == 32
    ensures ((x | b) & t != 0) <==> x & t != 0 || b == t
  {
  }

  lemma HasTagFront(a: PosixAce, s: seq<PosixAce>, tag: nat)
    ensures HasTag([a] + s, tag) <==> a.tag == tag || HasTag(s, tag)
  {
    var t := [a] + s;
    if a.tag == tag {
      assert t[0].tag == tag;
    } else if HasTag(s, tag) {
      var i :| 0 <= i < |s| && s[i].tag == tag;
      assert t[i + 1].tag == tag;
    }
  }

  lemma KnowsFront(tags: bv16, a: PosixAce, s: seq<PosixAce>)
    requires Knows(tags, s) && KnownTag(a.tag)
    ensures Knows(AddTag(tags, a.tag), [a] + s)
  {
    hide HasTag, TagBit, AddTag;
    HasTagFront(a, s, USER_OBJ);
    HasTagFront(a, s, GROUP_OBJ);
    HasTagFront(a, s, MASK);
    HasTagFront(a, s, OTHER);
    AddTagBit(tags, a.tag, USER_OBJ);
    AddTagBit(tags, a.tag, GROUP_OBJ);
    AddTagBit(tags, a.tag, MASK);
    AddTagBit(tags, a.tag, OTHER);
  }

  lemma KnowsBack(tags: bv16, s: seq<PosixAce>, a: PosixAce)
    requires Knows(tags, s) && KnownTag(a.tag)
    ensures Knows(AddTag(tags, a.tag), s + [a])
  {
    hide HasTag, TagBit, AddTag;
    HasTagPush(s, a, USER_OBJ);
    HasTagPush(s, a, GROUP_OBJ);
    HasTagPush(s, a, MASK);
    HasTagPush(s, a, OTHER);
    AddTagBit(tags, a.tag, USER_OBJ);
    AddTagBit(tags, a.tag, GROUP_OBJ);
    AddTagBit(tags, a.tag, MASK);
    AddTagBit(tags, a.tag, OTHER);
  }

  /** The tags of a list tell which standard entries it has. */
  lemma {:induction false} TagsTell(s: seq<PosixAce>)
    requires forall i | 0 <= i < |s| :: Fine(s[i])
    ensures Knows(TagsOf(s), s)
  {
    hide Knows, Fine, AddTag;
    if s == [] {
      KnowsNone();
    } else {
      var t, last := s[..|s| - 1], s[|s| - 1];
      assert Fine(last) && forall i | 0 <= i < |t| :: t[i] == s[i];
      TagsTell(t);
      FineTag(last);
      KnowsBack(TagsOf(t), t, last);
      assert s == t + [last];
    }
  }

  // ----- the header of an accepted descriptor

  /** The mode has for each class the permissions of its entry, the mask standing for the group. */
  ghost predicate Matches(mode: Mode, s: seq<PosixAce>) {
    forall a | a in s ::
      && (a.tag == USER_OBJ ==> Cut(mode, OWNER_PART) == ForOwner(a.perms))
      && (Limits(s, a) ==> Cut(mode, GROUP_PART) == ForGroup(a.perms))
      && (a.tag == OTHER ==> Cut(mode, OTHER_PART) == a.perms)
  }

  predicate SameParts(x: Mode, y: Mode) {
    Cut(x, OWNER_PART) == Cut(y, OWNER_PART) && Cut(x, GROUP_PART) == Cut(y, GROUP_PART) && Cut(x, OTHER_PART) == Cut(y, OTHER_PART)
  }

  lemma PartsMake(mode: Mode, computed: Mode)
    requires Small(computed)
    ensures computed == mode & 0x1ff <==> SameParts(mode, computed)
  {
  }

  lemma TagsSome(tags: bv16, s: seq<PosixAce>)
    requires Knows(tags, s) && HasTag(s, OTHER)
    ensures tags != 0
  {
    hide HasTag;
    assert TagBit(tags, OTHER);
    NoTagBit();
  }

  lemma NoTagBit()
    ensures !TagBit(0, OTHER)
  {
  }

  lemma MatchesParts(mode: Mode, s: seq<PosixAce>)
    requires ListOk(s) && HasTag(s, USER_OBJ) && HasTag(s, GROUP_OBJ) && HasTag(s, OTHER)
    ensures Matches(mode, s) <==> SameParts(mode, ModeOf(s))
  {
    hide ListOk, Cut, ForOwner, ForGroup, ModeOf, OWNER_PART, GROUP_PART, OTHER_PART;
    forall a | a in s
      ensures a.tag == USER_OBJ ==> Cut(ModeOf(s), OWNER_PART) == ForOwner(a.perms)
      ensures Limits(s, a) ==> Cut(ModeOf(s), GROUP_PART) == ForGroup(a.perms)
      ensures a.tag == OTHER ==> Cut(ModeOf(s), OTHER_PART) == a.perms
    {
      ModeTells(s, a);
    }
    var i :| 0 <= i < |s| && s[i].tag == USER_OBJ;
    var j :| 0 <= j < |s| && s[j].tag == if HasTag(s, MASK) then MASK else GROUP_OBJ;
    var k :| 0 <= k < |s| && s[k].tag == OTHER;
    assert s[i] in s && s[j] in s && s[k] in s && Limits(s, s[j]);
  }

  /** The test of ntfs_valid_posix on the mode passes exactly a null mode and one that says what the entries say. */
  lemma AcceptedMode(mode: Mode, s: seq<PosixAce>)
    requires ListOk(s) && HasTag(s, USER_OBJ) && HasTag(s, GROUP_OBJ) && HasTag(s, OTHER)
    ensures ModeAgrees(mode, TagsOf(s), ModeOf(s)) <==> mode == 0 || Matches(mode, s)
  {
    hide HasTag, Matches, SameParts, Knows, ModeOf, HeaderOf, TagsOf, Small, Join, Upper, Fine;
    ListFine(s);
    TagsTell(s);
    TagsSome(TagsOf(s), s);
    HeaderIs(s, 0);
    PartsMake(mode, ModeOf(s));
    MatchesParts(mode, s);
  }

  // ----- the mode of a list whose entries are within a mode

  ghost predicate AllWithin(s: seq<PosixAce>, mode: Mode, masked: bool) {
    forall i | 0 <= i < |s| :: Within(s[i], mode, masked)
  }

  /** The bits of `m` in `part` are bits of `mode`. */
  predicate Inside(m: Mode, part: Mode, mode: Mode) {
    m & part & !mode == 0
  }

  lemma InsideStep(m: Mode, a: PosixAce, mode: Mode, masked: bool)
    requires Fine(a) && Within(a, mode, masked) && Inside(m, 0x1c7, mode)
    ensures Inside(ModeStep(m, a.tag, a.perms), 0x1c7, mode)
    ensures a.tag == MASK || (a.tag == GROUP_OBJ && !masked) ==> Inside(ModeStep(m, a.tag, a.perms), 0x38, mode)
    ensures a.tag != MASK && a.tag != GROUP_OBJ && Inside(m, 0x38, mode) ==> Inside(ModeStep(m, a.tag, a.perms), 0x38, mode)
  {
    hide Inside, SetOwner, SetGroup, SetOther, Sub;
    if a.tag == USER_OBJ {
      InsideOwner(m, a.perms, mode);
    } else if a.tag == GROUP_OBJ || a.tag == MASK {
      InsideGroup(m, a.perms, mode);
    } else if a.tag == OTHER {
      InsideOther(m, a.perms, mode);
    }
  }

  lemma InsideOwner(m: Mode, p: bv16, mode: Mode)
    requires p < 8 && Inside(m, 0x1c7, mode) && Sub(p, (mode >> 6) & 7)
    ensures Inside(SetOwner(m, p), 0x1c7, mode) && (Inside(m, 0x38, mode) ==> Inside(SetOwner(m, p), 0x38, mode))
  {
  }

  lemma InsideGroup(m: Mode, p: bv16, mode: Mode)
    requires p < 8 && Inside(m, 0x1c7, mode)
    ensures Inside(SetGroup(m, p), 0x1c7, mode)
    ensures Sub(p, (mode >> 3) & 7) ==> Inside(SetGroup(m, p), 0x38, mode)
  {
  }

  lemma InsideOther(m: Mode, p: bv16, mode: Mode)
    requires p < 8 && Inside(m, 0x1c7, mode) && Sub(p, mode & 7)
    ensures Inside(SetOther(m, p), 0x1c7, mode) && (Inside(m, 0x38, mode) ==> Inside(SetOther(m, p), 0x38, mode))
  {
  }

  lemma {:induction false} ModeInside(s: seq<PosixAce>, n: nat, mode: Mode)
    requires n <= |s| && ListOk(s) && AllWithin(s, mode, HasTag(s, MASK))
    ensures Inside(ModeOf(s[..n]), 0x1c7, mode)
    ensures !HasTag(s, MASK) || HasTag(s[..n], MASK) ==> Inside(ModeOf(s[..n]), 0x38, mode)
  {
    hide Inside, ModeStep, Within, Fine, Before, HasTag;
    if n == 0 {
      InsideNone(s, mode);
    } else {
      var a := s[n - 1];
      ModeInside(s, n - 1, mode);
      assert s[..n] == s[..n - 1] + [a] && s[..n][..n - 1] == s[..n - 1];
      HasTagPush(s[..n - 1], a, MASK);
      InsideStep(ModeOf(s[..n - 1]), a, mode, HasTag(s, MASK));
      if HasTag(s[..n - 1], MASK) { AfterMask(s, n - 1); }
    }
  }

  lemma InsideNone(s: seq<PosixAce>, mode: Mode)
    ensures s[..0] == [] && Inside(0, 0x1c7, mode) && Inside(0, 0x38, mode) && ModeOf([]) == 0
  {
  }

  /** After the mask comes only the entry for others. */
  lemma AfterMask(s: seq<PosixAce>, n: nat)
    requires ListOk(s) && n < |s| && HasTag(s[..n], MASK)
    ensures s[n].tag == OTHER
  {
    var i :| 0 <= i < n && s[..n][i].tag == MASK;
    assert Before(s[i], s[n]) && Fine(s[i]) && Fine(s[n]);
  }

  lemma WholeInside(m: Mode, mode: Mode)
    requires Inside(m, 0x1c7, mode) && Inside(m, 0x38, mode) && Small(m)
    ensures Sub(Join(Upper(Upper(mode)), m), mode)
  {
  }

  /** The mode computed from such a list is within the mode. */
  lemma HeaderWithin(s: seq<PosixAce>, mode: Mode)
    requires ListOk(s) && AllWithin(s, mode, HasTag(s, MASK))
    ensures Sub(HeaderOf(s, Upper(mode)), mode)
  {
    hide Sub, Inside, ModeOf, HeaderOf, Within, Fine, HasTag, Join, Upper, Small;
    ModeInside(s, |s|, mode);
    assert s[..|s|] == s;
    HeaderIs(s, Upper(mode));
    WholeInside(ModeOf(s), mode);
  }

  // ----- the entries of the new descriptor

  ghost predicate Adapted(def: seq<PosixAce>, out: seq<PosixAce>, mode: Mode) {
    |out| == |def| && forall i | 0 <= i < |def| :: out[i] == Adapt(def[i], mode, HasTag(def[i + 1..], MASK))
  }

  lemma MaskLater(def: seq<PosixAce>, i: nat)
    requires ListOk(def) && i < |def|
    ensures HasTag(def[i + 1..], MASK) ==> HasTag(def, MASK)
    ensures def[i].tag == GROUP_OBJ && HasTag(def, MASK) ==> HasTag(def[i + 1..], MASK)
  {
    if HasTag(def[i + 1..], MASK) {
      var j :| 0 <= j < |def[i + 1..]| && def[i + 1..][j].tag == MASK;
      assert def[i + 1 + j].tag == MASK;
    }
    if def[i].tag == GROUP_OBJ && HasTag(def, MASK) {
      var j :| 0 <= j < |def| && def[j].tag == MASK;
      MaskBehind(def, i, j);
      assert def[i + 1..][j - i - 1].tag == MASK;
    }
  }

  lemma MaskBehind(def: seq<PosixAce>, i: nat, j: nat)
    requires ListOk(def) && i < |def| && j < |def| && def[i].tag == GROUP_OBJ && def[j].tag == MASK
    ensures i < j
  {
  }

  lemma BeforeKeys(a: PosixAce, b: PosixAce, a': PosixAce, b': PosixAce)
    requires Before(a, b) && a'.tag == a.tag && a'.id == a.id && b'.tag == b.tag && b'.id == b.id
    ensures Before(a', b')
  {
  }

  /** Adapted entries are in order like the default ones, and within the mode. */
  lemma AdaptedList(def: seq<PosixAce>, out: seq<PosixAce>, mode: Mode)
    requires ListOk(def) && Adapted(def, out, mode)
    ensures ListOk(out) && AllWithin(out, mode, HasTag(def, MASK))
    ensures forall t :: HasTag(out, t) <==> HasTag(def, t)
  {
    hide Before, Fine, Within, Adapt, HasTag;
    forall i | 0 <= i < |def|
      ensures Fine(out[i]) && out[i].tag == def[i].tag && out[i].id == def[i].id && Within(out[i], mode, HasTag(def, MASK))
    {
      AdaptFacts(def[i], mode, HasTag(def[i + 1..], MASK));
      MaskLater(def, i);
      WithinMore(out[i], mode, HasTag(def[i + 1..], MASK), HasTag(def, MASK));
    }
    forall i, j | 0 <= i < j < |out|
      ensures Before(out[i], out[j])
    {
      BeforeKeys(def[i], def[j], out[i], out[j]);
    }
    forall t
      ensures HasTag(out, t) <==> HasTag(def, t)
    {
      SameTags(def, out, t);
    }
  }

  lemma WithinMore(a: PosixAce, mode: Mode, m: bool, m': bool)
    requires Within(a, mode, m) && (a.tag == GROUP_OBJ && m ==> m')
    ensures Within(a, mode, m')
  {
    hide Sub;
  }

  lemma SameTags(a: seq<PosixAce>, b: seq<PosixAce>, t: nat)
    requires |a| == |b| && forall i | 0 <= i < |a| :: a[i].tag == b[i].tag
    ensures HasTag(a, t) <==> HasTag(b, t)
  {
  }

  /** The standard entries that a list lacks. */
  ghost function Missing(s: seq<PosixAce>, mode: Mode, mask: Mode): seq<PosixAce> {
    (if HasTag(s, USER_OBJ) then [] else [Standard(USER_OBJ, OwnerPerms(mode, mask))])
    + ((if HasTag(s, GROUP_OBJ) then [] else [Standard(GROUP_OBJ, GroupPerms(mode, mask))])
    + (if HasTag(s, OTHER) then [] else [Standard(OTHER, OtherPerms(mode, mask))]))
  }

  /** Entries in order but perhaps not sorted: each one fine, no key twice. */
  ghost predicate Unsorted(s: seq<PosixAce>) {
    && (forall i | 0 <= i < |s| :: Fine(s[i]))
    && (forall i, j | 0 <= i < j < |s| :: !SameKey(s[i], s[j]))
  }

  lemma UnsortedPush(s: seq<PosixAce>, a: PosixAce)
    requires Unsorted(s) && Fine(a) && !HasTag(s, a.tag)
    ensures Unsorted(s + [a])
  {
    hide Fine;
    forall i | 0 <= i < |s|
      ensures !SameKey(s[i], a)
    {
    }
  }

  lemma ListUnsorted(s: seq<PosixAce>)
    requires ListOk(s)
    ensures Unsorted(s)
  {
    hide Before, SameKey, Fine;
    forall i, j | 0 <= i < j < |s|
      ensures !SameKey(s[i], s[j])
    {
      Asymmetric(s[i], s[j]);
    }
  }

  /** What is known of a list of entries for a new file before it is sorted. */
  ghost predicate Collected(s: seq<PosixAce>, mode: Mode, masked: bool) {
    Unsorted(s) && AllWithin(s, mode, masked) && HasTag(s, MASK) == masked
  }

  lemma CollectedPush(s: seq<PosixAce>, a: PosixAce, mode: Mode, masked: bool)
    requires Collected(s, mode, masked) && Fine(a) && !HasTag(s, a.tag) && Within(a, mode, false) && a.tag != MASK
    ensures Collected(s + [a], mode, masked)
    ensures forall t :: HasTag(s + [a], t) <==> HasTag(s, t) || a.tag == t
  {
    hide Fine, Within, SameKey, HasTag;
    UnsortedPush(s, a);
    WithinMore(a, mode, false, masked);
    HasTagPush(s, a, MASK);
    forall t
      ensures HasTag(s + [a], t) <==> HasTag(s, t) || a.tag == t
    {
      HasTagPush(s, a, t);
    }
  }

  lemma {:induction false} UnsortedOf(s: seq<PosixAce>, k: PosixAce)
    requires Unsorted(s)
    ensures |Of(s, k)| <= 1 && (Of(s, k) != [] ==> exists i | 0 <= i < |s| :: SameKey(s[i], k))
  {
    hide Fine, SameKey;
    if s != [] {
      var t, last := s[..|s| - 1], s[|s| - 1];
      UnsortedOf(t, k);
      if Of(t, k) != [] {
        var i :| 0 <= i < |t| && SameKey(t[i], k);
        assert SameKey(s[i], k);
        KeysDiffer(s[i], last, k);
      } else if Of(s, k) != [] {
        assert SameKey(s[|s| - 1], k);
      }
    }
  }

  lemma KeysDiffer(a: PosixAce, b: PosixAce, k: PosixAce)
    requires !SameKey(a, b)
    ensures !(SameKey(a, k) && SameKey(b, k))
  {
  }

  /** Sorting the collected entries puts them in order. */
  lemma SortedList(s: seq<PosixAce>, t: seq<PosixAce>, mode: Mode, masked: bool)
    requires Collected(s, mode, masked) && StablePermutation(s, t) && Sorted(t)
    ensures ListOk(t) && AllWithin(t, mode, masked) && forall x :: HasTag(t, x) <==> HasTag(s, x)
  {
    hide Fine, Within, SameKey, Before, Of, HasTag;
    forall k
      ensures |Of(t, k)| <= 1
    {
      UnsortedOf(s, k);
      assert Of(s, k) == Of(t, k);
    }
    SortedStrict(t);
    forall i | 0 <= i < |t|
      ensures Fine(t[i]) && Within(t[i], mode, masked)
    {
      StableIn(s, t, t[i]);
      var j :| 0 <= j < |s| && s[j] == t[i];
    }
    forall x
      ensures HasTag(t, x) <==> HasTag(s, x)
    {
      MembersTags(s, t, x);
    }
  }

  lemma MembersTags(s: seq<PosixAce>, t: seq<PosixAce>, x: nat)
    requires StablePermutation(s, t)
    ensures HasTag(t, x) <==> HasTag(s, x)
  {
    hide Of;
    if HasTag(s, x) {
      var i :| 0 <= i < |s| && s[i].tag == x;
      StableIn(s, t, s[i]);
      assert s[i] in t;
    }
    if HasTag(t, x) {
      var i :| 0 <= i < |t| && t[i].tag == x;
      StableIn(s, t, t[i]);
      assert t[i] in s;
    }
  }

  // ----- ntfs_build_inherited_posix

  /** The default entries from the last to the first, cut down to the mode. */
  method AdaptDefaults(py: array<PosixAce>, def: seq<PosixAce>, mode: Mode) returns (tagsset: bv16)
    requires |def| <= py.Length && ListOk(def)
    modifies py
    ensures Adapted(def, py[..|def|], mode) && Knows(tagsset, def)
  {
    hide Adapt, Knows, TagBit, HasTag, AddTag, Fine;
    tagsset := 0;
    KnowsNone();
    var i := |def|;
    assert def[i..] == [];
    while i > 0
      invariant 0 <= i <= |def| && Knows(tagsset, def[i..])
      invariant forall k | i <= k < |def| :: py[k] == Adapt(def[k], mode, HasTag(def[k + 1..], MASK))
      decreases i
    {
      i := i - 1;
      KnowsMask(tagsset, def[i + 1..]);
      py[i] := Adapt(def[i], mode, TagBit(tagsset, MASK));
      FineTag(def[i]);
      KnowsFront(tagsset, def[i], def[i + 1..]);
      assert def[i..] == [def[i]] + def[i + 1..];
      tagsset := AddTag(tagsset, def[i].tag);
    }
    assert def[0..] == def;
  }

  lemma KnowsNone()
    ensures Knows(0, [])
  {
    KnownBits();
  }

  lemma KnowsMask(tags: bv16, s: seq<PosixAce>)
    requires Knows(tags, s)
    ensures TagBit(tags, MASK) <==> HasTag(s, MASK)
  {
  }

  lemma FineTag(a: PosixAce)
    requires Fine(a)
    ensures KnownTag(a.tag)
  {
  }

  /** One standard entry appended if its tag is missing. */
  method AppendStandard(py: array<PosixAce>, n: nat, tagsset: bv16, tag: nat, perms: bv16, mode: Mode, ghost masked: bool)
    returns (n': nat, tagsset': bv16)
    requires n < py.Length && Collected(py[..n], mode, masked) && Knows(tagsset, py[..n])
    requires (tag == USER_OBJ || tag == GROUP_OBJ || tag == OTHER) && Fine(Standard(tag, perms)) && Within(Standard(tag, perms), mode, false)
    modifies py
    ensures n' == (if old(HasTag(py[..n], tag)) then n else n + 1) && Knows(tagsset', py[..n']) && Collected(py[..n'], mode, masked)
    ensures py[..n'] == old(py[..n]) + (if old(HasTag(py[..n], tag)) then [] else [Standard(tag, perms)])
    ensures forall t :: HasTag(py[..n'], t) <==> old(HasTag(py[..n], t)) || t == tag
  {
    hide Collected, TagBit, HasTag, AddTag, Fine, Within, Standard;
    n', tagsset' := n, tagsset;
    if !TagBit(tagsset, tag) {
      ghost var s := py[..n];
      var a := Standard(tag, perms);
      StandardTag(tag, perms);
      py[n] := a;
      assert py[..n + 1] == s + [a];
      CollectedPush(s, a, mode, masked);
      KnowsBack(tagsset, s, a);
      tagsset' := AddTag(tagsset, tag);
      n' := n + 1;
    }
  }

  lemma StandardTag(tag: nat, perms: bv16)
    requires tag == USER_OBJ || tag == GROUP_OBJ || tag == OTHER
    ensures Standard(tag, perms).tag == tag && KnownTag(tag) && tag != MASK
  {
  }

  /** The access entries of the new descriptor, in order, within the mode, and with all standard tags. */
  ghost predicate AccessOk(s: seq<PosixAce>, mode: Mode) {
    && ListOk(s) && AllWithin(s, mode, HasTag(s, MASK))
    && HasTag(s, USER_OBJ) && HasTag(s, GROUP_OBJ) && HasTag(s, OTHER)
  }

  /** The standard entries that are missing appended, and the list sorted. */
  method AddMissing(py: array<PosixAce>, n0: nat, tagsset0: bv16, mode: Mode, mask: Mode, ghost masked: bool) returns (n: nat)
    requires n0 + 3 <= py.Length && Collected(py[..n0], mode, masked) && Knows(tagsset0, py[..n0])
    modifies py
    ensures n <= n0 + 3 && AccessOk(py[..n], mode)
    ensures StablePermutation(old(py[..n0]) + Missing(old(py[..n0]), mode, mask), py[..n])
  {
    hide Knows, Collected, ListOk, AllWithin, HasTag, Fine, Within, Standard, StablePermutation, Sorted, OwnerPerms, GroupPerms, OtherPerms;
    ghost var out := py[..n0];
    StandardFacts(mode, mask);
    var tagsset;
    n, tagsset := AppendStandard(py, n0, tagsset0, USER_OBJ, OwnerPerms(mode, mask), mode, masked);
    n, tagsset := AppendStandard(py, n, tagsset, GROUP_OBJ, GroupPerms(mode, mask), mode, masked);
    n, tagsset := AppendStandard(py, n, tagsset, OTHER, OtherPerms(mode, mask), mode, masked);
    ghost var s := py[..n];
    assert s == out + Missing(out, mode, mask);
    SortRange(py, 0, n);
    assert py[0..n] == py[..n];
    CollectedMask(s, mode, masked);
    SortedList(s, py[..n], mode, masked);
  }

  method AccessEntries(py: array<PosixAce>, def: seq<PosixAce>, mode: Mode, mask: Mode) returns (n: nat, ghost out: seq<PosixAce>)
    requires |def| + 3 <= py.Length && ListOk(def)
    modifies py
    ensures n <= |def| + 3 && AccessOk(py[..n], mode)
    ensures Adapted(def, out, mode) && StablePermutation(out + Missing(def, mode, mask), py[..n])
  {
    hide Adapted, Knows, Collected, ListOk, AllWithin, HasTag, TagBit, StablePermutation, Standard;
    var tagsset := AdaptDefaults(py, def, mode);
    out := py[..|def|];
    AdaptedList(def, out, mode);
    StartCollected(def, out, mode, tagsset);
    KnowsAll(tagsset, out);
    n := |def|;
    assert Missing(out, mode, mask) == Missing(def, mode, mask);
    if TagBit(tagsset, USER_OBJ) && TagBit(tagsset, GROUP_OBJ) && TagBit(tagsset, OTHER) {
      assert out + Missing(def, mode, mask) == out;
      StableSame(out);
    } else {
      n := AddMissing(py, n, tagsset, mode, mask, HasTag(def, MASK));
    }
  }

  lemma CollectedMask(s: seq<PosixAce>, mode: Mode, masked: bool)
    requires Collected(s, mode, masked)
    ensures HasTag(s, MASK) == masked
  {
  }

  lemma KnowsAll(tags: bv16, s: seq<PosixAce>)
    requires Knows(tags, s)
    ensures TagBit(tags, USER_OBJ) <==> HasTag(s, USER_OBJ)
    ensures TagBit(tags, GROUP_OBJ) <==> HasTag(s, GROUP_OBJ)
    ensures TagBit(tags, OTHER) <==> HasTag(s, OTHER)
  {
  }

  lemma StartCollected(def: seq<PosixAce>, out: seq<PosixAce>, mode: Mode, tags: bv16)
    requires ListOk(out) && AllWithin(out, mode, HasTag(def, MASK)) && Knows(tags, def) && forall t :: HasTag(out, t) <==> HasTag(def, t)
    ensures Collected(out, mode, HasTag(def, MASK)) && Knows(tags, out)
  {
    hide Fine, Within, SameKey, Before, TagBit;
    ListUnsorted(out);
  }

  /** The default entries of a parent, if it has any. */
  ghost function DefaultsOf(px: Option<Desc>): seq<PosixAce>
    requires ParentOk(px)
  {
    if px.Some? then Defaults(px.value) else []
  }

  /** What is inherited from: default entries in order, or none, or no descriptor at all. */
  ghost predicate ParentOk(px: Option<Desc>) {
    px.Some? ==> DefaultsStored(px.value) && ListOk(Defaults(px.value))
  }

  /** A descriptor that ntfs_valid_posix accepts is one, if its default entries stand right behind its access entries. */
  lemma ValidParent(d: Desc)
    requires DefaultsStored(d) && 0 <= d.acccnt + d.defcnt <= |d.ace| && PosixOk(d) && (d.defcnt == 0 || d.firstdef == d.acccnt)
    ensures ParentOk(Some(d))
  {
    hide ListOk, HasTag, TagsOf, ModeOf, ModeAgrees;
    NoEntries();
  }

  lemma InheritedOk(d: Desc, acc: seq<PosixAce>, def: seq<PosixAce>, mode: Mode)
    requires AccessOk(acc, mode) && ListOk(def) && d.ace == acc + def && d.acccnt == d.firstdef == |acc| && d.defcnt == |def|
    requires d.version == 2 && d.flags == 0 && d.filler == 0
    requires d.mode == HeaderOf(acc, Upper(mode)) && d.tagsset == TagsOf(acc)
    ensures PosixOk(d) && Sub(d.mode, mode)
  {
    hide Sub, ListOk, AllWithin, HasTag, TagsOf, ModeOf, HeaderOf, ModeAgrees, Join, Upper, Small, Fine;
    assert d.ace[..|acc|] == acc && d.ace[|acc|..|acc| + |def|] == def;
    ListFine(acc);
    HeaderIs(acc, Upper(mode));
    HeaderAgrees(ModeOf(acc), Upper(mode), TagsOf(acc));
    HeaderWithin(acc, mode);
  }

  lemma ListFine(s: seq<PosixAce>)
    requires ListOk(s)
    ensures forall i | 0 <= i < |s| :: Fine(s[i])
  {
  }

  // ----- the mode of the new descriptor, class by class

  /** The bits of a mode that creation with an umask leaves. */
  function Unmasked(mode: Mode, mask: Mode): Mode {
    mode & !mask
  }

  function Both(x: Mode, y: Mode): Mode {
    x & y
  }

  /**
   Each class that a default entry is for has the bits of that entry that are in the creation mode, the mask standing
   for the group where there is one; the others have their bits of the creation mode less the umask.
   */
  ghost predicate Inherits(m: Mode, def: seq<PosixAce>, mode: Mode, mask: Mode) {
    && Cut(m, 0xe00) == Cut(mode, 0xe00) && m < 0x1000
    && (forall a | a in def && a.tag == USER_OBJ :: Cut(m, OWNER_PART) == Both(ForOwner(a.perms), mode))
    && (forall a | a in def && Limits(def, a) :: Cut(m, GROUP_PART) == Both(ForGroup(a.perms), mode))
    && (forall a | a in def && a.tag == OTHER :: Cut(m, OTHER_PART) == Both(a.perms, mode))
    && (!HasTag(def, USER_OBJ) ==> Cut(m, OWNER_PART) == Cut(Unmasked(mode, mask), OWNER_PART))
    && (!HasTag(def, GROUP_OBJ) && !HasTag(def, MASK) ==> Cut(m, GROUP_PART) == Cut(Unmasked(mode, mask), GROUP_PART))
    && (!HasTag(def, OTHER) ==> Cut(m, OTHER_PART) == Cut(Unmasked(mode, mask), OTHER_PART))
  }

  lemma HeaderPart(m: Mode, base: Mode, part: Mode)
    requires Small(part)
    ensures Cut(Join(Upper(Upper(base)), m), part) == Cut(m, part)
  {
  }

  lemma HeaderUpper(m: Mode, base: Mode)
    requires Small(m)
    ensures Cut(Join(Upper(Upper(base)), m), 0xe00) == Cut(base, 0xe00) && Join(Upper(Upper(base)), m) < 0x1000
  {
  }

  lemma PartsSmall()
    ensures Small(OWNER_PART) && Small(GROUP_PART) && Small(OTHER_PART)
  {
  }

  lemma AdaptBits(p: bv16, mode: Mode)
    requires p < 8
    ensures ForOwner(p & ((mode >> 6) & 7)) == Both(ForOwner(p), mode)
    ensures ForGroup(p & ((mode >> 3) & 7)) == Both(ForGroup(p), mode)
    ensures p & (mode & 7) == Both(p, mode)
  {
  }

  lemma UnmaskedBits(mode: Mode, mask: Mode)
    ensures ForOwner(OwnerPerms(mode, mask)) == Cut(Unmasked(mode, mask), OWNER_PART)
    ensures ForGroup(GroupPerms(mode, mask)) == Cut(Unmasked(mode, mask), GROUP_PART)
    ensures OtherPerms(mode, mask) == Cut(Unmasked(mode, mask), OTHER_PART)
  {
  }

  /** A default entry of a class is in the access list with the bits of the creation mode. */
  lemma AdaptedIn(def: seq<PosixAce>, out: seq<PosixAce>, mode: Mode, a: PosixAce) returns (b: PosixAce)
    requires ListOk(def) && Adapted(def, out, mode) && a in def
    ensures b in out && b.tag == a.tag
    ensures a.tag == USER_OBJ ==> ForOwner(b.perms) == Both(ForOwner(a.perms), mode)
    ensures Limits(def, a) ==> ForGroup(b.perms) == Both(ForGroup(a.perms), mode)
    ensures a.tag == OTHER ==> b.perms == Both(a.perms, mode)
  {
    hide Before, ForOwner, ForGroup, Both;
    var i :| 0 <= i < |def| && def[i] == a;
    b := out[i];
    assert Fine(def[i]);
    AdaptBits(a.perms, mode);
    if HasTag(def[i + 1..], MASK) {
      var j :| 0 <= j < |def[i + 1..]| && def[i + 1..][j].tag == MASK;
      assert def[i + 1 + j].tag == MASK;
    }
  }

  lemma MissingIn(def: seq<PosixAce>, mode: Mode, mask: Mode)
    ensures var more := Missing(def, mode, mask);
            && (!HasTag(def, USER_OBJ) ==> Standard(USER_OBJ, OwnerPerms(mode, mask)) in more)
            && (!HasTag(def, GROUP_OBJ) ==> Standard(GROUP_OBJ, GroupPerms(mode, mask)) in more)
            && (!HasTag(def, OTHER) ==> Standard(OTHER, OtherPerms(mode, mask)) in more)
  {
    hide OwnerPerms, GroupPerms, OtherPerms, HasTag, Standard;
  }

  lemma HeaderTells(acc: seq<PosixAce>, mode: Mode, b: PosixAce)
    requires ListOk(acc) && b in acc
    ensures var m := HeaderOf(acc, Upper(mode));
            && Cut(m, 0xe00) == Cut(mode, 0xe00) && m < 0x1000
            && (b.tag == USER_OBJ ==> Cut(m, OWNER_PART) == ForOwner(b.perms))
            && (Limits(acc, b) ==> Cut(m, GROUP_PART) == ForGroup(b.perms))
            && (b.tag == OTHER ==> Cut(m, OTHER_PART) == b.perms)
  {
    hide Cut, Fine, Before, HasTag, HeaderOf, ModeOf, Join, Upper, Small, ForOwner, ForGroup, OWNER_PART, GROUP_PART, OTHER_PART;
    ListFine(acc);
    HeaderIs(acc, Upper(mode));
    PartsSmall();
    HeaderPart(ModeOf(acc), mode, OWNER_PART);
    HeaderPart(ModeOf(acc), mode, GROUP_PART);
    HeaderPart(ModeOf(acc), mode, OTHER_PART);
    HeaderUpper(ModeOf(acc), mode);
    ModeTells(acc, b);
  }

  lemma SameMask(def: seq<PosixAce>, out: seq<PosixAce>, acc: seq<PosixAce>, mode: Mode, mask: Mode)
    requires Adapted(def, out, mode) && StablePermutation(out + Missing(def, mode, mask), acc)
    ensures HasTag(acc, MASK) <==> HasTag(def, MASK)
  {
    hide StablePermutation, OwnerPerms, GroupPerms, OtherPerms;
    MembersTags(out + Missing(def, mode, mask), acc, MASK);
    assert forall i | 0 <= i < |def| :: (out + Missing(def, mode, mask))[i].tag == def[i].tag;
  }

  lemma ModeInherits(def: seq<PosixAce>, out: seq<PosixAce>, acc: seq<PosixAce>, mode: Mode, mask: Mode)
    requires ListOk(def) && Adapted(def, out, mode) && AccessOk(acc, mode) && StablePermutation(out + Missing(def, mode, mask), acc)
    ensures Inherits(HeaderOf(acc, Upper(mode)), def, mode, mask)
  {
    hide ListOk, Adapted, AllWithin, Missing, HasTag, StablePermutation, Cut, Both, Unmasked, ForOwner, ForGroup, HeaderOf, Upper,
         OwnerPerms, GroupPerms, OtherPerms, OWNER_PART, GROUP_PART, OTHER_PART;
    var m := HeaderOf(acc, Upper(mode));
    SameMask(def, out, acc, mode, mask);
    forall a | a in def
      ensures Cut(m, 0xe00) == Cut(mode, 0xe00) && m < 0x1000
      ensures a.tag == USER_OBJ ==> Cut(m, OWNER_PART) == Both(ForOwner(a.perms), mode)
      ensures Limits(def, a) ==> Cut(m, GROUP_PART) == Both(ForGroup(a.perms), mode)
      ensures a.tag == OTHER ==> Cut(m, OTHER_PART) == Both(a.perms, mode)
    {
      var b := AdaptedIn(def, out, mode, a);
      StableIn(out + Missing(def, mode, mask), acc, b);
      HeaderTells(acc, mode, b);
    }
    MissingIn(def, mode, mask);
    UnmaskedBits(mode, mask);
    MissingTells(def, out, acc, mode, mask, Standard(USER_OBJ, OwnerPerms(mode, mask)));
    MissingTells(def, out, acc, mode, mask, Standard(GROUP_OBJ, GroupPerms(mode, mask)));
    MissingTells(def, out, acc, mode, mask, Standard(OTHER, OtherPerms(mode, mask)));
    SomeTells(acc, mode);
  }

  lemma SomeTells(acc: seq<PosixAce>, mode: Mode)
    requires AccessOk(acc, mode)
    ensures var m := HeaderOf(acc, Upper(mode)); Cut(m, 0xe00) == Cut(mode, 0xe00) && m < 0x1000
  {
    hide ListOk, AllWithin, HeaderOf, Upper, Cut, Limits, ForOwner, ForGroup, OWNER_PART, GROUP_PART, OTHER_PART;
    var i :| 0 <= i < |acc| && acc[i].tag == OTHER;
    HeaderTells(acc, mode, acc[i]);
  }

  lemma MissingTells(def: seq<PosixAce>, out: seq<PosixAce>, acc: seq<PosixAce>, mode: Mode, mask: Mode, a: PosixAce)
    requires AccessOk(acc, mode) && StablePermutation(out + Missing(def, mode, mask), acc)
    requires HasTag(acc, MASK) <==> HasTag(def, MASK)
    ensures a in Missing(def, mode, mask) ==>
              var m := HeaderOf(acc, Upper(mode));
              && (a.tag == USER_OBJ ==> Cut(m, OWNER_PART) == ForOwner(a.perms))
              && (a.tag == GROUP_OBJ && !HasTag(def, MASK) ==> Cut(m, GROUP_PART) == ForGroup(a.perms))
              && (a.tag == OTHER ==> Cut(m, OTHER_PART) == a.perms)
  {
    hide ListOk, AllWithin, Missing, HasTag, StablePermutation, Cut, ForOwner, ForGroup, HeaderOf, Upper, OWNER_PART, GROUP_PART, OTHER_PART;
    if a in Missing(def, mode, mask) {
      StableIn(out + Missing(def, mode, mask), acc, a);
      HeaderTells(acc, mode, a);
    }
  }

  /** The default entries that a mode says nothing of: those for named users and groups, and the group's own under a mask. */
  ghost predicate Untouched(def: seq<PosixAce>, a: PosixAce) {
    a.tag == USER || a.tag == GROUP || (a.tag == GROUP_OBJ && HasTag(def, MASK))
  }

  ghost function Lacks(def: seq<PosixAce>, tag: nat): nat {
    if HasTag(def, tag) then 0 else 1
  }

  /** They are passed on as they are, and nothing is added but the missing standard entries. */
  lemma EntriesPassOn(def: seq<PosixAce>, out: seq<PosixAce>, acc: seq<PosixAce>, mode: Mode, mask: Mode)
    requires ListOk(def) && Adapted(def, out, mode) && StablePermutation(out + Missing(def, mode, mask), acc)
    ensures forall a | a in def && Untouched(def, a) :: a in acc
    ensures |acc| == |def| + Lacks(def, USER_OBJ) + Lacks(def, GROUP_OBJ) + Lacks(def, OTHER)
  {
    hide ListOk, HasTag, Of, OwnerPerms, GroupPerms, OtherPerms;
    forall a | a in def && Untouched(def, a)
      ensures a in acc
    {
      var i :| 0 <= i < |def| && def[i] == a;
      MaskLater(def, i);
      assert out[i] == a && a in out;
      StableIn(out + Missing(def, mode, mask), acc, a);
    }
  }

  /** Without default entries the mode is the creation mode less the umask. */
  lemma InheritsPlain(m: Mode, mode: Mode, mask: Mode)
    requires Inherits(m, [], mode, mask)
    ensures m & 0x1ff == mode & !mask & 0x1ff
  {
    assert !HasTag([], USER_OBJ) && !HasTag([], GROUP_OBJ) && !HasTag([], MASK) && !HasTag([], OTHER);
  }

  /** What a new file or directory inherits; the check at the end never fails. */
  method BuildInherited(px: Option<Desc>, mode: Mode, mask: Mode, isdir: bool) returns (r: Option<Desc>, ghost out: seq<PosixAce>)
    requires ParentOk(px)
    ensures r.Some? && 0 <= r.value.acccnt + r.value.defcnt <= |r.value.ace| && PosixOk(r.value) && Sub(r.value.mode, mode)
    ensures var d := r.value;
            && 0 <= d.acccnt == d.firstdef && d.defcnt == (if isdir then |DefaultsOf(px)| else 0)
            && d.ace[d.firstdef..d.firstdef + d.defcnt] == (if isdir then DefaultsOf(px) else [])
            && Adapted(DefaultsOf(px), out, mode)
            && StablePermutation(out + Missing(DefaultsOf(px), mode, mask), d.ace[..d.acccnt])
    ensures Inherits(r.value.mode, DefaultsOf(px), mode, mask)
    ensures var def, d := DefaultsOf(px), r.value;
            && (forall a | a in def && Untouched(def, a) :: a in d.ace[..d.acccnt])
            && d.acccnt == |def| + Lacks(def, USER_OBJ) + Lacks(def, GROUP_OBJ) + Lacks(def, OTHER)
    ensures DefaultsOf(px) == [] ==> r.value.mode & 0x1ff == mode & !mask & 0x1ff
  {
    hide Inherits, Untouched, Lacks, Adapted, AccessOk, ListOk, PosixOk, StablePermutation, HeaderOf, TagsOf, Upper, Missing, Sub;
    var def := if px.Some? && px.value.defcnt != 0 then px.value.ace[px.value.firstdef..px.value.firstdef + px.value.defcnt] else [];
    NoEntries();
    var count := if def != [] then (if isdir then 2 * |def| + 3 else |def| + 3) else 3;
    var py := new PosixAce[count](_ => PosixAce(0, 0, 0));
    var acccnt;
    acccnt, out := AccessEntries(py, def, mode, mask);
    var acc := py[..acccnt];
    var defs := if def != [] && isdir then def else [];
    var newmode, tagsset := PosixHeader(acc, Upper(mode));
    var d := Desc(newmode, acccnt, |defs|, acccnt, tagsset, 2, 0, 0, acc + defs);
    NoEntries();
    InheritedOk(d, acc, defs, mode);
    assert d.ace[..acccnt] == acc && d.ace[acccnt..acccnt + |defs|] == defs;
    ModeInherits(def, out, acc, mode, mask);
    EntriesPassOn(def, out, acc, mode, mask);
    if def == [] { InheritsPlain(newmode, mode, mask); }
    var ok := ValidPosix(d);
    r := if ok then Some(d) else None;
  }

  lemma NoEntries()
    ensures ListOk([])
  {
  }
}
