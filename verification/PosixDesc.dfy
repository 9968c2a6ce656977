/** POSIX ACL descriptors, and the sanity check of ntfs_valid_posix in loop and in declarative form. */
module PosixDesc {
  import opened Sequences
  import opened PosixList

  const USER_OBJ: nat := 1
  const USER: nat := 2
  const GROUP_OBJ: nat := 4
  const GROUP: nat := 8
  const MASK: nat := 16
  const OTHER: nat := 32
  const NO_ID: nat := 0xffffffff

  type Mode = bv16

  /** Access entries, then default entries from `firstdef` on. */
  datatype Desc = Desc(mode: Mode, acccnt: int, defcnt: int, firstdef: int, tagsset: bv16,
                       version: nat, flags: nat, filler: nat, ace: seq<PosixAce>)

  // ----- what a list of entries says

  /** A tag as a bit of `tagsset`. */
  function Bits(tag: nat): bv16 {
    if tag < 0x10000 then tag as bv16 else 0
  }

  function AddTag(tags: bv16, tag: nat): bv16 {
    tags | Bits(tag)
  }

  /** An entry with a known tag, with an id exactly if the tag wants one, and three permission bits. */
  predicate Fine(a: PosixAce) {
    && a.perms < 8
    && (a.tag == USER || a.tag == GROUP || ((a.tag == USER_OBJ || a.tag == GROUP_OBJ || a.tag == MASK || a.tag == OTHER) && a.id == NO_ID))
    && (a.tag == USER || a.tag == GROUP ==> a.id != NO_ID)
  }

  ghost predicate ListOk(s: seq<PosixAce>) {
    Strict(s) && forall i | 0 <= i < |s| :: Fine(s[i])
  }

  ghost predicate HasTag(s: seq<PosixAce>, tag: nat) {
    exists i | 0 <= i < |s| :: s[i].tag == tag
  }

  function TagsOf(s: seq<PosixAce>): bv16 {
    if s == [] then 0 else AddTag(TagsOf(s[..|s| - 1]), s[|s| - 1].tag)
  }

  function SetOwner(m: Mode, perms: bv16): Mode {
    m | (perms << 6)
  }

  /** The group bits are those of the last entry for the group or the mask. */
  function SetGroup(m: Mode, perms: bv16): Mode {
    (m & 0xfc7) | (perms << 3)
  }

  function SetOther(m: Mode, perms: bv16): Mode {
    m | perms
  }

  function ModeStep(m: Mode, tag: nat, perms: bv16): Mode {
    if tag == USER_OBJ then SetOwner(m, perms)
    else if tag == GROUP_OBJ || tag == MASK then SetGroup(m, perms)
    else if tag == OTHER then SetOther(m, perms)
    else m
  }

  function ModeOf(s: seq<PosixAce>): Mode {
    if s == [] then 0 else ModeStep(ModeOf(s[..|s| - 1]), s[|s| - 1].tag, s[|s| - 1].perms)
  }

  // ----- ntfs_valid_posix

  ghost function Split(d: Desc): nat
    requires 0 <= d.acccnt + d.defcnt
  {
    if d.firstdef < 0 then 0 else if d.firstdef > d.acccnt + d.defcnt then d.acccnt + d.defcnt else d.firstdef
  }

  /** The mode is that of the entries, unless it is null or there is no entry. */
  predicate ModeAgrees(mode: Mode, tags: bv16, computed: Mode) {
    mode == 0 || tags == 0 || computed == mode & 0x1ff
  }

  /** When a descriptor is in order, without the loop. */
  ghost predicate PosixOk(d: Desc)
    requires 0 <= d.acccnt + d.defcnt <= |d.ace|
  {
    var total := d.acccnt + d.defcnt;
    var acc := d.ace[..Split(d)];
    && d.version == 2 && d.flags == 0 && d.filler == 0
    && ListOk(acc) && ListOk(d.ace[Split(d)..total])
    && (d.acccnt > 0 ==> HasTag(acc, USER_OBJ) && HasTag(acc, GROUP_OBJ) && HasTag(acc, OTHER))
    && !(d.defcnt != 0 && d.acccnt > d.firstdef) && d.acccnt >= 0 && d.defcnt >= 0
    && ModeAgrees(d.mode, TagsOf(acc), ModeOf(acc))
    && d.tagsset == TagsOf(acc)
  }

  /** The running state of the check of one list. */
  datatype Check = Check(previous: nat, previousid: nat, tagsset: bv16, mode: Mode, owners: nat, groups: nat, others: nat)

  const FRESH: Check := Check(0, 0, 0, 0, 0, 0, 0)

  function Noted(c: Check, a: PosixAce): Check {
    Check(a.tag, a.id, AddTag(c.tagsset, a.tag), ModeStep(c.mode, a.tag, a.perms),
          if a.tag == USER_OBJ then c.owners + 1 else c.owners,
          if a.tag == GROUP_OBJ then c.groups + 1 else c.groups,
          if a.tag == OTHER then c.others + 1 else c.others)
  }

  /** What the loop body wants of the next entry. */
  predicate Passes(c: Check, a: PosixAce) {
    && a.perms < 8
    && !(a.tag < c.previous || (a.tag == c.previous && a.id <= c.previousid))
    && (if a.tag == USER_OBJ then c.owners == 0 && a.id == NO_ID
        else if a.tag == GROUP_OBJ then c.groups == 0 && a.id == NO_ID
        else if a.tag == OTHER then c.others == 0 && a.id == NO_ID
        else if a.tag == USER || a.tag == GROUP then a.id != NO_ID
        else a.tag == MASK && a.id == NO_ID)
  }

  /** The state is that of the list so far; the counters are only followed while all is well. */
  ghost predicate Tracks(c: Check, s: seq<PosixAce>) {
    && c.tagsset == TagsOf(s) && c.mode == ModeOf(s)
    && (s == [] ==> c.previous == 0 && c.previousid == 0)
    && (s != [] ==> c.previous == s[|s| - 1].tag && c.previousid == s[|s| - 1].id)
    && (ListOk(s) ==> c.owners == One(HasTag(s, USER_OBJ)) && c.groups == One(HasTag(s, GROUP_OBJ)) && c.others == One(HasTag(s, OTHER)))
  }

  ghost function One(b: bool): nat {
    if b then 1 else 0
  }

  lemma HasTagPush(s: seq<PosixAce>, a: PosixAce, tag: nat)
    ensures HasTag(s + [a], tag) <==> HasTag(s, tag) || a.tag == tag
  {
    if a.tag == tag {
      assert (s + [a])[|s|].tag == tag;
    } else if HasTag(s, tag) {
      var i :| 0 <= i < |s| && s[i].tag == tag;
      assert (s + [a])[i].tag == tag;
    }
  }

  /** In a list in order, an entry that may follow and has a single tag comes with a new tag. */
  lemma SingleTag(s: seq<PosixAce>, a: PosixAce, tag: nat)
    requires ListOk(s + [a]) && a.tag == tag && tag != USER && tag != GROUP
    ensures !HasTag(s, tag)
  {
    var t := s + [a];
    assert Fine(t[|s|]);
    forall i | 0 <= i < |s|
      ensures s[i].tag != tag
    {
      assert Before(t[i], t[|s|]) && Fine(t[i]);
    }
  }

  lemma ListPush(s: seq<PosixAce>, a: PosixAce)
    ensures ListOk(s + [a]) <==> ListOk(s) && Fine(a) && (s != [] ==> Before(s[|s| - 1], a))
  {
    hide Before, Fine;
    var t := s + [a];
    if ListOk(t) {
      assert forall i | 0 <= i < |s| :: t[i] == s[i];
      assert t[|s|] == a;
      assert s != [] ==> Before(t[|s| - 1], t[|s|]);
    }
    if ListOk(s) && Fine(a) && (s != [] ==> Before(s[|s| - 1], a)) {
      forall i | 0 <= i < |s|
        ensures Before(s[i], a)
      {
        if i < |s| - 1 { Transitive(s[i], s[|s| - 1], a); }
      }
      StrictPush(s, a);
    }
  }

  lemma PassesIs(c: Check, s: seq<PosixAce>, a: PosixAce)
    requires Tracks(c, s) && ListOk(s)
    ensures Passes(c, a) <==> ListOk(s + [a])
  {
    hide TagsOf, ModeOf, Strict, HasTag;
    ListPush(s, a);
    if ListOk(s + [a]) && a.tag != USER && a.tag != GROUP { SingleTag(s, a, a.tag); }
    if s != [] { assert Fine(s[|s| - 1]); }
  }

  lemma CountPush(s: seq<PosixAce>, a: PosixAce, tag: nat)
    requires ListOk(s + [a]) && tag != USER && tag != GROUP
    ensures One(HasTag(s + [a], tag)) == One(HasTag(s, tag)) + (if a.tag == tag then 1 else 0)
  {
    hide HasTag, ListOk;
    HasTagPush(s, a, tag);
    if a.tag == tag { SingleTag(s, a, tag); }
  }

  lemma TracksPush(c: Check, s: seq<PosixAce>, a: PosixAce)
    requires Tracks(c, s)
    ensures Tracks(Noted(c, a), s + [a])
  {
    hide AddTag, ModeStep, HasTag, ListOk, One;
    var t := s + [a];
    assert t[..|t| - 1] == s;
    ListPush(s, a);
    if ListOk(t) {
      CountPush(s, a, USER_OBJ);
      CountPush(s, a, GROUP_OBJ);
      CountPush(s, a, OTHER);
    }
  }

  /** The loop of ntfs_valid_posix over all entries. */
  method CheckEntries(d: Desc, head: bool) returns (ok: bool, acc: Check)
    requires 0 <= d.acccnt + d.defcnt <= |d.ace|
    ensures ok <==> head && ListOk(d.ace[..Split(d)]) && ListOk(d.ace[Split(d)..d.acccnt + d.defcnt])
    ensures Tracks(acc, d.ace[..Split(d)])
  {
    hide Tracks, Passes, Noted, ListOk;
    ghost var split := Split(d);
    var def := FRESH;
    ok, acc := head, FRESH;
    TracksNone();
    var i := 0;
    assert d.ace[..0] == [] && d.ace[split..split] == [];
    while i < d.acccnt + d.defcnt
      invariant 0 <= i <= d.acccnt + d.defcnt
      invariant Tracks(acc, d.ace[..Low(i, split)]) && Tracks(def, d.ace[split..High(i, split)])
      invariant ok <==> head && ListOk(d.ace[..Low(i, split)]) && ListOk(d.ace[split..High(i, split)])
    {
      var a := d.ace[i];
      if i >= d.firstdef {
        ok, def := CheckNext(ok, def, a, d.ace[split..i]);
        assert d.ace[split..i + 1] == d.ace[split..i] + [a];
      } else {
        ok, acc := CheckNext(ok, acc, a, d.ace[..i]);
        assert d.ace[..i + 1] == d.ace[..i] + [a];
      }
      i := i + 1;
    }
  }

  method CheckNext(ok: bool, c: Check, a: PosixAce, ghost s: seq<PosixAce>) returns (ok': bool, c': Check)
    requires Tracks(c, s) && (ok ==> ListOk(s))
    ensures Tracks(c', s + [a]) && (ok' <==> ok && ListOk(s + [a])) && (!ListOk(s) ==> !ListOk(s + [a]))
  {
    hide Tracks, Passes, Noted, ListOk;
    ListPush(s, a);
    if ok { PassesIs(c, s, a); }
    TracksPush(c, s, a);
    ok', c' := ok && Passes(c, a), Noted(c, a);
  }

  method ValidPosix(d: Desc) returns (ok: bool)
    requires 0 <= d.acccnt + d.defcnt <= |d.ace|
    ensures ok <==> PosixOk(d)
  {
    hide Tracks, ListOk, TagsOf, ModeOf, HasTag, ModeAgrees;
    var acc;
    ok, acc := CheckEntries(d, d.version == 2 && d.flags == 0 && d.filler == 0);
    TracksFacts(acc, d.ace[..Split(d)]);
    if d.acccnt > 0 && (acc.owners != 1 || acc.groups != 1 || acc.others != 1) {
      ok := false;
    }
    if d.defcnt != 0 && d.acccnt > d.firstdef {
      ok := false;
    }
    if d.acccnt < 0 || d.defcnt < 0 {
      ok := false;
    }
    if !ModeAgrees(d.mode, acc.tagsset, acc.mode) {
      ok := false;
    }
    if d.tagsset != acc.tagsset {
      ok := false;
    }
  }

  ghost function Low(i: nat, split: nat): nat {
    if i < split then i else split
  }

  ghost function High(i: nat, split: nat): nat {
    if i < split then split else i
  }

  lemma TracksNone()
    ensures Tracks(FRESH, []) && ListOk([])
  {
  }

  lemma TracksFacts(c: Check, s: seq<PosixAce>)
    requires Tracks(c, s)
    ensures c.tagsset == TagsOf(s) && c.mode == ModeOf(s)
    ensures ListOk(s) ==> c.owners == One(HasTag(s, USER_OBJ)) && c.groups == One(HasTag(s, GROUP_OBJ)) && c.others == One(HasTag(s, OTHER))
  {
  }

  // ----- what the check says of the default entries

  /** The default entries, wherever they begin, are there. */
  predicate DefaultsStored(d: Desc) {
    d.defcnt == 0 || (d.defcnt > 0 && 0 <= d.firstdef && d.firstdef + d.defcnt <= |d.ace|)
  }

  function Defaults(d: Desc): seq<PosixAce>
    requires DefaultsStored(d)
  {
    if d.defcnt == 0 then [] else d.ace[d.firstdef..d.firstdef + d.defcnt]
  }

  /** An accepted descriptor with these counts, its default entries in store. */
  ghost predicate Taken(d: Desc, acccnt: nat, defcnt: nat, firstdef: nat) {
    && d.acccnt == acccnt && d.defcnt == defcnt && d.firstdef == firstdef
    && DefaultsStored(d) && acccnt + defcnt <= |d.ace| && PosixOk(d)
  }

  /**
   The check looks at the first acccnt + defcnt entries, so default entries that begin later
   are not all looked at.  Exactly where they begin right behind the access entries, or there is
   none, or too few entries come before them for the three standard ones, acceptance puts them in order.
   */
  lemma DefaultsCondition(acccnt: nat, defcnt: nat, firstdef: nat)
    requires acccnt + defcnt < 0x8000_0000
    ensures (forall d: Desc | Taken(d, acccnt, defcnt, firstdef) :: ListOk(Defaults(d)))
            <==> defcnt == 0 || firstdef <= acccnt || (acccnt > 0 && Min(firstdef, acccnt + defcnt) < 3)
  {
    hide ListOk, HasTag, TagsOf, ModeOf, ModeAgrees;
    if defcnt == 0 || firstdef <= acccnt || (acccnt > 0 && Min(firstdef, acccnt + defcnt) < 3) {
      forall d: Desc | Taken(d, acccnt, defcnt, firstdef)
        ensures ListOk(Defaults(d))
      {
        TracksNone();
        if acccnt > 0 { ThreeTags(d.ace[..Split(d)]); }
      }
    } else {
      var d := Unseen(acccnt, defcnt, firstdef);
      UnseenTaken(acccnt, defcnt, firstdef);
      assert Taken(d, acccnt, defcnt, firstdef) && !ListOk(Defaults(d));
    }
  }

  /** Owner, group and others take three entries. */
  lemma ThreeTags(s: seq<PosixAce>)
    ensures HasTag(s, USER_OBJ) && HasTag(s, GROUP_OBJ) && HasTag(s, OTHER) ==> |s| >= 3
  {
    if HasTag(s, USER_OBJ) && HasTag(s, GROUP_OBJ) && HasTag(s, OTHER) {
      var i :| 0 <= i < |s| && s[i].tag == USER_OBJ;
      var j :| 0 <= j < |s| && s[j].tag == GROUP_OBJ;
      var k :| 0 <= k < |s| && s[k].tag == OTHER;
    }
  }

  /** Users with the ids 0, 1 and so on. */
  function Users(n: nat): (s: seq<PosixAce>)
    ensures |s| == n && forall i | 0 <= i < n :: s[i] == PosixAce(USER, 0, i)
  {
    seq(n, i requires 0 <= i < n => PosixAce(USER, 0, i))
  }

  lemma UsersOk(n: nat)
    requires n < NO_ID
    ensures ListOk(Users(n))
  {
  }

  function Leading(n: nat, standard: bool): (s: seq<PosixAce>)
    requires standard ==> n >= 3
    ensures |s| == n
  {
    if standard then [PosixAce(USER_OBJ, 0, NO_ID)] + Users(n - 3) + [PosixAce(GROUP_OBJ, 0, NO_ID), PosixAce(OTHER, 0, NO_ID)]
    else Users(n)
  }

  lemma LeadingOk(n: nat, standard: bool)
    requires n < NO_ID && (standard ==> n >= 3)
    ensures ListOk(Leading(n, standard))
    ensures standard ==> HasTag(Leading(n, standard), USER_OBJ) && HasTag(Leading(n, standard), GROUP_OBJ) && HasTag(Leading(n, standard), OTHER)
  {
    var s := Leading(n, standard);
    if standard {
      assert s[0].tag == USER_OBJ && s[n - 2].tag == GROUP_OBJ && s[n - 1].tag == OTHER;
      assert forall i | 0 < i < n - 2 :: s[i] == PosixAce(USER, 0, i - 1);
    }
  }

  /** All that is looked at is in order; the last default entry, which is not, has a bit too many. */
  function Unseen(acccnt: nat, defcnt: nat, firstdef: nat): (d: Desc)
    requires defcnt > 0 && firstdef > acccnt && (acccnt > 0 ==> Min(firstdef, acccnt + defcnt) >= 3)
  {
    var total := acccnt + defcnt;
    var split := Min(firstdef, total);
    var acc := Leading(split, acccnt > 0);
    Desc(0, acccnt, defcnt, firstdef, TagsOf(acc), 2, 0, 0,
         acc + Users(total - split) + seq(firstdef + defcnt - total, _ => PosixAce(USER, 8, 0)))
  }

  lemma UnseenParts(acccnt: nat, defcnt: nat, firstdef: nat)
    requires defcnt > 0 && firstdef > acccnt && (acccnt > 0 ==> Min(firstdef, acccnt + defcnt) >= 3)
    ensures var d, total, split := Unseen(acccnt, defcnt, firstdef), acccnt + defcnt, Min(firstdef, acccnt + defcnt);
            && |d.ace| == firstdef + defcnt && d.ace[..split] == Leading(split, acccnt > 0) && d.ace[split..total] == Users(total - split)
            && d.ace[firstdef + defcnt - 1] == PosixAce(USER, 8, 0)
  {
    hide Leading, Users, TagsOf;
  }

  lemma TooMany(s: seq<PosixAce>, i: nat)
    requires i < |s| && s[i] == PosixAce(USER, 8, 0)
    ensures !ListOk(s)
  {
    assert !Fine(s[i]);
  }

  lemma UnseenTaken(acccnt: nat, defcnt: nat, firstdef: nat)
    requires acccnt + defcnt < 0x8000_0000
    requires defcnt > 0 && firstdef > acccnt && (acccnt > 0 ==> Min(firstdef, acccnt + defcnt) >= 3)
    ensures var d := Unseen(acccnt, defcnt, firstdef); Taken(d, acccnt, defcnt, firstdef) && !ListOk(Defaults(d))
  {
    hide HasTag, TagsOf, ModeOf, ListOk, Leading, Users;
    var d := Unseen(acccnt, defcnt, firstdef);
    var total := acccnt + defcnt;
    var split := Min(firstdef, total);
    UnseenParts(acccnt, defcnt, firstdef);
    LeadingOk(split, acccnt > 0);
    UsersOk(total - split);
    TooMany(Defaults(d), defcnt - 1);
  }
}
