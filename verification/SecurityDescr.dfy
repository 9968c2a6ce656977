/**
 Whole security descriptors: built in place for a mode, checked as they are when read from
 storage, and interpreted as a mode again.
 */
module SecurityDescr {
  import opened Bytes
  import opened Sequences
  import opened Sids
  import opened ModeAcl
  import opened AclBytes
  import AclMeaning

  const HEAD: nat := 20
  const ACL_HEAD: nat := 8
  const CONTROL: nat := 0x9004
  const MIN_ACE: nat := 20

  // ----- the layout

  function DescrHead(owner: nat, group: nat, dacl: nat): (r: seq<byte>)
    ensures |r| == HEAD
  {
    [1, 0] + (Word16(CONTROL) + (Word32(owner) + (Word32(group) + (Word32(0) + Word32(dacl)))))
  }

  function AclHead(size: nat, count: nat): (r: seq<byte>)
    ensures |r| == ACL_HEAD
  {
    [2, 0] + (Word16(size) + (Word16(count) + Word16(0)))
  }

  function AclSize(aces: seq<Ace>): nat {
    ACL_HEAD + |AcesBytes(aces)|
  }

  /** A descriptor with these entries, owner and group: header, DACL, owner, group. */
  function Descr(aces: seq<Ace>, usid: Sid, gsid: Sid): seq<byte> {
    DescrHead(HEAD + AclSize(aces), HEAD + AclSize(aces) + SidSize(usid), HEAD)
    + (AclHead(AclSize(aces), |aces|) + (AcesBytes(aces) + (SidBytes(usid) + SidBytes(gsid))))
  }

  /** What the checks and the interpreter find at their offsets. */
  ghost predicate Laid(s: seq<byte>, aces: seq<Ace>, usid: Sid, gsid: Sid) {
    var size := AclSize(aces);
    && HEAD + size + SidSize(usid) + SidSize(gsid) <= |s|
    && s[0] == 1 && Le16(s, 2) == CONTROL && Le32(s, 4) == HEAD + size && Le32(s, 8) == HEAD + size + SidSize(usid)
    && Le32(s, 12) == 0 && Le32(s, 16) == HEAD
    && s[HEAD] == 2 && Le16(s, HEAD + 2) == size && Le16(s, HEAD + 4) == |aces|
    && At(s, HEAD + ACL_HEAD, AcesBytes(aces)) && At(s, HEAD + size, SidBytes(usid)) && At(s, HEAD + size + SidSize(usid), SidBytes(gsid))
  }

  lemma HeadLaid(s: seq<byte>, p: nat, owner: nat, group: nat, dacl: nat)
    requires At(s, p, DescrHead(owner, group, dacl)) && owner < WORD && group < WORD && dacl < WORD
    ensures p + HEAD <= |s| && s[p] == 1 && Le16(s, p + 2) == CONTROL && Le32(s, p + 4) == owner && Le32(s, p + 8) == group
    ensures Le32(s, p + 12) == 0 && Le32(s, p + 16) == dacl
  {
    hide Word16, Word32, Le16, Le32, At;
    AtPart(s, p, [1, 0], Word16(CONTROL) + (Word32(owner) + (Word32(group) + (Word32(0) + Word32(dacl)))));
    AtPart(s, p + 2, Word16(CONTROL), Word32(owner) + (Word32(group) + (Word32(0) + Word32(dacl))));
    AtPart(s, p + 4, Word32(owner), Word32(group) + (Word32(0) + Word32(dacl)));
    AtPart(s, p + 8, Word32(group), Word32(0) + Word32(dacl));
    AtPart(s, p + 12, Word32(0), Word32(dacl));
    AtIndex(s, p, [1, 0], 0);
    ReadWord16(s, p + 2, CONTROL);
    ReadWord32(s, p + 4, owner);
    ReadWord32(s, p + 8, group);
    ReadWord32(s, p + 12, 0);
    ReadWord32(s, p + 16, dacl);
  }

  lemma AclHeadLaid(s: seq<byte>, p: nat, size: nat, count: nat)
    requires At(s, p, AclHead(size, count)) && size < 65536 && count < 65536
    ensures p + ACL_HEAD <= |s| && s[p] == 2 && Le16(s, p + 2) == size && Le16(s, p + 4) == count
  {
    hide Word16, Le16, At;
    AtPart(s, p, [2, 0], Word16(size) + (Word16(count) + Word16(0)));
    AtPart(s, p + 2, Word16(size), Word16(count) + Word16(0));
    AtPart(s, p + 4, Word16(count), Word16(0));
    AtIndex(s, p, [2, 0], 0);
    ReadWord16(s, p + 2, size);
    ReadWord16(s, p + 4, count);
    AtPart(s, p, AclHead(size, count), []);
    AtLength(s, p, AclHead(size, count));
  }

  lemma AtLength(s: seq<byte>, p: nat, part: seq<byte>)
    requires At(s, p, part)
    ensures p + |part| <= |s|
  {
  }

  lemma DescrLaid(s: seq<byte>, aces: seq<Ace>, usid: Sid, gsid: Sid)
    requires At(s, 0, Descr(aces, usid, gsid)) && AclSize(aces) < 65536 && |aces| < 65536 && |usid.subs| < 256
    ensures Laid(s, aces, usid, gsid)
  {
    hide AcesBytes, SidBytes, DescrHead, AclHead, Le16, Le32, At;
    var size := AclSize(aces);
    var head, acl := DescrHead(HEAD + size, HEAD + size + SidSize(usid), HEAD), AclHead(size, |aces|);
    var sids := SidBytes(usid) + SidBytes(gsid);
    AtPart(s, 0, head, acl + (AcesBytes(aces) + sids));
    AtPart(s, HEAD, acl, AcesBytes(aces) + sids);
    AtPart(s, HEAD + ACL_HEAD, AcesBytes(aces), sids);
    AtPart(s, HEAD + size, SidBytes(usid), SidBytes(gsid));
    HeadLaid(s, 0, HEAD + size, HEAD + size + SidSize(usid), HEAD);
    AclHeadLaid(s, HEAD, size, |aces|);
    AtLength(s, HEAD + size + SidSize(usid), SidBytes(gsid));
  }

  // ----- ntfs_attr_size and ntfs_valid_descr

  predicate ValidSidAt(s: seq<byte>, p: nat)
    requires p + 1 < |s|
  {
    s[p] == 1 && s[p + 1] <= 15
  }

  /** ntfs_attr_size: the end of the last part; no result where it would read beyond the bytes. */
  function AttrSize(s: seq<byte>): Option<nat>
    requires |s| >= HEAD
  {
    var g, o, sa, da := Le32(s, 8), Le32(s, 4), Le32(s, 12), Le32(s, 16);
    if g >= HEAD && g + 1 >= |s| then None
    else
      var n1 := if g >= HEAD then Max(HEAD, g + 8 + 4 * Count(s, g + 1)) else HEAD;
      if o >= n1 && o + 1 >= |s| then None
      else
        var n2 := if o >= n1 then o + 8 + 4 * Count(s, o + 1) else n1;
        if sa >= n2 && sa + 3 >= |s| then None
        else
          var n3 := if sa >= n2 then Max(n2, sa + Le16(s, sa + 2)) else n2;
          if da >= n3 && da + 3 >= |s| then None
          else Some(if da >= n3 then Max(n3, da + Le16(s, da + 2)) else n3)
  }

  function Max(a: nat, b: nat): nat {
    if a > b then a else b
  }

  /** The entries of an ACL at `base` from offset `off` on, as valid_acl wants them. */
  predicate AclOk(s: seq<byte>, base: nat, off: nat, n: nat, end: nat)
    requires base + end <= |s|
    decreases n
  {
    n == 0 ||
    (off + MIN_ACE <= end &&
     var size := Le16(s, base + off + 2);
     AceOk(s, base + off, size, off + size <= end) && AclOk(s, base, off + size, n - 1, end))
  }

  predicate AceOk(s: seq<byte>, p: nat, size: nat, inside: bool)
    requires p + MIN_ACE <= |s|
  {
    var want := 16 + 4 * Count(s, p + 9);
    if s[p] == 0 || s[p] == 1 then inside && ValidSidAt(s, p + 8) && want == size
    else if s[p] == 2 || s[p] == 9 || s[p] == 10 || s[p] == 13 || s[p] == 17 || s[p] == 18 || s[p] == 19 then
      inside && ValidSidAt(s, p + 8) && want <= size
    else inside
  }

  /** ntfs_valid_descr on the first `n` bytes. */
  predicate DescrOk(s: seq<byte>, n: nat)
    requires n <= |s|
  {
    && n >= HEAD && s[0] == 1
    && var o, g, sa, da := Le32(s, 4), Le32(s, 8), Le32(s, 12), Le32(s, 16);
       && o >= HEAD && o + 2 < n && g >= HEAD && g + 2 < n
       && (da == 0 || (da >= HEAD && da + ACL_HEAD <= n)) && (sa == 0 || (sa >= HEAD && sa + ACL_HEAD <= n))
       && o % 4 == 0 && g % 4 == 0 && da % 4 == 0 && sa % 4 == 0
       && AttrSize(s).Some? && AttrSize(s).value <= n
       && ValidSidAt(s, o) && ValidSidAt(s, g)
       && (da == 0 || (Le16(s, 2) / 4 % 2 == 1 && (s[da] == 2 || s[da] == 4)))
       && (sa == 0 || (Le16(s, 2) / 16 % 2 == 1 && (s[sa] == 2 || s[sa] == 4)))
       && (da == 0 || AclOk(s, da, ACL_HEAD, Le16(s, da + 4), n - da))
       && (sa == 0 || AclOk(s, sa, ACL_HEAD, Le16(s, sa + 4), n - sa))
  }

  /** valid_acl, entry by entry. */
  method ValidAcl(s: seq<byte>, base: nat, end: nat) returns (ok: bool)
    requires base + end <= |s| && end >= ACL_HEAD
    ensures ok == AclOk(s, base, ACL_HEAD, Le16(s, base + 4), end)
  {
    hide AceOk, Le16;
    ok := true;
    var count, off, nace := Le16(s, base + 4), ACL_HEAD, 0;
    while nace < count && ok
      invariant 0 <= nace <= count && off >= 0
      invariant AclOk(s, base, ACL_HEAD, count, end) == (ok && AclOk(s, base, off, count - nace, end))
      decreases count - nace
    {
      if off + MIN_ACE > end {
        ok := false;
      } else {
        var size := Le16(s, base + off + 2);
        ok := AceOk(s, base + off, size, off + size <= end);
        off := off + size;
      }
      nace := nace + 1;
    }
  }

  // ----- what acceptance guarantees

  /** Where the `k`-th entry begins, following the sizes as long as entries begin within range. */
  function EntryOff(s: seq<byte>, base: nat, off: nat, k: nat, end: nat): (r: nat)
    requires base + end <= |s|
    decreases k
  {
    if k == 0 || off + MIN_ACE > end then off
    else EntryOff(s, base, off + Le16(s, base + off + 2), k - 1, end)
  }

  /** The types whose SID stands where valid_acl and the interpreters look for it. */
  predicate SidType(kind: nat) {
    kind <= 2 || kind == 9 || kind == 10 || kind == 13 || kind == 17 || kind == 18 || kind == 19
  }

  /** The whole entry lies within the list, and its SID within the entry. */
  predicate EntryFits(s: seq<byte>, base: nat, off: nat, end: nat)
    requires base + end <= |s|
  {
    && off + MIN_ACE <= end
    && var size, kind, sidEnd := Le16(s, base + off + 2), s[base + off], 16 + 4 * Count(s, base + off + 9);
       && off + size <= end
       && (SidType(kind) ==> ValidSidAt(s, base + off + 8) && sidEnd <= size)
       && (kind <= 1 ==> sidEnd == size)
  }

  /** So does the `k`-th entry from `off` on. */
  predicate FitsAt(s: seq<byte>, base: nat, off: nat, k: nat, end: nat)
    requires base + end <= |s|
  {
    EntryFits(s, base, EntryOff(s, base, off, k, end), end)
  }

  /** All the entries of the list at `base` fit. */
  ghost predicate AllFit(s: seq<byte>, base: nat, count: nat, end: nat)
    requires base + end <= |s|
  {
    forall k: nat | k < count :: FitsAt(s, base, ACL_HEAD, k, end)
  }

  lemma FitsNext(s: seq<byte>, base: nat, off: nat, k: nat, end: nat)
    requires base + end <= |s| && off + MIN_ACE <= end
    ensures FitsAt(s, base, off, k + 1, end) <==> FitsAt(s, base, off + Le16(s, base + off + 2), k, end)
  {
    hide EntryFits, Le16;
  }

  /** valid_acl accepts exactly the lists all of whose entries fit. */
  lemma {:induction false} AclOkMeans(s: seq<byte>, base: nat, off: nat, n: nat, end: nat)
    requires base + end <= |s|
    ensures AclOk(s, base, off, n, end) <==> forall k: nat | k < n :: FitsAt(s, base, off, k, end)
    decreases n
  {
    hide FitsAt, AceOk;
    if n > 0 {
      FirstFits(s, base, off, end);
      if off + MIN_ACE <= end {
        var rest := off + Le16(s, base + off + 2);
        AclOkMeans(s, base, rest, n - 1, end);
        forall k: nat | k < n
          ensures FitsAt(s, base, off, k, end) <==> if k == 0 then FitsAt(s, base, off, 0, end) else FitsAt(s, base, rest, k - 1, end)
        {
          if k > 0 { FitsNext(s, base, off, k - 1, end); }
        }
        if forall k: nat | k < n :: FitsAt(s, base, off, k, end) {
          forall k: nat | k < n - 1
            ensures FitsAt(s, base, rest, k, end)
          {
            assert FitsAt(s, base, off, k + 1, end);
          }
        }
      } else {
        assert !FitsAt(s, base, off, 0, end);
      }
    }
  }

  lemma FirstFits(s: seq<byte>, base: nat, off: nat, end: nat)
    requires base + end <= |s|
    ensures off + MIN_ACE > end ==> !FitsAt(s, base, off, 0, end)
    ensures off + MIN_ACE <= end ==>
              var size := Le16(s, base + off + 2);
              FitsAt(s, base, off, 0, end) <==> AceOk(s, base + off, size, off + size <= end)
  {
  }

  /** The end of the SID at `p`. */
  function SidEnd(s: seq<byte>, p: nat): nat
    requires p + 1 < |s|
  {
    p + 8 + 4 * Count(s, p + 1)
  }

  /** The longest SID: fifteen sub-authorities. */
  const MAX_SID: nat := 68

  /**
   What ntfs_valid_descr guarantees of a descriptor it accepts: the group SID lies within its
   storage; so do all the entries of both lists; so does the owner SID if it is that of the
   group, or begins behind its end, as ntfs_attr_size then looks at it, or if the longest SID would.
   */
  lemma AcceptedWithin(s: seq<byte>, n: nat)
    requires n <= |s| && DescrOk(s, n)
    ensures var o, g, sa, da := Le32(s, 4), Le32(s, 8), Le32(s, 12), Le32(s, 16);
            && SidEnd(s, g) <= n
            && (o == g || o >= SidEnd(s, g) || o + MAX_SID <= n ==> SidEnd(s, o) <= n)
            && (da != 0 ==> da + ACL_HEAD <= n && AllFit(s, da, Le16(s, da + 4), n - da))
            && (sa != 0 ==> sa + ACL_HEAD <= n && AllFit(s, sa, Le16(s, sa + 4), n - sa))
  {
    hide Le16, Le32, AclOk, FitsAt;
    var sa, da := Le32(s, 12), Le32(s, 16);
    if da != 0 { AclOkMeans(s, da, ACL_HEAD, Le16(s, da + 4), n - da); }
    if sa != 0 { AclOkMeans(s, sa, ACL_HEAD, Le16(s, sa + 4), n - sa); }
  }

  /** An accepted descriptor of `n` bytes with its owner and group there, and that many sub-authorities of the group. */
  ghost predicate Accepted(s: seq<byte>, n: nat, o: nat, g: nat, c: nat) {
    |s| == n && DescrOk(s, n) && Le32(s, 4) == o && Le32(s, 8) == g && Count(s, g + 1) == c
  }

  /** The owner and the group may be placed so, as far as each is concerned. */
  predicate Placeable(n: nat, o: nat, g: nat, c: nat) {
    && HEAD <= o && o + 2 < n && o % 4 == 0 && HEAD <= g && g + 2 < n && g % 4 == 0
    && c <= 15 && g + 8 + 4 * c <= n < WORD
  }

  /**
   Where the promise that the owner lies within the storage holds: exactly if the owner is the
   group, or begins behind its end, or has room for the longest SID.
   */
  lemma OwnerCondition(n: nat, o: nat, g: nat, c: nat)
    requires Placeable(n, o, g, c)
    ensures (forall s: seq<byte> | Accepted(s, n, o, g, c) :: SidEnd(s, o) <= n)
            <==> o == g || o >= g + 8 + 4 * c || o + MAX_SID <= n
  {
    hide DescrOk, Le32, Specimen, EntryFits, AllFit;
    if o == g || o >= g + 8 + 4 * c || o + MAX_SID <= n {
      forall s: seq<byte> | Accepted(s, n, o, g, c)
        ensures SidEnd(s, o) <= n
      {
        AcceptedWithin(s, n);
      }
    } else {
      SpecimenAccepted(n, o, g, c);
      assert Accepted(Specimen(n, o, g, c), n, o, g, c) && SidEnd(Specimen(n, o, g, c), o) > n;
    }
  }

  /** No lists, and an owner of fifteen sub-authorities. */
  function Specimen(n: nat, o: nat, g: nat, c: nat): (s: seq<byte>)
    requires Placeable(n, o, g, c)
    ensures |s| == n
  {
    [1, 0, 0, 0] + (Word32(o) + (Word32(g) + (Word32(0) + (Word32(0) + SidPart(n, o, g, c)))))
  }

  function SidByte(p: int, o: nat, g: nat, c: nat): byte
    requires c <= 15
  {
    if p == o || p == g then 1 else if p == g + 1 then c else if p == o + 1 then 15 else 0
  }

  function SidPart(n: nat, o: nat, g: nat, c: nat): (r: seq<byte>)
    requires n >= HEAD && c <= 15
    ensures |r| == n - HEAD && forall k | 0 <= k < |r| :: r[k] == SidByte(k + HEAD, o, g, c)
  {
    seq<byte>(n - HEAD, k => SidByte(k + HEAD, o, g, c))
  }

  lemma SpecimenFields(n: nat, o: nat, g: nat, c: nat)
    requires Placeable(n, o, g, c)
    ensures var s := Specimen(n, o, g, c);
            && s[0] == 1 && Le32(s, 4) == o && Le32(s, 8) == g && Le32(s, 12) == 0 && Le32(s, 16) == 0
            && forall p | HEAD <= p < n :: s[p] == SidByte(p, o, g, c)
  {
    hide Word32, Le32, At, SidByte;
    var body := SidPart(n, o, g, c);
    var s := Specimen(n, o, g, c);
    assert At(s, 0, s) by { WholeAt(s); }
    AtPart(s, 0, [1, 0, 0, 0], Word32(o) + (Word32(g) + (Word32(0) + (Word32(0) + body))));
    AtPart(s, 4, Word32(o), Word32(g) + (Word32(0) + (Word32(0) + body)));
    AtPart(s, 8, Word32(g), Word32(0) + (Word32(0) + body));
    AtPart(s, 12, Word32(0), Word32(0) + body);
    AtPart(s, 16, Word32(0), body);
    AtIndex(s, 0, [1, 0, 0, 0], 0);
    ReadWord32(s, 4, o);
    ReadWord32(s, 8, g);
    ReadWord32(s, 12, 0);
    ReadWord32(s, 16, 0);
    forall p | HEAD <= p < n
      ensures s[p] == SidByte(p, o, g, c)
    {
      AtIndex(s, HEAD, body, p - HEAD);
    }
  }

  lemma WholeAt(s: seq<byte>)
    ensures At(s, 0, s)
  {
    assert s[0..0 + |s|] == s;
  }

  lemma SpecimenAccepted(n: nat, o: nat, g: nat, c: nat)
    requires Placeable(n, o, g, c) && o != g && o < g + 8 + 4 * c
    ensures var s := Specimen(n, o, g, c);
            DescrOk(s, n) && Le32(s, 4) == o && Le32(s, 8) == g && Count(s, g + 1) == c && SidEnd(s, o) == o + MAX_SID
  {
    hide Specimen, Le16, Le32, AttrSize, AclOk;
    var s := Specimen(n, o, g, c);
    SpecimenFields(n, o, g, c);
    assert s[o] == 1 && s[o + 1] == 15 && s[g] == 1 && s[g + 1] == c;
    GroupLast(s);
  }

  /** Without lists, and with the owner before the end of the group, the group ends the descriptor. */
  lemma GroupLast(s: seq<byte>)
    requires |s| >= HEAD && Le32(s, 12) == 0 && Le32(s, 16) == 0
    requires HEAD <= Le32(s, 8) && Le32(s, 8) + 1 < |s| && Le32(s, 4) < SidEnd(s, Le32(s, 8))
    ensures AttrSize(s) == Some(SidEnd(s, Le32(s, 8)))
  {
    hide Le16, Le32;
  }

  // ----- what the built layout looks like to the check

  /** An owner or group that can be stored. */
  predicate Stored(sid: Sid) {
    Storable(sid) && sid.revision == 1 && 0 < |sid.subs| <= 15
  }

  ghost predicate StoredAces(aces: seq<Ace>) {
    forall i | 0 <= i < |aces| :: aces[i].kind <= 1 && Stored(aces[i].sid)
  }

  lemma {:induction false} AcesOk(s: seq<byte>, base: nat, aces: seq<Ace>, k: nat, end: nat)
    requires base + end <= |s| && k <= |aces| && StoredAces(aces)
    requires At(s, base + ACL_HEAD, AcesBytes(aces)) && ACL_HEAD + |AcesBytes(aces)| <= end
    ensures AclOk(s, base, ACL_HEAD + Offset(aces, k), |aces| - k, end)
    decreases |aces| - k
  {
    hide AcesBytes, AceBytes, Le16, Offset, At, AclOk, AceOk, ReadAce;
    if k < |aces| {
      AceAt(s, base + ACL_HEAD, aces, k);
      var p := base + ACL_HEAD + Offset(aces, k);
      AceBack(s, p, aces[k]);
      OneAceOk(s, p, aces[k]);
      AcesOk(s, base, aces, k + 1, end);
      AclOkStep(s, base, ACL_HEAD + Offset(aces, k), |aces| - k, end);
    } else {
      AclOkNone(s, base, ACL_HEAD + Offset(aces, k), end);
    }
  }

  lemma AclOkNone(s: seq<byte>, base: nat, off: nat, end: nat)
    requires base + end <= |s|
    ensures AclOk(s, base, off, 0, end)
  {
  }

  lemma AclOkStep(s: seq<byte>, base: nat, off: nat, n: nat, end: nat)
    requires base + end <= |s| && n > 0 && off + MIN_ACE <= end
    requires AceOk(s, base + off, Le16(s, base + off + 2), off + Le16(s, base + off + 2) <= end)
    requires AclOk(s, base, off + Le16(s, base + off + 2), n - 1, end)
    ensures AclOk(s, base, off, n, end)
  {
  }

  lemma OneAceOk(s: seq<byte>, p: nat, a: Ace)
    requires At(s, p, AceBytes(a)) && a.kind <= 1 && Stored(a.sid)
    ensures p + MIN_ACE <= p + AceSize(a) <= |s| && AceOk(s, p, AceSize(a), true)
  {
    hide Le16, ReadAce, ReadSid, SidBytes;
    AceBack(s, p, a);
    AtPart(s, p, AceHead(a), SidBytes(a.sid));
    SidBack(s, p + 8, a.sid);
  }

  /** Every descriptor of this layout passes the check, whatever room is left behind it. */
  lemma LaidOk(s: seq<byte>, aces: seq<Ace>, usid: Sid, gsid: Sid, n: nat)
    requires Laid(s, aces, usid, gsid) && StoredAces(aces) && Stored(usid) && Stored(gsid) && |AcesBytes(aces)| % 4 == 0
    requires HEAD + AclSize(aces) + SidSize(usid) + SidSize(gsid) <= n <= |s|
    ensures AttrSize(s) == Some(HEAD + AclSize(aces) + SidSize(usid) + SidSize(gsid))
    ensures DescrOk(s, n)
  {
    hide Le16, Le32, SidBytes, AcesBytes, AclOk, ReadSid;
    SidBack(s, HEAD + AclSize(aces), usid);
    SidBack(s, HEAD + AclSize(aces) + SidSize(usid), gsid);
    assert Offset(aces, 0) == 0 by { assert aces[..0] == []; NoAces(); }
    AcesOk(s, HEAD, aces, 0, n - HEAD);
  }

  lemma NoAces()
    ensures AcesBytes([]) == []
  {
  }

  // ----- ntfs_build_permissions

  /** The entries from offset `off` on, of a list in which their SIDs lie. */
  function EntriesAt(s: seq<byte>, base: nat, off: nat, n: nat, end: nat): seq<Ace>
    requires base + end <= |s| && Readable(s, base, off, n, end)
    decreases n
  {
    if n == 0 then [] else [ReadAce(s, base + off)] + EntriesAt(s, base, off + Le16(s, base + off + 2), n - 1, end)
  }

  /** What the interpreters read of an entry, whatever its type, lies within the storage: all up to the end of its SID. */
  predicate SidInside(s: seq<byte>, base: nat, off: nat, end: nat)
    requires base + end <= |s|
  {
    off + 16 <= end && off + 16 + 4 * Count(s, base + off + 9) <= end
  }

  /** So it does for `n` entries from `off` on. */
  predicate Readable(s: seq<byte>, base: nat, off: nat, n: nat, end: nat)
    requires base + end <= |s|
    decreases n
  {
    n == 0 || (SidInside(s, base, off, end) && Readable(s, base, off + Le16(s, base + off + 2), n - 1, end))
  }

  /** Where the DACL is, if there is one, and its entries. */
  predicate ReadableDacl(s: seq<byte>, n: nat)
    requires HEAD <= n <= |s|
  {
    var da := Le32(s, 16);
    da == 0 || (da + ACL_HEAD <= n && Readable(s, da, ACL_HEAD, Le16(s, da + 4), n - da))
  }

  function DaclEntries(s: seq<byte>, n: nat): seq<Ace>
    requires HEAD <= n <= |s| && ReadableDacl(s, n)
  {
    var da := Le32(s, 16);
    if da == 0 then [] else EntriesAt(s, da, ACL_HEAD, Le16(s, da + 4), n - da)
  }

  /** The longest SID of an entry that is not checked: 255 sub-authorities. */
  const MAX_FOREIGN_SID: nat := 1028

  /** The entry has a type whose SID is checked, or room for the longest SID. */
  predicate SidBounded(kind: nat, off: nat, end: nat) {
    SidType(kind) || off + 8 + MAX_FOREIGN_SID <= end
  }

  predicate BoundedAt(s: seq<byte>, base: nat, off: nat, k: nat, end: nat)
    requires base + end <= |s|
  {
    var at := EntryOff(s, base, off, k, end);
    at + MIN_ACE <= end && SidBounded(s[base + at], at, end)
  }

  ghost predicate AllBounded(s: seq<byte>, base: nat, count: nat, end: nat)
    requires base + end <= |s|
  {
    forall k: nat | k < count :: BoundedAt(s, base, ACL_HEAD, k, end)
  }

  lemma BoundedInside(s: seq<byte>, base: nat, off: nat, end: nat)
    requires base + end <= |s| && EntryFits(s, base, off, end) && SidBounded(s[base + off], off, end)
    ensures SidInside(s, base, off, end)
  {
    hide Le16, ValidSidAt;
  }

  /** An accepted descriptor can be interpreted if each entry of its DACL has a checked type or room for the longest SID. */
  lemma AcceptedReadable(s: seq<byte>, n: nat)
    requires n <= |s| && DescrOk(s, n)
    requires var da := Le32(s, 16);
             da != 0 ==> da + ACL_HEAD <= n && AllBounded(s, da, Le16(s, da + 4), n - da)
    ensures ReadableDacl(s, n)
  {
    hide Le16, Le32, AclOk, FitsAt, Readable, BoundedAt;
    var da := Le32(s, 16);
    if da != 0 {
      AcceptedWithin(s, n);
      ReadableMeans(s, da, ACL_HEAD, Le16(s, da + 4), n - da);
    }
  }

  lemma {:induction false} ReadableMeans(s: seq<byte>, base: nat, off: nat, n: nat, end: nat)
    requires base + end <= |s|
    requires forall k: nat | k < n :: FitsAt(s, base, off, k, end)
    requires forall k: nat | k < n :: BoundedAt(s, base, off, k, end)
    ensures Readable(s, base, off, n, end)
    decreases n
  {
    hide Le16, SidBounded, EntryFits, SidInside;
    if n > 0 {
      assert FitsAt(s, base, off, 0, end) && BoundedAt(s, base, off, 0, end);
      BoundedInside(s, base, off, end);
      var rest := off + Le16(s, base + off + 2);
      forall k: nat | k < n - 1
        ensures FitsAt(s, base, rest, k, end) && BoundedAt(s, base, rest, k, end)
      {
        assert FitsAt(s, base, off, k + 1, end) && BoundedAt(s, base, off, k + 1, end);
      }
      ReadableMeans(s, base, rest, n - 1, end);
    }
  }

  // ----- exactly which entries are safe to read

  /** An accepted descriptor of `n` bytes whose DACL, at `da`, has an entry of that type at offset `off`. */
  ghost predicate HasEntry(s: seq<byte>, n: nat, da: nat, off: nat, kind: nat) {
    && |s| == n && DescrOk(s, n) && Le32(s, 16) == da && da + off + MIN_ACE <= n && s[da + off] == kind
    && exists k: nat :: IsEntry(s, n, da, off, k)
  }

  ghost predicate IsEntry(s: seq<byte>, n: nat, da: nat, off: nat, k: nat)
    requires |s| == n && da + ACL_HEAD <= n
  {
    k < Le16(s, da + 4) && EntryOff(s, da, ACL_HEAD, k, n - da) == off
  }

  /** A DACL may stand there and have its first entry there, or one that does not overlap the first. */
  predicate EntryPlace(n: nat, da: nat, off: nat, kind: nat) {
    && HEAD <= da && da % 4 == 0 && da + off + MIN_ACE <= n < WORD && kind < 256
    && (off == ACL_HEAD || ACL_HEAD + MIN_ACE <= off < 65536)
  }

  /**
   Where the promise that an accepted descriptor holds within its storage extends to the SID that the
   interpreters read of an entry: exactly if valid_acl checks the SID of its type, or there is
   room for the longest one.
   */
  lemma EntryCondition(n: nat, da: nat, off: nat, kind: nat)
    requires EntryPlace(n, da, off, kind)
    ensures (forall s: seq<byte> | HasEntry(s, n, da, off, kind) :: SidInside(s, da, off, n - da))
            <==> SidBounded(kind, off, n - da)
  {
    hide DescrOk, Le32, Le16, EntrySpecimen, EntryFits, EntryOff, SidInside, SidBounded;
    if SidBounded(kind, off, n - da) {
      forall s: seq<byte> | HasEntry(s, n, da, off, kind)
        ensures SidInside(s, da, off, n - da)
      {
        AcceptedWithin(s, n);
        var k: nat :| IsEntry(s, n, da, off, k);
        assert FitsAt(s, da, ACL_HEAD, k, n - da);
        BoundedInside(s, da, off, n - da);
      }
    } else {
      EntrySpecimenOk(n, da, off, kind);
      assert HasEntry(EntrySpecimen(n, da, off, kind), n, da, off, kind);
    }
  }

  /** An input: one entry of type 5 at the end of 64 bytes. */
  lemma ForeignEntry()
    ensures var s := EntrySpecimen(64, 36, 8, 5);
            DescrOk(s, 64) && AllFit(s, 36, Le16(s, 40), 28) && !SidInside(s, 36, 8, 28) && !ReadableDacl(s, 64)
  {
    hide DescrOk, Le32, Le16, EntrySpecimen, EntryFits, EntryOff, SidInside;
    EntrySpecimenOk(64, 36, 8, 5);
    AcceptedWithin(EntrySpecimen(64, 36, 8, 5), 64);
  }

  /** A place for a SID without sub-authorities that serves as owner and group. */
  function OwnerPlace(da: nat, off: nat): nat {
    if da > HEAD then HEAD else if off == ACL_HEAD then da + 4 else da + 16
  }

  /** A DACL with the entry, and before it one of type 5 if it is not the first; its SID claims 255 sub-authorities. */
  function EntrySpecimen(n: nat, da: nat, off: nat, kind: nat): (s: seq<byte>)
    requires EntryPlace(n, da, off, kind)
    ensures |s| == n
  {
    var q := OwnerPlace(da, off);
    [1, 0, 4, 0] + (Word32(q) + (Word32(q) + (Word32(0) + (Word32(da) + EntryPart(n, da, off, kind)))))
  }

  function EntryPart(n: nat, da: nat, off: nat, kind: nat): (r: seq<byte>)
    requires EntryPlace(n, da, off, kind)
    ensures |r| == n - HEAD && forall k | 0 <= k < |r| :: r[k] == EntryByte(k + HEAD, da, off, kind)
  {
    seq<byte>(n - HEAD, k => EntryByte(k + HEAD, da, off, kind))
  }

  function EntryByte(p: int, da: nat, off: nat, kind: nat): byte
    requires kind < 256 && (off == ACL_HEAD || ACL_HEAD + MIN_ACE <= off < 65536)
  {
    if p == da then 2
    else if p == da + 4 then (if off == ACL_HEAD then 1 else 2)
    else if p == OwnerPlace(da, off) then 1
    else if p == da + off then kind
    else if p == da + off + 9 then 255
    else if off == ACL_HEAD then 0
    else if p == da + 8 then 5
    else if p == da + 10 then (off - ACL_HEAD) % 256
    else if p == da + 11 then (off - ACL_HEAD) / 256
    else 0
  }

  lemma EntrySpecimenFields(n: nat, da: nat, off: nat, kind: nat)
    requires EntryPlace(n, da, off, kind)
    ensures var s, q := EntrySpecimen(n, da, off, kind), OwnerPlace(da, off);
            && s[0] == 1 && Le16(s, 2) == 4 && Le32(s, 4) == q && Le32(s, 8) == q && Le32(s, 12) == 0 && Le32(s, 16) == da
            && forall p | HEAD <= p < n :: s[p] == EntryByte(p, da, off, kind)
  {
    hide Word32, Le32, At, EntryByte, OwnerPlace;
    var body, q := EntryPart(n, da, off, kind), OwnerPlace(da, off);
    assert q < WORD by { OwnerPlaceFits(n, da, off, kind); }
    var s := EntrySpecimen(n, da, off, kind);
    assert At(s, 0, s) by { WholeAt(s); }
    AtPart(s, 0, [1, 0, 4, 0], Word32(q) + (Word32(q) + (Word32(0) + (Word32(da) + body))));
    AtPart(s, 4, Word32(q), Word32(q) + (Word32(0) + (Word32(da) + body)));
    AtPart(s, 8, Word32(q), Word32(0) + (Word32(da) + body));
    AtPart(s, 12, Word32(0), Word32(da) + body);
    AtPart(s, 16, Word32(da), body);
    AtIndex(s, 0, [1, 0, 4, 0], 0);
    AtIndex(s, 0, [1, 0, 4, 0], 2);
    AtIndex(s, 0, [1, 0, 4, 0], 3);
    ReadWord32(s, 4, q);
    ReadWord32(s, 8, q);
    ReadWord32(s, 12, 0);
    ReadWord32(s, 16, da);
    forall p | HEAD <= p < n
      ensures s[p] == EntryByte(p, da, off, kind)
    {
      AtIndex(s, HEAD, body, p - HEAD);
    }
  }

  lemma OwnerPlaceFits(n: nat, da: nat, off: nat, kind: nat)
    requires EntryPlace(n, da, off, kind)
    ensures var q := OwnerPlace(da, off); HEAD <= q && q + 8 <= n < WORD && q % 4 == 0
  {
  }

  /** The bytes that the check and the walk along the entries look at. */
  lemma EntrySpecimenBytes(n: nat, da: nat, off: nat, kind: nat)
    requires EntryPlace(n, da, off, kind)
    ensures var s, q := EntrySpecimen(n, da, off, kind), OwnerPlace(da, off);
            && q + 8 <= n && s[q] == 1 && s[q + 1] == 0 && s[da] == 2 && Le16(s, da + 2) == 0
            && Le16(s, da + 4) == (if off == ACL_HEAD then 1 else 2)
            && s[da + off] == kind && s[da + off + 9] == 255 && Le16(s, da + off + 2) == 0
            && (off != ACL_HEAD ==> s[da + 8] == 5 && Le16(s, da + 10) == off - ACL_HEAD)
  {
    hide EntrySpecimen;
    EntrySpecimenFields(n, da, off, kind);
  }

  lemma EntrySpecimenAcl(s: seq<byte>, n: nat, da: nat, off: nat, kind: nat)
    requires EntryPlace(n, da, off, kind) && !SidType(kind) && |s| == n
    requires Le16(s, da + 4) == (if off == ACL_HEAD then 1 else 2) && s[da + off] == kind && Le16(s, da + off + 2) == 0
    requires off != ACL_HEAD ==> s[da + 8] == 5 && Le16(s, da + 10) == off - ACL_HEAD
    ensures AclOk(s, da, ACL_HEAD, Le16(s, da + 4), n - da)
    ensures IsEntry(s, n, da, off, if off == ACL_HEAD then 0 else 1)
  {
    hide Le16, ValidSidAt;
    AclOkNone(s, da, off, n - da);
    AclOkStep(s, da, off, 1, n - da);
    if off != ACL_HEAD { AclOkStep(s, da, ACL_HEAD, 2, n - da); }
  }

  lemma EntrySpecimenOk(n: nat, da: nat, off: nat, kind: nat)
    requires EntryPlace(n, da, off, kind) && !SidBounded(kind, off, n - da)
    ensures var s := EntrySpecimen(n, da, off, kind);
            && DescrOk(s, n) && Le32(s, 16) == da && s[da + off] == kind && !SidInside(s, da, off, n - da)
            && IsEntry(s, n, da, off, if off == ACL_HEAD then 0 else 1)
  {
    hide EntrySpecimen, Le16, Le32, AclOk, EntryOff, OwnerPlace, AttrSize, IsEntry;
    var s, q := EntrySpecimen(n, da, off, kind), OwnerPlace(da, off);
    EntrySpecimenFields(n, da, off, kind);
    EntrySpecimenBytes(n, da, off, kind);
    OwnerPlaceFits(n, da, off, kind);
    EntrySpecimenAcl(s, n, da, off, kind);
    EntrySpecimenSize(s, n, q, da);
  }

  lemma EntrySpecimenSize(s: seq<byte>, n: nat, q: nat, da: nat)
    requires |s| == n && HEAD <= q && q + 8 <= n && s[q + 1] == 0 && da + ACL_HEAD <= n && Le16(s, da + 2) == 0
    requires Le32(s, 4) == q && Le32(s, 8) == q && Le32(s, 12) == 0 && Le32(s, 16) == da
    ensures AttrSize(s).Some? && AttrSize(s).value <= n
  {
    hide Le16, Le32;
  }

  /**
   The entries of the DACL are read one after the other and added up; without a DACL there is none. A class gets a
   permission exactly if the entries grant it one of the rights for that and deny that right neither to it nor to everyone.
   */
  method BuildPermissions(s: seq<byte>, n: nat, usid: Sid, gsid: Sid, posix: bool) returns (perm: Mode)
    requires HEAD <= n <= |s| && ReadableDacl(s, n)
    ensures perm == Permissions(DaclEntries(s, n), usid, gsid, posix)
    ensures perm < 0x1000
    ensures forall who, p :: AclMeaning.On(perm, AclMeaning.ModeBit(who, p)) <==> AclMeaning.May(DaclEntries(s, n), who, p, usid, gsid, posix)
  {
    hide Le16, Le32, Step, Finished, LastOf, Fold, ReadAce, Readable, EntriesAt, AclMeaning.On, AclMeaning.ModeBit, AclMeaning.May, AclMeaning.Says;
    var da := Le32(s, 16);
    var count, off, nace, t := 0, 0, 0, START;
    if da != 0 {
      count, off := Le16(s, da + 4), da + ACL_HEAD;
    }
    while nace < count
      invariant 0 <= nace <= count && (da != 0 ==> off >= da && Readable(s, da, off - da, count - nace, n - da))
      invariant da == 0 ==> count == 0 && t == START
      invariant da != 0 ==>
                  Fold(t, EntriesAt(s, da, off - da, count - nace, n - da), usid, gsid, posix) == Fold(START, DaclEntries(s, n), usid, gsid, posix)
      decreases count - nace
    {
      ReadableStep(s, da, off - da, count - nace, n - da);
      FoldOne(t, ReadAce(s, off), EntriesAt(s, da, off - da + Le16(s, off + 2), count - nace - 1, n - da), usid, gsid, posix);
      t := Step(t, ReadAce(s, off), usid, gsid, posix);
      off := off + Le16(s, off + 2);
      nace := nace + 1;
    }
    FoldNone(t, usid, gsid, posix);
    if da != 0 { NoEntries(s, da, off - da, n - da); }
    perm := Finished(LastOf(t, usid, gsid));
    AclMeaning.SpecialsMean(DaclEntries(s, n), usid, gsid, posix);
    forall who, p
      ensures AclMeaning.On(perm, AclMeaning.ModeBit(who, p)) <==> AclMeaning.May(DaclEntries(s, n), who, p, usid, gsid, posix)
    {
      AclMeaning.PermissionsMean(DaclEntries(s, n), who, p, usid, gsid, posix);
    }
  }

  lemma ReadableStep(s: seq<byte>, base: nat, off: nat, n: nat, end: nat)
    requires base + end <= |s| && Readable(s, base, off, n, end) && n > 0
    ensures var p := base + off;
            && p + 16 <= |s| && p + 16 + 4 * Count(s, p + 9) <= |s|
            && Readable(s, base, off + Le16(s, p + 2), n - 1, end)
            && EntriesAt(s, base, off, n, end) == [ReadAce(s, p)] + EntriesAt(s, base, off + Le16(s, p + 2), n - 1, end)
  {
    hide ReadAce;
  }

  lemma NoEntries(s: seq<byte>, base: nat, off: nat, end: nat)
    requires base + end <= |s|
    ensures Readable(s, base, off, 0, end) && EntriesAt(s, base, off, 0, end) == []
  {
  }

  lemma FoldNone(t: Tally, usid: Sid, gsid: Sid, posix: bool)
    ensures Fold(t, [], usid, gsid, posix) == t
  {
  }

  /** In the layout that is built, the entries read are those that were stored. */
  lemma {:induction false} LaidEntries(s: seq<byte>, aces: seq<Ace>, k: nat, end: nat)
    requires HEAD + end <= |s| && k <= |aces| && StoredAces(aces)
    requires At(s, HEAD + ACL_HEAD, AcesBytes(aces)) && ACL_HEAD + |AcesBytes(aces)| <= end
    ensures Readable(s, HEAD, ACL_HEAD + Offset(aces, k), |aces| - k, end)
    ensures EntriesAt(s, HEAD, ACL_HEAD + Offset(aces, k), |aces| - k, end) == aces[k..]
    decreases |aces| - k
  {
    hide AcesBytes, AceBytes, Le16, Offset, At, ReadAce;
    if k < |aces| {
      AceAt(s, HEAD + ACL_HEAD, aces, k);
      var p := HEAD + ACL_HEAD + Offset(aces, k);
      AceBack(s, p, aces[k]);
      OneAceInside(s, HEAD, ACL_HEAD + Offset(aces, k), aces[k], end);
      LaidEntries(s, aces, k + 1, end);
      assert aces[k..] == [aces[k]] + aces[k + 1..];
    }
  }

  lemma OneAceInside(s: seq<byte>, base: nat, off: nat, a: Ace, end: nat)
    requires base + end <= |s| && At(s, base + off, AceBytes(a)) && StorableAce(a) && off + AceSize(a) <= end
    ensures SidInside(s, base, off, end)
  {
    hide Le16, ReadAce, ReadSid, SidBytes;
    AtPart(s, base + off, AceHead(a), SidBytes(a.sid));
    SidBack(s, base + off + 8, a.sid);
  }

  lemma LaidReadable(s: seq<byte>, aces: seq<Ace>, usid: Sid, gsid: Sid)
    requires Laid(s, aces, usid, gsid) && StoredAces(aces)
    ensures HEAD <= |s| && ReadableDacl(s, |s|) && DaclEntries(s, |s|) == aces
  {
    hide Le16, Le32, AcesBytes, SidBytes, Readable, EntriesAt;
    assert Offset(aces, 0) == 0 by { assert aces[..0] == []; NoAces(); }
    LaidEntries(s, aces, 0, |s| - HEAD);
    assert aces[0..] == aces;
  }

  // ----- buildacls and ntfs_build_descr

  /** The size allocated for a new descriptor. */
  function DescrSize(mode: Mode, isdir: bool, usid: Sid, gsid: Sid): nat {
    HEAD + SidSize(usid) + SidSize(gsid) + ACL_HEAD + 2 * (8 + SidSize(usid)) + 2 * (8 + SidSize(gsid))
    + 8 + SidSize(WORLD) + 8 + SidSize(ADMIN) + 8 + SidSize(SYSTEM)
    + (if isdir then 8 + SidSize(WORLD) else 0) + (if mode & 0xe00 != 0 then 8 + SidSize(NOBODY) else 0)
  }

  /** memcpy into the descriptor. */
  method Put(attr: array<byte>, at: nat, part: seq<byte>)
    requires at + |part| <= attr.Length
    modifies attr
    ensures At(attr[..], at, part)
    ensures attr[..][..at] == old(attr[..])[..at] && attr[..][at + |part|..] == old(attr[..])[at + |part|..]
  {
    forall i | 0 <= i < |part| {
      attr[at + i] := part[i];
    }
    assert attr[at..at + |part|] == part;
    assert attr[..][at..at + |part|] == attr[at..at + |part|];
  }

  /** The ACL at `offs` holds these entries so far. */
  ghost predicate Holds(s: seq<byte>, offs: nat, pos: nat, aces: seq<Ace>) {
    pos == ACL_HEAD + |AcesBytes(aces)| && At(s, offs + ACL_HEAD, AcesBytes(aces))
  }

  lemma HoldsMore(s: seq<byte>, t: seq<byte>, offs: nat, pos: nat, aces: seq<Ace>, a: Ace)
    requires Holds(s, offs, pos, aces) && |s| == |t| && t[..offs + pos] == s[..offs + pos] && At(t, offs + pos, AceBytes(a))
    ensures Holds(t, offs, pos + AceSize(a), aces + [a])
  {
    hide AceBytes, AcesBytes;
    AcesAppend(aces, [a]);
    AcesOne(a);
    var b := AcesBytes(aces);
    assert s[offs + ACL_HEAD..offs + pos] == s[..offs + pos][offs + ACL_HEAD..];
    assert t[offs + ACL_HEAD..offs + pos] == t[..offs + pos][offs + ACL_HEAD..];
    AtPart(t, offs + ACL_HEAD, b, AceBytes(a));
  }

  /** One more entry. */
  method PutAce(attr: array<byte>, offs: nat, pos: nat, a: Ace, ghost aces: seq<Ace>) returns (pos': nat)
    requires Holds(attr[..], offs, pos, aces) && offs + pos + AceSize(a) <= attr.Length
    modifies attr
    ensures pos' == pos + AceSize(a) && Holds(attr[..], offs, pos', aces + [a])
    ensures attr[..offs] == old(attr[..offs])
  {
    hide AceBytes, AcesBytes, Holds, At;
    ghost var s := attr[..];
    HoldsPos(s, offs, pos, aces);
    Put(attr, offs + pos, AceBytes(a));
    HoldsMore(s, attr[..], offs, pos, aces, a);
    assert attr[..offs] == attr[..][..offs + pos][..offs] && s[..offs] == s[..offs + pos][..offs];
    pos' := pos + AceSize(a);
  }

  lemma HoldsPos(s: seq<byte>, offs: nat, pos: nat, aces: seq<Ace>)
    requires Holds(s, offs, pos, aces)
    ensures pos >= ACL_HEAD && offs + pos <= |s|
  {
  }

  /** The denial and the grants for the owner, and the denial that files inherit from a directory. */
  method BuildOwner(attr: array<byte>, offs: nat, pos: nat, mode: Mode, isdir: bool, usid: Sid, gsid: Sid) returns (pos': nat, count: nat, ghost aces: seq<Ace>)
    requires Holds(attr[..], offs, pos, []) && offs + pos + 2 * (8 + SidSize(usid)) + (if isdir then 20 else 0) <= attr.Length
    modifies attr
    ensures aces == OwnerDenial(mode, isdir, usid, gsid) + NoExecForFiles(isdir)
                    + [Ace(ALLOWED, Inheritance(isdir), OwnerGrants(mode, isdir), usid)]
    ensures Holds(attr[..], offs, pos', aces) && attr[..offs] == old(attr[..offs])
    ensures count == |aces| && pos' <= pos + 2 * (8 + SidSize(usid)) + (if isdir then 20 else 0)
  {
    hide Holds, OwnerDenials, OwnerGrants, Inheritance;
    pos', count, aces := pos, 0, [];
    if !AdminOwns(usid, gsid) {
      var denials := OwnerDenials(mode, isdir, GroupOwns(usid, gsid));
      if denials != 0 {
        pos' := PutAce(attr, offs, pos', Ace(DENIED, Inheritance(isdir), denials, usid), aces);
        count := count + 1;
        aces := aces + [Ace(DENIED, Inheritance(isdir), denials, usid)];
      }
    }
    assert aces == OwnerDenial(mode, isdir, usid, gsid);
    if isdir {
      pos' := PutAce(attr, offs, pos', Ace(DENIED, INHERIT_ONLY | OBJECT_INHERIT, FILE_EXEC, WORLD), aces);
      count := count + 1;
      aces := aces + [Ace(DENIED, INHERIT_ONLY | OBJECT_INHERIT, FILE_EXEC, WORLD)];
    }
    assert aces == OwnerDenial(mode, isdir, usid, gsid) + NoExecForFiles(isdir);
    pos' := PutAce(attr, offs, pos', Ace(ALLOWED, Inheritance(isdir), OwnerGrants(mode, isdir), usid), aces);
    count := count + 1;
    aces := aces + [Ace(ALLOWED, Inheritance(isdir), OwnerGrants(mode, isdir), usid)];
  }

  /** The denial and the grants for the group, where it needs any. */
  method BuildGroup(attr: array<byte>, offs: nat, pos: nat, mode: Mode, isdir: bool, usid: Sid, gsid: Sid, ghost before: seq<Ace>)
    returns (pos': nat, count: nat, ghost aces: seq<Ace>)
    requires Holds(attr[..], offs, pos, before) && offs + pos + 2 * (8 + SidSize(gsid)) <= attr.Length
    modifies attr
    ensures aces == before + GroupDenial(mode, isdir, usid, gsid) + GroupGrant(mode, isdir, usid, gsid)
    ensures Holds(attr[..], offs, pos', aces) && attr[..offs] == old(attr[..offs]) && count == |aces| - |before| && pos' <= pos + 2 * (8 + SidSize(gsid))
  {
    hide Holds, GroupDenials, GroupGrants, Inheritance, GroupDiffers, GroupHasMore;
    pos', count, aces := pos, 0, before;
    if AdminOwns(usid, gsid) || GroupDiffers(mode) {
      if !AdminOwns(usid, gsid) && !GroupOwns(usid, gsid) {
        if GroupDenials(mode, isdir) != 0 {
          pos' := PutAce(attr, offs, pos', Ace(DENIED, Inheritance(isdir), GroupDenials(mode, isdir), gsid), aces);
          count := count + 1;
          aces := aces + [Ace(DENIED, Inheritance(isdir), GroupDenials(mode, isdir), gsid)];
        }
      }
      assert aces == before + GroupDenial(mode, isdir, usid, gsid);
      if AdminOwns(usid, gsid) || GroupOwns(usid, gsid) || GroupHasMore(mode) {
        pos' := PutAce(attr, offs, pos', Ace(ALLOWED, Inheritance(isdir), GroupGrants(mode, isdir), gsid), aces);
        count := count + 1;
        aces := aces + [Ace(ALLOWED, Inheritance(isdir), GroupGrants(mode, isdir), gsid)];
      }
    }
  }

  /** The entries for world, administrators and system, and the special flags. */
  method BuildOthers(attr: array<byte>, offs: nat, pos: nat, mode: Mode, isdir: bool, ghost before: seq<Ace>)
    returns (pos': nat, count: nat, ghost aces: seq<Ace>)
    requires Holds(attr[..], offs, pos, before) && offs + pos + 64 + (if mode & 0xe00 != 0 then 20 else 0) <= attr.Length
    modifies attr
    ensures aces == before + OtherAces(mode, isdir)
    ensures Holds(attr[..], offs, pos', aces) && attr[..offs] == old(attr[..offs])
    ensures count == |aces| - |before| && pos' <= pos + 64 + (if mode & 0xe00 != 0 then 20 else 0)
  {
    hide Holds, WorldGrants, Inheritance, Specials;
    var world := Ace(ALLOWED, Inheritance(isdir), WorldGrants(mode, isdir), WORLD);
    var admin := Ace(ALLOWED, Inheritance(isdir), FULL_RIGHTS, ADMIN);
    var system := Ace(ALLOWED, Inheritance(isdir), FULL_RIGHTS, SYSTEM);
    pos' := PutAce(attr, offs, pos, world, before);
    pos' := PutAce(attr, offs, pos', admin, before + [world]);
    pos' := PutAce(attr, offs, pos', system, before + [world] + [admin]);
    count, aces := 3, before + [world] + [admin] + [system];
    if mode & 0xe00 != 0 {
      pos' := PutAce(attr, offs, pos', Ace(ALLOWED, NO_PROPAGATE, Specials(mode), NOBODY), aces);
      count := count + 1;
      aces := aces + [Ace(ALLOWED, NO_PROPAGATE, Specials(mode), NOBODY)];
    }
    assert aces == before + OtherAces(mode, isdir);
  }

  function OtherAces(mode: Mode, isdir: bool): seq<Ace> {
    [Ace(ALLOWED, Inheritance(isdir), WorldGrants(mode, isdir), WORLD)]
    + ([Ace(ALLOWED, Inheritance(isdir), FULL_RIGHTS, ADMIN)]
    + ([Ace(ALLOWED, Inheritance(isdir), FULL_RIGHTS, SYSTEM)]
    + SpecialGrant(mode)))
  }

  lemma AcesInOrder(mode: Mode, isdir: bool, usid: Sid, gsid: Sid)
    ensures OwnerDenial(mode, isdir, usid, gsid) + NoExecForFiles(isdir) + [Ace(ALLOWED, Inheritance(isdir), OwnerGrants(mode, isdir), usid)]
            + GroupDenial(mode, isdir, usid, gsid) + GroupGrant(mode, isdir, usid, gsid) + OtherAces(mode, isdir)
            == Aces(mode, isdir, usid, gsid)
  {
    hide OwnerDenial, NoExecForFiles, GroupDenial, GroupGrant, SpecialGrant, OwnerGrants, WorldGrants, Inheritance;
  }

  /** buildacls: the DACL for a mode at `offs`; the size of the DACL is returned. */
  method BuildAcls(attr: array<byte>, offs: nat, mode: Mode, isdir: bool, usid: Sid, gsid: Sid) returns (pos: nat)
    requires offs + AclRoom(mode, isdir, usid, gsid) <= attr.Length
    modifies attr
    ensures var aces := Aces(mode, isdir, usid, gsid);
            && pos == AclSize(aces) <= AclRoom(mode, isdir, usid, gsid)
            && At(attr[..], offs, AclHead(pos, |aces|) + AcesBytes(aces))
    ensures attr[..offs] == old(attr[..offs])
  {
    hide Holds, AcesBytes, Aces, AclHead, At, OwnerDenial, NoExecForFiles, GroupDenial, GroupGrant, OtherAces, OwnerGrants, Inheritance;
    HoldsNone(attr[..], offs);
    var acecnt, n;
    ghost var aces;
    pos, acecnt, aces := BuildOwner(attr, offs, ACL_HEAD, mode, isdir, usid, gsid);
    pos, n, aces := BuildGroup(attr, offs, pos, mode, isdir, usid, gsid, aces);
    acecnt := acecnt + n;
    pos, n, aces := BuildOthers(attr, offs, pos, mode, isdir, aces);
    acecnt := acecnt + n;
    AcesInOrder(mode, isdir, usid, gsid);
    ghost var s := attr[..];
    HoldsPos(s, offs, pos, aces);
    Put(attr, offs, AclHead(pos, acecnt));
    assert attr[..offs] == attr[..][..offs] && s[..offs] == old(attr[..offs]);
    HoldsHead(s, attr[..], offs, pos, aces);
  }

  /** The room that the DACL may take in the allocated size. */
  function AclRoom(mode: Mode, isdir: bool, usid: Sid, gsid: Sid): nat {
    ACL_HEAD + 2 * (8 + SidSize(usid)) + 2 * (8 + SidSize(gsid)) + 64 + (if isdir then 20 else 0) + (if mode & 0xe00 != 0 then 20 else 0)
  }

  lemma HoldsNone(s: seq<byte>, offs: nat)
    requires offs + ACL_HEAD <= |s|
    ensures Holds(s, offs, ACL_HEAD, [])
  {
  }

  lemma HoldsHead(s: seq<byte>, t: seq<byte>, offs: nat, pos: nat, aces: seq<Ace>)
    requires Holds(s, offs, pos, aces) && |s| == |t| && offs + ACL_HEAD <= |s| && t[offs + ACL_HEAD..] == s[offs + ACL_HEAD..]
    requires At(t, offs, AclHead(pos, |aces|))
    ensures pos == AclSize(aces) && At(t, offs, AclHead(pos, |aces|) + AcesBytes(aces))
  {
    hide AcesBytes, AclHead, At;
    KeepAfter(s, t, offs + ACL_HEAD, AcesBytes(aces), offs + ACL_HEAD);
    AtPart(t, offs, AclHead(pos, |aces|), AcesBytes(aces));
  }

  /** ntfs_build_descr: the error branch for a descriptor longer than expected is not reached. */
  method BuildDescr(mode: Mode, isdir: bool, usid: Sid, gsid: Sid) returns (attr: array<byte>)
    ensures fresh(attr) && attr.Length == DescrSize(mode, isdir, usid, gsid)
    ensures At(attr[..], 0, Descr(Aces(mode, isdir, usid, gsid), usid, gsid))
  {
    hide Aces, AcesBytes, AclHead, At, SidBytes, Word16, Word32, Descr, DescrHead;
    ghost var aces := Aces(mode, isdir, usid, gsid);
    attr := new byte[DescrSize(mode, isdir, usid, gsid)](_ => 0);
    Put(attr, 0, [1, 0] + Word16(CONTROL));
    var aclsz := BuildAcls(attr, HEAD, mode, isdir, usid, gsid);
    if HEAD + aclsz + SidSize(usid) + SidSize(gsid) <= attr.Length {
      AddSids(attr, aclsz, usid, gsid, AclHead(aclsz, |aces|) + AcesBytes(aces));
      DescrParts(aces, usid, gsid);
    } else {
      assert false;
    }
  }

  /** The owner and the group behind the DACL, and all offsets into the header. */
  method AddSids(attr: array<byte>, aclsz: nat, usid: Sid, gsid: Sid, ghost acl: seq<byte>)
    requires HEAD + aclsz + SidSize(usid) + SidSize(gsid) <= attr.Length && |acl| == aclsz && At(attr[..], HEAD, acl)
    modifies attr
    ensures At(attr[..], 0, DescrHead(HEAD + aclsz, HEAD + aclsz + SidSize(usid), HEAD) + (acl + (SidBytes(usid) + SidBytes(gsid))))
  {
    hide At, SidBytes, DescrHead;
    ghost var s1 := attr[..];
    Put(attr, HEAD + aclsz, SidBytes(usid));
    ghost var s2 := attr[..];
    Put(attr, HEAD + aclsz + SidSize(usid), SidBytes(gsid));
    ghost var s3 := attr[..];
    Put(attr, 0, DescrHead(HEAD + aclsz, HEAD + aclsz + SidSize(usid), HEAD));
    AllParts(s1, s2, s3, attr[..], acl, SidBytes(usid), SidBytes(gsid),
             DescrHead(HEAD + aclsz, HEAD + aclsz + SidSize(usid), HEAD), HEAD + aclsz, HEAD + aclsz + SidSize(usid));
  }

  lemma KeepBefore(s: seq<byte>, t: seq<byte>, p: nat, part: seq<byte>, end: nat)
    requires At(s, p, part) && p + |part| <= end <= |s| == |t| && s[..end] == t[..end]
    ensures At(t, p, part)
  {
    assert s[p..p + |part|] == s[..end][p..p + |part|];
    assert t[p..p + |part|] == t[..end][p..p + |part|];
  }

  lemma KeepAfter(s: seq<byte>, t: seq<byte>, p: nat, part: seq<byte>, start: nat)
    requires At(s, p, part) && start <= p && |s| == |t| && start <= |s| && s[start..] == t[start..]
    ensures At(t, p, part)
  {
    forall i | p <= i < p + |part|
      ensures s[i] == t[i]
    {
      assert s[start..][i - start] == s[i] && t[start..][i - start] == t[i];
    }
    assert s[p..p + |part|] == t[p..p + |part|];
  }

  /** The parts written one after the other are all in place at the end. */
  lemma AllParts(s1: seq<byte>, s2: seq<byte>, s3: seq<byte>, s4: seq<byte>, acl: seq<byte>, usid: seq<byte>, gsid: seq<byte>, head: seq<byte>, u: nat, g: nat)
    requires |s1| == |s2| == |s3| == |s4| && |head| == HEAD && u == HEAD + |acl| && g == u + |usid| && g + |gsid| <= |s1|
    requires At(s1, HEAD, acl) && s2[..u] == s1[..u] && At(s2, u, usid) && s3[..g] == s2[..g] && At(s3, g, gsid)
    requires s4[HEAD..] == s3[HEAD..] && At(s4, 0, head)
    ensures At(s4, 0, head + (acl + (usid + gsid)))
  {
    hide At;
    KeepBefore(s1, s2, HEAD, acl, u);
    KeepBefore(s2, s3, HEAD, acl, g);
    KeepAfter(s3, s4, HEAD, acl, HEAD);
    KeepBefore(s2, s3, u, usid, g);
    KeepAfter(s3, s4, u, usid, HEAD);
    KeepAfter(s3, s4, g, gsid, HEAD);
    AtPart(s4, u, usid, gsid);
    AtPart(s4, HEAD, acl, usid + gsid);
    AtPart(s4, 0, head, acl + (usid + gsid));
  }

  lemma DescrParts(aces: seq<Ace>, usid: Sid, gsid: Sid)
    ensures var u := HEAD + AclSize(aces);
            Descr(aces, usid, gsid)
            == DescrHead(u, u + SidSize(usid), HEAD) + ((AclHead(AclSize(aces), |aces|) + AcesBytes(aces)) + (SidBytes(usid) + SidBytes(gsid)))
  {
    hide DescrHead, AclHead, AcesBytes, SidBytes;
  }

  // ----- the two directions together

  lemma {:induction false} AcesAligned(aces: seq<Ace>)
    ensures |AcesBytes(aces)| % 4 == 0
  {
    hide AceBytes;
    if aces != [] { AcesAligned(aces[..|aces| - 1]); }
  }

  lemma AcesStored(mode: Mode, isdir: bool, usid: Sid, gsid: Sid)
    requires Stored(usid) && Stored(gsid)
    ensures StoredAces(Aces(mode, isdir, usid, gsid)) && |Aces(mode, isdir, usid, gsid)| <= 9
    ensures forall i | 0 <= i < |Aces(mode, isdir, usid, gsid)| :: StorableAce(Aces(mode, isdir, usid, gsid)[i])
  {
    hide OwnerDenials, OwnerGrants, GroupDenials, GroupGrants, WorldGrants, Specials, Inheritance, GroupDiffers, GroupHasMore, Stored;
    KnownStored();
    var r8 := SpecialGrant(mode);
    var r7 := [Ace(ALLOWED, Inheritance(isdir), FULL_RIGHTS, SYSTEM)] + r8;
    var r6 := [Ace(ALLOWED, Inheritance(isdir), FULL_RIGHTS, ADMIN)] + r7;
    var r5 := [Ace(ALLOWED, Inheritance(isdir), WorldGrants(mode, isdir), WORLD)] + r6;
    var r4 := GroupGrant(mode, isdir, usid, gsid) + r5;
    var r3 := GroupDenial(mode, isdir, usid, gsid) + r4;
    var r2 := [Ace(ALLOWED, Inheritance(isdir), OwnerGrants(mode, isdir), usid)] + r3;
    var r1 := NoExecForFiles(isdir) + r2;
    assert StoredAces(r5) && |r5| <= 4;
    assert StoredAces(r3) && |r3| <= 6;
    assert StoredAces(r1) && |r1| <= 8;
    StoredStorable(Aces(mode, isdir, usid, gsid));
  }

  lemma KnownStored()
    ensures Stored(WORLD) && Stored(ADMIN) && Stored(SYSTEM) && Stored(NOBODY)
  {
  }

  lemma StoredStorable(aces: seq<Ace>)
    requires StoredAces(aces)
    ensures forall i | 0 <= i < |aces| :: StorableAce(aces[i])
  {
  }

  /**
   A descriptor built for a mode fits the size computed for it, passes the check made on
   descriptors read from storage, and is interpreted as that mode.
   */
  method ModeThroughStorage(mode: Mode, isdir: bool, usid: Sid, gsid: Sid, posix: bool) returns (attr: array<byte>, perm: Mode)
    requires mode < 0x1000 && Ordinary(usid) && Ordinary(gsid) && Stored(usid) && Stored(gsid)
    ensures fresh(attr) && attr.Length == DescrSize(mode, isdir, usid, gsid)
    ensures |attr[..]| >= HEAD && AttrSize(attr[..]).Some? && AttrSize(attr[..]).value <= attr.Length
    ensures forall n | AttrSize(attr[..]).value <= n <= attr.Length :: DescrOk(attr[..], n)
    ensures perm == mode
  {
    hide Aces, AcesBytes, Descr, At, AttrSize, DescrOk, Permissions, Laid, StoredAces, StorableAce, Ordinary;
    ghost var aces := Aces(mode, isdir, usid, gsid);
    attr := BuildDescr(mode, isdir, usid, gsid);
    AcesStored(mode, isdir, usid, gsid);
    AcesAligned(aces);
    DescrFits(mode, isdir, usid, gsid, attr[..]);
    forall n | HEAD + AclSize(aces) + SidSize(usid) + SidSize(gsid) <= n <= attr.Length
      ensures DescrOk(attr[..], n)
    {
      LaidOk(attr[..], aces, usid, gsid, n);
    }
    LaidOk(attr[..], aces, usid, gsid, attr.Length);
    LaidReadable(attr[..], aces, usid, gsid);
    perm := BuildPermissions(attr[..], attr.Length, usid, gsid, posix);
    ModeRoundTrip(mode, isdir, usid, gsid, posix);
  }

  lemma DescrFits(mode: Mode, isdir: bool, usid: Sid, gsid: Sid, s: seq<byte>)
    requires Stored(usid) && Stored(gsid) && At(s, 0, Descr(Aces(mode, isdir, usid, gsid), usid, gsid)) && |s| == DescrSize(mode, isdir, usid, gsid)
    ensures Laid(s, Aces(mode, isdir, usid, gsid), usid, gsid)
    ensures HEAD + AclSize(Aces(mode, isdir, usid, gsid)) + SidSize(usid) + SidSize(gsid) <= |s|
  {
    hide Aces, AcesBytes, Laid, StoredAces;
    AcesStored(mode, isdir, usid, gsid);
    AtLength(s, 0, Descr(Aces(mode, isdir, usid, gsid), usid, gsid));
    DescrLaid(s, Aces(mode, isdir, usid, gsid), usid, gsid);
  }
}
