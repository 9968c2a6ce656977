/**
 Mapping of user and group ids to security identifiers and back: explicit entries first,
 then an implicit mapping that hides the id in the last two sub-authorities of a pattern.
 */
module Sids {
  import opened Sequences

  /** A security identifier; the fields are 8, 48 and 32 bits wide. */
  datatype Sid = Sid(revision: nat, authority: nat, subs: seq<nat>)

  /** An entry of the mapping list; id 0 marks the pattern. */
  datatype Mapping = Mapping(xid: nat, sid: Sid)

  const WORD: nat := 0x1_0000_0000
  const LOW: nat := 0x4000_0000

  const ADMIN: Sid := Sid(1, 5, [32, 544])

  predicate WellFormed(sid: Sid) {
    forall i | 0 <= i < |sid.subs| :: sid.subs[i] < WORD
  }

  predicate IsUserSid(sid: Sid) {
    |sid.subs| == 5 && sid.authority == 5 && sid.subs[0] == 21
  }

  /** A pattern that the mapping file may hold. */
  predicate ValidPattern(sid: Sid) {
    WellFormed(sid) && IsUserSid(sid) && 1000 <= sid.subs[4] <= 0x7fffffff
  }

  /** The mapping list as it is read: every pattern has been checked. */
  predicate ValidMapping(m: seq<Mapping>) {
    forall i | 0 <= i < |m| :: WellFormed(m[i].sid) && m[i].xid < WORD && (m[i].xid == 0 ==> ValidPattern(m[i].sid))
  }

  // ----- ids to SIDs

  /** The pattern with `low` added to its last sub-authority and `carry` to the one before, in 32 bits. */
  function Shifted(pattern: Sid, low: nat, carry: nat): Sid
    requires |pattern.subs| == 5
  {
    pattern.(subs := pattern.subs[4 := (pattern.subs[4] + low) % WORD][3 := (pattern.subs[3] + carry) % WORD])
  }

  /** The SID that stands for an id: users take even distances from the pattern, groups odd ones. */
  function ImplicitSid(pattern: Sid, xid: nat, parity: nat): Sid
    requires |pattern.subs| == 5
  {
    Shifted(pattern, 2 * (xid % LOW) + parity, xid / LOW)
  }

  /** The first entry that is a pattern or has the id. */
  function StopAtId(m: seq<Mapping>, xid: nat): (i: nat)
    ensures i <= |m| && forall j | 0 <= j < i :: m[j].xid != 0 && m[j].xid != xid
    ensures i < |m| ==> m[i].xid == 0 || m[i].xid == xid
  {
    if m == [] || m[0].xid == 0 || m[0].xid == xid then 0 else 1 + StopAtId(m[1..], xid)
  }

  function SidOf(m: seq<Mapping>, xid: nat, parity: nat): Option<Sid>
    requires ValidMapping(m)
  {
    if xid == 0 then Some(ADMIN)
    else
      var i := StopAtId(m, xid);
      if i == |m| then None else if m[i].xid == 0 then Some(ImplicitSid(m[i].sid, xid, parity)) else Some(m[i].sid)
  }

  /** ntfs_find_usid (parity 0) and ntfs_find_gsid (parity 1) */
  method FindSid(m: seq<Mapping>, xid: nat, parity: nat) returns (r: Option<Sid>)
    requires ValidMapping(m) && xid < WORD && parity <= 1
    ensures r == SidOf(m, xid, parity)
  {
    if xid == 0 {
      return Some(ADMIN);
    }
    var p := 0;
    while p < |m| && m[p].xid != 0 && m[p].xid != xid
      invariant 0 <= p <= |m| && forall j | 0 <= j < p :: m[j].xid != 0 && m[j].xid != xid
    {
      p := p + 1;
    }
    if p < |m| && m[p].xid == 0 {
      var subs := m[p].sid.subs;
      subs := subs[4 := (subs[4] + 2 * (xid % LOW) + parity) % WORD];
      if xid / LOW != 0 {
        subs := subs[3 := (subs[3] + xid / LOW) % WORD];
      }
      r := Some(m[p].sid.(subs := subs));
      assert subs == ImplicitSid(m[p].sid, xid, parity).subs;
    } else {
      r := if p < |m| then Some(m[p].sid) else None;
    }
  }

  // ----- SIDs to ids

  /** The id hidden in a SID, 0 if it does not match the pattern. */
  function ImplicitId(sid: Sid, pattern: Sid, parity: nat): nat
    requires |pattern.subs| == 5
  {
    if |sid.subs| == 5 && sid.subs[4] > pattern.subs[4] && (sid.subs[4] + pattern.subs[4] + parity) % 2 == 0 then
      var low := (sid.subs[4] - pattern.subs[4]) / 2 % LOW;
      if Carries(sid, pattern, 0) then low
      else if Carries(sid, pattern, 1) then low + LOW
      else if Carries(sid, pattern, 2) then low + 2 * LOW
      else if Carries(sid, pattern, 3) then low + 3 * LOW
      else 0
    else 0
  }

  /** The SID is the pattern but for its last sub-authority, and for `carry` added to the one before. */
  predicate Carries(sid: Sid, pattern: Sid, carry: nat)
    requires |sid.subs| == |pattern.subs| == 5
  {
    sid == Trial(pattern, sid.subs[4], carry)
  }

  function Trial(pattern: Sid, last: nat, carry: nat): (r: Sid)
    requires |pattern.subs| == 5
    ensures |r.subs| == 5
  {
    pattern.(subs := pattern.subs[4 := last][3 := (pattern.subs[3] + carry) % WORD])
  }

  lemma TrialNext(pattern: Sid, last: nat, carry: nat)
    requires |pattern.subs| == 5 && pattern.subs[3] < WORD
    ensures var psid := Trial(pattern, last, carry);
            psid.(subs := psid.subs[3 := (psid.subs[3] + 1) % WORD]) == Trial(pattern, last, carry + 1)
    ensures pattern.(subs := pattern.subs[4 := last]) == Trial(pattern, last, 0)
  {
    var psid := Trial(pattern, last, carry);
    assert psid.subs[3 := (psid.subs[3] + 1) % WORD] == Trial(pattern, last, carry + 1).subs;
    assert pattern.subs[4 := last] == Trial(pattern, last, 0).subs;
  }

  /** findimplicit */
  method FindImplicit(xsid: Sid, pattern: Sid, parity: nat) returns (xid: nat)
    requires ValidPattern(pattern) && WellFormed(xsid) && parity <= 1
    ensures xid == ImplicitId(xsid, pattern, parity)
  {
    hide Trial;
    xid := 0;
    if |xsid.subs| == 5 {
      var psid := pattern.(subs := pattern.subs[4 := xsid.subs[4]]);
      var xlast, rlast := xsid.subs[4], pattern.subs[4];
      if xlast > rlast && (xlast + rlast + parity) % 2 == 0 {
        TrialNext(pattern, xlast, 0);
        if psid == xsid {
          xid := (xlast - rlast) / 2 % LOW;
        } else {
          var carry := 1;
          psid := psid.(subs := psid.subs[3 := (psid.subs[3] + 1) % WORD]);
          while psid != xsid && carry < 4
            invariant 1 <= carry <= 4 && psid == Trial(pattern, xlast, if carry < 4 then carry else 3)
            invariant forall c | 0 <= c < carry :: !Carries(xsid, pattern, c)
            decreases 4 - carry
          {
            TrialNext(pattern, xlast, carry);
            carry := carry + 1;
            if carry < 4 {
              psid := psid.(subs := psid.subs[3 := (psid.subs[3] + 1) % WORD]);
            }
          }
          if carry < 4 {
            xid := (xlast - rlast) / 2 % LOW + carry * LOW;
          }
        }
      }
    }
  }

  /** The first entry that is a pattern or has the SID. */
  function StopAtSid(m: seq<Mapping>, sid: Sid): (i: nat)
    ensures i <= |m| && forall j | 0 <= j < i :: m[j].xid != 0 && m[j].sid != sid
    ensures i < |m| ==> m[i].xid == 0 || m[i].sid == sid
  {
    if m == [] || m[0].xid == 0 || m[0].sid == sid then 0 else 1 + StopAtSid(m[1..], sid)
  }

  function IdOf(m: seq<Mapping>, sid: Sid, parity: nat): nat
    requires ValidMapping(m)
  {
    var i := StopAtSid(m, sid);
    if i == |m| then 0 else if m[i].xid == 0 then ImplicitId(sid, m[i].sid, parity) else m[i].xid
  }

  /** ntfs_find_user (parity 0) and ntfs_find_group (parity 1) */
  method FindId(m: seq<Mapping>, sid: Sid, parity: nat) returns (xid: nat)
    requires ValidMapping(m) && WellFormed(sid) && parity <= 1
    ensures xid == IdOf(m, sid, parity)
  {
    var p := 0;
    while p < |m| && m[p].xid != 0 && sid != m[p].sid
      invariant 0 <= p <= |m| && forall j | 0 <= j < p :: m[j].xid != 0 && m[j].sid != sid
    {
      p := p + 1;
    }
    if p < |m| && m[p].xid == 0 {
      xid := FindImplicit(sid, m[p].sid, parity);
    } else {
      xid := if p < |m| then m[p].xid else 0;
    }
  }

  // ----- the implicit mapping

  /** The last sub-authority never overflows its 32 bits. */
  lemma NoOverflow(pattern: Sid, xid: nat, parity: nat)
    requires ValidPattern(pattern) && xid < WORD && parity <= 1
    ensures pattern.subs[4] + 2 * (xid % LOW) + parity < WORD
    ensures ImplicitSid(pattern, xid, parity).subs[4] == pattern.subs[4] + 2 * (xid % LOW) + parity
    ensures WellFormed(ImplicitSid(pattern, xid, parity)) && IsUserSid(ImplicitSid(pattern, xid, parity))
  {
  }

  lemma CarryUnique(pattern: Sid, xid: nat, parity: nat, c: nat)
    requires ValidPattern(pattern) && xid < WORD && parity <= 1 && c < 4
    ensures Carries(ImplicitSid(pattern, xid, parity), pattern, c) <==> c == xid / LOW
  {
    var sid := ImplicitSid(pattern, xid, parity);
    NoOverflow(pattern, xid, parity);
    assert sid.subs[3] == (pattern.subs[3] + xid / LOW) % WORD;
    var t := pattern.subs[4 := sid.subs[4]][3 := (pattern.subs[3] + c) % WORD];
    if c == xid / LOW {
      assert sid.subs == t;
    } else {
      assert t[3] != sid.subs[3];
    }
  }

  /** The id comes back out of its SID, except a user id whose low 30 bits are all zero. */
  lemma ImplicitRoundTrip(pattern: Sid, xid: nat, parity: nat)
    requires ValidPattern(pattern) && 0 < xid < WORD && parity <= 1
    ensures ImplicitId(ImplicitSid(pattern, xid, parity), pattern, parity)
            == if parity == 0 && xid % LOW == 0 then 0 else xid
  {
    hide Carries;
    NoOverflow(pattern, xid, parity);
    CarryUnique(pattern, xid, parity, 0);
    CarryUnique(pattern, xid, parity, 1);
    CarryUnique(pattern, xid, parity, 2);
    CarryUnique(pattern, xid, parity, 3);
    assert xid == xid / LOW * LOW + xid % LOW;
  }

  /** No two ids share a SID, and no SID stands for a user and for a group. */
  lemma ImplicitInjective(pattern: Sid, xid: nat, parity: nat, xid': nat, parity': nat)
    requires ValidPattern(pattern) && xid < WORD && xid' < WORD && parity <= 1 && parity' <= 1
    requires ImplicitSid(pattern, xid, parity) == ImplicitSid(pattern, xid', parity')
    ensures xid == xid' && parity == parity'
  {
    NoOverflow(pattern, xid, parity);
    NoOverflow(pattern, xid', parity');
    assert ImplicitSid(pattern, xid, parity).subs[3] == (pattern.subs[3] + xid / LOW) % WORD;
    assert ImplicitSid(pattern, xid', parity').subs[3] == (pattern.subs[3] + xid' / LOW) % WORD;
    assert xid == xid / LOW * LOW + xid % LOW && xid' == xid' / LOW * LOW + xid' % LOW;
  }

  // ----- the whole mapping

  /**
   When an id survives the way to a SID and back: an explicit one if the first entry with its
   SID has that id; an implicit one if its SID is not an explicit one and, for users, the low
   30 bits are not all zero.
   */
  predicate Survives(m: seq<Mapping>, xid: nat, parity: nat)
    requires ValidMapping(m)
  {
    var i := StopAtId(m, xid);
    i < |m| &&
    if m[i].xid != 0 then forall j | 0 <= j < i :: m[j].sid != m[i].sid
    else (parity == 1 || xid % LOW != 0) && forall j | 0 <= j < i :: m[j].sid != ImplicitSid(m[i].sid, xid, parity)
  }

  lemma FirstStop(m: seq<Mapping>, sid: Sid, i: nat)
    requires i <= |m| && forall j | 0 <= j < i :: m[j].xid != 0 && m[j].sid != sid
    requires i < |m| ==> m[i].xid == 0 || m[i].sid == sid
    ensures StopAtSid(m, sid) == i
  {
  }

  lemma RoundTrip(m: seq<Mapping>, xid: nat, parity: nat)
    requires ValidMapping(m) && 0 < xid < WORD && parity <= 1
    ensures SidOf(m, xid, parity).None? <==> StopAtId(m, xid) == |m|
    ensures SidOf(m, xid, parity).Some? ==>
              (IdOf(m, SidOf(m, xid, parity).value, parity) == xid <==> Survives(m, xid, parity))
  {
    hide ImplicitSid, ImplicitId;
    var i := StopAtId(m, xid);
    if i < |m| {
      var sid := SidOf(m, xid, parity).value;
      var k := StopAtSid(m, sid);
      if m[i].xid == 0 { ImplicitRoundTrip(m[i].sid, xid, parity); }
      if forall j | 0 <= j < i :: m[j].sid != sid {
        FirstStop(m, sid, i);
      } else {
        assert k < i;
      }
    }
  }

  /** No pattern stands before or at the entry. */
  predicate Explicit(m: seq<Mapping>, i: nat)
    requires i < |m|
  {
    forall k | 0 <= k <= i :: m[k].xid != 0
  }

  /** Root is the administrators' SID, and comes back unless an explicit entry takes that SID for another id. */
  lemma RootIsAdmin(m: seq<Mapping>, parity: nat)
    requires ValidMapping(m) && parity <= 1
    ensures SidOf(m, 0, parity) == Some(Sid(1, 5, [32, 544]))
    ensures IdOf(m, Sid(1, 5, [32, 544]), parity) == 0 <==> forall i: nat | i < |m| && Explicit(m, i) :: m[i].sid != Sid(1, 5, [32, 544])
  {
    var i := StopAtSid(m, ADMIN);
    if i < |m| && m[i].xid != 0 {
      assert Explicit(m, i);
    } else {
      forall j: nat | j < |m| && Explicit(m, j)
        ensures m[j].sid != ADMIN
      {
        assert j < i;
      }
    }
  }

  /** A user id whose low 30 bits are zero maps to the pattern itself or above it, and is lost. */
  lemma LostUser(pattern: Sid)
    requires ValidPattern(pattern)
    ensures IdOf([Mapping(0, pattern)], SidOf([Mapping(0, pattern)], LOW, 0).value, 0) == 0
  {
    ImplicitRoundTrip(pattern, LOW, 0);
  }
}
