/**
 SIDs and access control entries as they are stored: little-endian words, a variable number
 of sub-authorities, entries one after the other.
 */
module AclBytes {
  import opened Bytes
  import opened Sequences
  import opened Sids
  import opened ModeAcl

  // ----- words

  function Word16(n: nat): (r: seq<byte>)
    ensures |r| == 2
  {
    [n % 256, n / 256 % 256]
  }

  function Word32(n: nat): (r: seq<byte>)
    ensures |r| == 4
  {
    [n % 256, n / 256 % 256, n / 65536 % 256, n / 16777216 % 256]
  }

  function Le32(s: seq<byte>, p: nat): (w: nat)
    requires p + 3 < |s|
    ensures w < WORD
  {
    var a: int, b: int, c: int, d: int := s[p], s[p + 1], s[p + 2], s[p + 3];
    a + 256 * b + 65536 * c + 16777216 * d
  }

  /** The bytes of `part` stand at `p`. */
  predicate At(s: seq<byte>, p: nat, part: seq<byte>) {
    p + |part| <= |s| && s[p..p + |part|] == part
  }

  lemma AtPart(s: seq<byte>, p: nat, a: seq<byte>, b: seq<byte>)
    ensures At(s, p, a + b) <==> At(s, p, a) && At(s, p + |a|, b)
  {
    var n := |a| + |b|;
    if p + n <= |s| {
      assert s[p..p + n] == s[p..p + |a|] + s[p + |a|..p + n];
      assert (a + b)[..|a|] == a && (a + b)[|a|..] == b;
      assert s[p..p + n][..|a|] == s[p..p + |a|];
    }
  }

  lemma AtIndex(s: seq<byte>, p: nat, part: seq<byte>, i: nat)
    requires At(s, p, part) && i < |part|
    ensures p + |part| <= |s| && s[p + i] == part[i]
  {
    assert s[p..p + |part|][i] == s[p + i];
  }

  lemma ReadWord16(s: seq<byte>, p: nat, n: nat)
    requires At(s, p, Word16(n)) && n < 65536
    ensures p + 1 < |s| && Le16(s, p) == n
  {
    AtIndex(s, p, Word16(n), 0);
    AtIndex(s, p, Word16(n), 1);
  }

  lemma ReadWord32(s: seq<byte>, p: nat, n: nat)
    requires At(s, p, Word32(n)) && n < WORD
    ensures p + 3 < |s| && Le32(s, p) == n
  {
    AtIndex(s, p, Word32(n), 0);
    AtIndex(s, p, Word32(n), 1);
    AtIndex(s, p, Word32(n), 2);
    AtIndex(s, p, Word32(n), 3);
    Digits(n);
  }

  lemma Digits(n: nat)
    requires n < WORD
    ensures n % 256 + 256 * (n / 256 % 256) + 65536 * (n / 65536 % 256) + 16777216 * (n / 16777216 % 256) == n
  {
  }

  // ----- SIDs

  function SidSize(sid: Sid): nat {
    4 * |sid.subs| + 8
  }

  function SubBytes(subs: seq<nat>): (r: seq<byte>)
    ensures |r| == 4 * |subs|
  {
    if subs == [] then [] else SubBytes(subs[..|subs| - 1]) + Word32(subs[|subs| - 1])
  }

  /** The authority is stored in six bytes, the high one first. */
  function AuthorityBytes(a: nat): (r: seq<byte>)
    ensures |r| == 6
  {
    [a / 0x100_0000_0000 % 256, a / 0x1_0000_0000 % 256, a / 0x100_0000 % 256, a / 0x1_0000 % 256, a / 0x100 % 256, a % 256]
  }

  function AuthorityOf(s: seq<byte>, p: nat): nat
    requires p + 6 <= |s|
  {
    var a: int, b: int, c: int, d: int, e: int, f: int := s[p], s[p + 1], s[p + 2], s[p + 3], s[p + 4], s[p + 5];
    ((((a * 256 + b) * 256 + c) * 256 + d) * 256 + e) * 256 + f
  }

  lemma AuthorityBack(s: seq<byte>, p: nat, a: nat)
    requires At(s, p, AuthorityBytes(a)) && a < 0x1_0000_0000_0000
    ensures p + 6 <= |s| && AuthorityOf(s, p) == a
  {
    hide At;
    var part := AuthorityBytes(a);
    AtIndex(s, p, part, 0);
    AtIndex(s, p, part, 1);
    AtIndex(s, p, part, 2);
    AtIndex(s, p, part, 3);
    AtIndex(s, p, part, 4);
    AtIndex(s, p, part, 5);
    AuthorityDigits(a);
  }

  lemma AuthorityDigits(a: nat)
    requires a < 0x1_0000_0000_0000
    ensures ((((a / 0x100_0000_0000 % 256 * 256 + a / 0x1_0000_0000 % 256) * 256 + a / 0x100_0000 % 256) * 256
             + a / 0x1_0000 % 256) * 256 + a / 0x100 % 256) * 256 + a % 256 == a
  {
    NextDigit(a, 0x100);
    NextDigit(a, 0x1_0000);
    NextDigit(a, 0x100_0000);
    NextDigit(a, 0x1_0000_0000);
    LastDigit(a);
  }

  lemma NextDigit(a: nat, d: nat)
    requires d > 0
    ensures a / d == a / (d * 256) * 256 + a / d % 256
  {
    var q, r := a / d, a % d;
    var q2, r2 := q / 256, q % 256;
    Regroup(d, q2, r2, r);
    assert a == q * d + r;
    Unpack(q2, r2 * d + r, d * 256);
  }

  lemma Regroup(d: nat, q: nat, r2: nat, r: nat)
    requires r < d && r2 < 256
    ensures (q * 256 + r2) * d + r == q * (d * 256) + (r2 * d + r)
    ensures r2 * d + r < d * 256
  {
    assert r2 * d <= 255 * d;
  }

  lemma LastDigit(a: nat)
    requires a < 0x1_0000_0000_0000
    ensures a / 0x100_0000_0000 < 256 && a == a / 0x100 * 256 + a % 256
  {
  }

  function SidBytes(sid: Sid): (r: seq<byte>)
    ensures |r| == SidSize(sid)
  {
    [sid.revision % 256, |sid.subs| % 256] + (AuthorityBytes(sid.authority) + SubBytes(sid.subs))
  }

  predicate Storable(sid: Sid) {
    WellFormed(sid) && sid.revision < 256 && |sid.subs| < 256 && sid.authority < 0x1_0000_0000_0000
  }

  function Count(s: seq<byte>, p: nat): nat
    requires p < |s|
  {
    s[p]
  }

  function ReadSubs(s: seq<byte>, p: nat, n: nat): (r: seq<nat>)
    requires p + 4 * n <= |s|
    ensures |r| == n
  {
    if n == 0 then [] else ReadSubs(s, p, n - 1) + [Le32(s, p + 4 * n - 4)]
  }

  /** The SID at `p`. */
  function ReadSid(s: seq<byte>, p: nat): Sid
    requires p + 8 <= |s| && p + 8 + 4 * Count(s, p + 1) <= |s|
  {
    Sid(s[p], AuthorityOf(s, p + 2), ReadSubs(s, p + 8, Count(s, p + 1)))
  }

  lemma {:induction false} ReadSubsBack(s: seq<byte>, p: nat, subs: seq<nat>)
    requires At(s, p, SubBytes(subs)) && forall i | 0 <= i < |subs| :: subs[i] < WORD
    ensures p + 4 * |subs| <= |s| && ReadSubs(s, p, |subs|) == subs
  {
    if subs != [] {
      var n := |subs|;
      AtPart(s, p, SubBytes(subs[..n - 1]), Word32(subs[n - 1]));
      ReadSubsBack(s, p, subs[..n - 1]);
      ReadWord32(s, p + 4 * (n - 1), subs[n - 1]);
    }
  }

  lemma SidBack(s: seq<byte>, p: nat, sid: Sid)
    requires At(s, p, SidBytes(sid)) && Storable(sid)
    ensures p + 8 <= |s| && s[p] == sid.revision && s[p + 1] == |sid.subs|
    ensures p + 8 + 4 * Count(s, p + 1) <= |s| && ReadSid(s, p) == sid
  {
    hide ReadSubs, SubBytes, At, AuthorityBytes, AuthorityOf;
    var head: seq<byte> := [sid.revision % 256, |sid.subs| % 256];
    AtPart(s, p, head, AuthorityBytes(sid.authority) + SubBytes(sid.subs));
    AtPart(s, p + 2, AuthorityBytes(sid.authority), SubBytes(sid.subs));
    AtIndex(s, p, head, 0);
    AtIndex(s, p, head, 1);
    AuthorityBack(s, p + 2, sid.authority);
    ReadSubsBack(s, p + 8, sid.subs);
    assert Count(s, p + 1) == |sid.subs|;
  }

  // ----- entries

  function AceSize(a: Ace): nat {
    8 + SidSize(a.sid)
  }

  function AceHead(a: Ace): (r: seq<byte>)
    ensures |r| == 8
  {
    [a.kind % 256, a.flags as int] + Word16(AceSize(a)) + Word32(a.mask as int)
  }

  function AceBytes(a: Ace): (r: seq<byte>)
    ensures |r| == AceSize(a)
  {
    AceHead(a) + SidBytes(a.sid)
  }

  function AcesBytes(aces: seq<Ace>): seq<byte> {
    if aces == [] then [] else AcesBytes(aces[..|aces| - 1]) + AceBytes(aces[|aces| - 1])
  }

  predicate StorableAce(a: Ace) {
    Storable(a.sid) && a.kind < 256
  }

  /** The entry at `p`, for one whose SID lies within the bytes. */
  function ReadAce(s: seq<byte>, p: nat): Ace
    requires p + 16 <= |s| && p + 16 + 4 * Count(s, p + 9) <= |s|
  {
    Ace(s[p], s[p + 1] as bv8, Le32(s, p + 4) as bv32, ReadSid(s, p + 8))
  }

  lemma MaskBack(m: Rights)
    ensures 0 <= m as int < WORD && (m as int) as bv32 == m
  {
  }

  lemma FlagsBack(f: bv8)
    ensures 0 <= f as int < 256 && (f as int) as bv8 == f
  {
  }

  lemma AceBack(s: seq<byte>, p: nat, a: Ace)
    requires At(s, p, AceBytes(a)) && StorableAce(a)
    ensures p + 16 <= |s| && p + 16 + 4 * Count(s, p + 9) <= |s| && ReadAce(s, p) == a
    ensures s[p] == a.kind && Le16(s, p + 2) == AceSize(a)
  {
    hide Le16, Le32, SidBytes, ReadSid, Word16, Word32;
    AtPart(s, p, AceHead(a), SidBytes(a.sid));
    AtPart(s, p, [a.kind % 256, a.flags as int] + Word16(AceSize(a)), Word32(a.mask as int));
    AtPart(s, p, [a.kind % 256, a.flags as int], Word16(AceSize(a)));
    AtIndex(s, p, [a.kind % 256, a.flags as int], 0);
    AtIndex(s, p, [a.kind % 256, a.flags as int], 1);
    MaskBack(a.mask);
    FlagsBack(a.flags);
    ReadWord16(s, p + 2, AceSize(a));
    ReadWord32(s, p + 4, a.mask as int);
    SidBack(s, p + 8, a.sid);
  }

  lemma {:induction false} AcesAppend(a: seq<Ace>, b: seq<Ace>)
    ensures AcesBytes(a + b) == AcesBytes(a) + AcesBytes(b)
  {
    hide AceBytes;
    if b == [] {
      assert a + b == a;
    } else {
      assert (a + b)[..|a + b| - 1] == a + b[..|b| - 1];
      AcesAppend(a, b[..|b| - 1]);
    }
  }

  lemma AcesOne(a: Ace)
    ensures AcesBytes([a]) == AceBytes(a)
  {
    assert [a][..0] == [];
  }

  /** Where the `n`-th entry stands. */
  function Offset(aces: seq<Ace>, n: nat): nat
    requires n <= |aces|
  {
    |AcesBytes(aces[..n])|
  }

  lemma AceAt(s: seq<byte>, p: nat, aces: seq<Ace>, n: nat)
    requires At(s, p, AcesBytes(aces)) && n < |aces|
    ensures At(s, p + Offset(aces, n), AceBytes(aces[n]))
    ensures Offset(aces, n + 1) == Offset(aces, n) + AceSize(aces[n]) <= |AcesBytes(aces)|
  {
    hide AceBytes, AcesBytes;
    var before, rest := aces[..n], aces[n + 1..];
    assert aces == (before + [aces[n]]) + rest;
    AcesAppend(before + [aces[n]], rest);
    AcesAppend(before, [aces[n]]);
    AcesOne(aces[n]);
    assert aces[..n + 1] == before + [aces[n]];
    AtPart(s, p, AcesBytes(aces[..n + 1]), AcesBytes(rest));
    AtPart(s, p, AcesBytes(before), AceBytes(aces[n]));
  }
}
