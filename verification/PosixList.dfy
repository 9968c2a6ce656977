/**
 Lists of POSIX ACL entries, ordered by tag and id: the in-place sort, and the merge of two
 sorted lists.
 */
module PosixList {
  /** An entry; `tag` has 16 bits, `id` is a 32-bit user or group id. */
  datatype PosixAce = PosixAce(tag: nat, perms: bv16, id: nat)

  predicate Before(a: PosixAce, b: PosixAce) {
    a.tag < b.tag || (a.tag == b.tag && a.id < b.id)
  }

  predicate SameKey(a: PosixAce, b: PosixAce) {
    a.tag == b.tag && a.id == b.id
  }

  lemma Asymmetric(a: PosixAce, b: PosixAce)
    ensures Before(a, b) ==> !Before(b, a) && !SameKey(a, b) && !SameKey(b, a)
  {
  }

  lemma Total(a: PosixAce, b: PosixAce)
    ensures Before(a, b) || Before(b, a) || SameKey(a, b)
  {
  }

  lemma Transitive(a: PosixAce, b: PosixAce, c: PosixAce)
    ensures Before(a, b) && Before(b, c) ==> Before(a, c)
  {
  }

  lemma SameKeyBefore(a: PosixAce, b: PosixAce, c: PosixAce)
    requires SameKey(a, b)
    ensures (Before(a, c) <==> Before(b, c)) && (Before(c, a) <==> Before(c, b)) && !Before(a, b)
  {
  }

  /** Not being before is transitive. */
  lemma NotBefore(a: PosixAce, b: PosixAce, c: PosixAce)
    ensures !Before(b, a) && !Before(c, b) ==> !Before(c, a)
  {
    hide Before, SameKey;
    Total(a, b);
    Total(b, c);
    Asymmetric(a, c);
    Transitive(c, a, b);
    if SameKey(a, b) { SameKeyBefore(a, b, c); }
  }

  ghost predicate Sorted(s: seq<PosixAce>) {
    forall i, j | 0 <= i < j < |s| :: !Before(s[j], s[i])
  }

  /** Sorted, and no key twice. */
  ghost predicate Strict(s: seq<PosixAce>) {
    forall i, j | 0 <= i < j < |s| :: Before(s[i], s[j])
  }

  /** The entries with the key of `k`, in their order. */
  function Of(s: seq<PosixAce>, k: PosixAce): seq<PosixAce> {
    if s == [] then [] else Of(s[..|s| - 1], k) + (if SameKey(s[|s| - 1], k) then [s[|s| - 1]] else [])
  }

  /** The same entries, and those of equal keys in the same order. */
  ghost predicate StablePermutation(s: seq<PosixAce>, t: seq<PosixAce>) {
    |s| == |t| && forall k :: Of(s, k) == Of(t, k)
  }

  lemma {:induction false} OfAppend(a: seq<PosixAce>, b: seq<PosixAce>, k: PosixAce)
    ensures Of(a + b, k) == Of(a, k) + Of(b, k)
  {
    hide SameKey;
    if b == [] {
      assert a + b == a;
    } else {
      assert (a + b)[..|a + b| - 1] == a + b[..|b| - 1];
      OfAppend(a, b[..|b| - 1], k);
    }
  }

  lemma OfTwo(x: PosixAce, y: PosixAce, k: PosixAce)
    requires !SameKey(x, y)
    ensures Of([x, y], k) == Of([y, x], k)
  {
    assert [x, y][..1] == [x] && [y, x][..1] == [y] && [x][..0] == [] && [y][..0] == [];
  }

  /** Two neighbours of different keys may change places. */
  lemma SwapStable(s: seq<PosixAce>, i: nat)
    requires 0 < i < |s| && !SameKey(s[i - 1], s[i])
    ensures StablePermutation(s, s[i - 1 := s[i]][i := s[i - 1]])
  {
    hide Of, SameKey;
    var t := s[i - 1 := s[i]][i := s[i - 1]];
    var a, b := s[..i - 1], s[i + 1..];
    assert s == a + ([s[i - 1], s[i]] + b);
    assert t == a + ([s[i], s[i - 1]] + b);
    forall k
      ensures Of(s, k) == Of(t, k)
    {
      OfAppend(a, [s[i - 1], s[i]] + b, k);
      OfAppend([s[i - 1], s[i]], b, k);
      OfAppend(a, [s[i], s[i - 1]] + b, k);
      OfAppend([s[i], s[i - 1]], b, k);
      OfTwo(s[i - 1], s[i], k);
    }
  }

  lemma StableSame(s: seq<PosixAce>)
    ensures StablePermutation(s, s)
  {
  }

  lemma StableTwice(a: seq<PosixAce>, b: seq<PosixAce>, c: seq<PosixAce>)
    requires StablePermutation(a, b) && StablePermutation(b, c)
    ensures StablePermutation(a, c)
  {
    forall k
      ensures Of(a, k) == Of(c, k)
    {
      assert Of(a, k) == Of(b, k);
    }
  }

  lemma {:induction false} OfIn(s: seq<PosixAce>, a: PosixAce)
    ensures a in s <==> a in Of(s, a)
  {
    if s != [] {
      OfIn(s[..|s| - 1], a);
      assert s == s[..|s| - 1] + [s[|s| - 1]];
    }
  }

  /** A stable permutation has the same members. */
  lemma StableIn(s: seq<PosixAce>, t: seq<PosixAce>, a: PosixAce)
    requires StablePermutation(s, t)
    ensures a in s <==> a in t
  {
    OfIn(s, a);
    OfIn(t, a);
    assert Of(s, a) == Of(t, a);
  }

  // ----- ntfs_sort_posix

  /** The entries from `top` on are sorted and not before any other. */
  ghost predicate Settled(s: seq<PosixAce>, top: nat) {
    top <= |s| && forall i, j | 0 <= i < j < |s| && top <= j :: !Before(s[j], s[i])
  }

  /** A pass at `i`: the entry before it is the greatest so far, or the greatest is in its place already. */
  ghost predicate Passing(s: seq<PosixAce>, i: nat, top: nat) {
    && 0 < i <= |s| && 0 < top <= |s| && Settled(s, top)
    && (i <= top ==> forall j | 0 <= j < i - 1 :: !Before(s[i - 1], s[j]))
    && (i >= top ==> Settled(s, top - 1))
  }

  function Swapped(s: seq<PosixAce>, i: nat): seq<PosixAce>
    requires 0 < i < |s|
  {
    s[i - 1 := s[i]][i := s[i - 1]]
  }

  lemma PassStart(s: seq<PosixAce>, top: nat)
    requires s != [] && 0 < top && Settled(s, top)
    ensures Passing(s, 1, top) && Sorted(s[..1])
  {
  }

  /** A swap carries the greatest entry one place on; nothing is swapped beyond `top`. */
  lemma PassSwap(s: seq<PosixAce>, i: nat, top: nat)
    requires Passing(s, i, top) && i < |s| && Before(s[i], s[i - 1])
    ensures i < top && Passing(Swapped(s, i), i + 1, top) && StablePermutation(s, Swapped(s, i))
  {
    hide Before, SameKey, StablePermutation;
    Asymmetric(s[i], s[i - 1]);
    SwapStable(s, i);
    var t := Swapped(s, i);
    forall j | 0 <= j < i
      ensures !Before(t[i], t[j])
    {
    }
    forall a, b | 0 <= a < b < |t| && top <= b
      ensures !Before(t[b], t[a])
    {
    }
  }

  lemma PassOn(s: seq<PosixAce>, i: nat, top: nat)
    requires Passing(s, i, top) && i < |s| && !Before(s[i], s[i - 1])
    ensures Passing(s, i + 1, top) && (Sorted(s[..i]) ==> Sorted(s[..i + 1]))
  {
    hide Before;
    forall j | 0 <= j < i && (i < top || Sorted(s[..i]))
      ensures !Before(s[i], s[j])
    {
      if j < i - 1 {
        assert Sorted(s[..i]) ==> !Before(s[..i][i - 1], s[..i][j]);
        NotBefore(s[j], s[i - 1], s[i]);
      }
    }
    if Sorted(s[..i]) {
      var t := s[..i + 1];
      forall a, b | 0 <= a < b < |t|
        ensures !Before(t[b], t[a])
      {
        if b < i { assert !Before(s[..i][b], s[..i][a]); }
      }
    }
  }

  /** One pass over the `n` entries from `lo`; the entry last looked at need not be read again after a swap. */
  method SortPass(ace: array<PosixAce>, lo: nat, n: nat, ghost top: nat) returns (done: bool)
    requires 0 < n && lo + n <= ace.Length && 0 < top <= n && Settled(ace[lo..lo + n], top)
    modifies ace
    ensures StablePermutation(old(ace[lo..lo + n]), ace[lo..lo + n])
    ensures ace[..lo] == old(ace[..lo]) && ace[lo + n..] == old(ace[lo + n..])
    ensures done ==> Sorted(ace[lo..lo + n])
    ensures !done ==> top > 1 && Settled(ace[lo..lo + n], top - 1)
  {
    hide StablePermutation, Sorted, Settled, Before, Passing;
    ghost var s0 := ace[lo..lo + n];
    StableSame(s0);
    PassStart(s0, top);
    done := true;
    var previous := ace[lo];
    var i := 1;
    while i < n
      invariant 1 <= i <= n && previous == ace[lo + i - 1] && Passing(ace[lo..lo + n], i, top)
      invariant StablePermutation(s0, ace[lo..lo + n]) && ace[..lo] == old(ace[..lo]) && ace[lo + n..] == old(ace[lo + n..])
      invariant done ==> Sorted(ace[lo..lo + n][..i])
      invariant !done ==> top > 1
    {
      ghost var s := ace[lo..lo + n];
      assert s[i] == ace[lo + i] && s[i - 1] == ace[lo + i - 1];
      if Before(ace[lo + i], previous) {
        PassSwap(s, i, top);
        done := false;
        ace[lo + i - 1], ace[lo + i] := ace[lo + i], ace[lo + i - 1];
        assert ace[lo..lo + n] == Swapped(s, i);
        StableTwice(s0, s, ace[lo..lo + n]);
      } else {
        PassOn(s, i, top);
        previous := ace[lo + i];
      }
      i := i + 1;
    }
    assert ace[lo..lo + n][..n] == ace[lo..lo + n];
    PassDone(ace[lo..lo + n], n, top);
  }

  lemma PassDone(s: seq<PosixAce>, i: nat, top: nat)
    requires Passing(s, i, top) && i == |s|
    ensures Settled(s, top - 1)
  {
  }

  /** One loop of ntfs_sort_posix: passes over the `n` entries from `lo` until one swaps nothing. */
  method SortRange(ace: array<PosixAce>, lo: nat, n: nat)
    requires lo + n <= ace.Length
    modifies ace
    ensures Sorted(ace[lo..lo + n]) && StablePermutation(old(ace[lo..lo + n]), ace[lo..lo + n])
    ensures ace[..lo] == old(ace[..lo]) && ace[lo + n..] == old(ace[lo + n..])
  {
    hide StablePermutation, Sorted, Settled;
    ghost var s0 := ace[lo..lo + n];
    StableSame(s0);
    ghost var top := n;
    SettledStart(s0);
    if n == 0 {
      return;
    }
    var done := false;
    while !done
      invariant StablePermutation(s0, ace[lo..lo + n]) && ace[..lo] == old(ace[..lo]) && ace[lo + n..] == old(ace[lo + n..])
      invariant 0 < top <= n && Settled(ace[lo..lo + n], top)
      invariant done ==> Sorted(ace[lo..lo + n])
      decreases !done, top
    {
      ghost var s := ace[lo..lo + n];
      done := SortPass(ace, lo, n, top);
      StableTwice(s0, s, ace[lo..lo + n]);
      if !done { top := top - 1; } else { SettledSorted(ace[lo..lo + n], top); }
    }
  }

  /** ntfs_sort_posix: the access entries, then the default entries. */
  method SortPosix(ace: array<PosixAce>, acccnt: nat, firstdef: nat, defcnt: nat)
    requires acccnt <= firstdef && firstdef + defcnt <= ace.Length
    modifies ace
    ensures Sorted(ace[..acccnt]) && StablePermutation(old(ace[..acccnt]), ace[..acccnt])
    ensures Sorted(ace[firstdef..firstdef + defcnt])
    ensures StablePermutation(old(ace[firstdef..firstdef + defcnt]), ace[firstdef..firstdef + defcnt])
  {
    hide StablePermutation, Sorted;
    ghost var s := ace[..];
    SortRange(ace, 0, acccnt);
    ghost var t := ace[..];
    assert ace[0..acccnt] == ace[..acccnt] && s[0..acccnt] == s[..acccnt];
    assert t[acccnt..][firstdef - acccnt..firstdef - acccnt + defcnt] == s[acccnt..][firstdef - acccnt..firstdef - acccnt + defcnt];
    assert t[firstdef..firstdef + defcnt] == s[firstdef..firstdef + defcnt];
    if defcnt > 1 {
      SortRange(ace, firstdef, defcnt);
      assert ace[..firstdef][..acccnt] == t[..firstdef][..acccnt];
    } else {
      OneSorted(ace[firstdef..firstdef + defcnt]);
      StableSame(ace[firstdef..firstdef + defcnt]);
    }
    assert ace[..acccnt] == t[..acccnt];
  }

  lemma OneSorted(s: seq<PosixAce>)
    requires |s| <= 1
    ensures Sorted(s)
  {
  }

  lemma SettledStart(s: seq<PosixAce>)
    ensures Settled(s, |s|) && (s == [] ==> Sorted(s))
  {
  }

  lemma SettledSorted(s: seq<PosixAce>, top: nat)
    requires Sorted(s) && top <= |s|
    ensures Settled(s, top)
  {
  }

  /** A sorted list in which no key occurs twice is strictly sorted. */
  lemma SortedStrict(s: seq<PosixAce>)
    requires Sorted(s) && forall k :: |Of(s, k)| <= 1
    ensures Strict(s)
  {
    hide Before, Of, SameKey;
    forall i, j | 0 <= i < j < |s|
      ensures Before(s[i], s[j])
    {
      Total(s[i], s[j]);
      if SameKey(s[i], s[j]) { OfBoth(s, i, j); }
    }
  }

  lemma OfBoth(s: seq<PosixAce>, i: nat, j: nat)
    requires i < j < |s| && SameKey(s[i], s[j])
    ensures |Of(s, s[j])| >= 2
  {
    hide Of;
    var k, a, b := s[j], s[..i + 1], s[i + 1..j + 1];
    assert s == a + (b + s[j + 1..]);
    OfAppend(a, b + s[j + 1..], k);
    OfAppend(b, s[j + 1..], k);
    OfLast(s, i, k);
    assert b == s[i + 1..][..j - i];
    OfLast(s[i + 1..], j - i - 1, k);
  }

  lemma OfLast(s: seq<PosixAce>, i: nat, k: PosixAce)
    requires i < |s| && SameKey(s[i], k)
    ensures |Of(s[..i + 1], k)| >= 1
  {
    assert s[..i + 1][|s[..i + 1]| - 1] == s[i];
  }

  // ----- merge_lists_posix

  ghost predicate HasKey(s: seq<PosixAce>, k: PosixAce) {
    exists i | 0 <= i < |s| :: SameKey(s[i], k)
  }

  /** What belongs in the merge of two lists: the first wins where both have a key. */
  ghost predicate Chosen(first: seq<PosixAce>, second: seq<PosixAce>, a: PosixAce) {
    a in first || (a in second && !HasKey(first, a))
  }

  /** The merge so far, with `f` and `g` entries of the two lists used up. */
  ghost predicate Merging(first: seq<PosixAce>, second: seq<PosixAce>, f: nat, g: nat, out: seq<PosixAce>) {
    && Strict(first) && Strict(second) && f <= |first| && g <= |second| && |out| <= f + g && Strict(out)
    && (f < |first| ==> forall i | 0 <= i < |out| :: Before(out[i], first[f]))
    && (g < |second| ==> forall i | 0 <= i < |out| :: Before(out[i], second[g]))
    && forall a :: a in out <==> a in first[..f] || (a in second[..g] && !HasKey(first, a))
  }

  lemma StrictPush(s: seq<PosixAce>, a: PosixAce)
    requires Strict(s) && forall i | 0 <= i < |s| :: Before(s[i], a)
    ensures Strict(s + [a])
  {
  }

  lemma PushAll(s: seq<PosixAce>, a: PosixAce, b: PosixAce)
    requires (forall i | 0 <= i < |s| :: Before(s[i], a)) && Before(a, b)
    ensures forall i | 0 <= i < |s + [a]| :: Before((s + [a])[i], b)
  {
    hide Before;
    var t := s + [a];
    forall i | 0 <= i < |t|
      ensures Before(t[i], b)
    {
      if i < |s| { Transitive(s[i], a, b); }
    }
  }

  lemma TakeFirst(first: seq<PosixAce>, second: seq<PosixAce>, f: nat, g: nat, out: seq<PosixAce>)
    requires Merging(first, second, f, g, out) && f < |first| && (g < |second| ==> Before(first[f], second[g]))
    ensures Merging(first, second, f + 1, g, out + [first[f]])
  {
    hide Before, HasKey;
    var a := first[f];
    StrictPush(out, a);
    if f + 1 < |first| { PushAll(out, a, first[f + 1]); }
    if g < |second| { PushAll(out, a, second[g]); }
    assert first[..f + 1] == first[..f] + [a];
  }

  lemma NotInFirst(first: seq<PosixAce>, second: seq<PosixAce>, f: nat, g: nat, out: seq<PosixAce>)
    requires Merging(first, second, f, g, out) && g < |second| && (f < |first| ==> Before(second[g], first[f]))
    ensures !HasKey(first, second[g])
  {
    hide Before, SameKey;
    forall j | 0 <= j < |first|
      ensures !SameKey(first[j], second[g])
    {
      if j < f {
        assert first[..f][j] == first[j] && first[j] in out;
        var i :| 0 <= i < |out| && out[i] == first[j];
        Asymmetric(first[j], second[g]);
      } else {
        if j > f { Transitive(second[g], first[f], first[j]); }
        Asymmetric(second[g], first[j]);
      }
    }
  }

  lemma TakeSecond(first: seq<PosixAce>, second: seq<PosixAce>, f: nat, g: nat, out: seq<PosixAce>)
    requires Merging(first, second, f, g, out) && g < |second| && (f < |first| ==> Before(second[g], first[f]))
    ensures Merging(first, second, f, g + 1, out + [second[g]])
  {
    hide Before, HasKey;
    var a := second[g];
    NotInFirst(first, second, f, g, out);
    StrictPush(out, a);
    if g + 1 < |second| { PushAll(out, a, second[g + 1]); }
    if f < |first| { PushAll(out, a, first[f]); }
    assert second[..g + 1] == second[..g] + [a];
  }

  lemma SkipSecond(first: seq<PosixAce>, second: seq<PosixAce>, f: nat, g: nat, out: seq<PosixAce>)
    requires Merging(first, second, f, g, out) && f < |first| && g < |second| && SameKey(first[f], second[g])
    ensures Merging(first, second, f, g + 1, out)
  {
    hide Before;
    if g + 1 < |second| {
      forall i | 0 <= i < |out|
        ensures Before(out[i], second[g + 1])
      {
        Transitive(out[i], second[g], second[g + 1]);
      }
    }
    assert HasKey(first, second[g]);
    assert second[..g + 1] == second[..g] + [second[g]];
  }

  /** merge_lists_posix */
  method MergeLists(target: array<PosixAce>, first: seq<PosixAce>, second: seq<PosixAce>) returns (k: nat)
    requires Strict(first) && Strict(second) && |first| + |second| <= target.Length
    modifies target
    ensures k <= |first| + |second| && Strict(target[..k])
    ensures forall a :: a in target[..k] <==> Chosen(first, second, a)
  {
    hide Merging, Before, SameKey, HasKey, Strict;
    k := 0;
    var f, g := 0, 0;
    MergeStart(first, second);
    assert target[..0] == [];
    while f < |first| && g < |second|
      invariant 0 <= f <= |first| && 0 <= g <= |second| && k <= f + g && Merging(first, second, f, g, target[..k])
      decreases |first| + |second| - f - g
    {
      ghost var out := target[..k];
      Total(first[f], second[g]);
      if SameKey(first[f], second[g]) {
        SkipSecond(first, second, f, g, out);
        g := g + 1;
      } else if Before(first[f], second[g]) {
        TakeFirst(first, second, f, g, out);
        target[k] := first[f];
        assert target[..k + 1] == out + [first[f]];
        f := f + 1;
        k := k + 1;
      } else {
        TakeSecond(first, second, f, g, out);
        target[k] := second[g];
        assert target[..k + 1] == out + [second[g]];
        g := g + 1;
        k := k + 1;
      }
    }
    while f < |first|
      invariant 0 <= f <= |first| && 0 <= g <= |second| && k <= f + g && (f < |first| ==> g == |second|)
      invariant Merging(first, second, f, g, target[..k])
    {
      ghost var out := target[..k];
      TakeFirst(first, second, f, g, out);
      target[k] := first[f];
      assert target[..k + 1] == out + [first[f]];
      f := f + 1;
      k := k + 1;
    }
    while g < |second|
      invariant f == |first| && 0 <= g <= |second| && k <= f + g && Merging(first, second, f, g, target[..k])
    {
      ghost var out := target[..k];
      TakeSecond(first, second, f, g, out);
      target[k] := second[g];
      assert target[..k + 1] == out + [second[g]];
      g := g + 1;
      k := k + 1;
    }
    MergeEnd(first, second, target[..k]);
  }

  lemma MergeStart(first: seq<PosixAce>, second: seq<PosixAce>)
    requires Strict(first) && Strict(second)
    ensures Merging(first, second, 0, 0, [])
  {
  }

  lemma MergeEnd(first: seq<PosixAce>, second: seq<PosixAce>, out: seq<PosixAce>)
    requires Merging(first, second, |first|, |second|, out)
    ensures Strict(out) && forall a :: a in out <==> Chosen(first, second, a)
  {
    hide Before, SameKey, HasKey;
    assert first[..|first|] == first && second[..|second|] == second;
  }
}
