/**
 Bit masks over ordinals. A mask is the integer it is on the wire; setting a bit that is already
 set changes nothing, as with a bitwise or.
 */
module BitMask {
  import opened Bytes

  /** `mask & 1 << i != 0` */
  predicate Bit(mask: nat, i: nat) {
    if i == 0 then mask % 2 == 1 else Bit(mask / 2, i - 1)
  }

  /** `mask | 1 << i` */
  function SetBit(mask: nat, i: nat): nat {
    if i == 0 then mask / 2 * 2 + 1 else mask % 2 + 2 * SetBit(mask / 2, i - 1)
  }

  /** The mask of a list of ordinals, accumulated from the left. */
  function MaskOf(ordinals: seq<nat>): nat {
    if ordinals == [] then 0
    else SetBit(MaskOf(ordinals[..|ordinals| - 1]), ordinals[|ordinals| - 1])
  }

  /** The ordinals below `n` whose bit is set, ascending. */
  function Unmask(mask: nat, n: nat): seq<nat> {
    if n == 0 then [] else Unmask(mask, n - 1) + (if Bit(mask, n - 1) then [n - 1] else [])
  }

  /** Number of set bits below `n`. */
  function PopCount(mask: nat, n: nat): nat {
    if n == 0 then 0 else PopCount(mask, n - 1) + (if Bit(mask, n - 1) then 1 else 0)
  }

  /** The listed ordinals below `n`, each once, ascending. */
  function Ascending(ordinals: seq<nat>, n: nat): seq<nat> {
    if n == 0 then [] else Ascending(ordinals, n - 1) + (if n - 1 in ordinals then [n - 1] else [])
  }

  predicate Distinct<T(==)>(s: seq<T>) {
    forall i, j :: 0 <= i < j < |s| ==> s[i] != s[j]
  }

  /** Setting a bit sets that bit and no other. */
  lemma {:induction false} SetBitChangesOneBit(mask: nat, i: nat, j: nat)
    ensures Bit(SetBit(mask, i), j) <==> (i == j || Bit(mask, j))
  {
    if i > 0 {
      assert SetBit(mask, i) % 2 == mask % 2 && SetBit(mask, i) / 2 == SetBit(mask / 2, i - 1);
      if j > 0 {
        SetBitChangesOneBit(mask / 2, i - 1, j - 1);
      }
    } else if j > 0 {
      assert SetBit(mask, i) / 2 == mask / 2;
    }
  }

  lemma {:induction false} SetBitBound(mask: nat, n: nat, i: nat)
    requires mask < PowerOfTwo(n) && i < n
    ensures SetBit(mask, i) < PowerOfTwo(n)
  {
    var p := PowerOfTwo(n - 1);
    assert PowerOfTwo(n) == 2 * p && mask / 2 < p;
    if i > 0 {
      SetBitBound(mask / 2, n - 1, i - 1);
    }
  }

  lemma {:induction false} ZeroHasNoBits(j: nat)
    ensures !Bit(0, j)
  {
    if j > 0 {
      ZeroHasNoBits(j - 1);
    }
  }

  lemma {:induction false} MaskHoldsItsOrdinals(ordinals: seq<nat>, j: nat)
    ensures Bit(MaskOf(ordinals), j) <==> j in ordinals
  {
    if ordinals != [] {
      var n := |ordinals| - 1;
      MaskHoldsItsOrdinals(ordinals[..n], j);
      SetBitChangesOneBit(MaskOf(ordinals[..n]), ordinals[n], j);
      assert ordinals == ordinals[..n] + [ordinals[n]];
    } else {
      ZeroHasNoBits(j);
    }
  }

  /** Decoding a list's mask puts the list in ordinal order without repetitions. */
  lemma {:induction false} UnmaskOfMask(ordinals: seq<nat>, n: nat)
    ensures Unmask(MaskOf(ordinals), n) == Ascending(ordinals, n)
  {
    if n > 0 {
      UnmaskOfMask(ordinals, n - 1);
      MaskHoldsItsOrdinals(ordinals, n - 1);
    }
  }

  lemma {:induction false} PopCountIsLength(mask: nat, n: nat)
    ensures PopCount(mask, n) == |Unmask(mask, n)|
  {
    if n > 0 {
      PopCountIsLength(mask, n - 1);
    }
  }

  lemma {:induction false} AscendingMembers(ordinals: seq<nat>, n: nat)
    ensures forall x :: x in Ascending(ordinals, n) <==> x in ordinals && x < n
    ensures StrictlyAscends(Ascending(ordinals, n))
  {
    if n > 0 {
      AscendingMembers(ordinals, n - 1);
      var shorter := Ascending(ordinals, n - 1);
      assert forall i :: 0 <= i < |shorter| ==> shorter[i] in shorter;
    }
  }

  function Elements(s: seq<nat>): set<nat> {
    set x | x in s
  }

  lemma {:induction false} DistinctIffAsManyElements(s: seq<nat>)
    ensures |Elements(s)| <= |s|
    ensures Distinct(s) <==> |Elements(s)| == |s|
  {
    if s != [] {
      var n := |s| - 1;
      DistinctIffAsManyElements(s[..n]);
      assert s == s[..n] + [s[n]];
      assert Elements(s) == Elements(s[..n]) + {s[n]};
      if s[n] in s[..n] {
        assert Elements(s) == Elements(s[..n]);
        var i :| 0 <= i < n && s[i] == s[n];
        assert !Distinct(s);
      } else {
        assert |Elements(s)| == |Elements(s[..n])| + 1;
        assert Distinct(s) <==> Distinct(s[..n]) by {
          if Distinct(s[..n]) {
            forall i, j | 0 <= i < j < |s| ensures s[i] != s[j] {
              if j < n {
                assert s[..n][i] != s[..n][j];
              } else {
                assert s[..n][i] == s[i];
              }
            }
          }
        }
      }
    }
  }

  /** The bit count of a list's mask equals the list's length exactly when nothing is listed twice. */
  lemma PopCountAcceptsDistinct(ordinals: seq<nat>, n: nat)
    requires forall x :: x in ordinals ==> x < n
    ensures PopCount(MaskOf(ordinals), n) == |ordinals| <==> Distinct(ordinals)
  {
    var sorted := Ascending(ordinals, n);
    PopCountIsLength(MaskOf(ordinals), n);
    UnmaskOfMask(ordinals, n);
    AscendingMembers(ordinals, n);
    assert Elements(sorted) == Elements(ordinals);
    DistinctIffAsManyElements(sorted);
    DistinctIffAsManyElements(ordinals);
  }

  predicate StrictlyAscends(ordinals: seq<nat>) {
    forall i, j :: 0 <= i < j < |ordinals| ==> ordinals[i] < ordinals[j]
  }

  /** In an ascending list the largest possible element can only come last. */
  lemma LargestIsLast(ordinals: seq<nat>, n: nat)
    requires StrictlyAscends(ordinals) && (forall x :: x in ordinals ==> x <= n) && n in ordinals
    ensures ordinals[|ordinals| - 1] == n
    ensures var rest := ordinals[..|ordinals| - 1]; forall x :: x in rest ==> x < n
  {
    assert ordinals[|ordinals| - 1] in ordinals;
  }

  lemma {:induction false} AscentFits(ordinals: seq<nat>, n: nat)
    requires StrictlyAscends(ordinals) && forall x :: x in ordinals ==> x < n
    ensures |ordinals| <= n
  {
    if ordinals != [] {
      var last := |ordinals| - 1;
      assert ordinals[last] in ordinals;
      AscentFits(ordinals[..last], ordinals[last]);
    }
  }

  /** A list is its own ordinal order exactly when it ascends strictly. */
  lemma AscendingIsIdentity(ordinals: seq<nat>, n: nat)
    requires forall x :: x in ordinals ==> x < n
    ensures Ascending(ordinals, n) == ordinals <==> StrictlyAscends(ordinals)
  {
    AscendingMembers(ordinals, n);
    if StrictlyAscends(ordinals) {
      AscentIsKept(ordinals, n);
    }
  }

  lemma {:induction false} AscentIsKept(ordinals: seq<nat>, n: nat)
    requires (forall x :: x in ordinals ==> x < n) && StrictlyAscends(ordinals)
    ensures Ascending(ordinals, n) == ordinals
    decreases n
  {
    if n == 0 {
      AscentFits(ordinals, n);
    } else if n - 1 in ordinals {
      LargestIsLast(ordinals, n - 1);
      var rest := ordinals[..|ordinals| - 1];
      assert ordinals == rest + [n - 1];
      AscentIsKept(rest, n - 1);
      SameMembersBelow(ordinals, rest, n - 1);
    } else {
      AscentIsKept(ordinals, n - 1);
    }
  }

  lemma {:induction false} SameMembersBelow(a: seq<nat>, b: seq<nat>, n: nat)
    requires forall x :: x < n ==> (x in a <==> x in b)
    ensures Ascending(a, n) == Ascending(b, n)
  {
    if n > 0 {
      SameMembersBelow(a, b, n - 1);
    }
  }

  /** A mask of small ordinals has no bits beyond them. */
  lemma {:induction false} MaskOfBound(ordinals: seq<nat>, n: nat)
    requires forall x :: x in ordinals ==> x < n
    ensures MaskOf(ordinals) < PowerOfTwo(n)
  {
    if ordinals != [] {
      var last := |ordinals| - 1;
      assert ordinals[last] in ordinals && forall x :: x in ordinals[..last] ==> x in ordinals;
      MaskOfBound(ordinals[..last], n);
      SetBitBound(MaskOf(ordinals[..last]), n, ordinals[last]);
    }
  }
}
