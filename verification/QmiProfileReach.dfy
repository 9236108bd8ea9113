/** How far the 8-bit cursor over the profile list reaches: exactly as far as the indices are recovered. */
module QmiProfileReach {
  import opened Wire
  import opened QmiTlv
  import opened QmiProfileList

  /** The same technologies and names; the indices may be others. */
  ghost predicate SameShape(p: seq<Profile>, q: seq<Profile>) {
    |p| == |q| && forall i :: 0 <= i < |p| ==> p[i].technology == q[i].technology && p[i].name == q[i].name
  }

  /** The loop reads nothing but the first 256 bytes. */
  lemma {:induction false} DecodedIsLocal(list: Bytes, other: Bytes, left: nat, k: byte)
    requires forall i :: 0 <= i < 0x100 ==> At(list, i) == At(other, i)
    ensures Decoded(list, left, k) == Decoded(other, left, k)
  {
    hide At;
    if left > 0 {
      DecodedIsLocal(list, other, left - 1, NextCursor(list, k));
    }
  }

  lemma {:induction false} IndicesAppend(front: seq<Profile>, p: Profile)
    ensures IndicesOf(front + [p]) == IndicesOf(front) + [p.index]
  {
    if front != [] {
      assert (front + [p])[0] == front[0] && (front + [p])[1..] == front[1..] + [p];
      IndicesAppend(front[1..], p);
    }
  }

  /** The list with this count, these profiles and whatever the message has behind them. */
  function Listed(profiles: Profiles, tail: Bytes): Bytes
    requires |profiles| < 0x100
  {
    [|profiles|] + Encoded(profiles) + tail
  }

  lemma ListedLists(profiles: Profiles, tail: Bytes)
    requires |profiles| < 0x100
    ensures Lists(Listed(profiles, tail), profiles)
  {
    var list := Listed(profiles, tail);
    forall i | 0 <= i < |Encoded(profiles)| ensures list[1 + i] == Encoded(profiles)[i] {
      assert list[1 + i] == ([|profiles|] + Encoded(profiles))[1 + i];
    }
  }

  lemma OneByteApart(a: Bytes, x: byte, y: byte, b: Bytes)
    ensures forall i: nat :: i != |a| ==> At(a + [x] + b, i) == At(a + [y] + b, i)
  {
  }

  lemma {:induction false} ListedParts(front: Profiles, p: Profile, profiles: Profiles, tail: Bytes)
    requires profiles == front + [p] && |profiles| < 0x100
    ensures p in profiles
    ensures Listed(profiles, tail)
         == ([|profiles|] + Encoded(front) + [p.technology]) + [p.index] + ([|p.name|] + p.name + tail)
  {
    EncodedAppend(front, p, profiles);
    hide Encoded;
    var e := Encoded(front);
    assert [p.technology, p.index, |p.name|] == [p.technology] + [p.index] + [|p.name|];
    assert [|profiles|] + (e + ([p.technology] + [p.index] + [|p.name|] + p.name)) + tail
        == ([|profiles|] + e + [p.technology]) + [p.index] + ([|p.name|] + p.name + tail);
  }

  /** Another last index changes the list at its own offset only. */
  lemma {:induction false} OtherLastIndex(front: Profiles, p: Profile, q: Profile, mine: Profiles, other: Profiles, tail: Bytes)
    requires mine == front + [p] && other == front + [q] && |mine| < 0x100
    requires p.technology == q.technology && p.name == q.name
    ensures forall i: nat :: i != 2 + |Encoded(front)| ==> At(Listed(mine, tail), i) == At(Listed(other, tail), i)
  {
    ListedParts(front, p, mine, tail);
    ListedParts(front, q, other, tail);
    hide Encoded, Listed, At;
    OneByteApart([|mine|] + Encoded(front) + [p.technology], p.index, q.index, [|p.name|] + p.name + tail);
  }

  ghost predicate Recovered(profiles: Profiles, tail: Bytes)
    requires |profiles| < 0x100
  {
    Decoded(Listed(profiles, tail), |profiles|, 2) == IndicesOf(profiles)
  }

  /** The same profiles but for the last index. */
  function Varied(profiles: Profiles): Profiles
    requires profiles != []
  {
    assert profiles[|profiles| - 1] in profiles;
    var p := profiles[|profiles| - 1];
    AllButLast(profiles) + [p.(index := Byte(p.index + 1))]
  }

  /** Beyond reach the loop puts out the same for two lists that differ in the last index, so for one it is wrong. */
  lemma BeyondReach(profiles: Profiles, tail: Bytes)
    requires |profiles| < 0x100 && !InReach(1, profiles)
    ensures !Recovered(profiles, tail) || !Recovered(Varied(profiles), tail)
  {
    var front, p := AllButLast(profiles), profiles[|profiles| - 1];
    var q := p.(index := Byte(p.index + 1));
    assert p in profiles;
    var other := Varied(profiles);
    assert profiles == front + [p];
    OtherLastIndex(front, p, q, profiles, other, tail);
    hide At, Encoded, Listed;
    DecodedIsLocal(Listed(profiles, tail), Listed(other, tail), |profiles|, 2);
    IndicesAppend(front, p);
    IndicesAppend(front, q);
    assert (IndicesOf(front) + [p.index])[|IndicesOf(front)|] != (IndicesOf(front) + [q.index])[|IndicesOf(front)|];
  }

  lemma VariedShape(profiles: Profiles)
    requires profiles != []
    ensures SameShape(profiles, Varied(profiles)) && SameShape(profiles, profiles)
  {
  }

  /** For given technologies and names the loop recovers the indices, whichever they are, exactly when the last of them
      lies at offset 255 or before. */
  lemma RecoveredExactly(profiles: Profiles, tail: Bytes)
    requires |profiles| < 0x100
    ensures (forall other: Profiles :: SameShape(profiles, other) ==> Recovered(other, tail))
       <==> (profiles != [] ==> LastIndexAt(1, profiles) <= 0xff)
  {
    if InReach(1, profiles) {
      forall other: Profiles | SameShape(profiles, other) ensures Recovered(other, tail) {
        SameReach(1, profiles, other);
        ListedLists(other, tail);
        ProfilesRecovered(Listed(other, tail), other);
      }
    } else {
      BeyondReach(profiles, tail);
      VariedShape(profiles);
    }
  }

  lemma {:induction false} SameSize(p: Profiles, q: Profiles)
    requires SameShape(p, q)
    ensures |Encoded(p)| == |Encoded(q)|
    decreases |p|
  {
    if p != [] {
      assert p[0] in p && q[0] in q;
      SameSize(Rest(p), Rest(q));
    }
  }

  lemma SameReach(at: nat, p: Profiles, q: Profiles)
    requires SameShape(p, q)
    ensures InReach(at, p) <==> InReach(at, q)
  {
    if p != [] {
      SameSize(AllButLast(p), AllButLast(q));
    }
  }
}
