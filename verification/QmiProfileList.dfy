/** The list of profiles in a GET_PROFILE_LIST response, and the loop with an 8-bit cursor that picks the indices out. */
module QmiProfileList {
  import opened Wire
  import opened QmiTlv

  datatype Profile = Profile(technology: byte, index: byte, name: Bytes)

  type Profiles = s: seq<Profile> | forall p :: p in s ==> |p.name| < 0x100

  function Encoded(profiles: Profiles): Bytes {
    if profiles == [] then [] else
      assert profiles[0] in profiles && forall p :: p in profiles[1..] ==> p in profiles;
      var p := profiles[0];
      [p.technology, p.index, |p.name|] + p.name + Encoded(profiles[1..])
  }

  function IndicesOf(profiles: seq<Profile>): Bytes {
    if profiles == [] then [] else [profiles[0].index] + IndicesOf(profiles[1..])
  }

  /** Over the name's length and the name to the next profile's index, in eight bits. */
  function NextCursor(list: Bytes, k: byte): byte {
    var nameAt := Byte(k + 1);
    var n := At(list, nameAt);
    Byte(nameAt + if n == 0 then 2 else 2 + n)
  }

  /** What the loop puts out in left more turns; k points at the index of the next profile. */
  function Decoded(list: Bytes, left: nat, k: byte): Bytes {
    if left == 0 then [] else [At(list, k)] + Decoded(list, left - 1, NextCursor(list, k))
  }

  /** Room for the indices, as declared */
  const MAX_PROFILES := 42

  /** The loop writes without a bound check, so the count must not exceed the room for it. */
  method DecodeIndices(list: Bytes) returns (indices: array<byte>, num: byte)
    requires At(list, 0) <= 42
    ensures indices.Length == MAX_PROFILES && num == At(list, 0)
    ensures indices[..num] == Decoded(list, num, 2)
    ensures forall j :: num <= j < MAX_PROFILES ==> indices[j] == 0
  {
    indices := new byte[MAX_PROFILES](_ => 0);
    num := At(list, 0);
    if num >= 1 {
      var k: byte := 2;
      for i := 0 to num
        invariant Decoded(list, num, 2) == indices[..i] + Decoded(list, num - i, k)
        invariant forall j :: i <= j < MAX_PROFILES ==> indices[j] == 0
      {
        ghost var before := indices[..i];
        AppendAssoc(before, [At(list, k)], Decoded(list, num - i, k)[1..]);
        indices[i] := At(list, k);
        assert indices[..i + 1] == before + [At(list, k)];
        k := Byte(k + 1);
        if At(list, k) == 0 {
          k := Byte(k + 2);
        } else {
          k := Byte(k + 2 + At(list, k));
        }
      }
      AppendNone(indices[..num]);
    }
  }

  // ---- where the profiles lie ----

  function Rest(profiles: Profiles): Profiles
    requires profiles != []
  {
    assert forall p :: p in profiles[1..] ==> p in profiles;
    profiles[1..]
  }

  function AllButLast(profiles: Profiles): Profiles
    requires profiles != []
  {
    assert forall p :: p in profiles[..|profiles| - 1] ==> p in profiles;
    profiles[..|profiles| - 1]
  }

  /** The offset of the last profile's index, with the profiles from at on. */
  function LastIndexAt(at: nat, profiles: Profiles): nat
    requires profiles != []
  {
    at + |Encoded(AllButLast(profiles))| + 1
  }

  /** An 8-bit cursor can stand on every index; the last name, and even its length, may lie behind. */
  predicate InReach(at: nat, profiles: Profiles) {
    profiles != [] ==> LastIndexAt(at, profiles) <= 0xff
  }

  lemma {:induction false} OneProfile(list: Bytes, at: nat, profiles: Profiles)
    requires profiles != [] && Holds(list, at, Encoded(profiles))
    ensures var p := profiles[0];
            && p in profiles && At(list, at + 1) == p.index && At(list, at + 2) == |p.name|
            && Holds(list, at + 3 + |p.name|, Encoded(Rest(profiles)))
  {
    var p := profiles[0];
    assert p in profiles;
    var head: Bytes := [p.technology, p.index, |p.name|] + p.name;
    HoldsParts(list, at, head, Encoded(Rest(profiles)));
    assert list[at + 1] == head[1] && list[at + 2] == head[2];
  }

  /** The last index lies behind the first profile, or in it when there is but one. */
  lemma LastIndexStep(at: nat, profiles: Profiles)
    requires profiles != []
    ensures profiles[0] in profiles
    ensures |profiles| == 1 ==> LastIndexAt(at, profiles) == at + 1
    ensures |profiles| > 1 ==> LastIndexAt(at, profiles) == LastIndexAt(at + 3 + |profiles[0].name|, Rest(profiles))
  {
    assert profiles[0] in profiles;
    if |profiles| > 1 {
      var front := AllButLast(profiles);
      assert front[0] == profiles[0] && Rest(front) == AllButLast(Rest(profiles));
    }
  }

  lemma LastIndexBehind(at: nat, profiles: Profiles)
    requires profiles != []
    ensures LastIndexAt(at, profiles) > at
  {
  }

  // ---- within reach ----

  lemma CursorStep(list: Bytes, at: nat)
    requires at < 0xfe
    ensures var next := at + 3 + At(list, at + 2);
            next < 0xff ==> NextCursor(list, at + 1) == next + 1
  {
    hide At;
    assert Byte(at + 1 + 1) == at + 2;
  }

  lemma {:induction false} NothingLeft(list: Bytes, k: byte)
    ensures Decoded(list, 0, k) == [] && IndicesOf([]) == []
  {
  }

  lemma {:induction false} CursorFollows(list: Bytes, at: nat, profiles: Profiles)
    requires Holds(list, at, Encoded(profiles)) && InReach(at, profiles) && at < 0xff
    ensures Decoded(list, |profiles|, at + 1) == IndicesOf(profiles)
    decreases |profiles|
  {
    hide Holds, Encoded, At, NextCursor, LastIndexAt;
    if profiles == [] {
      NothingLeft(list, at + 1);
    } else {
      OneProfile(list, at, profiles);
      LastIndexStep(at, profiles);
      if |profiles| > 1 {
        var next := at + 3 + |profiles[0].name|;
        LastIndexBehind(next, Rest(profiles));
        CursorStep(list, at);
        CursorFollows(list, next, Rest(profiles));
      } else {
        assert profiles[1..] == [];
        NothingLeft(list, NextCursor(list, at + 1));
      }
    }
  }

  /** The profiles stand in the list behind its count byte. */
  predicate Lists(list: Bytes, profiles: Profiles) {
    At(list, 0) == |profiles| && Holds(list, 1, Encoded(profiles))
  }

  /** The loop recovers exactly the indices, in order, when the cursor reaches them. */
  lemma {:induction false} ProfilesRecovered(list: Bytes, profiles: Profiles)
    requires Lists(list, profiles) && InReach(1, profiles)
    ensures Decoded(list, At(list, 0), 2) == IndicesOf(profiles)
  {
    CursorFollows(list, 1, profiles);
  }

  lemma {:induction false} EncodedAppend(front: Profiles, p: Profile, profiles: Profiles)
    requires profiles == front + [p]
    ensures p in profiles && Encoded(profiles) == Encoded(front) + ([p.technology, p.index, |p.name|] + p.name)
    decreases |front|
  {
    assert profiles[|front|] == p;
    if front == [] {
      assert Rest(profiles) == [];
      AppendNone([p.technology, p.index, |p.name|] + p.name);
    } else {
      var head := [front[0].technology, front[0].index, |front[0].name|] + front[0].name;
      assert profiles[0] == front[0] && profiles[1..] == front[1..] + [p];
      EncodedAppend(Rest(front), p, Rest(profiles));
      AppendAssoc(head, Encoded(Rest(front)), [p.technology, p.index, |p.name|] + p.name);
    }
  }

  // ---- two instances ----

  /** Whenever count and profiles take at most 255 bytes, the indices are recovered. */
  lemma {:induction false} ShortListRecovered(list: Bytes, profiles: Profiles)
    requires Lists(list, profiles) && 1 + |Encoded(profiles)| <= 0xff
    ensures Decoded(list, At(list, 0), 2) == IndicesOf(profiles)
  {
    if profiles != [] {
      var front, p := AllButLast(profiles), profiles[|profiles| - 1];
      assert profiles == front + [p];
      EncodedAppend(front, p, profiles);
    }
    ProfilesRecovered(list, profiles);
  }

  /** Behind a first name of 253 bytes the cursor is back at the first profile. */
  lemma {:induction false} CursorWraps(list: Bytes, p: Profile, rest: Profiles)
    requires |p.name| == 253 && rest != [] && Holds(list, 1, Encoded([p] + rest))
    ensures Decoded(list, 2, 2) == [p.index, p.index]
  {
    var profiles: Profiles := [p] + rest;
    OneProfile(list, 1, profiles);
    hide Holds, Encoded;
    assert Decoded(list, 1, 2) == [p.index] + Decoded(list, 0, Byte(3 + 2 + 253));
  }
}
