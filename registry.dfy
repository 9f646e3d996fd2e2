/**
 * The process-wide room registry `rooms` of backend/index.js: a Map from a
 * room id to the Set of display names in that room, changed in place by the
 * connection handlers.
 *
 * A JavaScript Set iterates in insertion order, and `Array.from(set)` lists
 * it in that order, so a member Set is modelled as a sequence without
 * duplicates, oldest member first.
 */
module Registry {
  type RoomId = string
  type UserName = string
  type Rooms = map<RoomId, seq<UserName>>

  predicate Distinct<T(==)>(s: seq<T>) {
    forall i, j :: 0 <= i < j < |s| ==> s[i] != s[j]
  }

  function Elems<T>(s: seq<T>): set<T> {
    set x | x in s
  }

  /** Every entry is a non-empty Set: no room is ever left empty. */
  predicate WellFormed(rooms: Rooms) {
    forall r :: r in rooms ==> rooms[r] != [] && Distinct(rooms[r])
  }

  /** `Set.prototype.delete`: removes `u`. The contract speaks of membership only, not of the order of the others. */
  function Delete(s: seq<UserName>, u: UserName): (t: seq<UserName>)
    ensures Elems(t) == Elems(s) - {u}
    ensures Distinct(s) ==> Distinct(t)
    ensures u !in s ==> t == s
    ensures |t| <= |s|
  {
    if s == [] then []
    else
      var rest := Delete(s[1..], u);
      assert s == [s[0]] + s[1..];
      assert Elems(s) == {s[0]} + Elems(s[1..]);
      if s[0] == u then rest
      else
        assert Distinct(s) ==> s[0] !in Elems(rest);
        assert Elems([s[0]] + rest) == {s[0]} + Elems(rest);
        [s[0]] + rest
  }

  /** `Set.prototype.add`: appends `u` unless it is already a member. */
  function Add(s: seq<UserName>, u: UserName): (t: seq<UserName>)
    ensures Elems(t) == Elems(s) + {u}
    ensures Distinct(s) ==> Distinct(t)
    ensures |s| <= |t| && t[..|s|] == s
  {
    if u in s then s else s + [u]
  }

  /**
   * The removal shared by both leaves and the disconnect: delete `u` from the
   * Set of room `r` if that room exists, and delete the room when its Set
   * becomes empty.
   */
  function RemoveMember(rooms: Rooms, r: RoomId, u: UserName): (m: Rooms)
    ensures r in m <==> r in rooms && Elems(rooms[r]) - {u} != {}
    ensures r in m ==> m[r] == Delete(rooms[r], u)
    ensures forall k :: k != r ==> (k in m <==> k in rooms)
    ensures forall k :: k in m && k != r ==> m[k] == rooms[k]
    ensures WellFormed(rooms) ==> WellFormed(m)
  {
    if r !in rooms then rooms
    else
      var rest := Delete(rooms[r], u);
      assert rest != [] ==> rest[0] in Elems(rest);
      if rest == [] then rooms - {r} else rooms[r := rest]
  }

  /**
   * The registry side of a join: create the room with an empty Set if it is
   * absent, then add `u` to it.
   */
  function AddMember(rooms: Rooms, r: RoomId, u: UserName): (m: Rooms)
    ensures r in m && u in m[r]
    ensures Elems(m[r]) == (if r in rooms then Elems(rooms[r]) else {}) + {u}
    ensures r in rooms ==> |rooms[r]| <= |m[r]| && m[r][..|rooms[r]|] == rooms[r]
    ensures forall k :: k != r ==> (k in m <==> k in rooms)
    ensures forall k :: k in m && k != r ==> m[k] == rooms[k]
    ensures WellFormed(rooms) ==> WellFormed(m)
  {
    rooms[r := Add(if r in rooms then rooms[r] else [], u)]
  }
}
