/**
 * The table of active player names that the lobby and every game process
 * share: up to 100 names of at most 72 bytes, the first `count` slots
 * in use. A name is added when its game starts and removed when it ends;
 * the lobby rejects a newcomer whose name is in the table.
 */
module Registry {

  const MaxActivePlayers: nat := 100

  /** A slot holds 73 bytes: at most 72 bytes and the terminating NUL; each `char` stands for one byte. */
  const MaxStoredLength: nat := 72

  /** What `strncpy` into a slot, followed by a NUL in its last byte, keeps of a name. */
  function Stored(name: string): (s: string)
    ensures |s| <= MaxStoredLength && s <= name
    ensures |name| <= MaxStoredLength ==> s == name
  {
    if |name| <= MaxStoredLength then name else name[..MaxStoredLength]
  }

  /** The table after `add_active_player(x)`: the stored name appended, unless the table is full. */
  function Registered(s: seq<string>, x: string): (r: seq<string>)
    ensures |s| < MaxActivePlayers ==> r == s + [Stored(x)]
    ensures |s| >= MaxActivePlayers ==> r == s
  {
    if |s| < MaxActivePlayers then s + [Stored(x)] else s
  }

  /** The table after `remove_active_player(x)`: the first entry equal to `x` is gone. */
  function RemoveFirst(s: seq<string>, x: string): (r: seq<string>)
    decreases |s|
  {
    if s == [] then []
    else if s[0] == x then s[1..]
    else [s[0]] + RemoveFirst(s[1..], x)
  }

  /** Removing a name that is not in the table changes nothing. */
  lemma {:induction false} RemoveAbsent(s: seq<string>, x: string)
    requires x !in s
    ensures RemoveFirst(s, x) == s
    decreases |s|
  {
    if s != [] {
      RemoveAbsent(s[1..], x);
      assert s == [s[0]] + s[1..];
    }
  }

  /** Removing a name removes it at its first position and keeps the order of the rest. */
  lemma {:induction false} RemoveAt(s: seq<string>, x: string, i: nat)
    requires i < |s| && s[i] == x && x !in s[..i]
    ensures RemoveFirst(s, x) == s[..i] + s[i + 1..]
    decreases i
  {
    if i > 0 {
      assert s[0] in s[..i];
      assert s[1..][..i - 1] == s[..i][1..];
      RemoveAt(s[1..], x, i - 1);
      assert s[..i] == [s[0]] + s[1..][..i - 1];
      assert s[i + 1..] == s[1..][i..];
    }
  }

  /** Removing a present name takes exactly one copy of it out of the table. */
  lemma {:induction false} RemovePresent(s: seq<string>, x: string)
    requires x in s
    ensures |RemoveFirst(s, x)| == |s| - 1
    ensures multiset(RemoveFirst(s, x)) == multiset(s) - multiset{x}
    decreases |s|
  {
    if s[0] != x {
      RemovePresent(s[1..], x);
      assert s == [s[0]] + s[1..];
    } else {
      assert s == [x] + s[1..];
    }
  }

  /** A name appended after the entries it does not occur in is the one removed again. */
  lemma {:induction false} RemoveLast(s: seq<string>, x: string)
    requires x !in s
    ensures RemoveFirst(s + [x], x) == s
    decreases |s|
  {
    if s != [] {
      assert (s + [x])[1..] == s[1..] + [x];
      RemoveLast(s[1..], x);
      assert s == [s[0]] + s[1..];
    }
  }

  /**
   * A game registers both names and removes both when it ends: a table that
   * held neither name is restored, full or not, and whether or not the two
   * names are the same.
   */
  lemma GameRestoresTable(s: seq<string>, p1: string, p2: string)
    requires p1 !in s && p2 !in s
    requires |p1| <= MaxStoredLength && |p2| <= MaxStoredLength
    ensures RemoveFirst(RemoveFirst(Registered(Registered(s, p1), p2), p1), p2) == s
  {
    if |s| + 1 < MaxActivePlayers {
      if p1 == p2 {
        assert s + [p1] + [p2] == (s + [p1]) + [p1];
        assert p1 in s + [p1];
        assert RemoveFirst((s + [p1]) + [p1], p1) == s + [p1] by {
          RemoveAt((s + [p1]) + [p1], p1, |s|);
          assert ((s + [p1]) + [p1])[..|s|] == s;
        }
        RemoveLast(s, p1);
      } else {
        var t := s + [p1] + [p2];
        RemoveAt(t, p1, |s|);
        assert t[..|s|] == s;
        assert t[..|s|] + t[|s| + 1..] == s + [p2];
        RemoveLast(s, p2);
      }
    } else if |s| < MaxActivePlayers {
      RemoveLast(s, p1);
      RemoveAbsent(s, p2);
    } else {
      RemoveAbsent(s, p1);
      RemoveAbsent(s, p2);
    }
  }

  /**
   * The shared table. Slots from `count` on keep whatever they last held;
   * only the first `count` are active.
   */
  class ActivePlayers {
    const names: array<string>
    var count: int

    ghost predicate Valid()
      reads this
    {
      names.Length == MaxActivePlayers && 0 <= count <= MaxActivePlayers
    }

    /** The active names, in table order. */
    function Active(): seq<string>
      reads this, names
      requires Valid()
    {
      names[..count]
    }

    /** The table as the server maps it: no name active. */
    constructor ()
      ensures Valid() && Active() == []
      ensures fresh(names)
    {
      names := new string[MaxActivePlayers](_ => "");
      count := 0;
    }

    /** `is_player_active`: a linear scan of the active slots with `strcmp`. */
    method IsPlayerActive(name: string) returns (active: bool)
      requires Valid()
      ensures active <==> name in Active()
    {
      var i := 0;
      while i < count
        invariant 0 <= i <= count
        invariant name !in names[..i]
      {
        if names[i] == name {
          assert names[..count][i] == name;
          return true;
        }
        assert names[..i + 1] == names[..i] + [names[i]];
        i := i + 1;
      }
      assert names[..i] == Active();
      return false;
    }

    /** `add_active_player`: store the name in the first free slot, if there is one. */
    method AddActivePlayer(name: string)
      requires Valid()
      modifies this, names
      ensures Valid() && Active() == Registered(old(Active()), name)
      ensures forall k :: 0 <= k < names.Length && k != old(count) ==> names[k] == old(names[k])
    {
      ghost var before := Active();
      if count < MaxActivePlayers {
        names[count] := Stored(name);
        count := count + 1;
        assert names[..count] == before + [Stored(name)];
      }
    }

    /**
     * `remove_active_player`: find the first slot holding the name, copy
     * every later active slot one down, and shrink the table by one. The
     * last active slot keeps its old contents.
     */
    method RemoveActivePlayer(name: string)
      requires Valid()
      modifies this, names
      ensures Valid() && Active() == RemoveFirst(old(Active()), name)
      ensures name !in old(Active()) ==> count == old(count) && names[..] == old(names[..])
      ensures forall k :: 0 <= k < names.Length && old(count) - 1 <= k ==> names[k] == old(names[k])
    {
      ghost var before := names[..];
      var i := 0;
      while i < count
        invariant 0 <= i <= count == old(count)
        invariant names[..] == before
        invariant name !in names[..i]
      {
        if names[i] == name {
          ghost var s := before[..count];
          CloseGap(i);
          RemoveAt(s, name, i);
          assert names[..count - 1] == names[..i] + names[i..count - 1];
          assert s[..i] == before[..i] && s[i + 1..] == before[i + 1..count];
          count := count - 1;
          return;
        }
        assert names[..i + 1] == names[..i] + [names[i]];
        i := i + 1;
      }
      assert names[..i] == Active();
      RemoveAbsent(Active(), name);
    }

    /** The copying loop of `remove_active_player`: every active slot after `i` moves one down. */
    method CloseGap(i: int)
      requires Valid() && 0 <= i < count
      modifies names
      ensures names[..i] == old(names[..i])
      ensures names[i..count - 1] == old(names[i + 1..count])
      ensures forall k :: count - 1 <= k < names.Length ==> names[k] == old(names[k])
    {
      ghost var before := names[..];
      var j := i;
      while j < count - 1
        invariant i <= j <= count - 1
        invariant names[..i] == before[..i]
        invariant forall k :: i <= k < j ==> names[k] == before[k + 1]
        invariant forall k :: j <= k < names.Length ==> names[k] == before[k]
      {
        names[j] := names[j + 1];
        j := j + 1;
      }
      assert names[i..count - 1] == before[i + 1..count];
    }
  }
}
