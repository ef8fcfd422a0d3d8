/** The per-user follow list entity: the ids of the users one user follows, in
    the order they were added. It is a list, not a set: adding an id that is
    already there adds it again, and removing deletes one occurrence only. */
module UserFollowsEntity {

  /** `s` without its first occurrence of `u`; `s` itself when `u` does not
      occur (what `List.Remove` leaves). */
  function RemoveFirst(s: seq<string>, u: string): seq<string>
  {
    if s == [] then []
    else if s[0] == u then s[1..]
    else [s[0]] + RemoveFirst(s[1..], u)
  }

  /** Linear search for the first occurrence of `u`, as `List.IndexOf` does:
      the index of the first `u`, or -1 when there is none. */
  method FirstIndexOf(s: seq<string>, u: string) returns (i: int)
    ensures -1 <= i < |s|
    ensures i == -1 <==> u !in s
    ensures 0 <= i ==> s[i] == u && u !in s[..i]
  {
    var k := 0;
    while k < |s|
      invariant 0 <= k <= |s|
      invariant u !in s[..k]
    {
      if s[k] == u {
        return k;
      }
      assert s[..k + 1] == s[..k] + [s[k]];
      k := k + 1;
    }
    assert s[..k] == s;
    i := -1;
  }

  /** Removing `u` where its first occurrence is at `i` cuts out exactly
      position `i`. */
  lemma {:induction false} RemoveFirstAt(s: seq<string>, u: string, i: nat)
    requires i < |s| && s[i] == u && u !in s[..i]
    ensures RemoveFirst(s, u) == s[..i] + s[i + 1..]
  {
    if i > 0 {
      assert s[0] == s[..i][0];
      assert s[1..][..i - 1] == s[1..i];
      RemoveFirstAt(s[1..], u, i - 1);
      assert s[..i] == [s[0]] + s[1..][..i - 1];
    }
  }

  /** Removing an id that is not followed leaves the list unchanged. */
  lemma {:induction false} RemoveFirstAbsent(s: seq<string>, u: string)
    requires u !in s
    ensures RemoveFirst(s, u) == s
  {
    if s != [] {
      RemoveFirstAbsent(s[1..], u);
    }
  }

  /** Removing drops exactly one occurrence of `u` when there is one, and
      nothing else: the length drops by one exactly when `u` was present. */
  lemma {:induction false} RemoveFirstCount(s: seq<string>, u: string)
    ensures multiset(RemoveFirst(s, u)) == multiset(s) - multiset{u}
    ensures |RemoveFirst(s, u)| == if u in s then |s| - 1 else |s|
  {
    if s != [] {
      RemoveFirstCount(s[1..], u);
      assert s == [s[0]] + s[1..];
    }
  }

  /** Removing from a concatenation removes from the first part that holds
      `u`, and leaves the rest in place. */
  lemma {:induction false} RemoveFirstAppend(a: seq<string>, b: seq<string>, u: string)
    ensures RemoveFirst(a + b, u) == if u in a then RemoveFirst(a, u) + b else a + RemoveFirst(b, u)
  {
    if a == [] {
      assert a + b == b;
    } else {
      assert (a + b)[1..] == a[1..] + b;
      assert u in a <==> a[0] == u || u in a[1..];
      RemoveFirstAppend(a[1..], b, u);
    }
  }

  /** Follow then unfollow: when `u` was not followed yet this undoes the
      follow; when it was, the earlier occurrence is the one removed and the
      new one stays at the end. */
  lemma AddThenRemove(s: seq<string>, u: string)
    ensures u !in s ==> RemoveFirst(s + [u], u) == s
    ensures u in s ==> RemoveFirst(s + [u], u) == RemoveFirst(s, u) + [u]
  {
    RemoveFirstAppend(s, [u], u);
    if u !in s {
      RemoveFirstAbsent(s, u);
    }
  }

  /** A list that starts with `u` is unchanged by moving its head to the end
      exactly when all its elements are `u`. */
  lemma {:induction false} RotateFixed(t: seq<string>, u: string)
    requires t != [] && t[0] == u
    ensures t[1..] + [u] == t <==> forall k :: 0 <= k < |t| ==> t[k] == u
  {
    if forall k :: 0 <= k < |t| ==> t[k] == u {
      assert forall k :: 0 <= k < |t| ==> (t[1..] + [u])[k] == t[k];
    }
    if t[1..] + [u] == t {
      forall k | 0 <= k < |t|
        ensures t[k] == u
      {
        RotatedAt(t, u, k);
      }
    }
  }

  /** Helper: in such a list every position, by induction on it, holds `u`. */
  lemma {:induction false} RotatedAt(t: seq<string>, u: string, k: nat)
    requires t != [] && t[0] == u && t[1..] + [u] == t && k < |t|
    ensures t[k] == u
  {
    if k > 0 {
      RotatedAt(t, u, k - 1);
      assert (t[1..] + [u])[k - 1] == t[k];
    }
  }

  /** Follow then unfollow of an id already followed, first at `i`, restores
      the list exactly when every id from position `i` on is `u`: only then
      does dropping the earlier `u` and keeping the new one at the end give
      back the same list. */
  lemma AddThenRemoveRestores(s: seq<string>, u: string, i: nat)
    requires i < |s| && s[i] == u && u !in s[..i]
    ensures RemoveFirst(s + [u], u) == s <==> forall j :: i <= j < |s| ==> s[j] == u
  {
    AddThenRemove(s, u);
    RemoveFirstAt(s, u, i);
    var t := s[i..];
    assert s == s[..i] + t;
    assert s[i + 1..] == t[1..];
    var r := RemoveFirst(s + [u], u);
    assert r == s[..i] + (t[1..] + [u]);
    if r == s {
      assert r[i..] == t[1..] + [u];
      assert s[i..] == t;
    }
    RotateFixed(t, u);
    assert (forall j :: i <= j < |s| ==> s[j] == u) <==> (forall k :: 0 <= k < |t| ==> t[k] == u) by {
      assert forall k :: 0 <= k < |t| ==> t[k] == s[i + k];
    }
  }

  class UserFollows {
    /** The followed user ids in the order they were added, duplicates included. */
    var followedUsers: seq<string>

    /** The state of a follow list that has never been written to. */
    constructor ()
      ensures followedUsers == []
    {
      followedUsers := [];
    }

    /** Appends `user` even when it is already followed. */
    method Add(user: string)
      modifies this
      ensures followedUsers == old(followedUsers) + [user]
      ensures multiset(followedUsers)[user] == multiset(old(followedUsers))[user] + 1
    {
      followedUsers := followedUsers + [user];
    }

    /** Deletes the first occurrence of `user`, if any, keeping the others in order. */
    method Remove(user: string)
      modifies this
      ensures followedUsers == RemoveFirst(old(followedUsers), user)
      ensures user !in old(followedUsers) ==> followedUsers == old(followedUsers)
      ensures user in old(followedUsers) ==> |followedUsers| == |old(followedUsers)| - 1
      ensures multiset(followedUsers) == multiset(old(followedUsers)) - multiset{user}
    {
      var i := FirstIndexOf(followedUsers, user);
      RemoveFirstCount(followedUsers, user);
      if i >= 0 {
        RemoveFirstAt(followedUsers, user, i);
        followedUsers := followedUsers[..i] + followedUsers[i + 1..];
      } else {
        RemoveFirstAbsent(followedUsers, user);
      }
    }

    /** Returns the current follow list; the entity's state is left as it is. */
    method Get() returns (r: seq<string>)
      ensures r == followedUsers
    {
      r := followedUsers;
    }
  }
}
