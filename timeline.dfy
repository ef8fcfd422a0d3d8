/** The timeline orchestration: fetch the follow list of a user, fetch the
    chirp log of every followed user in list order, concatenate the logs and
    sort the result by timestamp with a stable sort. */
module Timeline {
  import opened ChirpRecords

  /** Entity names under which the two entity kinds are registered. */
  const UserFollowsEntityName: string := "UserFollows"
  const UserChirpsEntityName: string := "UserChirps"
  const GetOperation: string := "Get"

  /** One entity call the orchestration issues: which entity kind, which
      instance (a user id) and which operation. */
  datatype EntityCall = EntityCall(entityName: string, key: string, operation: string)

  /** The state of the follow list entity of `user`; an entity that has never
      been written to holds an empty list. */
  function FollowedBy(follows: map<string, seq<string>>, user: string): seq<string>
  {
    if user in follows then follows[user] else []
  }

  /** The state of the chirp log entity of `user`; an entity that has never
      been written to holds an empty list. */
  function ChirpsOf(logs: map<string, seq<Chirp>>, user: string): seq<Chirp>
  {
    if user in logs then logs[user] else []
  }

  /** The chirp lists the fan-out collects: one per followed user, in the
      order of the follow list, duplicates included. */
  function FetchedLists(logs: map<string, seq<Chirp>>, followed: seq<string>): seq<seq<Chirp>>
  {
    seq(|followed|, i requires 0 <= i < |followed| => ChirpsOf(logs, followed[i]))
  }

  /** `SelectMany`: the lists one after the other, in list order. */
  function Concat(lists: seq<seq<Chirp>>): seq<Chirp>
  {
    if lists == [] then [] else lists[0] + Concat(lists[1..])
  }

  /** The sum of the lengths of the lists. */
  function TotalLength(lists: seq<seq<Chirp>>): nat
  {
    if lists == [] then 0 else |lists[0]| + TotalLength(lists[1..])
  }

  /** Timestamps never decrease along `s`. */
  predicate SortedByTimestamp(s: seq<Chirp>)
  {
    forall i, j :: 0 <= i < j < |s| ==> s[i].timestamp <= s[j].timestamp
  }

  /** Puts `c` into the sorted list `s` before the first chirp whose timestamp
      is not smaller than its own, so `c` precedes the chirps of equal
      timestamp already in `s`. */
  function Insert(c: Chirp, s: seq<Chirp>): seq<Chirp>
  {
    if s == [] || c.timestamp <= s[0].timestamp then [c] + s
    else [s[0]] + Insert(c, s[1..])
  }

  /** `OrderBy(chirp => chirp.Timestamp)`: a stable sort by ascending
      timestamp, here as an insertion sort. */
  function OrderByTimestamp(s: seq<Chirp>): seq<Chirp>
  {
    if s == [] then [] else Insert(s[0], OrderByTimestamp(s[1..]))
  }

  /** The concatenation holds as many chirps as all the fetched lists together. */
  lemma {:induction false} ConcatLength(lists: seq<seq<Chirp>>)
    ensures |Concat(lists)| == TotalLength(lists)
  {
    if lists != [] {
      ConcatLength(lists[1..]);
    }
  }

  /** Inserting adds `c` and nothing else. */
  lemma {:induction false} InsertPermutes(c: Chirp, s: seq<Chirp>)
    ensures multiset(Insert(c, s)) == multiset(s) + multiset{c}
    ensures |Insert(c, s)| == |s| + 1
  {
    if !(s == [] || c.timestamp <= s[0].timestamp) {
      InsertPermutes(c, s[1..]);
      assert s == [s[0]] + s[1..];
    }
  }

  /** Every chirp of `Insert(c, s)` is `c` or a chirp of `s`. */
  lemma InsertMembers(c: Chirp, s: seq<Chirp>)
    ensures forall x :: x in Insert(c, s) ==> x == c || x in s
  {
  }

  /** A sorted list stays sorted under a new first chirp no later than any of its chirps. */
  lemma SortedCons(x: Chirp, r: seq<Chirp>)
    requires SortedByTimestamp(r)
    requires forall y :: y in r ==> x.timestamp <= y.timestamp
    ensures SortedByTimestamp([x] + r)
  {
  }

  /** Inserting into a sorted list keeps it sorted. */
  lemma {:induction false} InsertSorted(c: Chirp, s: seq<Chirp>)
    requires SortedByTimestamp(s)
    ensures SortedByTimestamp(Insert(c, s))
  {
    if s == [] || c.timestamp <= s[0].timestamp {
      forall y | y in s
        ensures c.timestamp <= y.timestamp
      {
        var j :| 0 <= j < |s| && s[j] == y;
        assert s[0].timestamp <= s[j].timestamp;
      }
      SortedCons(c, s);
    } else {
      var tail := s[1..];
      assert SortedByTimestamp(tail) by {
        forall i, j | 0 <= i < j < |tail|
          ensures tail[i].timestamp <= tail[j].timestamp
        {
          assert tail[i] == s[i + 1] && tail[j] == s[j + 1];
        }
      }
      InsertSorted(c, tail);
      InsertMembers(c, tail);
      forall y | y in Insert(c, tail)
        ensures s[0].timestamp <= y.timestamp
      {
        if y != c {
          var j :| 0 <= j < |tail| && tail[j] == y;
          assert s[j + 1] == y;
        }
      }
      SortedCons(s[0], Insert(c, tail));
    }
  }

  /** The sort returns a sorted list. */
  lemma {:induction false} OrderByTimestampSorted(s: seq<Chirp>)
    ensures SortedByTimestamp(OrderByTimestamp(s))
  {
    if s != [] {
      OrderByTimestampSorted(s[1..]);
      InsertSorted(s[0], OrderByTimestamp(s[1..]));
    }
  }

  /** The sort returns a permutation of its input. */
  lemma {:induction false} OrderByTimestampPermutes(s: seq<Chirp>)
    ensures multiset(OrderByTimestamp(s)) == multiset(s)
    ensures |OrderByTimestamp(s)| == |s|
  {
    if s != [] {
      OrderByTimestampPermutes(s[1..]);
      InsertPermutes(s[0], OrderByTimestamp(s[1..]));
      assert s == [s[0]] + s[1..];
    }
  }

  /** Inserting into a sorted list puts `c` in front of the chirps of its own
      timestamp and leaves the order among those unchanged. */
  lemma {:induction false} InsertWithTimestamp(c: Chirp, s: seq<Chirp>, t: Timestamp)
    requires SortedByTimestamp(s)
    ensures WithTimestamp(Insert(c, s), t) == (if c.timestamp == t then [c] else []) + WithTimestamp(s, t)
  {
    if s == [] || c.timestamp <= s[0].timestamp {
      assert Insert(c, s) == [c] + s;
      assert ([c] + s)[1..] == s;
    } else {
      var tail := s[1..];
      assert SortedByTimestamp(tail) by {
        forall i, j | 0 <= i < j < |tail|
          ensures tail[i].timestamp <= tail[j].timestamp
        {
          assert tail[i] == s[i + 1] && tail[j] == s[j + 1];
        }
      }
      var r := Insert(c, tail);
      InsertWithTimestamp(c, tail, t);
      assert Insert(c, s) == [s[0]] + r;
      assert ([s[0]] + r)[1..] == r;
      var head := if s[0].timestamp == t then [s[0]] else [];
      var mine := if c.timestamp == t then [c] else [];
      assert WithTimestamp(Insert(c, s), t) == head + WithTimestamp(r, t);
      assert WithTimestamp(s, t) == head + WithTimestamp(tail, t);
      assert head == [] || mine == [];
      assert head + mine == mine + head;
    }
  }

  /** Stability: the sort keeps the chirps of each timestamp in their input
      order. */
  lemma {:induction false} OrderByTimestampStable(s: seq<Chirp>, t: Timestamp)
    ensures WithTimestamp(OrderByTimestamp(s), t) == WithTimestamp(s, t)
  {
    if s != [] {
      OrderByTimestampStable(s[1..], t);
      OrderByTimestampSorted(s[1..]);
      InsertWithTimestamp(s[0], OrderByTimestamp(s[1..]), t);
    }
  }

  /** The first chirp of a list is among the chirps of its own timestamp. */
  lemma FirstHasGroup(s: seq<Chirp>)
    requires s != []
    ensures WithTimestamp(s, s[0].timestamp) != []
  {
  }

  /** Two sorted lists that hold the same chirps of every timestamp, in the
      same order, are equal: sortedness and stability fix the result. */
  lemma {:induction false} SortedSameGroupsEqual(a: seq<Chirp>, b: seq<Chirp>)
    requires SortedByTimestamp(a) && SortedByTimestamp(b)
    requires forall t :: WithTimestamp(a, t) == WithTimestamp(b, t)
    ensures a == b
    decreases |a|
  {
    if a == [] || b == [] {
      if a != [] {
        FirstHasGroup(a);
        assert false;
      }
      if b != [] {
        FirstHasGroup(b);
        assert false;
      }
    } else {
      var m, n := a[0].timestamp, b[0].timestamp;
      WithTimestampMembers(a, n);
      WithTimestampMembers(b, m);
      assert b[0] in WithTimestamp(a, n);
      assert a[0] in WithTimestamp(b, m);
      assert m == n;
      assert a[0] == WithTimestamp(a, m)[0] == WithTimestamp(b, m)[0] == b[0];
      forall t
        ensures WithTimestamp(a[1..], t) == WithTimestamp(b[1..], t)
      {
        var head := if m == t then [a[0]] else [];
        assert WithTimestamp(a, t) == head + WithTimestamp(a[1..], t);
        assert WithTimestamp(b, t) == head + WithTimestamp(b[1..], t);
        assert WithTimestamp(a[1..], t) == WithTimestamp(a, t)[|head|..];
        assert WithTimestamp(b[1..], t) == WithTimestamp(b, t)[|head|..];
      }
      SortedSameGroupsEqual(a[1..], b[1..]);
      assert a == [a[0]] + a[1..] && b == [b[0]] + b[1..];
    }
  }

  /** `OrderByTimestamp` is the only stable sort: every sorted list that keeps
      the chirps of each timestamp in input order is its result. */
  lemma OrderByTimestampUnique(s: seq<Chirp>, r: seq<Chirp>)
    requires SortedByTimestamp(r)
    requires forall t :: WithTimestamp(r, t) == WithTimestamp(s, t)
    ensures r == OrderByTimestamp(s)
  {
    OrderByTimestampSorted(s);
    forall t
      ensures WithTimestamp(r, t) == WithTimestamp(OrderByTimestamp(s), t)
    {
      OrderByTimestampStable(s, t);
    }
    SortedSameGroupsEqual(r, OrderByTimestamp(s));
  }

  /** The combine step: concatenate the fetched lists in fan-out order and
      sort by timestamp, ties kept in concatenation order. */
  function Combine(lists: seq<seq<Chirp>>): (r: seq<Chirp>)
    ensures SortedByTimestamp(r)
    ensures multiset(r) == multiset(Concat(lists))
    ensures |r| == TotalLength(lists)
    ensures forall t :: WithTimestamp(r, t) == WithTimestamp(Concat(lists), t)
  {
    var all := Concat(lists);
    OrderByTimestampSorted(all);
    OrderByTimestampPermutes(all);
    ConcatLength(lists);
    assert forall t :: WithTimestamp(OrderByTimestamp(all), t) == WithTimestamp(all, t) by {
      forall t
        ensures WithTimestamp(OrderByTimestamp(all), t) == WithTimestamp(all, t)
      {
        OrderByTimestampStable(all, t);
      }
    }
    OrderByTimestamp(all)
  }

  /** For each list, its chirps posted at `t`, in list order. */
  function GroupsAt(lists: seq<seq<Chirp>>, t: Timestamp): seq<seq<Chirp>>
  {
    if lists == [] then [] else [WithTimestamp(lists[0], t)] + GroupsAt(lists[1..], t)
  }

  /** Ties in the timeline: the chirps posted at `t` come first from the first
      followed user, then from the second, and so on, each user's in the
      order of their own log. */
  lemma {:induction false} CombineTiesInFollowOrder(lists: seq<seq<Chirp>>, t: Timestamp)
    ensures WithTimestamp(Combine(lists), t) == Concat(GroupsAt(lists, t))
  {
    ConcatGroupsAt(lists, t);
  }

  /** Selecting one timestamp from a concatenation selects it from each list, in list order. */
  lemma {:induction false} ConcatGroupsAt(lists: seq<seq<Chirp>>, t: Timestamp)
    ensures WithTimestamp(Concat(lists), t) == Concat(GroupsAt(lists, t))
  {
    if lists != [] {
      ConcatGroupsAt(lists[1..], t);
      WithTimestampAppend(lists[0], Concat(lists[1..]), t);
    }
  }

  /** A user following B and C, where B posted at 10:00 and 10:05 and C at
      10:02, gets B's first chirp, then C's, then B's second. The example
      writes those times as minutes after midnight (600, 605, 602); only
      their order matters to the timeline. */
  lemma TwoFolloweesScenario()
    ensures
      var b1, b2, c1 := Chirp("B", 600, "b1"), Chirp("B", 605, "b2"), Chirp("C", 602, "c1");
      var follows := map["A" := ["B", "C"]];
      var logs := map["B" := [b1, b2], "C" := [c1]];
      Combine(FetchedLists(logs, FollowedBy(follows, "A"))) == [b1, c1, b2]
  {
    var b1, b2, c1 := Chirp("B", 600, "b1"), Chirp("B", 605, "b2"), Chirp("C", 602, "c1");
    var follows := map["A" := ["B", "C"]];
    var logs := map["B" := [b1, b2], "C" := [c1]];
    assert FollowedBy(follows, "A") == ["B", "C"];
    var lists := FetchedLists(logs, ["B", "C"]);
    assert lists == [[b1, b2], [c1]];
    assert lists[1..] == [[c1]] && lists[1..][1..] == [];
    assert Concat(lists[1..][1..]) == [];
    assert Concat(lists[1..]) == [c1] + [];
    assert Concat(lists) == [b1, b2] + [c1] == [b1, b2, c1];
    var all := [b1, b2, c1];
    assert all[1..] == [b2, c1] && all[1..][1..] == [c1] && all[1..][1..][1..] == [];
    assert OrderByTimestamp([c1]) == [c1];
    assert [c1][1..] == [];
    assert Insert(b2, [c1]) == [c1, b2];
    assert Insert(b1, [c1, b2]) == [b1, c1, b2];
    assert OrderByTimestamp(all) == [b1, c1, b2];
  }

  /** The orchestration for the timeline of `userId`, over the entity states
      it reads: `follows` for the follow lists, `logs` for the chirp logs.
      It returns the entity calls in the order it issues them and the
      timeline it returns. */
  method RunOrchestrator(userId: string, follows: map<string, seq<string>>, logs: map<string, seq<Chirp>>)
    returns (calls: seq<EntityCall>, timeline: seq<Chirp>)
    ensures |calls| == |FollowedBy(follows, userId)| + 1
    ensures calls[0] == EntityCall(UserFollowsEntityName, userId, GetOperation)
    ensures forall i :: 0 <= i < |FollowedBy(follows, userId)| ==>
              calls[i + 1] == EntityCall(UserChirpsEntityName, FollowedBy(follows, userId)[i], GetOperation)
    ensures timeline == Combine(FetchedLists(logs, FollowedBy(follows, userId)))
    ensures FollowedBy(follows, userId) == [] ==> timeline == []
  {
    calls := [EntityCall(UserFollowsEntityName, userId, GetOperation)];
    var followed := FollowedBy(follows, userId);
    var fetched: seq<seq<Chirp>> := [];
    for k := 0 to |followed|
      invariant |calls| == k + 1 && |fetched| == k
      invariant calls[0] == EntityCall(UserFollowsEntityName, userId, GetOperation)
      invariant forall i :: 0 <= i < k ==> calls[i + 1] == EntityCall(UserChirpsEntityName, followed[i], GetOperation)
      invariant forall i :: 0 <= i < k ==> fetched[i] == ChirpsOf(logs, followed[i])
    {
      calls := calls + [EntityCall(UserChirpsEntityName, followed[k], GetOperation)];
      fetched := fetched + [ChirpsOf(logs, followed[k])];
    }
    assert fetched == FetchedLists(logs, followed);
    timeline := Combine(fetched);
  }
}
