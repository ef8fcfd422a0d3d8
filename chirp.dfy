/** The chirp record of the micro-blog and the two timestamp filters on chirp
    lists that the chirp-log entity and the timeline both rely on. */
module ChirpRecords {

  /** A `DateTime` as its tick count: two `DateTime` values compare and are
      equal exactly when their tick counts do. */
  type Timestamp = int

  /** One posted message: who posted it, when, and its text. */
  datatype Chirp = Chirp(userId: string, timestamp: Timestamp, content: string)

  /** The chirps of `s` posted at `t`, in their order in `s`. */
  function WithTimestamp(s: seq<Chirp>, t: Timestamp): seq<Chirp>
  {
    if s == [] then []
    else (if s[0].timestamp == t then [s[0]] else []) + WithTimestamp(s[1..], t)
  }

  /** The chirps of `s` not posted at `t`, in their order in `s`: what
      `RemoveAll(chirp => chirp.Timestamp == t)` leaves behind. */
  function WithoutTimestamp(s: seq<Chirp>, t: Timestamp): seq<Chirp>
  {
    if s == [] then []
    else (if s[0].timestamp != t then [s[0]] else []) + WithoutTimestamp(s[1..], t)
  }

  /** `a` can be obtained from `b` by deleting elements: the elements of `a`
      occur in `b` in the same relative order. */
  predicate IsSubsequence<T(==)>(a: seq<T>, b: seq<T>)
    decreases |b|
  {
    if a == [] then true
    else if b == [] then false
    else (a[0] == b[0] && IsSubsequence(a[1..], b[1..])) || IsSubsequence(a, b[1..])
  }

  /** Filtering a concatenation filters each part and keeps the parts in order. */
  lemma {:induction false} WithTimestampAppend(a: seq<Chirp>, b: seq<Chirp>, t: Timestamp)
    ensures WithTimestamp(a + b, t) == WithTimestamp(a, t) + WithTimestamp(b, t)
  {
    if a != [] {
      assert (a + b)[1..] == a[1..] + b;
      WithTimestampAppend(a[1..], b, t);
    } else {
      assert a + b == b;
    }
  }

  /** Removing by timestamp from a concatenation removes from each part and
      keeps the parts in order. */
  lemma {:induction false} WithoutTimestampAppend(a: seq<Chirp>, b: seq<Chirp>, t: Timestamp)
    ensures WithoutTimestamp(a + b, t) == WithoutTimestamp(a, t) + WithoutTimestamp(b, t)
  {
    if a != [] {
      assert (a + b)[1..] == a[1..] + b;
      WithoutTimestampAppend(a[1..], b, t);
    } else {
      assert a + b == b;
    }
  }

  /** Every chirp is either kept or removed: the two filters split `s`, so the
      number removed is the old length minus the new length. */
  lemma {:induction false} PartitionByTimestamp(s: seq<Chirp>, t: Timestamp)
    ensures |WithoutTimestamp(s, t)| + |WithTimestamp(s, t)| == |s|
    ensures multiset(WithoutTimestamp(s, t)) + multiset(WithTimestamp(s, t)) == multiset(s)
  {
    if s != [] {
      PartitionByTimestamp(s[1..], t);
      assert s == [s[0]] + s[1..];
    }
  }

  /** The chirps kept are exactly the chirps of `s` not posted at `t`. */
  lemma {:induction false} WithoutTimestampMembers(s: seq<Chirp>, t: Timestamp)
    ensures forall c :: c in WithoutTimestamp(s, t) <==> c in s && c.timestamp != t
  {
    if s != [] {
      WithoutTimestampMembers(s[1..], t);
      assert s == [s[0]] + s[1..];
    }
  }

  /** The chirps selected are exactly the chirps of `s` posted at `t`. */
  lemma {:induction false} WithTimestampMembers(s: seq<Chirp>, t: Timestamp)
    ensures forall c :: c in WithTimestamp(s, t) <==> c in s && c.timestamp == t
  {
    if s != [] {
      WithTimestampMembers(s[1..], t);
      assert s == [s[0]] + s[1..];
    }
  }

  /** Removing a timestamp that no chirp carries changes nothing, and only
      then: the list is unchanged exactly when nothing is removed. */
  lemma {:induction false} NothingAtTimestamp(s: seq<Chirp>, t: Timestamp)
    ensures WithTimestamp(s, t) == [] <==> forall i :: 0 <= i < |s| ==> s[i].timestamp != t
    ensures WithoutTimestamp(s, t) == s <==> WithTimestamp(s, t) == []
  {
    WithTimestampMembers(s, t);
    PartitionByTimestamp(s, t);
    if WithTimestamp(s, t) == [] {
      NothingAtTimestampKeepsAll(s, t);
    }
    if WithTimestamp(s, t) != [] {
      var c := WithTimestamp(s, t)[0];
      assert c in WithTimestamp(s, t);
      var i :| 0 <= i < |s| && s[i] == c;
      assert s[i].timestamp == t;
    }
  }

  /** Helper: with nothing posted at `t`, removing `t` keeps every chirp. */
  lemma {:induction false} NothingAtTimestampKeepsAll(s: seq<Chirp>, t: Timestamp)
    requires WithTimestamp(s, t) == []
    ensures WithoutTimestamp(s, t) == s
  {
    if s != [] {
      NothingAtTimestampKeepsAll(s[1..], t);
    }
  }

  /** Removing by timestamp keeps the surviving chirps in their relative order. */
  lemma {:induction false} WithoutTimestampSubsequence(s: seq<Chirp>, t: Timestamp)
    ensures IsSubsequence(WithoutTimestamp(s, t), s)
  {
    if s != [] {
      WithoutTimestampSubsequence(s[1..], t);
      var r := WithoutTimestamp(s, t);
      if s[0].timestamp != t {
        assert r[0] == s[0] && r[1..] == WithoutTimestamp(s[1..], t);
      } else {
        assert r == WithoutTimestamp(s[1..], t);
      }
    }
  }
}
