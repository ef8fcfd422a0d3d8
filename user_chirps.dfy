/** The per-user chirp log entity: an ordered, append-only list of the chirps
    one user has posted, from which chirps are deleted by timestamp. */
module UserChirpsEntity {
  import opened ChirpRecords

  class UserChirps {
    /** The user's chirps in the order they were added. */
    var chirps: seq<Chirp>

    /** The state of a chirp log that has never been written to. */
    constructor ()
      ensures chirps == []
    {
      chirps := [];
    }

    /** Appends `chirp` after every chirp already in the log. */
    method Add(chirp: Chirp)
      modifies this
      ensures chirps == old(chirps) + [chirp]
      ensures |chirps| == |old(chirps)| + 1
    {
      chirps := chirps + [chirp];
    }

    /** Deletes every chirp posted at `timestamp`, keeping the others in their
        order, and returns how many were deleted (the count the source logs). */
    method Remove(timestamp: Timestamp) returns (removed: nat)
      modifies this
      ensures chirps == WithoutTimestamp(old(chirps), timestamp)
      ensures removed == |old(chirps)| - |chirps|
      ensures removed == |WithTimestamp(old(chirps), timestamp)|
      ensures forall c :: c in chirps <==> c in old(chirps) && c.timestamp != timestamp
      ensures IsSubsequence(chirps, old(chirps))
      ensures removed == 0 <==> chirps == old(chirps)
    {
      var s := chirps;
      var kept: seq<Chirp> := [];
      removed := 0;
      var k := 0;
      while k < |s|
        invariant 0 <= k <= |s|
        invariant kept == WithoutTimestamp(s[..k], timestamp)
        invariant removed == |WithTimestamp(s[..k], timestamp)|
      {
        assert s[..k + 1] == s[..k] + [s[k]];
        WithoutTimestampAppend(s[..k], [s[k]], timestamp);
        WithTimestampAppend(s[..k], [s[k]], timestamp);
        if s[k].timestamp == timestamp {
          removed := removed + 1;
        } else {
          kept := kept + [s[k]];
        }
        k := k + 1;
      }
      assert s[..k] == s;
      PartitionByTimestamp(s, timestamp);
      WithoutTimestampMembers(s, timestamp);
      WithoutTimestampSubsequence(s, timestamp);
      NothingAtTimestamp(s, timestamp);
      chirps := kept;
    }

    /** Returns the current log; the entity's state is left as it is. */
    method Get() returns (r: seq<Chirp>)
      ensures r == chirps
    {
      r := chirps;
    }
  }
}
