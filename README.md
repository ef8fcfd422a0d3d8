# Chirper: the entities and the timeline combine, in Dafny

Chirper is a micro-blog built on durable entities and a durable
orchestration (`Chirper.cs`). This project models its data handling:

- `ChirpRecords` (`chirp.dfy`): the `Chirp` record (user id, timestamp,
  content) with the timestamp as a tick count, and the two filters on chirp
  lists, "chirps posted at `t`" and "chirps not posted at `t`".
- `UserChirpsEntity` (`user_chirps.dfy`): the `UserChirps` entity, a class
  whose `chirps` field is the user's ordered log. `Add` appends, `Remove(t)`
  deletes every chirp posted at `t` and returns how many it deleted, and
  `Get` returns the log.
- `UserFollowsEntity` (`user_follows.dfy`): the `UserFollows` entity, a
  class whose `followedUsers` field is a list of user ids. `Add` appends
  without de-duplicating. `Remove` deletes the first occurrence only. It
  finds that occurrence with a linear search, as `List.Remove` does, and
  then cuts it out. `Get` returns the list.
- `Timeline` (`timeline.dfy`): the `GetTimeline` orchestration. It issues one
  `Get` to the user's follow list, then one `Get` per followed user in list
  order, duplicates included. It concatenates the fetched logs in that order
  (`SelectMany`) and sorts them by timestamp with a stable sort (`OrderBy`),
  written here as an insertion sort. The entity states it reads are
  parameters: maps from user id to follow list and to chirp log. An entity
  that was never written to holds its initial empty list.

The sort is pinned down completely. Its result is sorted. It keeps the
chirps of each timestamp in input order. `OrderByTimestampUnique` shows that
these two properties determine the result.

The follow list is a list, not a set. A follow set would insert an id only
if absent, and the fan-out would de-duplicate followees. The code uses a
plain `List<string>` instead: `Add` appends duplicates, `Remove` drops one
occurrence, and a user followed twice contributes their chirps to the
timeline twice. The model does the same.

## Model

| member | source | states |
|---|---|---|
| `ChirpRecords.WithoutTimestampAppend` | Chirper.cs:45-47 | removing by timestamp from a concatenation removes from each part and keeps the parts in order |
| `ChirpRecords.WithTimestampAppend` | Chirper.cs:128-130 | selecting one timestamp from a concatenation selects from each part, in order |
| `ChirpRecords.PartitionByTimestamp` | Chirper.cs:47 | the kept chirps and the removed chirps split the list: lengths add up and multisets add up |
| `ChirpRecords.WithoutTimestampMembers` | Chirper.cs:47 | a chirp is kept iff it was in the list and its timestamp differs from `t` |
| `ChirpRecords.WithTimestampMembers` | Chirper.cs:47 | a chirp is removed iff it was in the list and its timestamp equals `t` |
| `ChirpRecords.NothingAtTimestamp` | Chirper.cs:45-48 | nothing is removed iff no chirp carries `t`, and the list is unchanged iff nothing is removed |
| `ChirpRecords.NothingAtTimestampKeepsAll` | Chirper.cs:45-47 | with no chirp at `t`, removal keeps the whole list |
| `ChirpRecords.WithoutTimestampSubsequence` | Chirper.cs:47 | the chirps kept appear in the same relative order as before |
| `UserChirpsEntity.UserChirps.constructor` | Chirper.cs:38 | a new chirp log is empty |
| `UserChirpsEntity.UserChirps.Add` | Chirper.cs:40-43 | the new log is the old log with the chirp appended; length grows by one |
| `UserChirpsEntity.UserChirps.Remove` | Chirper.cs:45-49 | the new log is the old log without the chirps at `t`, in order; the count equals old minus new length and the number of chirps at `t`; count 0 iff unchanged |
| `UserChirpsEntity.UserChirps.Get` | Chirper.cs:51-54 | returns the current log and changes nothing |
| `UserFollowsEntity.FirstIndexOf` | Chirper.cs:77 | returns -1 iff the id is absent, else the index of its first occurrence |
| `UserFollowsEntity.RemoveFirstAt` | Chirper.cs:75-78 | removing an id whose first occurrence is at `i` cuts out exactly position `i` |
| `UserFollowsEntity.RemoveFirstAbsent` | Chirper.cs:75-78 | removing an absent id leaves the list unchanged |
| `UserFollowsEntity.RemoveFirstCount` | Chirper.cs:75-78 | removal takes away exactly one occurrence of the id when present; length drops by one iff present |
| `UserFollowsEntity.RemoveFirstAppend` | Chirper.cs:75-78 | removal from a concatenation acts on the first part that holds the id |
| `UserFollowsEntity.AddThenRemove` | Chirper.cs:70-78 | follow then unfollow restores the list when the id was not followed yet; when it was, the earlier occurrence goes and the new one stays |
| `UserFollowsEntity.RotateFixed` | Chirper.cs:70-78 | a list starting with the id equals itself with its head moved to the end iff every element is the id |
| `UserFollowsEntity.RotatedAt` | Chirper.cs:70-78 | in a list that starts with the id and equals its rotation, every position holds the id |
| `UserFollowsEntity.AddThenRemoveRestores` | Chirper.cs:70-78 | for an id already followed, first at `i`, follow then unfollow restores the list iff every id from position `i` on is that id |
| `UserFollowsEntity.UserFollows.constructor` | Chirper.cs:68 | a new follow list is empty |
| `UserFollowsEntity.UserFollows.Add` | Chirper.cs:70-73 | the id is appended even if present; its occurrence count grows by one |
| `UserFollowsEntity.UserFollows.Remove` | Chirper.cs:75-78 | the first occurrence is deleted and the rest keep their order; unchanged when absent; length drops by one when present |
| `UserFollowsEntity.UserFollows.Get` | Chirper.cs:80-83 | returns the current list and changes nothing |
| `Timeline.ConcatLength` | Chirper.cs:128-129 | the concatenation is as long as all fetched lists together |
| `Timeline.InsertPermutes` | Chirper.cs:130 | one insertion step adds exactly the inserted chirp |
| `Timeline.InsertSorted` | Chirper.cs:130 | insertion into a sorted list keeps it sorted |
| `Timeline.OrderByTimestampSorted` | Chirper.cs:130 | the sorted timeline is in ascending timestamp order |
| `Timeline.OrderByTimestampPermutes` | Chirper.cs:130 | the sort is a permutation of its input |
| `Timeline.InsertWithTimestamp` | Chirper.cs:130 | insertion places a chirp ahead of the chirps of equal timestamp already sorted |
| `Timeline.OrderByTimestampStable` | Chirper.cs:130 | for every timestamp, the chirps carrying it appear in input order (stability) |
| `Timeline.SortedSameGroupsEqual` | Chirper.cs:130 | two sorted lists with the same chirps per timestamp, in the same order, are equal |
| `Timeline.OrderByTimestampUnique` | Chirper.cs:130 | any sorted list that is stable with respect to the input equals the sort's result |
| `Timeline.Combine` | Chirper.cs:128-132 | the timeline is sorted, a permutation of the concatenation, as long as all lists together, and stable with respect to the concatenation |
| `Timeline.ConcatGroupsAt` | Chirper.cs:128-129 | the chirps at one timestamp in the concatenation come list by list, in fan-out order |
| `Timeline.CombineTiesInFollowOrder` | Chirper.cs:128-132 | ties in the timeline come in follow-list order, then in each user's log order |
| `Timeline.TwoFolloweesScenario` | Chirper.cs:104-132 | following B (posts at 600 and 605) and C (post at 602) gives B's first, C's, then B's second chirp |
| `Timeline.RunOrchestrator` | Chirper.cs:98-135 | one follow-list `Get`, then one chirp-log `Get` per followed user in list order, duplicates included; the result is the combine of those lists, empty for an empty follow list |

## Left out

- HTTP trigger functions (Chirper.cs:145-307): request parsing, status codes and JSON output over a durable client library that is not part of this model. Two discrepancies there are not modelled. `UserFollowsDelete` signals the `UserChirps` entity of the caller's own id with the caller's own id as argument, instead of the `UserFollows` entity with the followee (Chirper.cs:289-291). `UserTimelineGet` starts `"GetTimeLine"`, while the orchestration is registered as `"GetTimeline"` (Chirper.cs:304 and 97). The names differ only in case, so whether the start fails depends on how the host looks up orchestration names.
- Durable runtime behaviour: entity mailboxes, one-operation-at-a-time execution, history replay, `CallEntityAsync` and the `Task.WhenAll` join (Chirper.cs:101-125). This is concurrency in a foreign library. The model treats fetching as reading entity states passed in as maps. The order in which the parallel calls complete is therefore not modelled. The combine reads results by position in the task list, not by completion order.
- `DateTime.UtcNow` (Chirper.cs:200) is wall-clock input. Timestamps are integer ticks, and calendar conversion is not modelled.
- `Console.WriteLine` and the loggers (Chirper.cs:48, 101-102, 140-141, 157) produce output only. The count that `Remove` logs is returned as `removed` instead.
- `SayHello` (Chirper.cs:137-143) is an unused activity that only formats a greeting.
- `HandleEntityOperation` (Chirper.cs:57-61, 86-90) is reflection-based dispatch into the runtime.
- `UserChirpsEntity.UserChirps.Get` and `UserFollowsEntity.UserFollows.Get` return the list as a value. The source returns the live `List` object, so aliasing of the returned list is not modelled.
- The in-place compaction that `List.RemoveAll` performs on its backing array is modelled on a sequence. The model keeps the order and the count, not the array layout.
