/**
 * The per-channel music queues of the two Kotlin trees
 * (`music/MusicQueue.kt` in `src/rewrite` and in `src/main`), with the audio
 * player and the voice connection abstracted away: the queue of tracks, the
 * current track, the skip votes and the dead flag.
 *
 * A `MemberTrack` is a `Track` whose `id` stands for the object's identity
 * (the queues compare tracks with `equals`, which `MemberTrack` inherits) and
 * whose `userId` is the member who asked for it. The channel's members are
 * passed in where a getter reads them; `Math.random()` in `shuffle` is an
 * arbitrary function `random` whose value is reduced into range.
 */
module Music {
  import opened Util
  import Client
  import Misc

  type Member = Client.Member

  datatype Track = Track(id: nat, userId: nat)

  const CONCURRENT_MODIFICATION: string := "ConcurrentModificationException"
  const STACK_OVERFLOW: string := "StackOverflowError"

  // ------------------------------------------------------------ listeners and votes

  /** `members.count { !it.user.isBot }`. */
  function ListeningCount(members: seq<Member>): nat
  {
    |members| - Client.BotCount(members)
  }

  /** The ids of the channel's members that are not bots. */
  function NonBotIds(members: seq<Member>): set<nat>
  {
    set m | m in members && !m.isBot :: m.id
  }

  /** The ids of all the channel's members, bots included. */
  function AllIds(members: seq<Member>): set<nat>
  {
    set m | m in members :: m.id
  }

  function Succ(n: nat): nat { n + 1 }

  /** The rewrite's `totalToSkip`: half the listeners, plus one with `modifyIf` when odd. */
  function TotalToSkip(listening: nat): nat
  {
    Misc.ModifyIf<nat>(listening / 2, listening % 2 != 0, Succ)
  }

  /** The main tree's `totalToSkip`. */
  function TotalToSkipMain(listening: nat): nat
  {
    if listening % 2 == 0 then listening / 2 else listening / 2 + 1
  }

  /** Both are the ceiling of half the listeners. */
  lemma TotalToSkipIsHalfRoundedUp(listening: nat)
    ensures var r := TotalToSkip(listening);
      listening <= 2 * r <= listening + 1 && TotalToSkipMain(listening) == r
  {
  }

  // ------------------------------------------------------------ queue positions

  /** `indexOf(x)`: the first position holding `x`. */
  function IndexOfElem<T(==)>(s: seq<T>, x: T): (r: nat)
    requires x in s
    ensures r < |s| && s[r] == x
    ensures forall j :: 0 <= j < r ==> s[j] != x
  {
    if s[0] == x then 0 else 1 + IndexOfElem(s[1..], x)
  }

  /** `queue(track)`'s answer on the queue `s` it appends to. */
  function QueuePosition(s: seq<Track>, track: Track): (r: nat)
    ensures 1 <= r <= |s| + 1
    ensures (s + [track])[r - 1] == track
  {
    IndexOfElem(s + [track], track) + 1
  }

  /** The answer is the new last position exactly when the track was not queued already. */
  lemma QueuePositionIsLast(s: seq<Track>, track: Track)
    ensures QueuePosition(s, track) == |s| + 1 <==> track !in s
  {
    var t := s + [track];
    if track in s {
      var k :| 0 <= k < |s| && s[k] == track;
      assert t[k] == track;
    } else {
      forall j | 0 <= j < |s|
        ensures t[j] != track
      {
        assert t[j] == s[j];
      }
    }
  }

  // ------------------------------------------------------------ shuffle

  /** How many tracks of `s` belong to `userId`. */
  function UserCount(s: seq<Track>, userId: nat): (r: nat)
    ensures r <= |s|
  {
    if s == [] then 0
    else UserCount(s[..|s| - 1], userId) + (if s[|s| - 1].userId == userId then 1 else 0)
  }

  /**
   * `shuffle(userId)` on the track list `s`: collects the positions holding
   * the user's tracks, then swaps each with one of them chosen by `random`.
   * The tracks are permuted, every other user's position is untouched, and
   * the answer is how many positions took part.
   */
  method ShuffleTracks(s: seq<Track>, userId: nat, random: nat -> nat)
      returns (t: seq<Track>, count: nat)
    ensures |t| == |s| && multiset(t) == multiset(s)
    ensures forall i :: 0 <= i < |s| && s[i].userId != userId ==> t[i] == s[i]
    ensures forall i :: 0 <= i < |s| ==> (t[i].userId == userId <==> s[i].userId == userId)
    ensures count == UserCount(s, userId)
  {
    var indexList := UserPositions(s, userId);
    t := s;
    for i := 0 to |indexList|
      invariant ShuffledSoFar(s, t, userId)
    {
      var first := indexList[i];
      var second := indexList[random(i) % |indexList|];
      var temp := t[first];
      SwapStep(s, t, userId, first, second);
      t := t[first := t[second]][second := temp];
    }
    count := |indexList|;
  }

  /** The first loop of `shuffle`: the positions holding the user's tracks. */
  method UserPositions(s: seq<Track>, userId: nat) returns (indexList: seq<nat>)
    ensures forall k :: 0 <= k < |indexList| ==> indexList[k] < |s| && s[indexList[k]].userId == userId
    ensures |indexList| == UserCount(s, userId)
  {
    indexList := [];
    for i := 0 to |s|
      invariant Collected(s, userId, indexList, i)
    {
      CollectStep(s, userId, indexList, i);
      if s[i].userId == userId {
        var here: nat := i;
        indexList := indexList + [here];
      }
    }
    assert s[..|s|] == s;
  }

  /** After `i` steps of the first loop: the positions of the user's tracks among the first `i`. */
  predicate Collected(s: seq<Track>, userId: nat, indexList: seq<nat>, i: nat)
    requires i <= |s|
  {
    (forall k :: 0 <= k < |indexList| ==> indexList[k] < i && s[indexList[k]].userId == userId)
    && |indexList| == UserCount(s[..i], userId)
  }

  lemma CollectStep(s: seq<Track>, userId: nat, indexList: seq<nat>, i: nat)
    requires i < |s| && Collected(s, userId, indexList, i)
    ensures Collected(s, userId, if s[i].userId == userId then indexList + [i] else indexList, i + 1)
  {
    assert s[..i + 1][..i] == s[..i];
  }

  /** `t` is `s` with the user's tracks permuted among the user's positions. */
  predicate ShuffledSoFar(s: seq<Track>, t: seq<Track>, userId: nat)
  {
    |t| == |s| && multiset(t) == multiset(s)
    && (forall j :: 0 <= j < |s| && s[j].userId != userId ==> t[j] == s[j])
    && (forall j :: 0 <= j < |s| ==> (t[j].userId == userId <==> s[j].userId == userId))
  }

  /** Swapping two of the user's positions keeps the shuffle invariant. */
  lemma SwapStep(s: seq<Track>, t: seq<Track>, userId: nat, first: nat, second: nat)
    requires ShuffledSoFar(s, t, userId) && first < |s| && second < |s|
    requires s[first].userId == userId && s[second].userId == userId
    ensures ShuffledSoFar(s, t[first := t[second]][second := t[first]], userId)
  {
    SwapKeepsMultiset(t, first, second);
  }

  lemma SwapKeepsMultiset<T>(s: seq<T>, i: nat, j: nat)
    requires i < |s| && j < |s|
    ensures multiset(s[i := s[j]][j := s[i]]) == multiset(s)
  {
    if i != j {
      var a := s[i := s[j]];
      assert multiset(a) == multiset(s) - multiset{s[i]} + multiset{s[j]};
    }
  }

  // ------------------------------------------------------------ the rewrite's poll / remove

  /** Where a chain of `poll` / `remove` calls ends. */
  datatype PollOutcome = Polled(track: Track) | Closed | NoElement | Diverges

  /**
   * The rewrite's `poll()` as written, allowed `depth` nested calls: on a
   * non-empty queue it calls `remove()` before dequeuing anything.
   */
  function PollAsWritten(queued: seq<Track>, depth: nat): PollOutcome
    decreases depth, 0
  {
    if queued == [] then Closed
    else if depth == 0 then Diverges
    else RemoveAsWritten(queued, depth - 1)
  }

  /** The rewrite's `remove()`: `poll() ?: throw NoSuchElementException`. */
  function RemoveAsWritten(queued: seq<Track>, depth: nat): PollOutcome
    decreases depth, 1
  {
    match PollAsWritten(queued, depth)
    case Closed => NoElement
    case other => other
  }

  /** On a non-empty queue no depth of nested calls ever returns: the recursion is unbounded. */
  lemma {:induction false} PollNeverReturns(queued: seq<Track>, depth: nat)
    requires queued != []
    ensures PollAsWritten(queued, depth) == Diverges
  {
    if depth > 0 {
      PollNeverReturns(queued, depth - 1);
    }
  }

  /** On an empty queue `poll` closes it at once. */
  lemma PollOfEmptyCloses(depth: nat)
    ensures PollAsWritten([], depth) == Closed
  {
  }

  // ------------------------------------------------------------ the rewrite's queue

  /** `src/rewrite`'s `MusicQueue`: a linked list of tracks and a set of skip votes. */
  class RewriteMusicQueue {
    var isDead: bool
    var currentTrack: Track
    var queued: seq<Track>
    /** The user ids that voted to skip. */
    var skipping: set<nat>

    constructor (initTrack: Track)
      ensures currentTrack == initTrack && queued == [] && skipping == {} && !isDead
    {
      isDead := false;
      currentTrack := initTrack;
      queued := [];
      skipping := {};
    }

    predicate IsSkipping(userId: nat)
      reads this
    {
      userId in skipping
    }

    /** `skips`: votes from users no longer listening are dropped, then counted. */
    method Skips(members: seq<Member>) returns (r: nat)
      modifies this`skipping
      ensures forall id :: id in skipping <==> id in old(skipping) && id in NonBotIds(members)
      ensures r == |skipping|
    {
      skipping := set id | id in skipping && id in NonBotIds(members);
      r := |skipping|;
    }

    /** `voteToSkip(member)`: the vote is added, then `skips` is answered. */
    method VoteToSkip(userId: nat, members: seq<Member>) returns (r: nat)
      modifies this`skipping
      ensures forall id :: id in skipping <==>
                (id == userId || id in old(skipping)) && id in NonBotIds(members)
      ensures r == |skipping|
    {
      skipping := skipping + {userId};
      r := Skips(members);
    }

    /** `queue(track)`: appended, answered with its 1-based position. */
    method Queue(track: Track) returns (r: nat)
      modifies this`queued
      ensures queued == old(queued) + [track]
      ensures r == QueuePosition(old(queued), track)
    {
      queued := queued + [track];
      r := IndexOfElem(queued, track) + 1;
    }

    /**
     * `poll()` as evidently intended: the head becomes the current track and
     * the votes are cleared; an empty queue is closed.
     */
    method Poll() returns (r: Option<Track>)
      modifies this`currentTrack, this`queued, this`skipping, this`isDead
      ensures old(queued) != [] ==>
                r == Some(old(queued)[0]) && currentTrack == old(queued)[0]
                && queued == old(queued)[1..] && skipping == {} && isDead == old(isDead)
      ensures old(queued) == [] ==>
                r == None && isDead && queued == [] && currentTrack == old(currentTrack)
                && skipping == old(skipping)
    {
      if queued != [] {
        currentTrack := queued[0];
        queued := queued[1..];
        skipping := {};
        r := Some(currentTrack);
      } else {
        Close();
        r := None;
      }
    }

    /**
     * `skip()` as written: on a non-empty queue `poll()` recurses through
     * `remove()` until the stack of `depth` frames overflows, so the call
     * fails and nothing moves on; on an empty queue `poll()` closes the
     * queue and the track that was playing is answered.
     */
    method SkipAsWritten(depth: nat) returns (r: Result<Track>)
      modifies this`isDead
      ensures old(queued) != [] ==> r == Err(STACK_OVERFLOW) && isDead == old(isDead)
      ensures old(queued) == [] ==> r == Ok(currentTrack) && isDead
    {
      var skipped := currentTrack;
      if queued != [] {
        PollNeverReturns(queued, depth);
      }
      match PollAsWritten(queued, depth)
      case Closed =>
        Close();
        r := Ok(skipped);
      case _ =>
        r := Err(STACK_OVERFLOW);
    }

    /** `skip()` as evidently intended: answers the track that was playing and moves on with the corrected `poll`. */
    method Skip() returns (skipped: Track)
      modifies this`currentTrack, this`queued, this`skipping, this`isDead
      ensures skipped == old(currentTrack)
      ensures old(queued) != [] ==>
                currentTrack == old(queued)[0] && queued == old(queued)[1..] && skipping == {}
      ensures old(queued) == [] ==> isDead && queued == []
    {
      skipped := currentTrack;
      var _ := Poll();
    }

    /** `shuffle(userId)`. */
    method Shuffle(userId: nat, random: nat -> nat) returns (count: nat)
      modifies this`queued
      ensures |queued| == |old(queued)| && multiset(queued) == multiset(old(queued))
      ensures forall i :: 0 <= i < |queued| && old(queued)[i].userId != userId ==>
                queued[i] == old(queued)[i]
      ensures count == UserCount(old(queued), userId)
    {
      queued, count := ShuffleTracks(queued, userId, random);
    }

    /** `clear()`: no tracks, no votes, and the queue is closed. */
    method Clear()
      modifies this`queued, this`skipping, this`isDead
      ensures queued == [] && skipping == {} && isDead
    {
      queued := [];
      skipping := {};
      Close();
    }

    /** `close()`: the player and connection go away; the queue is dead. */
    method Close()
      modifies this`isDead
      ensures isDead
    {
      isDead := true;
    }
  }

  // ------------------------------------------------------------ the main tree's skips

  /** The first vote whose user is not in `ids`, or `|s|`. */
  function FirstStale(s: seq<nat>, ids: set<nat>): (r: nat)
    ensures r <= |s|
    ensures forall j :: 0 <= j < r ==> s[j] in ids
    ensures r < |s| ==> s[r] !in ids
  {
    if s == [] then 0 else if s[0] !in ids then 0 else 1 + FirstStale(s[1..], ids)
  }

  /**
   * The vote list after the main tree's `skips` as written: iterating with
   * the list's own iterator, the first stale vote is removed, after which the
   * iterator either finds itself at the end or fails on its next step.
   */
  function AfterSkipsMain(s: seq<nat>, ids: set<nat>): seq<nat>
  {
    var i := FirstStale(s, ids);
    if i == |s| then s else s[..i] + s[i + 1..]
  }

  /** The main tree's `skips` answer as written: a count, or the iterator's failure. */
  function SkipsMainResult(s: seq<nat>, ids: set<nat>): Result<nat>
  {
    var i := FirstStale(s, ids);
    if i == |s| then Ok(|s|)
    else if i + 2 == |s| then Ok(|s| - 1)
    else Err(CONCURRENT_MODIFICATION)
  }

  /** A stale vote anywhere but second from last makes the main tree's `skips` fail. */
  lemma SkipsMainFails(s: seq<nat>, ids: set<nat>)
    ensures SkipsMainResult(s, ids).Err? <==>
              exists i :: 0 <= i < |s| && s[i] !in ids && i + 2 != |s| && i == FirstStale(s, ids)
  {
  }

  /** Votes `[1, 2, 3]` after user 1 left: the main tree's `skips` throws. */
  lemma StaleFirstVoteThrows()
    ensures SkipsMainResult([1, 2, 3], {2, 3}) == Err(CONCURRENT_MODIFICATION)
  {
    assert FirstStale([1, 2, 3], {2, 3}) == 0;
  }

  /**
   * Votes `[1, 2, 3]` after user 1 left, then a vote by 2: `voteToSkip` as
   * written throws, where the corrected one answers 3.
   */
  lemma VoteAfterStaleVoteThrows()
    ensures SkipsMainResult([1, 2, 3] + [2], {2, 3}) == Err(CONCURRENT_MODIFICATION)
    ensures |KeepVotes([1, 2, 3] + [2], {2, 3})| == 3
  {
    assert [1, 2, 3] + [2] == [1, 2, 3, 2];
    assert FirstStale([1, 2, 3, 2], {2, 3}) == 0;
    assert KeepVotes([2], {2, 3}) == [2];
    assert KeepVotes([3, 2], {2, 3}) == [3, 2];
    assert KeepVotes([2, 3, 2], {2, 3}) == [2, 3, 2];
  }

  /** Votes `[1, 2]` after both users left: the last stale vote is never looked at. */
  lemma SecondStaleVoteKept()
    ensures AfterSkipsMain([1, 2], {}) == [2] && SkipsMainResult([1, 2], {}) == Ok(1)
  {
    assert FirstStale([1, 2], {}) == 0;
  }

  /** `removeIf { it !in ids }`: the votes of users still present, in order. */
  function KeepVotes(s: seq<nat>, ids: set<nat>): (r: seq<nat>)
    ensures |r| <= |s|
    ensures forall x :: x in r <==> x in s && x in ids
  {
    if s == [] then []
    else (if s[0] in ids then [s[0]] else []) + KeepVotes(s[1..], ids)
  }

  /** Filtering twice is filtering once. */
  lemma {:induction false} KeepVotesIdempotent(s: seq<nat>, ids: set<nat>)
    ensures KeepVotes(KeepVotes(s, ids), ids) == KeepVotes(s, ids)
  {
    if s != [] {
      KeepVotesIdempotent(s[1..], ids);
      var rest := KeepVotes(s[1..], ids);
      if s[0] in ids {
        var kept := [s[0]] + rest;
        assert kept[0] == s[0] && kept[1..] == rest;
      } else {
        assert [] + rest == rest;
      }
    }
  }

  /** Without stale votes the code as written and the corrected filter agree. */
  lemma {:induction false} KeepVotesWhenNoneStale(s: seq<nat>, ids: set<nat>)
    requires FirstStale(s, ids) == |s|
    ensures KeepVotes(s, ids) == AfterSkipsMain(s, ids) == s
    ensures SkipsMainResult(s, ids) == Ok(|KeepVotes(s, ids)|)
  {
    if s != [] {
      assert s[0] in ids;
      KeepVotesWhenNoneStale(s[1..], ids);
      assert [s[0]] + s[1..] == s;
    }
  }

  // ------------------------------------------------------------ the main tree's queue

  /** `src/main`'s `MusicQueue`, a `MutableList` of tracks with a list of skip votes. */
  class MainMusicQueue {
    var isDead: bool
    var currentTrack: Track
    var queued: seq<Track>
    /** The user ids that voted to skip, in voting order; a user may appear twice. */
    var skipping: seq<nat>

    constructor (firstTrack: Track)
      ensures currentTrack == firstTrack && queued == [] && skipping == [] && !isDead
    {
      isDead := false;
      currentTrack := firstTrack;
      queued := [];
      skipping := [];
    }

    predicate IsSkipping(userId: nat)
      reads this
    {
      userId in skipping
    }

    /**
     * `skips` as written: `forEach` over the vote list removes stale votes
     * from that same list, so the list's iterator sees its own modification.
     * Membership is over every channel member, bots included.
     */
    method SkipsAsWritten(members: seq<Member>) returns (r: Result<nat>)
      modifies this`skipping
      ensures skipping == AfterSkipsMain(old(skipping), AllIds(members))
      ensures r == SkipsMainResult(old(skipping), AllIds(members))
    {
      ghost var s0 := skipping;
      ghost var i0 := FirstStale(s0, AllIds(members));
      var ids := AllIds(members);
      var cursor := 0;
      var modified := false;
      var failed := false;
      while cursor != |skipping| && !failed
        invariant !modified ==> skipping == s0 && cursor <= i0 && !failed
        invariant modified ==> i0 < |s0| && skipping == s0[..i0] + s0[i0 + 1..] && cursor == i0 + 1
        invariant failed ==> modified && cursor != |skipping|
        decreases !failed, !modified, if modified then 0 else |skipping| - cursor
      {
        if modified {
          failed := true;
        } else {
          var e := skipping[cursor];
          cursor := cursor + 1;
          if e !in ids {
            assert cursor - 1 == i0;
            skipping := skipping[..cursor - 1] + skipping[cursor..];
            modified := true;
          }
        }
      }
      r := if failed then Err(CONCURRENT_MODIFICATION) else Ok(|skipping|);
    }

    /** `skips` as evidently intended: the stale votes are filtered out, then counted. */
    method Skips(members: seq<Member>) returns (r: nat)
      modifies this`skipping
      ensures skipping == KeepVotes(old(skipping), AllIds(members))
      ensures r == |skipping|
    {
      skipping := KeepVotes(skipping, AllIds(members));
      r := |skipping|;
    }

    /** `voteToSkip(member)` as written: the vote is appended, even a second time, then `skips` as written is answered. */
    method VoteToSkipAsWritten(userId: nat, members: seq<Member>) returns (r: Result<nat>)
      modifies this`skipping
      ensures skipping == AfterSkipsMain(old(skipping) + [userId], AllIds(members))
      ensures r == SkipsMainResult(old(skipping) + [userId], AllIds(members))
    {
      skipping := skipping + [userId];
      r := SkipsAsWritten(members);
    }

    /** `voteToSkip(member)` as evidently intended: the vote is appended, even a second time, then the corrected `skips` is answered. */
    method VoteToSkip(userId: nat, members: seq<Member>) returns (r: nat)
      modifies this`skipping
      ensures skipping == KeepVotes(old(skipping) + [userId], AllIds(members))
      ensures r == |skipping|
    {
      skipping := skipping + [userId];
      r := Skips(members);
    }

    /** `queue(track)`: appended, answered with its 1-based position. */
    method Queue(track: Track) returns (r: nat)
      modifies this`queued
      ensures queued == old(queued) + [track]
      ensures r == QueuePosition(old(queued), track)
    {
      queued := queued + [track];
      r := IndexOfElem(queued, track) + 1;
    }

    /** `next()`: the head becomes current and the votes are cleared; an empty queue is disposed. */
    method Next()
      modifies this`currentTrack, this`queued, this`skipping, this`isDead
      ensures old(queued) != [] ==>
                currentTrack == old(queued)[0] && queued == old(queued)[1..] && skipping == []
                && isDead == old(isDead)
      ensures old(queued) == [] ==>
                isDead && queued == [] && currentTrack == old(currentTrack)
                && skipping == old(skipping)
    {
      if queued != [] {
        currentTrack := queued[0];
        queued := queued[1..];
        skipping := [];
      } else {
        Dispose();
      }
    }

    /** `skip()`: answers the track that was playing and moves on with `next`. */
    method Skip() returns (skipped: Track)
      modifies this`currentTrack, this`queued, this`skipping, this`isDead
      ensures skipped == old(currentTrack)
      ensures old(queued) != [] ==>
                currentTrack == old(queued)[0] && queued == old(queued)[1..] && skipping == []
      ensures old(queued) == [] ==> isDead && queued == []
    {
      skipped := currentTrack;
      Next();
    }

    /** `shuffle(userId)`. */
    method Shuffle(userId: nat, random: nat -> nat) returns (count: nat)
      modifies this`queued
      ensures |queued| == |old(queued)| && multiset(queued) == multiset(old(queued))
      ensures forall i :: 0 <= i < |queued| && old(queued)[i].userId != userId ==>
                queued[i] == old(queued)[i]
      ensures count == UserCount(old(queued), userId)
    {
      queued, count := ShuffleTracks(queued, userId, random);
    }

    /** `dispose()`: the player and connection go away; the queue is dead. */
    method Dispose()
      modifies this`isDead
      ensures isDead
    {
      isDead := true;
    }
  }

  /** In the main tree a repeated vote counts twice. */
  lemma RepeatedVoteCountsTwice(userId: nat, ids: set<nat>)
    requires userId in ids
    ensures |KeepVotes([userId, userId], ids)| == 2
  {
    assert KeepVotes([userId, userId][1..], ids) == [userId];
  }
}
