/** What a master stores that only follows: nothing. The vector of positions is filled by the order
    votes of the master itself, and by nothing else. */
module Followers {
  import opened Wrappers
  import opened Bytes
  import opened Ledger
  import opened Voting
  import opened MasterNode
  import MasterRuns

  ghost predicate HasEntry(positions: seq<Position>, height: nat, hash: bytes) {
    exists p :: p in positions && p.height == height && p.hash == hash
  }

  /** The `i`th change opens this position, and no later one closes it. */
  ghost predicate Standing(events: seq<BallotEvent>, i: int, height: nat, hash: bytes) {
    && 0 <= i < |events| && events[i].OpenPosition? && events[i].height == height && events[i].hash == hash
    && forall j | i < j < |events| :: !Closes(events[j], height, hash)
  }

  predicate Closes(e: BallotEvent, height: nat, hash: bytes) {
    e == ClosePositionsAt(height) || e == ClosePositionsOf(hash)
  }

  lemma EntryAfter(b: Ballots, e: BallotEvent, height: nat, hash: bytes)
    ensures HasEntry(Happen(b, e).positions, height, hash) <==>
              || (e.OpenPosition? && e.height == height && e.hash == hash)
              || (HasEntry(b.positions, height, hash) && !Closes(e, height, hash))
  {
    hide Retain;
    var ps, ps' := b.positions, Happen(b, e).positions;
    if HasEntry(ps', height, hash) {
      var p :| p in ps' && p.height == height && p.hash == hash;
      if e.SerialVote? {
        var i :| 0 <= i < |ps'| && ps'[i] == p;
        assert ps[i] in ps && ps[i].height == height && ps[i].hash == hash;
      } else {
        assert p in ps || e.OpenPosition?;
      }
    }
    if e.OpenPosition? && e.height == height && e.hash == hash {
      assert ps'[|ps|] in ps';
    } else if HasEntry(ps, height, hash) && !Closes(e, height, hash) {
      var p :| p in ps && p.height == height && p.hash == hash;
      var i :| 0 <= i < |ps| && ps[i] == p;
      if e.SerialVote? {
        assert ps'[i] in ps' && ps'[i].height == height && ps'[i].hash == hash;
      } else {
        assert p in ps';
      }
    }
  }

  /** A position has an entry exactly if it was opened and not closed since. Votes never open one. */
  lemma {:induction false} EntryExactly(events: seq<BallotEvent>, height: nat, hash: bytes)
    ensures HasEntry(HappenAll(NONE, events).positions, height, hash)
       <==> exists i :: Standing(events, i, height, hash)
    decreases |events|
  {
    hide Happen;
    if events != [] {
      var n := |events| - 1;
      var before, e := events[..n], events[n];
      assert events == before + [e];
      HappenThen(NONE, before, e);
      EntryAfter(HappenAll(NONE, before), e, height, hash);
      EntryExactly(before, height, hash);
      if e.OpenPosition? && e.height == height && e.hash == hash {
        assert Standing(events, n, height, hash);
      } else {
        if i :| Standing(events, i, height, hash) {
          assert Standing(before, i, height, hash) && !Closes(events[n], height, hash);
        }
        if !Closes(e, height, hash) {
          if i :| Standing(before, i, height, hash) {
            assert Standing(events, i, height, hash);
          }
        }
      }
    }
  }

  /** So a quorum is found only by a master that has announced this very position itself, in an
      order vote that has not closed it yet. */
  lemma QuorumIsOwn(events: seq<BallotEvent>, hash: bytes)
    requires Quorum(HappenAll(NONE, events).positions, hash)
    ensures exists i, height :: Standing(events, i, height, hash)
    ensures exists e :: e in events && e.OpenPosition?
  {
    hide HappenAll;
    var positions := HappenAll(NONE, events).positions;
    FirstIsIn(positions, hash);
    var p := FirstPosition(positions, hash).value;
    assert HasEntry(positions, p.height, hash);
    EntryExactly(events, p.height, hash);
    var i :| Standing(events, i, p.height, hash);
    assert 0 <= i < |events| && events[i].OpenPosition?;
    assert events[i] in events;
  }

  /** An event at a master that serves no requests: the quorum of a timeout is counted in a vector
      that no order vote has touched. */
  ghost predicate Follows(e: MasterRuns.Event) {
    && !e.Request?
    && (e.ApprovedTimeout? ==>
          exists history :: CountedIn(e, history) && NoOwnVote(history))
  }

  ghost predicate NoOwnVote(history: seq<BallotEvent>) {
    forall e | e in history :: !e.OpenPosition?
  }

  ghost predicate CountedIn(e: MasterRuns.Event, history: seq<BallotEvent>)
    requires e.ApprovedTimeout?
  {
    e.quorum == Quorum(HappenAll(NONE, history).positions, e.timer.hash)
  }

  /** Whatever blocks it approves, and whatever votes it hears: a master that serves no requests
      never stores a block. */
  lemma {:induction false} FollowerNeverStores(codec: Codec, s: MasterRuns.Master, events: seq<MasterRuns.Event>)
    requires s.tasks == [] && forall e | e in events :: Follows(e)
    ensures MasterRuns.Run(codec, s, events).ledger == s.ledger
    decreases |events|
  {
    hide MasterRuns.StepTask, MasterRuns.SerialHash, MasterRuns.Archive, Quorum, HappenAll;
    if events != [] {
      var e := events[0];
      assert Follows(e);
      if e.ApprovedTimeout? {
        var history :| CountedIn(e, history) && NoOwnVote(history);
        if e.quorum {
          QuorumIsOwn(history, e.timer.hash);
        }
      }
      FollowerNeverStores(codec, MasterRuns.Step(codec, s, e), events[1..]);
    }
  }
}
