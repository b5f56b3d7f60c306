/** The two voting rounds of a master: is a block valid, and is its position free. */
module Voting {
  import opened Wrappers
  import opened Bytes
  import opened Orders
  import opened Ledger
  import MasterRuns

  /** An entry of `pending_blocks`: votes on the validity of the block with this raw hash. */
  datatype Ballot = Ballot(hash: bytes, ok: nat, no: nat, voters: nat)

  /** An entry of `approved_blocks`: votes on a position and the serial hash for it. */
  datatype Position = Position(height: nat, hash: bytes, ok: nat, no: nat, voters: nat)

  datatype Ballots = Ballots(pending: seq<Ballot>, positions: seq<Position>)

  const NONE: Ballots := Ballots([], [])

  /** Every change that any task makes to the two shared vectors. */
  datatype BallotEvent =
    | Vote(hash: bytes, ok: bool, weight: nat)
    | SerialVote(id: nat, hash: bytes, ok: bool, weight: nat)
    | OpenPending(hash: bytes, weight: nat)
    | ReceiveBlock(hash: bytes)
    | ClosePending(hash: bytes)
    | OpenPosition(height: nat, hash: bytes, weight: nat)
    | ClosePositionsAt(height: nat)
    | ClosePositionsOf(hash: bytes)

  function CountVote(p: Ballot, hash: bytes, ok: bool, weight: nat): Ballot {
    if p.hash != hash then p
    else p.(ok := p.ok + (if ok then weight else 0), no := p.no + (if ok then 0 else weight), voters := p.voters + 1)
  }

  function CountSerial(p: Position, id: nat, hash: bytes, ok: bool, weight: nat): Position {
    if p.height != id || p.hash != hash then p
    else p.(ok := p.ok + (if ok then weight else 0), no := p.no + (if ok then 0 else weight), voters := p.voters + 1)
  }

  function VoteAll(ps: seq<Ballot>, hash: bytes, ok: bool, weight: nat): (r: seq<Ballot>)
    ensures |r| == |ps| && forall i | 0 <= i < |ps| :: r[i] == CountVote(ps[i], hash, ok, weight)
  {
    seq(|ps|, i requires 0 <= i < |ps| => CountVote(ps[i], hash, ok, weight))
  }

  function SerialAll(ps: seq<Position>, id: nat, hash: bytes, ok: bool, weight: nat): (r: seq<Position>)
    ensures |r| == |ps| && forall i | 0 <= i < |ps| :: r[i] == CountSerial(ps[i], id, hash, ok, weight)
  {
    seq(|ps|, i requires 0 <= i < |ps| => CountSerial(ps[i], id, hash, ok, weight))
  }

  /** `Vec::retain`. */
  function Retain<T>(xs: seq<T>, keep: T -> bool): (r: seq<T>)
    ensures (forall x | x in r :: x in xs && keep(x)) && (forall x | x in xs && keep(x) :: x in r)
  {
    if xs == [] then [] else (if keep(xs[0]) then [xs[0]] else []) + Retain(xs[1..], keep)
  }

  function ForOther(hash: bytes): Ballot -> bool {
    (p: Ballot) => p.hash != hash
  }

  function NotAt(height: nat): Position -> bool {
    (p: Position) => p.height != height
  }

  function NotOf(hash: bytes): Position -> bool {
    (p: Position) => p.hash != hash
  }

  function Happen(b: Ballots, e: BallotEvent): Ballots {
    match e
    case Vote(hash, ok, weight) => b.(pending := VoteAll(b.pending, hash, ok, weight))
    case SerialVote(id, hash, ok, weight) => b.(positions := SerialAll(b.positions, id, hash, ok, weight))
    case OpenPending(hash, weight) => b.(pending := b.pending + [Ballot(hash, weight, 0, 1)])
    case ReceiveBlock(hash) => b.(pending := b.pending + [Ballot(hash, 0, 0, 0)])
    case ClosePending(hash) => b.(pending := Retain(b.pending, ForOther(hash)))
    case OpenPosition(height, hash, weight) => b.(positions := b.positions + [Position(height, hash, weight, 0, 1)])
    case ClosePositionsAt(height) => b.(positions := Retain(b.positions, NotAt(height)))
    case ClosePositionsOf(hash) => b.(positions := Retain(b.positions, NotOf(hash)))
  }

  function HappenAll(b: Ballots, events: seq<BallotEvent>): Ballots
    decreases |events|
  {
    if events == [] then b else HappenAll(Happen(b, events[0]), events[1..])
  }

  /** Votes from the network weigh one, entries open with the weight of this master. */
  predicate Weighed(e: BallotEvent, own: nat) {
    match e
    case Vote(_, _, weight) => weight == 1
    case SerialVote(_, _, _, weight) => weight == 1
    case OpenPending(_, weight) => weight == own
    case OpenPosition(_, _, weight) => weight == own
    case _ => true
  }

  lemma {:induction false} HappenConcat(b: Ballots, es: seq<BallotEvent>, fs: seq<BallotEvent>)
    ensures HappenAll(b, es + fs) == HappenAll(HappenAll(b, es), fs)
    decreases |es|
  {
    hide Happen;
    if es == [] {
      assert es + fs == fs;
    } else {
      assert (es + fs)[0] == es[0] && (es + fs)[1..] == es[1..] + fs;
      HappenConcat(Happen(b, es[0]), es[1..], fs);
    }
  }

  lemma HappenThen(b: Ballots, es: seq<BallotEvent>, e: BallotEvent)
    ensures HappenAll(b, es + [e]) == Happen(HappenAll(b, es), e)
  {
    hide Happen;
    HappenConcat(b, es, [e]);
    var b' := HappenAll(b, es);
    assert [e][1..] == [];
    assert HappenAll(Happen(b', e), []) == Happen(b', e);
  }

  /** Every entry has one vote per voter. */
  ghost predicate Tallied(b: Ballots) {
    && (forall p | p in b.pending :: p.ok + p.no == p.voters)
    && (forall p | p in b.positions :: p.ok + p.no == p.voters)
  }

  lemma TalliedStep(b: Ballots, e: BallotEvent)
    requires Tallied(b) && Weighed(e, 1)
    ensures Tallied(Happen(b, e))
  {
    hide Retain;
    var b' := Happen(b, e);
    forall i | 0 <= i < |b'.pending| ensures b'.pending[i].ok + b'.pending[i].no == b'.pending[i].voters {
      assert b'.pending[i] in b'.pending;
      if i < |b.pending| {
        assert b.pending[i] in b.pending;
      }
    }
    forall i | 0 <= i < |b'.positions| ensures b'.positions[i].ok + b'.positions[i].no == b'.positions[i].voters {
      assert b'.positions[i] in b'.positions;
      if i < |b.positions| {
        assert b.positions[i] in b.positions;
      }
    }
  }

  /** With unit weights the tallies add up in every run. */
  lemma {:induction false} TalliedAlways(b: Ballots, events: seq<BallotEvent>)
    requires Tallied(b) && forall e | e in events :: Weighed(e, 1)
    ensures Tallied(HappenAll(b, events))
    decreases |events|
  {
    hide Happen;
    hide Tallied;
    if events != [] {
      TalliedStep(b, events[0]);
      TalliedAlways(Happen(b, events[0]), events[1..]);
    }
  }

  /** What a follower gossips about an announced position. If it agrees it votes for the position
      by its serial hash. In any case it then votes against the raw hash of the block. */
  function Reply(id: nat, serial: bytes, raw: bytes, agrees: bool): seq<NetData> {
    (if agrees then [PositionVote(id, serial, true)] else []) + [PositionVote(id, raw, false)]
  }

  /** What the proposer's handler makes of it. */
  function Heard(id: nat, serial: bytes, raw: bytes, agrees: bool): (events: seq<BallotEvent>)
    ensures |events| == |Reply(id, serial, raw, agrees)|
    ensures forall i | 0 <= i < |events| ::
              var vote := Reply(id, serial, raw, agrees)[i];
              vote.PositionVote? && events[i] == SerialVote(vote.id, vote.hash, vote.ok, 1)
  {
    (if agrees then [SerialVote(id, serial, true, 1)] else []) + [SerialVote(id, raw, false, 1)]
  }

  function HeardAll(id: nat, serial: bytes, raw: bytes, replies: seq<bool>): seq<BallotEvent> {
    if replies == [] then [] else Heard(id, serial, raw, replies[0]) + HeardAll(id, serial, raw, replies[1..])
  }

  function Agreeing(replies: seq<bool>): (n: nat)
    ensures n <= |replies|
  {
    if replies == [] then 0 else (if replies[0] then 1 else 0) + Agreeing(replies[1..])
  }

  lemma ReplyCounts(b: Ballots, id: nat, serial: bytes, raw: bytes, agrees: bool, i: nat)
    requires raw != serial
    requires i < |b.positions| && b.positions[i].height == id && b.positions[i].hash == serial
    ensures var b' := HappenAll(b, Heard(id, serial, raw, agrees));
            var p := b.positions[i];
            && |b'.positions| == |b.positions|
            && b'.positions[i] == if agrees then p.(ok := p.ok + 1, voters := p.voters + 1) else p
  {
    hide Retain;
    var yes, no := SerialVote(id, serial, true, 1), SerialVote(id, raw, false, 1);
    if agrees {
      HappenThen(b, [yes], no);
      HappenThen(b, [], yes);
      assert [] + [yes] == [yes] && [yes] + [no] == Heard(id, serial, raw, true);
    } else {
      HappenThen(b, [], no);
      assert [] + [no] == Heard(id, serial, raw, false);
    }
  }

  /** The tally of an announced position after any replies: agreement counts, and disagreement
      does not, because it is voted under another hash. However many followers disagree, an
      entry that was not outvoted before is not outvoted after. */
  lemma {:induction false} OnlyAgreementCounts(b: Ballots, id: nat, serial: bytes, raw: bytes, replies: seq<bool>,
                                               i: nat)
    requires raw != serial
    requires i < |b.positions| && b.positions[i].height == id && b.positions[i].hash == serial
    ensures var b' := HappenAll(b, HeardAll(id, serial, raw, replies));
            var p := b.positions[i];
            && |b'.positions| == |b.positions|
            && b'.positions[i] == p.(ok := p.ok + Agreeing(replies), voters := p.voters + Agreeing(replies))
    decreases |replies|
  {
    hide Happen;
    hide Heard;
    if replies != [] {
      var first := Heard(id, serial, raw, replies[0]);
      ReplyCounts(b, id, serial, raw, replies[0], i);
      HappenConcat(b, first, HeardAll(id, serial, raw, replies[1..]));
      OnlyAgreementCounts(HappenAll(b, first), id, serial, raw, replies[1..], i);
    }
  }

  /** Without collisions a serial hash is not the raw hash of the same block. */
  lemma SerialIsNotRaw(codec: Codec, previous: bytes, body: bytes)
    requires codec.CollisionFree() && previous != []
    ensures MasterRuns.SerialHash(codec, previous, body) != codec.sha256(body)
  {
    assert |previous + body| != |body|;
  }

  /** As every master running this code behaves, when `bodies` are proposed: votes against a
      position carry the raw hash of a body, and positions are opened under the serial hash of a
      body behind a block whose hash is one of `previous`. */
  ghost predicate AsCoded(codec: Codec, e: BallotEvent, bodies: set<bytes>, previous: set<bytes>) {
    match e
    case SerialVote(_, hash, ok, _) => ok || hash in Raws(codec, bodies)
    case OpenPosition(_, hash, _) =>
      exists p, body :: p in previous && body in bodies && hash == MasterRuns.SerialHash(codec, p, body)
    case _ => true
  }

  ghost function Raws(codec: Codec, bodies: set<bytes>): set<bytes> {
    set body | body in bodies :: codec.sha256(body)
  }

  /** No proposed body is a block hash followed by a proposed body. */
  ghost predicate Unnested(bodies: set<bytes>, previous: set<bytes>) {
    forall p, x | p in previous && x in bodies :: p + x !in bodies
  }

  /** Then no serial hash is the raw hash of any proposed body. */
  lemma SerialsAreNotRaw(codec: Codec, bodies: set<bytes>, previous: set<bytes>, p: bytes, body: bytes)
    requires codec.CollisionFree() && Unnested(bodies, previous) && p in previous && body in bodies
    ensures MasterRuns.SerialHash(codec, p, body) !in Raws(codec, bodies)
  {
    assert p + body !in bodies;
  }

  /** What is needed of an event below: no entry is opened under a raw hash, and no other hash is
      voted against. */
  ghost predicate Unopposing(e: BallotEvent, raws: set<bytes>) {
    match e
    case SerialVote(_, hash, ok, _) => ok || hash in raws
    case OpenPosition(_, hash, _) => hash !in raws
    case _ => true
  }

  lemma CodedIsUnopposing(codec: Codec, e: BallotEvent, bodies: set<bytes>, previous: set<bytes>)
    requires codec.CollisionFree() && Unnested(bodies, previous) && AsCoded(codec, e, bodies, previous)
    ensures Unopposing(e, Raws(codec, bodies))
  {
    hide MasterRuns.SerialHash;
    hide Raws;
    if e.OpenPosition? {
      var p, body :| p in previous && body in bodies && e.hash == MasterRuns.SerialHash(codec, p, body);
      SerialsAreNotRaw(codec, bodies, previous, p, body);
    }
  }

  ghost predicate Unopposed(b: Ballots, raws: set<bytes>) {
    forall p | p in b.positions :: p.no == 0 && p.hash !in raws
  }

  lemma UnopposedStep(b: Ballots, e: BallotEvent, raws: set<bytes>)
    requires Unopposed(b, raws) && Unopposing(e, raws)
    ensures Unopposed(Happen(b, e), raws)
  {
    hide Retain;
    var ps := Happen(b, e).positions;
    forall i | 0 <= i < |ps| ensures ps[i].no == 0 && ps[i].hash !in raws {
      assert ps[i] in ps;
      if i < |b.positions| {
        assert b.positions[i] in b.positions;
      }
    }
  }

  /** In every run of masters that run this code, no position ever has a vote against it. */
  lemma {:induction false} NeverOpposed(codec: Codec, b: Ballots, events: seq<BallotEvent>,
                                        bodies: set<bytes>, previous: set<bytes>)
    requires codec.CollisionFree() && Unnested(bodies, previous)
    requires Unopposed(b, Raws(codec, bodies)) && forall e | e in events :: AsCoded(codec, e, bodies, previous)
    ensures Unopposed(HappenAll(b, events), Raws(codec, bodies))
    decreases |events|
  {
    hide Happen, Unopposed, AsCoded, Unopposing, Unnested, Raws;
    if events != [] {
      CodedIsUnopposing(codec, events[0], bodies, previous);
      UnopposedStep(b, events[0], Raws(codec, bodies));
      NeverOpposed(codec, Happen(b, events[0]), events[1..], bodies, previous);
    }
  }

  function Against(hash: bytes, n: nat): (votes: seq<BallotEvent>)
    ensures |votes| == n && forall e | e in votes :: e == Vote(hash, false, 1)
  {
    if n == 0 then [] else [Vote(hash, false, 1)] + Against(hash, n - 1)
  }

  lemma {:induction false} AgainstCounts(b: Ballots, hash: bytes, n: nat)
    ensures var b' := HappenAll(b, Against(hash, n));
      && |b'.pending| == |b.pending|
      && forall i | 0 <= i < |b.pending| ::
           b'.pending[i] == var p := b.pending[i];
                            if p.hash == hash then p.(no := p.no + n, voters := p.voters + n) else p
    decreases n
  {
    if n > 0 {
      var next := Happen(b, Vote(hash, false, 1));
      AgainstCounts(next, hash, n - 1);
      assert Against(hash, n)[1..] == Against(hash, n - 1);
    }
  }

  /** A proposed block that only followers vote on who are against it passes exactly if they are
      no more than the weight of the proposer. */
  lemma PassesAgainst(b: Ballots, hash: bytes, own: nat, n: nat)
    requires forall p | p in b.pending :: p.hash != hash
    ensures Uncontested(HappenAll(b, [OpenPending(hash, own)] + Against(hash, n)).pending, hash) <==> n <= own
  {
    var push := OpenPending(hash, own);
    HappenConcat(b, [push], Against(hash, n));
    HappenThen(b, [], push);
    assert [] + [push] == [push];
    var b1 := Happen(b, push);
    AgainstCounts(b1, hash, n);
    var ps := HappenAll(b1, Against(hash, n)).pending;
    assert ps[|b.pending|] in ps;
    forall i | 0 <= i < |b.pending| ensures ps[i].hash != hash {
      assert b.pending[i] in b.pending;
    }
  }

  // Any votes, of any weight

  function BlockVotes(hash: bytes, votes: seq<(bool, nat)>): seq<BallotEvent> {
    if votes == [] then [] else [Vote(hash, votes[0].0, votes[0].1)] + BlockVotes(hash, votes[1..])
  }

  function SerialVotes(id: nat, hash: bytes, votes: seq<(bool, nat)>): seq<BallotEvent> {
    if votes == [] then [] else [SerialVote(id, hash, votes[0].0, votes[0].1)] + SerialVotes(id, hash, votes[1..])
  }

  /** The weight of the votes for, or of those against. */
  function Cast(votes: seq<(bool, nat)>, ok: bool): nat {
    if votes == [] then 0 else (if votes[0].0 == ok then votes[0].1 else 0) + Cast(votes[1..], ok)
  }

  /** The tally of every block entry after any votes. */
  lemma {:induction false} VotesCount(b: Ballots, hash: bytes, votes: seq<(bool, nat)>)
    ensures var b' := HappenAll(b, BlockVotes(hash, votes));
      && b'.positions == b.positions && |b'.pending| == |b.pending|
      && forall i | 0 <= i < |b.pending| ::
           b'.pending[i] == var p := b.pending[i];
                            if p.hash != hash then p
                            else p.(ok := p.ok + Cast(votes, true), no := p.no + Cast(votes, false),
                                    voters := p.voters + |votes|)
    decreases |votes|
  {
    if votes != [] {
      VotesCount(Happen(b, Vote(hash, votes[0].0, votes[0].1)), hash, votes[1..]);
      assert BlockVotes(hash, votes)[1..] == BlockVotes(hash, votes[1..]);
    }
  }

  /** The tally of every position after any votes. */
  lemma {:induction false} SerialVotesCount(b: Ballots, id: nat, hash: bytes, votes: seq<(bool, nat)>)
    ensures var b' := HappenAll(b, SerialVotes(id, hash, votes));
      && b'.pending == b.pending && |b'.positions| == |b.positions|
      && forall i | 0 <= i < |b.positions| ::
           b'.positions[i] == var p := b.positions[i];
                              if p.height != id || p.hash != hash then p
                              else p.(ok := p.ok + Cast(votes, true), no := p.no + Cast(votes, false),
                                    voters := p.voters + |votes|)
    decreases |votes|
  {
    if votes != [] {
      SerialVotesCount(Happen(b, SerialVote(id, hash, votes[0].0, votes[0].1)), id, hash, votes[1..]);
      assert SerialVotes(id, hash, votes)[1..] == SerialVotes(id, hash, votes[1..]);
    }
  }

  /** A proposed block passes after any votes exactly if those against do not outweigh those for,
      the proposer's own included. */
  lemma PassesExactly(b: Ballots, hash: bytes, own: nat, votes: seq<(bool, nat)>)
    requires forall p | p in b.pending :: p.hash != hash
    ensures Uncontested(HappenAll(b, [OpenPending(hash, own)] + BlockVotes(hash, votes)).pending, hash)
       <==> Cast(votes, false) <= own + Cast(votes, true)
  {
    var push := OpenPending(hash, own);
    HappenConcat(b, [push], BlockVotes(hash, votes));
    HappenThen(b, [], push);
    assert [] + [push] == [push];
    var b1 := Happen(b, push);
    VotesCount(b1, hash, votes);
    var ps := HappenAll(b1, BlockVotes(hash, votes)).pending;
    assert ps[|b.pending|] in ps;
    forall i | 0 <= i < |b.pending| ensures ps[i].hash != hash {
      assert b.pending[i] in b.pending;
    }
  }

  /** A follower enters a block with no votes, and its own when the block is valid: after any other
      votes the entry is outvoted exactly if those against outweigh these. */
  lemma ReceivedExactly(b: Ballots, hash: bytes, valid: bool, votes: seq<(bool, nat)>)
    requires forall p | p in b.pending :: p.hash != hash
    ensures var own := if valid then [Vote(hash, true, 1)] else [];
            var b' := HappenAll(b, [ReceiveBlock(hash)] + own + BlockVotes(hash, votes));
            var first := FirstBallot(b'.pending, hash);
      && first.Some?
      && first.value == Ballot(hash, (if valid then 1 else 0) + Cast(votes, true), Cast(votes, false),
                               (if valid then 1 else 0) + |votes|)
  {
    var push := ReceiveBlock(hash);
    var own := if valid then [Vote(hash, true, 1)] else [];
    HappenConcat(b, [push] + own, BlockVotes(hash, votes));
    HappenConcat(b, [push], own);
    HappenThen(b, [], push);
    assert [] + [push] == [push];
    var b1 := Happen(b, push);
    var b2 := HappenAll(b1, own);
    if valid {
      HappenThen(b1, [], Vote(hash, true, 1));
      assert [] + own == own;
    }
    VotesCount(b2, hash, votes);
    var ps := HappenAll(b2, BlockVotes(hash, votes)).pending;
    forall i | 0 <= i < |b.pending| ensures ps[i].hash != hash {
      assert b.pending[i] in b.pending;
    }
    FirstBallotBehind(ps, hash, |b.pending|);
  }

  lemma {:induction false} FirstBallotBehind(pending: seq<Ballot>, hash: bytes, i: nat)
    requires i < |pending| && pending[i].hash == hash && forall j | 0 <= j < i :: pending[j].hash != hash
    ensures FirstBallot(pending, hash) == Some(pending[i])
  {
    if i > 0 {
      FirstBallotBehind(pending[1..], hash, i - 1);
    }
  }

  lemma {:induction false} FirstPositionBehind(positions: seq<Position>, hash: bytes, i: nat)
    requires i < |positions| && positions[i].hash == hash && forall j | 0 <= j < i :: positions[j].hash != hash
    ensures FirstPosition(positions, hash) == Some(positions[i])
  {
    if i > 0 {
      FirstPositionBehind(positions[1..], hash, i - 1);
    }
  }

  /** An announced position enters with the weight of the proposer: after any votes its first entry
      is outvoted exactly if those against outweigh those for, the proposer's own included. */
  lemma PositionExactly(b: Ballots, height: nat, hash: bytes, own: nat, votes: seq<(bool, nat)>)
    requires forall p | p in b.positions :: p.hash != hash
    ensures var b' := HappenAll(b, [OpenPosition(height, hash, own)] + SerialVotes(height, hash, votes));
            var first := FirstPosition(b'.positions, hash);
      && first == Some(Position(height, hash, own + Cast(votes, true), Cast(votes, false), 1 + |votes|))
      && (Outvoted(first) <==> Cast(votes, false) > own + Cast(votes, true))
  {
    var push := OpenPosition(height, hash, own);
    HappenConcat(b, [push], SerialVotes(height, hash, votes));
    HappenThen(b, [], push);
    assert [] + [push] == [push];
    var b1 := Happen(b, push);
    SerialVotesCount(b1, height, hash, votes);
    var ps := HappenAll(b1, SerialVotes(height, hash, votes)).positions;
    forall i | 0 <= i < |b.positions| ensures ps[i].hash != hash {
      assert b.positions[i] in b.positions;
    }
    FirstPositionBehind(ps, hash, |b.positions|);
  }

  /** Every reply votes once against the raw hash at the announced height, and for the position
      exactly if the follower agrees, before that. */
  lemma ReplyExactly(id: nat, serial: bytes, raw: bytes, agrees: bool)
    ensures var reply := Reply(id, serial, raw, agrees);
      && multiset(reply)[PositionVote(id, raw, false)] == 1
      && multiset(reply)[PositionVote(id, serial, true)] == (if agrees then 1 else 0)
      && |reply| == 1 + (if agrees then 1 else 0)
      && reply[|reply| - 1] == PositionVote(id, raw, false)
  {
  }

  datatype PublishError = GeneralFailure | ReqError | RejectedByVote

  datatype Sent = Delivered | InsufficientPeers | Broken

  /** No entry for the block has more votes against it than for it. */
  predicate Uncontested(pending: seq<Ballot>, hash: bytes) {
    forall p | p in pending :: p.hash == hash ==> p.no <= p.ok
  }

  function FirstPosition(positions: seq<Position>, hash: bytes): Option<Position> {
    if positions == [] then None
    else if positions[0].hash == hash then Some(positions[0])
    else FirstPosition(positions[1..], hash)
  }

  lemma FirstPositionAt(positions: seq<Position>, hash: bytes, i: nat)
    requires i < |positions| && FirstPosition(positions, hash) == FirstPosition(positions[i..], hash)
    ensures FirstPosition(positions, hash) ==
            if positions[i].hash == hash then Some(positions[i]) else FirstPosition(positions[i + 1..], hash)
  {
    assert positions[i..][1..] == positions[i + 1..];
  }

  function FirstBallot(pending: seq<Ballot>, hash: bytes): Option<Ballot> {
    if pending == [] then None
    else if pending[0].hash == hash then Some(pending[0])
    else FirstBallot(pending[1..], hash)
  }

  lemma FirstBallotAt(pending: seq<Ballot>, hash: bytes, i: nat)
    requires i < |pending| && FirstBallot(pending, hash) == FirstBallot(pending[i..], hash)
    ensures FirstBallot(pending, hash) ==
            if pending[i].hash == hash then Some(pending[i]) else FirstBallot(pending[i + 1..], hash)
  {
    assert pending[i..][1..] == pending[i + 1..];
  }

  /** What masters tell each other over the gossip network. */
  datatype NetData =
    | Proposal(data: Option<Block>)
    | BlockVote(hash: bytes, ok: bool)
    | ArchiveBlock(hash: bytes, serial: bytes, id: nat)
    | PositionVote(id: nat, hash: bytes, ok: bool)

  datatype Message = Message(net: NetData, outcome: Sent)

  /** What is in the database. */
  datatype Image = Image(ledger: seq<BlockRow>, tables: Tables)

  /** A wait of a task: how many events had changed the vectors since the master started, when it
      began and when it was over; and what was in the database, when it began (`since`), and when
      it was over. */
  datatype Wait = Wait(began: nat, at: nat, since: Image, ledger: seq<BlockRow>, tables: Tables)

  /** The task itself did not write to the database between the waits from the `i`th to below the
      `j`th: each began with what the one before it had left, the first with `from`. */
  ghost predicate Quiet(waits: seq<Wait>, i: nat, from: Image, j: nat)
    requires j <= |waits|
  {
    forall k | i <= k < j :: waits[k].since == LeftBy(waits, i, from, k)
  }

  /** What was in the database after the waits from the `i`th to below the `j`th. */
  function LeftBy(waits: seq<Wait>, i: nat, from: Image, j: nat): Image
    requires j <= |waits|
  {
    if j <= i then from else Image(waits[j - 1].ledger, waits[j - 1].tables)
  }

  lemma QuietOne(b: seq<Wait>, c: seq<Wait>, i: nat, from: Image)
    requires b <= c && i <= |b| < |c|
    requires Quiet(b, i, from, |b|) && c[|b|].since == LeftBy(b, i, from, |b|)
    ensures Quiet(c, i, from, |b| + 1)
  {
    forall k | i <= k < |b| + 1 ensures c[k].since == LeftBy(c, i, from, k) {
      if k < |b| {
        assert b[k].since == LeftBy(b, i, from, k);
      }
    }
  }

  lemma QuietThen(b: seq<Wait>, c: seq<Wait>, i: nat, from: Image)
    requires b <= c && i <= |b|
    requires Quiet(b, i, from, |b|) && Quiet(c, |b|, LeftBy(b, i, from, |b|), |c|)
    ensures Quiet(c, i, from, |c|)
    ensures LeftBy(c, |b|, LeftBy(b, i, from, |b|), |c|) == LeftBy(c, i, from, |c|)
  {
    var before := LeftBy(b, i, from, |b|);
    forall k | i <= k < |c| ensures c[k].since == LeftBy(c, i, from, k) {
      if k < |b| {
        assert b[k].since == LeftBy(b, i, from, k);
      } else {
        assert c[k].since == LeftBy(c, |b|, before, k);
      }
    }
  }

  /** All changes of the two vectors since the master started, and the waits of one task. */
  datatype Log = Log(history: seq<BallotEvent>, waits: seq<Wait>)

  /** The vectors after the first `k` events. */
  function At(log: Log, k: nat): Ballots
    requires k <= |log.history|
  {
    HappenAll(NONE, log.history[..k])
  }

  predicate LogGrown(was: Log, now: Log) {
    && was.history <= now.history && was.waits <= now.waits
    && forall i | |was.waits| <= i < |now.waits| :: |was.history| <= now.waits[i].began
  }

  predicate Ordered(log: Log) {
    forall w | w in log.waits :: w.began <= w.at <= |log.history|
  }

  function Slice<T>(xs: seq<T>, from: nat, to: nat): seq<T> {
    if from <= to <= |xs| then xs[from..to] else []
  }

  /** The events from the `k`th on that did not happen during the waits from the `w`th on. */
  function OwnSince(log: Log, w: nat, k: nat): seq<BallotEvent>
    requires w <= |log.waits|
    decreases |log.waits| - w
  {
    if w == |log.waits| then Slice(log.history, k, |log.history|)
    else Slice(log.history, k, log.waits[w].began) + OwnSince(log, w + 1, log.waits[w].at)
  }

  /** The changes of the vectors that the task made itself between two moments: those that did
      not happen while it waited. */
  function Own(was: Log, now: Log): seq<BallotEvent> {
    if |was.waits| <= |now.waits| then OwnSince(now, |was.waits|, |was.history|) else []
  }

  lemma SlicePrefix<T>(xs: seq<T>, ys: seq<T>, from: nat, to: nat)
    requires xs <= ys && to <= |xs|
    ensures Slice(ys, from, to) == Slice(xs, from, to)
  {
  }

  lemma SliceSplit<T>(xs: seq<T>, ys: seq<T>, from: nat, to: nat)
    requires xs <= ys && from <= |xs| <= to <= |ys|
    ensures Slice(ys, from, to) == Slice(xs, from, |xs|) + Slice(ys, |xs|, to)
  {
  }

  lemma {:induction false} OwnSplit(b: Log, c: Log, w: nat, k: nat)
    requires LogGrown(b, c) && Ordered(b) && Ordered(c) && w <= |b.waits| && k <= |b.history|
    ensures OwnSince(c, w, k) == OwnSince(b, w, k) + OwnSince(c, |b.waits|, |b.history|)
    decreases |b.waits| - w
  {
    hide Slice;
    if w < |b.waits| {
      assert c.waits[w] == b.waits[w] && b.waits[w] in b.waits;
      OwnSplit(b, c, w + 1, b.waits[w].at);
      SlicePrefix(b.history, c.history, k, b.waits[w].began);
    } else {
      var end := if w == |c.waits| then |c.history| else c.waits[w].began;
      assert w < |c.waits| ==> c.waits[w] in c.waits;
      SliceSplit(b.history, c.history, k, end);
    }
  }

  lemma OwnThen(a: Log, b: Log, c: Log)
    requires LogGrown(a, b) && LogGrown(b, c) && Ordered(b) && Ordered(c)
    ensures LogGrown(a, c) && Own(a, c) == Own(a, b) + Own(b, c)
  {
    hide OwnSince;
    OwnSplit(b, c, |a.waits|, |a.history|);
  }

  /** Nothing is the task's own during a wait. */
  lemma OwnWait(was: Log, now: Log)
    requires was.history <= now.history && |now.waits| == |was.waits| + 1 && was.waits <= now.waits
    requires now.waits[|was.waits|].began == |was.history| && now.waits[|was.waits|].at == |now.history|
    ensures LogGrown(was, now) && Own(was, now) == []
  {
    assert OwnSince(now, |was.waits| + 1, |now.history|) == [];
  }

  /** A single change. */
  lemma OwnEvent(was: Log, e: BallotEvent)
    ensures var now := Log(was.history + [e], was.waits); LogGrown(was, now) && Own(was, now) == [e]
  {
  }

  lemma OwnNothing(log: Log)
    ensures LogGrown(log, log) && Own(log, log) == []
  {
  }

  /** The task pushes an entry for each delivered announcement. */
  function Opened(own: nat, said: seq<Message>): seq<BallotEvent> {
    if said == [] then [] else Opened(own, said[..|said| - 1]) + OpenedBy(own, said[|said| - 1])
  }

  function OpenedBy(own: nat, m: Message): seq<BallotEvent> {
    if m.outcome.Delivered? && m.net.ArchiveBlock? then [OpenPosition(m.net.id, m.net.serial, own)] else []
  }

  lemma OpenedThen(own: nat, said: seq<Message>, m: Message)
    ensures Opened(own, said + [m]) == Opened(own, said) + OpenedBy(own, m)
  {
    assert (said + [m])[..|said|] == said;
  }

  /** All changes an order vote makes: the entries pushed, and if the last announcement decided
      it, the entries at that height dropped. */
  function OrderChanges(own: nat, said: seq<Message>, unread: bool): seq<BallotEvent> {
    Opened(own, said) +
    if !unread && said != [] && said[|said| - 1].outcome.Delivered? && said[|said| - 1].net.ArchiveBlock?
    then [ClosePositionsAt(said[|said| - 1].net.id)] else []
  }

  /** The task pushed its entry as event `pushed`, no earlier than `since`, then waited, and
      `seen` is what the vectors held when wait number `wait` was over. */
  ghost predicate Counted(log: Log, since: nat, pushed: nat, wait: nat, entry: BallotEvent, seen: Ballots) {
    && since <= pushed < |log.history| && log.history[pushed] == entry
    && wait < |log.waits| && pushed < log.waits[wait].at <= |log.history|
    && seen == At(log, log.waits[wait].at)
  }

  lemma CountedLater(was: Log, now: Log, since: nat, since': nat, pushed: nat, wait: nat, entry: BallotEvent,
                     seen: Ballots)
    requires Counted(was, since, pushed, wait, entry, seen) && LogGrown(was, now) && since' <= since
    ensures Counted(now, since', pushed, wait, entry, seen)
  {
    var k := was.waits[wait].at;
    assert now.waits[wait] == was.waits[wait];
    assert now.history[..k] == was.history[..k];
  }

  /** One round of an order vote. The last block was read after wait `fetched`; if the
      announcement was delivered, an entry was pushed as event `pushed` and counted after wait
      `wait`, when the vectors were `seen`. */
  datatype Round = Round(fetched: nat, pushed: nat, wait: nat, seen: Ballots)

  /** The rounds of an order vote, and whether the ledger could not be read for another one. */
  datatype OrderTrace = OrderTrace(rounds: seq<Round>, unread: bool)

  /** Height and hash of the last row. */
  function LastOf(ledger: seq<BlockRow>): (nat, bytes)
    requires ledger != []
  {
    (|ledger| - 1, ledger[|ledger| - 1].hash)
  }

  function Announcement(codec: Codec, block: Block, read: (nat, bytes)): NetData {
    ArchiveBlock(block.hash, MasterRuns.SerialHash(codec, read.1, block.body), read.0 + 1)
  }

  /** The message announces the position after the last block of the ledger at the time of the
      read, and if it was delivered, the votes were counted after it. */
  ghost predicate Held(codec: Codec, block: Block, own: nat, log: Log, start: nat, m: Message, round: Round) {
    && start <= round.fetched <= round.wait < |log.waits|
    && log.waits[round.fetched].ledger != []
    && m.net == Announcement(codec, block, LastOf(log.waits[round.fetched].ledger))
    && (m.outcome.Delivered? ==>
          && round.fetched < round.wait
          && Counted(log, log.waits[round.fetched].at, round.pushed, round.wait,
                     OpenPosition(m.net.id, m.net.serial, own), round.seen))
  }

  lemma HeldLater(codec: Codec, block: Block, own: nat, was: Log, now: Log, start: nat, m: Message, round: Round)
    requires Held(codec, block, own, was, start, m, round) && LogGrown(was, now)
    ensures Held(codec, block, own, now, start, m, round)
  {
    hide Counted, MasterRuns.SerialHash;
    assert now.waits[round.fetched] == was.waits[round.fetched];
    if m.outcome.Delivered? {
      CountedLater(was, now, was.waits[round.fetched].at, was.waits[round.fetched].at, round.pushed, round.wait,
                   OpenPosition(m.net.id, m.net.serial, own), round.seen);
    }
  }

  /** The rounds follow each other: every read is made after the count before it. */
  ghost predicate Rounds(codec: Codec, block: Block, own: nat, log: Log, start: nat, said: seq<Message>,
                         rounds: seq<Round>) {
    && |said| == |rounds|
    && (forall i | 0 <= i < |said| :: Held(codec, block, own, log, start, said[i], rounds[i]))
    && (forall i, j | 0 <= i < j < |rounds| :: rounds[i].wait < rounds[j].fetched)
  }

  lemma RoundsLater(codec: Codec, block: Block, own: nat, was: Log, now: Log, start: nat, said: seq<Message>,
                    rounds: seq<Round>)
    requires Rounds(codec, block, own, was, start, said, rounds) && LogGrown(was, now)
    ensures Rounds(codec, block, own, now, start, said, rounds)
  {
    hide Held, LogGrown;
    forall i | 0 <= i < |said| ensures Held(codec, block, own, now, start, said[i], rounds[i]) {
      HeldLater(codec, block, own, was, now, start, said[i], rounds[i]);
    }
  }

  lemma RoundsThen(codec: Codec, block: Block, own: nat, was: Log, now: Log, start: nat, said: seq<Message>,
                   rounds: seq<Round>,
                   m: Message, round: Round)
    requires Rounds(codec, block, own, was, start, said, rounds) && LogGrown(was, now)
    requires Held(codec, block, own, now, start, m, round) && |was.waits| <= round.fetched
    ensures Rounds(codec, block, own, now, start, said + [m], rounds + [round])
  {
    RoundsLater(codec, block, own, was, now, start, said, rounds);
    hide LogGrown;
    forall i | 0 <= i < |rounds| ensures rounds[i].wait < round.fetched {
      assert Held(codec, block, own, was, start, said[i], rounds[i]);
    }
    hide Held;
    forall i | 0 <= i < |said + [m]|
      ensures Held(codec, block, own, now, start, (said + [m])[i], (rounds + [round])[i])
    {
      if i < |said| {
        assert Held(codec, block, own, now, start, said[i], rounds[i]);
      }
    }
  }

  predicate Outvoted(p: Option<Position>) {
    p.Some? && p.value.no > p.value.ok
  }

  /** The first `n` rounds had no result: the announcement found too few peers, or the first
      entry of the position was outvoted. */
  ghost predicate Retried(said: seq<Message>, rounds: seq<Round>, n: nat)
    requires n <= |said| == |rounds|
  {
    forall i | 0 <= i < n :: NoResult(said[i], rounds[i])
  }

  predicate NoResult(m: Message, round: Round) {
    && m.net.ArchiveBlock?
    && match m.outcome
       case Delivered => Outvoted(FirstPosition(round.seen.positions, m.net.serial))
       case InsufficientPeers => true
       case Broken => false
  }

  predicate LastRound(last: Message, seen: Ballots, exhausted: bool, r: Result<(nat, bytes), PublishError>) {
    && last.net.ArchiveBlock?
    && match last.outcome
       case Broken => r == Err(ReqError)
       case InsufficientPeers => r == Err(ReqError) && exhausted
       case Delivered =>
         var first := FirstPosition(seen.positions, last.net.serial);
         if first.None? then r == Err(ReqError)
         else if Outvoted(first) then r == Err(RejectedByVote) && exhausted
         else r == Ok((last.net.id, last.net.serial))
  }

  /** Which result an order vote has, and why. It starts at wait `start` of the log. */
  ghost predicate OrderOutcome(codec: Codec, data: Option<Block>, own: nat, retries: nat, log: Log, start: nat,
                               said: seq<Message>, t: OrderTrace, r: Result<(nat, bytes), PublishError>) {
    match data
    case None => r == Err(GeneralFailure) && said == []
    case Some(block) =>
      && Rounds(codec, block, own, log, start, said, t.rounds)
      && |said| <= retries + 1
      && if t.unread then r == Err(RejectedByVote) && |said| <= retries && Retried(said, t.rounds, |said|)
         else
           && said != [] && Retried(said, t.rounds, |said| - 1)
           && LastRound(said[|said| - 1], t.rounds[|said| - 1].seen, |said| == retries + 1, r)
  }

  /** How publishing went: the proposals of the block, whether there are no other masters, where
      in the log the entry was pushed and counted, and the order vote after it. */
  datatype PublishTrace = PublishTrace(
    asked: seq<Message>, alone: bool, pushed: nat, wait: nat, phaseOne: Ballots, ordered: seq<Message>,
    order: OrderTrace)

  /** Which result publishing has, and why. It starts at event `since` and wait `start`. */
  ghost predicate PublishOutcome(codec: Codec, hash: bytes, data: Option<Block>, own: nat, retries: nat,
                                 log: Log, since: nat, start: nat, t: PublishTrace,
                                 r: Result<Option<(nat, bytes)>, PublishError>) {
    && 1 <= |t.asked| <= retries + 1
    && (forall i | 0 <= i < |t.asked| :: t.asked[i].net == Proposal(data))
    && (forall i | 0 <= i < |t.asked| - 1 :: t.asked[i].outcome.InsufficientPeers?)
    && match t.asked[|t.asked| - 1].outcome
       case Broken => t.ordered == [] && r == Err(ReqError)
       case InsufficientPeers =>
         t.ordered == [] && if t.alone then r == Ok(None) else r == Err(ReqError) && |t.asked| == retries + 1
       case Delivered => Voted(codec, hash, data, own, retries, log, since, start, t, r)
  }

  /** What the two votes decide after a proposal was delivered. */
  ghost predicate Voted(codec: Codec, hash: bytes, data: Option<Block>, own: nat, retries: nat,
                        log: Log, since: nat, start: nat, t: PublishTrace,
                        r: Result<Option<(nat, bytes)>, PublishError>) {
    && start <= t.wait && Counted(log, since, t.pushed, t.wait, OpenPending(hash, own), t.phaseOne)
    && if !Uncontested(t.phaseOne.pending, hash) then t.ordered == [] && r == Err(RejectedByVote)
       else
         match r
         case Ok(None) => false
         case Ok(Some(won)) => OrderOutcome(codec, data, own, retries, log, t.wait + 1, t.ordered, t.order, Ok(won))
         case Err(e) => OrderOutcome(codec, data, own, retries, log, t.wait + 1, t.ordered, t.order, Err(e))
  }

  /** All changes that the two votes make. */
  function VoteChanges(hash: bytes, own: nat, t: PublishTrace): seq<BallotEvent> {
    [OpenPending(hash, own)] +
    if Uncontested(t.phaseOne.pending, hash)
    then [ClosePending(hash)] + OrderChanges(own, t.ordered, t.order.unread) else []
  }

  function PublishChanges(hash: bytes, own: nat, t: PublishTrace): seq<BallotEvent> {
    if t.asked != [] && t.asked[|t.asked| - 1].outcome.Delivered? then VoteChanges(hash, own, t) else []
  }

  function Trues(n: nat): seq<bool> {
    if n == 0 then [] else Trues(n - 1) + [true]
  }

  /** What `multi_master` answered after each proposal that found too few peers: every time but
      possibly the last there were other masters. */
  function OthersFound(t: PublishTrace): seq<bool>
    requires t.asked != []
  {
    Trues(|t.asked| - 1) + if t.asked[|t.asked| - 1].outcome.InsufficientPeers? then [!t.alone] else []
  }

  // Where the votes on positions come from

  /** The votes on positions are what followers reply to an announcement, and entries are opened by
      the master that announced, for blocks of `proposed` behind blocks with hashes in `previous`. */
  ghost predicate Arises(codec: Codec, e: BallotEvent, proposed: set<Block>, previous: set<bytes>) {
    match e
    case SerialVote(_, _, _, _) =>
      exists block, height, hash, agrees ::
        block in proposed && hash in previous && ReplyTo(codec, e, block, height, hash, agrees)
    case OpenPosition(_, _, _) =>
      exists block, height, hash :: block in proposed && hash in previous && OpenedFor(codec, e, block, height, hash)
    case _ => true
  }

  ghost predicate ReplyTo(codec: Codec, e: BallotEvent, block: Block, height: nat, hash: bytes, agrees: bool) {
    var ann := Announcement(codec, block, (height, hash));
    ann.ArchiveBlock? && e in Heard(ann.id, ann.serial, ann.hash, agrees)
  }

  ghost predicate OpenedFor(codec: Codec, e: BallotEvent, block: Block, height: nat, hash: bytes) {
    exists own :: e in OpenedBy(own, Message(Announcement(codec, block, (height, hash)), Delivered))
  }

  ghost function BodiesOf(proposed: set<Block>): set<bytes> {
    set block | block in proposed :: block.body
  }

  /** What followers and proposers do is what `NeverOpposed` asks for: a vote against carries the
      hash of the block that was announced, which is the raw one. */
  lemma ArisesIsCoded(codec: Codec, e: BallotEvent, proposed: set<Block>, previous: set<bytes>)
    requires forall block | block in proposed :: block.hash == codec.sha256(block.body)
    requires Arises(codec, e, proposed, previous)
    ensures AsCoded(codec, e, BodiesOf(proposed), previous)
  {
    hide MasterRuns.SerialHash;
    match e
    case SerialVote(_, vote, ok, _) =>
      var block, height, hash, agrees :|
        block in proposed && hash in previous && ReplyTo(codec, e, block, height, hash, agrees);
      assert block.body in BodiesOf(proposed);
      assert codec.sha256(block.body) in Raws(codec, BodiesOf(proposed));
    case OpenPosition(_, serial, _) =>
      var block, height, hash :| block in proposed && hash in previous && OpenedFor(codec, e, block, height, hash);
      assert block.body in BodiesOf(proposed);
      assert serial == MasterRuns.SerialHash(codec, hash, block.body);
    case _ =>
  }

  /** All changes that an order vote makes to the vectors arise so. */
  lemma {:induction false} OrderChangesArise(codec: Codec, block: Block, own: nat, said: seq<Message>, unread: bool,
                                             proposed: set<Block>, previous: set<bytes>)
    requires block in proposed
    requires forall i | 0 <= i < |said| :: AnnouncedBehind(codec, block, said[i].net, previous)
    ensures forall e | e in OrderChanges(own, said, unread) :: Arises(codec, e, proposed, previous)
    decreases |said|
  {
    hide MasterRuns.SerialHash;
    if said != [] {
      var rest, m := said[..|said| - 1], said[|said| - 1];
      OrderChangesArise(codec, block, own, rest, true, proposed, previous);
      forall e | e in OpenedBy(own, m) ensures Arises(codec, e, proposed, previous) {
        var height, hash :| hash in previous && m.net == Announcement(codec, block, (height, hash));
        assert e in OpenedBy(own, Message(Announcement(codec, block, (height, hash)), Delivered));
        assert OpenedFor(codec, e, block, height, hash);
      }
    }
  }

  ghost predicate AnnouncedBehind(codec: Codec, block: Block, net: NetData, previous: set<bytes>) {
    exists height, hash :: hash in previous && net == Announcement(codec, block, (height, hash))
  }

  /** In particular those of the order vote of a task, behind the blocks that it read. */
  lemma OutcomeArises(codec: Codec, block: Block, own: nat, retries: nat, log: Log, start: nat, said: seq<Message>,
                      t: OrderTrace, r: Result<(nat, bytes), PublishError>, proposed: set<Block>, previous: set<bytes>)
    requires OrderOutcome(codec, Some(block), own, retries, log, start, said, t, r)
    requires block in proposed && forall w | w in log.waits && w.ledger != [] :: LastOf(w.ledger).1 in previous
    ensures forall e | e in OrderChanges(own, said, t.unread) :: Arises(codec, e, proposed, previous)
  {
    hide MasterRuns.SerialHash;
    hide Announcement, Counted, OrderChanges, Arises;
    forall i | 0 <= i < |said| ensures AnnouncedBehind(codec, block, said[i].net, previous) {
      assert Held(codec, block, own, log, start, said[i], t.rounds[i]);
      var w := log.waits[t.rounds[i].fetched];
      assert w in log.waits;
      var (height, hash) := LastOf(w.ledger);
      assert hash in previous && said[i].net == Announcement(codec, block, (height, hash));
    }
    OrderChangesArise(codec, block, own, said, t.unread, proposed, previous);
  }

  /** So in every run of masters that run this code no position has a vote against it. */
  lemma ArisingNeverOpposed(codec: Codec, events: seq<BallotEvent>, proposed: set<Block>, previous: set<bytes>)
    requires codec.CollisionFree() && Unnested(BodiesOf(proposed), previous)
    requires forall block | block in proposed :: block.hash == codec.sha256(block.body)
    requires forall e | e in events :: Arises(codec, e, proposed, previous)
    ensures forall p | p in HappenAll(NONE, events).positions :: p.no == 0
  {
    hide Arises, AsCoded, Raws, Unnested;
    forall e | e in events ensures AsCoded(codec, e, BodiesOf(proposed), previous) {
      ArisesIsCoded(codec, e, proposed, previous);
    }
    NeverOpposed(codec, NONE, events, BodiesOf(proposed), previous);
  }

  lemma {:induction false} RetainCounts<T>(xs: seq<T>, keep: T -> bool, x: T)
    ensures multiset(Retain(xs, keep))[x] == if keep(x) then multiset(xs)[x] else 0
    decreases |xs|
  {
    if xs != [] {
      RetainCounts(xs[1..], keep, x);
      assert xs == [xs[0]] + xs[1..];
    }
  }

  lemma {:induction false} RetainAll<T>(xs: seq<T>, keep: T -> bool)
    requires forall x | x in xs :: keep(x)
    ensures Retain(xs, keep) == xs
    decreases |xs|
  {
    if xs != [] {
      RetainAll(xs[1..], keep);
    }
  }

  /** Closing takes exactly the entries of the block, of the height or of the position, each as
      often as it is there. */
  lemma ClosesExactly(b: Ballots, hash: bytes, height: nat)
    ensures var b' := Happen(b, ClosePending(hash));
      && b'.positions == b.positions
      && forall p :: multiset(b'.pending)[p] == if p.hash == hash then 0 else multiset(b.pending)[p]
    ensures var b' := Happen(b, ClosePositionsAt(height));
      && b'.pending == b.pending
      && forall p :: multiset(b'.positions)[p] == if p.height == height then 0 else multiset(b.positions)[p]
    ensures var b' := Happen(b, ClosePositionsOf(hash));
      && b'.pending == b.pending
      && forall p :: multiset(b'.positions)[p] == if p.hash == hash then 0 else multiset(b.positions)[p]
  {
    hide Retain;
    forall p ensures multiset(Happen(b, ClosePending(hash)).pending)[p]
                     == if p.hash == hash then 0 else multiset(b.pending)[p]
    {
      RetainCounts(b.pending, ForOther(hash), p);
    }
    forall p ensures multiset(Happen(b, ClosePositionsAt(height)).positions)[p]
                     == if p.height == height then 0 else multiset(b.positions)[p]
    {
      RetainCounts(b.positions, NotAt(height), p);
    }
    forall p ensures multiset(Happen(b, ClosePositionsOf(hash)).positions)[p]
                     == if p.hash == hash then 0 else multiset(b.positions)[p]
    {
      RetainCounts(b.positions, NotOf(hash), p);
    }
  }

  /** An `ApprovedBlockTimeout` closes the positions whose serial hash is the raw hash of the block.
      Among masters that run this code there are none, so the entry that it has counted stays. */
  lemma TimeoutClosesNothing(codec: Codec, events: seq<BallotEvent>, proposed: set<Block>, previous: set<bytes>,
                             block: Block)
    requires codec.CollisionFree() && Unnested(BodiesOf(proposed), previous) && block in proposed
    requires forall other | other in proposed :: other.hash == codec.sha256(other.body)
    requires forall e | e in events :: Arises(codec, e, proposed, previous)
    ensures var b := HappenAll(NONE, events); Happen(b, ClosePositionsOf(block.hash)) == b
  {
    hide Arises, AsCoded, Unnested, HappenAll, Retain;
    var bodies, b := BodiesOf(proposed), HappenAll(NONE, events);
    forall e | e in events ensures AsCoded(codec, e, bodies, previous) {
      ArisesIsCoded(codec, e, proposed, previous);
    }
    NeverOpposed(codec, NONE, events, bodies, previous);
    assert block.body in bodies;
    assert block.hash in Raws(codec, bodies);
    RetainAll(b.positions, NotOf(block.hash));
  }

  /** Why an order vote gives up: only after all rounds, in each of which the announcement found too
      few peers or the first entry of its position had more votes against it than for it; or
      because gossiping broke, the ledger could not be read, or its entries were gone. */
  lemma OrderGivesUp(codec: Codec, block: Block, own: nat, retries: nat, log: Log, start: nat, said: seq<Message>,
                     t: OrderTrace, e: PublishError)
    requires OrderOutcome(codec, Some(block), own, retries, log, start, said, t, Err(e))
    ensures e != GeneralFailure
    ensures e == RejectedByVote && !t.unread ==>
      && |said| == retries + 1 && said[retries].outcome.Delivered?
      && forall i | 0 <= i <= retries && said[i].outcome.Delivered? ::
           var first := FirstPosition(t.rounds[i].seen.positions, MasterRuns.SerialHash(codec,
                          LastOf(log.waits[t.rounds[i].fetched].ledger).1, block.body));
           first.Some? && first.value.no > first.value.ok
    ensures e == ReqError ==>
      && said != [] && !t.unread
      && var last := |said| - 1;
         || said[last].outcome.Broken?
         || (said[last].outcome.InsufficientPeers? && |said| == retries + 1)
         || (said[last].outcome.Delivered? && FirstPosition(t.rounds[last].seen.positions, MasterRuns.SerialHash(codec,
               LastOf(log.waits[t.rounds[last].fetched].ledger).1, block.body)) == None)
    ensures |said| <= retries + 1
  {
    hide MasterRuns.SerialHash;
    hide Counted;
    forall i | 0 <= i < |said|
      ensures && t.rounds[i].fetched < |log.waits| && log.waits[t.rounds[i].fetched].ledger != []
              && said[i].net == Announcement(codec, block, LastOf(log.waits[t.rounds[i].fetched].ledger))
    {
      assert Held(codec, block, own, log, start, said[i], t.rounds[i]);
    }
    if e == RejectedByVote && !t.unread {
      forall i | 0 <= i < |said| - 1 ensures NoResult(said[i], t.rounds[i]) {
      }
    }
  }

  /** With unit weights a position is only returned for a block that in every entry had at least
      half of the votes when they were counted, and whose position had at least half of the votes
      of its first entry when those were counted, after that. The position follows the last
      block of the ledger as it was read in between. */
  lemma PublishedHasHalf(codec: Codec, hash: bytes, data: Option<Block>, retries: nat, log: Log, since: nat, start: nat,
                         t: PublishTrace, won: (nat, bytes))
    requires PublishOutcome(codec, hash, data, 1, retries, log, since, start, t, Ok(Some(won)))
    requires forall e | e in log.history :: Weighed(e, 1)
    ensures t.wait < |log.waits| && log.waits[t.wait].at <= |log.history|
    ensures forall p | p in At(log, log.waits[t.wait].at).pending && p.hash == hash :: 2 * p.ok >= p.voters
    ensures 1 <= |t.order.rounds| <= retries + 1
    ensures var last := t.order.rounds[|t.order.rounds| - 1];
      && t.wait < last.fetched < last.wait < |log.waits| && log.waits[last.wait].at <= |log.history|
      && log.waits[last.fetched].ledger != [] && data.Some?
      && (var read := LastOf(log.waits[last.fetched].ledger);
          won == (read.0 + 1, MasterRuns.SerialHash(codec, read.1, data.value.body)))
      && (var first := FirstPosition(At(log, log.waits[last.wait].at).positions, won.1);
          first.Some? && 2 * first.value.ok >= first.value.voters)
  {
    hide HappenAll;
    TalliedAt(log, log.waits[t.wait].at);
    var said, rounds := t.ordered, t.order.rounds;
    var last := |rounds| - 1;
    assert Held(codec, data.value, 1, log, t.wait + 1, said[last], rounds[last]);
    TalliedAt(log, log.waits[rounds[last].wait].at);
    FirstIsIn(rounds[last].seen.positions, won.1);
  }

  lemma TalliedAt(log: Log, k: nat)
    requires k <= |log.history| && forall e | e in log.history :: Weighed(e, 1)
    ensures Tallied(At(log, k))
  {
    hide Weighed;
    TalliedAlways(NONE, log.history[..k]);
  }

  lemma {:induction false} FirstIsIn(positions: seq<Position>, hash: bytes)
    ensures FirstPosition(positions, hash).Some? ==>
              FirstPosition(positions, hash).value in positions && FirstPosition(positions, hash).value.hash == hash
  {
    if positions != [] {
      FirstIsIn(positions[1..], hash);
    }
  }

  /** Among masters that run this code no position is ever outvoted: every delivered announcement
      ends it, and it is rejected only if the ledger cannot be read. */
  lemma OrderVoteNeverLost(codec: Codec, block: Block, own: nat, retries: nat, log: Log, start: nat,
                           said: seq<Message>, t: OrderTrace, r: Result<(nat, bytes), PublishError>,
                           bodies: set<bytes>, previous: set<bytes>)
    requires OrderOutcome(codec, Some(block), own, retries, log, start, said, t, r)
    requires codec.CollisionFree() && Unnested(bodies, previous)
    requires forall e | e in log.history :: AsCoded(codec, e, bodies, previous)
    ensures forall i | 0 <= i < |said| - 1 :: said[i].outcome.InsufficientPeers?
    ensures r == Err(RejectedByVote) ==> t.unread
  {
    hide MasterRuns.SerialHash;
    hide AsCoded, Raws, Unnested;
    forall i | 0 <= i < |said| && said[i].outcome.Delivered?
      ensures said[i].net.ArchiveBlock? && !Outvoted(FirstPosition(t.rounds[i].seen.positions, said[i].net.serial))
    {
      assert Held(codec, block, own, log, start, said[i], t.rounds[i]);
      var k := log.waits[t.rounds[i].wait].at;
      NeverOpposed(codec, NONE, log.history[..k], bodies, previous);
      FirstIsIn(t.rounds[i].seen.positions, said[i].net.serial);
    }
    assert forall i | 0 <= i < |said| - 1 :: NoResult(said[i], t.rounds[i]);
  }
}
