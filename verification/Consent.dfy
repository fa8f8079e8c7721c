/** Two parties running the friendship state machine over a network that loses, duplicates and
    reorders messages but does not forge them. */
module Consent {
  import opened Friendship

  datatype Party = Alice | Bob

  function Peer(p: Party): Party {
    if p == Alice then Bob else Alice
  }

  datatype Kind = RequestMsg | AcceptMsg | DeclineMsg | RevokeMsg

  datatype Message = Message(from: Party, kind: Kind)

  /** Both records, and every message ever sent: any of them may arrive at any later time, any
      number of times, or never. */
  datatype System = System(alice: FriendshipRecord, bob: FriendshipRecord, sent: set<Message>) {

    function Of(p: Party): FriendshipRecord {
      if p == Alice then alice else bob
    }
  }

  datatype Move =
    | Act(who: Party, event: Event)      // the local user acts
    | Arrive(msg: Message)               // a message reaches its recipient
    | Refresh(who: Party)                // a friend re-sends its accept with a fresh token

  predicate Local(e: Event) {
    e in {SendRequest, Accept, Decline, EnableLocation, DisableLocation, Unfriend}
  }

  function ArrivalEvent(k: Kind): Event {
    match k
    case RequestMsg => RecvRequest
    case AcceptMsg => RecvAccept
    case DeclineMsg => RecvDecline
    case RevokeMsg => RecvRevoke
  }

  function Emitted(who: Party, effects: seq<Effect>): set<Message> {
    (if EmitFriendRequest in effects then {Message(who, RequestMsg)} else {})
    + (if EmitFriendAccept in effects then {Message(who, AcceptMsg)} else {})
    + (if EmitFriendDecline in effects then {Message(who, DeclineMsg)} else {})
    + (if EmitLocationRevoke in effects then {Message(who, RevokeMsg)} else {})
  }

  ghost predicate Possible(s: System, m: Move) {
    match m
    case Act(who, event) => Local(event)
    case Arrive(msg) => msg in s.sent
    case Refresh(who) => s.Of(who).state == Friends
  }

  function Feed(s: System, who: Party, event: Event): System {
    var record := s.Of(who);
    var next := After(record, Apply(event));
    System(
      if who == Alice then next else s.alice,
      if who == Bob then next else s.bob,
      s.sent + Emitted(who, Effects(record, Apply(event))))
  }

  function Next(s: System, m: Move): System {
    match m
    case Act(who, event) => Feed(s, who, event)
    case Arrive(msg) => Feed(s, Peer(msg.from), ArrivalEvent(msg.kind))
    case Refresh(who) => s.(sent := s.sent + {Message(who, AcceptMsg)})
  }

  /** What a legal event of one party does to the system: its own record moves by the state machine,
      the other's stays, and exactly the message that the event stands for is sent. */
  lemma FeedMeans(s: System, who: Party, event: Event, msg: Message)
    ensures var legal := Transition(s.Of(who), event).Some?;
            var next := Feed(s, who, event);
            && next.Of(who) == (if legal then Transition(s.Of(who), event).value.0 else s.Of(who))
            && next.Of(Peer(who)) == s.Of(Peer(who))
            && (msg in next.sent <==>
                  || msg in s.sent
                  || (msg.from == who && legal &&
                      match msg.kind
                      case RequestMsg => event == SendRequest
                      case AcceptMsg => event == Accept
                      case DeclineMsg => event == Decline
                      case RevokeMsg =>
                        (event == DisableLocation || event == Unfriend) && s.Of(who).locationSharingEnabled))
  {
    if Transition(s.Of(who), event).Some? {
      EffectsOfEdges(s.Of(who), event);
    }
  }

  /** The moves there are: a user's own six events at any time; any message ever sent, which reaches
      the other party as the event it stands for; and, between friends, one more accept. */
  lemma MovesMean(s: System, p: Party, event: Event, kind: Kind)
    ensures Possible(s, Act(p, event)) <==> event !in {RecvRequest, RecvAccept, RecvDecline, RecvRevoke}
    ensures Possible(s, Arrive(Message(p, kind))) <==> Message(p, kind) in s.sent
    ensures Possible(s, Refresh(p)) <==> s.Of(p).state == Friends
    ensures Next(s, Act(p, event)) == Feed(s, p, event)
    ensures var arrives := match kind
                           case RequestMsg => RecvRequest
                           case AcceptMsg => RecvAccept
                           case DeclineMsg => RecvDecline
                           case RevokeMsg => RecvRevoke;
            Next(s, Arrive(Message(p, kind))) == Feed(s, Peer(p), arrives)
    ensures Peer(p) != p
    ensures Next(s, Refresh(p)) == System(s.alice, s.bob, s.sent + {Message(p, AcceptMsg)})
  {
  }

  predicate FreshSystem(s: System) {
    && s.sent == {}
    && s.alice.state == NoFriendship && !s.alice.locationSharingEnabled
    && s.bob.state == NoFriendship && !s.bob.locationSharingEnabled
  }

  function Run(start: System, moves: seq<Move>): System {
    if moves == [] then start else Next(Run(start, moves[..|moves| - 1]), moves[|moves| - 1])
  }

  /** A run in which every move was possible when it was made. */
  ghost predicate PossibleRun(start: System, moves: seq<Move>) {
    moves == [] ||
    (PossibleRun(start, moves[..|moves| - 1]) && Possible(Run(start, moves[..|moves| - 1]), moves[|moves| - 1]))
  }

  /** Move i is the party's own request or own acceptance, made when it was legal. */
  ghost predicate Consents(start: System, moves: seq<Move>, i: nat, p: Party)
    requires i < |moves|
  {
    && (moves[i] == Act(p, SendRequest) || moves[i] == Act(p, Accept))
    && Transition(Run(start, moves[..i]).Of(p), moves[i].event).Some?
  }

  /** The party consented at some point of the run. */
  ghost predicate HasConsented(start: System, moves: seq<Move>, p: Party)
  {
    exists i: nat :: i < |moves| && Consents(start, moves, i, p)
  }

  lemma ConsentStays(start: System, moves: seq<Move>, m: Move, p: Party)
    ensures HasConsented(start, moves, p) ==> HasConsented(start, moves + [m], p)
    ensures (m == Act(p, SendRequest) || m == Act(p, Accept)) && Transition(Run(start, moves).Of(p), m.event).Some?
            ==> HasConsented(start, moves + [m], p)
  {
    var more := moves + [m];
    if HasConsented(start, moves, p) {
      var i: nat :| i < |moves| && Consents(start, moves, i, p);
      assert more[..i] == moves[..i];
      assert Consents(start, more, i, p);
    }
    if (m == Act(p, SendRequest) || m == Act(p, Accept)) && Transition(Run(start, moves).Of(p), m.event).Some? {
      assert more[..|moves|] == moves;
      assert Consents(start, more, |moves|, p);
    }
  }

  /** What a party's state and messages say about who has consented. */
  predicate Told(s: System, p: Party, own: bool, peer: bool) {
    && (s.Of(p).state == Requested ==> own)
    && (s.Of(p).state == Pending ==> peer)
    && (s.Of(p).state == Friends ==> own && peer)
    && (s.Of(p).locationSharingEnabled ==> s.Of(p).state == Friends)
    && (Message(p, RequestMsg) in s.sent ==> own)
    && (Message(p, AcceptMsg) in s.sent ==> own && peer)
  }

  predicate BothTold(s: System, alice: bool, bob: bool) {
    Told(s, Alice, alice, bob) && Told(s, Bob, bob, alice)
  }

  lemma FeedTold(s: System, who: Party, event: Event, alice: bool, bob: bool, alice': bool, bob': bool)
    requires BothTold(s, alice, bob)
    requires (alice ==> alice') && (bob ==> bob')
    requires (event == SendRequest || event == Accept) && Transition(s.Of(who), event).Some? ==>
               if who == Alice then alice' else bob'
    requires event == RecvRequest ==> Message(Peer(who), RequestMsg) in s.sent
    requires event == RecvAccept ==> Message(Peer(who), AcceptMsg) in s.sent
    ensures BothTold(Feed(s, who, event), alice', bob')
  {
  }

  lemma {:induction false} AllTold(start: System, moves: seq<Move>)
    requires FreshSystem(start) && PossibleRun(start, moves)
    ensures BothTold(Run(start, moves), HasConsented(start, moves, Alice), HasConsented(start, moves, Bob))
  {
    if moves != [] {
      var init, m := moves[..|moves| - 1], moves[|moves| - 1];
      assert moves == init + [m];
      AllTold(start, init);
      ConsentStays(start, init, m, Alice);
      ConsentStays(start, init, m, Bob);
      var alice, bob := HasConsented(start, init, Alice), HasConsented(start, init, Bob);
      var alice', bob' := HasConsented(start, moves, Alice), HasConsented(start, moves, Bob);
      match m
      case Act(who, event) =>
        FeedTold(Run(start, init), who, event, alice, bob, alice', bob');
      case Arrive(msg) =>
        FeedTold(Run(start, init), Peer(msg.from), ArrivalEvent(msg.kind), alice, bob, alice', bob');
      case Refresh(who) =>
    }
  }

  /** Two-party consent: whatever is lost, duplicated or reordered, whenever either side is a
      friend or shares its location, both users have at some earlier point of the run themselves
      sent a request or accepted one. */
  lemma MutualConsent(start: System, moves: seq<Move>, p: Party)
    requires FreshSystem(start) && PossibleRun(start, moves)
    requires Run(start, moves).Of(p).state == Friends || Run(start, moves).Of(p).locationSharingEnabled
    ensures HasConsented(start, moves, Alice) && HasConsented(start, moves, Bob)
  {
    AllTold(start, moves);
  }

  /** The party was a friend at some point of the run. */
  ghost predicate WasFriends(start: System, moves: seq<Move>, p: Party) {
    exists i: nat :: i <= |moves| && Run(start, moves[..i]).Of(p).state == Friends
  }

  lemma WasFriendsStays(start: System, moves: seq<Move>, m: Move, p: Party)
    ensures WasFriends(start, moves, p) || Run(start, moves + [m]).Of(p).state == Friends
            ==> WasFriends(start, moves + [m], p)
  {
    var more := moves + [m];
    if WasFriends(start, moves, p) {
      var i: nat :| i <= |moves| && Run(start, moves[..i]).Of(p).state == Friends;
      assert more[..i] == moves[..i];
    } else if Run(start, more).Of(p).state == Friends {
      assert more[..|more|] == more;
    }
  }

  /** Only a user's own acceptance sends an accept, and it makes that user a friend. */
  lemma FeedAccept(s: System, who: Party, event: Event, p: Party)
    requires Message(p, AcceptMsg) !in s.sent && Message(p, AcceptMsg) in Feed(s, who, event).sent
    ensures who == p && Feed(s, who, event).Of(p).state == Friends
  {
  }

  /** Nobody becomes a friend through a peer that never was one: an accept on the network, fresh,
      late or repeated, stems from a moment when its sender was in FRIENDS. */
  lemma {:induction false} AcceptStemsFromFriend(start: System, moves: seq<Move>, p: Party)
    requires FreshSystem(start) && PossibleRun(start, moves)
    ensures Message(p, AcceptMsg) in Run(start, moves).sent ==> WasFriends(start, moves, p)
  {
    if moves != [] {
      var init, m := moves[..|moves| - 1], moves[|moves| - 1];
      assert moves == init + [m];
      AcceptStemsFromFriend(start, init, p);
      WasFriendsStays(start, init, m, p);
      var s := Run(start, init);
      if Message(p, AcceptMsg) in Next(s, m).sent && Message(p, AcceptMsg) !in s.sent {
        match m
        case Act(who, event) => FeedAccept(s, who, event, p);
        case Arrive(msg) => FeedAccept(s, Peer(msg.from), ArrivalEvent(msg.kind), p);
        case Refresh(who) => assert init[..|init|] == init;
      }
    }
  }

  // ----- when friendship is mutual -----

  /** Move i is the party's own action, made when it was legal. */
  ghost predicate Acts(start: System, moves: seq<Move>, i: nat, p: Party, event: Event)
    requires i < |moves|
  {
    moves[i] == Act(p, event) && Transition(Run(start, moves[..i]).Of(p), event).Some?
  }

  /** The party never did this when it was legal. */
  ghost predicate Never(start: System, moves: seq<Move>, p: Party, event: Event) {
    forall i: nat :: i < |moves| ==> !Acts(start, moves, i, p, event)
  }

  lemma NeverBefore(start: System, init: seq<Move>, m: Move, p: Party, event: Event)
    requires Never(start, init + [m], p, event)
    ensures Never(start, init, p, event)
    ensures m == Act(p, event) ==> Transition(Run(start, init).Of(p), event).None?
  {
    var moves := init + [m];
    forall i: nat | i < |init| ensures !Acts(start, init, i, p, event) {
      assert moves[..i] == init[..i];
      assert !Acts(start, moves, i, p, event);
    }
    assert moves[..|init|] == init;
    assert !Acts(start, moves, |init|, p, event);
  }

  /** Nobody declines and nobody unfriends. */
  ghost predicate NobodyTurnsAway(start: System, moves: seq<Move>) {
    forall p :: Never(start, moves, p, Decline) && Never(start, moves, p, Unfriend)
  }

  /** Only one side asks, and nobody turns the other away. */
  predicate Courtship(s: System, asker: Party) {
    var asked := Peer(asker);
    && (s.Of(asker).state == NoFriendship || s.Of(asker).state == Requested || s.Of(asker).state == Friends)
    && (s.Of(asked).state == NoFriendship || s.Of(asked).state == Pending || s.Of(asked).state == Friends)
    && Message(asked, RequestMsg) !in s.sent
    && Message(asker, DeclineMsg) !in s.sent && Message(asked, DeclineMsg) !in s.sent
    && (Message(asker, RequestMsg) in s.sent || s.Of(asked).state != NoFriendship ==> s.Of(asker).state != NoFriendship)
    && (Message(asked, AcceptMsg) in s.sent <==> s.Of(asked).state == Friends)
    && (s.Of(asker).state == Friends ==> s.Of(asked).state == Friends)
  }

  lemma AskerFed(s: System, asker: Party, event: Event)
    requires Courtship(s, asker)
    requires event == Decline || event == Unfriend ==> Transition(s.Of(asker), event).None?
    requires event != RecvRequest && event != RecvDecline
    requires event == RecvAccept ==> Message(Peer(asker), AcceptMsg) in s.sent
    ensures Courtship(Feed(s, asker, event), asker)
  {
  }

  lemma AskedFed(s: System, asker: Party, event: Event)
    requires Courtship(s, asker)
    requires event == SendRequest || event == Decline || event == Unfriend
             ==> Transition(s.Of(Peer(asker)), event).None?
    requires event == RecvRequest ==> Message(asker, RequestMsg) in s.sent
    requires event != RecvDecline
    ensures Courtship(Feed(s, Peer(asker), event), asker)
  {
  }

  /** In a courtship a friend's peer is a friend, or waits for the accept. */
  lemma CourtshipMeans(s: System, asker: Party, p: Party)
    requires Courtship(s, asker) && s.Of(p).state == Friends && s.Of(Peer(p)).state != Friends
    ensures s.Of(Peer(p)).state == Requested && Message(p, AcceptMsg) in s.sent
    ensures Next(s, Arrive(Message(p, AcceptMsg))).Of(Peer(p)).state == Friends
  {
  }

  lemma CourtshipGoesOn(s: System, asker: Party, m: Move)
    requires Courtship(s, asker) && Possible(s, m)
    requires m == Act(Peer(asker), SendRequest) ==> Transition(s.Of(Peer(asker)), SendRequest).None?
    requires m.Act? && (m.event == Decline || m.event == Unfriend) ==> Transition(s.Of(m.who), m.event).None?
    ensures Courtship(Next(s, m), asker)
  {
    match m
    case Act(who, event) =>
      if who == asker { AskerFed(s, asker, event); } else { AskedFed(s, asker, event); }
    case Arrive(msg) =>
      var event := ArrivalEvent(msg.kind);
      if Peer(msg.from) == asker { AskerFed(s, asker, event); } else { AskedFed(s, asker, event); }
    case Refresh(who) =>
  }

  lemma {:induction false} StaysCourtship(start: System, moves: seq<Move>, asker: Party)
    requires FreshSystem(start) && PossibleRun(start, moves)
    requires Never(start, moves, Peer(asker), SendRequest) && NobodyTurnsAway(start, moves)
    ensures Courtship(Run(start, moves), asker)
  {
    if moves != [] {
      var init, m := moves[..|moves| - 1], moves[|moves| - 1];
      assert moves == init + [m];
      NeverBefore(start, init, m, Peer(asker), SendRequest);
      forall p ensures Never(start, init, p, Decline) && Never(start, init, p, Unfriend) {
        NeverBefore(start, init, m, p, Decline);
        NeverBefore(start, init, m, p, Unfriend);
      }
      if m.Act? {
        NeverBefore(start, init, m, m.who, Decline);
        NeverBefore(start, init, m, m.who, Unfriend);
      }
      StaysCourtship(start, init, asker);
      CourtshipGoesOn(Run(start, init), asker, m);
    }
  }

  /** Friendship is mutual, or about to be: as long as at most one party asks and nobody declines or
      unfriends, a friend's peer is a friend as well, or waits for an accept that is on the network
      and makes it one whenever it arrives. */
  lemma FriendshipIsMutual(start: System, moves: seq<Move>, p: Party)
    requires FreshSystem(start) && PossibleRun(start, moves)
    requires Never(start, moves, Alice, SendRequest) || Never(start, moves, Bob, SendRequest)
    requires NobodyTurnsAway(start, moves)
    requires Run(start, moves).Of(p).state == Friends
    ensures var s := Run(start, moves);
            || s.Of(Peer(p)).state == Friends
            || (s.Of(Peer(p)).state == Requested && Message(p, AcceptMsg) in s.sent
                && Next(s, Arrive(Message(p, AcceptMsg))).Of(Peer(p)).state == Friends)
  {
    var asker := if Never(start, moves, Bob, SendRequest) then Alice else Bob;
    StaysCourtship(start, moves, asker);
    if Run(start, moves).Of(Peer(p)).state != Friends {
      CourtshipMeans(Run(start, moves), asker, p);
    }
  }

  /** A run of this kind in which Alice's and Bob's friendship ends up in these states. */
  ghost predicate EndsAs(start: System, moves: seq<Move>, alice: FriendshipState, bob: FriendshipState) {
    && PossibleRun(start, moves)
    && Run(start, moves).alice.state == alice && Run(start, moves).bob.state == bob
  }

  /** The party makes no such move at all. */
  ghost predicate Avoids(moves: seq<Move>, p: Party, event: Event) {
    forall i :: 0 <= i < |moves| ==> moves[i] != Act(p, event)
  }

  lemma AvoidsNever(start: System, moves: seq<Move>, p: Party, event: Event)
    requires Avoids(moves, p, event)
    ensures Never(start, moves, p, event)
  {
  }

  /** The states that possible moves pass through. */
  datatype Path = Path(states: seq<System>, moves: seq<Move>) {

    ghost predicate StepAt(i: nat)
      requires i < |moves| < |states|
    {
      Possible(states[i], moves[i]) && states[i + 1] == Next(states[i], moves[i])
    }

    ghost predicate Valid() {
      |states| == |moves| + 1 && forall i: nat :: i < |moves| ==> StepAt(i)
    }

    function End(): System
      requires |states| > 0
    {
      states[|states| - 1]
    }

    function Then(m: Move): (more: Path)
      requires |states| > 0
    {
      Path(states + [Next(End(), m)], moves + [m])
    }
  }

  /** One more possible move. */
  lemma Grows(path: Path, m: Move)
    requires path.Valid() && Possible(path.End(), m)
    ensures path.Then(m).Valid() && path.Then(m).End() == Next(path.End(), m)
    ensures path.Then(m).states[0] == path.states[0]
    ensures forall p, event :: Avoids(path.moves, p, event) && m != Act(p, event)
                               ==> Avoids(path.Then(m).moves, p, event)
  {
    var more := path.Then(m);
    forall i: nat | i < |more.moves| ensures more.StepAt(i) {
      if i < |path.moves| {
        assert path.StepAt(i);
      }
    }
  }

  lemma {:induction false} PathIsRun(path: Path)
    requires path.Valid()
    ensures PossibleRun(path.states[0], path.moves) && Run(path.states[0], path.moves) == path.End()
    decreases |path.moves|
  {
    if path.moves != [] {
      var n := |path.moves| - 1;
      var init := Path(path.states[..n + 1], path.moves[..n]);
      forall i: nat | i < n ensures init.StepAt(i) {
        assert path.StepAt(i);
      }
      PathIsRun(init);
      assert path.StepAt(n);
    }
  }

  /** Alice asks, and Bob gets to know. */
  lemma Asked(path: Path) returns (more: Path)
    requires path.Valid() && path.End().alice.state == NoFriendship && path.End().bob.state == NoFriendship
    ensures more.Valid() && more.states[0] == path.states[0]
    ensures more.End().alice.state == Requested && more.End().bob.state == Pending && path.End().sent <= more.End().sent
    ensures forall p, event :: Avoids(path.moves, p, event) && !(p == Alice && event == SendRequest)
                               ==> Avoids(more.moves, p, event)
  {
    var ask, arrive := Act(Alice, SendRequest), Arrive(Message(Alice, RequestMsg));
    Grows(path, ask);
    Grows(path.Then(ask), arrive);
    more := path.Then(ask).Then(arrive);
  }

  /** Bob answers. */
  lemma Answered(path: Path, answer: Event) returns (more: Path)
    requires path.Valid() && path.End().alice.state == Requested && path.End().bob.state == Pending
    requires answer == Accept || answer == Decline
    ensures more.Valid() && more.states[0] == path.states[0]
    ensures more.End().alice.state == Requested
    ensures more.End().bob.state == if answer == Accept then Friends else NoFriendship
    ensures more.End().sent == path.End().sent + {Message(Bob, if answer == Accept then AcceptMsg else DeclineMsg)}
    ensures forall p, event :: Avoids(path.moves, p, event) && !(p == Bob && event == answer)
                               ==> Avoids(more.moves, p, event)
  {
    Grows(path, Act(Bob, answer));
    more := path.Then(Act(Bob, answer));
  }

  /** A message of Bob's reaches Alice. */
  lemma Heard(path: Path, kind: Kind) returns (more: Path)
    requires path.Valid() && Message(Bob, kind) in path.End().sent && (kind == AcceptMsg || kind == DeclineMsg)
    ensures more.Valid() && more.states[0] == path.states[0]
    ensures more.End().bob == path.End().bob && more.End().sent == path.End().sent
    ensures var state := path.End().alice.state;
            more.End().alice.state ==
            if state != Requested then state else if kind == AcceptMsg then Friends else NoFriendship
    ensures forall p, event :: Avoids(path.moves, p, event) ==> Avoids(more.moves, p, event)
  {
    Grows(path, Arrive(Message(Bob, kind)));
    more := path.Then(Arrive(Message(Bob, kind)));
  }

  lemma Standing(start: System) returns (path: Path)
    ensures path.Valid() && path.states[0] == start == path.End()
    ensures forall p, event :: Avoids(path.moves, p, event)
  {
    path := Path([start], []);
  }

  lemma AskedAgain(path: Path) returns (more: Path)
    requires path.Valid() && path.End().alice.state == NoFriendship && path.End().bob.state == NoFriendship
    requires Message(Bob, DeclineMsg) in path.End().sent
    ensures more.Valid() && more.states[0] == path.states[0]
    ensures more.End().alice.state == NoFriendship && more.End().bob.state == Friends
    ensures forall p, event :: Avoids(path.moves, p, event) && event != SendRequest && event != Accept
                               ==> Avoids(more.moves, p, event)
    ensures Avoids(path.moves, Bob, SendRequest) ==> Avoids(more.moves, Bob, SendRequest)
  {
    more := Asked(path);
    more := Answered(more, Accept);
    more := Heard(more, DeclineMsg);
    more := Heard(more, AcceptMsg);
  }

  /** A decline can make friendship one-sided with only one side asking: repeated by the network, the
      decline of a first request meets the second one, which was accepted. */
  lemma OldDeclineOneSided(start: System) returns (moves: seq<Move>)
    requires FreshSystem(start)
    ensures EndsAs(start, moves, NoFriendship, Friends)
    ensures Never(start, moves, Bob, SendRequest)
    ensures Never(start, moves, Alice, Unfriend) && Never(start, moves, Bob, Unfriend)
  {
    var path := Standing(start);
    path := Asked(path);
    path := Answered(path, Decline);
    path := Heard(path, DeclineMsg);
    path := AskedAgain(path);
    PathIsRun(path);
    moves := path.moves;
    AvoidsNever(start, moves, Bob, SendRequest);
    AvoidsNever(start, moves, Alice, Unfriend);
    AvoidsNever(start, moves, Bob, Unfriend);
  }

  /** So can unfriending: the peer is not told that it is over. */
  lemma UnfriendedOneSided(start: System) returns (moves: seq<Move>)
    requires FreshSystem(start)
    ensures EndsAs(start, moves, Friends, Revoked)
    ensures Never(start, moves, Bob, SendRequest)
    ensures Never(start, moves, Alice, Decline) && Never(start, moves, Bob, Decline)
  {
    var path := Standing(start);
    path := Asked(path);
    path := Answered(path, Accept);
    path := Heard(path, AcceptMsg);
    Grows(path, Act(Bob, Unfriend));
    path := path.Then(Act(Bob, Unfriend));
    PathIsRun(path);
    moves := path.moves;
    AvoidsNever(start, moves, Bob, SendRequest);
    AvoidsNever(start, moves, Alice, Decline);
    AvoidsNever(start, moves, Bob, Decline);
  }

  /** Their requests cross. */
  lemma BothAsked(start: System) returns (path: Path)
    requires FreshSystem(start)
    ensures path.Valid() && path.states[0] == start
    ensures path.End().alice.state == Pending && path.End().bob.state == Pending
    ensures forall p, event :: event != SendRequest ==> Avoids(path.moves, p, event)
  {
    path := Standing(start);
    var ask := Act(Bob, SendRequest);
    Grows(path, ask);
    path := path.Then(ask);
    Grows(path, Act(Alice, SendRequest));
    path := path.Then(Act(Alice, SendRequest));
    assert path.End().alice.state == Requested && path.End().bob.state == Requested;
    Grows(path, Arrive(Message(Alice, RequestMsg)));
    path := path.Then(Arrive(Message(Alice, RequestMsg)));
    Grows(path, Arrive(Message(Bob, RequestMsg)));
    path := path.Then(Arrive(Message(Bob, RequestMsg)));
  }

  /** And when both ask, that alone can leave one side a friend and the other still asked: the accept
      came while the asked side had not decided, and is spent. */
  lemma BothAskedOneSided(start: System) returns (moves: seq<Move>)
    requires FreshSystem(start)
    ensures EndsAs(start, moves, Friends, Pending) && NobodyTurnsAway(start, moves)
  {
    var path := BothAsked(start);
    Grows(path, Act(Alice, Accept));
    path := path.Then(Act(Alice, Accept));
    Grows(path, Arrive(Message(Alice, AcceptMsg)));
    path := path.Then(Arrive(Message(Alice, AcceptMsg)));
    PathIsRun(path);
    moves := path.moves;
    forall p ensures Never(start, moves, p, Decline) && Never(start, moves, p, Unfriend) {
      AvoidsNever(start, moves, p, Decline);
      AvoidsNever(start, moves, p, Unfriend);
    }
  }

  /** What a run may contain: requests from both sides, legal declines, legal unfriending. */
  datatype Policy = Policy(crossing: bool, declining: bool, unfriending: bool) {

    ghost predicate Allows(start: System, moves: seq<Move>) {
      && (crossing || Never(start, moves, Alice, SendRequest) || Never(start, moves, Bob, SendRequest))
      && (declining || forall p :: Never(start, moves, p, Decline))
      && (unfriending || forall p :: Never(start, moves, p, Unfriend))
    }
  }

  /** If the party is a friend, so is its peer, or it waits for the party's accept, which is on the
      network. */
  predicate IsMutual(s: System, p: Party) {
    s.Of(p).state == Friends ==>
      || s.Of(Peer(p)).state == Friends
      || (s.Of(Peer(p)).state == Requested && Message(p, AcceptMsg) in s.sent)
  }

  /** Friendship is mutual in all possible runs that keep the policy. */
  ghost predicate KeepsMutual(start: System, policy: Policy) {
    forall moves, p :: PossibleRun(start, moves) && policy.Allows(start, moves) ==> IsMutual(Run(start, moves), p)
  }

  lemma BreaksMutual(start: System, policy: Policy, moves: seq<Move>, p: Party)
    requires PossibleRun(start, moves) && policy.Allows(start, moves) && !IsMutual(Run(start, moves), p)
    ensures !KeepsMutual(start, policy)
  {
  }

  lemma NoneAllowedIsMutual(start: System)
    requires FreshSystem(start)
    ensures KeepsMutual(start, Policy(false, false, false))
  {
    forall moves, p | PossibleRun(start, moves) && Policy(false, false, false).Allows(start, moves)
      ensures IsMutual(Run(start, moves), p)
    {
      if Run(start, moves).Of(p).state == Friends {
        FriendshipIsMutual(start, moves, p);
      }
    }
  }

  /** The exact condition: friendship is mutual in all runs from a fresh start that keep to what is
      allowed iff neither requests from both sides nor declines nor unfriending are. Each of the
      three alone can leave it one-sided. */
  lemma MutualIff(start: System, policy: Policy)
    requires FreshSystem(start)
    ensures KeepsMutual(start, policy) <==> !policy.crossing && !policy.declining && !policy.unfriending
  {
    if policy.crossing {
      var moves := BothAskedOneSided(start);
      BreaksMutual(start, policy, moves, Alice);
    } else if policy.declining {
      var moves := OldDeclineOneSided(start);
      BreaksMutual(start, policy, moves, Bob);
    } else if policy.unfriending {
      var moves := UnfriendedOneSided(start);
      BreaksMutual(start, policy, moves, Alice);
    } else {
      NoneAllowedIsMutual(start);
    }
  }
}
