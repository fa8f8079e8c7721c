/** The friendship state machine, and what every run of one record keeps. */
module Friendship {
  import opened ByteCodec
  import opened Wrappers

  datatype FriendshipState =
    | NoFriendship
    | Requested   // we asked, awaiting their consent
    | Pending     // they asked, awaiting ours
    | Friends
    | Revoked

  datatype Event =
    // the local user
    | SendRequest | Accept | Decline | EnableLocation | DisableLocation | Unfriend
    // the peer
    | RecvRequest | RecvAccept | RecvDecline | RecvRevoke

  datatype Effect =
    | EmitFriendRequest | EmitFriendAccept | EmitFriendDecline
    | IssueCapabilityToken | EmitLocationRevoke | PeerStoppedSharing

  datatype FriendshipRecord = FriendshipRecord(
    peerUsername: string,
    peerCurve25519Pub: Bytes,
    peerEd25519Pub: Bytes,
    state: FriendshipState,
    locationSharingEnabled: bool,
    capabilityTokensIssued: seq<Bytes>)

  /** The new record and the effects to perform; None where the program raises InvalidTransition. */
  function Transition(record: FriendshipRecord, event: Event): Option<(FriendshipRecord, seq<Effect>)> {
    match (event, record.state)
    case (SendRequest, NoFriendship) => Some((record.(state := Requested), [EmitFriendRequest]))
    case (RecvRequest, NoFriendship) => Some((record.(state := Pending), []))
    case (RecvRequest, Requested) => Some((record.(state := Pending), []))
    case (RecvAccept, Requested) => Some((record.(state := Friends), []))
    case (RecvAccept, Friends) => Some((record, []))
    case (RecvDecline, Requested) => Some((record.(state := NoFriendship), []))
    case (Accept, Pending) => Some((record.(state := Friends), [EmitFriendAccept]))
    case (Decline, Pending) => Some((record.(state := NoFriendship), [EmitFriendDecline]))
    case (EnableLocation, Friends) => Some((record.(locationSharingEnabled := true), [IssueCapabilityToken]))
    case (DisableLocation, Friends) =>
      if !record.locationSharingEnabled then Some((record, []))
      else Some((record.(locationSharingEnabled := false, capabilityTokensIssued := []), [EmitLocationRevoke]))
    case (RecvRevoke, Friends) => Some((record, [PeerStoppedSharing]))
    case (Unfriend, Friends) =>
      Some((record.(state := Revoked, locationSharingEnabled := false, capabilityTokensIssued := []),
            if record.locationSharingEnabled then [EmitLocationRevoke] else []))
    case _ => None
  }

  function RecordIssuedToken(record: FriendshipRecord, token: Bytes): FriendshipRecord {
    record.(capabilityTokensIssued := record.capabilityTokensIssued + [token])
  }

  // ----- the edges -----

  /** Twelve edges are legal and no others: from which state, by which event, to which state. */
  lemma LegalEdges(record: FriendshipRecord, event: Event, to: FriendshipState)
    ensures (Transition(record, event).Some? && Transition(record, event).value.0.state == to) <==>
            (record.state, event, to) in {
              (NoFriendship, SendRequest, Requested),
              (NoFriendship, RecvRequest, Pending),
              (Requested, RecvRequest, Pending),
              (Requested, RecvAccept, Friends),
              (Requested, RecvDecline, NoFriendship),
              (Pending, Accept, Friends),
              (Pending, Decline, NoFriendship),
              (Friends, RecvAccept, Friends),
              (Friends, EnableLocation, Friends),
              (Friends, DisableLocation, Friends),
              (Friends, RecvRevoke, Friends),
              (Friends, Unfriend, Revoked)}
  {
  }

  /** Who has to do what: each effect belongs to one event, and a revoke to what was shared. */
  lemma EffectsOfEdges(record: FriendshipRecord, event: Event)
    requires Transition(record, event).Some?
    ensures var effects := Transition(record, event).value.1;
            && |effects| <= 1
            && (EmitFriendRequest in effects <==> event == SendRequest)
            && (EmitFriendAccept in effects <==> event == Accept)
            && (EmitFriendDecline in effects <==> event == Decline)
            && (IssueCapabilityToken in effects <==> event == EnableLocation)
            && (PeerStoppedSharing in effects <==> event == RecvRevoke)
            && (EmitLocationRevoke in effects <==>
                  (event == DisableLocation || event == Unfriend) && record.locationSharingEnabled)
  {
  }

  /** What an edge does to the rest of the record: enabling shares, disabling and unfriending stop
      sharing and drop the tokens that were issued, and nothing else touches either; a repeated
      accept, a peer's revoke and disabling what is disabled change nothing at all. */
  lemma EdgeChanges(record: FriendshipRecord, event: Event)
    requires Transition(record, event).Some?
    ensures var next := Transition(record, event).value.0;
            && next.locationSharingEnabled == (event == EnableLocation
                 || (record.locationSharingEnabled && event != DisableLocation && event != Unfriend))
            && next.capabilityTokensIssued ==
               (if event == Unfriend || (event == DisableLocation && record.locationSharingEnabled) then []
                else record.capabilityTokensIssued)
            && ((|| event == RecvRevoke
                 || (event == RecvAccept && record.state == Friends)
                 || (event == DisableLocation && !record.locationSharingEnabled)) ==> next == record)
  {
  }

  // ----- runs of one record -----

  datatype Step = Apply(event: Event) | RecordToken(token: Bytes)

  /** An illegal event raises and leaves the record alone. */
  function After(record: FriendshipRecord, step: Step): FriendshipRecord {
    match step
    case Apply(event) => if Transition(record, event).Some? then Transition(record, event).value.0 else record
    case RecordToken(token) => RecordIssuedToken(record, token)
  }

  function Effects(record: FriendshipRecord, step: Step): seq<Effect> {
    if step.Apply? && Transition(record, step.event).Some? then Transition(record, step.event).value.1 else []
  }

  function RunFrom(start: FriendshipRecord, steps: seq<Step>): FriendshipRecord {
    if steps == [] then start else After(RunFrom(start, steps[..|steps| - 1]), steps[|steps| - 1])
  }

  /** Location revokes emitted over a run. */
  function RevokesEmitted(start: FriendshipRecord, steps: seq<Step>): nat {
    if steps == [] then 0
    else
      var init := steps[..|steps| - 1];
      RevokesEmitted(start, init)
      + if EmitLocationRevoke in Effects(RunFrom(start, init), steps[|steps| - 1]) then 1 else 0
  }

  /** Steps of a run that switched sharing from off to on. */
  function SwitchedOn(start: FriendshipRecord, steps: seq<Step>): nat {
    if steps == [] then 0
    else
      var init := steps[..|steps| - 1];
      SwitchedOn(start, init)
      + if !RunFrom(start, init).locationSharingEnabled && RunFrom(start, steps).locationSharingEnabled then 1 else 0
  }

  /** The run ends with a step that asked for a token to be issued. */
  predicate JustIssued(start: FriendshipRecord, steps: seq<Step>) {
    |steps| > 0 && IssueCapabilityToken in Effects(RunFrom(start, steps[..|steps| - 1]), steps[|steps| - 1])
  }

  /** Tokens are recorded only right after an issue effect. */
  predicate RecordsOnIssue(start: FriendshipRecord, steps: seq<Step>) {
    steps == [] ||
    (RecordsOnIssue(start, steps[..|steps| - 1])
     && (steps[|steps| - 1].RecordToken? ==> JustIssued(start, steps[..|steps| - 1])))
  }

  /** What one step can do to the sharing flag, and when it revokes. */
  lemma StepKeeps(record: FriendshipRecord, step: Step)
    requires record.locationSharingEnabled ==> record.state == Friends
    ensures var next := After(record, step);
            && (next.locationSharingEnabled ==> next.state == Friends)
            && (EmitLocationRevoke in Effects(record, step) <==>
                  record.locationSharingEnabled && !next.locationSharingEnabled)
            && next.peerUsername == record.peerUsername && next.peerCurve25519Pub == record.peerCurve25519Pub
            && next.peerEd25519Pub == record.peerEd25519Pub
            && (record.state == Revoked ==> next.state == Revoked && Effects(record, step) == [])
  {
  }

  /** In every run from a record that shares nothing: sharing implies friendship, and location
      revokes match sharing switches one for one, except for the switch still on. */
  lemma {:induction false} SharingLedger(start: FriendshipRecord, steps: seq<Step>)
    requires start.state == NoFriendship && !start.locationSharingEnabled
    ensures var r := RunFrom(start, steps);
            && (r.locationSharingEnabled ==> r.state == Friends)
            && RevokesEmitted(start, steps) + (if r.locationSharingEnabled then 1 else 0) == SwitchedOn(start, steps)
            && r.peerUsername == start.peerUsername && r.peerCurve25519Pub == start.peerCurve25519Pub
            && r.peerEd25519Pub == start.peerEd25519Pub
  {
    if steps != [] {
      SharingLedger(start, steps[..|steps| - 1]);
      StepKeeps(RunFrom(start, steps[..|steps| - 1]), steps[|steps| - 1]);
    }
  }

  /** Revoked is terminal: from there no step leaves it or revokes anything. */
  lemma {:induction false} RevokedForGood(start: FriendshipRecord, steps: seq<Step>, more: seq<Step>)
    requires RunFrom(start, steps).state == Revoked
    requires start.state == NoFriendship && !start.locationSharingEnabled
    ensures RunFrom(start, steps + more).state == Revoked
    ensures RevokesEmitted(start, steps + more) == RevokesEmitted(start, steps)
  {
    if more == [] {
      assert steps + more == steps;
    } else {
      var init := steps + more[..|more| - 1];
      var last := more[|more| - 1];
      assert steps + more == init + [last];
      assert (steps + more)[..|steps + more| - 1] == init;
      RevokedForGood(start, steps, more[..|more| - 1]);
      SharingLedger(start, init);
      StepKeeps(RunFrom(start, init), last);
    }
  }

  /** Recording a token keeps "stored tokens imply sharing" exactly when sharing is on: the
      operation itself does not look. */
  lemma RecordNeedsSharing(record: FriendshipRecord, token: Bytes)
    ensures var r := RecordIssuedToken(record, token);
            (r.capabilityTokensIssued != [] ==> r.locationSharingEnabled) <==> record.locationSharingEnabled
  {
    assert (record.capabilityTokensIssued + [token])[|record.capabilityTokensIssued|] == token;
  }

  predicate TokensFit(record: FriendshipRecord) {
    record.capabilityTokensIssued != [] ==> record.locationSharingEnabled
  }

  lemma ApplyKeepsTokens(record: FriendshipRecord, event: Event)
    requires TokensFit(record)
    ensures TokensFit(After(record, Apply(event)))
  {
  }

  lemma IssuingIsSharing(record: FriendshipRecord, step: Step)
    requires IssueCapabilityToken in Effects(record, step)
    ensures After(record, step).locationSharingEnabled
  {
  }

  lemma IssuedWhileSharing(start: FriendshipRecord, steps: seq<Step>)
    requires JustIssued(start, steps)
    ensures RunFrom(start, steps).locationSharingEnabled
  {
    IssuingIsSharing(RunFrom(start, steps[..|steps| - 1]), steps[|steps| - 1]);
  }

  /** When tokens are recorded only right after an issue effect, stored tokens imply sharing. */
  lemma {:induction false} TokensImplySharing(start: FriendshipRecord, steps: seq<Step>)
    requires start.capabilityTokensIssued == [] && RecordsOnIssue(start, steps)
    ensures TokensFit(RunFrom(start, steps))
  {
    if steps != [] {
      var init, last := steps[..|steps| - 1], steps[|steps| - 1];
      TokensImplySharing(start, init);
      if last.Apply? {
        ApplyKeepsTokens(RunFrom(start, init), last.event);
      } else {
        IssuedWhileSharing(start, init);
        RecordNeedsSharing(RunFrom(start, init), last.token);
      }
    }
  }

  /** Sharing is never a by-product: it is switched on by the user's own EnableLocation alone, and
      friendship is entered only through the user's Accept or a peer's accept of our request. */
  lemma OnlyByConsent(record: FriendshipRecord, step: Step)
    ensures !record.locationSharingEnabled && After(record, step).locationSharingEnabled ==>
              step == Apply(EnableLocation) && record.state == Friends
    ensures record.state != Friends && After(record, step).state == Friends ==>
              || (step == Apply(Accept) && record.state == Pending)
              || (step == Apply(RecvAccept) && record.state == Requested)
  {
  }

  // ----- what a run leaves behind -----

  /** Step i of the run was this event, and legal. */
  predicate Happens(start: FriendshipRecord, steps: seq<Step>, i: nat, event: Event)
    requires i < |steps|
  {
    steps[i] == Apply(event) && Transition(RunFrom(start, steps[..i]), event).Some?
  }

  /** Sharing was switched on at step i and not off since. */
  predicate OnSince(start: FriendshipRecord, steps: seq<Step>, i: nat) {
    && i < |steps| && Happens(start, steps, i, EnableLocation)
    && forall j: nat :: i < j < |steps| ==>
         !Happens(start, steps, j, DisableLocation) && !Happens(start, steps, j, Unfriend)
  }

  lemma HappensEarlier(start: FriendshipRecord, init: seq<Step>, last: Step, i: nat, event: Event)
    requires i < |init|
    ensures Happens(start, init + [last], i, event) <==> Happens(start, init, i, event)
  {
    assert (init + [last])[..i] == init[..i];
  }

  lemma HappensLast(start: FriendshipRecord, init: seq<Step>, last: Step, event: Event)
    ensures Happens(start, init + [last], |init|, event) <==>
            last == Apply(event) && Transition(RunFrom(start, init), event).Some?
  {
    assert (init + [last])[..|init|] == init;
  }

  lemma RunSnoc(start: FriendshipRecord, init: seq<Step>, last: Step)
    ensures RunFrom(start, init + [last]) == After(RunFrom(start, init), last)
  {
    assert (init + [last])[..|init|] == init;
  }

  lemma OnSinceStays(start: FriendshipRecord, init: seq<Step>, last: Step, i: nat)
    requires i < |init|
    ensures OnSince(start, init + [last], i) <==>
            && OnSince(start, init, i)
            && !Happens(start, init + [last], |init|, DisableLocation)
            && !Happens(start, init + [last], |init|, Unfriend)
  {
    var steps := init + [last];
    HappensEarlier(start, init, last, i, EnableLocation);
    forall j: nat | i < j < |init|
      ensures Happens(start, steps, j, DisableLocation) <==> Happens(start, init, j, DisableLocation)
      ensures Happens(start, steps, j, Unfriend) <==> Happens(start, init, j, Unfriend)
    {
      HappensEarlier(start, init, last, j, DisableLocation);
      HappensEarlier(start, init, last, j, Unfriend);
    }
  }

  /** What one step does to the sharing flag. */
  lemma StepShares(start: FriendshipRecord, init: seq<Step>, last: Step)
    ensures var steps := init + [last];
            RunFrom(start, steps).locationSharingEnabled <==>
            || Happens(start, steps, |init|, EnableLocation)
            || (RunFrom(start, init).locationSharingEnabled
                && !Happens(start, steps, |init|, DisableLocation) && !Happens(start, steps, |init|, Unfriend))
  {
    RunSnoc(start, init, last);
    HappensLast(start, init, last, EnableLocation);
    HappensLast(start, init, last, DisableLocation);
    HappensLast(start, init, last, Unfriend);
    if last.Apply? && Transition(RunFrom(start, init), last.event).Some? {
      EdgeChanges(RunFrom(start, init), last.event);
    }
  }

  /** Over every run: location is shared iff it was enabled while friends and neither disabled nor
      unfriended since. */
  lemma {:induction false} SharesIffEnabled(start: FriendshipRecord, steps: seq<Step>)
    requires !start.locationSharingEnabled
    ensures RunFrom(start, steps).locationSharingEnabled <==> exists i: nat :: OnSince(start, steps, i)
  {
    if steps != [] {
      var init, last := steps[..|steps| - 1], steps[|steps| - 1];
      assert steps == init + [last];
      SharesIffEnabled(start, init);
      StepShares(start, init, last);
      forall i: nat | i < |init| ensures OnSince(start, steps, i) ==> OnSince(start, init, i) {
        OnSinceStays(start, init, last, i);
      }
      if Happens(start, steps, |init|, EnableLocation) {
        assert OnSince(start, steps, |init|);
      } else if i: nat :| OnSince(start, init, i) {
        OnSinceStays(start, init, last, i);
      }
      if i: nat :| i < |init| && OnSince(start, steps, i) {
        OnSinceStays(start, init, last, i);
      }
    }
  }

  /** The tokens recorded since sharing was last taken back. */
  function RecordedSince(start: FriendshipRecord, steps: seq<Step>): seq<Bytes> {
    if steps == [] then start.capabilityTokensIssued
    else
      var init, last := steps[..|steps| - 1], steps[|steps| - 1];
      var n := |steps| - 1;
      match last
      case RecordToken(token) => RecordedSince(start, init) + [token]
      case Apply(_) =>
        if Happens(start, steps, n, Unfriend)
           || (Happens(start, steps, n, DisableLocation) && RunFrom(start, init).locationSharingEnabled)
        then []
        else RecordedSince(start, init)
  }

  /** Over every run: the record holds exactly the tokens recorded since, in order. */
  lemma {:induction false} TokensAreRecorded(start: FriendshipRecord, steps: seq<Step>)
    ensures RunFrom(start, steps).capabilityTokensIssued == RecordedSince(start, steps)
  {
    if steps != [] {
      var init, last := steps[..|steps| - 1], steps[|steps| - 1];
      TokensAreRecorded(start, init);
      if last.Apply? && Transition(RunFrom(start, init), last.event).Some? {
        EdgeChanges(RunFrom(start, init), last.event);
      }
    }
  }
}
