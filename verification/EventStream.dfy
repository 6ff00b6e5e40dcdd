/**
 * The server-sent event stream of one run: an initial snapshot, then bus messages and heartbeats,
 * each heartbeat (and each forwarded completion) re-reading the durable state.
 */
module EventStream {
  import opened Options
  import opened RunRecords

  datatype Snapshot = Snapshot(status: RunStatus, processingComplete: bool)

  datatype EventType = DiscoveryCompleted | ProcessingCompleted | Other
  datatype BusEvent = BusEvent(eventType: EventType, ownRun: bool)

  /** One turn of the bus: a disconnected client, a heartbeat, or a message; `latest` is what a
      durable read at that moment returns. */
  datatype Turn =
    | Disconnected
    | Heartbeat(latest: Snapshot)
    | Message(event: BusEvent, latest: Snapshot)

  datatype Frame = Synthesized | Forwarded(event: BusEvent) | KeepAlive

  datatype Ending = Open | AtConnect | OnDisconnect | OnHeartbeat | OnMessage

  predicate CompletionFrame(f: Frame) {
    f.Synthesized? || (f.Forwarded? && f.event.eventType.DiscoveryCompleted?)
  }

  predicate CompletionSent(frames: seq<Frame>) {
    exists i :: 0 <= i < |frames| && CompletionFrame(frames[i])
  }

  predicate Consistent(s: Snapshot) {
    s.processingComplete ==> Terminal(s.status)
  }

  function Latest(t: Turn): Option<Snapshot> {
    match t
    case Disconnected => None
    case Heartbeat(s) => Some(s)
    case Message(_, s) => Some(s)
  }

  predicate Ends(t: Turn) {
    || t.Disconnected?
    || (t.Heartbeat? && t.latest.processingComplete)
    || (t.Message? && t.event.ownRun
        && (t.event.eventType.ProcessingCompleted?
            || (t.event.eventType.DiscoveryCompleted? && t.latest.processingComplete)))
  }

  function OwnMessages(turns: seq<Turn>): seq<BusEvent> {
    if turns == [] then []
    else
      var init, last := OwnMessages(turns[..|turns| - 1]), turns[|turns| - 1];
      if last.Message? && last.event.ownRun then init + [last.event] else init
  }

  function ForwardedEvents(frames: seq<Frame>): seq<BusEvent> {
    if frames == [] then []
    else
      var init, last := ForwardedEvents(frames[..|frames| - 1]), frames[|frames| - 1];
      if last.Forwarded? then init + [last.event] else init
  }

  lemma SendFrame(frames: seq<Frame>, f: Frame)
    ensures CompletionSent(frames + [f]) <==> CompletionSent(frames) || CompletionFrame(f)
    ensures ForwardedEvents(frames + [f]) == ForwardedEvents(frames) + if f.Forwarded? then [f.event] else []
  {
    var longer := frames + [f];
    assert longer[..|frames|] == frames;
    if CompletionSent(frames) {
      var i :| 0 <= i < |frames| && CompletionFrame(frames[i]);
      assert longer[i] == frames[i];
    }
    if CompletionFrame(f) { assert CompletionFrame(longer[|frames|]); }
  }

  lemma EmptyFrames()
    ensures !CompletionSent([]) && ForwardedEvents([]) == []
  {
  }

  /** The client has reason to be told, within these turns, that the run is over: it was when the client
      connected, some heartbeat saw so, or the run's own completion message came. */
  predicate Told(first: Snapshot, turns: seq<Turn>) {
    || Terminal(first.status)
    || (exists i :: 0 <= i < |turns| && turns[i].Heartbeat? && Terminal(turns[i].latest.status))
    || (exists i :: 0 <= i < |turns| && turns[i].Message? && turns[i].event == BusEvent(DiscoveryCompleted, true))
  }

  /** What a turn sends after some others: a heartbeat tells of a run found over unless the client knows, and
      otherwise keeps the connection alive unless it ends the stream; messages pass if they are the run's. */
  function FramesFor(first: Snapshot, before: seq<Turn>, turn: Turn): seq<Frame> {
    match turn
    case Disconnected => []
    case Heartbeat(latest) =>
      if Terminal(latest.status) && !Told(first, before) then [Synthesized]
      else if latest.processingComplete then [] else [KeepAlive]
    case Message(event, _) => if event.ownRun then [Forwarded(event)] else []
  }

  function FramesOf(first: Snapshot, turns: seq<Turn>): seq<Frame> {
    if turns == [] then (if Terminal(first.status) then [Synthesized] else [])
    else
      var before := turns[..|turns| - 1];
      FramesOf(first, before) + FramesFor(first, before, turns[|turns| - 1])
  }

  lemma ToldStep(first: Snapshot, before: seq<Turn>, turn: Turn)
    ensures Told(first, before + [turn]) <==>
      || Told(first, before)
      || (turn.Heartbeat? && Terminal(turn.latest.status))
      || (turn.Message? && turn.event == BusEvent(DiscoveryCompleted, true))
  {
    var turns := before + [turn];
    assert turns[|before|] == turn && forall i :: 0 <= i < |before| ==> turns[i] == before[i];
  }

  /** No frame tells a client of the end that it was told of before. */
  predicate ToldOnce(frames: seq<Frame>) {
    forall i, j :: 0 <= i < j < |frames| && CompletionFrame(frames[i]) ==> frames[j] != Synthesized
  }

  /** The client is sent discovery.completed exactly when there is reason to, by the server's own hand at most
      once and never after the run's own message; and it is forwarded the run's own messages. */
  lemma {:induction false} FramesMeaning(first: Snapshot, turns: seq<Turn>)
    ensures CompletionSent(FramesOf(first, turns)) <==> Told(first, turns)
    ensures ToldOnce(FramesOf(first, turns))
    ensures ForwardedEvents(FramesOf(first, turns)) == OwnMessages(turns)
  {
    hide Told, CompletionSent, ForwardedEvents;
    EmptyFrames();
    if turns == [] {
      SendFrame([], Synthesized);
      assert [] + [Synthesized] == [Synthesized];
      NothingTold(first);
    } else {
      var before, turn := turns[..|turns| - 1], turns[|turns| - 1];
      assert turns == before + [turn];
      FramesMeaning(first, before);
      ToldStep(first, before, turn);
      var frames, sent := FramesOf(first, before), FramesFor(first, before, turn);
      if sent != [] {
        SendFrame(frames, sent[0]);
        NotToldTwice(frames, sent[0]);
        assert sent == [sent[0]];
      } else {
        assert frames + sent == frames;
      }
    }
  }

  lemma NothingTold(first: Snapshot)
    ensures Told(first, []) <==> Terminal(first.status)
  {
  }

  lemma NotToldTwice(frames: seq<Frame>, f: Frame)
    requires ToldOnce(frames) && (f == Synthesized ==> !CompletionSent(frames))
    ensures ToldOnce(frames + [f])
  {
  }

  /**
   * Runs the stream over a finite stretch of bus turns. It stops at exactly the first turn that ends
   * it; in particular the first heartbeat after processing is complete ends it. Until then it sends what
   * each turn asks for, in order: discovery.completed exactly when the run was over at connection, a
   * heartbeat saw so or its own message came, made up at most once, and the run's own messages.
   */
  method StreamEvents(first: Snapshot, turns: seq<Turn>) returns (frames: seq<Frame>, used: nat, ending: Ending)
    requires Consistent(first)
    requires forall i :: 0 <= i < |turns| && Latest(turns[i]).Some? ==> Consistent(Latest(turns[i]).value)
    ensures ending.AtConnect? <==> first.processingComplete
    ensures used <= |turns| && (ending.AtConnect? ==> used == 0)
    ensures ending.Open? ==> used == |turns| && forall i :: 0 <= i < used ==> !Ends(turns[i])
    ensures !ending.Open? && !ending.AtConnect? ==>
      0 < used && Ends(turns[used - 1]) && forall i :: 0 <= i < used - 1 ==> !Ends(turns[i])
    ensures ending.OnHeartbeat? <==> !ending.AtConnect? && 0 < used && turns[used - 1].Heartbeat? && Ends(turns[used - 1])
    ensures forall i :: 0 <= i < used && turns[i].Heartbeat? ==>
      (turns[i].latest.processingComplete <==> ending.OnHeartbeat? && i == used - 1)
    ensures forall i :: 0 <= i < used && turns[i].Message? && turns[i].event == BusEvent(ProcessingCompleted, true) ==>
      ending.OnMessage? && i == used - 1
    ensures ending.OnMessage? ==>
      && turns[used - 1].Message? && turns[used - 1].event.ownRun
      && (turns[used - 1].event.eventType == ProcessingCompleted
          || (turns[used - 1].event.eventType == DiscoveryCompleted && turns[used - 1].latest.processingComplete))
    ensures ending.OnDisconnect? <==> !ending.AtConnect? && 0 < used && turns[used - 1].Disconnected?
    ensures frames == FramesOf(first, turns[..used])
    ensures CompletionSent(frames) <==> Told(first, turns[..used])
    ensures ToldOnce(frames) && ForwardedEvents(frames) == OwnMessages(turns[..used])
  {
    hide CompletionSent, ForwardedEvents, Told;
    frames, used := [], 0;
    NothingTold(first);
    FramesMeaning(first, []);
    assert turns[..0] == [];
    var completionSent := Terminal(first.status);
    if completionSent {
      frames := frames + [Synthesized];
      if first.processingComplete {
        return frames, 0, AtConnect;
      }
    }
    while used < |turns|
      invariant used <= |turns|
      invariant forall i :: 0 <= i < used ==> !Ends(turns[i])
      invariant completionSent <==> Told(first, turns[..used])
      invariant frames == FramesOf(first, turns[..used])
    {
      var turn := turns[used];
      assert turns[..used + 1] == turns[..used] + [turn] && turns[..used + 1][..used] == turns[..used];
      ToldStep(first, turns[..used], turn);
      FramesMeaning(first, turns[..used + 1]);
      used := used + 1;
      match turn
      case Disconnected =>
        return frames, used, OnDisconnect;
      case Heartbeat(latest) =>
        if Terminal(latest.status) && !completionSent {
          frames := frames + [Synthesized];
          completionSent := true;
          if latest.processingComplete {
            return frames, used, OnHeartbeat;
          }
        } else if latest.processingComplete {
          return frames, used, OnHeartbeat;
        } else {
          frames := frames + [KeepAlive];
        }
      case Message(event, latest) =>
        if event.ownRun {
          frames := frames + [Forwarded(event)];
          if event.eventType.DiscoveryCompleted? {
            completionSent := true;
            if latest.processingComplete {
              return frames, used, OnMessage;
            }
          }
          if event.eventType.ProcessingCompleted? {
            return frames, used, OnMessage;
          }
        }
    }
    FramesMeaning(first, turns[..used]);
    assert turns[..used] == turns;
    ending := Open;
  }
}
