/** The streams of a session, from the packets that it sends to a reader on the other side. */
module SessionStreams {
  import opened Common
  import opened Frames
  import opened FrameSorter
  import opened StreamReader
  import opened StreamRuns
  import opened Descent
  import opened EndToEnd
  import opened StreamFramer
  import opened PacketPacker
  import opened SessionSends
  import SenderRuns
  import Writer = StreamWriter

  /** Everything that arrives is a STREAM frame of the stream in a packet that was sent. */
  ghost predicate OnlySent(events: seq<StreamRuns.Event>, log: seq<Packed>, id: nat) {
    forall i | 0 <= i < |events| && events[i].Arrive? :: IsSent(events[i].frame, log, id)
  }

  ghost predicate IsSent(f: StreamFrame, log: seq<Packed>, id: nat) {
    f.streamID == id && exists p | p in log :: Stream(f) in p.frames
  }

  lemma {:induction false} InFramesOf(fs: seq<StreamFrame>, f: StreamFrame, id: nat)
    requires f in fs && f.streamID == id
    ensures f in FramesOf(fs, id)
  {
    var n := |fs| - 1;
    if f != fs[n] {
      assert fs == fs[..n] + [fs[n]];
      InFramesOf(fs[..n], f, id);
    }
  }

  /** A frame comes from a frame of its own stream. */
  lemma ComesFromOwn(f: StreamFrame, made: seq<StreamFrame>, id: nat)
    requires ComesFrom(f, made) && f.streamID == id
    ensures ComesFrom(f, FramesOf(made, id))
  {
    hide DescendsFrom, FramesOf;
    var g, cuts :| g in made && DescendsFrom(f, g, cuts);
    DescendsInStream(f, g, cuts);
    InFramesOf(made, g, id);
  }

  lemma SentComesFrom(f: StreamFrame, log: seq<Packed>, made: seq<StreamFrame>, id: nat)
    requires LogFrom(log, made) && IsSent(f, log, id)
    ensures ComesFrom(f, FramesOf(made, id))
  {
    hide ComesFrom, FramesOf;
    var p :| p in log && Stream(f) in p.frames;
    InStreamFrames(p.frames, f);
    ComesFromOwn(f, made, id);
  }

  /** What a stream has made is what the session has recorded of it. */
  lemma SentOf(session: Session, id: nat)
    requires session.Valid() && id in session.packer.framer.streams
    ensures var s := session.packer.framer.streams[id];
      s.Valid() && s.sent == FramesOf(session.made, id) && LogFrom(session.log, session.made)
  {
    hide SenderRuns.Ready, Session.Remembered, Session.Logged, FramesOf, Writer.Stream.Valid, Counted;
  }

  /** Every STREAM frame on the wire comes from a frame that was made of its stream. */
  lemma ArrivalsComeFrom(session: Session, id: nat, events: seq<StreamRuns.Event>)
    requires session.Valid() && id in session.packer.framer.streams && OnlySent(events, session.log, id)
    ensures AllFrom(events, session.packer.framer.streams[id].sent)
  {
    hide ComesFrom, FramesOf, LogFrom, IsSent, Session.Valid;
    SentOf(session, id);
    forall i | 0 <= i < |events| && events[i].Arrive?
      ensures ComesFrom(events[i].frame, session.packer.framer.streams[id].sent)
    {
      SentComesFrom(events[i].frame, session.log, session.made, id);
    }
  }

  /**
   Whatever the network does with the packets of a session, and however often their frames were cut and sent again: the
   reader of a stream gets a prefix of what was written to it. If no bytes were written after a FIN, and no FIN arrives
   in a frame whose end is cut off, a reader that is stopped by a FIN has got everything; and with room to spare it is
   stopped once every frame has arrived, the FIN among them.
   */
  method TransferStream(ghost session: Session, ghost id: nat, events: seq<StreamRuns.Event>, n: nat)
    returns (out: seq<byte>, early: nat, status: ReadStatus, ok: bool)
    requires session.Valid() && id in session.packer.framer.streams && OnlySent(events, session.log, id)
    requires |session.packer.framer.streams[id].written| < MAX_BYTE_COUNT
    ensures var s := session.packer.framer.streams[id];
      && out <= s.written
      && (ok && !s.late && NoneCut(events) && status == Eof ==> out == s.written)
      && (ok && !s.late && s.finSent && AllArrive(events, s.sent) && |s.written| < early + n ==> status == Eof)
  {
    hide *;
    ArrivalsComeFrom(session, id, events);
    SentOf(session, id);
    out, early, status, ok := Transfer(session.packer.framer.streams[id], events, n);
  }
}
