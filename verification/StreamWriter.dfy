/** The sending side of a stream (stream.go). */
module StreamWriter {
  import opened Common

  /** The frames are the bytes from the first to the last, without a gap and without an overlap. */
  ghost predicate Covers(frames: seq<StreamFrame>, id: nat, bytes: seq<byte>) {
    if frames == [] then bytes == []
    else
      var f := frames[|frames| - 1];
      && f.streamID == id && |f.data| <= |bytes| && f.offset == |bytes| - |f.data| && f.data == bytes[f.offset..]
      && Covers(frames[..|frames| - 1], id, bytes[..f.offset])
  }

  lemma {:induction false} SentInside(frames: seq<StreamFrame>, id: nat, bytes: seq<byte>, f: StreamFrame)
    requires Covers(frames, id, bytes) && f in frames
    ensures f.offset + |f.data| <= |bytes|
  {
    var n := |frames| - 1;
    if f != frames[n] { SentInside(frames[..n], id, bytes[..frames[n].offset], f); }
  }

  lemma CoversOneMore(frames: seq<StreamFrame>, id: nat, bytes: seq<byte>, f: StreamFrame)
    requires Covers(frames, id, bytes) && f.streamID == id && f.offset == |bytes|
    ensures Covers(frames + [f], id, bytes + f.data)
  {
    assert (frames + [f])[..|frames|] == frames;
    assert (bytes + f.data)[..f.offset] == bytes && (bytes + f.data)[f.offset..] == f.data;
  }

  /**
   FIN is sent once at most. It is at the end of what was written, or before it if bytes were written afterwards. A
   frame without bytes is a FIN.
   */
  ghost predicate OneFin(frames: seq<StreamFrame>, finSent: bool, late: bool, length: nat) {
    && (forall f | f in frames :: (f.data != [] || f.fin) && (f.fin ==> finSent && FinPlace(f, late, length)))
    && (forall i, j | 0 <= i < j < |frames| :: !(frames[i].fin && frames[j].fin))
    && (finSent ==> exists f | f in frames :: f.fin) && (late ==> finSent)
  }

  ghost predicate FinPlace(f: StreamFrame, late: bool, length: nat) {
    if late then f.offset + |f.data| < length else f.offset + |f.data| == length
  }

  lemma OneFinOneMore(frames: seq<StreamFrame>, finSent: bool, late: bool, length: nat, f: StreamFrame)
    requires OneFin(frames, finSent, late, length) && (f.data != [] || f.fin)
    requires f.fin ==> !finSent && f.offset + |f.data| == length
    ensures OneFin(frames + [f], finSent || f.fin, late, length)
  {
    var all := frames + [f];
    if f.fin {
      assert f in all;
    } else if finSent {
      var g :| g in frames && g.fin;
      assert g in all;
    }
  }

  lemma OneFinLater(frames: seq<StreamFrame>, finSent: bool, late: bool, length: nat, more: nat)
    requires OneFin(frames, finSent, late, length) && more > 0
    ensures OneFin(frames, finSent, late || finSent, length + more)
  {
  }

  class Stream {
    const streamID: nat
    var dataForWriting: Option<seq<byte>>
    var writeOffset: nat
    var finishedWriting: bool
    var finSent: bool
    var failed: bool

    /** What was given to Write, and the frames that were made of it. */
    ghost var written: seq<byte>
    ghost var sent: seq<StreamFrame>

    /** Bytes were written after FIN was sent. */
    ghost var late: bool

    ghost predicate Valid()
      reads this
    {
      && streamID < 0x1_0000_0000 && writeOffset <= |written| < TWO_64
      && dataForWriting == (if writeOffset == |written| then None else Some(written[writeOffset..]))
      && Covers(sent, streamID, written[..writeOffset]) && OneFin(sent, finSent, late, |written|)
    }

    constructor (id: nat)
      requires id < 0x1_0000_0000
      ensures Valid() && streamID == id && written == [] && sent == [] && writeOffset == 0 && !late
      ensures !finishedWriting && !finSent && !failed
    {
      streamID := id;
      dataForWriting, writeOffset, finishedWriting, finSent, failed := None, 0, false, false, false;
      written, sent, late := [], [], false;
    }

    /**
     Hands data to the stream. Calls do not overlap: each waits until the data of the one before is taken or an error
     occurs.
     */
    method Write(p: seq<byte>) returns (accepted: bool)
      requires Valid() && (dataForWriting == None || failed) && |written| + |p| < TWO_64
      modifies this`dataForWriting, this`written, this`late
      ensures Valid() && accepted == !failed
      ensures written == old(written) + if failed then [] else p
      ensures late == (old(late) || (finSent && written != old(written)))
    {
      if failed {
        return false;
      }
      if |p| == 0 {
        return true;
      }
      assert (written + p)[..writeOffset] == written[..writeOffset] && (written + p)[writeOffset..] == p;
      OneFinLater(sent, finSent, late, |written|, |p|);
      dataForWriting := Some(p);
      written, late := written + p, late || finSent;
      return true;
    }

    /** FIN lies before the end of what was written if and only if bytes were written after it was sent. */
    lemma LateIsEarlyFin()
      requires Valid()
      ensures late <==> exists f | f in sent :: f.fin && f.offset + |f.data| != |written|
      ensures finSent && !late ==>
        writeOffset == |written| && exists f | f in sent :: f.fin && f.offset + |f.data| == |written|
    {
      if finSent {
        var f :| f in sent && f.fin;
        assert FinPlace(f, late, |written|);
        SentInside(sent, streamID, written[..writeOffset], f);
      }
    }

    function LenOfDataForWriting(): nat
      reads this
    {
      if failed || dataForWriting == None then 0 else |dataForWriting.value|
    }

    /** Takes the next bytes, at most so many. The frame for them must follow. */
    method GetDataForWriting(maxBytes: nat) returns (data: Option<seq<byte>>)
      requires Valid()
      modifies this`dataForWriting, this`writeOffset
      ensures data == None <==> failed || old(dataForWriting) == None
      ensures data == None ==> writeOffset == old(writeOffset) && dataForWriting == old(dataForWriting)
      ensures data.Some? ==>
        && writeOffset == old(writeOffset) + Min(maxBytes, |written| - old(writeOffset)) <= |written|
        && data.value == written[old(writeOffset)..writeOffset]
        && dataForWriting == if writeOffset == |written| then None else Some(written[writeOffset..])
    {
      if failed {
        return None;
      }
      if dataForWriting == None {
        return None;
      }
      var ret;
      if |dataForWriting.value| > maxBytes {
        ret := dataForWriting.value[..maxBytes];
        dataForWriting := Some(dataForWriting.value[maxBytes..]);
      } else {
        ret := dataForWriting.value;
        dataForWriting := None;
      }
      writeOffset := writeOffset + |ret|;
      return Some(ret);
    }

    method Close()
      requires Valid()
      modifies this`finishedWriting
      ensures Valid() && finishedWriting
    {
      finishedWriting := true;
    }

    method Cancel()
      requires Valid()
      modifies this`failed
      ensures Valid() && failed
    {
      failed := true;
    }

    predicate ShouldSendFin()
      reads this
    {
      finishedWriting && !finSent && !failed && dataForWriting == None
    }

    /** A frame for the bytes that were taken last, with FIN if nothing else is to come. */
    method MakeFrame(ghost offset: nat, data: seq<byte>, fin: bool) returns (f: StreamFrame)
      requires offset + |data| == writeOffset <= |written| < TWO_64 && streamID < 0x1_0000_0000
        && data == written[offset..writeOffset]
      requires Covers(sent, streamID, written[..offset]) && OneFin(sent, finSent, late, |written|)
      requires (data != [] || fin) && (fin ==> !finSent && writeOffset == |written|)
      requires dataForWriting == if writeOffset == |written| then None else Some(written[writeOffset..])
      modifies this`finSent, this`sent
      ensures f == StreamFrame(streamID, fin, true, offset, data) && Valid() && sent == old(sent) + [f]
        && finSent == (old(finSent) || fin)
    {
      hide Covers, OneFin;
      f := StreamFrame(streamID, fin, true, writeOffset - |data|, data);
      CoversOneMore(sent, streamID, written[..offset], f);
      OneFinOneMore(sent, finSent, late, |written|, f);
      assert written[..offset] + data == written[..writeOffset];
      if fin {
        finSent := true;
      }
      sent := sent + [f];
    }

    /** The next frame of at most so many bytes, if there is data or a FIN to send. */
    method NextFrame(maxLen: nat) returns (frame: Option<StreamFrame>)
      requires Valid() && maxLen > 0
      modifies this`dataForWriting, this`writeOffset, this`finSent, this`sent
      ensures Valid()
      ensures frame == None ==>
        writeOffset == old(writeOffset) && sent == old(sent) && finSent == old(finSent)
        && dataForWriting == old(dataForWriting)
      ensures frame == None <==> old(LenOfDataForWriting()) == 0 && !old(ShouldSendFin())
      ensures frame.Some? ==> var f := frame.value;
        && f.streamID == streamID < 0x1_0000_0000 && f.dataLenPresent && f.offset == old(writeOffset)
          && (f.data != [] || f.fin)
        && |f.data| == Min(maxLen, old(LenOfDataForWriting())) && writeOffset == f.offset + |f.data| < TWO_64
        && f.data == written[f.offset..writeOffset] && sent == old(sent) + [f] && finSent == (old(finSent) || f.fin)
        && (f.fin <==> finishedWriting && !old(finSent) && !failed && writeOffset == |written|)
    {
      hide Covers, OneFin;
      ghost var offset := writeOffset;
      var data := GetDataForWriting(maxLen);
      var fin := ShouldSendFin();
      if data == None && !fin {
        return None;
      }
      var bytes := if data.Some? then data.value else [];
      assert bytes == written[offset..writeOffset];
      var f := MakeFrame(offset, bytes, fin);
      return Some(f);
    }
  }
}
