/** The public header of a packet (public_header.go). Versions are the tags that stand for them on the wire. */
module PublicHeaders {
  import opened Common
  import opened Sequences
  import opened Wire

  datatype PublicHeader = PublicHeader(
    connectionID: nat,
    versionFlag: bool,
    resetFlag: bool,
    truncateConnectionID: bool,
    packetNumberLen: nat,
    packetNumber: nat,
    versionTag: nat,
    supportedVersions: seq<nat>,
    diversificationNonce: seq<byte>)

  predicate HasPacketNumber(versionFlag: bool, resetFlag: bool, sentBy: Perspective) {
    !resetFlag && !(versionFlag && sentBy == Server)
  }

  function Flags(version: bool, reset: bool, nonce: bool, id: bool, lenBits: nat): byte
    requires lenBits < 4
  {
    (if version then 0x01 else 0) + (if reset then 0x02 else 0) + (if nonce then 0x04 else 0) + (if id then 0x08 else 0)
      + lenBits * 0x10
  }

  /** Version flag, reset flag, nonce flag, connection ID flag, and the bits for the length of the packet number. */
  function Fields(t: byte): (r: (bool, bool, bool, bool, nat))
    ensures r.4 < 4
  {
    (t % 2 == 1, t / 2 % 2 == 1, t / 4 % 2 == 1, t / 8 % 2 == 1, t / 0x10 % 4)
  }

  lemma Digits(a: nat, b: nat, c: nat, d: nat, e: nat)
    requires a < 2 && b < 2 && c < 2 && d < 2 && e < 4
    ensures var t := a + b * 2 + c * 4 + d * 8 + e * 0x10;
      t % 2 == a && t / 2 % 2 == b && t / 4 % 2 == c && t / 8 % 2 == d && t / 0x10 % 4 == e
  {
    var t := a + b * 2 + c * 4 + d * 8 + e * 0x10;
    assert t / 2 == b + c * 2 + d * 4 + e * 8;
    assert t / 4 == c + d * 2 + e * 4;
    assert t / 8 == d + e * 2;
    assert t / 0x10 == e;
  }

  lemma FlagFields(version: bool, reset: bool, nonce: bool, id: bool, lenBits: nat)
    requires lenBits < 4
    ensures Fields(Flags(version, reset, nonce, id, lenBits)) == (version, reset, nonce, id, lenBits)
  {
    Digits(if version then 1 else 0, if reset then 1 else 0, if nonce then 1 else 0, if id then 1 else 0, lenBits);
  }

  function Write(h: PublicHeader, sentBy: Perspective): (r: Result<seq<byte>>)
    ensures r.Ok? <==>
      && !(h.versionFlag && h.resetFlag) && |h.diversificationNonce| in {0, 32}
      && (HasPacketNumber(h.versionFlag, h.resetFlag, sentBy) ==> h.packetNumberLen in {1, 2, 4, 6})
  {
    var has := HasPacketNumber(h.versionFlag, h.resetFlag, sentBy);
    if (h.versionFlag && h.resetFlag) || |h.diversificationNonce| !in {0, 32}
      || (has && h.packetNumberLen !in {1, 2, 4, 6}) then Err
    else
      var t := Flags(h.versionFlag, h.resetFlag, h.diversificationNonce != [], !h.truncateConnectionID,
        if has then LenBits(h.packetNumberLen) else 0);
      Ok([t] +
         ((if h.truncateConnectionID then [] else ToBytes(h.connectionID, 8)) +
          ((if h.versionFlag && sentBy == Client then ToBytes(h.versionTag, 4) else []) +
           (h.diversificationNonce + if has then ToBytes(h.packetNumber, h.packetNumberLen) else []))))
  }

  /** The length of the header of a regular packet. */
  function GetLength(h: PublicHeader, sentBy: Perspective): Result<nat> {
    if h.versionFlag && (h.resetFlag || sentBy == Server) then Err
    else if HasPacketNumber(h.versionFlag, h.resetFlag, sentBy) && h.packetNumberLen !in {1, 2, 4, 6} then Err
    else
      Ok(1 + (if HasPacketNumber(h.versionFlag, h.resetFlag, sentBy) then h.packetNumberLen else 0) +
         (if h.truncateConnectionID then 0 else 8) + (if h.versionFlag then 4 else 0) + |h.diversificationNonce|)
  }

  lemma LengthIsExact(h: PublicHeader, sentBy: Perspective)
    requires GetLength(h, sentBy).Ok? && Write(h, sentBy).Ok?
    ensures |Write(h, sentBy).value| == GetLength(h, sentBy).value
  {
  }

  function ReadBytes(input: seq<byte>, n: nat): Result<(seq<byte>, seq<byte>)> {
    if |input| < n then Err else Ok((input[..n], input[n..]))
  }

  function ReadVersions(input: seq<byte>): seq<nat> {
    if |input| < 4 then [] else [FromBytes(input[..4])] + ReadVersions(input[4..])
  }

  /** The header of a packet that the given side sent, and the bytes after it. */
  function Parse(input: seq<byte>, sentBy: Perspective): Result<(PublicHeader, seq<byte>)> {
    var (t, rest) :- ReadByte(input);
    var (version, reset, nonceFlag, hasID, lenBits) := Fields(t);
    if !hasID && sentBy == Client then Err
    else
      var has := HasPacketNumber(version, reset, sentBy);
      var len := if has then LenFromBits(lenBits) else 0;
      var (id, rest) :- if hasID then ReadUint(rest, 8) else Ok((0, rest));
      if hasID && id == 0 then Err
      else
        var (nonce, rest) :- if sentBy == Server && nonceFlag && !version && !reset then ReadBytes(rest, 32)
          else Ok(([], rest));
        if version && !reset && sentBy == Server then
          if |rest| % 4 != 0 then Err
            else Ok((PublicHeader(id, version, reset, !hasID, 0, 0, 0, ReadVersions(rest), nonce), []))
        else
          var (tag, rest) :- if version && !reset then ReadUint(rest, 4) else Ok((0, rest));
          var (number, rest) :- if has then ReadUint(rest, len) else Ok((0, rest));
          Ok((PublicHeader(id, version, reset, !hasID, len, number, tag, [], nonce), rest))
  }

  /**
   What the packer puts into a header: a version only from a client, a nonce and a truncated ID only from a server.
   */
  ghost predicate Regular(h: PublicHeader, sentBy: Perspective) {
    && !h.resetFlag && h.packetNumberLen in {1, 2, 4, 6} && h.supportedVersions == []
    && (if h.truncateConnectionID then sentBy == Server && h.connectionID == 0 else 0 < h.connectionID < TWO_64)
    && (if h.versionFlag then sentBy == Client && h.versionTag < 0x1_0000_0000 else h.versionTag == 0)
    && (h.diversificationNonce == [] || (sentBy == Server && |h.diversificationNonce| == 32))
  }

  /** A header is read back, with the low bytes of the packet number. */
  lemma ReadWrittenHeader(h: PublicHeader, sentBy: Perspective, rest: seq<byte>)
    requires Regular(h, sentBy)
    ensures Write(h, sentBy).Ok?
    ensures Parse(Write(h, sentBy).value + rest, sentBy)
      == Ok((h.(packetNumber := h.packetNumber % Pow256(h.packetNumberLen)), rest))
  {
    hide ToBytes, FromBytes, Pow256, ReadUint, ReadByte, Flags, Fields;
    PowValues();
    var t := Flags(h.versionFlag, h.resetFlag, h.diversificationNonce != [], !h.truncateConnectionID,
      LenBits(h.packetNumberLen));
    FlagFields(h.versionFlag, h.resetFlag, h.diversificationNonce != [], !h.truncateConnectionID,
      LenBits(h.packetNumberLen));
    var id: seq<byte> := if h.truncateConnectionID then [] else ToBytes(h.connectionID, 8);
    var tag: seq<byte> := if h.versionFlag then ToBytes(h.versionTag, 4) else [];
    var nonce, number := h.diversificationNonce, ToBytes(h.packetNumber, h.packetNumberLen);
    var r4 := number + rest;
    var r3 := nonce + r4;
    var r2 := tag + r3;
    var r1 := id + r2;
    assert Write(h, sentBy).value + rest == [t] + r1 by { ConcatLast([t], id, tag, nonce, number, rest); }
    ReadWrittenByte(t, r1);
    if h.truncateConnectionID { assert r1 == r2; } else { ReadWritten(h.connectionID, 8, r2); }
    if nonce == [] { assert r3 == r4; } else { assert r3[..32] == nonce && r3[32..] == r4; }
    if h.versionFlag { ReadWritten(h.versionTag, 4, r3); } else { assert r2 == r3; }
    ReadCut(h.packetNumber, h.packetNumberLen, rest);
  }

  /** The packet with which a server answers a version that it does not support: its versions behind a header. */
  function ComposeVersionNegotiation(connectionID: nat, tags: seq<nat>): seq<byte> {
    Write(PublicHeader(connectionID, true, false, false, 0, 1, 0, [], []), Server).value + TagBytes(tags)
  }

  function TagBytes(tags: seq<nat>): (bytes: seq<byte>)
    ensures |bytes| == 4 * |tags|
  {
    if tags == [] then [] else ToBytes(tags[0], 4) + TagBytes(tags[1..])
  }

  lemma {:induction false} ReadWrittenTags(tags: seq<nat>)
    requires forall t | t in tags :: t < 0x1_0000_0000
    ensures ReadVersions(TagBytes(tags)) == tags
  {
    hide ToBytes, FromBytes, Pow256;
    if tags != [] {
      PowValues();
      assert tags[0] in tags && forall t | t in tags[1..] :: t in tags;
      ReadWritten(tags[0], 4, TagBytes(tags[1..]));
      ReadWrittenTags(tags[1..]);
    }
  }

  /** The client reads all versions of the server, in their order. */
  lemma ReadVersionNegotiation(connectionID: nat, tags: seq<nat>)
    requires 0 < connectionID < TWO_64 && forall t | t in tags :: t < 0x1_0000_0000
    ensures Parse(ComposeVersionNegotiation(connectionID, tags), Server)
      == Ok((PublicHeader(connectionID, true, false, false, 0, 0, 0, tags, []), []))
  {
    hide ToBytes, FromBytes, Pow256, ReadByte, ReadVersions, Flags, Fields;
    PowValues();
    var t, rest := Flags(true, false, false, true, 0), TagBytes(tags);
    FlagFields(true, false, false, true, 0);
    var id := ToBytes(connectionID, 8);
    assert ComposeVersionNegotiation(connectionID, tags) == [t] + (id + rest);
    ReadWrittenByte(t, id + rest);
    ReadWritten(connectionID, 8, rest);
    ReadWrittenTags(tags);
  }
}
