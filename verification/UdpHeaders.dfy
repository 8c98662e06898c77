/** The 16-byte datagram header: seconds, microseconds and a signed sequence number, big-endian. */
module UdpHeaders {
  import opened Common
  import opened BigEndian
  import opened Wire

  const UDP_HEADER_LEN: nat := 16

  datatype UdpHeader = UdpHeader(tvSec: nat, tvUsec: nat, seqNo: int)

  /** The ranges of the header's field types: two u32 and an i64. */
  predicate InRange(h: UdpHeader) {
    h.tvSec < 0x1_0000_0000 && h.tvUsec < 0x1_0000_0000 && -(I64_MAX as int) - 1 <= h.seqNo <= I64_MAX
  }

  /** Negative sequence numbers mark the end of a stream. */
  predicate IsSentinel(h: UdpHeader) { h.seqNo < 0 }

  function HeaderBytes(h: UdpHeader): (s: seq<Byte>)
    requires InRange(h)
    ensures |s| == UDP_HEADER_LEN
  {
    ToBytes(h.tvSec, 4) + ToBytes(h.tvUsec, 4) + ToBytes(AsU64(h.seqNo), 8)
  }

  function DecodeHeader(buf: seq<Byte>): Result<UdpHeader, IoError> {
    if |buf| < UDP_HEADER_LEN then Err(InvalidData)
    else
      Widths();
      Ok(UdpHeader(FromBytes(buf[0..4]), FromBytes(buf[4..8]), AsI64(FromBytes(buf[8..16]))))
  }

  /** Write the header over the front of a packet buffer, which must have room for it. */
  method EncodeHeader(h: UdpHeader, out: array<Byte>) returns (r: Result<(), IoError>)
    requires InRange(h)
    modifies out
    ensures r.Ok? <==> out.Length >= UDP_HEADER_LEN
    ensures r.Err? ==> r.error == InvalidInput && out[..] == old(out[..])
    ensures r.Ok? ==> out[..] == HeaderBytes(h) + old(out[UDP_HEADER_LEN..])
  {
    if out.Length < UDP_HEADER_LEN {
      return Err(InvalidInput);
    }
    var sec, usec, seqNo := ToBytes(h.tvSec, 4), ToBytes(h.tvUsec, 4), ToBytes(AsU64(h.seqNo), 8);
    forall i | 0 <= i < 4 { out[i] := sec[i]; }
    forall i | 4 <= i < 8 { out[i] := usec[i - 4]; }
    forall i | 8 <= i < 16 { out[i] := seqNo[i - 8]; }
    return Ok(());
  }

  /** Decoding a datagram that starts with an encoded header gives the header back. */
  lemma HeaderRoundTrip(h: UdpHeader, payload: seq<Byte>)
    requires InRange(h)
    ensures DecodeHeader(HeaderBytes(h) + payload) == Ok(h)
  {
    var s := HeaderBytes(h) + payload;
    Widths();
    assert s[0..4] == ToBytes(h.tvSec, 4);
    assert s[4..8] == ToBytes(h.tvUsec, 4);
    assert s[8..16] == ToBytes(AsU64(h.seqNo), 8);
    DecodeEncode(h.tvSec, 4);
    DecodeEncode(h.tvUsec, 4);
    DecodeEncode(AsU64(h.seqNo), 8);
  }

  /** Where each byte of the header comes from: seconds, microseconds and the number in two's complement,
      each with its most significant byte first. */
  lemma HeaderLayout(h: UdpHeader, i: nat)
    requires InRange(h) && i < 16
    ensures HeaderBytes(h)[i] ==
            if i < 4 then h.tvSec / Pow256(3 - i) % 256
            else if i < 8 then h.tvUsec / Pow256(7 - i) % 256
            else (if h.seqNo < 0 then h.seqNo + 0x1_0000_0000_0000_0000 else h.seqNo) / Pow256(15 - i) % 256
  {
    if i < 4 {
      ByteOrder(h.tvSec, 4, i);
    } else if i < 8 {
      ByteOrder(h.tvUsec, 4, i - 4);
    } else {
      ByteOrder(AsU64(h.seqNo), 8, i - 8);
    }
  }

  /** Every datagram of 16 bytes or more carries exactly one header, the one it decodes to. */
  lemma DecodedHeaderIsEncoded(buf: seq<Byte>)
    requires |buf| >= UDP_HEADER_LEN
    ensures DecodeHeader(buf).Ok? && InRange(DecodeHeader(buf).value)
    ensures HeaderBytes(DecodeHeader(buf).value) == buf[..UDP_HEADER_LEN]
  {
    Widths();
    EncodeDecode(buf[0..4]);
    EncodeDecode(buf[4..8]);
    EncodeDecode(buf[8..16]);
    assert buf[..UDP_HEADER_LEN] == buf[0..4] + buf[4..8] + buf[8..16];
  }
}
