/**
 * The exported-PDU record a capture holds for each packet: the original
 * source address at bytes [12, 16), the destination at [20, 24), and the
 * application payload from byte 60 on (`parseExportedPdu`).
 */
module ExportedPdu {
  import opened Wrappers
  import opened DottedAddress

  const SourceOffset: nat := 12
  const DestinationOffset: nat := 20
  const AddressLength: nat := 4
  const PayloadOffset: nat := 60

  /** What `parseExportedPdu` returns: source text, destination text, payload. */
  datatype Frame = Frame(source: string, destination: string, data: seq<byte>)

  function Min(a: nat, b: nat): nat {
    if a <= b then a else b
  }

  /** Python's `s[lo:hi]` for non-negative bounds: clamped to the length, never an error. */
  function Slice(s: seq<byte>, lo: nat, hi: nat): seq<byte>
  {
    if lo < Min(hi, |s|) then s[lo..Min(hi, |s|)] else []
  }

  /** Python's `s[lo:]`: the suffix from `lo`, empty when `lo` is past the end. */
  function Drop(s: seq<byte>, lo: nat): seq<byte>
  {
    if lo < |s| then s[lo..] else []
  }

  function ParseExportedPdu(record: seq<byte>): Frame
  {
    var source := BytesToIP(Slice(record, SourceOffset, SourceOffset + AddressLength));
    var destination := BytesToIP(Slice(record, DestinationOffset, DestinationOffset + AddressLength));
    var data := Drop(record, PayloadOffset);
    Frame(source, destination, data)
  }

  /**
   * Each address text reads back as exactly the bytes the record holds in
   * its field, however short the record (a truncated field reads back truncated).
   */
  lemma ParseExportedPduAddresses(record: seq<byte>)
    ensures ParseIP(ParseExportedPdu(record).source) == Some(Slice(record, 12, 16))
    ensures ParseIP(ParseExportedPdu(record).destination) == Some(Slice(record, 20, 24))
  {
    ParseBytesToIP(Slice(record, 12, 16));
    ParseBytesToIP(Slice(record, 20, 24));
  }

  /** A record long enough for both fields yields two dotted quads: four pieces, three dots each. */
  lemma ParseExportedPduDottedQuads(record: seq<byte>)
    requires |record| >= 24
    ensures ParseIP(ParseExportedPdu(record).source) == Some(record[12..16])
    ensures ParseIP(ParseExportedPdu(record).destination) == Some(record[20..24])
    ensures |Split(ParseExportedPdu(record).source)| == 4
    ensures multiset(ParseExportedPdu(record).source)[Dot] == 3
    ensures |Split(ParseExportedPdu(record).destination)| == 4
    ensures multiset(ParseExportedPdu(record).destination)[Dot] == 3
  {
    assert Slice(record, 12, 16) == record[12..16];
    assert Slice(record, 20, 24) == record[20..24];
    ParseExportedPduAddresses(record);
    BytesToIPShape(record[12..16]);
    BytesToIPShape(record[20..24]);
  }

  /** The payload is the record's suffix from byte 60: `|record| - 60` bytes, or none at all. */
  lemma ParseExportedPduPayload(record: seq<byte>)
    ensures |record| >= 60 ==> ParseExportedPdu(record).data == record[60..]
    ensures |record| >= 60 ==> |ParseExportedPdu(record).data| == |record| - 60
    ensures |record| <= 60 ==> ParseExportedPdu(record).data == []
  {
  }

  /**
   * A short record is never an error: the payload is empty, an address
   * whose field starts past the end is "", and a partly present
   * destination has one piece per byte present.
   */
  lemma ParseExportedPduShortRecord(record: seq<byte>)
    requires |record| < 24
    ensures ParseExportedPdu(record).data == []
    ensures |record| <= 20 ==> ParseExportedPdu(record).destination == ""
    ensures |record| <= 12 ==> ParseExportedPdu(record).source == ""
    ensures 20 < |record| ==> |Split(ParseExportedPdu(record).destination)| == |record| - 20
  {
    if 20 < |record| {
      assert Slice(record, 20, 24) == record[20..];
      BytesToIPShape(record[20..]);
    }
  }

  /**
   * The layout read the other way: a 60-byte header followed by a payload
   * parses to the header's two address fields and exactly that payload.
   */
  lemma ParseExportedPduOfLayout(header: seq<byte>, payload: seq<byte>)
    requires |header| == PayloadOffset
    ensures ParseExportedPdu(header + payload)
         == Frame(BytesToIP(header[12..16]), BytesToIP(header[20..24]), payload)
  {
    var record := header + payload;
    assert Slice(record, 12, 16) == header[12..16];
    assert Slice(record, 20, 24) == header[20..24];
    assert Drop(record, 60) == payload;
  }
}
