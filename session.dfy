/**
 * The endpoint filter and the direction of an admitted frame: a frame
 * belongs to the session when both of its addresses are one of the two
 * session addresses given on the command line, and it travels from the
 * client when its source is the client address.
 */
module Session {
  import opened Wrappers
  import opened DottedAddress
  import opened ExportedPdu

  /** The two transport legs of the replayed connection. */
  datatype Leg = Client | Server

  /** `source in [client_ip, server_ip] and destination in [client_ip, server_ip]`. */
  predicate Admit(source: string, destination: string, client: string, server: string) {
    source in [client, server] && destination in [client, server]
  }

  /** The leg the payload is handed to: `source == client_ip` selects the client leg. */
  function LegOf(source: string, client: string): Leg {
    if source == client then Client else Server
  }

  /** Admission is membership of both endpoints in the session pair, in either order and possibly the same one twice. */
  lemma AdmitIsEndpointSubset(source: string, destination: string, client: string, server: string)
    ensures Admit(source, destination, client, server) <==> {source, destination} <= {client, server}
  {
  }

  /**
   * For an admitted frame the leg is Client exactly when the source is the
   * client address; otherwise the source is the server address.
   */
  lemma AdmittedLeg(source: string, destination: string, client: string, server: string)
    requires Admit(source, destination, client, server)
    ensures LegOf(source, client) == Client <==> source == client
    ensures LegOf(source, client) == Server ==> source == server && source != client
  {
  }

  /**
   * A frame from the client to the client is admitted, although its two
   * endpoints are not the session pair when the two addresses differ:
   * each endpoint is tested on its own.
   */
  lemma SelfTrafficAdmitted(client: string, server: string)
    ensures Admit(client, client, client, server)
    ensures client != server ==> {client, client} != {client, server}
  {
    if client != server {
      assert server in {client, server};
    }
  }

  /**
   * With session addresses that are the dotted texts of `clientAddress`
   * and `serverAddress`, the text filter on any record is the same test on
   * the raw (possibly truncated) address fields of the record.
   */
  lemma AdmitByAddressBytes(record: seq<byte>, clientAddress: seq<byte>, serverAddress: seq<byte>)
    ensures var f := ParseExportedPdu(record);
      (Admit(f.source, f.destination, BytesToIP(clientAddress), BytesToIP(serverAddress))
       <==> (Slice(record, 12, 16) in [clientAddress, serverAddress]
             && Slice(record, 20, 24) in [clientAddress, serverAddress]))
  {
    var f := ParseExportedPdu(record);
    var src, dst := Slice(record, 12, 16), Slice(record, 20, 24);
    if f.source == BytesToIP(clientAddress) { BytesToIPInjective(src, clientAddress); }
    if f.source == BytesToIP(serverAddress) { BytesToIPInjective(src, serverAddress); }
    if f.destination == BytesToIP(clientAddress) { BytesToIPInjective(dst, clientAddress); }
    if f.destination == BytesToIP(serverAddress) { BytesToIPInjective(dst, serverAddress); }
  }

  /**
   * With four-byte session addresses, a record too short to hold the whole
   * destination field is never admitted: the loop drops it silently.
   */
  lemma ShortRecordNeverAdmitted(record: seq<byte>, clientAddress: seq<byte>, serverAddress: seq<byte>)
    requires |record| < 24
    requires |clientAddress| == 4 && |serverAddress| == 4
    ensures var f := ParseExportedPdu(record);
      !Admit(f.source, f.destination, BytesToIP(clientAddress), BytesToIP(serverAddress))
  {
    AdmitByAddressBytes(record, clientAddress, serverAddress);
    assert |Slice(record, 20, 24)| < 4;
  }

  /**
   * A session address that is not dotted decimal text of bytes (a host
   * name, a leading zero, a byte over 255) never equals a frame's source
   * or destination, so no frame with it on either end is admitted.
   */
  lemma UnparsableEndpointNeverMatches(record: seq<byte>, address: string)
    requires ParseIP(address) == None
    ensures ParseExportedPdu(record).source != address
    ensures ParseExportedPdu(record).destination != address
  {
    ParseExportedPduAddresses(record);
  }
}
