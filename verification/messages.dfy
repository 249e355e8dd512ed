/** The values exchanged by the overlay: node contacts, resources and the
    closed set of tagged messages that peers and coordinators send each other. */
module Messages {

  datatype Option<+T> = None | Some(value: T)

  datatype Result<+R, +E> = Ok(value: R) | Err(error: E)

  /** Where a node can be reached: the name it goes by, its address and port. */
  datatype Contact = Contact(name: string, address: string, port: nat)

  /** A file a peer hosts: its name and the hex SHA-256 digest of its bytes. */
  datatype Resource = Resource(fileName: string, contentHash: string)

  datatype Status = Success | Failure

  /** One variant per message tag. The owner fields of a resourceResponse may be
      null on the wire, hence the options; its id may be absent. */
  datatype Message =
    | SuperNodeReady(superNodeName: string)
    | Register(peerNodeName: string, peerNodePort: nat, resources: seq<Resource>)
    | RegisterResponse(superNodeName: string, status: Status)
    | KeepAlive(peerNodeName: string)
    | ResourceTransfer(superNodeName: string, peerNodeName: string, peerNodeAddress: string,
                       peerNodePort: nat, resource: Resource)
    | ResourceRequest(peerNodeName: string, peerNodePort: nat, resourceNames: seq<string>)
    | ResourceResponse(responseId: Option<string>, superNodeName: string, ownerName: Option<string>,
                       ownerAddress: Option<string>, ownerPort: Option<nat>, resourceName: string)
    | ResourceSearch(id: string, superNodeName: string, resourceName: string)
    | ResourceContent(peerNodeName: string, content: string)

  /** A datagram handed to the transport: the destination and the payload. */
  datatype Envelope = Envelope(to: Contact, msg: Message)
}
