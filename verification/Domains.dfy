/** IO event types, the two slots of a controller, and the slots that an event or a domain uses. */
module Domains {
  datatype Event =
    | ACCEPT | CONNECT | RECV | SEND | READV | WRITEV | SENDFILE | FILEREAD | FILEWRITE | FILEWATCH
    | RECVFROM | SENDTO | SEQUENCE

  datatype Slot = READ | WRITE

  datatype Domain = Read | Write | ReadWrite

  predicate EventUsesSlot(event: Event, slot: Slot) {
    match slot
    case READ => event in {ACCEPT, RECV, READV, RECVFROM, FILEREAD, FILEWATCH}
    case WRITE => event in {CONNECT, SEND, WRITEV, SENDTO, FILEWRITE, SENDFILE}
  }

  predicate DomainUsesSlot(domain: Domain, slot: Slot) {
    match domain
    case Read => slot == READ
    case Write => slot == WRITE
    case ReadWrite => true
  }

  /** Every slot the event needs belongs to the domain. */
  predicate Covers(domain: Domain, event: Event) {
    forall slot :: EventUsesSlot(event, slot) ==> DomainUsesSlot(domain, slot)
  }
}
