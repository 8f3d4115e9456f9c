/** The subprocess ingress session of go/subprocess_ingress.go as a value, and what each of its
    critical sections does to it. The class SubprocessIngressSession is proved against these
    functions; SessionRuns interleaves them with the broker's. */
module SessionState {
  import opened Abi
  import opened BrokerState
  import opened PacketCodec
  import PacketStream

  /** subprocessPendingKey. */
  datatype Key = Key(handle: uint64, correlation: Correlation)

  /** subprocessPending; `waiter` names the one-slot channel of the assign call that inserted it. */
  datatype Entry = Entry(waiter: nat, expiresAt: Time, acknowledged: bool)

  type Pendings = map<Key, Entry>

  /** What each one-slot channel holds. */
  type Mail = map<nat, byte>

  /** `inFlight` is the count of opWG, `written` is writeSequence. */
  datatype Session = Session(
    generation: uint64, accepting: bool, inFlight: nat, pending: Pendings, mail: Mail, written: uint64)

  /** The ACK section's outcome: nothing to do, a waiter to tell after unlocking, or a failure. */
  datatype Heard = Ignored | Told(waiter: nat, status: byte) | Broken(error: IngressError)

  function KeyOf(a: ConnectionAssignment): Key {
    Key(a.handle, a.correlation)
  }

  /** A send that gives up if the slot is taken. */
  function Post(mail: Mail, waiter: nat, status: byte): Mail {
    if waiter in mail then mail else mail[waiter := status]
  }

  /** assign under opMu. */
  function Enter(s: Session): Session {
    if s.accepting then s.(inFlight := s.inFlight + 1) else s
  }

  /** assign under mu; nothing happens if the key is already pending. */
  function Insert(s: Session, a: ConnectionAssignment, waiter: nat): Session {
    if KeyOf(a) in s.pending then s
    else s.(pending := s.pending[KeyOf(a) := Entry(waiter, a.expiresAt, false)])
  }

  /** The packet an assignment is sent as. */
  function AssignmentPacket(a: ConnectionAssignment): Packet {
    Assignment(a.handle, a.correlation, ToUnsigned(UnixMilli(a.expiresAt)))
  }

  /** assign under writeMu, up to the connection's Write: the new state and the packet to write,
      unless the assignment is no longer live. */
  function Write(s: Session, mac: Mac, key: Bytes, a: ConnectionAssignment, now: Time): (Session, Option<Bytes>) {
    if !LiveAt(a.expiresAt, now) then (s, None)
    else
      var sequence := PacketStream.Succ(s.written);
      (s.(written := sequence), Some(Layout(mac, key, s.generation, sequence, AssignmentPacket(a))))
  }

  /** The read loop's section for an ACK, with clock reading `now`. */
  function HearAck(s: Session, key: Key, status: byte, now: Time): (Session, Heard) {
    if key !in s.pending then (s, Ignored)
    else
      var entry := s.pending[key];
      if now >= entry.expiresAt then (RemovePending(s, key), Told(entry.waiter, ACK_NEGATIVE))
      else if status == ACK_POSITIVE then
        if entry.acknowledged then (s, Broken(Duplicate))
        else (s.(pending := s.pending[key := entry.(acknowledged := true)]), Told(entry.waiter, status))
      else if entry.acknowledged then (s, Broken(Rejected))
      else (RemovePending(s, key), Told(entry.waiter, status))
  }

  /** The read loop's section for a verified frame: the entry is taken whatever its state. */
  function Take(s: Session, key: Key): (Session, Option<Entry>) {
    (RemovePending(s, key), if key in s.pending then Some(s.pending[key]) else None)
  }

  function RemovePending(s: Session, key: Key): Session {
    s.(pending := s.pending - {key})
  }

  function ExpirePending(s: Session, key: Key, expiresAt: Time): Session {
    if key in s.pending && s.pending[key].expiresAt == expiresAt then
      RemovePending(s, key).(mail := Post(s.mail, s.pending[key].waiter, ACK_NEGATIVE))
    else s
  }

  function Waiters(pending: Pendings): set<nat> {
    set k | k in pending :: pending[k].waiter
  }

  /** close's last section: every waiter is told, and the table emptied. */
  function NotifyAll(s: Session): Session {
    s.(pending := map[],
       mail := map w | w in s.mail.Keys + Waiters(s.pending) :: if w in s.mail then s.mail[w] else ACK_NEGATIVE)
  }
}
