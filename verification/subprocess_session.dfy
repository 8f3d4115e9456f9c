/** go/subprocess_ingress.go: the session object. Each method is one section under one of its
    locks, proved against the function of SessionState it implements; SessionRuns composes
    them. Channels are slots in `mail`; the connection's Write is left to the caller. */
module SubprocessSession {
  import opened Abi
  import opened BrokerState
  import opened PacketCodec
  import opened SessionState
  import PacketStream

  class SubprocessIngressSession {
    const generation: uint64
    const key: array<byte>
    var writeSequence: uint64
    var accepting: bool
    var inFlight: nat
    var pending: Pendings
    var mail: Mail
    var closeErr: Option<IngressError>

    function State(): Session
      reads this
    {
      Session(generation, accepting, inFlight, pending, mail, writeSequence)
    }

    constructor (generation: uint64, key: array<byte>)
      ensures State() == Session(generation, true, 0, map[], map[], 0)
      ensures fresh(this.key) && this.key[..] == key[..] && closeErr == None
    {
      this.generation := generation;
      var copied := new byte[key.Length](i requires 0 <= i < key.Length reads key => key[i]);
      this.key := copied;
      accepting, inFlight, writeSequence := true, 0, 0;
      pending, mail, closeErr := map[], map[], None;
      new;
      assert copied[..] == key[..];
    }

    /** assign, under opMu. */
    method EnterOperation() returns (entered: bool)
      modifies this
      ensures entered == old(accepting) && State() == Enter(old(State())) && closeErr == old(closeErr)
    {
      if !accepting { return false; }
      inFlight := inFlight + 1;
      return true;
    }

    /** assign, under mu. */
    method InsertPending(a: ConnectionAssignment, waiter: nat) returns (inserted: bool)
      modifies this`pending
      ensures inserted <==> KeyOf(a) !in old(pending)
      ensures State() == Insert(old(State()), a, waiter)
    {
      if KeyOf(a) in pending { return false; }
      pending := pending[KeyOf(a) := Entry(waiter, a.expiresAt, false)];
      return true;
    }

    /** assign, under writeMu. */
    method WriteAssignment(mac: Mac, a: ConnectionAssignment, now: Time) returns (packet: Option<Bytes>)
      modifies this`writeSequence
      ensures (State(), packet) == Write(old(State()), mac, key[..], a, now)
    {
      if a.expiresAt <= now || Sub(a.expiresAt, now) > MAX_INGRESS_LIFETIME { return None; }
      writeSequence := PacketStream.Succ(writeSequence);
      var buffer := EncodeAssignment(mac, key[..], generation, writeSequence, a.handle, a.correlation,
                                     ToUnsigned(UnixMilli(a.expiresAt)));
      return Some(buffer[..]);
    }

    /** readLoop's case for an ACK, under mu. */
    method ReceiveAck(k: Key, status: byte, now: Time) returns (heard: Heard)
      modifies this`pending
      ensures (State(), heard) == HearAck(old(State()), k, status, now)
    {
      if k !in pending { return Ignored; }
      var entry := pending[k];
      if !(now < entry.expiresAt) {
        pending := pending - {k};
        return Told(entry.waiter, ACK_NEGATIVE);
      }
      if status == ACK_POSITIVE {
        if entry.acknowledged { return Broken(Duplicate); }
        pending := pending[k := entry.(acknowledged := true)];
      } else {
        if entry.acknowledged { return Broken(Rejected); }
        pending := pending - {k};
      }
      return Told(entry.waiter, status);
    }

    /** readLoop's case for a verified frame, under mu. */
    method TakePending(k: Key) returns (taken: Option<Entry>)
      modifies this`pending
      ensures (State(), taken) == Take(old(State()), k)
    {
      if k !in pending {
        assert pending - {k} == pending;
        return None;
      }
      taken := Some(pending[k]);
      pending := pending - {k};
    }

    method RemovePending(k: Key)
      modifies this`pending
      ensures State() == SessionState.RemovePending(old(State()), k)
    {
      if k in pending { pending := pending - {k}; } else { assert pending - {k} == pending; }
    }

    /** A send that gives up if the slot is taken. */
    method TrySend(waiter: nat, status: byte)
      modifies this`mail
      ensures mail == Post(old(mail), waiter, status)
    {
      if waiter !in mail { mail := mail[waiter := status]; }
    }

    method ExpirePending(k: Key, expiresAt: Time)
      modifies this`pending, this`mail
      ensures State() == SessionState.ExpirePending(old(State()), k, expiresAt)
    {
      if k !in pending || pending[k].expiresAt != expiresAt { return; }
      var entry := pending[k];
      pending := pending - {k};
      TrySend(entry.waiter, ACK_NEGATIVE);
    }

    /** close's first two sections. */
    method CloseGate(reason: IngressError)
      modifies this`accepting, this`closeErr
      ensures State() == old(State()).(accepting := false) && closeErr == Some(reason)
    {
      accepting := false;
      closeErr := Some(reason);
    }

    /** close's last section, under mu. */
    method NotifyAndClear()
      modifies this`pending, this`mail
      ensures State() == NotifyAll(old(State()))
    {
      var rest := pending.Keys;
      while rest != {}
        invariant rest <= pending.Keys && pending == old(pending)
        invariant mail.Keys == old(mail).Keys + (set k | k in pending && k !in rest :: pending[k].waiter)
        invariant forall w :: w in mail ==> mail[w] == if w in old(mail) then old(mail)[w] else ACK_NEGATIVE
        decreases rest
      {
        var k :| k in rest;
        TrySend(pending[k].waiter, ACK_NEGATIVE);
        rest := rest - {k};
      }
      assert mail.Keys == old(mail).Keys + Waiters(old(pending));
      pending := map[];
    }

    /** wait, once the reader and every operation are done. */
    method ZeroKey()
      modifies key
      ensures forall i :: 0 <= i < key.Length ==> key[i] == 0
    {
      var i := 0;
      while i < key.Length
        invariant 0 <= i <= key.Length
        invariant forall j :: 0 <= j < i ==> key[j] == 0
      {
        key[i] := 0;
        i := i + 1;
      }
    }
  }
}
